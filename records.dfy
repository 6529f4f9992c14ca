/** The entities the record pages share: a record of a dynamic table, its
    review status, the batch tag an import stamps into its data, and the
    field definitions that give a table its columns. */
module Records {
  import opened Wrappers
  import opened Objects

  /** The review state of a record: `pending`, `approved` or `rejected`. */
  datatype Status = Pending | Approved | Rejected

  /** The key under which a CSV import stamps its batch id into every
      record's data. */
  const BatchKey: string := "_batch_id"

  /** A stored record, with the table and module names the review page
      joins to it. Data values are the text the forms and imports write;
      timestamps are numbers. */
  datatype Record = Record(
    id: string,
    tableId: string,
    data: Dict<string>,
    status: Status,
    createdBy: Option<string>,
    createdAt: int,
    approvedBy: Option<string>,
    rejectionReason: Option<string>,
    updatedAt: Option<int>,
    tableName: Option<string>,
    moduleName: Option<string>)

  /** The payload of a record about to be inserted. */
  datatype Draft = Draft(tableId: string, data: Dict<string>, createdBy: Option<string>, status: Status)

  /** An entry of a select field: what is shown and what is stored. */
  datatype SelectOption = SelectOption(caption: string, value: string)

  /** A field of a table as the record page loads it: the stored key of its
      values in a record's data, the caption, the input type and whether a
      value is required. */
  datatype Field = Field(id: string, name: string, caption: string, fieldType: string, isRequired: bool, options: seq<SelectOption>)

  /** The batch id stamped in a record's data, when there is a non-empty
      one: `r.data?._batch_id` taken as a truth value. */
  function BatchOf(data: Dict<string>): (r: Option<string>)
    ensures r.Some? <==> Get(data, BatchKey).Some? && Get(data, BatchKey).value != ""
    ensures r.Some? ==> r.value != "" && Get(data, BatchKey) == r
  {
    match Get(data, BatchKey)
    case Some(b) => if b != "" then Some(b) else None
    case None => None
  }
}
