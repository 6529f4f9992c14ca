/** The record page of one table (`CrudPage.tsx`): the automatic mapping of
    CSV columns to fields, the materialization of imported rows into
    pending records that share one batch id, the chunked insertion, the
    required-field check of the manual form, the record list that saving
    and deleting update, the search filter and the export of what the
    filter keeps. */
module CrudPage {
  import opened Wrappers
  import opened Text
  import opened Seqs
  import opened Objects
  import opened Records
  import opened Csv

  // ---------------------------------------------------------------------
  // Automatic mapping of CSV columns

  /** The mapping target that means "do not import this column". */
  const Ignore: string := "ignore"

  /** A header names a field when it equals the field's caption or its
      stored name, ignoring letter case. */
  predicate FieldMatches(f: Field, h: string) {
    ToLower(f.caption) == ToLower(h) || ToLower(f.name) == ToLower(h)
  }

  /** `fields.find(...)`: the first field the header names. */
  function MatchField(fields: seq<Field>, h: string): (r: Option<Field>)
    ensures r.None? <==> forall i :: 0 <= i < |fields| ==> !FieldMatches(fields[i], h)
    ensures r.Some? ==> exists i :: 0 <= i < |fields| && fields[i] == r.value
                          && FieldMatches(fields[i], h)
                          && forall j :: 0 <= j < i ==> !FieldMatches(fields[j], h)
  {
    if fields == [] then None
    else if FieldMatches(fields[0], h) then Some(fields[0])
    else
      var r := MatchField(fields[1..], h);
      assert forall i :: 1 <= i < |fields| ==> fields[i] == fields[1..][i - 1];
      if r.Some? then
        var i :| 0 <= i < |fields[1..]| && fields[1..][i] == r.value
                 && FieldMatches(fields[1..][i], h)
                 && forall j :: 0 <= j < i ==> !FieldMatches(fields[1..][j], h);
        assert fields[i + 1] == r.value;
        r
      else r
  }

  /** The initial target of one header: the stored name of the field it
      names, or `ignore`. */
  function AutoTarget(fields: seq<Field>, h: string): (r: string)
    ensures (forall i :: 0 <= i < |fields| ==> !FieldMatches(fields[i], h)) ==> r == Ignore
    ensures (exists i :: 0 <= i < |fields| && FieldMatches(fields[i], h)) ==>
              exists i :: 0 <= i < |fields| && FieldMatches(fields[i], h) && r == fields[i].name
                          && forall j :: 0 <= j < i ==> !FieldMatches(fields[j], h)
  {
    match MatchField(fields, h)
    case Some(f) => f.name
    case None => Ignore
  }

  function AutoTargets(headers: seq<string>, fields: seq<Field>): (r: seq<string>)
    ensures |r| == |headers|
    ensures forall i :: 0 <= i < |headers| ==> r[i] == AutoTarget(fields, headers[i])
  {
    seq(|headers|, i requires 0 <= i < |headers| => AutoTarget(fields, headers[i]))
  }

  /** The initial mapping: one entry per header, in header order, holding
      the stored name of the first field whose caption or name equals the
      header ignoring case, else `ignore`. */
  function AutoMap(headers: seq<string>, fields: seq<Field>): (r: Dict<string>)
    ensures Valid(r) && r.keys == Dedup(headers)
    ensures forall h :: h in headers ==> Get(r, h) == Some(AutoTarget(fields, h))
    ensures forall h :: h !in headers ==> Get(r, h) == None
  {
    var r := FromPairs(headers, AutoTargets(headers, fields));
    forall h
      ensures Get(r, h) == if h in headers then Some(AutoTarget(fields, h)) else None
    {
      FromPairsUniform(headers, AutoTargets(headers, fields), h => AutoTarget(fields, h), h);
    }
    r
  }

  /** The match ignores letter case. */
  lemma {:induction false} AutoTargetIgnoresCase(fields: seq<Field>, h: string)
    ensures AutoTarget(fields, ToLower(h)) == AutoTarget(fields, h)
  {
    ToLowerIdempotent(h);
    MatchFieldIgnoresCase(fields, h);
  }

  lemma {:induction false} MatchFieldIgnoresCase(fields: seq<Field>, h: string)
    ensures MatchField(fields, ToLower(h)) == MatchField(fields, h)
    decreases |fields|
  {
    ToLowerIdempotent(h);
    if fields != [] {
      MatchFieldIgnoresCase(fields[1..], h);
    }
  }

  // ---------------------------------------------------------------------
  // Materializing imported rows

  /** The field a column is imported into: its mapping target when that is
      set and is not `ignore`. */
  function MappedTarget(mapping: Dict<string>, h: string): (r: Option<string>)
    ensures r.Some? <==> Get(mapping, h).Some? && Get(mapping, h).value != "" && Get(mapping, h).value != Ignore
    ensures r.Some? ==> Get(mapping, h) == r
  {
    match Get(mapping, h)
    case Some(t) => if t != "" && t != Ignore then Some(t) else None
    case None => None
  }

  /** A row's value under a header, when it is there and not empty. */
  function CellValue(row: Dict<string>, h: string): (r: Option<string>)
    ensures r.Some? <==> Get(row, h).Some? && Get(row, h).value != ""
    ensures r.Some? ==> Get(row, h) == r
  {
    match Get(row, h)
    case Some(v) => if v != "" then Some(v) else None
    case None => None
  }

  /** The data the loop over the mapping's headers has built after the
      given headers: each mapped, non-empty cell written under its target
      field. */
  function CopiedData(mapping: Dict<string>, row: Dict<string>, headers: seq<string>): (r: Dict<string>)
    ensures Valid(r)
    decreases |headers|
  {
    if headers == [] then Empty()
    else
      var n := |headers| - 1;
      var d := CopiedData(mapping, row, headers[..n]);
      var h := headers[n];
      if MappedTarget(mapping, h).Some? && CellValue(row, h).Some? then
        Put(d, MappedTarget(mapping, h).value, CellValue(row, h).value)
      else d
  }

  /** Some header among the given ones is mapped and has a value. */
  predicate HasData(mapping: Dict<string>, row: Dict<string>, headers: seq<string>) {
    exists h :: h in headers && MappedTarget(mapping, h).Some? && CellValue(row, h).Some?
  }

  /** What one row becomes: nothing when no mapped column has a value;
      otherwise a pending record of the table holding the copied values and
      the batch id under `_batch_id`. */
  function RowDraft(mapping: Dict<string>, row: Dict<string>, batchId: string, tableId: string, createdBy: Option<string>): (r: Option<Draft>)
    ensures r.Some? <==> exists h :: h in mapping.keys && MappedTarget(mapping, h).Some? && CellValue(row, h).Some?
    ensures r.Some? ==> r.value.status == Pending && r.value.tableId == tableId && r.value.createdBy == createdBy
    ensures r.Some? ==> Get(r.value.data, BatchKey) == Some(batchId)
  {
    if HasData(mapping, row, mapping.keys) then
      Some(Draft(tableId, Put(CopiedData(mapping, row, mapping.keys), BatchKey, batchId), createdBy, Pending))
    else None
  }

  /** The row loop: `Object.keys(mapping).forEach(...)` writes each mapped,
      non-empty value into the record's data and raises `hasData`; a row
      with data gets the batch id and becomes a pending draft. */
  method MaterializeRow(mapping: Dict<string>, row: Dict<string>, batchId: string, tableId: string, createdBy: Option<string>)
    returns (r: Option<Draft>)
    ensures r == RowDraft(mapping, row, batchId, tableId, createdBy)
  {
    var data := Empty();
    var hasData := false;
    var i := 0;
    while i < |mapping.keys|
      invariant 0 <= i <= |mapping.keys|
      invariant data == CopiedData(mapping, row, mapping.keys[..i])
      invariant hasData <==> HasData(mapping, row, mapping.keys[..i])
    {
      var h := mapping.keys[i];
      assert mapping.keys[..i + 1][..i] == mapping.keys[..i];
      assert mapping.keys[..i + 1] == mapping.keys[..i] + [h];
      var target := MappedTarget(mapping, h);
      if target.Some? {
        var value := CellValue(row, h);
        if value.Some? {
          data := Put(data, target.value, value.value);
          hasData := true;
        }
      }
      i := i + 1;
    }
    assert mapping.keys[..i] == mapping.keys;
    if !hasData {
      return None;
    }
    data := Put(data, BatchKey, batchId);
    r := Some(Draft(tableId, data, createdBy, Pending));
  }

  /** Only mapped, non-empty cells are copied: every value in the copied
      data is the cell of a header mapped to that field. */
  lemma {:induction false} CopiedDataSound(mapping: Dict<string>, row: Dict<string>, headers: seq<string>, t: string)
    requires Get(CopiedData(mapping, row, headers), t).Some?
    ensures exists h :: h in headers && MappedTarget(mapping, h) == Some(t)
                        && CellValue(row, h) == Get(CopiedData(mapping, row, headers), t)
    decreases |headers|
  {
    var n := |headers| - 1;
    var h := headers[n];
    if MappedTarget(mapping, h) == Some(t) && CellValue(row, h).Some? {
    } else {
      CopiedDataSound(mapping, row, headers[..n], t);
      var h' :| h' in headers[..n] && MappedTarget(mapping, h') == Some(t)
                && CellValue(row, h') == Get(CopiedData(mapping, row, headers[..n]), t);
      assert h' in headers;
    }
  }

  /** Every mapped column with a value lands in the data, and the value kept
      is the one of the last such column mapped to the same field. */
  lemma {:induction false} CopiedDataLastWins(mapping: Dict<string>, row: Dict<string>, headers: seq<string>, i: nat)
    requires i < |headers|
    requires MappedTarget(mapping, headers[i]).Some? && CellValue(row, headers[i]).Some?
    requires forall j :: i < j < |headers| ==>
               !(MappedTarget(mapping, headers[j]) == MappedTarget(mapping, headers[i]) && CellValue(row, headers[j]).Some?)
    ensures Get(CopiedData(mapping, row, headers), MappedTarget(mapping, headers[i]).value) == CellValue(row, headers[i])
    decreases |headers|
  {
    var n := |headers| - 1;
    if i < n {
      assert forall j :: i < j < n ==> headers[..n][j] == headers[j];
      CopiedDataLastWins(mapping, row, headers[..n], i);
      assert headers[..n][i] == headers[i];
      CopiedDataLastOther(mapping, row, headers, MappedTarget(mapping, headers[i]).value);
    }
  }

  /** A last column that does not write `key` leaves its value as the other columns set it. */
  lemma CopiedDataLastOther(mapping: Dict<string>, row: Dict<string>, headers: seq<string>, key: string)
    requires headers != []
    requires !(MappedTarget(mapping, headers[|headers| - 1]) == Some(key) && CellValue(row, headers[|headers| - 1]).Some?)
    ensures Get(CopiedData(mapping, row, headers), key) == Get(CopiedData(mapping, row, headers[..|headers| - 1]), key)
  {
  }

  /** The drafts of the rows that give one, in row order. */
  function Drafts(rows: seq<Dict<string>>, mapping: Dict<string>, batchId: string, tableId: string, createdBy: Option<string>): (r: seq<Draft>)
    ensures |r| <= |rows|
    ensures forall d :: d in r ==> d.status == Pending && d.tableId == tableId && Get(d.data, BatchKey) == Some(batchId)
    decreases |rows|
  {
    if rows == [] then []
    else
      var n := |rows| - 1;
      var init := Drafts(rows[..n], mapping, batchId, tableId, createdBy);
      match RowDraft(mapping, rows[n], batchId, tableId, createdBy)
      case Some(d) => init + [d]
      case None => init
  }

  /** A row contributes a record exactly when some mapped column of it has
      a value. */
  lemma {:induction false} DraftsCount(rows: seq<Dict<string>>, mapping: Dict<string>, batchId: string, tableId: string, createdBy: Option<string>)
    ensures Drafts(rows, mapping, batchId, tableId, createdBy) == [] <==>
              forall k :: 0 <= k < |rows| ==> !HasData(mapping, rows[k], mapping.keys)
    decreases |rows|
  {
    if rows != [] {
      var n := |rows| - 1;
      DraftsCount(rows[..n], mapping, batchId, tableId, createdBy);
      assert forall k :: 0 <= k < n ==> rows[..n][k] == rows[k];
    }
  }

  /** Rows go out in chunks of 50. */
  const ImportChunk: nat := 50

  const NoValidData: string := "Nenhum dado válido mapeado."

  /** How an import ends: all drafts stored, nothing to store, or a chunk
      whose insertion failed (the chunks before it are stored). */
  datatype ImportOutcome = Imported(count: nat) | NothingMapped | ChunkFailed(chunk: nat)

  /** The message the page shows for an outcome. */
  function OutcomeMessage(o: ImportOutcome, storeError: string): string {
    match o
    case Imported(n) => NatToDecimal(n) + " registros importados em lote!"
    case NothingMapped => "Erro: " + NoValidData
    case ChunkFailed(_) => "Erro: " + storeError
  }

  /** The records the rows materialize into, one per row that copies any value, in row order. */
  method BuildDrafts(rows: seq<Dict<string>>, mapping: Dict<string>, batchId: string, tableId: string, createdBy: Option<string>)
    returns (drafts: seq<Draft>)
    ensures drafts == Drafts(rows, mapping, batchId, tableId, createdBy)
  {
    drafts := [];
    var k := 0;
    while k < |rows|
      invariant 0 <= k <= |rows|
      invariant drafts == Drafts(rows[..k], mapping, batchId, tableId, createdBy)
    {
      DraftsStep(rows, k, mapping, batchId, tableId, createdBy);
      var d := MaterializeRow(mapping, rows[k], batchId, tableId, createdBy);
      drafts := drafts + if d.Some? then [d.value] else [];
      k := k + 1;
    }
    FullPrefix(rows);
  }

  lemma DraftsStep(rows: seq<Dict<string>>, k: nat, mapping: Dict<string>, batchId: string, tableId: string, createdBy: Option<string>)
    requires k < |rows|
    ensures Drafts(rows[..k + 1], mapping, batchId, tableId, createdBy)
            == var d := RowDraft(mapping, rows[k], batchId, tableId, createdBy);
               Drafts(rows[..k], mapping, batchId, tableId, createdBy) + if d.Some? then [d.value] else []
  {
    assert rows[..k + 1][..k] == rows[..k];
  }

  /** `processImport`: materialize every row, fail with nothing stored when
      no row yields a record, otherwise insert in chunks of 50 and stop at
      the first chunk the store rejects. `fails(k)` is the store's answer to
      chunk `k`; the batch id is the fresh UUID the page draws. */
  method ProcessImport(rows: seq<Dict<string>>, mapping: Dict<string>, batchId: string, tableId: string,
                       createdBy: Option<string>, fails: nat -> bool)
    returns (committed: seq<Draft>, outcome: ImportOutcome)
    ensures var drafts := Drafts(rows, mapping, batchId, tableId, createdBy);
      && (drafts == [] ==> outcome == NothingMapped && committed == [])
      && (drafts != [] ==> committed == CommittedUntilError(drafts, ImportChunk, fails))
      && (drafts != [] ==> outcome == if forall j :: 0 <= j < |Chunks(drafts, ImportChunk)| ==> !fails(j)
                                      then Imported(|drafts|)
                                      else ChunkFailed(FirstFailure(|Chunks(drafts, ImportChunk)|, fails)))
    ensures committed <= Drafts(rows, mapping, batchId, tableId, createdBy)
    ensures forall d :: d in committed ==> d.status == Pending && d.tableId == tableId && Get(d.data, BatchKey) == Some(batchId)
  {
    var drafts := BuildDrafts(rows, mapping, batchId, tableId, createdBy);
    if drafts == [] {
      return [], NothingMapped;
    }
    var ok;
    committed, ok := InsertStoppingAtError(drafts, ImportChunk, fails);
    CommittedUntilErrorIsPrefix(drafts, ImportChunk, fails);
    if ok {
      outcome := Imported(|drafts|);
    } else {
      var all := Chunks(drafts, ImportChunk);
      outcome := ChunkFailed(FirstFailure(|all|, fails));
    }
  }

  // ---------------------------------------------------------------------
  // The manual form

  /** A value that is absent, empty or blank after trimming. */
  predicate IsMissing(formData: Dict<string>, name: string) {
    match Get(formData, name)
    case None => true
    case Some(v) => IsBlank(v)
  }

  function RequiredMessage(caption: string): string {
    "\"" + caption + "\" é obrigatório."
  }

  /** The errors `validateForm` collects, in field order. */
  function RequiredErrors(fields: seq<Field>, formData: Dict<string>): (r: seq<string>)
    ensures |r| <= |fields|
    decreases |fields|
  {
    if fields == [] then []
    else
      var n := |fields| - 1;
      RequiredErrors(fields[..n], formData)
        + if fields[n].isRequired && IsMissing(formData, fields[n].name) then [RequiredMessage(fields[n].caption)] else []
  }

  /** The form is accepted exactly when every required field has a value
      that is not blank. */
  lemma {:induction false} RequiredErrorsEmpty(fields: seq<Field>, formData: Dict<string>)
    ensures RequiredErrors(fields, formData) == [] <==>
              forall i :: 0 <= i < |fields| && fields[i].isRequired ==> !IsMissing(formData, fields[i].name)
    decreases |fields|
  {
    if fields != [] {
      var n := |fields| - 1;
      RequiredErrorsEmpty(fields[..n], formData);
      assert forall i :: 0 <= i < n ==> fields[..n][i] == fields[i];
    }
  }

  /** Each error names a required field whose value is missing. */
  lemma {:induction false} RequiredErrorsNameFields(fields: seq<Field>, formData: Dict<string>, e: string)
    requires e in RequiredErrors(fields, formData)
    ensures exists i :: 0 <= i < |fields| && fields[i].isRequired && IsMissing(formData, fields[i].name)
                        && e == RequiredMessage(fields[i].caption)
    decreases |fields|
  {
    var n := |fields| - 1;
    if e !in RequiredErrors(fields[..n], formData) {
      assert fields[n].isRequired && IsMissing(formData, fields[n].name) && e == RequiredMessage(fields[n].caption);
    } else {
      RequiredErrorsNameFields(fields[..n], formData, e);
      var i :| 0 <= i < n && fields[..n][i].isRequired && IsMissing(formData, fields[..n][i].name)
               && e == RequiredMessage(fields[..n][i].caption);
      assert fields[..n][i] == fields[i];
    }
  }

  /** `validateForm`: one message per required field without a value. */
  method ValidateForm(fields: seq<Field>, formData: Dict<string>) returns (errors: seq<string>)
    ensures errors == RequiredErrors(fields, formData)
  {
    errors := [];
    var i := 0;
    while i < |fields|
      invariant 0 <= i <= |fields|
      invariant errors == RequiredErrors(fields[..i], formData)
    {
      var f := fields[i];
      assert fields[..i + 1][..i] == fields[..i];
      if f.isRequired && IsMissing(formData, f.name) {
        errors := errors + [RequiredMessage(f.caption)];
      }
      i := i + 1;
    }
    assert fields[..i] == fields;
  }

  /** The data a save writes: the form's data without `_batch_id`, so a
      saved record is always reviewed on its own. */
  function CleanData(formData: Dict<string>): (r: Dict<string>)
    ensures BatchOf(r) == None && Get(r, BatchKey) == None
    ensures forall k :: k != BatchKey ==> Get(r, k) == Get(formData, k)
    ensures Valid(formData) ==> Valid(r)
  {
    Delete(formData, BatchKey)
  }

  /** The list after an edit: the edited record takes the new data and goes
      back to pending; every other record is unchanged. */
  function EditedRecords(records: seq<Record>, id: string, data: Dict<string>): (r: seq<Record>)
    ensures |r| == |records|
    ensures forall i :: 0 <= i < |records| && records[i].id != id ==> r[i] == records[i]
    ensures forall i :: 0 <= i < |records| && records[i].id == id ==>
              r[i].status == Pending && r[i].data == data && r[i].(status := records[i].status, data := records[i].data) == records[i]
  {
    seq(|records|, i requires 0 <= i < |records| =>
      if records[i].id == id then records[i].(data := data, status := Pending) else records[i])
  }

  /** The list after a delete: the records with another id, in order. */
  function RemoveRecord(records: seq<Record>, id: string): (r: seq<Record>)
    ensures forall x :: x in r <==> x in records && x.id != id
    ensures |r| <= |records|
    ensures (forall i :: 0 <= i < |records| ==> records[i].id != id) ==> r == records
    ensures r == Filter(records, (x: Record) => x.id != id)
    decreases |records|
  {
    if records == [] then []
    else
      var rest := RemoveRecord(records[1..], id);
      HeadThenTail(records);
      if records[0].id == id then rest else [records[0]] + rest
  }

  /** The record the store returns for an insert of the form's data. */
  function NewRecord(id: string, tableId: string, data: Dict<string>, user: Option<string>, now: int): Record {
    Record(id, tableId, data, Pending, user, now, None, None, None, None, None)
  }

  /** The page's record state: the list shown, the form's data, the record
      being edited, the dialog and the validation messages. */
  class RecordPage {
    var records: seq<Record>
    var formData: Dict<string>
    var editId: Option<string>
    var dialogOpen: bool
    var validationErrors: seq<string>

    constructor (loaded: seq<Record>)
      ensures records == loaded && formData == Empty() && editId == None
      ensures !dialogOpen && validationErrors == []
    {
      records := loaded;
      formData := Empty();
      editId := None;
      dialogOpen := false;
      validationErrors := [];
    }

    /** `handleSave`. A form with errors shows them and changes nothing
        else. An edit writes the cleaned data, resets that record to
        pending and updates it in the list (the update's result is not
        checked). A new record is prepended as the store returns it, unless
        the insert fails, which leaves list and form as they were. A
        successful save closes the dialog and clears the form. */
    method Save(fields: seq<Field>, tableId: string, user: Option<string>, newId: string, now: int, insertFails: bool)
      returns (errors: seq<string>)
      modifies this
      ensures errors == RequiredErrors(fields, old(formData))
      ensures errors != [] ==> validationErrors == errors && records == old(records)
                               && formData == old(formData) && editId == old(editId) && dialogOpen == old(dialogOpen)
      ensures errors == [] && old(editId).Some? ==>
                records == EditedRecords(old(records), old(editId).value, CleanData(old(formData)))
                && !dialogOpen && formData == Empty() && editId == None
      ensures errors == [] && old(editId).None? && !insertFails ==>
                records == [NewRecord(newId, tableId, CleanData(old(formData)), user, now)] + old(records)
                && !dialogOpen && formData == Empty() && editId == None
      ensures errors == [] && old(editId).None? && insertFails ==>
                records == old(records) && formData == old(formData) && editId == old(editId) && dialogOpen == old(dialogOpen)
      ensures errors == [] ==> validationErrors == old(validationErrors)
    {
      errors := ValidateForm(fields, formData);
      if errors != [] {
        validationErrors := errors;
        return;
      }
      var clean := CleanData(formData);
      match editId {
        case Some(id) =>
          records := EditedRecords(records, id, clean);
        case None =>
          if insertFails {
            return;
          }
          records := [NewRecord(newId, tableId, clean, user, now)] + records;
      }
      dialogOpen := false;
      formData := Empty();
      editId := None;
    }

    /** `handleDelete`: after confirmation the record leaves the list. */
    method Delete(id: string, confirmed: bool)
      modifies this
      ensures records == if confirmed then RemoveRecord(old(records), id) else old(records)
      ensures formData == old(formData) && editId == old(editId)
      ensures dialogOpen == old(dialogOpen) && validationErrors == old(validationErrors)
    {
      if confirmed {
        records := RemoveRecord(records, id);
      }
    }
  }

  // ---------------------------------------------------------------------
  // Search and export

  /** The records whose serialized data contains the search term, both
      lower-cased; the serializer is a parameter. */
  function FilteredRecords(records: seq<Record>, term: string, serialize: Dict<string> -> string): (r: seq<Record>)
    ensures |r| <= |records|
    ensures forall x :: x in r <==> x in records && Contains(ToLower(serialize(x.data)), ToLower(term))
    ensures r == Filter(records, (x: Record) => Contains(ToLower(serialize(x.data)), ToLower(term)))
    decreases |records|
  {
    if records == [] then []
    else
      var rest := FilteredRecords(records[1..], term, serialize);
      assert forall i :: 1 <= i < |records| ==> records[i] == records[1..][i - 1];
      if Contains(ToLower(serialize(records[0].data)), ToLower(term)) then [records[0]] + rest else rest
  }

  /** An empty search keeps every record, in order. */
  lemma {:induction false} EmptySearchKeepsAll(records: seq<Record>, serialize: Dict<string> -> string)
    ensures FilteredRecords(records, "", serialize) == records
    decreases |records|
  {
    if records != [] {
      ContainsEmpty(ToLower(serialize(records[0].data)));
      EmptySearchKeepsAll(records[1..], serialize);
    }
  }

  /** `processExport`: the export of the records the search keeps. */
  function ExportFiltered(records: seq<Record>, term: string, serialize: Dict<string> -> string,
                          fields: seq<Field>, selected: seq<string>, formatDate: int -> string): (r: Result<string, string>)
    ensures r.Err? <==> forall x :: x in records ==> !Contains(ToLower(serialize(x.data)), ToLower(term))
    ensures r.Err? ==> r.error == NothingToExport
  {
    var kept := FilteredRecords(records, term, serialize);
    assert kept != [] ==> kept[0] in kept;
    ExportCsv(kept, fields, selected, formatDate)
  }

  /** The names of the fields, the export selection the page starts with. */
  function FieldNames(fields: seq<Field>): (r: seq<string>)
    ensures |r| == |fields| && forall i :: 0 <= i < |fields| ==> r[i] == fields[i].name
  {
    seq(|fields|, i requires 0 <= i < |fields| => fields[i].name)
  }

  /** With the initial selection every field is exported, in field order. */
  lemma ExportAllByDefault(fields: seq<Field>)
    ensures SelectedFields(fields, FieldNames(fields)) == fields
  {
    SelectingAll(fields, FieldNames(fields));
  }

  lemma {:induction false} SelectingAll(fields: seq<Field>, selected: seq<string>)
    requires forall i :: 0 <= i < |fields| ==> fields[i].name in selected
    ensures SelectedFields(fields, selected) == fields
    decreases |fields|
  {
    if fields != [] {
      assert forall i :: 1 <= i < |fields| ==> fields[1..][i - 1] == fields[i];
      SelectingAll(fields[1..], selected);
    }
  }
}
