/** The structure editor of an existing module (`EditModule.tsx`): the
    fields of the active table as loaded from the store, the edits of that
    list and of a select field's options, and the save, which sends one
    insert or update per field. */
module EditModule {
  import opened Wrappers
  import opened Seqs
  import opened Records
  import opened Naming

  /** The options of a stored field: already a list, or the JSON text of
      one. */
  datatype StoredOptions = OptionList(list: seq<SelectOption>) | OptionText(text: string)

  /** A field row as the store returns it. */
  datatype StoredField = StoredField(id: string, name: string, caption: string, fieldType: string,
                                     isRequired: bool, options: StoredOptions)

  /** A field as the editor holds it; `isNew` marks one added on this page
      and not yet stored. An empty `name` stands for a field without one. */
  datatype EditField = EditField(id: string, name: string, caption: string, fieldType: string,
                                 isRequired: bool, options: seq<SelectOption>, isNew: bool)

  /** The editor's copy of a stored field: the options read from their
      text when they are stored as text, and not new. */
  function Loaded(f: StoredField, parse: string -> seq<SelectOption>): (r: EditField)
    ensures !r.isNew && r.id == f.id && r.name == f.name && r.caption == f.caption
    ensures r.fieldType == f.fieldType && r.isRequired == f.isRequired
    ensures r.options == match f.options
                         case OptionList(list) => list
                         case OptionText(text) => parse(text)
  {
    EditField(f.id, f.name, f.caption, f.fieldType, f.isRequired,
              match f.options
              case OptionList(list) => list
              case OptionText(text) => parse(text),
              false)
  }

  /** `loadFields`: the stored fields of a table in their stored order,
      none of them new. */
  function LoadFields(stored: seq<StoredField>, parse: string -> seq<SelectOption>): (r: seq<EditField>)
    ensures |r| == |stored|
    ensures forall i :: 0 <= i < |r| ==> r[i] == Loaded(stored[i], parse)
  {
    seq(|stored|, i requires 0 <= i < |stored| => Loaded(stored[i], parse))
  }

  // ---------------------------------------------------------------------
  // Editing the field list

  /** The caption a field added on the page starts with. */
  const NewFieldCaption: string := "Novo Campo"

  /** "Adicionar Campo": a new text field with no options, not required and
      without a stored name, after the others. */
  function AddField(fields: seq<EditField>, freshId: string): (r: seq<EditField>)
    ensures |r| == |fields| + 1 && r[..|fields|] == fields
    ensures r[|fields|] == EditField(freshId, "", NewFieldCaption, "text", false, [], true)
  {
    fields + [EditField(freshId, "", NewFieldCaption, "text", false, [], true)]
  }

  /** One attribute a row of the editor changes. */
  datatype FieldPatch = SetCaption(caption: string) | SetType(fieldType: string) | SetRequired(required: bool) | SetOptions(options: seq<SelectOption>)

  /** A field with the patch merged in: only the patched attribute changes. */
  function Patched(f: EditField, p: FieldPatch): (r: EditField)
    ensures r.id == f.id && r.name == f.name && r.isNew == f.isNew
    ensures p.SetCaption? ==> r == f.(caption := p.caption)
    ensures p.SetType? ==> r == f.(fieldType := p.fieldType)
    ensures p.SetRequired? ==> r == f.(isRequired := p.required)
    ensures p.SetOptions? ==> r == f.(options := p.options)
  {
    match p
    case SetCaption(c) => f.(caption := c)
    case SetType(t) => f.(fieldType := t)
    case SetRequired(q) => f.(isRequired := q)
    case SetOptions(o) => f.(options := o)
  }

  /** `onUpdate`: the patch is merged into exactly the fields with the id;
      the list keeps its length and order. */
  function UpdateField(fields: seq<EditField>, id: string, p: FieldPatch): (r: seq<EditField>)
    ensures |r| == |fields|
    ensures forall i :: 0 <= i < |r| && fields[i].id == id ==> r[i] == Patched(fields[i], p)
    ensures forall i :: 0 <= i < |r| && fields[i].id != id ==> r[i] == fields[i]
  {
    seq(|fields|, i requires 0 <= i < |fields| => if fields[i].id == id then Patched(fields[i], p) else fields[i])
  }

  /** Keeps the fields whose id differs from the given one. */
  function Without(fields: seq<EditField>, id: string): (r: seq<EditField>)
    ensures forall x :: x in r <==> x in fields && x.id != id
    ensures r == Filter(fields, (x: EditField) => x.id != id)
  {
    var keep := (x: EditField) => x.id != id;
    assert forall x :: x in Filter(fields, keep) <==> x in fields && keep(x) by {
      forall x {
        FilterMembers(fields, keep, x);
      }
    }
    Filter(fields, keep)
  }

  /** What removing a row's field does: the new list, and the id the store
      is asked to delete, if any. */
  datatype Removal = Removal(fields: seq<EditField>, deleted: Option<string>)

  /** `onRemove` for the row of field `f`: a new field only leaves the
      list; a stored one is deleted from the store and then leaves the
      list, once the user confirms; without confirmation nothing happens. */
  function RemoveField(fields: seq<EditField>, f: EditField, confirmed: bool): (r: Removal)
    ensures r.deleted.Some? <==> !f.isNew && confirmed
    ensures r.deleted.Some? ==> r.deleted.value == f.id
    ensures !f.isNew && !confirmed ==> r.fields == fields
    ensures f.isNew || confirmed ==> forall x :: x in r.fields <==> x in fields && x.id != f.id
    ensures f.isNew || confirmed ==> r.fields == Filter(fields, (x: EditField) => x.id != f.id)
  {
    if f.isNew then Removal(Without(fields, f.id), None)
    else if confirmed then Removal(Without(fields, f.id), Some(f.id))
    else Removal(fields, None)
  }

  /** Removing a field just added, before saving, gives back the list it
      was added to. */
  lemma {:induction false} RemoveAddedField(fields: seq<EditField>, freshId: string, confirmed: bool)
    requires forall i :: 0 <= i < |fields| ==> fields[i].id != freshId
    ensures var added := AddField(fields, freshId);
      RemoveField(added, added[|fields|], confirmed) == Removal(fields, None)
  {
    var added := AddField(fields, freshId);
    var keep := (x: EditField) => x.id != freshId;
    FilterOne(added, keep, |fields|);
    assert WithoutIndex(added, |fields|) == fields;
  }

  // ---------------------------------------------------------------------
  // Options of a select field

  /** "Add" next to the option input: the text as typed, untrimmed, with
      its slug as value; nothing when the input is empty. */
  function AddOption(options: seq<SelectOption>, typed: string): (r: seq<SelectOption>)
    ensures typed == "" ==> r == options
    ensures typed != "" ==> |r| == |options| + 1 && r[..|options|] == options
    ensures typed != "" ==> r[|options|].caption == typed && r[|options|].value == OptionValue(typed)
  {
    if typed != "" then options + [SelectOption(typed, OptionValue(typed))] else options
  }

  /** The cross on option `i` removes exactly that entry. */
  function RemoveOption(options: seq<SelectOption>, i: nat): (r: seq<SelectOption>)
    ensures i < |options| ==> multiset(r) + multiset{options[i]} == multiset(options)
    ensures i < |options| ==> r == options[..i] + options[i + 1..]
    ensures i >= |options| ==> r == options
  {
    if i < |options| then WithoutIndexRemovesOne(options, i); WithoutIndex(options, i)
    else WithoutIndex(options, i)
  }

  /** Removing the option just added gives back the options before it. */
  lemma AddThenRemoveOption(options: seq<SelectOption>, typed: string)
    requires typed != ""
    ensures RemoveOption(AddOption(options, typed), |options|) == options
  {
    assert AddOption(options, typed)[|options| + 1..] == [];
  }

  // ---------------------------------------------------------------------
  // Saving

  /** The payload sent for a field: it keeps its stored name when it has
      one and otherwise gets the name derived from its caption; every
      payload has position 0 and the full option list. */
  datatype FieldPayload = FieldPayload(tableId: string, caption: string, name: string, fieldType: string,
                                       isRequired: bool, options: seq<SelectOption>, orderIndex: nat)

  /** One request of the save: an insert for a new field, an update of the
      stored field with the given id otherwise. */
  datatype FieldWrite = Insert(payload: FieldPayload) | Update(id: string, payload: FieldPayload)

  /** The stored name a field's payload carries. */
  function PayloadName(f: EditField): (r: string)
    ensures f.name != "" ==> r == f.name
    ensures f.name == "" ==> r == GenerateDbName(f.caption) && IsStoredName(r)
  {
    if f.name != "" then f.name else GenerateDbName(f.caption)
  }

  function WriteOf(tableId: string, f: EditField): (w: FieldWrite)
    ensures w.Insert? <==> f.isNew
    ensures w.Update? ==> w.id == f.id
    ensures w.payload == FieldPayload(tableId, f.caption, PayloadName(f), f.fieldType, f.isRequired, f.options, 0)
  {
    var payload := FieldPayload(tableId, f.caption, PayloadName(f), f.fieldType, f.isRequired, f.options, 0);
    if f.isNew then Insert(payload) else Update(f.id, payload)
  }

  /** The field requests of a save: none without an active table, else one
      per field in list order. */
  function FieldWrites(activeTableId: string, fields: seq<EditField>): (r: seq<FieldWrite>)
    ensures activeTableId == "" ==> r == []
    ensures activeTableId != "" ==> |r| == |fields| && forall i :: 0 <= i < |r| ==> r[i] == WriteOf(activeTableId, fields[i])
  {
    if activeTableId == "" then []
    else seq(|fields|, i requires 0 <= i < |fields| => WriteOf(activeTableId, fields[i]))
  }

  /** The module's own update: its name and description as edited. */
  datatype ModuleUpdate = ModuleUpdate(name: string, description: string)

  /** `handleSave`: the module update, then, when a table is active, one
      insert or update per field. The store's answers are not read, so
      every request is sent. */
  method SaveEdits(moduleName: string, moduleDesc: string, activeTableId: string, fields: seq<EditField>)
    returns (moduleUpdate: ModuleUpdate, writes: seq<FieldWrite>)
    ensures moduleUpdate == ModuleUpdate(moduleName, moduleDesc)
    ensures writes == FieldWrites(activeTableId, fields)
  {
    moduleUpdate := ModuleUpdate(moduleName, moduleDesc);
    writes := [];
    if activeTableId != "" {
      var i := 0;
      while i < |fields|
        invariant 0 <= i <= |fields|
        invariant writes == FieldWrites(activeTableId, fields)[..i]
      {
        var f := fields[i];
        var payload := FieldPayload(activeTableId, f.caption, PayloadName(f), f.fieldType, f.isRequired, f.options, 0);
        if f.isNew {
          writes := writes + [Insert(payload)];
        } else {
          writes := writes + [Update(f.id, payload)];
        }
        PrefixStep(FieldWrites(activeTableId, fields), i);
        i := i + 1;
      }
      assert FieldWrites(activeTableId, fields)[..i] == FieldWrites(activeTableId, fields);
    }
  }

  /** Saving right after loading only updates: each stored field is
      updated by its id, keeping its stored name when it has one. */
  lemma LoadedFieldsAreUpdated(activeTableId: string, stored: seq<StoredField>, parse: string -> seq<SelectOption>, i: nat)
    requires activeTableId != "" && i < |stored|
    ensures var w := FieldWrites(activeTableId, LoadFields(stored, parse))[i];
      && w == Update(stored[i].id, w.payload)
      && (stored[i].name != "" ==> w.payload.name == stored[i].name)
      && w.payload.orderIndex == 0
  {
  }
}
