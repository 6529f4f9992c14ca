/** The module builder (`NewModule.tsx`): the list of tables being designed,
    each with its fields and the rows a CSV import brought in; the edits of
    that list, which touch only the active table; the builder's CSV import,
    which turns columns into fields and rows into values keyed by field id;
    and the save, which validates the design, derives the slug and the
    stored names, and writes tables, fields and records in chunks of 100. */
module NewModule {
  import opened Wrappers
  import opened Text
  import opened Seqs
  import opened Objects
  import opened Records
  import opened Naming
  import opened Csv

  /** A field as the builder holds it: its draft id, input type, caption,
      whether it is required and, for a select, its options. */
  datatype BuilderField = BuilderField(id: string, fieldType: string, caption: string, required: bool, options: seq<SelectOption>)

  /** A table being designed; `rows` are imported values keyed by field id. */
  datatype BuilderTable = BuilderTable(id: string, name: string, fields: seq<BuilderField>, rows: seq<Dict<string>>)

  /** The builder's state: the tables and the id of the active one. */
  datatype Builder = Builder(tables: seq<BuilderTable>, activeId: string)

  const MainTable: string := "Tabela Principal"
  const NeedOneTable: string := "O módulo precisa de pelo menos uma tabela."

  predicate HasTable(tables: seq<BuilderTable>, id: string) {
    exists i :: 0 <= i < |tables| && tables[i].id == id
  }

  ghost predicate UniqueIds(tables: seq<BuilderTable>) {
    forall i, j :: 0 <= i < j < |tables| ==> tables[i].id != tables[j].id
  }

  /** What every edit keeps: at least one table, no two with the same id,
      and the active id naming one of them. */
  ghost predicate WellFormed(b: Builder) {
    |b.tables| > 0 && UniqueIds(b.tables) && HasTable(b.tables, b.activeId)
  }

  /** The state the page opens with: one empty table, active. */
  function Initial(firstId: string): (r: Builder)
    ensures WellFormed(r) && |r.tables| == 1
    ensures ActiveTable(r) == BuilderTable(firstId, MainTable, [], [])
  {
    var r := Builder([BuilderTable(firstId, MainTable, [], [])], firstId);
    assert r.tables[0].id == firstId;
    r
  }

  /** The index of the first table with the given id. */
  function FindTable(tables: seq<BuilderTable>, id: string): (r: Option<nat>)
    ensures r.None? <==> !HasTable(tables, id)
    ensures r.Some? ==> r.value < |tables| && tables[r.value].id == id
                        && forall j :: 0 <= j < r.value ==> tables[j].id != id
    decreases |tables|
  {
    if tables == [] then None
    else if tables[0].id == id then Some(0)
    else
      match FindTable(tables[1..], id)
      case Some(k) => Some(k + 1)
      case None =>
        assert forall j :: 1 <= j < |tables| ==> tables[j] == tables[1..][j - 1];
        None
  }

  /** The first table with the active id, or the first table when none
      has it. */
  function ActiveTable(b: Builder): (r: BuilderTable)
    requires |b.tables| > 0
    ensures r in b.tables
    ensures HasTable(b.tables, b.activeId) ==> r.id == b.activeId
  {
    match FindTable(b.tables, b.activeId)
    case Some(k) => b.tables[k]
    case None => b.tables[0]
  }

  /** In a well-formed state the active table is the only one with the
      active id. */
  lemma ActiveIsUnique(b: Builder, i: nat)
    requires WellFormed(b) && i < |b.tables| && b.tables[i].id == b.activeId
    ensures b.tables[i] == ActiveTable(b)
  {
    var k := FindTable(b.tables, b.activeId).value;
    assert !(i < k) && !(k < i);
  }

  // ---------------------------------------------------------------------
  // Table edits

  /** `addTable`: the new table is appended and becomes active; the tables
      already there keep their place and contents. */
  function AddTable(b: Builder, newId: string, name: string, fields: seq<BuilderField>, rows: seq<Dict<string>>): (r: Builder)
    ensures |r.tables| == |b.tables| + 1 && r.tables[..|b.tables|] == b.tables
    ensures !HasTable(b.tables, newId) ==> ActiveTable(r) == BuilderTable(newId, name, fields, rows)
    ensures WellFormed(b) && !HasTable(b.tables, newId) ==> WellFormed(r)
  {
    var r := Builder(b.tables + [BuilderTable(newId, name, fields, rows)], newId);
    AppendedTable(b.tables, BuilderTable(newId, name, fields, rows));
    assert r.tables[..|b.tables|] == b.tables;
    r
  }

  lemma AppendedTable(tables: seq<BuilderTable>, t: BuilderTable)
    ensures FindTable(tables + [t], t.id).Some?
    ensures !HasTable(tables, t.id) ==> FindTable(tables + [t], t.id) == Some(|tables|)
  {
    var all := tables + [t];
    assert all[|tables|].id == t.id;
  }

  /** The caption a table added from the tab bar gets: "Nova Tabela "
      followed by the number the new table will have. */
  function DefaultTableName(b: Builder): (r: string)
    ensures |r| > 12 && r[..12] == "Nova Tabela " && IsDigits(r[12..])
    ensures DecimalValue(r[12..]) == |b.tables| + 1
  {
    var digits := NatToDecimal(|b.tables| + 1);
    var r := "Nova Tabela " + digits;
    assert r[12..] == digits;
    DecimalRoundTrip(|b.tables| + 1);
    r
  }

  /** `removeTable`: refused while only one table is left; otherwise every
      table with the id goes, the others keep their order, and when the
      active table went the first remaining one becomes active. */
  function RemoveTable(b: Builder, id: string): (r: Result<Builder, string>)
    requires WellFormed(b)
    ensures r.Err? <==> |b.tables| == 1
    ensures r.Err? ==> r.error == NeedOneTable
    ensures r.Ok? ==> WellFormed(r.value)
    ensures r.Ok? ==> forall t :: t in r.value.tables <==> t in b.tables && t.id != id
    ensures r.Ok? ==> r.value.tables == Filter(b.tables, (t: BuilderTable) => t.id != id)
    ensures r.Ok? ==> r.value.tables[0] == if b.tables[0].id != id then b.tables[0] else b.tables[1]
    ensures r.Ok? ==> r.value.activeId == if b.activeId == id then r.value.tables[0].id else b.activeId
  {
    if |b.tables| == 1 then Err(NeedOneTable)
    else
      var keep := (t: BuilderTable) => t.id != id;
      var rest := Filter(b.tables, keep);
      RemovedTables(b.tables, id);
      assert forall t :: t in rest <==> t in b.tables && t.id != id by {
        forall t
          ensures t in rest <==> t in b.tables && t.id != id
        {
          FilterMembers(b.tables, keep, t);
        }
      }
      var r := Builder(rest, if b.activeId == id then rest[0].id else b.activeId);
      assert HasTable(r.tables, r.activeId) by {
        if b.activeId != id {
          var a :| 0 <= a < |b.tables| && b.tables[a].id == b.activeId;
          assert b.tables[a] in rest;
          var a' :| 0 <= a' < |rest| && rest[a'] == b.tables[a];
        } else {
          assert rest[0].id == r.activeId;
        }
      }
      Ok(r)
  }

  /** Filtering one id out of tables with distinct ids: the order is kept,
      ids stay distinct, and at most one table goes. */
  lemma {:induction false} RemovedTables(tables: seq<BuilderTable>, id: string)
    requires UniqueIds(tables) && |tables| >= 2
    ensures var rest := Filter(tables, (t: BuilderTable) => t.id != id);
      |rest| >= 1 && UniqueIds(rest)
      && rest[0] == if tables[0].id != id then tables[0] else tables[1]
  {
    var keep := (t: BuilderTable) => t.id != id;
    if k :| 0 <= k < |tables| && tables[k].id == id {
      forall j | 0 <= j < |tables| && j != k
        ensures keep(tables[j])
      {
        assert tables[j].id != tables[k].id by {
          if j < k { } else { }
        }
      }
      FilterOne(tables, keep, k);
    } else {
      FilterAll(tables, keep);
    }
  }

  /** Applies `g` to every table with the active id and leaves the others
      as they are, the way each edit of the active table is written. */
  function EditActive(b: Builder, g: BuilderTable -> BuilderTable): (r: Builder)
    ensures |r.tables| == |b.tables| && r.activeId == b.activeId
    ensures forall i :: 0 <= i < |b.tables| && b.tables[i].id != b.activeId ==> r.tables[i] == b.tables[i]
    ensures WellFormed(b) && g(ActiveTable(b)).id == b.activeId ==>
              WellFormed(r) && ActiveTable(r) == g(ActiveTable(b))
  {
    var tables := seq(|b.tables|, i requires 0 <= i < |b.tables| =>
                      if b.tables[i].id == b.activeId then g(b.tables[i]) else b.tables[i]);
    EditedActive(b, g, tables);
    Builder(tables, b.activeId)
  }

  lemma EditedActive(b: Builder, g: BuilderTable -> BuilderTable, tables: seq<BuilderTable>)
    requires |tables| == |b.tables|
    requires forall i :: 0 <= i < |b.tables| ==>
               tables[i] == if b.tables[i].id == b.activeId then g(b.tables[i]) else b.tables[i]
    ensures WellFormed(b) && g(ActiveTable(b)).id == b.activeId ==>
              WellFormed(Builder(tables, b.activeId)) && ActiveTable(Builder(tables, b.activeId)) == g(ActiveTable(b))
  {
    if WellFormed(b) && g(ActiveTable(b)).id == b.activeId {
      var k := FindTable(b.tables, b.activeId).value;
      forall i | 0 <= i < |b.tables|
        ensures tables[i].id == b.tables[i].id
      {
        if b.tables[i].id == b.activeId {
          ActiveIsUnique(b, i);
        }
      }
      assert tables[k] == g(ActiveTable(b));
      assert FindTable(tables, b.activeId) == Some(k);
    }
  }

  /** `renameActiveTable`: only the active table's name changes. */
  function RenameActiveTable(b: Builder, newName: string): (r: Builder)
    ensures |r.tables| == |b.tables| && r.activeId == b.activeId
    ensures forall i :: 0 <= i < |b.tables| && b.tables[i].id != b.activeId ==> r.tables[i] == b.tables[i]
    ensures WellFormed(b) ==> WellFormed(r) && ActiveTable(r) == ActiveTable(b).(name := newName)
  {
    EditActive(b, (t: BuilderTable) => t.(name := newName))
  }

  /** The field `addField` creates: not required and with no options. */
  function NewField(id: string, typeId: string, caption: string): BuilderField {
    BuilderField(id, typeId, caption, false, [])
  }

  /** `addField(typeId, label)`: a new field, not required and with no
      options, at the end of the active table's fields. */
  function AddField(b: Builder, newId: string, typeId: string, caption: string): (r: Builder)
    ensures |r.tables| == |b.tables| && r.activeId == b.activeId
    ensures forall i :: 0 <= i < |b.tables| && b.tables[i].id != b.activeId ==> r.tables[i] == b.tables[i]
    ensures WellFormed(b) ==>
              && WellFormed(r)
              && ActiveTable(r).fields == ActiveTable(b).fields + [BuilderField(newId, typeId, caption, false, [])]
              && ActiveTable(r).rows == ActiveTable(b).rows && ActiveTable(r).name == ActiveTable(b).name
  {
    EditActive(b, (t: BuilderTable) => t.(fields := t.fields + [NewField(newId, typeId, caption)]))
  }

  /** The keys `updateField` is called with, and their values. */
  datatype FieldPatch = SetCaption(caption: string) | SetType(fieldType: string) | SetRequired(required: bool) | SetOptions(options: seq<SelectOption>)

  /** A field with one attribute replaced. */
  function Patched(f: BuilderField, p: FieldPatch): (r: BuilderField)
    ensures r.id == f.id
  {
    match p
    case SetCaption(c) => f.(caption := c)
    case SetType(t) => f.(fieldType := t)
    case SetRequired(q) => f.(required := q)
    case SetOptions(o) => f.(options := o)
  }

  /** The patch reaches exactly the fields with the id; ids and order do
      not change. */
  function PatchFields(fields: seq<BuilderField>, id: string, p: FieldPatch): (r: seq<BuilderField>)
    ensures |r| == |fields|
    ensures forall i :: 0 <= i < |r| ==> r[i].id == fields[i].id
    ensures forall i :: 0 <= i < |r| ==> r[i] == if fields[i].id == id then Patched(fields[i], p) else fields[i]
  {
    seq(|fields|, i requires 0 <= i < |fields| => if fields[i].id == id then Patched(fields[i], p) else fields[i])
  }

  /** `updateField(id, key, value)` on the active table. */
  function UpdateField(b: Builder, id: string, p: FieldPatch): (r: Builder)
    ensures |r.tables| == |b.tables| && r.activeId == b.activeId
    ensures forall i :: 0 <= i < |b.tables| && b.tables[i].id != b.activeId ==> r.tables[i] == b.tables[i]
    ensures WellFormed(b) ==>
              && WellFormed(r)
              && ActiveTable(r) == ActiveTable(b).(fields := PatchFields(ActiveTable(b).fields, id, p))
  {
    EditActive(b, (t: BuilderTable) => t.(fields := PatchFields(t.fields, id, p)))
  }

  /** The fields whose id is not `id`, in their order. */
  function FieldsWithout(fields: seq<BuilderField>, id: string): (r: seq<BuilderField>)
    ensures forall f :: f in r <==> f in fields && f.id != id
    ensures r == Filter(fields, (f: BuilderField) => f.id != id)
  {
    var keep := (f: BuilderField) => f.id != id;
    forall f
      ensures f in Filter(fields, keep) <==> f in fields && f.id != id
    {
      FilterMembers(fields, keep, f);
    }
    Filter(fields, keep)
  }

  /** `removeField(id)` on the active table: the fields without the id, in
      their order. */
  function RemoveField(b: Builder, id: string): (r: Builder)
    ensures |r.tables| == |b.tables| && r.activeId == b.activeId
    ensures forall i :: 0 <= i < |b.tables| && b.tables[i].id != b.activeId ==> r.tables[i] == b.tables[i]
    ensures WellFormed(b) ==>
              && WellFormed(r)
              && ActiveTable(r) == ActiveTable(b).(fields := FieldsWithout(ActiveTable(b).fields, id))
  {
    EditActive(b, (t: BuilderTable) => t.(fields := FieldsWithout(t.fields, id)))
  }

  function ReorderFields(b: Builder, newOrder: seq<BuilderField>): (r: Builder)
    ensures |r.tables| == |b.tables| && r.activeId == b.activeId
    ensures forall i :: 0 <= i < |b.tables| && b.tables[i].id != b.activeId ==> r.tables[i] == b.tables[i]
    ensures WellFormed(b) ==>
              && WellFormed(r)
              && ActiveTable(r) == ActiveTable(b).(fields := newOrder)
  {
    EditActive(b, (t: BuilderTable) => t.(fields := newOrder))
  }

  /** The option the builder's option input adds: the typed text trimmed,
      and nothing when that is empty. */
  function AddTypedOption(options: seq<SelectOption>, typed: string): (r: seq<SelectOption>)
    ensures IsBlank(typed) ==> r == options
    ensures !IsBlank(typed) ==> r == options + [SelectOption(Trim(typed), OptionValue(Trim(typed)))]
    ensures !IsBlank(typed) ==> r[|options|].caption != "" && IsStoredName(r[|options|].value)
  {
    var v := Trim(typed);
    if v != "" then options + [SelectOption(v, OptionValue(v))] else options
  }

  // ---------------------------------------------------------------------
  // Importing a CSV file into the design

  /** The mapping value that creates a new field from a column, and the one
      that leaves the column out. */
  const NewColumn: string := "new"
  const IgnoreColumn: string := "ignore"

  /** The type a new column's field gets and whether its distinct values
      become the options of a select. */
  datatype ColumnConfig = ColumnConfig(fieldType: string, extractOptions: bool)

  const DefaultConfig: ColumnConfig := ColumnConfig("text", false)

  /** A header names a field when it equals the field's caption ignoring
      letter case. */
  predicate CaptionMatches(f: BuilderField, h: string) {
    ToLower(f.caption) == ToLower(h)
  }

  /** The first field whose caption equals the header once both are
      lower-cased. */
  function MatchCaption(fields: seq<BuilderField>, h: string): (r: Option<BuilderField>)
    ensures r.None? <==> forall i :: 0 <= i < |fields| ==> !CaptionMatches(fields[i], h)
    ensures r.Some? ==> exists i :: 0 <= i < |fields| && fields[i] == r.value
                          && CaptionMatches(fields[i], h)
                          && forall j :: 0 <= j < i ==> !CaptionMatches(fields[j], h)
  {
    if fields == [] then None
    else if CaptionMatches(fields[0], h) then Some(fields[0])
    else
      var r := MatchCaption(fields[1..], h);
      assert forall i :: 1 <= i < |fields| ==> fields[i] == fields[1..][i - 1];
      if r.Some? then
        var i :| 0 <= i < |fields[1..]| && fields[1..][i] == r.value
                 && CaptionMatches(fields[1..][i], h)
                 && forall j :: 0 <= j < i ==> !CaptionMatches(fields[1..][j], h);
        assert fields[i + 1] == r.value;
        r
      else r
  }

  /** The initial mapping of one header: the id of the first field of the
      active table with that caption, ignoring case, else `new`. */
  function InitialTarget(fields: seq<BuilderField>, h: string): (r: string)
    ensures (forall i :: 0 <= i < |fields| ==> !CaptionMatches(fields[i], h)) ==> r == NewColumn
    ensures (exists i :: 0 <= i < |fields| && CaptionMatches(fields[i], h)) ==>
              exists i :: 0 <= i < |fields| && CaptionMatches(fields[i], h) && r == fields[i].id
                          && forall j :: 0 <= j < i ==> !CaptionMatches(fields[j], h)
  {
    match MatchCaption(fields, h)
    case Some(f) => f.id
    case None => NewColumn
  }

  function InitialTargets(headers: seq<string>, fields: seq<BuilderField>): (r: seq<string>)
    ensures |r| == |headers|
    ensures forall i :: 0 <= i < |headers| ==> r[i] == InitialTarget(fields, headers[i])
  {
    seq(|headers|, i requires 0 <= i < |headers| => InitialTarget(fields, headers[i]))
  }

  /** `initialMap`: one entry per header, in header order. */
  function InitialMapping(headers: seq<string>, fields: seq<BuilderField>): (r: Dict<string>)
    ensures Valid(r) && r.keys == Dedup(headers)
    ensures forall h :: h in headers ==> Get(r, h) == Some(InitialTarget(fields, h))
    ensures forall h :: h !in headers ==> Get(r, h) == None
  {
    var r := FromPairs(headers, InitialTargets(headers, fields));
    assert forall h :: Get(r, h) == if h in headers then Some(InitialTarget(fields, h)) else None by {
      forall h
        ensures Get(r, h) == if h in headers then Some(InitialTarget(fields, h)) else None
      {
        FromPairsUniform(headers, InitialTargets(headers, fields), h => InitialTarget(fields, h), h);
      }
    }
    r
  }

  /** `initialConfigs`: every header starts as a `text` column that does
      not extract options. */
  function InitialConfigs(headers: seq<string>): (r: Dict<ColumnConfig>)
    ensures Valid(r) && r.keys == Dedup(headers)
    ensures forall h :: Get(r, h) == if h in headers then Some(DefaultConfig) else None
  {
    var vals := seq(|headers|, i requires 0 <= i < |headers| => DefaultConfig);
    var r := FromPairs(headers, vals);
    assert forall h :: Get(r, h) == if h in headers then Some(DefaultConfig) else None by {
      forall h
        ensures Get(r, h) == if h in headers then Some(DefaultConfig) else None
      {
        FromPairsUniform(headers, vals, _ => DefaultConfig, h);
      }
    }
    r
  }

  /** The non-empty values of a column, row by row. */
  function ColumnValues(rows: seq<Dict<string>>, header: string): (r: seq<string>)
    ensures |r| <= |rows|
    ensures forall i :: 0 <= i < |r| ==> r[i] != ""
    decreases |rows|
  {
    if rows == [] then []
    else
      var rest := ColumnValues(rows[1..], header);
      match Get(rows[0], header)
      case Some(v) => if v != "" then [v] + rest else rest
      case None => rest
  }

  lemma {:induction false} ColumnValuesMembers(rows: seq<Dict<string>>, header: string, v: string)
    ensures v in ColumnValues(rows, header) <==>
              v != "" && exists k :: 0 <= k < |rows| && Get(rows[k], header) == Some(v)
    decreases |rows|
  {
    if rows != [] {
      ColumnValuesMembers(rows[1..], header, v);
      if exists k :: 0 <= k < |rows| && Get(rows[k], header) == Some(v) {
        var k :| 0 <= k < |rows| && Get(rows[k], header) == Some(v);
        if k > 0 {
          assert Get(rows[1..][k - 1], header) == Some(v);
        }
      }
      if exists k :: 0 <= k < |rows[1..]| && Get(rows[1..][k], header) == Some(v) {
        var k :| 0 <= k < |rows[1..]| && Get(rows[1..][k], header) == Some(v);
        assert Get(rows[k + 1], header) == Some(v);
      }
    }
  }

  /** The most options a column's values give. */
  const MaxExtractedOptions: nat := 50

  /** An option made from a column value: the value shown, its slug stored. */
  function OptionOf(v: string): SelectOption {
    SelectOption(v, OptionValue(v))
  }

  /** `extractUniqueOptions(header)`: the column's distinct non-empty values
      in order of first appearance, at most 50, each with its slug. */
  function ExtractUniqueOptions(rows: seq<Dict<string>>, header: string): (r: seq<SelectOption>)
    ensures |r| <= MaxExtractedOptions
    ensures forall i :: 0 <= i < |r| ==> r[i].caption != "" && r[i].value == OptionValue(r[i].caption)
    ensures forall i :: 0 <= i < |r| ==> r[i].caption in ColumnValues(rows, header)
    ensures forall i, j :: 0 <= i < j < |r| ==> r[i].caption != r[j].caption
    ensures var firstDistinct := Take(Dedup(ColumnValues(rows, header)), MaxExtractedOptions);
      |r| == |firstDistinct| && forall i :: 0 <= i < |r| ==> r[i].caption == firstDistinct[i]
  {
    var distinct := Take(Dedup(ColumnValues(rows, header)), MaxExtractedOptions);
    assert forall i :: 0 <= i < |distinct| ==> distinct[i] == Dedup(ColumnValues(rows, header))[i];
    seq(|distinct|, i requires 0 <= i < |distinct| => OptionOf(distinct[i]))
  }

  /** Options keep the order in which their values first appear in the
      column: a value offered as an option is preceded by every value that
      first appears before it. */
  lemma ExtractedInFirstAppearanceOrder(rows: seq<Dict<string>>, header: string, i: nat, j: nat, c: nat)
    requires var values := ColumnValues(rows, header);
      && i < j < |values| && values[i] !in values[..i] && values[j] !in values[..j]
    requires c < |ExtractUniqueOptions(rows, header)| && ExtractUniqueOptions(rows, header)[c].caption == ColumnValues(rows, header)[j]
    ensures var r := ExtractUniqueOptions(rows, header);
      exists a :: 0 <= a < c && r[a].caption == ColumnValues(rows, header)[i]
  {
    var values := ColumnValues(rows, header);
    var r := ExtractUniqueOptions(rows, header);
    var d := Dedup(values);
    DedupOrder(values, i, j);
    var a, b :| 0 <= a < b < |d| && d[a] == values[i] && d[b] == values[j];
    assert d[c] == values[j];
    assert b == c;
    assert r[a].caption == values[i];
  }

  /** With at most 50 distinct values, every one of them becomes an option:
      a value is offered exactly when some row holds it. */
  lemma {:induction false} ExtractsEveryValue(rows: seq<Dict<string>>, header: string, v: string)
    requires |Dedup(ColumnValues(rows, header))| <= MaxExtractedOptions
    ensures (exists i :: 0 <= i < |ExtractUniqueOptions(rows, header)| && ExtractUniqueOptions(rows, header)[i].caption == v)
            <==> v != "" && exists k :: 0 <= k < |rows| && Get(rows[k], header) == Some(v)
  {
    var values := ColumnValues(rows, header);
    var r := ExtractUniqueOptions(rows, header);
    ColumnValuesMembers(rows, header, v);
    DedupMember(values, v);
    if v in Dedup(values) {
      var i :| 0 <= i < |Dedup(values)| && Dedup(values)[i] == v;
      assert r[i].caption == v;
    }
  }

  /** The options each column of a file gives, as `extractUniqueOptions`
      reads them from the file's rows. */
  function OptionsOf(rows: seq<Dict<string>>): (r: string -> seq<SelectOption>)
    ensures forall h :: r(h) == ExtractUniqueOptions(rows, h)
  {
    h => ExtractUniqueOptions(rows, h)
  }

  /** Create mode builds a new table from every column; update mode merges
      the columns into the active table as the mapping says. */
  datatype ImportMode = Create | Update

  /** What the loop does with a column: leave it out, create a field from
      it, or send its values to an existing field. */
  datatype ColumnAction = Skip | CreateField | MapTo(fieldId: string)

  /** The action of a column: always `new` in create mode; in update mode
      the mapping's value, where a header missing from the mapping reads as
      `undefined`, here the empty id that no row value is copied under. */
  function ActionFor(mode: ImportMode, mapping: Dict<string>, h: string): (r: ColumnAction)
    ensures mode.Create? ==> r == CreateField
    ensures mode.Update? && Get(mapping, h) == Some(IgnoreColumn) ==> r == Skip
    ensures mode.Update? && Get(mapping, h) == Some(NewColumn) ==> r == CreateField
    ensures r.MapTo? ==> mode.Update?
    ensures r.MapTo? ==> r.fieldId != IgnoreColumn
    ensures r.MapTo? ==> r.fieldId != NewColumn
    ensures r.MapTo? && r.fieldId != "" ==> Get(mapping, h) == Some(r.fieldId)
  {
    if mode.Create? then CreateField
    else
      match Get(mapping, h)
      case None => assert |""| < |NewColumn| < |IgnoreColumn|; MapTo("")
      case Some(a) => if a == IgnoreColumn then Skip else if a == NewColumn then CreateField else MapTo(a)
  }

  /** Every column that creates a field has a configuration to read. */
  predicate Configured(mode: ImportMode, headers: seq<string>, mapping: Dict<string>, configs: Dict<ColumnConfig>) {
    forall h :: h in headers && ActionFor(mode, mapping, h) == CreateField ==> Get(configs, h).Some?
  }

  /** The field created for a column: captioned with the header, not
      required, of the configured type (`text` when none is set), with the
      column's options only for a select that extracts them. */
  function NewColumnField(id: string, h: string, config: ColumnConfig, optionsOf: string -> seq<SelectOption>): (f: BuilderField)
    ensures f.id == id && f.caption == h && !f.required
    ensures f.fieldType == if config.fieldType == "" then "text" else config.fieldType
    ensures !(config.fieldType == "select" && config.extractOptions) ==> f.options == []
    ensures config.fieldType == "select" && config.extractOptions ==> f.options == optionsOf(h)
  {
    var options := if config.fieldType == "select" && config.extractOptions then optionsOf(h) else [];
    BuilderField(id, if config.fieldType != "" then config.fieldType else "text", h, false, options)
  }

  /** What the loop over the headers builds: the fields it creates, in
      order, and `headerToFieldId`. */
  datatype ColumnPlan = ColumnPlan(newFields: seq<BuilderField>, fieldOf: Dict<string>)

  /** The plan after the given headers; the k-th created field takes the
      id `freshId(k)`. */
  function PlanColumns(mode: ImportMode, headers: seq<string>, mapping: Dict<string>, configs: Dict<ColumnConfig>,
                       optionsOf: string -> seq<SelectOption>, freshId: nat -> string): (p: ColumnPlan)
    requires Configured(mode, headers, mapping, configs)
    ensures |p.newFields| <= |headers|
    decreases |headers|
  {
    if headers == [] then ColumnPlan([], Empty())
    else
      var n := |headers| - 1;
      var h := headers[n];
      ConfiguredPrefix(mode, headers, mapping, configs, n);
      var p := PlanColumns(mode, headers[..n], mapping, configs, optionsOf, freshId);
      match ActionFor(mode, mapping, h)
      case Skip => p
      case CreateField =>
        var id := freshId(|p.newFields|);
        ColumnPlan(p.newFields + [NewColumnField(id, h, Get(configs, h).value, optionsOf)], Put(p.fieldOf, h, id))
      case MapTo(id) => ColumnPlan(p.newFields, Put(p.fieldOf, h, id))
  }

  lemma ConfiguredPrefix(mode: ImportMode, headers: seq<string>, mapping: Dict<string>, configs: Dict<ColumnConfig>, n: nat)
    requires n <= |headers| && Configured(mode, headers, mapping, configs)
    ensures Configured(mode, headers[..n], mapping, configs)
  {
    assert forall h :: h in headers[..n] ==> h in headers;
  }

  /** In create mode every header becomes a new field, in header order,
      each with the next fresh id. */
  lemma {:induction false} CreateMakesEveryColumnAField(headers: seq<string>, mapping: Dict<string>, configs: Dict<ColumnConfig>,
                                                       optionsOf: string -> seq<SelectOption>, freshId: nat -> string)
    requires Configured(Create, headers, mapping, configs)
    ensures var p := PlanColumns(Create, headers, mapping, configs, optionsOf, freshId);
      |p.newFields| == |headers|
      && forall i :: 0 <= i < |headers| ==>
           p.newFields[i] == NewColumnField(freshId(i), headers[i], Get(configs, headers[i]).value, optionsOf)
    decreases |headers|
  {
    if headers != [] {
      var n := |headers| - 1;
      ConfiguredPrefix(Create, headers, mapping, configs, n);
      CreateMakesEveryColumnAField(headers[..n], mapping, configs, optionsOf, freshId);
      var q := PlanColumns(Create, headers[..n], mapping, configs, optionsOf, freshId);
      var p := PlanColumns(Create, headers, mapping, configs, optionsOf, freshId);
      assert headers[n] in headers;
      var f := NewColumnField(freshId(n), headers[n], Get(configs, headers[n]).value, optionsOf);
      assert p.newFields == q.newFields + [f];
      CreatedInOrder(headers, configs, optionsOf, freshId, q.newFields, f);
    }
  }

  /** The step of `CreateMakesEveryColumnAField`: the last header's field
      after the fields of the earlier headers. */
  lemma CreatedInOrder(headers: seq<string>, configs: Dict<ColumnConfig>, optionsOf: string -> seq<SelectOption>,
                       freshId: nat -> string, q: seq<BuilderField>, f: BuilderField)
    requires |headers| > 0 && |q| == |headers| - 1
    requires forall h :: h in headers ==> Get(configs, h).Some?
    requires forall i :: 0 <= i < |q| ==>
               q[i] == NewColumnField(freshId(i), headers[..|q|][i], Get(configs, headers[..|q|][i]).value, optionsOf)
    requires f == NewColumnField(freshId(|q|), headers[|q|], Get(configs, headers[|q|]).value, optionsOf)
    ensures forall i :: 0 <= i < |headers| ==>
              (q + [f])[i] == NewColumnField(freshId(i), headers[i], Get(configs, headers[i]).value, optionsOf)
  {
    forall i | 0 <= i < |headers|
      ensures (q + [f])[i] == NewColumnField(freshId(i), headers[i], Get(configs, headers[i]).value, optionsOf)
    {
      if i < |q| {
        assert headers[..|q|][i] == headers[i];
      }
    }
  }

  /** The last header's step of `PlanColumns`: a skipped column changes
      nothing, a mapped one sends the header to its field, and a created
      one adds its field after the earlier ones. */
  lemma PlanLastHeader(mode: ImportMode, headers: seq<string>, mapping: Dict<string>, configs: Dict<ColumnConfig>,
                       optionsOf: string -> seq<SelectOption>, freshId: nat -> string)
    requires headers != [] && Configured(mode, headers, mapping, configs)
    ensures Configured(mode, headers[..|headers| - 1], mapping, configs)
    ensures var n := |headers| - 1;
      var h := headers[n];
      var q := PlanColumns(mode, headers[..n], mapping, configs, optionsOf, freshId);
      var p := PlanColumns(mode, headers, mapping, configs, optionsOf, freshId);
      && (ActionFor(mode, mapping, h) == Skip ==> p == q)
      && (ActionFor(mode, mapping, h).MapTo? ==> Get(p.fieldOf, h) == Some(ActionFor(mode, mapping, h).fieldId))
      && (ActionFor(mode, mapping, h) == CreateField ==>
            |q.newFields| < |p.newFields| && p.newFields[|q.newFields|].caption == h
            && Get(p.fieldOf, h) == Some(p.newFields[|q.newFields|].id))
  {
    ConfiguredPrefix(mode, headers, mapping, configs, |headers| - 1);
  }

  /** The last header's step leaves the fields created before it and the
      target of every other header as they were. */
  lemma PlanOtherHeader(mode: ImportMode, headers: seq<string>, mapping: Dict<string>, configs: Dict<ColumnConfig>,
                        optionsOf: string -> seq<SelectOption>, freshId: nat -> string, h: string)
    requires headers != [] && Configured(mode, headers, mapping, configs)
    requires headers[|headers| - 1] != h
    ensures Configured(mode, headers[..|headers| - 1], mapping, configs)
    ensures var n := |headers| - 1;
      var q := PlanColumns(mode, headers[..n], mapping, configs, optionsOf, freshId);
      var p := PlanColumns(mode, headers, mapping, configs, optionsOf, freshId);
      q.newFields <= p.newFields && Get(p.fieldOf, h) == Get(q.fieldOf, h)
  {
    ConfiguredPrefix(mode, headers, mapping, configs, |headers| - 1);
  }

  /** Where each header's values go: nowhere for an ignored column or a
      header not in the file, and to the mapped field for a column mapped
      to an existing field. */
  lemma {:induction false} PlanTargets(mode: ImportMode, headers: seq<string>, mapping: Dict<string>, configs: Dict<ColumnConfig>,
                                       optionsOf: string -> seq<SelectOption>, freshId: nat -> string, h: string)
    requires Configured(mode, headers, mapping, configs)
    ensures var p := PlanColumns(mode, headers, mapping, configs, optionsOf, freshId);
      var action := ActionFor(mode, mapping, h);
      && (h !in headers || action == Skip ==> Get(p.fieldOf, h) == None)
      && (h in headers && action.MapTo? ==> Get(p.fieldOf, h) == Some(action.fieldId))
    decreases |headers|
  {
    if headers != [] {
      var n := |headers| - 1;
      ConfiguredPrefix(mode, headers, mapping, configs, n);
      PlanTargets(mode, headers[..n], mapping, configs, optionsOf, freshId, h);
      MemberOfInitOrLast(headers, h);
      if headers[n] == h {
        PlanLastHeader(mode, headers, mapping, configs, optionsOf, freshId);
      } else {
        PlanOtherHeader(mode, headers, mapping, configs, optionsOf, freshId, h);
      }
    }
  }

  /** A column that creates a field sends its values to a field created
      from that header; the lemma names that field's position. */
  lemma {:induction false} PlanCreates(mode: ImportMode, headers: seq<string>, mapping: Dict<string>, configs: Dict<ColumnConfig>,
                                       optionsOf: string -> seq<SelectOption>, freshId: nat -> string, h: string)
    returns (i: nat)
    requires Configured(mode, headers, mapping, configs)
    requires h in headers && ActionFor(mode, mapping, h) == CreateField
    ensures var p := PlanColumns(mode, headers, mapping, configs, optionsOf, freshId);
      i < |p.newFields| && Get(p.fieldOf, h) == Some(p.newFields[i].id) && p.newFields[i].caption == h
    decreases |headers|
  {
    var n := |headers| - 1;
    MemberOfInitOrLast(headers, h);
    if headers[n] != h {
      PlanOtherHeader(mode, headers, mapping, configs, optionsOf, freshId, h);
      i := PlanCreates(mode, headers[..n], mapping, configs, optionsOf, freshId, h);
    } else {
      PlanLastHeader(mode, headers, mapping, configs, optionsOf, freshId);
      i := |PlanColumns(mode, headers[..n], mapping, configs, optionsOf, freshId).newFields|;
    }
  }

  /** Every created field comes from a column that creates one, and is
      built from that column's configuration. */
  lemma {:induction false} PlanFieldFromConfig(mode: ImportMode, headers: seq<string>, mapping: Dict<string>, configs: Dict<ColumnConfig>,
                                               optionsOf: string -> seq<SelectOption>, freshId: nat -> string, i: nat)
    requires Configured(mode, headers, mapping, configs)
    requires i < |PlanColumns(mode, headers, mapping, configs, optionsOf, freshId).newFields|
    ensures var f := PlanColumns(mode, headers, mapping, configs, optionsOf, freshId).newFields[i];
      && f.caption in headers && ActionFor(mode, mapping, f.caption) == CreateField
      && f == NewColumnField(f.id, f.caption, Get(configs, f.caption).value, optionsOf)
    decreases |headers|
  {
    var n := |headers| - 1;
    PlanStep(mode, headers, mapping, configs, optionsOf, freshId, n);
    assert headers[..n + 1] == headers;
    var q := PlanColumns(mode, headers[..n], mapping, configs, optionsOf, freshId);
    if i < |q.newFields| {
      PlanFieldFromConfig(mode, headers[..n], mapping, configs, optionsOf, freshId, i);
      assert q.newFields[i].caption in headers;
    } else {
      assert headers[n] in headers;
    }
  }

  /** A row with its keys renamed: each key of the row, in key order, whose
      name is set and non-empty is copied under that name. */
  function RenameKeysOf(row: Dict<string>, names: Dict<string>, keys: seq<string>): (r: Dict<string>)
    ensures Valid(r)
    decreases |keys|
  {
    if keys == [] then Empty()
    else
      var n := |keys| - 1;
      var d := RenameKeysOf(row, names, keys[..n]);
      var k := keys[n];
      if Get(names, k).Some? && Get(names, k).value != "" && Get(row, k).Some? then
        Put(d, Get(names, k).value, Get(row, k).value)
      else d
  }

  function RenameKeys(row: Dict<string>, names: Dict<string>): (r: Dict<string>)
    ensures Valid(r)
  {
    RenameKeysOf(row, names, row.keys)
  }

  /** Only named keys are copied: each value of the result is the row's
      value under a key whose name is the result's key. */
  lemma {:induction false} RenamedSound(row: Dict<string>, names: Dict<string>, keys: seq<string>, t: string)
    requires Get(RenameKeysOf(row, names, keys), t).Some?
    ensures t != ""
    ensures exists k :: k in keys && Get(names, k) == Some(t) && Get(row, k) == Get(RenameKeysOf(row, names, keys), t)
    decreases |keys|
  {
    var n := |keys| - 1;
    var k := keys[n];
    if Get(names, k) == Some(t) && t != "" && Get(row, k).Some? {
    } else {
      RenamedSound(row, names, keys[..n], t);
      var k' :| k' in keys[..n] && Get(names, k') == Some(t) && Get(row, k') == Get(RenameKeysOf(row, names, keys[..n]), t);
      assert k' in keys;
    }
  }

  /** Every named key with a value is copied, and when no later key has
      the same name its value is the one kept. */
  lemma {:induction false} RenamedComplete(row: Dict<string>, names: Dict<string>, keys: seq<string>, i: nat, t: string)
    requires i < |keys| && Get(names, keys[i]) == Some(t) && t != "" && Get(row, keys[i]).Some?
    requires forall j :: i < j < |keys| ==> Get(names, keys[j]) != Some(t)
    ensures Get(RenameKeysOf(row, names, keys), t) == Get(row, keys[i])
    decreases |keys|
  {
    var n := |keys| - 1;
    if i < n {
      assert forall j :: i < j < n ==> keys[..n][j] == keys[j];
      assert keys[..n][i] == keys[i];
      RenamedComplete(row, names, keys[..n], i, t);
      RenameLastOther(row, names, keys, t);
    } else {
      RenameLastSame(row, names, keys, t);
    }
  }

  /** The last key, named otherwise, leaves the value under `t` alone. */
  lemma RenameLastOther(row: Dict<string>, names: Dict<string>, keys: seq<string>, t: string)
    requires keys != [] && Get(names, keys[|keys| - 1]) != Some(t)
    ensures Get(RenameKeysOf(row, names, keys), t) == Get(RenameKeysOf(row, names, keys[..|keys| - 1]), t)
  {
  }

  /** The last key, named `t` and holding a value, puts that value under `t`. */
  lemma RenameLastSame(row: Dict<string>, names: Dict<string>, keys: seq<string>, t: string)
    requires keys != [] && Get(names, keys[|keys| - 1]) == Some(t) && t != ""
    requires Get(row, keys[|keys| - 1]).Some?
    ensures Get(RenameKeysOf(row, names, keys), t) == Get(row, keys[|keys| - 1])
  {
  }

  /** `rows.map(...)`: one row per imported line, empty ones included. */
  function ProcessedRows(rows: seq<Dict<string>>, fieldOf: Dict<string>): (r: seq<Dict<string>>)
    ensures |r| == |rows|
    ensures forall k :: 0 <= k < |rows| ==> r[k] == RenameKeys(rows[k], fieldOf)
  {
    seq(|rows|, k requires 0 <= k < |rows| => RenameKeys(rows[k], fieldOf))
  }

  /** Each imported value sits under the field its column was mapped to or
      created as, and comes from a column that was not ignored. */
  lemma ImportedValuesAreMapped(mode: ImportMode, csv: BuilderCsv, mapping: Dict<string>, configs: Dict<ColumnConfig>,
                                freshId: nat -> string, k: nat, t: string)
    requires Configured(mode, csv.headers, mapping, configs)
    requires k < |csv.rows|
    requires Get(ProcessedRows(csv.rows, PlanColumns(mode, csv.headers, mapping, configs, OptionsOf(csv.rows), freshId).fieldOf)[k], t).Some?
    ensures var p := PlanColumns(mode, csv.headers, mapping, configs, OptionsOf(csv.rows), freshId);
      exists h :: h in csv.headers && ActionFor(mode, mapping, h) != Skip && Get(p.fieldOf, h) == Some(t)
                  && Get(csv.rows[k], h) == Get(ProcessedRows(csv.rows, p.fieldOf)[k], t)
  {
    var p := PlanColumns(mode, csv.headers, mapping, configs, OptionsOf(csv.rows), freshId);
    var row := csv.rows[k];
    RenamedSound(row, p.fieldOf, row.keys, t);
    var h :| h in row.keys && Get(p.fieldOf, h) == Some(t) && Get(row, h) == Get(RenameKeysOf(row, p.fieldOf, row.keys), t);
    PlanTargets(mode, csv.headers, mapping, configs, OptionsOf(csv.rows), freshId, h);
  }

  /** The design after `processCsvImport`: in create mode a new active
      table named after the file, holding the created fields and the rows;
      in update mode the active table gains the created fields after its
      own and the rows after its own. */
  function ImportInto(b: Builder, csv: BuilderCsv, mode: ImportMode, mapping: Dict<string>, configs: Dict<ColumnConfig>,
                      freshId: nat -> string, newTableId: string): (r: Builder)
    requires |b.tables| > 0 && Configured(mode, csv.headers, mapping, configs)
    ensures var p := PlanColumns(mode, csv.headers, mapping, configs, OptionsOf(csv.rows), freshId);
      var processed := ProcessedRows(csv.rows, p.fieldOf);
      && (mode.Create? ==> |r.tables| == |b.tables| + 1 && r.tables[..|b.tables|] == b.tables)
      && (mode.Create? && !HasTable(b.tables, newTableId) ==>
            && ActiveTable(r) == BuilderTable(newTableId, csv.tableName, p.newFields, processed)
            && (WellFormed(b) ==> WellFormed(r)))
      && (mode.Update? ==>
            && |r.tables| == |b.tables|
            && (forall i :: 0 <= i < |b.tables| && b.tables[i].id != b.activeId ==> r.tables[i] == b.tables[i])
            && (WellFormed(b) ==>
                  && WellFormed(r)
                  && ActiveTable(r).fields == ActiveTable(b).fields + p.newFields
                  && ActiveTable(r).rows == ActiveTable(b).rows + processed))
  {
    var p := PlanColumns(mode, csv.headers, mapping, configs, OptionsOf(csv.rows), freshId);
    var processed := ProcessedRows(csv.rows, p.fieldOf);
    if mode.Create? then AddTable(b, newTableId, csv.tableName, p.newFields, processed)
    else MergeIntoActive(b, ActiveTable(b).fields + p.newFields, processed)
  }

  /** The update-mode write: the active table takes the merged field list
      and gains the rows after its own. */
  function MergeIntoActive(b: Builder, fields: seq<BuilderField>, rows: seq<Dict<string>>): (r: Builder)
    ensures |r.tables| == |b.tables| && r.activeId == b.activeId
    ensures forall i :: 0 <= i < |b.tables| && b.tables[i].id != b.activeId ==> r.tables[i] == b.tables[i]
    ensures WellFormed(b) ==>
              && WellFormed(r)
              && ActiveTable(r) == ActiveTable(b).(fields := fields, rows := ActiveTable(b).rows + rows)
  {
    EditActive(b, (t: BuilderTable) => t.(fields := fields, rows := t.rows + rows))
  }

  /** One turn of the loop over the headers, as `PlanColumns` takes it. */
  lemma PlanStep(mode: ImportMode, headers: seq<string>, mapping: Dict<string>, configs: Dict<ColumnConfig>,
                 optionsOf: string -> seq<SelectOption>, freshId: nat -> string, i: nat)
    requires i < |headers| && Configured(mode, headers, mapping, configs)
    ensures Configured(mode, headers[..i], mapping, configs) && Configured(mode, headers[..i + 1], mapping, configs)
    ensures var h := headers[i];
      var p := PlanColumns(mode, headers[..i], mapping, configs, optionsOf, freshId);
      PlanColumns(mode, headers[..i + 1], mapping, configs, optionsOf, freshId) ==
        match ActionFor(mode, mapping, h)
        case Skip => p
        case CreateField =>
          ColumnPlan(p.newFields + [NewColumnField(freshId(|p.newFields|), h, Get(configs, h).value, optionsOf)],
                     Put(p.fieldOf, h, freshId(|p.newFields|)))
        case MapTo(id) => ColumnPlan(p.newFields, Put(p.fieldOf, h, id))
  {
    ConfiguredPrefix(mode, headers, mapping, configs, i);
    ConfiguredPrefix(mode, headers, mapping, configs, i + 1);
    assert headers[..i + 1][..i] == headers[..i];
    assert headers[..i + 1][i] == headers[i];
    assert headers[i] in headers[..i + 1];
  }

  /** The loop of `processCsvImport` over the headers: starting from the
      given field list, each column is skipped, mapped or turned into a new
      field appended to the list, counting the fields added. */
  method PlanImport(mode: ImportMode, headers: seq<string>, mapping: Dict<string>, configs: Dict<ColumnConfig>,
                    optionsOf: string -> seq<SelectOption>, freshId: nat -> string, base: seq<BuilderField>)
    returns (newFieldsList: seq<BuilderField>, headerToFieldId: Dict<string>, added: nat)
    requires Configured(mode, headers, mapping, configs)
    ensures var p := PlanColumns(mode, headers, mapping, configs, optionsOf, freshId);
      newFieldsList == base + p.newFields && headerToFieldId == p.fieldOf && added == |p.newFields|
  {
    newFieldsList := base;
    headerToFieldId := Empty();
    added := 0;
    var i := 0;
    while i < |headers|
      invariant 0 <= i <= |headers|
      invariant Configured(mode, headers[..i], mapping, configs)
      invariant var p := PlanColumns(mode, headers[..i], mapping, configs, optionsOf, freshId);
        newFieldsList == base + p.newFields && headerToFieldId == p.fieldOf && added == |p.newFields|
      decreases |headers| - i
    {
      PlanStep(mode, headers, mapping, configs, optionsOf, freshId, i);
      var header := headers[i];
      match ActionFor(mode, mapping, header) {
        case Skip =>
        case CreateField =>
          assert header in headers;
          var config := Get(configs, header).value;
          var field := NewColumnField(freshId(added), header, config, optionsOf);
          AppendAssoc(base, PlanColumns(mode, headers[..i], mapping, configs, optionsOf, freshId).newFields, [field]);
          newFieldsList := newFieldsList + [field];
          headerToFieldId := Put(headerToFieldId, header, field.id);
          added := added + 1;
        case MapTo(id) =>
          headerToFieldId := Put(headerToFieldId, header, id);
      }
      i := i + 1;
    }
    assert headers[..i] == headers;
  }

  /** `processCsvImport`: the loop over the headers, then the rows renamed
      to field ids, then the write into the design, reporting how many
      fields were added and how many rows imported. */
  method ProcessCsvImport(b: Builder, csv: BuilderCsv, mode: ImportMode, mapping: Dict<string>, configs: Dict<ColumnConfig>,
                          freshId: nat -> string, newTableId: string)
    returns (r: Builder, added: nat, imported: nat)
    requires |b.tables| > 0 && Configured(mode, csv.headers, mapping, configs)
    ensures r == ImportInto(b, csv, mode, mapping, configs, freshId, newTableId)
    ensures added == |PlanColumns(mode, csv.headers, mapping, configs, OptionsOf(csv.rows), freshId).newFields|
    ensures imported == |csv.rows|
  {
    var base := if mode.Update? then ActiveTable(b).fields else [];
    var newFieldsList, headerToFieldId;
    newFieldsList, headerToFieldId, added := PlanImport(mode, csv.headers, mapping, configs, OptionsOf(csv.rows), freshId, base);
    var processedRows := ProcessedRows(csv.rows, headerToFieldId);
    imported := |processedRows|;
    if mode.Create? {
      assert newFieldsList == PlanColumns(mode, csv.headers, mapping, configs, OptionsOf(csv.rows), freshId).newFields;
      r := AddTable(b, newTableId, csv.tableName, newFieldsList, processedRows);
    } else {
      r := MergeIntoActive(b, newFieldsList, processedRows);
    }
  }

  // ---------------------------------------------------------------------
  // Saving the design

  const BlankNameMessage: string := "Dê um nome ao seu formulário!"
  const EmptyTableMessage: string := "Existem tabelas vazias."

  /** The size of each record insert of the save. */
  const RecordChunk: nat := 100

  /** The checks made before any write: a name that is not blank, then no
      table without fields. */
  function ValidateSave(name: string, tables: seq<BuilderTable>): (r: Option<string>)
    ensures r == Some(BlankNameMessage) <==> IsBlank(name)
    ensures r == Some(EmptyTableMessage) <==> !IsBlank(name) && exists i :: 0 <= i < |tables| && tables[i].fields == []
    ensures r.None? <==> !IsBlank(name) && forall i :: 0 <= i < |tables| ==> tables[i].fields != []
  {
    if IsBlank(name) then Some(BlankNameMessage)
    else if exists i :: 0 <= i < |tables| && tables[i].fields == [] then Some(EmptyTableMessage)
    else None
  }

  /** The rows the save writes: the module, each table under the module's
      stored id, each field under its table's stored id. */
  datatype ModuleRow = ModuleRow(name: string, description: string, slug: string, createdBy: Option<string>, isActive: bool)
  datatype TableRow = TableRow(moduleId: string, name: string, dbName: string)
  datatype FieldRow = FieldRow(tableId: string, name: string, caption: string, fieldType: string, isRequired: bool,
                               options: Option<seq<SelectOption>>, orderIndex: nat)

  /** The field row of the field at position `i`: its stored name derived
      from the caption, no options when the list is empty. */
  function FieldRowOf(tableId: string, f: BuilderField, i: nat): (r: FieldRow)
    ensures r.tableId == tableId && r.caption == f.caption && r.fieldType == f.fieldType && r.isRequired == f.required
    ensures r.orderIndex == i && IsStoredName(r.name)
    ensures r.options.None? <==> f.options == []
    ensures r.options.Some? ==> r.options.value == f.options
  {
    FieldRow(tableId, GenerateDbName(f.caption), f.caption, f.fieldType, f.required,
             if f.options == [] then None else Some(f.options), i)
  }

  /** The field rows of a table, each at its position. */
  function FieldRows(tableId: string, fields: seq<BuilderField>): (r: seq<FieldRow>)
    ensures |r| == |fields|
    ensures forall i :: 0 <= i < |r| ==> r[i] == FieldRowOf(tableId, fields[i], i)
  {
    seq(|fields|, i requires 0 <= i < |fields| => FieldRowOf(tableId, fields[i], i))
  }

  function FieldIds(fields: seq<BuilderField>): (r: seq<string>)
    ensures |r| == |fields| && forall i :: 0 <= i < |r| ==> r[i] == fields[i].id
  {
    seq(|fields|, i requires 0 <= i < |fields| => fields[i].id)
  }

  function FieldDbNames(fields: seq<BuilderField>): (r: seq<string>)
    ensures |r| == |fields| && forall i :: 0 <= i < |r| ==> r[i] == GenerateDbName(fields[i].caption)
  {
    seq(|fields|, i requires 0 <= i < |fields| => GenerateDbName(fields[i].caption))
  }

  /** `fieldIdToDbName`: each field id mapped to the stored name of its
      caption, a later field with the same id overwriting. */
  function FieldNames(fields: seq<BuilderField>): Dict<string> {
    FromPairs(FieldIds(fields), FieldDbNames(fields))
  }

  /** A field id has a stored name exactly when some field has that id, and
      the name is the one derived from such a field's caption. */
  lemma FieldNamesLookup(fields: seq<BuilderField>, id: string)
    ensures Get(FieldNames(fields), id).Some? <==> exists i :: 0 <= i < |fields| && fields[i].id == id
    ensures Get(FieldNames(fields), id).Some? ==>
              exists i :: 0 <= i < |fields| && fields[i].id == id
                          && Get(FieldNames(fields), id) == Some(GenerateDbName(fields[i].caption))
  {
    var ids, dbNames := FieldIds(fields), FieldDbNames(fields);
    FromPairsKeys(ids, dbNames, id);
    if exists i :: 0 <= i < |fields| && fields[i].id == id {
      var i :| 0 <= i < |fields| && fields[i].id == id;
      assert ids[i] == id;
    }
    if id in ids {
      var i := LastIndex(ids, id);
      FromPairsLastWins(ids, dbNames, i);
      assert fields[i].id == id && dbNames[i] == GenerateDbName(fields[i].caption);
    }
  }

  /** The field rows and `fieldIdToDbName`, built together by one pass over
      the fields. */
  method PrepareFields(tableId: string, fields: seq<BuilderField>) returns (rows: seq<FieldRow>, names: Dict<string>)
    ensures rows == FieldRows(tableId, fields)
    ensures names == FieldNames(fields)
  {
    rows, names := [], Empty();
    ghost var all, ids, dbNames := FieldRows(tableId, fields), FieldIds(fields), FieldDbNames(fields);
    var i := 0;
    while i < |fields|
      invariant 0 <= i <= |fields|
      invariant rows == all[..i]
      invariant names == FromPairs(ids[..i], dbNames[..i])
    {
      var f := fields[i];
      var dbName := GenerateDbName(f.caption);
      FromPairsStep(ids, dbNames, i);
      assert ids[i] == f.id && dbNames[i] == dbName;
      names := Put(names, f.id, dbName);
      rows := rows + [FieldRowOf(tableId, f, i)];
      PrefixStep(all, i);
      i := i + 1;
    }
    FullPrefix(all);
    FullPrefix(ids);
    FullPrefix(dbNames);
  }

  /** The record of each imported row: its values moved from field ids to
      stored names, pending review, by the saving user. */
  function RecordDrafts(tableId: string, rows: seq<Dict<string>>, names: Dict<string>, user: Option<string>): (r: seq<Draft>)
    ensures |r| == |rows|
    ensures forall k :: 0 <= k < |r| ==>
              r[k].tableId == tableId && r[k].status == Pending && r[k].createdBy == user
              && r[k].data == RenameKeys(rows[k], names)
  {
    seq(|rows|, k requires 0 <= k < |rows| => Draft(tableId, RenameKeys(rows[k], names), user, Pending))
  }

  /** A saved record holds only the stored names of the table's fields:
      each value sits under the name derived from the caption of a field
      whose id keyed that value in the row; ids of no field are dropped. */
  lemma SavedRecordKeys(fields: seq<BuilderField>, row: Dict<string>, t: string)
    requires Get(RenameKeys(row, FieldNames(fields)), t).Some?
    ensures exists i :: 0 <= i < |fields| && fields[i].id in row.keys
              && t == GenerateDbName(fields[i].caption)
              && Get(RenameKeys(row, FieldNames(fields)), t) == Get(row, fields[i].id)
  {
    var names := FieldNames(fields);
    RenamedSound(row, names, row.keys, t);
    var k :| k in row.keys && Get(names, k) == Some(t) && Get(row, k) == Get(RenameKeys(row, names), t);
    FieldNamesLookup(fields, k);
  }

  /** A saved record carries no batch tag unless some field's caption turns
      into `_batch_id`: every key of the record is a field's stored name. */
  lemma {:induction false} RecordDraftsUnbatched(tableId: string, rows: seq<Dict<string>>, fields: seq<BuilderField>,
                                                 user: Option<string>, k: nat)
    requires forall i :: 0 <= i < |fields| ==> GenerateDbName(fields[i].caption) != BatchKey
    requires k < |rows|
    ensures BatchOf(RecordDrafts(tableId, rows, FieldNames(fields), user)[k].data) == None
  {
    var data := RecordDrafts(tableId, rows, FieldNames(fields), user)[k].data;
    assert data == RenameKeys(rows[k], FieldNames(fields));
    if Get(data, BatchKey).Some? {
      SavedRecordKeys(fields, rows[k], BatchKey);
      assert false;
    }
  }

  /** The store's answers to the save's writes, by position: whether the
      module insert fails and the id it assigns, the same for the k-th
      table, whether the k-th table's field insert fails, and whether its
      j-th record chunk fails. */
  datatype StoreAnswers = StoreAnswers(
    moduleFails: bool, moduleId: string,
    tableFails: nat -> bool, tableIdOf: nat -> string,
    fieldsFail: nat -> bool, chunkFails: nat -> nat -> bool)

  /** What the table loop has written, and whether a write threw. */
  datatype Written = Written(tables: seq<TableRow>, fields: seq<FieldRow>, records: seq<Draft>, aborted: bool)

  /** The writes of the k-th table: its row, then its field rows when there
      are any, then its records chunk by chunk. A failing table or field
      insert throws; a failing chunk is only logged. */
  function TableWrites(t: BuilderTable, k: nat, user: Option<string>, store: StoreAnswers): (w: Written)
    ensures store.tableFails(k) ==> w == Written([], [], [], true)
    ensures !store.tableFails(k) ==>
              && w.tables == [TableRow(store.moduleId, t.name, GenerateDbName(t.name))]
              && (w.aborted <==> t.fields != [] && store.fieldsFail(k))
              && (!w.aborted ==> w.fields == FieldRows(store.tableIdOf(k), t.fields))
              && (w.aborted ==> w.fields == [] && w.records == [])
              && (!w.aborted ==> w.records == CommittedDrafts(t, k, user, store))
  {
    if store.tableFails(k) then Written([], [], [], true)
    else
      var tableId := store.tableIdOf(k);
      var row := TableRow(store.moduleId, t.name, GenerateDbName(t.name));
      var fieldRows := FieldRows(tableId, t.fields);
      if fieldRows != [] && store.fieldsFail(k) then Written([row], [], [], true)
      else
        var drafts := RecordDrafts(tableId, t.rows, FieldNames(t.fields), user);
        Written([row], fieldRows, CommittedSkippingErrors(Chunks(drafts, RecordChunk), store.chunkFails(k), 0), false)
  }

  /** The records the k-th table's rows become. */
  function TableDrafts(t: BuilderTable, k: nat, user: Option<string>, store: StoreAnswers): seq<Draft> {
    RecordDrafts(store.tableIdOf(k), t.rows, FieldNames(t.fields), user)
  }

  /** The k-th table's records that reach the store: those of the chunks
      whose insert does not fail. */
  function CommittedDrafts(t: BuilderTable, k: nat, user: Option<string>, store: StoreAnswers): seq<Draft> {
    CommittedSkippingErrors(Chunks(TableDrafts(t, k, user, store), RecordChunk), store.chunkFails(k), 0)
  }

  /** The field rows of every table, table by table. */
  function AllFieldRows(tables: seq<BuilderTable>, store: StoreAnswers): (r: seq<FieldRow>)
    ensures |r| == TotalFields(tables)
    decreases |tables|
  {
    if tables == [] then []
    else
      var n := |tables| - 1;
      AllFieldRows(tables[..n], store) + FieldRows(store.tableIdOf(n), tables[n].fields)
  }

  /** The records that reach the store, table by table. */
  function CommittedRecords(tables: seq<BuilderTable>, user: Option<string>, store: StoreAnswers): seq<Draft>
    decreases |tables|
  {
    if tables == [] then []
    else
      var n := |tables| - 1;
      CommittedRecords(tables[..n], user, store) + CommittedDrafts(tables[n], n, user, store)
  }

  /** Every record of every table, table by table. */
  function AllDrafts(tables: seq<BuilderTable>, user: Option<string>, store: StoreAnswers): (r: seq<Draft>)
    ensures |r| == TotalRows(tables)
    decreases |tables|
  {
    if tables == [] then []
    else
      var n := |tables| - 1;
      AllDrafts(tables[..n], user, store) + TableDrafts(tables[n], n, user, store)
  }

  /** When no chunk insert fails, every record of every table reaches the store. */
  lemma {:induction false} CommittedRecordsWithoutFailures(tables: seq<BuilderTable>, user: Option<string>, store: StoreAnswers)
    requires forall k, j :: !store.chunkFails(k)(j)
    ensures CommittedRecords(tables, user, store) == AllDrafts(tables, user, store)
    decreases |tables|
  {
    if tables != [] {
      var n := |tables| - 1;
      CommittedRecordsWithoutFailures(tables[..n], user, store);
      CommittedSkippingNoErrors(Chunks(TableDrafts(tables[n], n, user, store), RecordChunk), store.chunkFails(n), 0);
    }
  }

  /** What the loop over the tables has written after the given tables; it
      stops at the first write that throws. */
  function WriteTables(tables: seq<BuilderTable>, user: Option<string>, store: StoreAnswers): (w: Written)
    ensures |w.tables| <= |tables|
    decreases |tables|
  {
    if tables == [] then Written([], [], [], false)
    else
      var n := |tables| - 1;
      var w := WriteTables(tables[..n], user, store);
      if w.aborted then w
      else
        var x := TableWrites(tables[n], n, user, store);
        Written(w.tables + x.tables, w.fields + x.fields, w.records + x.records, x.aborted)
  }

  /** A loop that ran to the end has written the field rows of every table
      and, of each table, the records of the chunks that did not fail. */
  lemma {:induction false} WrittenContents(tables: seq<BuilderTable>, user: Option<string>, store: StoreAnswers)
    requires !WriteTables(tables, user, store).aborted
    ensures WriteTables(tables, user, store).fields == AllFieldRows(tables, store)
    ensures WriteTables(tables, user, store).records == CommittedRecords(tables, user, store)
    decreases |tables|
  {
    if tables != [] {
      WrittenStep(tables, user, store);
      WrittenContents(tables[..|tables| - 1], user, store);
    }
  }

  lemma WrittenStep(tables: seq<BuilderTable>, user: Option<string>, store: StoreAnswers)
    requires tables != [] && !WriteTables(tables, user, store).aborted
    ensures var n := |tables| - 1;
      var w, all := WriteTables(tables[..n], user, store), WriteTables(tables, user, store);
      && !w.aborted
      && all.fields == w.fields + FieldRows(store.tableIdOf(n), tables[n].fields)
      && all.records == w.records + CommittedDrafts(tables[n], n, user, store)
  {
  }

  /** Once a write has thrown, the later tables write nothing. */
  lemma {:induction false} AbortedStays(tables: seq<BuilderTable>, user: Option<string>, store: StoreAnswers, n: nat)
    requires n <= |tables| && WriteTables(tables[..n], user, store).aborted
    ensures WriteTables(tables, user, store) == WriteTables(tables[..n], user, store)
    decreases |tables|
  {
    if n < |tables| {
      var m := |tables| - 1;
      PrefixOfPrefix(tables, m, n);
      AbortedStays(tables[..m], user, store, n);
      AbortedStep(tables, user, store);
    } else {
      FullPrefix(tables);
    }
  }

  lemma AbortedStep(tables: seq<BuilderTable>, user: Option<string>, store: StoreAnswers)
    requires tables != [] && WriteTables(tables[..|tables| - 1], user, store).aborted
    ensures WriteTables(tables, user, store) == WriteTables(tables[..|tables| - 1], user, store)
  {
  }

  /** One more table adds at most its own row, and adds it whenever no
      write has thrown. */
  lemma TableRowsStep(tables: seq<BuilderTable>, user: Option<string>, store: StoreAnswers)
    requires tables != []
    ensures var n := |tables| - 1;
      var w, all := WriteTables(tables[..n], user, store), WriteTables(tables, user, store);
      && (w.aborted ==> all == w)
      && (!w.aborted ==> all.tables == w.tables || all.tables == w.tables + [TableRowOf(store.moduleId, tables[n])])
      && (!all.aborted ==> !w.aborted && all.tables == w.tables + [TableRowOf(store.moduleId, tables[n])])
  {
  }

  function TableRowOf(moduleId: string, t: BuilderTable): TableRow {
    TableRow(moduleId, t.name, GenerateDbName(t.name))
  }

  /** The rows are those of the first tables, in order. */
  predicate RowsOfFirstTables(rows: seq<TableRow>, tables: seq<BuilderTable>, moduleId: string) {
    |rows| <= |tables| && forall i :: 0 <= i < |rows| ==> rows[i] == TableRowOf(moduleId, tables[i])
  }

  lemma RowsOfLongerTables(rows: seq<TableRow>, tables: seq<BuilderTable>, n: nat, moduleId: string)
    requires n <= |tables| && RowsOfFirstTables(rows, tables[..n], moduleId)
    ensures RowsOfFirstTables(rows, tables, moduleId)
  {
    forall i | 0 <= i < |rows|
      ensures rows[i] == TableRowOf(moduleId, tables[i])
    {
      assert tables[..n][i] == tables[i];
    }
  }

  lemma RowsOfNextTable(rows: seq<TableRow>, tables: seq<BuilderTable>, moduleId: string)
    requires tables != [] && |rows| == |tables| - 1
    requires RowsOfFirstTables(rows, tables[..|tables| - 1], moduleId)
    ensures RowsOfFirstTables(rows + [TableRowOf(moduleId, tables[|tables| - 1])], tables, moduleId)
  {
    var n := |tables| - 1;
    var all := rows + [TableRowOf(moduleId, tables[n])];
    forall i | 0 <= i < |all|
      ensures all[i] == TableRowOf(moduleId, tables[i])
    {
      if i < n {
        assert all[i] == rows[i] == TableRowOf(moduleId, tables[..n][i]);
        assert tables[..n][i] == tables[i];
      }
    }
  }

  /** The table rows written are those of the first tables, in order, each
      under the module's id with the stored name of its caption; when no
      write throws there is one per table. */
  lemma {:induction false} WrittenTablesInOrder(tables: seq<BuilderTable>, user: Option<string>, store: StoreAnswers)
    ensures var w := WriteTables(tables, user, store);
      && (forall i :: 0 <= i < |w.tables| ==>
            w.tables[i] == TableRow(store.moduleId, tables[i].name, GenerateDbName(tables[i].name)))
      && (!w.aborted ==> |w.tables| == |tables|)
    decreases |tables|
  {
    if tables != [] {
      var n := |tables| - 1;
      WrittenTablesInOrder(tables[..n], user, store);
      TableRowsStep(tables, user, store);
      var w, all := WriteTables(tables[..n], user, store), WriteTables(tables, user, store);
      assert RowsOfFirstTables(w.tables, tables[..n], store.moduleId);
      if all.tables == w.tables {
        RowsOfLongerTables(w.tables, tables, n, store.moduleId);
      } else {
        RowsOfNextTable(w.tables, tables, store.moduleId);
      }
      assert RowsOfFirstTables(all.tables, tables, store.moduleId);
    }
  }

  /** The outcome of pressing save. */
  datatype SaveResult =
    | Refused(message: string)
    | Stored(moduleRow: Option<ModuleRow>, written: Written)

  /** The save as the page runs it: the checks, then the module row with
      its slug, then the tables one by one; a throwing write leaves what
      was already written in place. */
  function SaveOutcome(name: string, description: string, tables: seq<BuilderTable>, user: Option<string>,
                       suffix: nat, store: StoreAnswers): (r: SaveResult)
    ensures r.Refused? <==> ValidateSave(name, tables).Some?
    ensures r.Refused? ==> r.message == ValidateSave(name, tables).value
    ensures r.Stored? && r.moduleRow.None? ==> r.written == Written([], [], [], true)
    ensures r.Stored? && r.moduleRow.Some? ==> r.moduleRow.value.slug == ModuleSlug(name, suffix)
  {
    match ValidateSave(name, tables)
    case Some(m) => Refused(m)
    case None =>
      if store.moduleFails then Stored(None, Written([], [], [], true))
      else Stored(Some(ModuleRow(name, description, ModuleSlug(name, suffix), user, true)), WriteTables(tables, user, store))
  }

  /** A stored module's slug is the name's stem, a dash, and the four
      digits of the drawn suffix. */
  lemma SavedSlug(name: string, description: string, tables: seq<BuilderTable>, user: Option<string>,
                  suffix: nat, store: StoreAnswers)
    requires 1000 <= suffix <= 9999
    requires SaveOutcome(name, description, tables, user, suffix, store).Stored?
    requires SaveOutcome(name, description, tables, user, suffix, store).moduleRow.Some?
    ensures var slug := SaveOutcome(name, description, tables, user, suffix, store).moduleRow.value.slug;
      && |slug| == |SlugStem(name)| + 5 && slug[..|SlugStem(name)|] == SlugStem(name)
      && slug[|slug| - 5] == '-' && IsDigits(slug[|slug| - 4..]) && DecimalValue(slug[|slug| - 4..]) == suffix
  {
    ModuleSlugShape(name, suffix);
  }

  /** When the store accepts every write, the whole design is stored: the
      module, one row per table and one field row per field, and every
      record of every table. */
  lemma {:induction false} SaveWithoutErrors(tables: seq<BuilderTable>, user: Option<string>, store: StoreAnswers)
    requires !store.moduleFails
    requires forall k :: !store.tableFails(k) && !store.fieldsFail(k)
    requires forall k, j :: !store.chunkFails(k)(j)
    ensures var w := WriteTables(tables, user, store);
      && !w.aborted && |w.tables| == |tables|
      && w.fields == AllFieldRows(tables, store) && |w.fields| == TotalFields(tables)
      && w.records == AllDrafts(tables, user, store) && |w.records| == TotalRows(tables)
  {
    NeverAborts(tables, user, store);
    WrittenContents(tables, user, store);
    CommittedRecordsWithoutFailures(tables, user, store);
  }

  /** When no table or field insert fails, the loop never stops early and
      writes one table row per table. */
  lemma {:induction false} NeverAborts(tables: seq<BuilderTable>, user: Option<string>, store: StoreAnswers)
    requires forall k :: !store.tableFails(k) && !store.fieldsFail(k)
    ensures !WriteTables(tables, user, store).aborted && |WriteTables(tables, user, store).tables| == |tables|
    decreases |tables|
  {
    if tables != [] {
      NeverAborts(tables[..|tables| - 1], user, store);
    }
  }

  function TotalFields(tables: seq<BuilderTable>): nat
    decreases |tables|
  {
    if tables == [] then 0 else TotalFields(tables[..|tables| - 1]) + |tables[|tables| - 1].fields|
  }

  function TotalRows(tables: seq<BuilderTable>): nat
    decreases |tables|
  {
    if tables == [] then 0 else TotalRows(tables[..|tables| - 1]) + |tables[|tables| - 1].rows|
  }

  /** One turn of the loop over the tables, as `WriteTables` takes it. */
  lemma WriteTablesStep(tables: seq<BuilderTable>, user: Option<string>, store: StoreAnswers, i: nat)
    requires i < |tables|
    ensures var w := WriteTables(tables[..i], user, store);
      var x := TableWrites(tables[i], i, user, store);
      WriteTables(tables[..i + 1], user, store) ==
        if w.aborted then w else Written(w.tables + x.tables, w.fields + x.fields, w.records + x.records, x.aborted)
  {
    assert tables[..i + 1][..i] == tables[..i];
  }

  /** One turn of the save's loop over the tables: the table insert, its
      field rows with `fieldIdToDbName`, and its records in chunks of 100. */
  method SaveTable(t: BuilderTable, k: nat, user: Option<string>, store: StoreAnswers) returns (x: Written)
    ensures x == TableWrites(t, k, user, store)
  {
    if store.tableFails(k) {
      return Written([], [], [], true);
    }
    var tableId := store.tableIdOf(k);
    var row := TableRow(store.moduleId, t.name, GenerateDbName(t.name));
    var rows, names := PrepareFields(tableId, t.fields);
    if rows != [] && store.fieldsFail(k) {
      return Written([row], [], [], true);
    }
    var drafts := RecordDrafts(tableId, t.rows, names, user);
    var committed, _ := InsertSkippingErrors(drafts, RecordChunk, store.chunkFails(k));
    x := Written([row], rows, committed, false);
  }

  /** The save's loop over the tables, left at the first write that
      throws. */
  method WriteAllTables(tables: seq<BuilderTable>, user: Option<string>, store: StoreAnswers) returns (w: Written)
    ensures w == WriteTables(tables, user, store)
  {
    w := Written([], [], [], false);
    var i := 0;
    while i < |tables| && !w.aborted
      invariant 0 <= i <= |tables|
      invariant w == WriteTables(tables[..i], user, store)
      decreases |tables| - i
    {
      WriteTablesStep(tables, user, store, i);
      var x := SaveTable(tables[i], i, user, store);
      w := Written(w.tables + x.tables, w.fields + x.fields, w.records + x.records, x.aborted);
      i := i + 1;
    }
    if w.aborted {
      AbortedStays(tables, user, store, i);
    } else {
      assert tables[..i] == tables;
    }
  }

  /** `handleSave`: the checks, the slug from the drawn suffix, the module
      insert, then for each table its insert, its field rows with
      `fieldIdToDbName`, and its records in chunks of 100. */
  method SaveModule(name: string, description: string, tables: seq<BuilderTable>, user: Option<string>,
                    suffix: nat, store: StoreAnswers)
    returns (r: SaveResult)
    requires 1000 <= suffix <= 9999
    ensures r == SaveOutcome(name, description, tables, user, suffix, store)
  {
    if IsBlank(name) {
      return Refused(BlankNameMessage);
    }
    if exists i :: 0 <= i < |tables| && tables[i].fields == [] {
      return Refused(EmptyTableMessage);
    }
    var slug := ModuleSlug(name, suffix);
    if store.moduleFails {
      return Stored(None, Written([], [], [], true));
    }
    var written := WriteAllTables(tables, user, store);
    r := Stored(Some(ModuleRow(name, description, slug, user, true)), written);
  }
}
