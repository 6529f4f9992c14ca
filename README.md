# Prefeitura Mais Dados — a verified model of the console's core

Prefeitura Mais Dados is a web console for municipal data entry. An
administrator designs *modules* (systems), each made of tables whose fields
are defined at run time. Staff then fill those tables through forms or CSV
imports. A supervisor reviews the pending records, one by one or a whole
import batch at a time. Who may do what depends on four roles: `consulta`,
`funcionario`, `supervisor` and `administrador`.

This project models the logic of the console's pages and of its
authentication provider as Dafny, and proves what that logic promises:

- **Csv** holds the two CSV readers (the record page's and the module
  builder's, which differ on purpose) and the record page's CSV writer. It
  proves that a plain export reads back as the records it came from.
- **Naming** holds the stored-name rule `generateDbName`, the option value
  rule and the module slug.
- **CrudPage** is the record page of one table. It covers:
  - automatic column mapping;
  - turning imported rows into records tagged with one batch id;
  - the 50-record insertion loop;
  - form validation;
  - save, edit and delete on the list shown;
  - search and export.
- **Approvals** is the review page: the split of pending records into singles
  and batch cards, approve and reject as state changes of a record store,
  and what the cards display.
- **NewModule** is the module builder. It covers:
  - the table and field list edits;
  - the CSV import into the design;
  - the save, which writes the module, then its tables, fields and records,
    with the records going out 100 at a time.
- **EditModule** is the structure editor of an existing module.
- **Permissions** holds roles, `checkPermission` and `canWriteInModule`, and
  the provider's signed-in state.
- **Team** holds user registration and removal under the role rules, the
  search, and what each row shows.
- **Login** holds the three-step sign-in flow.
- **Records**, **Objects**, **Seqs**, **Text** and **Wrappers** are shared:
  - **Records** holds the entities;
  - **Objects** holds JavaScript objects as ordered key lists;
  - **Seqs** holds sequence helpers and the two chunked insertion loops;
  - **Text** holds the JavaScript string operations the pages use;
  - **Wrappers** holds `Option` and `Result`.

The backend store, random ids, the random slug suffix, the clock and date
formatting are not called. They are parameters: a store answer, a fresh
id, or a function such as `formatDate`. Operations that change page state
in place are methods of the classes `CrudPage.RecordPage`,
`Approvals.ReviewBoard`, `Team.TeamList`, `Permissions.AuthState` and
`Login.LoginFlow`. The loops of the source are methods proved against
specification functions: the import's row loop, the chunk loops, the
grouping pass, the builder's header loop and its save loop, and the editor's
save loop.

Where the system's documentation and its code disagree, the
model follows the code:

- `generateDbName` neither collapses runs of separators nor trims.
- The module slug keeps a trailing dash of the name before the separator
  dash.
- The date on a batch card is that of the newest record of the batch.
  The first record of each batch is the newest, because the listing is
  sorted by creation date, descending.

The builder's cross next to an option (src/pages/NewModule.tsx:486) is
`NewModule.UpdateField` with `SetOptions(EditModule.RemoveOption(...))`.

## Model

| member | source | states |
|---|---|---|
| Csv.DropLeadingQuotes | src/pages/CrudPage.tsx:19 | the result is a suffix of the input. Everything removed is a quote character, and the result does not start with one. |
| Csv.DropTrailingQuotes | src/pages/CrudPage.tsx:19 | the result is a prefix of the input. Everything removed is a quote character, and the result does not end with one. |
| Csv.RemoveLineBreaks | src/pages/CrudPage.tsx:19 | no CR or LF is left, and text without them is unchanged; the result is the input with exactly its CR and LF characters filtered out, the others kept in order |
| Csv.CleanText | src/pages/CrudPage.tsx:19 | `cleanText` leaves no CR or LF and no leading or trailing whitespace, and never lengthens |
| Csv.CleanTextSteps | src/pages/CrudPage.tsx:19 | the order of the steps: leading quotes, trailing quotes, line breaks, then trim |
| Csv.CleanTextOfPlain | src/pages/CrudPage.tsx:19 | a plain value passes through `cleanText` unchanged |
| Csv.CleanTextAfterSpace | src/pages/CrudPage.tsx:19 | a leading blank before a plain value is removed by the final trim |
| Csv.CleanTextKeepsQuotesBehindSpaces | src/pages/CrudPage.tsx:19 | quotes behind surrounding spaces survive, because trimming comes last |
| Csv.CleanTextKeepsInnerQuotes | src/pages/CrudPage.tsx:19 | surrounding quotes are removed and inner ones kept |
| Csv.SplitLines | src/pages/CrudPage.tsx:98 | `split(/\r\n\|\n/)` gives the LF pieces with each CR before an LF removed |
| Csv.SplitLinesWithoutCr | src/pages/CrudPage.tsx:98 | on text without CR, the record page's reader and the builder's reader cut the same lines |
| Csv.DropBlank | src/pages/CrudPage.tsx:98 | keeps exactly the lines that are not blank after trimming, in order: the result is the filter of the lines by "not blank" |
| Csv.CrudCells | src/pages/CrudPage.tsx:106 | one cell per header: the cleaned value, or `''` when it is missing or empty |
| Csv.CrudRow | src/pages/CrudPage.tsx:103-107 | a row has one key per distinct header, in header order |
| Csv.CrudRowCell | src/pages/CrudPage.tsx:106 | header i holds the cleaned cell i, or `''` past the end of the line, unless a later header repeats it |
| Csv.CrudRows | src/pages/CrudPage.tsx:103-108 | one row per data line, in order |
| Csv.CrudHeaders | src/pages/CrudPage.tsx:102 | the headers are the cleaned comma-separated pieces of the first line |
| Csv.ParseCrudCsv | src/pages/CrudPage.tsx:96-108 | an error exactly when fewer than two non-blank lines remain; otherwise the headers are the cleaned cells of the first non-blank line and row k is read from non-blank line k + 1 |
| Csv.StripQuotes | src/pages/NewModule.tsx:111 | no `'` or `"` is left, and text without them is unchanged; the result is the input with exactly its quote characters filtered out, the others kept in order |
| Csv.BuilderText | src/pages/NewModule.tsx:111 | a builder header or cell holds no quote character |
| Csv.BuilderCells | src/pages/NewModule.tsx:115-117 | one cell per header: the trimmed, quote-free value, or `''` when it is missing |
| Csv.BuilderRow | src/pages/NewModule.tsx:112-119 | a row has one key per distinct header, in header order |
| Csv.BuilderRowCell | src/pages/NewModule.tsx:113-117 | header i holds cell i trimmed and stripped of every quote, or `''` when the cell is missing or empty, unless a later header repeats it |
| Csv.StripCsvExtension | src/pages/NewModule.tsx:121 | changes nothing when there is no `.csv`, and otherwise removes four characters |
| Csv.StripCsvExtensionCutsFirst | src/pages/NewModule.tsx:121 | when the first `.csv` starts at i, the result is the name without exactly those four characters |
| Csv.StripCsvExtensionOfFileName | src/pages/NewModule.tsx:121 | `name.csv` gives `name` |
| Csv.BuilderHeaders | src/pages/NewModule.tsx:111 | the headers are the trimmed, quote-free pieces of the first line |
| Csv.ParseBuilderCsv | src/pages/NewModule.tsx:107-137 | reads LF lines only. It is an error exactly when no non-blank line remains. Otherwise the headers are the trimmed, quote-free cells of the first non-blank line, row k is read from non-blank line k + 1, and the table name is the file name without `.csv`. |
| Csv.HeaderOnlyFile | src/pages/NewModule.tsx:110 | a file of one header line is refused by the record page and accepted, with no rows, by the builder |
| Csv.DoubleQuotes | src/pages/CrudPage.tsx:194 | lengthens exactly when there is a quote, and adds or removes no comma or newline |
| Csv.UndoubleDouble | src/pages/CrudPage.tsx:194 | undoing the doubling gives the value back |
| Csv.EscapeCellReadBack | src/pages/CrudPage.tsx:194 | a value with a comma or newline, or with no quote, is read back by an RFC 4180 reader as itself |
| Csv.EscapeCellQuoteNotEnclosed | src/pages/CrudPage.tsx:194 | a value with a quote but no comma or newline is written doubled and unenclosed, and an RFC 4180 reader does not get it back |
| Csv.EscapeCellLoneQuote | src/pages/CrudPage.tsx:194 | a cell holding one quote is written `""`, which reads back as empty |
| Csv.EscapeCellOfPlain | src/pages/CrudPage.tsx:194 | plain values are written as they are |
| Csv.StatusLabelIsPlain | src/pages/CrudPage.tsx:191 | every status label is non-empty and needs no escaping |
| Csv.SelectedFields | src/pages/CrudPage.tsx:187 | the fields whose name is selected, in field order, and every one of them |
| Csv.HeaderCells | src/pages/CrudPage.tsx:189 | `ID`, `Status`, `Data`, then the captions of the selected fields |
| Csv.LineCells | src/pages/CrudPage.tsx:190-197 | the id, the status label, the formatted date, then each escaped value |
| Csv.ExportLines | src/pages/CrudPage.tsx:189-200 | a header line, then one line per record in order |
| Csv.ExportCsv | src/pages/CrudPage.tsx:186-200 | nothing to export is an error and no file; otherwise the text starts with U+FEFF |
| Csv.LineCellsOfPlain | src/pages/CrudPage.tsx:190-197 | a plain record's cells are its values unescaped |
| Csv.HeaderLineReadBack | src/pages/CrudPage.tsx:200 | the header line, after the byte order mark, reads back as the header cells |
| Csv.RecordLineReadBack | src/pages/CrudPage.tsx:104-106 | a line of plain cells reads back as the row pairing each header with its cell |
| Csv.ExportLinesReadBack | src/pages/CrudPage.tsx:200 | the exported text splits into its lines again, none of them blank |
| Csv.ExportThenImport | src/pages/CrudPage.tsx:185-200 | round trip: re-importing a plain export gives the header cells and one row per record holding its values |
| Naming.BaseLetter | src/pages/NewModule.tsx:56 | ASCII is unchanged, and no combining mark is produced |
| Naming.StripAccents | src/pages/NewModule.tsx:56 | no combining mark is left. Without combining marks in the input, each character becomes its base letter. |
| Naming.ReplaceNonAlnum | src/pages/NewModule.tsx:56 | same length; each character outside `[a-z0-9]` becomes the fill character and the others stay |
| Naming.GenerateDbName | src/pages/NewModule.tsx:55-56 | the result holds only `[a-z0-9_]`. Without combining marks it has the caption's length, one character per input character. |
| Naming.StoredNameUnchanged | src/pages/NewModule.tsx:55-56 | a valid stored name is its own stored name |
| Naming.GenerateDbNameIdempotent | src/pages/NewModule.tsx:55-56 | applying `generateDbName` twice is applying it once |
| Naming.GenerateDbNameIgnoresCase | src/pages/NewModule.tsx:56 | captions differing in case get the same stored name |
| Naming.GenerateDbNameExample | src/pages/NewModule.tsx:56 | accents go, and each space becomes its own `_` |
| Naming.OptionValue | src/pages/NewModule.tsx:152 | an option value has the caption's length and only `[a-z0-9_]` |
| Naming.OptionValueKeepsNoAccent | src/pages/NewModule.tsx:152 | an accented letter becomes `_` in an option value but its base letter in a stored name |
| Naming.CollapseDashes | src/pages/NewModule.tsx:229 | no two dashes in a row remain, and the first character is kept |
| Naming.CollapseDeletesOnlyDashes | src/pages/NewModule.tsx:229 | collapsing deletes dashes and nothing else |
| Naming.CollapseIdempotent | src/pages/NewModule.tsx:229 | text without double dashes is unchanged |
| Naming.CollapseDoubleDash | src/pages/NewModule.tsx:229 | two dashes in a row collapse to one wherever they stand, so each run of dashes keeps one dash |
| Naming.SlugStem | src/pages/NewModule.tsx:229 | the stem holds only `[a-z0-9-]`, with no two dashes in a row |
| Naming.ModuleSlugShape | src/pages/NewModule.tsx:228-229 | the slug is the stem, a dash, and four digits whose value is the suffix |
| Naming.ModuleSlugTrailingDash | src/pages/NewModule.tsx:229 | a name ending in punctuation leaves a dash before the separator dash |
| Records.BatchOf | src/pages/Approvals.tsx:61-63 | a batch id is present exactly when `_batch_id` holds a non-empty value |
| Text.FirstWord | src/pages/Auth.tsx:141-142 | the part before the first space: a prefix with no space, followed by a space or the end |
| Text.FirstWordIsFirstPiece | src/pages/Auth.tsx:141 | equals the first piece of `split(' ')` |
| Seqs.Dedup | src/pages/NewModule.tsx:145-150 | distinct, the same elements as the input, never longer |
| Seqs.DedupMember | src/pages/NewModule.tsx:145-150 | membership is kept in both directions |
| Seqs.FilterAppend | src/pages/CrudPage.tsx:98 | filtering `a + b` gives the filtered `a` followed by the filtered `b`, so a filter keeps the order of what it keeps |
| Seqs.Chunks | src/pages/CrudPage.tsx:165-166 | the chunks concatenate to the input, each non-empty and at most `size` long |
| Seqs.ChunksFull | src/pages/CrudPage.tsx:165-166 | every chunk but the last is full |
| Seqs.CommittedUntilErrorIsPrefix | src/pages/CrudPage.tsx:165-168 | a stop-at-first-error loop commits a prefix of the records, and all of them when no chunk fails |
| Seqs.CommittedSkippingNoErrors | src/pages/NewModule.tsx:292-296 | a log-and-continue loop commits every record when no chunk fails |
| Seqs.InsertStoppingAtError | src/pages/CrudPage.tsx:164-168 | the loop commits the chunks before the first failure, and reports success exactly when no chunk fails |
| Seqs.InsertSkippingErrors | src/pages/NewModule.tsx:291-296 | the loop commits every chunk that does not fail, in order, and counts the failures |
| CrudPage.MatchField | src/pages/CrudPage.tsx:115 | none exactly when no field's caption or name equals the header ignoring case; otherwise a field of the list |
| CrudPage.AutoTarget | src/pages/CrudPage.tsx:115-116 | `ignore` when no field matches, otherwise the name of the first matching field |
| CrudPage.AutoTargets | src/pages/CrudPage.tsx:114-117 | one target per header |
| CrudPage.AutoMap | src/pages/CrudPage.tsx:113-117 | one entry per distinct header, in header order, holding its target, and no other key |
| CrudPage.AutoTargetIgnoresCase | src/pages/CrudPage.tsx:115 | the target does not depend on the header's letter case |
| CrudPage.MatchFieldIgnoresCase | src/pages/CrudPage.tsx:115 | the matched field does not depend on the header's letter case |
| CrudPage.MappedTarget | src/pages/CrudPage.tsx:137-138 | a column is imported exactly when its target is set and not `ignore` |
| CrudPage.CellValue | src/pages/CrudPage.tsx:139-140 | only a present, non-empty cell counts |
| CrudPage.CopiedData | src/pages/CrudPage.tsx:136-145 | the copied data is a well-formed object |
| CrudPage.RowDraft | src/pages/CrudPage.tsx:132-158 | a row yields a record exactly when some mapped column has a value. The record is pending, for the table, and carries the batch id. |
| CrudPage.MaterializeRow | src/pages/CrudPage.tsx:132-158 | the row loop with its `hasData` flag builds exactly the row's draft |
| CrudPage.CopiedDataSound | src/pages/CrudPage.tsx:136-143 | every copied key is the target of some mapped column |
| CrudPage.CopiedDataLastWins | src/pages/CrudPage.tsx:136-143 | a mapped column with a value lands in the data unless a later column has the same target |
| CrudPage.Drafts | src/pages/CrudPage.tsx:132-159 | every record is pending, for the table, and carries the one batch id |
| CrudPage.DraftsCount | src/pages/CrudPage.tsx:159-161 | no record exactly when no row has a mapped value |
| CrudPage.ProcessImport | src/pages/CrudPage.tsx:130-168 | nothing is stored when no record materializes. Otherwise the stored records are a prefix of the records, in 50-record chunks, cut at the first failing chunk, all batch-tagged and pending. |
| CrudPage.RequiredErrors | src/pages/CrudPage.tsx:209-216 | at most one error per field |
| CrudPage.RequiredErrorsEmpty | src/pages/CrudPage.tsx:211-213 | no error exactly when every required field has a non-blank value |
| CrudPage.RequiredErrorsNameFields | src/pages/CrudPage.tsx:213 | each error names a required field whose value is missing or blank |
| CrudPage.ValidateForm | src/pages/CrudPage.tsx:209-216 | the loop collects exactly the required-field errors, in field order |
| CrudPage.CleanData | src/pages/CrudPage.tsx:225-226 | the saved data has no `_batch_id`, and every other key is unchanged |
| CrudPage.EditedRecords | src/pages/CrudPage.tsx:229-231 | the edited record takes the data and goes back to pending; the others are unchanged |
| CrudPage.RemoveRecord | src/pages/CrudPage.tsx:251 | the records with another id, in their order (`Filter` on `x.id != id`); no list change when the id is absent |
| CrudPage.RecordPage.constructor | src/pages/CrudPage.tsx:31-40 | the loaded list, an empty form, no edit, no errors |
| CrudPage.RecordPage.Save | src/pages/CrudPage.tsx:218-245 | errors block the save and are shown. An edit resets that record to pending. An insert puts the new record first. A failed insert changes nothing. |
| CrudPage.RecordPage.Delete | src/pages/CrudPage.tsx:247-254 | after confirmation the list is `RemoveRecord` of the old list: the records with another id, in their order; the form and dialog state are unchanged |
| CrudPage.FilteredRecords | src/pages/CrudPage.tsx:256 | the records whose serialized data contains the term, ignoring case, in their order (`Filter`) |
| CrudPage.EmptySearchKeepsAll | src/pages/CrudPage.tsx:256 | an empty search keeps every record, in order |
| CrudPage.ExportFiltered | src/pages/CrudPage.tsx:185-186 | no file exactly when the search keeps no record |
| CrudPage.FieldNames | src/pages/CrudPage.tsx:181 | the export selection starts as every field's name |
| CrudPage.ExportAllByDefault | src/pages/CrudPage.tsx:181-187 | with the initial selection every field is exported, in field order |
| CrudPage.SelectingAll | src/pages/CrudPage.tsx:187 | selecting every name exports every field |
| Approvals.NameOr | src/pages/Approvals.tsx:75-76 | a present, non-empty name, else the fallback |
| Approvals.Tags | src/pages/Approvals.tsx:59-65 | one batch id per batched record, never more than the records |
| Approvals.BatchIds | src/pages/Approvals.tsx:64-72 | the batch ids are distinct |
| Approvals.BatchIdsMembership | src/pages/Approvals.tsx:63-65 | a batch has a card exactly when some listed record carries its id |
| Approvals.Singles | src/pages/Approvals.tsx:66-68 | never more than the records |
| Approvals.Members | src/pages/Approvals.tsx:63-65 | never more than the records |
| Approvals.SinglesMembership | src/pages/Approvals.tsx:59-69 | a record is a single exactly when it has no batch id |
| Approvals.MembersMembership | src/pages/Approvals.tsx:59-69 | a batch holds exactly the records carrying its id |
| Approvals.MakeGroup | src/pages/Approvals.tsx:72-78 | the card's date is that of its first record |
| Approvals.Groups | src/pages/Approvals.tsx:72-78 | one card per batch id, in order of first occurrence, each holding that batch's records |
| Approvals.OrganizeData | src/pages/Approvals.tsx:55-82 | the pass over the records yields exactly the singles and the batch cards |
| Approvals.OrganizeIsPartition | src/pages/Approvals.tsx:59-69 | every record is in exactly one place: the singles or one batch |
| Approvals.MembersNewestFirst | src/pages/Approvals.tsx:44-65 | with the listing sorted newest first, so is each batch |
| Approvals.GroupDateIsNewest | src/pages/Approvals.tsx:72-77 | a batch card's date is its newest record's date |
| Approvals.GroupsInFirstOccurrenceOrder | src/pages/Approvals.tsx:72 | the cards follow the order in which their batch ids first appear |
| Approvals.RecordIds | src/pages/Approvals.tsx:176-177 | a card's buttons pass the ids of its records, in order |
| Approvals.ApproveAll | src/pages/Approvals.tsx:98-100 | exactly the listed ids become approved, with reviewer and time; every other record is unchanged |
| Approvals.RejectAll | src/pages/Approvals.tsx:129-131 | exactly the listed ids become rejected, with reason, reviewer and time, their other attributes unchanged; every other record is unchanged |
| Approvals.ApproveIdempotent | src/pages/Approvals.tsx:98-100 | approving the same ids twice is approving them once |
| Approvals.ReviewsOverride | src/pages/Approvals.tsx:98-100 | the prior status is not checked: the later review wins |
| Approvals.BatchApprovalIsExact | src/pages/Approvals.tsx:176 | approving a batch card approves every record of that batch, and only those |
| Approvals.ReviewBoard.constructor | src/pages/Approvals.tsx:33-34 | no rejection target and an empty reason |
| Approvals.ReviewBoard.Approve | src/pages/Approvals.tsx:85-113 | an empty id list or a failed update changes nothing; otherwise the store is approved on exactly those ids |
| Approvals.ReviewBoard.OpenReject | src/pages/Approvals.tsx:177 | the dialog opens for the card's ids |
| Approvals.ReviewBoard.CancelReject | src/pages/Approvals.tsx:213 | closing the dialog drops the target and keeps the reason |
| Approvals.ReviewBoard.TypeReason | src/pages/Approvals.tsx:230 | typing sets the reason only |
| Approvals.ReviewBoard.ConfirmReject | src/pages/Approvals.tsx:116-145 | a blank reason, a closed dialog or a failure changes nothing. Otherwise exactly the target ids are rejected and the dialog is reset. |
| Approvals.VisibleEntries | src/pages/Approvals.tsx:329 | `Object.entries` of the data filtered by `NotBatch`, in key order: `_batch_id` is never shown, and every other key is |
| Approvals.VisibleOf | src/pages/Approvals.tsx:303 | each shown entry is a data entry other than `_batch_id` |
| Approvals.BatchPreview | src/pages/Approvals.tsx:300-304 | at most 5 records and at most 4 entries each, never `_batch_id` |
| Approvals.FirstTitled | src/pages/Approvals.tsx:330 | the first entry whose key contains `nome`, `titulo`, `assunto` or `desc` ignoring case, or none when no key does |
| Approvals.SingleTitle | src/pages/Approvals.tsx:329-331 | over `VisibleEntries` (the data's entries in key order without `_batch_id`): the first title-like entry, else the first entry, else `Registro #` with the id's first four characters |
| NewModule.Initial | src/pages/NewModule.tsx:36-39 | one empty table, active, in a well-formed state |
| NewModule.FindTable | src/pages/NewModule.tsx:52 | finds a table with the id exactly when there is one |
| NewModule.ActiveTable | src/pages/NewModule.tsx:52 | the table with the active id when there is one |
| NewModule.ActiveIsUnique | src/pages/NewModule.tsx:52 | in a well-formed state only the active table has the active id |
| NewModule.AddTable | src/pages/NewModule.tsx:58-63 | the table is appended and becomes active; the others are unchanged, and well-formedness is kept |
| NewModule.DefaultTableName | src/pages/NewModule.tsx:58 | `Nova Tabela ` followed by the number of tables plus one |
| NewModule.RemoveTable | src/pages/NewModule.tsx:65-71 | refused exactly when one table is left. Otherwise the tables are the `Filter` on `t.id != id`: the tables with that id go and the others stay in their order; the first remaining table becomes active if the active one went. |
| NewModule.RemovedTables | src/pages/NewModule.tsx:68 | filtering one id out of distinct tables leaves at least one table with distinct ids |
| NewModule.EditActive | src/pages/NewModule.tsx:74 | only the active table changes |
| NewModule.RenameActiveTable | src/pages/NewModule.tsx:73-75 | only the active table's name changes |
| NewModule.AddField | src/pages/NewModule.tsx:77-87 | the active table gains a field that is not required and has no options; the other tables are unchanged |
| NewModule.Patched | src/pages/NewModule.tsx:90 | the id is kept |
| NewModule.PatchFields | src/pages/NewModule.tsx:90 | only fields with the id change; ids and order are kept |
| NewModule.UpdateField | src/pages/NewModule.tsx:89-91 | the active table's fields are patched, its id, name and rows unchanged; the other tables are unchanged |
| NewModule.FieldsWithout | src/pages/NewModule.tsx:94 | the fields with another id, in their order (`Filter` on `f.id != id`) |
| NewModule.RemoveField | src/pages/NewModule.tsx:93-95 | the active table keeps the filtered fields (those with another id, in order), its id, name and rows unchanged; the other tables are unchanged |
| NewModule.ReorderFields | src/pages/NewModule.tsx:97-99 | the active table takes the new order, its id, name and rows unchanged; the other tables are unchanged |
| NewModule.AddTypedOption | src/pages/NewModule.tsx:491-492 | a blank input adds nothing; otherwise one option with a non-empty caption and a valid value is appended |
| NewModule.MatchCaption | src/pages/NewModule.tsx:127 | none exactly when no caption equals the header ignoring case |
| NewModule.InitialTarget | src/pages/NewModule.tsx:127-128 | `new` when no field matches, otherwise the first matching field's id |
| NewModule.InitialTargets | src/pages/NewModule.tsx:126-128 | one target per header |
| NewModule.InitialMapping | src/pages/NewModule.tsx:123-130 | one entry per distinct header, in header order, and no other key |
| NewModule.InitialConfigs | src/pages/NewModule.tsx:124-130 | every header starts as `text` without option extraction |
| NewModule.ColumnValues | src/pages/NewModule.tsx:146-149 | only non-empty values |
| NewModule.ColumnValuesMembers | src/pages/NewModule.tsx:146-149 | a value is listed exactly when some row holds it, non-empty, under the header |
| NewModule.ExtractUniqueOptions | src/pages/NewModule.tsx:143-154 | at most 50 options. They have distinct, non-empty captions taken from the column, each valued by the option rule, and the captions are the first 50 distinct values of the column in order of first appearance. |
| NewModule.ExtractedInFirstAppearanceOrder | src/pages/NewModule.tsx:145-150 | an offered value is preceded by every value that first appears before it in the column |
| NewModule.ExtractsEveryValue | src/pages/NewModule.tsx:145-150 | with at most 50 distinct values, every one becomes an option |
| NewModule.OptionsOf | src/pages/NewModule.tsx:143-154 | each header's options are those `extractUniqueOptions` gives |
| NewModule.ActionFor | src/pages/NewModule.tsx:165-168 | create mode always creates. In update mode `ignore` skips, `new` creates, and any other value maps to that field. |
| NewModule.NewColumnField | src/pages/NewModule.tsx:169-182 | captioned with the header, not required, typed `text` by default. It has options only for a select column with extraction. |
| NewModule.PlanColumns | src/pages/NewModule.tsx:159-190 | never more new fields than headers |
| NewModule.CreateMakesEveryColumnAField | src/pages/NewModule.tsx:164-185 | in create mode every header becomes a new field, in header order |
| NewModule.PlanTargets | src/pages/NewModule.tsx:164-190 | a skipped column has no target, and a mapped column targets its field |
| NewModule.PlanCreates | src/pages/NewModule.tsx:168-185 | a creating column targets a new field captioned with it |
| NewModule.PlanFieldFromConfig | src/pages/NewModule.tsx:168-183 | every new field comes from a creating header and is built from its config |
| NewModule.RenameKeysOf | src/pages/NewModule.tsx:195-199 | the renamed row is a well-formed object |
| NewModule.RenameKeys | src/pages/NewModule.tsx:193-202 | the renamed row is a well-formed object |
| NewModule.RenamedSound | src/pages/NewModule.tsx:195-199 | each renamed value is the row's value under a key whose target is that field |
| NewModule.RenamedComplete | src/pages/NewModule.tsx:195-199 | each targeted key with a value is copied, unless a later key has the same target |
| NewModule.ProcessedRows | src/pages/NewModule.tsx:193-202 | one row per imported line, empty rows kept |
| NewModule.ImportedValuesAreMapped | src/pages/NewModule.tsx:184-199 | each imported value sits under the field its column was mapped to, or created for it |
| NewModule.ImportInto | src/pages/NewModule.tsx:204-216 | create mode adds a new active table. Update mode appends the new fields and the rows to the active table. |
| NewModule.MergeIntoActive | src/pages/NewModule.tsx:210-214 | only the active table changes |
| NewModule.PlanImport | src/pages/NewModule.tsx:159-190 | the header loop builds the new fields, the header-to-field map and the count of the plan |
| NewModule.ProcessCsvImport | src/pages/NewModule.tsx:156-220 | the import gives the planned design, the number of fields added and the number of rows |
| NewModule.ValidateSave | src/pages/NewModule.tsx:223-224 | refused exactly on a blank name, or on a table without fields, with the matching message |
| NewModule.FieldRowOf | src/pages/NewModule.tsx:251-262 | position as `order_index`, a valid stored name, options stored only when there are some, and attributes copied |
| NewModule.FieldRows | src/pages/NewModule.tsx:251-262 | one row per field, at its position |
| NewModule.FieldIds | src/pages/NewModule.tsx:253 | the ids of the fields, in order |
| NewModule.FieldDbNames | src/pages/NewModule.tsx:252 | the stored names of the fields, in order |
| NewModule.FieldNamesLookup | src/pages/NewModule.tsx:249-253 | an id has a stored name exactly when some field has it, and the name is derived from such a field's caption |
| NewModule.PrepareFields | src/pages/NewModule.tsx:249-263 | the pass builds exactly the field rows and the id-to-name map |
| NewModule.RecordDrafts | src/pages/NewModule.tsx:273-287 | one pending record per row, by the saving user, its data the row with keys renamed to stored names |
| NewModule.SavedRecordKeys | src/pages/NewModule.tsx:276-281 | each saved key is the stored name of a field whose id is a key of the row, with the same value |
| NewModule.RecordDraftsUnbatched | src/pages/NewModule.tsx:273-287 | when no field caption turns into `_batch_id`, no saved record carries a batch tag |
| NewModule.TableWrites | src/pages/NewModule.tsx:238-297 | a failed table insert writes nothing and aborts. A failed field insert aborts after the table row. Otherwise record chunks that fail are skipped, and the records written are those of the chunks that do not fail. |
| NewModule.WriteTables | src/pages/NewModule.tsx:237-298 | never more table rows than tables |
| NewModule.WrittenContents | src/pages/NewModule.tsx:237-298 | a loop that ran to the end has written every table's field rows, and of each table the records of the chunks that did not fail, table by table |
| NewModule.CommittedRecordsWithoutFailures | src/pages/NewModule.tsx:291-296 | when no chunk fails, the records written are every record of every table, table by table |
| NewModule.NeverAborts | src/pages/NewModule.tsx:237-298 | without a failing table or field insert, the loop runs to the end and writes one table row per table |
| NewModule.AbortedStays | src/pages/NewModule.tsx:245-268 | once a write throws, later tables write nothing |
| NewModule.WrittenTablesInOrder | src/pages/NewModule.tsx:237-245 | the table rows written are those of the first tables, in order, under the module |
| NewModule.SaveOutcome | src/pages/NewModule.tsx:222-307 | refused exactly when the checks fail. A failed module insert writes nothing. A stored module has the slug of the name and suffix. |
| NewModule.SavedSlug | src/pages/NewModule.tsx:228-229 | a stored module's slug is the stem, a dash and the four-digit suffix |
| NewModule.SaveWithoutErrors | src/pages/NewModule.tsx:231-298 | when every write succeeds, one row per table, exactly every table's field rows and exactly every table's records are written, table by table |
| NewModule.SaveTable | src/pages/NewModule.tsx:238-297 | one turn of the loop writes exactly what `TableWrites` describes for that table |
| NewModule.WriteAllTables | src/pages/NewModule.tsx:237-298 | the loop over the tables, left at the first write that throws, writes exactly `WriteTables` |
| NewModule.SaveModule | src/pages/NewModule.tsx:222-307 | the save gives exactly the save's outcome |
| EditModule.Loaded | src/pages/EditModule.tsx:107-111 | not new, with attributes kept and text options parsed |
| EditModule.LoadFields | src/pages/EditModule.tsx:107-111 | one field per stored field, in stored order |
| EditModule.AddField | src/pages/EditModule.tsx:184 | appends a new `text` field captioned `Novo Campo` with no options |
| EditModule.Patched | src/pages/EditModule.tsx:193 | only the patched attribute changes |
| EditModule.UpdateField | src/pages/EditModule.tsx:193 | the patch reaches exactly the fields with the id; length and order are kept |
| EditModule.Without | src/pages/EditModule.tsx:196 | the fields with another id, in their order (`Filter` on `x.id != id`) |
| EditModule.RemoveField | src/pages/EditModule.tsx:194-203 | a new field only leaves the list. A stored field is deleted and leaves only after confirmation. The list left is the `Filter` on `x.id != f.id`, in order. Otherwise nothing changes. |
| EditModule.RemoveAddedField | src/pages/EditModule.tsx:184-196 | removing a just-added field gives back the list |
| EditModule.AddOption | src/pages/EditModule.tsx:54-58 | an empty input adds nothing; otherwise the untrimmed text is appended with its option value |
| EditModule.RemoveOption | src/pages/EditModule.tsx:46-49 | removes exactly entry i and keeps the others in order |
| EditModule.AddThenRemoveOption | src/pages/EditModule.tsx:46-58 | removing the option just added gives back the options |
| EditModule.PayloadName | src/pages/EditModule.tsx:134 | a set name is kept; an empty one is derived from the caption and is a valid stored name |
| EditModule.WriteOf | src/pages/EditModule.tsx:131-145 | an insert exactly for a new field, otherwise an update by id; position 0 |
| EditModule.FieldWrites | src/pages/EditModule.tsx:129-146 | nothing without an active table, else one write per field in order |
| EditModule.SaveEdits | src/pages/EditModule.tsx:121-147 | the module update, then exactly the field writes |
| EditModule.LoadedFieldsAreUpdated | src/pages/EditModule.tsx:107-145 | saving right after loading updates each field by its id, keeping its stored name |
| Permissions.RoleOf | src/hooks/useAuth.tsx:34 | a missing or empty role reads as `consulta`; any other text gives the role with that text |
| Permissions.CheckPermission | src/hooks/useAuth.tsx:80-87 | granted exactly to administrators, and to supervisors for approving data and managing the team |
| Permissions.SystemPermissionsAreAdministrative | src/hooks/useAuth.tsx:81-86 | creating and deleting systems are for administrators only. No role holds more than an administrator. Employees and consultation users hold nothing. |
| Permissions.CanWriteInModule | src/hooks/useAuth.tsx:90-102 | administrators yes and consultation users no, both without a lookup. Anyone else yes exactly when the membership lookup finds a row without error. |
| Permissions.SupervisorsNeedMembership | src/hooks/useAuth.tsx:83-101 | a supervisor may approve but writes only with a membership |
| Permissions.AuthState.constructor | src/hooks/useAuth.tsx:23-27 | nobody signed in, role `consulta`, loading |
| Permissions.AuthState.ProfileLoaded | src/hooks/useAuth.tsx:29-39 | a found profile is kept and gives the role; none changes nothing |
| Permissions.AuthState.SignOut | src/hooks/useAuth.tsx:106-113 | user, session and profile cleared, role `consulta`, loading over |
| Team.Register | src/pages/Team.tsx:47-66 | a supervisor cannot create an administrator, and a known e-mail is refused. Otherwise the form's profile is stored unless the insert fails. |
| Team.RegistrationByRole | src/pages/Team.tsx:49 | administrators register every role; supervisors every role but administrator |
| Team.TeamList.constructor | src/pages/Team.tsx:18 | the loaded list |
| Team.TeamList.Delete | src/pages/Team.tsx:69-81 | a supervisor cannot remove an administrator. Only a confirmed and successful delete changes the list, removing exactly that user. |
| Team.FilteredUsers | src/pages/Team.tsx:108 | the users whose name or e-mail contains the term, ignoring case, in their order (`Filter`) |
| Team.EmptySearchKeepsNamed | src/pages/Team.tsx:108 | an empty search keeps every user with a name or e-mail, in order |
| Team.Initials | src/pages/Team.tsx:109 | `US` for a missing or empty name, else the upper-cased first two characters |
| Team.InitialsOfFirstTwo | src/pages/Team.tsx:109 | only the first two characters matter |
| Team.RoleBadgeText | src/pages/Team.tsx:119 | `Func.` for an empty role; otherwise the first character upper-cased and the rest kept |
| Team.KnownRoleBadges | src/pages/Team.tsx:119 | the four roles show their names capitalised |
| Team.AdminControlsShown | src/pages/Team.tsx:160 | shown exactly to administrators |
| Team.DeleteShown | src/pages/Team.tsx:215 | hidden exactly on the signed-in user's own row |
| Login.StepAfterLookup | src/pages/Auth.tsx:52-66 | no step without a profile. A linked account goes to the password step; an unlinked one goes to account creation. |
| Login.FirstAccessOutcome | src/pages/Auth.tsx:100-135 | a password under 6 characters is refused before any call. Activation happens exactly when the sign-up creates a user and the link succeeds, linking that user. |
| Login.SignInMessage | src/pages/Auth.tsx:89-93 | the unconfirmed-e-mail message when the error says so, else the error, else the fallback |
| Login.Header | src/pages/Auth.tsx:138-144 | each step's title and description; the greetings use the first word of the name |
| Login.GreetingIgnoresSurname | src/pages/Auth.tsx:141 | the greeting does not depend on what follows the first space |
| Login.LoginFlow.constructor | src/pages/Auth.tsx:21-27 | the flow starts at the e-mail step with empty fields |
| Login.LoginFlow.SubmitEmail | src/pages/Auth.tsx:37-74 | a blank e-mail or no profile keeps the step. A found profile gives its name and the next step. |
| Login.LoginFlow.ChangeEmail | src/pages/Auth.tsx:208 | back to the e-mail step, password cleared |
| Login.LoginFlow.Back | src/pages/Auth.tsx:259 | back to the e-mail step, password kept |

## Left out

- The backend store (Supabase queries, inserts, updates, deletes, RPCs and auth calls) is not called. Each answer is a parameter, and each effect is a returned value or a state update.
- Approve and reject through the RPC and through its fallback update, chosen by the error text, are modelled as one update, with a `fails` flag.
- The list reloads after a store write (`fetchPending`, `loadTableData`, `fetchUsers`) are not modelled.
- Random ids (`crypto.randomUUID`) and the slug's random suffix (`Math.random`) are parameters; the suffix has the precondition 1000 ≤ suffix ≤ 9999.
- Unicode decomposition is modelled as a table over Latin-1 lower-case letters and the combining marks U+0300–U+036F. Letters outside that range keep their code point.
- Lower- and upper-case conversion is modelled on ASCII and Latin-1 only.
- Strings are sequences of code points, not UTF-16 code units.
- Record data values are modelled as strings only. The export's branch for non-string values (`r.data[f.name] || ''` and the `typeof val === 'string'` test in src/pages/CrudPage.tsx:193-194) is not modelled: a stored `0` or `false` would export as `''`, and a non-string value would be written unescaped. The pages only ever store strings.
- JavaScript objects are ordered key lists. The rule that integer-like keys enumerate first is not modelled.
- `JSON.stringify` in the record search is a `serialize` parameter.
- `JSON.parse` of stored option text in the editor is a `parse` parameter. A parse that throws is not modelled.
- The editor's stringified options in the payload are kept as the option list.
- EditModule.StoredOptions: a stored `null` (what the builder writes for a field without options, src/pages/NewModule.tsx:261) has no variant. The editor loads it unchanged (src/pages/EditModule.tsx:109) and behaves as with an empty list, but its save would write `null` where the model writes an empty list.
- Locale date formatting (`toLocaleDateString`, `toLocaleString`) is a `formatDate` parameter. The card date is the record's timestamp.
- Reading the file (FileReader), the download link, and resetting the file input are not modelled.
- React rendering, dialogs, toasts, animations and drag gestures are not modelled. For the drag gestures, only the resulting field order is kept (`NewModule.ReorderFields`).
- The loading and saving flags of the pages are not modelled, except the provider's `loading`.
- The session bootstrap with its two-second timeout and the auth-state listener's sign-in branch are timers and asynchronous events, so they are not modelled. The signed-out branch is `Permissions.AuthState.SignOut`.
- NewModule.SaveOutcome: the message of a thrown store error is not carried; the outcome only says that the save aborted.
- EditModule.SaveEdits: the result of the module update is not read by the page, and every field write is sent regardless. The model returns the requests and does not model their answers.
- EditModule.RemoveField: the page filters the list it rendered with, not the latest list. The model filters the list it is given.
- EditModule.AddField: the page's new field has no `name` and no `is_required`. The model uses `""` and `false`, which the save treats the same way.
- Login.FirstAccessOutcome: the messages shown after sign-up and the session left by the sign-up are not modelled.
- Team.Register: the profile list reload and the clearing of the form after a registration are not modelled.
- The team page's profile edit dialog (`openEditModal`, `handleUpdate`) is not modelled; it writes the edited fields without a role rule of its own.
- The dashboard, the module list, the profile page, the sidebar's realtime channel, the layout, the footer and the static index page are not modelled. They are I/O or presentation.
