# Estoque-Rasp inventory ledger in Dafny

This project models the inventory ledger of Estoque-Rasp, a small stock-control
system. Items live in a local table. Each item has a total, an available count
(`quantidade_disponivel`) and an in-use count (`quantidade_em_uso`), and the
ledger keeps `disponivel + em_uso == total`.

- **Reconciliation.** A pass reads the inventory worksheets of a Google
  spreadsheet (Produto, Mecânica, Eletrônica). It groups the rows by
  (item name, worksheet), then creates each missing item or shifts its
  available count by the change in total.
- **Check-out and check-in.** A check-out (retirada) moves units from
  available to in use. A check-in (devolução) moves them back. Each one writes
  a ledger record, updates the counts and keeps usage records, one per code
  checked out.
- **Around the ledger.** The project also models:
  - the request validators;
  - the Slack user lookup and the notification guard;
  - the people worksheet that maps names to Slack users;
  - the `.env` rewrite of the Slack on/off flag;
  - the two frontend components (inventory panel and item card), with their
    filter, quantity steppers and client-side guards.

Modules, one per source unit:

- `Wrappers`: `Option` and `Result`.
- `Text`: Python's `strip`, `lower`, `in`, `split` and `join` on `seq<char>`.
- `Validators` and `Models`: `utils/validators.py` and `models/item.py`.
- `Store`: the database service, as the class `Database`. It holds a map of
  items, an append-only sequence of transactions and a sequence of usage
  records. Pure specification functions sit beside it.
- `Sheets` and `PeopleSheet`: the reconciliation pass and the people
  worksheet mapping.
- `Slack` and `SettingsRoutes`: the Slack service and the settings routes,
  with the value of SLACK_ENABLED the configuration loader reads from `.env`.
- `Wiring`: how the transaction routes' Slack service is built from the
  settings.
- `Transactions`: the transaction routes.
- `Ui`, `InventoryPanel` and `ItemCard`: the shared frontend item object and
  the two components, as classes whose methods update their fields in place.

Loops in the source are methods with loop invariants. Each one is proved equal
to a specification function, and the properties are proved about that
function:

- the sheet reading, grouping and per-group loops;
- the people-mapping loop;
- the `.env` line loop;
- the usage-code loop;
- the store scans.

## Model

| member | source | states |
|---|---|---|
| Text.StripIsTrimmedSlice | backend/app/utils/validators.py:25 | `strip` keeps a contiguous slice with only whitespace removed around it, and the result neither starts nor ends with whitespace |
| Text.StripEmptyIffBlank | backend/app/services/google_sheets.py:74 | a stripped string is empty exactly when the original is all whitespace |
| Text.StripIdempotent | backend/app/utils/validators.py:25 | stripping twice is stripping once |
| Text.StripIgnoresPadding | backend/app/routes/settings.py:49 | whitespace added on either side does not change the stripped text |
| Text.LowerIdempotent | backend/app/utils/validators.py:25 | lower-casing twice is lower-casing once |
| Text.LowerStripCommute | backend/app/utils/validators.py:25 | lower-casing and stripping commute |
| Text.ContainsIffOccurs | backend/app/services/slack_service.py:45 | the substring test holds exactly when the query occurs at some offset |
| Text.JoinSplit | backend/app/services/google_sheets.py:113 | joining the fields of a split gives back the string |
| Text.SplitJoin | backend/app/services/google_sheets.py:145 | splitting a join of separator-free fields gives back the fields |
| Text.SplitCount | backend/app/routes/transactions.py:81 | a split has one more field than the string has separators |
| Validators.NormalizeNameIdempotent | backend/app/utils/validators.py:23-25 | a normalised name is its own normal form |
| Validators.NormalizeNameCanonical | backend/app/utils/validators.py:23-25 | names differing only in case or outer whitespace normalise equal |
| Validators.NormalizeNameBlank | backend/app/utils/validators.py:23-25 | a name normalises to "" exactly when it is all whitespace |
| Models.NewItem | backend/app/models/item.py:10-17 | an `Item` built from name and quantity carries exactly those |
| Models.ValidateTransactionCreate | backend/app/models/item.py:38-43 | a request is accepted iff `tipo` is retirada or devolucao, `quantidade > 0` and the name is non-empty; each failing field is reported, and only failing fields |
| Models.RequestMatchesValidators | backend/app/utils/validators.py:8-15 | request validation agrees with `validate_transaction_type` and `validate_quantity`, plus a non-empty name |
| Models.NewTransactionResponse | backend/app/models/item.py:46-52 | the response carries the given id and balance, and the given notification flag |
| Store.InsertByName | backend/app/services/database.py:72 | inserting into the name-ordered list adds exactly that item (multiset) |
| Store.InsertByNameSorted | backend/app/services/database.py:72 | insertion keeps the list ordered by name |
| Store.Matching | backend/app/services/database.py:91 | the matches are items of the list whose name contains the query |
| Store.MatchingKeeps | backend/app/services/database.py:91 | every item whose name contains the query is matched |
| Store.Upsert | backend/app/services/database.py:98-124 | with a truthy id, only that row is overwritten (no row is added) and the id is returned; without one, the data is inserted under an id no row holds and the counter moves past it; other rows are unchanged |
| Store.FindByNameAndAbaSpec | backend/app/services/google_sheets.py:129 | the lookup by (name, sheet) finds a row with that name and sheet, the one with the least id, and finds none exactly when no row matches |
| Store.SearchCutoff | backend/app/services/database.py:91 | a matching item missed by a scan of a sorted prefix sorts after every match found |
| Store.Reverse | backend/app/services/database.py:163 | newest first: element i is the original's element from the end |
| Store.LimitCount | backend/app/services/database.py:163 | LIMIT takes min(limit, rows) for a non-negative limit, and every row for a negative one |
| Store.ForItemSuffix | backend/app/services/database.py:170-180 | the item's records after any point, newest first, are a prefix of its whole newest-first history, and are that item's records |
| Store.ForItemComplete | backend/app/services/database.py:175 | a transaction is in an item's history iff it is a transaction of that item |
| Store.RemoveLoansSpec | backend/app/routes/transactions.py:87 | removing loans drops min(count, held) records of that (item, person) pair and keeps every other record in order |
| Store.Database.constructor | backend/app/services/database.py:25-64 | the tables start empty |
| Store.Database.GetAllItems | backend/app/services/database.py:68-75 | every stored row exactly once, ordered by name |
| Store.Database.GetItemById | backend/app/services/database.py:77-84 | the row with that id, or None exactly when there is none |
| Store.Database.SearchItems | backend/app/services/database.py:86-96 | at most 20 distinct stored rows whose name contains the query, ordered by name; a matching row is missing only when 20 rows that sort no later were returned |
| Store.Database.GetItemByNameAndAba | backend/app/services/google_sheets.py:129 | the least-id row with that name and sheet |
| Store.Database.UpsertItem | backend/app/services/database.py:98-124 | the items table becomes the `Upsert` of the old one; transactions and usage are untouched |
| Store.Database.UpdateItemQuantity | backend/app/services/database.py:126-137 | returns true iff the row exists, and changes only that row's available count |
| Store.Database.SetQuantities | backend/app/routes/transactions.py:66-76 | sets that row's available and in-use counts, and nothing else |
| Store.Database.CreateTransaction | backend/app/services/database.py:141-156 | appends the record under a new id larger than every earlier id; items and usage untouched |
| Store.Database.GetTransactions | backend/app/services/database.py:158-168 | the latest `limit` records, newest first |
| Store.SearchResult | backend/app/services/database.py:86-96 | a name-ordered scan stopped at 20 matches or at the end yields sorted, distinct, matching stored rows, and any matching row left out sorts no earlier than all of them |
| Store.Database.GetTransactionsByItem | backend/app/services/database.py:170-180 | the latest `limit` records of that item, newest first, and only that item's records |
| Store.Database.ClearAllData | backend/app/services/database.py:182-188 | empties the items table and keeps transactions |
| Store.Database.AddItemEmUso | backend/app/routes/transactions.py:84 | appends one usage record |
| Store.Database.RemoveItemEmUso | backend/app/routes/transactions.py:87 | removes up to `count` of the person's records for the item, oldest first |
| Store.Database.GetItemsEmUsoByItem | backend/app/routes/transactions.py:181 | the usage records of that item, in order |
| Sheets.RawNameIsFirstTruthy | backend/app/services/google_sheets.py:69-72 | the `or` chain yields the first truthy cell among Nome_do_Recurso, Nome, Item, nome |
| Sheets.ExtractRowSpec | backend/app/services/google_sheets.py:69-83 | a row is kept iff its first truthy name cell is not blank; its name is that cell stripped, non-empty and trimmed |
| Sheets.ExtractRowsSpec | backend/app/services/google_sheets.py:67-84 | every kept row has a good name and its sheet tag; every row with a usable name is kept; no more rows than read |
| Sheets.ExtractAllSpec | backend/app/services/google_sheets.py:62-90 | every row read has a good name and comes from one of the three worksheets, which is present (a missing one contributes nothing) |
| Sheets.ExtractAllOrdered | backend/app/services/google_sheets.py:62 | rows come worksheet by worksheet in the order Produto, Mecânica, Eletrônica |
| Sheets.ExtractAllComplete | backend/app/services/google_sheets.py:67-84 | every usable row of the three worksheets is read |
| Sheets.ReadSheet | backend/app/services/google_sheets.py:67-85 | the inner loop keeps exactly the extracted rows of one worksheet |
| Sheets.ReadWorkbook | backend/app/services/google_sheets.py:58-90 | the reading loop yields all kept rows, and `registros_lidos` is their number (blank rows are not counted) |
| Sheets.SplitKeyOf | backend/app/services/google_sheets.py:102-113 | a `nome|aba` key splits back into (nome, aba) exactly when the name has no '|' |
| Sheets.KeyOfInjective | backend/app/services/google_sheets.py:102 | keys over sheet names without '|' are equal only for equal (name, sheet) pairs |
| Sheets.GroupOf | backend/app/services/google_sheets.py:103-105 | a group holds only rows of the input with that key |
| Sheets.GroupKeysSpec | backend/app/services/google_sheets.py:98-105 | group keys are distinct, cover every row, and each group is non-empty and begins with its key's first row |
| Sheets.GroupRows | backend/app/services/google_sheets.py:98-105 | the grouping loop builds the dictionary in insertion order, one group per key |
| Sheets.GroupRowsStep | backend/app/services/google_sheets.py:101-105 | a row with a new key appends the key and opens its group; every row joins its key's group |
| Sheets.Codes | backend/app/services/google_sheets.py:116 | the group's codes are truthy and no more than its rows |
| Sheets.CodesAppend | backend/app/services/google_sheets.py:116 | the codes of two runs of rows are the first run's codes followed by the second's, so codes keep encounter order |
| Sheets.CodesOfOne | backend/app/services/google_sheets.py:116 | one row contributes its code exactly when the code is truthy |
| Sheets.CodesMembers | backend/app/services/google_sheets.py:116 | a string is among the codes iff some row of the group carries it as a truthy code |
| Sheets.FactsOf | backend/app/services/google_sheets.py:115-122 | total is the group size, the name is the first row's, and comma-free codes split back from the joined string |
| Sheets.CodesRoundTrip | backend/app/services/google_sheets.py:145 | joined codes without commas split back into the codes |
| Sheets.KeyedFacts | backend/app/services/google_sheets.py:111-113 | the per-group facts exist exactly when every key splits |
| Sheets.Decide | backend/app/services/google_sheets.py:131-188 | a new item has available equal to the total, nothing in use and minimum stock max(2, total/5), pinned by bounds; a changed total shifts available by the change and keeps in-use and minimum; with an unchanged total only a sheet-tag change writes, keeping quantities |
| Sheets.SheetTagBranchUnreachable | backend/app/services/google_sheets.py:154-171 | under the assumed exact-match lookup, an item found by (name, sheet) with an unchanged total is never rewritten |
| Sheets.Step | backend/app/services/google_sheets.py:128-188 | one group's step keeps the table valid and counts at most one item |
| Sheets.Reconcile | backend/app/services/google_sheets.py:111-188 | `items_novos + items_atualizados` is at most the number of groups |
| Sheets.StepLedgered | backend/app/services/google_sheets.py:133-153 | a step keeps available + in-use == total on every row |
| Sheets.ReconcileLedgered | backend/app/services/google_sheets.py:111-188 | the pass keeps available + in-use == total on every row (available is not clamped) |
| Sheets.ReconcileKeepsInUse | backend/app/services/google_sheets.py:137-147 | rows existing before the pass survive with the same in-use count and minimum stock |
| Sheets.StepFrame | backend/app/services/google_sheets.py:128-129 | one group's step leaves the lookup of every other (name, sheet) unchanged |
| Sheets.StepSettles | backend/app/services/google_sheets.py:128-188 | after its step, a group's stored item carries the group's total |
| Sheets.ReconcileSettles | backend/app/services/google_sheets.py:111-188 | after a pass over groups with distinct keys, every group is settled |
| Sheets.SettledPassIsNoOp | backend/app/services/google_sheets.py:154-171 | a pass over settled groups writes and counts nothing |
| Sheets.ReconcileRerun | backend/app/services/google_sheets.py:111-188 | re-running the pass on the same groups changes nothing and reports zero new and zero updated |
| Sheets.KeyedFactsIffNoBar | backend/app/services/google_sheets.py:113 | the key unpacking fails exactly when some row's name contains '|' |
| Sheets.KeyedFactsDistinct | backend/app/services/google_sheets.py:98-113 | the groups have distinct (name, sheet) pairs |
| Sheets.WorkbookFacts | backend/app/services/google_sheets.py:98-113 | for any workbook: groups are non-empty, the pass fails iff a name contains '|', and otherwise groups have distinct pairs |
| Sheets.SyncFromSheets | backend/app/services/google_sheets.py:50-209 | no surviving row gives `success: False` and no write; otherwise it succeeds iff every key splits, with the summary (rows read, groups, new, updated) and table of the reconciliation; on a malformed key the groups before it have been written; transactions and usage untouched |
| Sheets.SyncKeys | backend/app/services/google_sheets.py:107-196 | the per-group loop equals the reconciliation of the groups in order, stopping at the first key that does not split |
| Sheets.SyncLoop | backend/app/services/google_sheets.py:111-188 | the loop syncs the groups in key order up to the first key that does not split; the tables and both counters equal `Reconcile` of those groups' facts, and the transaction and usage tables are untouched |
| Sheets.SyncGroup | backend/app/services/google_sheets.py:115-188 | one iteration of the per-group loop performs exactly one `Step` |
| PeopleSheet.Entries | backend/app/services/google_sheets.py:264-268 | one entry per people row, in order |
| PeopleSheet.MappingEntrySpec | backend/app/services/google_sheets.py:265-268 | an entry pairs a non-empty normalised name with a non-empty Slack user |
| PeopleSheet.FoldWellFormed | backend/app/services/google_sheets.py:263-268 | a map built from well-formed entries has only non-empty normalised keys and non-empty values |
| PeopleSheet.MappingOfWellFormed | backend/app/services/google_sheets.py:263-268 | every key of the mapping is a non-empty normalised name with a non-empty user |
| PeopleSheet.FoldDomain | backend/app/services/google_sheets.py:263-268 | a name is mapped iff some entry yields it |
| PeopleSheet.FoldLastWins | backend/app/services/google_sheets.py:268 | the last entry for a name wins |
| PeopleSheet.MappingOfDomain | backend/app/services/google_sheets.py:264-268 | a name is mapped iff some row's entry carries it |
| PeopleSheet.MappingOfLastWins | backend/app/services/google_sheets.py:264-268 | a name maps to the user of the last row naming it; Slack_Username is preferred over Slack_User_ID |
| PeopleSheet.GetSlackUserMapping | backend/app/services/google_sheets.py:253-279 | the loop builds the mapping of the rows; a missing worksheet or an error gives the empty map |
| Slack.IsConfiguredIff | backend/app/services/slack_service.py:15-26 | configured iff enabled with a token; no client (no token) means never configured |
| Slack.FirstMatch | backend/app/services/slack_service.py:40-48 | None iff no member matches; otherwise the id of the first member in list order that matches |
| Slack.FindUserByName | backend/app/services/slack_service.py:28-52 | None without searching when not configured or when the user list cannot be fetched; otherwise the first match for the lower-cased name |
| Slack.FindUserByNameFirst | backend/app/services/slack_service.py:40-46 | the first matching member is returned, whatever later members match |
| Slack.FindUserByNameIgnoresCase | backend/app/services/slack_service.py:38 | names differing only in case find the same member |
| Slack.UserMention | backend/app/services/slack_service.py:54-58 | a non-empty id gives `<@id>`, otherwise the fallback name |
| Slack.UserMentionRoundTrip | backend/app/services/slack_service.py:54-58 | the id can be read back from the mention |
| Slack.ActionLabel | backend/app/services/slack_service.py:79 | the label is RETIRADA or DEVOLUÇÃO |
| Slack.ActionLabelIff | backend/app/services/slack_service.py:79 | RETIRADA iff the type is retirada, DEVOLUÇÃO otherwise |
| Slack.SendTransactionNotification | backend/app/services/slack_service.py:72-104 | true iff the service is configured and the post reported ok; not configured means nothing is sent |
| Wiring.ServiceOf | backend/app/services/slack_service.py:15-26 | a service built from the settings is configured iff they have notifications on and a token |
| Wiring.DisableAfterStartup | backend/app/routes/transactions.py:14-16 | with the service built at import, switching notifications off leaves the settings reporting off while a successful post still notifies |
| Wiring.DisableThenNotify | backend/app/routes/settings.py:62-63 | corrected: with the service built from the current settings, switching off reports off and nothing is posted |
| Wiring.NotifiesOnlyWhenReportedOn | backend/app/routes/settings.py:23-30 | corrected: a notification goes out only while the settings report notifications on |
| SettingsRoutes.Settings.GetSlackSettings | backend/app/routes/settings.py:23-30 | `configured` iff both token and channel are non-empty; channel and flag as stored |
| SettingsRoutes.Settings.SaveSlackSettings | backend/app/routes/settings.py:46-63 | the written lines are the rewrite of the file's lines, and the runtime flag becomes the value written |
| SettingsRoutes.FirstEnabledLine | backend/app/routes/settings.py:48-49 | the first line whose stripped text starts with `SLACK_ENABLED=`, or None when no line does |
| SettingsRoutes.FirstEnabledLineAt | backend/app/routes/settings.py:48-52 | the loop stops at the first matching line |
| SettingsRoutes.RewriteFound | backend/app/routes/settings.py:47-52 | with a match, only the first matching line is replaced; line count and every other line unchanged |
| SettingsRoutes.RewriteNotFound | backend/app/routes/settings.py:55-56 | without a match, exactly `\nSLACK_ENABLED=<True/False>\n` is appended |
| SettingsRoutes.StripWritten | backend/app/routes/settings.py:50-56 | a written line, with or without the leading newline, strips to `SLACK_ENABLED=<value>` |
| SettingsRoutes.LastEnabledLine | backend/app/config.py:35-38 | the last line whose stripped text starts with `SLACK_ENABLED=`, or None when no line does |
| SettingsRoutes.LastEnabledLineAt | backend/app/config.py:35-38 | a matching line with no match after it is the one the loader keeps |
| SettingsRoutes.ReadBackAt | backend/app/config.py:35-38 | a written line with no SLACK_ENABLED line after it reads back as the value written |
| SettingsRoutes.SaveThenRead | backend/app/routes/settings.py:46-56 | for a file with at most one SLACK_ENABLED line, the loader reads back the value saved |
| SettingsRoutes.SaveMissesLaterDuplicate | backend/app/routes/settings.py:46-56 | with the line twice, saving False rewrites only the first and the loader still reads True |
| SettingsRoutes.RewriteEveryEnabled | backend/app/routes/settings.py:46-56 | corrected save: every SLACK_ENABLED line carries the new value, or one is appended when there is none |
| SettingsRoutes.SaveEveryThenRead | backend/app/routes/settings.py:46-56 | corrected save: the loader reads back the value saved, for every file |
| SettingsRoutes.RewriteEveryAgrees | backend/app/routes/settings.py:46-56 | with at most one SLACK_ENABLED line, the corrected save writes exactly what the route writes |
| SettingsRoutes.SaveTwiceInPlace | backend/app/routes/settings.py:46-56 | a second save adds no line and changes no line other than the flag line |
| Transactions.NewQuantities | backend/app/routes/transactions.py:31-48 | a check-out passes iff `validate_stock_availability` holds, and a check-in iff in-use >= quantity; the error quotes the count checked; on success available + in-use is unchanged and available moves by the quantity |
| Transactions.NewQuantitiesBalanced | backend/app/routes/transactions.py:31-48 | on a balanced item, a transaction that passes keeps it balanced (no count goes negative) and the total is untouched |
| Transactions.CheckOutThenIn | backend/app/routes/transactions.py:31-48 | a check-in of what was just checked out is accepted and restores the counts, and conversely |
| Transactions.CodesTaken | backend/app/routes/transactions.py:82-83 | the units recorded are min(quantity, codes), and none for a quantity that is not positive |
| Transactions.CheckoutRecords | backend/app/routes/transactions.py:82-84 | one usage record per code, in order |
| Transactions.CodesOutCount | backend/app/routes/transactions.py:79-84 | a check-out records min(q, commas + 1) units, at least one; an empty code string records one empty code |
| Transactions.ResolveSlackUser | backend/app/routes/transactions.py:89-100 | the mapping's user for the lower-cased name when present and non-empty, else the Slack user search |
| Transactions.ResolveFromPeopleSheet | backend/app/routes/transactions.py:93-94 | the user of the last people row naming the person wins over the Slack search |
| Transactions.PaddedNameMissesPeopleSheet | backend/app/routes/transactions.py:94-98 | a name typed with leading whitespace never hits the people mapping, whose keys are stripped |
| Transactions.SuccessMessage | backend/app/routes/transactions.py:134 | the retirada message iff the type is retirada |
| Transactions.CreateTransaction | backend/app/routes/transactions.py:19-144 | an unknown item gives 404 and a failed guard gives 400, both before any write; otherwise one ledger record (with `saldo_apos` the new available count) is appended, only that item's counts change, usage gains the check-out records or loses the returned loans, and the response reports the new available count and whether Slack was notified |
| Transactions.RecordCheckout | backend/app/routes/transactions.py:79-84 | the usage loop appends exactly the check-out records of the codes taken |
| Transactions.GetHistory | backend/app/routes/transactions.py:147-154 | a limit outside 1..200 is rejected; otherwise the latest `limit` transactions, newest first |
| Transactions.GetItemHistory | backend/app/routes/transactions.py:157-164 | a limit outside 1..100 is rejected; otherwise the latest `limit` transactions of that item, newest first |
| Ui.OrOne | frontend/js/components/inventoryPanel.js:299 | `parseInt(v) || 1`: an unparsable value or 0 reads as 1, any other value as itself |
| InventoryPanel.Filtered | frontend/js/components/inventoryPanel.js:65-77 | the kept items are exactly the items of the list that pass the search and sheet filter |
| InventoryPanel.FilteredAppend | frontend/js/components/inventoryPanel.js:66-77 | filtering distributes over concatenation, so the kept items keep their order |
| InventoryPanel.FilteredShowsAll | frontend/js/components/inventoryPanel.js:66-77 | with filter 'all' and an empty query every item is shown, in order |
| InventoryPanel.FilteredIdempotent | frontend/js/components/inventoryPanel.js:66-77 | filtering the filtered list changes nothing |
| InventoryPanel.DisplayTotal | frontend/js/components/inventoryPanel.js:165 | the total shown is `quantidade_total`, or the available count when the total is 0 or absent |
| InventoryPanel.KeptCodes | frontend/js/components/inventoryPanel.js:167 | at most three codes are kept, none exactly when the code string is empty |
| InventoryPanel.HiddenCodesAsWritten | frontend/js/components/inventoryPanel.js:218 | the "+n" as written is never more than 1 |
| InventoryPanel.HiddenCodesUndercount | frontend/js/components/inventoryPanel.js:167-218 | an item with four codes is labelled +1 |
| InventoryPanel.SplitFourCodes | frontend/js/components/inventoryPanel.js:167 | the comma-split of a four-code string has the four codes |
| InventoryPanel.ShownCodes | frontend/js/components/inventoryPanel.js:218 | at most two codes are shown |
| InventoryPanel.HiddenCodesFour | frontend/js/components/inventoryPanel.js:218 | corrected, the four-code item shows two codes and is labelled +2 |
| InventoryPanel.ShownPlusHidden | frontend/js/components/inventoryPanel.js:218 | corrected, the codes shown plus "+n" count every code of the item |
| InventoryPanel.Panel.constructor | frontend/js/components/inventoryPanel.js:65-77 | the panel starts with every item shown, no selection, filter 'all', an empty query and quantity 1 |
| InventoryPanel.Panel.FilterItems | frontend/js/components/inventoryPanel.js:65-81 | the filtered list becomes the filter of all items under the current query and sheet |
| InventoryPanel.Panel.HandleSearch | frontend/js/components/inventoryPanel.js:45-52 | the query is stored lower-cased and the list refiltered with it |
| InventoryPanel.Panel.HandleFilter | frontend/js/components/inventoryPanel.js:54-63 | the sheet filter is stored and the list refiltered with it |
| InventoryPanel.Panel.SelectItem | frontend/js/components/inventoryPanel.js:144-162 | the item becomes the selection and the re-rendered quantity input reads 1; the lists, query and filter are unchanged |
| InventoryPanel.Panel.ChangeQuantity | frontend/js/components/inventoryPanel.js:297-302 | the quantity becomes max(1, parsed-or-1 + delta), never below 1 |
| InventoryPanel.Panel.HandleRetirada | frontend/js/components/inventoryPanel.js:304-364 | no request without a selection, with a blank name, or with a quantity above the available count, checked in that order; a quantity that did not parse or is not positive is refused by the backend's `gt=0`, so the request ends unaccepted and nothing changes; on success available becomes `novo_saldo`, in-use grows by the quantity and the quantity resets to 1; otherwise the item is unchanged; the item's id, name, codes, sheet, total and minimum, the query and the filter never change |
| InventoryPanel.Panel.HandleDevolucao | frontend/js/components/inventoryPanel.js:366-421 | only selection and name are checked, never the in-use count; a quantity that did not parse or is not positive is refused by the backend's `gt=0`, so the request ends unaccepted and nothing changes; on success available becomes `novo_saldo`, in-use drops by the quantity but not below 0, and the quantity resets to 1; otherwise the item is unchanged; the item's id, name, codes, sheet, total and minimum, the query and the filter never change |
| InventoryPanel.StepperUpDown | frontend/js/components/inventoryPanel.js:297-302 | one step up and one down brings a valid quantity back |
| InventoryPanel.StepperFloor | frontend/js/components/inventoryPanel.js:297-302 | stepping down from 1 stays at 1; an unparsable value steps as 1 does |
| ItemCard.Card.constructor | frontend/js/components/itemCard.js:29-31 | the card starts with no selection, quantity 1 and no low-stock warning |
| ItemCard.Card.Display | frontend/js/components/itemCard.js:29-69 | the item is selected, the low-stock warning shows iff available <= minimum stock, and the quantity resets to 1 |
| ItemCard.Card.IncreaseQuantity | frontend/js/components/itemCard.js:71-75 | the quantity becomes the validated value of parsed-or-1 + 1 |
| ItemCard.Card.DecreaseQuantity | frontend/js/components/itemCard.js:77-82 | the quantity drops by one only when it reads above 1, so a change never takes it below 1 |
| ItemCard.Card.ValidateQuantity | frontend/js/components/itemCard.js:84-89 | the quantity becomes its validated value |
| ItemCard.Card.HandleRetirada | frontend/js/components/itemCard.js:91-141 | no request with a blank name, without a selection, or with a quantity above the available count, checked in that order; a quantity that did not parse or is not positive (the card's validation keeps 0) is refused by the backend's `gt=0`, so the request ends unaccepted and nothing changes; on success only the available count changes (id, name, codes, sheet, in-use, total and minimum are kept), the warning is recomputed and the quantity resets to 1 |
| ItemCard.Card.HandleDevolucao | frontend/js/components/itemCard.js:143-188 | only the name and the selection are checked; a quantity that did not parse or is not positive (the card's validation keeps 0) is refused by the backend's `gt=0`, so the request ends unaccepted and nothing changes; on success only the available count changes (id, name, codes, sheet, in-use, total and minimum are kept), the warning is recomputed and the quantity resets to 1 |
| ItemCard.Validated | frontend/js/components/itemCard.js:84-89 | a value reading below 1 becomes 1; any other value, including 0 and an unparsable one, is kept |
| ItemCard.ValidatedCases | frontend/js/components/itemCard.js:84-89 | negative values reset to 1, 0 and unparsable values survive, and the result is never negative |
| ItemCard.ValidatedIdempotent | frontend/js/components/itemCard.js:84-89 | validating twice is validating once |
| ItemCard.IncreaseCases | frontend/js/components/itemCard.js:71-75 | from any value >= 1 the step up is exactly +1, while from -1 it leaves 0 |

## Left out

- Google Sheets, Slack, SQLite and the `.env` file are not accessed. Worksheet
  records, the Slack user list, the post result and the file's lines are
  inputs. A missing worksheet is an absent key of the workbook map.
- Authentication, `connect`, and the writing of history rows to the
  HISTÓRICO worksheet (`append_to_history`) are not modelled. The sheet's
  quantity update is a no-op in the source.
- The Slack message text and emoji are not modelled; only the action label
  and the guard are.
- Timestamps are not modelled. "ORDER BY timestamp DESC" is modelled as the
  reverse of insertion order, which assumes a clock that never goes back.
- Printing and logging are not modelled.
- async/await and concurrency are not modelled. The read-check-write of a
  transaction is taken as atomic.
- SQL LIKE is modelled as a plain substring test. Its ASCII case folding and
  the `%`/`_` wildcards in the query are not modelled.
- ORDER BY nome is modelled as code-point order, SQLite's BINARY collation.
  Equal names may come in any order.
- `Text.Lower` covers ASCII and Latin-1 letters only. Python's full Unicode
  lower-casing is not modelled.
- Text.IsSpace: the whitespace set is Python's, as `str.strip()` uses it.
  `Text.Strip` also stands for JavaScript's `trim()` in the two frontend
  components (the name inputs). `trim()` differs: it also removes U+FEFF and
  it keeps U+001C to U+001F and U+0085. For a name made only of those
  characters, the frontend guards in the model can answer differently from
  the browser.
- Sheets.Row: every cell is read as text (None for an empty cell).
  gspread's `get_all_records` turns numeric cells into numbers. A numeric
  code then makes `','.join(codigos)` raise inside the pass, and a name cell
  holding 0 is falsy and skipped; neither is modelled.
- The item schema in `database.py` lacks the columns for the total, the
  in-use count, the codes and the sheet. The store's item record carries them
  anyway, because the reconciliation and the transaction route read and write
  them. `upsert_item` writes every field.
- `get_item_by_name_and_aba`, `add_item_em_uso`, `remove_item_em_uso` and
  `get_items_em_uso_by_item` are modelled as their callers use them. They are
  not part of the database service shown. `get_item_by_name_and_aba` is
  assumed to match the name and the sheet tag exactly
  (`Store.FindByNameAndAba`).
  `Store.Database.RemoveItemEmUso` removes the oldest records first, which
  is an assumption.
- `get_items_em_uso`, the list of every item in use, is not modelled. The
  per-item query is.
- Sheets.SyncGroup: the update passes the existing row id to `upsert_item`,
  and the create passes none. On both paths the source hands `upsert_item` a
  dict without an id, while the shown `upsert_item` reads `item.id` from its
  argument. The model follows the evident intent.
- Sheets.SyncGroup: the branch that rewrites a changed sheet tag is left as
  a dead branch. That follows from the exact-match lookup assumed above, not
  from the source shown: the comment at google_sheets.py:155-156 suggests the
  authors expected the lookup to return rows with another tag, and such a
  lookup would reach the branch (`Sheets.SheetTagBranchUnreachable`).
- An exception inside the reconciliation, other than a malformed key, is
  not modelled. Examples are a failing API call or a failing write.
- Transactions.CreateTransaction: a NULL `codigos_originais` is not
  modelled. It makes `.split` raise after the record and the update are
  written, which the route turns into a 500. The model reads a missing code
  string as "".
- Transactions.CreateTransaction: side effects that throw (the Slack post,
  the sheet update) are modelled only through their results. A failed post
  is `posted != Some(true)`.
- Transactions.CreateTransaction: the user resolved for the mention is not
  part of the response and is not observed, so the method does not compute
  it. The resolution itself is `Transactions.ResolveSlackUser` with its
  lemmas; the mapping and the user list there are inputs, and None gives a
  failed user list.
- Transactions.CreateTransaction: the Slack service is a parameter. In the
  source it is the one built when the routes module is imported, so it keeps
  the SLACK_ENABLED value of start-up (`Wiring.DisableAfterStartup`).
- Frontend rendering, the DOM, event listeners, the 200 ms search debounce,
  toasts and the loading overlay are not modelled. The search is modelled as
  refiltering at once.
- The confirmation dialog and the backend's reply are inputs: `confirmed`,
  and `novoSaldo` (None when the request failed). A quantity that did not
  parse, or is not positive, is refused however `novoSaldo` is given, since
  the backend rejects it (backend/app/models/item.py:42) and the client then
  takes its error branch.
- The usage percentage is not modelled (floating point).
- The list and detail HTML is not modelled. The displayed total and the
  code labels are modelled.
- SettingsRoutes.Settings.SaveSlackSettings: a failure of the file read or
  write is not modelled. The route turns it into a 500.
- SettingsRoutes.Settings.SaveSlackSettings models the route as written: it
  rewrites the first SLACK_ENABLED line only. The corrected rewrite
  (`SettingsRoutes.RewriteEveryEnabled`) sits beside it, and the two agree on
  files with at most one such line (`SettingsRoutes.RewriteEveryAgrees`).
- SaveThenRead: the round trip is promised only for files with at most one
  SLACK_ENABLED line. With more, the loader reads the last line and the route
  rewrites the first, so the saved value can be lost at the next start
  (`SettingsRoutes.SaveMissesLaterDuplicate`, under Findings).
- The configuration loader is modelled only as `SettingsRoutes.ReadEnabled`,
  the SLACK_ENABLED value it reads from the lines of `.env`. Its other
  settings, environment variables that override the file, and python-dotenv's
  quoting, comments and `KEY = value` spacing are not modelled. The route
  writes `backend/.env`, while the loader reads `.env` from the working
  directory; the model takes them to be the same file.
- The main and items routes are not modelled. These are pass-throughs and
  wiring.
- The CLI and diagnostic scripts are not modelled.

## Findings

| source | as written | input that shows it | evidently intended | confidence | as-written member | corrected member |
|---|---|---|---|---|---|---|
| frontend/js/components/inventoryPanel.js:167-218 | the detail view cuts the codes to the first three before counting the hidden ones, so the "+n" label is at most +1 | an item whose `codigos_originais` is "a,b,c,d": two codes are shown and the label reads +1, with two codes hidden | the label counts every code not shown (+2 here) | not executed | InventoryPanel.HiddenCodesUndercount | InventoryPanel.HiddenCodesFour |
| backend/app/routes/settings.py:46-56 | the save rewrites the first SLACK_ENABLED line only, while python-dotenv keeps the last value of a repeated key | a `.env` holding `SLACK_ENABLED=True` twice: saving False rewrites the first line and the next start still reads True | every SLACK_ENABLED line carries the saved value, so the saved value is what the next start reads | not executed | SettingsRoutes.SaveMissesLaterDuplicate | SettingsRoutes.SaveEveryThenRead |
| backend/app/routes/transactions.py:14-16 | the transaction routes build their Slack service once, at import, and the service copies SLACK_ENABLED then; the settings route updates only the settings object | start with notifications on and a token, POST /settings/slack with enabled false, then create a transaction: GET /settings/slack reports them off, yet the notification is posted | switching notifications off stops them without a restart | not executed | Wiring.DisableAfterStartup | Wiring.DisableThenNotify |
