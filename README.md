# Fuel-receipt generator: reconciliation, edit policy, formatters and template rules

This Dafny project models the logic shared by three versions of a single-page
Indonesian fuel-receipt ("nota SPBU") generator:

- `Nota-SPBU-Generator_v4.00.Arial.jsx` (module `SpbuV4`);
- `NotaPertamina.jsx` (module `Pertamina`);
- `NotaGenerator.jsx` (module `Generator`).

Each version lets the user edit a transaction and a store template, and renders a receipt from them.

The modelled parts are:

- **Reconciliation.** Unit price, volume and cash amount become the shown volume, the total, and whether the volume was derived. A positive cash amount drives the volume. Otherwise a positive volume drives the total. Otherwise both are zero.
- **Transaction edit policy.** Numeric fields are sanitised and parsed. The change handler resets the cash amount when the volume is edited while cash is set. The form disables the volume box while the volume is cash-driven, so from the form that reset fires only when cash is set and the price is not positive (`Reconciliation.CashResetNeedsNoPrice`). Other fields are stored verbatim.
- **Formatters.** Rupiah formatting with dots between thousands, `DD/MM/YYYY`, and the three clock formats.
- **Template bookkeeping.** Selection after a snapshot, after a delete and after a sync. Footer locking, the id choice on save, the width default, two-line addresses, and the AI result merge.
- **Extras.** The random six-digit transaction number, the logo resize arithmetic, and the rule that shows a stored `0` as an empty box.

Code found word for word in more than one file is modelled once. Most of it lives in shared modules:

- `JsNumbers`: `parseFloat`, `parseInt`, `x || d`, `toString`, `Math.round`, `padStart`.
- `Formats`: `formatRupiah`, `formatDate`.
- `Lines`: `split('\n')`, `join('\n')`, `slice(0, n)`.
- `Transactions`: the record, the `{ ...prev }` copy as a class, the random number, the zero display.
- `Reconciliation`: the reconciliation and receipt figures of the two cash-priority versions.
- `Templates`: find, filter, the delete selection, and the snapshot listener, sync, new-template button and two-press delete of NotaPertamina.jsx and NotaGenerator.jsx.

Two shared pieces sit in a per-file module instead, and the other files repeat them: the logo resize arithmetic (`SpbuV4.ResizeDimensions`) and the AI result merge of NotaPertamina.jsx and NotaGenerator.jsx (`Pertamina.MergeAiResult`). The per-file modules hold what differs between versions. `InitialConfig` and `EditTemplate` differ only in the default width (450 in NotaPertamina.jsx, 300 in NotaGenerator.jsx), so each of those two modules keeps its own.

Numbers are Dafny `real`s, an idealisation of JavaScript numbers. The starting amounts are number literals (Nota-SPBU-Generator_v4.00.Arial.jsx:101-103), and every later amount is produced by `parseFloat(..) || 0`. So a stored amount is never NaN, and `parseFloat(n) || 0` of a stored number `n` is `n`. The model therefore reads stored amounts directly. A JavaScript `Date` is modelled by the values its getters return.

Randomness, the clock and `generateId()` are parameters:

- the `Math.random()` draw `r`;
- the `DateTime` reading;
- `freshId`.

The template list is the value the Firestore listener delivers.

`handleTransactionChange` mutates a copy of the previous record in the two cash-priority versions. That copy is the class `Transactions.Transaction`. The handler methods create it and assign its fields, and they are proved equal to the pure `Edit` function of their module. The lemmas about transaction edits are stated on `Edit`.

Three behaviours of the code deserve a note:

- **Negative input.** The versions treat a typed minus sign differently.
  - v4 removes every character other than a digit or `.`, so `-5` is stored as `5` (`SpbuV4.MinusSignDropped`).
  - NotaPertamina.jsx and NotaGenerator.jsx have no filter and store `-5` (`Pertamina.NegativeEntryStored`).
  - The reconciliation still treats any amount that is not positive as absent (`Reconciliation.IdleCashIgnored`, `Reconciliation.DerivedNonNegative`).
- **The v4 input box.** It hides a stored `0` only for `tel` inputs (`SpbuV4.TelDisplay`).
- **The new-template button of NotaPertamina.jsx and NotaGenerator.jsx.** It clears the selection. When the selection was not already '', that re-runs the sync, and no listed template has the id '', so the sync puts the first listed template (or the default one) in place of the new template (`Templates.AddNewReplacedBySync`).

## Model

| member | source | states |
|---|---|---|
| JsNumbers.ParseFloatOrZero | Nota-SPBU-Generator_v4.00.Arial.jsx:317 | `parseFloat(s) \|\| 0` is negative only when the text contains a minus sign |
| JsNumbers.ParseUnsignedDecimalFound | NotaPertamina.jsx:401 | `parseFloat` finds a literal exactly when the text opens with a digit, or with a dot followed by a digit |
| JsNumbers.ParseUnsignedFraction | NotaPertamina.jsx:401 | digits, a dot and digits, followed by text that continues neither the digits nor an exponent, read as the integer part plus the fraction |
| JsNumbers.ParseFloatFraction | NotaPertamina.jsx:401 | `parseFloat` of `a.f` (followed by such text) is a + f / 10^\|f\|, and so is `parseFloat(..) \|\| 0` |
| JsNumbers.ParseFloatNoNumeral | NotaPertamina.jsx:401 | text that after white space and a sign does not open with a literal reads as NaN, so `parseFloat(..) \|\| 0` is 0 |
| JsNumbers.ParseFloat | NotaPertamina.jsx:401 | `parseFloat` gives a negative number only when the text contains a minus sign (its values are pinned by the lemmas above) |
| JsNumbers.ParseFloatDecimalString | Nota-SPBU-Generator_v4.00.Arial.jsx:317 | `parseFloat` of a whole number's decimal text gives that number |
| JsNumbers.ParseFloatIntString | NotaPertamina.jsx:400-402 | `parseFloat` of a signed integer's text gives that integer |
| JsNumbers.ParseIntOr | Nota-SPBU-Generator_v4.00.Arial.jsx:339 | `parseInt(s) \|\| d` is the integer `parseInt` read when it read a nonzero one, and the default when it read nothing or 0; it is never 0 when the default is not |
| JsNumbers.ParseInt | Nota-SPBU-Generator_v4.00.Arial.jsx:339 | `parseInt` gives a negative integer only when the text contains a minus sign |
| JsNumbers.ParseIntDigitsThen | Nota-SPBU-Generator_v4.00.Arial.jsx:339 | digits without a leading zero, followed by text that does not start with a digit, read as the digits' value |
| JsNumbers.ParseIntIntString | Nota-SPBU-Generator_v4.00.Arial.jsx:339 | `parseInt` reads back the text of any integer |
| JsNumbers.DecimalString | Nota-SPBU-Generator_v4.00.Arial.jsx:24 | `toString` of a natural number: digits only, no leading zero, one digit exactly below 10, and its value is the number |
| JsNumbers.DecimalStringOfValue | Nota-SPBU-Generator_v4.00.Arial.jsx:24 | a canonical numeral is the `toString` of its own value |
| JsNumbers.DecimalStringLength | Nota-SPBU-Generator_v4.00.Arial.jsx:355 | a number with k digits prints as k characters |
| JsNumbers.IntString | Nota-SPBU-Generator_v4.00.Arial.jsx:24 | `toString` of an integer: a minus sign exactly for negatives, followed by the digits of the magnitude |
| JsNumbers.Round | Nota-SPBU-Generator_v4.00.Arial.jsx:24 | `Math.round(x)` is within half a unit of x, rounding halves up |
| JsNumbers.RoundUnique | Nota-SPBU-Generator_v4.00.Arial.jsx:24 | the integer within that half unit is unique, so integers round to themselves |
| JsNumbers.Pad2 | Nota-SPBU-Generator_v4.00.Arial.jsx:29-30 | `padStart(2, '0')`: two digits below 100, a leading `0` below 10, the same value |
| Formats.GroupThousands | Nota-SPBU-Generator_v4.00.Arial.jsx:24 | the dot regex on digits: deleting the dots gives the digits back, dots stand at every fourth place from the right (the first group has 1 to 3 digits, later groups exactly 3), and the length grows by (n-1)/3 |
| Formats.GroupInteger | Nota-SPBU-Generator_v4.00.Arial.jsx:24 | grouping an integer's text: deleting the dots gives its `toString`, the sign is kept in front, and the digits are well grouped with a first group of 1 to 3 digits |
| Formats.FormatRupiah | Nota-SPBU-Generator_v4.00.Arial.jsx:22-25 | NaN gives "0"; otherwise deleting the dots gives the text of `Math.round(x)`, the minus sign appears exactly when the rounded value is negative, and the digits are grouped by threes from the right, the first group holding 1 to 3 digits |
| Formats.FirstGroup | Nota-SPBU-Generator_v4.00.Arial.jsx:24 | in a well-grouped text that starts with a digit, the first group has 1 to 3 digits and the first dot follows it |
| Formats.FormatRupiahReadsBack | NotaPertamina.jsx:15-19 | `parseInt` of the formatted amount with its dots deleted gives back the rounded value |
| Formats.FormatDate | Nota-SPBU-Generator_v4.00.Arial.jsx:35-40 | `DD/MM/YYYY`: two-digit day, a two-digit month equal to `getMonth()+1`, slashes at positions 2 and 5, the year's text after them, and a leading 0 exactly below 10 |
| Lines.IndexOfNewline | Nota-SPBU-Generator_v4.00.Arial.jsx:451 | the position of the first line feed, or the length when there is none |
| Lines.Split | Nota-SPBU-Generator_v4.00.Arial.jsx:451 | `split('\n')` gives at least one piece, none containing a line feed |
| Lines.JoinSplit | Nota-SPBU-Generator_v4.00.Arial.jsx:452 | joining the pieces with `\n` restores the string |
| Lines.SplitJoin | Nota-SPBU-Generator_v4.00.Arial.jsx:452 | splitting joined lines that contain no line feed gives the lines back |
| Lines.Join | Nota-SPBU-Generator_v4.00.Arial.jsx:452 | `join('\n')` starts with the first line, has a line feed right after it when more lines follow, and is the line itself for one line |
| Lines.JoinPrefixOfSplit | Nota-SPBU-Generator_v4.00.Arial.jsx:451-452 | joining a leading run of the pieces gives a prefix of the string |
| Lines.FirstLines | Nota-SPBU-Generator_v4.00.Arial.jsx:451-452 | `split('\n').slice(0, n).join('\n')` is a prefix of the input, empty for n = 0, and the input when it has at most n lines |
| Lines.FirstLinesProperties | Nota-SPBU-Generator_v4.00.Arial.jsx:451-452 | `split('\n').slice(0, n).join('\n')` is a prefix of the input with at most n lines, exactly its first n lines, and the input itself when it has at most n lines |
| Lines.FirstLinesIdempotent | Nota-SPBU-Generator_v4.00.Arial.jsx:451-452 | truncating twice is truncating once |
| Lines.IndexOfNewlineAt | Nota-SPBU-Generator_v4.00.Arial.jsx:451 | the line feed search stops right after a line without line feeds |
| Transactions.TransactionData.WithNumber | Nota-SPBU-Generator_v4.00.Arial.jsx:319 | `{ ...prev, [name]: v }` for a numeric field sets that field and changes no other numeric or text field |
| Transactions.TransactionData.WithText | Nota-SPBU-Generator_v4.00.Arial.jsx:326 | `{ ...prev, [name]: value }` for a text field sets that field and changes nothing else |
| Transactions.FieldsDetermine | Nota-SPBU-Generator_v4.00.Arial.jsx:311 | a record is determined by its eleven fields |
| Transactions.Initial | Nota-SPBU-Generator_v4.00.Arial.jsx:94-106 | the starting record: price 10000, volume 10, cash 100000 (all non-negative), with the given number, date and time |
| Transactions.Transaction.constructor | Nota-SPBU-Generator_v4.00.Arial.jsx:311 | `let update = { ...prev }`: the new object holds exactly the previous record |
| Transactions.Transaction.SetNumber | Nota-SPBU-Generator_v4.00.Arial.jsx:319 | `update[name] = floatValue`: the object's record becomes the old one with that field replaced |
| Transactions.Transaction.SetText | Nota-SPBU-Generator_v4.00.Arial.jsx:326 | `update[name] = value` for a text field |
| Transactions.RandomTransNo | Nota-SPBU-Generator_v4.00.Arial.jsx:355 | for `0 <= r < 1`, six digits without a leading zero, with a value from 100000 to 999999 |
| Transactions.RandomTransNoCovers | Nota-SPBU-Generator_v4.00.Arial.jsx:355 | every number from 100000 to 999999 is produced by some draw |
| Transactions.ZeroHidden | NotaPertamina.jsx:85 | the box is empty exactly when the bound value is the number 0 and the input is enabled; otherwise it shows the value |
| Reconciliation.Reconcile | Nota-SPBU-Generator_v4.00.Arial.jsx:275-297 | the `let`-reassigning body computes exactly the three-case table `Derive` (with the division guarded by a positive price) |
| Reconciliation.Derive | Nota-SPBU-Generator_v4.00.Arial.jsx:275-297 | the derived volume and total are never negative, and a cash-driven result has the cash amount as its total |
| Reconciliation.DeriveOf | Nota-SPBU-Generator_v4.00.Arial.jsx:275-297 | a stored transaction is cash driven exactly when its cash and price are positive; its figures are never negative |
| Reconciliation.CashDriven | Nota-SPBU-Generator_v4.00.Arial.jsx:285-288 | `isVolumeCalculated` holds exactly when cash and price are positive, and then calculatedVolume × price = finalPrice = cash |
| Reconciliation.TotalIsVolumeTimesPrice | Nota-SPBU-Generator_v4.00.Arial.jsx:285-294 | in all three branches finalPrice = calculatedVolume × price |
| Reconciliation.CashPriority | NotaPertamina.jsx:314-326 | with positive cash and price, the stored volume has no influence and the total is the cash amount |
| Reconciliation.IdleCashIgnored | NotaPertamina.jsx:315 | cash that does not drive the volume acts as cash 0 |
| Reconciliation.DerivedNonNegative | NotaPertamina.jsx:307-326 | shown volume and total are never negative, and a non-positive price gives (0, 0, false) |
| Reconciliation.InitialIsCashDriven | Nota-SPBU-Generator_v4.00.Arial.jsx:100-102 | the starting transaction reconciles to 10 litres, 100000, cash driven |
| Reconciliation.ReceiptFigures | NotaPertamina.jsx:153-154 | the receipt volume is calculatedVolume when that is nonzero and the stored volume when it is 0; the total is finalPrice when that is nonzero and the cash amount when it is 0 |
| Reconciliation.ReceiptOfUnreconciled | NotaPertamina.jsx:153-154 | with a volume and cash that are not positive (typed negatives included) the receipt prints them as stored |
| Reconciliation.ReceiptWithoutPrice | Nota-SPBU-Generator_v4.00.Arial.jsx:473-474 | without a positive price the receipt prints the stored volume and the cash amount |
| Reconciliation.ReceiptOfReconciled | Nota-SPBU-Generator_v4.00.Arial.jsx:473-474 | with a positive price and a positive cash or volume, the receipt prints the derived figures |
| Reconciliation.VolumeInput | Nota-SPBU-Generator_v4.00.Arial.jsx:854 | when cash-driven it is disabled and shows the fixed-two text of the derived volume; otherwise it shows the stored volume, empty exactly when that is 0 |
| Reconciliation.CashResetNeedsNoPrice | Nota-SPBU-Generator_v4.00.Arial.jsx:854 | when the volume box is enabled and cash is set, the price is not positive, and the box shows the stored volume |
| Templates.FirstIndexOf | Nota-SPBU-Generator_v4.00.Arial.jsx:248 | the first position whose id matches, or the length |
| Templates.Find | Nota-SPBU-Generator_v4.00.Arial.jsx:248 | `find` by id: none exactly when no entry has the id, otherwise the first entry with it |
| Templates.FindFirst | NotaPertamina.jsx:384 | the first entry is found under its own id |
| Templates.Remaining | NotaPertamina.jsx:462 | `filter(s => s.id !== id)` holds exactly the entries with another id |
| Templates.RemainingHead | NotaPertamina.jsx:462 | the first remaining entry is the first list entry with another id |
| Templates.SelectAfterDelete | NotaPertamina.jsx:463 | the first remaining id, or '' when none remain; it is never the deleted id and always names a listed template |
| Templates.DeleteSelectsFirstRemaining | NotaGenerator.jsx:364-365 | the deleted id is never selected; '' exactly when every template had the deleted id; otherwise the first template with another id |
| Templates.SnapshotSelection | NotaPertamina.jsx:370-378 | with a non-empty list and an empty closed-over selection, the first id; otherwise the live selection is kept |
| Templates.SnapshotSelectsFirst | NotaPertamina.jsx:370-378 | the listener subscribes once and so closed over the starting selection '' (`useState('')`), so every non-empty snapshot selects the first template whatever the live selection is, and the sync then shows it |
| Templates.SyncSelection | NotaPertamina.jsx:381-386 | a found template is shown; if it is not found in a non-empty list, the first entry is shown and selected; with an empty list the default is shown |
| Templates.SyncSettles | NotaGenerator.jsx:304-309 | re-running the sync after it moved the selection changes nothing |
| Templates.SetField | NotaGenerator.jsx:322 | the named field is set verbatim, or to `parseInt(value) \|\| default` for the width; the id and logo are kept |
| Templates.WidthEdit | NotaGenerator.jsx:322 | a width edit never stores 0 and stores a typed nonzero integer as typed |
| Templates.ShownWidth | NotaPertamina.jsx:164 | `receiptWidth \|\| default` |
| Templates.NewTemplate | NotaPertamina.jsx:452 | the default template with a fresh id, named 'SPBU BARU', without a logo |
| Templates.AddNewSpbu | NotaPertamina.jsx:451-455 | the new template becomes the current one and the selection becomes '' |
| Templates.AddNewReplacedBySync | NotaGenerator.jsx:353-357 | when no listed id is '', the sync that the cleared selection triggers shows the first listed template (or the default one for an empty list) and not the new template |
| Templates.DeletePress | NotaPertamina.jsx:457-463 | an unarmed press only arms the button; an armed press without an id changes nothing; an armed press with an id disarms and selects the first remaining id, never the deleted one |
| Templates.DeleteNeedsTwoPresses | NotaGenerator.jsx:359-365 | from the unarmed button one press keeps the selection and arms it, and the second press deletes |
| Templates.SaveAsIs | NotaPertamina.jsx:441-449 | refused exactly when the name is empty; otherwise the template is stored unchanged |
| Templates.SavedIsShown | NotaGenerator.jsx:343-351 | once the saved template is in the list, selecting its id shows it |
| SpbuV4.InitialConfig | Nota-SPBU-Generator_v4.00.Arial.jsx:108-115 | the default template has the locked footer, width 275, no logo and the fresh id |
| SpbuV4.FormatTime | Nota-SPBU-Generator_v4.00.Arial.jsx:28-32 | `HH:MM`: five characters, both fields zero-padded to two digits |
| SpbuV4.Sanitize | Nota-SPBU-Generator_v4.00.Arial.jsx:316 | `replace(/[^0-9.]/g, '')` keeps only digits and dots |
| SpbuV4.SanitizeDropsOther | Nota-SPBU-Generator_v4.00.Arial.jsx:316 | any character other than a digit or a dot is deleted |
| SpbuV4.SanitizeExample | Nota-SPBU-Generator_v4.00.Arial.jsx:316 | `1a5` becomes `15` |
| SpbuV4.SanitizeAppend | Nota-SPBU-Generator_v4.00.Arial.jsx:316 | it works character by character, keeping the original order |
| SpbuV4.SanitizeKeepsNumerals | Nota-SPBU-Generator_v4.00.Arial.jsx:316 | a string of digits and dots is unchanged |
| SpbuV4.SanitizeTwoDots | Nota-SPBU-Generator_v4.00.Arial.jsx:316 | digits with two dots pass the sanitiser unchanged |
| SpbuV4.SanitizeIdempotent | Nota-SPBU-Generator_v4.00.Arial.jsx:316 | sanitising twice is sanitising once |
| SpbuV4.SanitizedNeverNegative | Nota-SPBU-Generator_v4.00.Arial.jsx:316-317 | the parsed sanitised value is never negative |
| SpbuV4.Edit | Nota-SPBU-Generator_v4.00.Arial.jsx:311-328 | text fields are stored verbatim; a numeric field gets the parsed sanitised value; a volume edit with positive previous cash gives exactly the old record with the volume set and the cash 0, keeping the price; otherwise no other field changes |
| SpbuV4.HandleTransactionChange | Nota-SPBU-Generator_v4.00.Arial.jsx:307-330 | the handler that copies and assigns fields produces exactly `Edit` |
| SpbuV4.VolumeEditIsVolumeDriven | Nota-SPBU-Generator_v4.00.Arial.jsx:322-324 | after any volume edit the next reconciliation is not cash driven |
| SpbuV4.PriceOrCashEditIsLocal | Nota-SPBU-Generator_v4.00.Arial.jsx:314-320 | a price or cash edit changes only that field |
| SpbuV4.EditKeepsNonNegative | Nota-SPBU-Generator_v4.00.Arial.jsx:316-319 | if all stored numbers are non-negative, they stay so after any edit |
| SpbuV4.EditStoresTypedNumber | Nota-SPBU-Generator_v4.00.Arial.jsx:316-319 | typing a whole number stores that number |
| SpbuV4.MinusSignDropped | Nota-SPBU-Generator_v4.00.Arial.jsx:316 | typing `-n` stores n |
| SpbuV4.SecondDotEndsNumber | Nota-SPBU-Generator_v4.00.Arial.jsx:316-319 | the sanitiser keeps every dot, so typing `a.f.g` stores a + f / 10^\|f\| |
| SpbuV4.VolumeEditScenario | Nota-SPBU-Generator_v4.00.Arial.jsx:307-330 | the change handler's answer to the volume 5 on the starting transaction: 5 litres, 50000, volume driven (the form itself disables the volume box there, since the starting transaction is cash driven) |
| SpbuV4.ResolveSelection | Nota-SPBU-Generator_v4.00.Arial.jsx:236-239 | a non-empty id still in the list is kept; otherwise the first id, or '' for an empty list |
| SpbuV4.ResolveSelectionInList | Nota-SPBU-Generator_v4.00.Arial.jsx:236-239 | the result is '' or names a listed template; when all ids are non-empty it is '' exactly when the list is empty |
| SpbuV4.ResolveSelectionIdempotent | Nota-SPBU-Generator_v4.00.Arial.jsx:236-239 | applying the rule twice to the same list changes nothing |
| SpbuV4.SyncSelection | Nota-SPBU-Generator_v4.00.Arial.jsx:247-257 | a found template is shown with the locked footer; otherwise the default is shown, and in a non-empty list the selection moves to the first id |
| SpbuV4.FooterAlwaysLocked | Nota-SPBU-Generator_v4.00.Arial.jsx:251 | the template shown after a sync always carries the locked footer |
| SpbuV4.SyncSettlesOnSecondRun | Nota-SPBU-Generator_v4.00.Arial.jsx:253-256 | after the selection moves, the next run shows the first template (footer locked) and a further run changes nothing |
| SpbuV4.EditTemplate | Nota-SPBU-Generator_v4.00.Arial.jsx:332-341 | a footer edit is ignored; other fields are set, with the width falling back to 275; the footer never changes |
| SpbuV4.WidthWithUnit | Nota-SPBU-Generator_v4.00.Arial.jsx:339 | typing `300px` as the width stores 300, and `px` stores the default 275 |
| SpbuV4.SaveTemplate | Nota-SPBU-Generator_v4.00.Arial.jsx:380-390 | refused exactly when the name is empty; otherwise it stores the footer locked, keeps the id when it is non-empty and listed, and uses the fresh id otherwise |
| SpbuV4.SaveOverwritesIffListed | Nota-SPBU-Generator_v4.00.Arial.jsx:389 | with an unused fresh id, the save overwrites a listed template exactly when the edited one was listed |
| SpbuV4.SavedIsShown | Nota-SPBU-Generator_v4.00.Arial.jsx:396 | once the listener delivers the saved template, selecting its id shows it as saved |
| SpbuV4.DeleteSelection | Nota-SPBU-Generator_v4.00.Arial.jsx:408-413 | nothing happens without an id or when the confirmation dialog is cancelled; otherwise the selection is cleared |
| SpbuV4.DeleteThenResolve | Nota-SPBU-Generator_v4.00.Arial.jsx:413 | clearing the selection and re-resolving over the remaining list gives the first remaining id, never the deleted one |
| SpbuV4.AiAddress | Nota-SPBU-Generator_v4.00.Arial.jsx:449-452 | the AI address, or the closed-over template address when it is empty, cut to exactly its first two lines (at most one `\n`); a prefix of it; unchanged when it already has at most two lines |
| SpbuV4.AiAddressIdempotent | Nota-SPBU-Generator_v4.00.Arial.jsx:449-452 | a non-empty truncated address passes through the truncation unchanged |
| SpbuV4.ApplyAiAddress | Nota-SPBU-Generator_v4.00.Arial.jsx:455 | `{ ...prev, address }`: the live template gets the new address and keeps its name, footer and id |
| SpbuV4.AiOverwritesLiveAddress | Nota-SPBU-Generator_v4.00.Arial.jsx:455 | a reply without an address writes the closed-over address over a different live one |
| SpbuV4.AddressLines | Nota-SPBU-Generator_v4.00.Arial.jsx:478 | the receipt prints one or two lines: those of the two-line truncation, which join to a prefix of the address |
| SpbuV4.ResizeDimensions | Nota-SPBU-Generator_v4.00.Arial.jsx:53-56 | a wider image is scaled to the maximum width and a narrower one is kept; height × original width = original height × width, so the aspect ratio is kept |
| SpbuV4.ResizeLogo | Nota-SPBU-Generator_v4.00.Arial.jsx:367 | the logo is at most `LOGO_MAX_WIDTH` wide, kept as is when narrower, with its aspect ratio kept |
| SpbuV4.TelDisplay | Nota-SPBU-Generator_v4.00.Arial.jsx:119-127 | a stored 0 shows as empty only in an enabled `tel` input |
| SpbuV4.NewTemplate | Nota-SPBU-Generator_v4.00.Arial.jsx:744 | equal to the shared new-template rule, since the explicit footer and width overrides repeat the defaults |
| SpbuV4.RegenerateTransNo | Nota-SPBU-Generator_v4.00.Arial.jsx:354-356 | a new six-digit number from 100000 to 999999 replaces `noTrans`, and nothing else changes |
| SpbuV4.UpdateDateTime | Nota-SPBU-Generator_v4.00.Arial.jsx:343-351 | date and time come from one clock reading, and nothing else changes |
| Pertamina.InitialConfig | NotaPertamina.jsx:53-60 | the default template: footer 'Terimakasih dan selamat jalan', width 450, no logo |
| Pertamina.FormatTime | NotaPertamina.jsx:22-27 | `HH : MM`: seven characters, both fields zero-padded |
| Pertamina.Edit | NotaPertamina.jsx:398-418 | a numeric field gets `parseFloat(value) \|\| 0`; a volume edit with positive cash gives exactly the old record with the volume set and the cash 0, keeping the price; every other edit sets only the named field |
| Pertamina.HandleTransactionChange | NotaPertamina.jsx:398-418 | mutating the copy `newTrans` produces exactly `Edit` |
| Pertamina.VolumeEditIsVolumeDriven | NotaPertamina.jsx:404-411 | after any volume edit the reconciliation is not cash driven |
| Pertamina.NegativeEntryStored | NotaPertamina.jsx:400-402 | a typed negative number is stored as is, and a negative price or cash never drives the volume |
| Pertamina.NegativeParsedStored | NotaPertamina.jsx:400-411 | whatever text parses to a negative number is stored as parsed, and a negative price or cash never drives the volume |
| Pertamina.ReceiptTotalWithoutPrice | NotaPertamina.jsx:151-154 | with price 0 and positive cash the printed total is the cash amount |
| Pertamina.AddressLines | NotaPertamina.jsx:157 | the receipt prints at least one line and every address line, and the lines join back to the address |
| Pertamina.EditTemplate | NotaPertamina.jsx:420 | every field is editable; the width falls back to 450 and is never stored as 0 |
| Pertamina.MergeAiResult | NotaPertamina.jsx:591-595 | the address and footer are taken from the reply only when non-empty, and nothing else changes |
| Pertamina.MergeAiResultLaws | NotaPertamina.jsx:591-595 | an empty reply changes nothing; applying a reply twice is applying it once |
| Pertamina.DeleteThenSync | NotaPertamina.jsx:462-463 | after a delete the sync shows the first remaining template |
| Pertamina.UpdateDateTime | NotaPertamina.jsx:390-396 | date and time come from one clock reading, and nothing else changes |
| Generator.InitialConfig | NotaGenerator.jsx:52-59 | the default template: footer 'Terimakasih dan selamat jalan', width 300, no logo |
| Generator.FormatTime | NotaGenerator.jsx:21-26 | `HH : MM : SS`: twelve characters, each field zero-padded |
| Generator.FormatRupiah | NotaGenerator.jsx:15-18 | NaN gives "0"; a whole number's text is grouped by dots (deleting them gives its `toString`), the minus sign appears exactly for negatives, and the digits are well grouped with a first group of 1 to 3 digits |
| Generator.FormatRupiahAgrees | NotaGenerator.jsx:15-18 | on whole numbers it prints what the rounding formatter prints |
| Generator.Edit | NotaGenerator.jsx:312-320 | a numeric edit stores `parseFloat(value) \|\| 0` in that field only, and a text edit stores the text; nothing else changes |
| Generator.TotalPrice | NotaGenerator.jsx:251 | volume × price: 0 exactly when one of them is 0, never negative for non-negative inputs, and with a positive price positive exactly when the volume is |
| Generator.CashIndependent | NotaGenerator.jsx:251 | cash is never reset by another edit, and an edit of anything but price or volume keeps the total |
| Generator.ReceiptAmounts | NotaGenerator.jsx:110-113 | the printed total is always volume × price; "paid" is the cash amount, or the total when the cash amount is 0 |
| Generator.EditTemplate | NotaGenerator.jsx:322 | every field is editable; the width falls back to 300 and is never stored as 0 |

## Left out

- Firebase initialisation, authentication, the Firestore listener and `setDoc`/`deleteDoc` are external asynchronous services. The model keeps only the id and selection rules around them; the listener's list is a parameter.
- html2canvas loading, canvas rendering, PNG export and the print window are browser I/O.
- FileReader, canvas drawing and JPEG encoding of the logo are foreign APIs. Only the width and height arithmetic is modelled (`SpbuV4.ResizeDimensions`; NotaPertamina.jsx and NotaGenerator.jsx run the same arithmetic with a limit of 205).
- The Gemini request, `fetchWithBackoff`, its retries and its random jitter are network calls. The reply's `address` and `footerNote` are parameters.
- Exact IEEE-754 arithmetic is not modelled; numbers are reals.
- The digits of `toFixed(2)` are not modelled. The volume input's text is kept abstract as `FixedTwo`.
- For `parseFloat` and `parseInt`: `Infinity`, precision loss, and `parseInt`'s reading of very long digit runs are not modelled.
- JsNumbers.DecimalString: JavaScript's `toString` switches to exponent notation (such as `1e+21`) from 10^21 on; the model prints every integer in plain digits, so it agrees with `toString` only below 10^21.
- JsNumbers.IntString: the same bound of 10^21 on the magnitude applies.
- Formats.GroupInteger, Formats.FormatRupiah: they group the plain digits, so they agree with the source only for amounts below 10^21, where `toString` does not use exponent notation.
- Generator.FormatRupiah: only whole numbers are modelled. On a fractional total, `toString` prints a fraction and the grouping regular expression also groups those fraction digits; that digit output is floating-point text and is not modelled.
- `Math.random()`, `Date.now()`, `new Date()` and `generateId()` are parameters (`r`, a `DateTime`, `freshId`).
- React rendering, JSX, CSS, the `setTimeout` that clears feedback messages and the tooltips are UI.
- The three-second timer that disarms the delete button of NotaPertamina.jsx and NotaGenerator.jsx is a clock. `Templates.DeletePress` takes the armed state as a parameter.
- The `window.confirm` dialog of the v4 delete is user interaction. Its answer is the `confirmed` parameter of `SpbuV4.DeleteSelection`.
- The editing-mode flags (`isEditingSpbu`, `uiState`) only choose which panel is shown and are not modelled.
- SpbuV4.AiAddress: the handler is a `useCallback` with dependencies `[currentSpbu.name, displayFeedback, isAiGenerating]` (Nota-SPBU-Generator_v4.00.Arial.jsx:465), so its fallback `currentSpbu.address` is the address as it stood when the name last changed. The model takes that closed-over address as the parameter `closedOver`; when the reply has no address, an address typed since then is overwritten (`SpbuV4.AiOverwritesLiveAddress`). The React rendering that decides when the callback is rebuilt is not modelled.
- `String(value)` in the v4 `tel` input converts a number to its text. The model keeps the bound value itself (`SpbuV4.TelDisplay`).
- The snapshot listener of NotaPertamina.jsx and NotaGenerator.jsx reads the selection it closed over when it subscribed. `Templates.SnapshotSelection` takes that value and the live selection as parameters. The closed-over value is the starting '' because the effect's dependencies do not include the selection (`Templates.SnapshotSelectsFirst`).
- The `!db` guards of save and delete are not modelled, because the database handle is outside the model. The empty-name and empty-id guards are modelled.
- The receipt's footer lines (`footerNote.split('\n')`) are covered only through `Lines.Split`. For the locked footer this gives the greeting, five ruled lines and a final empty line. v4 prints each empty line as a space (Nota-SPBU-Generator_v4.00.Arial.jsx:483). NotaPertamina.jsx and NotaGenerator.jsx print the lines as they are.
- NotaGenerator.jsx renders every address line, like NotaPertamina.jsx (`Pertamina.AddressLines`). Its snapshot, sync, new-template, delete, save and AI merge code is textually that of NotaPertamina.jsx and is modelled once, in `Templates` and `Pertamina.MergeAiResult`.
