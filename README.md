# Restock planning model

A Dafny model of the restock-planning screen of a multi-warehouse laundry inventory
dashboard (`components/RestockRequirements.tsx`). The screen plans the stock of one of
two satellite warehouses ("Gudang Singles", "Gudang Nugget"). The planning horizon is
one day, one week or one month. Stock is drawn from the central warehouse
("Gudang Utama"). The model covers:

- the day count of a period (`getDays`);
- the target `ceil(dailyUsage × days × 2)`, the gap `max(target − stock, 0)` and the
  four status levels KOSONG / KRITIS / RENDAH / AMAN, both as the on-screen badge and
  as the PDF label;
- the master catalog: items deduplicated by the key `name-size` in the key order of
  a JavaScript `Map`, a central-warehouse definition overriding earlier ones, and the
  selected warehouse's id and stock laid over each definition;
- the case-insensitive search over name, category and size;
- the six-column export rows and the report payload;
- the screen state (`RestockPlanner`), i.e. the selected warehouse, period, search
  term, the per-item manual quantities, and the sequence of transactions handed on
  so far. Quick restock and bulk submit are methods over that state.

The modules are:

- `Wrappers`: `Option`.
- `Text`: JavaScript string primitives (white space, `toLowerCase`, `includes`, the
  `\s` replacement).
- `Numbers`: `Math.ceil`, `parseInt` and `Number.prototype.toString` on integers.
  The round trip between the last two is proved.
- `Filtering`: `Array.prototype.filter`.
- `Inventory`: the item record and the two selectors.
- `Requirement`: days, target, gap and status.
- `Catalog`: master catalog and search.
- `Report`: export rows and the report payload.
- `Requests`: manual quantities, the transfer record and the `RestockPlanner` class.

External collaborators appear as plain values:

- `onAddTransaction` is the field `sent`, to which each transaction is appended.
- `generatePdfReport` receives the `PdfReport` value that `RestockPlanner.ExportPdf` returns.
- `alert` is the notice string that `BulkSubmit` returns.
- The random transaction id and `new Date().toISOString()` come in as a `Stamp`, or
  as a function from the row index to a `Stamp` for a bulk submission.

Points where the code's behaviour is easy to misread:

- **Override parsing.** The manual override is read by `parseInt` on the typed text.
  A text with a numeric prefix therefore counts: "5abc" and "5.7" both read as 5.
  Text reads as `NaN` when, after optional white space and sign, it does not start
  with a digit, or starts with a `0x` prefix not followed by a hexadecimal digit
  ("0x", "0xg").
- **Quick-restock button.** The button is enabled when any text was typed for the
  row, or when the gap is positive (`components/RestockRequirements.tsx:332`). It is
  not tied to a positive override value. A typed "0" with no gap enables the button,
  and the click then does nothing (`DisabledButtonIsNoop` covers the disabled case,
  `QuickRestock` the no-op).
- **Deduplication.** The deduplication and overlay are part of this component and
  are modelled in full.
- **Key collisions.** The key joins name and size with `-`. Two different products
  such as ("Sprei-King", "L") and ("Sprei", "King-L") therefore share one catalog
  row (`KeyCollision`).

## Model

| member | source | states |
|---|---|---|
| Text.Lower | components/RestockRequirements.tsx:60-64 | `toLowerCase` keeps the length, turns each ASCII upper-case letter into its lower-case letter, keeps every other character, and leaves no upper-case letter |
| Text.LowerIdempotent | components/RestockRequirements.tsx:60-64 | lower-casing twice is lower-casing once |
| Text.Includes | components/RestockRequirements.tsx:61-65 | `includes` as a scan from the left; what it means is stated by `Text.IncludesIff` |
| Text.IncludesIff | components/RestockRequirements.tsx:61-65 | the left-to-right `includes` scan succeeds exactly when the term occurs at some position |
| Text.ReplaceWhitespace | components/RestockRequirements.tsx:160 | `replace(/\s/g, '_')` keeps the length and every non-space character, puts the replacement at every white-space position, and leaves no white space |
| Numbers.Ceil | components/RestockRequirements.tsx:71 | `Math.ceil(x)` is the integer r with x ≤ r < x + 1 |
| Numbers.CeilMonotone | components/RestockRequirements.tsx:71 | the ceiling never decreases as its argument grows |
| Numbers.ParseInt | components/RestockRequirements.tsx:79 | `parseInt` with no radix: skip white space, read a sign, a `0x` prefix and the longest digit run, `None` for `NaN`; its properties are the lemmas below |
| Numbers.IntToString | components/RestockRequirements.tsx:147-150 | `toString` of an integer: a `-` exactly for a negative number |
| Numbers.IntToStringForm | components/RestockRequirements.tsx:147-150 | the canonical text `toString` writes: after the sign only decimal digits, and no leading zero unless the text is "0" |
| Numbers.DigitRunIsMaximal | components/RestockRequirements.tsx:79 | `parseInt` reads the longest run of digits: every character in it is a digit and the next one is not |
| Numbers.ParseIntSkipsWhitespace | components/RestockRequirements.tsx:79 | leading white space does not change what `parseInt` returns |
| Numbers.ParseIntOfIntToString | components/RestockRequirements.tsx:97 | `parseInt` of a decimal integer followed by text that starts with neither a digit nor `x`/`X` is that integer |
| Numbers.ParseIntRoundTrip | components/RestockRequirements.tsx:147-150 | `parseInt(n.toString())` is `n` for every integer `n` |
| Numbers.ParseIntZeroAndEmpty | components/RestockRequirements.tsx:79 | the fallback "0" reads as 0, and the empty text reads as `NaN` |
| Filtering.Filter | components/RestockRequirements.tsx:61-65 | `filter` keeps the order and keeps exactly the elements that pass, each as often as in the input |
| Requirement.GetDays | components/RestockRequirements.tsx:24-31 | every period code, known or not, gives 1, 7 or 30 days |
| Requirement.DaysTable | components/RestockRequirements.tsx:24-31 | 1D is 1 day, 1W is 7 days, 1M is 30 days, and any other code is 7 days |
| Requirement.DaysIncreasing | components/RestockRequirements.tsx:24-31 | a longer period has more days |
| Requirement.Requirement | components/RestockRequirements.tsx:68-72 | the target is the least integer not below usage × days × 2 |
| Requirement.Target | components/RestockRequirements.tsx:68-72 | `calculateRequirement(item)` is the least integer not below the item's usage (0 when missing) × the period's days × 2 |
| Requirement.RequirementNonNegative | components/RestockRequirements.tsx:68-72 | the target is never negative for non-negative usage |
| Requirement.RequirementOfNoUsage | components/RestockRequirements.tsx:71 | zero usage gives a zero target |
| Requirement.RequirementMonotoneInUsage | components/RestockRequirements.tsx:68-72 | the target never decreases as daily usage grows |
| Requirement.RequirementMonotoneInDays | components/RestockRequirements.tsx:68-72 | the target never decreases as the day count grows |
| Requirement.TargetProperties | components/RestockRequirements.tsx:68-72 | an item's target is ≥ 0, is 0 when its usage is missing or 0, and is no smaller for a longer period |
| Requirement.Gap | components/RestockRequirements.tsx:81 | the suggested order is ≥ 0 and is the least top-up reaching the target |
| Requirement.GapZeroIff | components/RestockRequirements.tsx:287 | the gap is 0 exactly when the stock reaches the target |
| Requirement.Badge | components/RestockRequirements.tsx:164-176 | each status level, in both directions, in integer terms; exactly one applies, with the KRITIS boundary at 2 × stock ≤ target inclusive |
| Requirement.PdfStatus | components/RestockRequirements.tsx:139-142 | the PDF status label always names the same level as the on-screen badge |
| Requirement.SafeIffNoGap | components/RestockRequirements.tsx:164-176 | with stock on hand, the status is AMAN exactly when the gap is 0 |
| Requirement.Examples | components/RestockRequirements.tsx:164-176 | the boundary examples: 5/10 KRITIS, 6/10 RENDAH, 10/10 AMAN, 0 KOSONG, 3 per day for a week is 42, positive stock against a 0 target is AMAN |
| Catalog.FirstIndex | components/RestockRequirements.tsx:36-38 | the position of the first occurrence of a key |
| Catalog.Distinct | components/RestockRequirements.tsx:34-40 | the `Map`'s keys are exactly the item keys, none repeated |
| Catalog.DistinctInFirstAppearanceOrder | components/RestockRequirements.tsx:34-40 | the `Map`'s keys come in the order of their first appearance |
| Catalog.LastMainIndex | components/RestockRequirements.tsx:37-38 | the last central-warehouse definition of a key, if any |
| Catalog.Definition | components/RestockRequirements.tsx:34-40 | the kept definition has the key asked for |
| Catalog.DefinitionAppend | components/RestockRequirements.tsx:37-38 | one more item replaces a key's definition exactly when it is at the central warehouse or its key is new |
| Catalog.DefinitionsStep | components/RestockRequirements.tsx:35-40 | one step of the `forEach` keeps every stored definition the kept one |
| Catalog.BuildDefinitions | components/RestockRequirements.tsx:34-40 | the loop leaves the distinct keys in first-appearance order, and maps each key to its last central-warehouse definition, or else its first definition |
| Catalog.FindAt | components/RestockRequirements.tsx:43-47 | `find` gives the first item with the same name, size and location, or nothing when there is none |
| Catalog.Overlay | components/RestockRequirements.tsx:49-54 | a row keeps the definition's fields, is placed at the selected warehouse, and takes that warehouse's id and stock, or keeps the definition's id with stock 0 |
| Catalog.MasterCatalogOf | components/RestockRequirements.tsx:42-55 | one row per distinct key, in key order, every row at the selected warehouse |
| Catalog.MasterCatalogRows | components/RestockRequirements.tsx:33-56 | the catalog has exactly the item keys, none twice, in first-appearance order, and each row is the overlaid kept definition |
| Catalog.MasterCatalog | components/RestockRequirements.tsx:33-56 | building the `Map`, then mapping over its values, yields the catalog above |
| Catalog.SearchCatalog | components/RestockRequirements.tsx:58-66 | an empty term gives the catalog unchanged; otherwise the result is a subsequence that keeps exactly the rows whose lower-cased name, category or size contains the lower-cased term |
| Catalog.SearchIgnoresCase | components/RestockRequirements.tsx:60 | terms that agree after lower-casing give the same rows |
| Catalog.KeyCollision | components/RestockRequirements.tsx:36 | two different products whose name and size join to the same key share one catalog row |
| Report.ExportRow | components/RestockRequirements.tsx:135-152 | a row has the six header columns, starts with name and size, and its status cell is the badge's label |
| Report.RowReadsBack | components/RestockRequirements.tsx:144-151 | a row has the six header columns, and its numeric cells read back as the numbers written |
| Report.ExportRowContents | components/RestockRequirements.tsx:135-152 | an export row is name, size, stock, target, the status label of the badge, and the gap |
| Report.ExportReport | components/RestockRequirements.tsx:154-161 | the report has the fixed title and headers, the user name, the subtitle naming the warehouse and period, one row per given item in order, and a file name free of white space |
| Requests.ShiftTransaction | components/RestockRequirements.tsx:116-129 | the record of a transfer: the item's id and name, the amount, kind SHIFT, from the central warehouse to the selected one, with the stamp's id and date and the user |
| Requests.ManualValue | components/RestockRequirements.tsx:79 | the typed entry read by `parseInt`, with "0" in place of an absent or empty entry: such an entry reads as 0 |
| Requests.RequestIsEntered | components/RestockRequirements.tsx:107 | a row that counts as requested has a non-empty entry, and reading it without the "0" fallback gives the same value |
| Requests.FinalAmount | components/RestockRequirements.tsx:79-83 | a positive typed value is used as is, otherwise the amount is the gap; it is ≥ 0, and 0 exactly when nothing positive was typed and the stock reaches the target |
| Requests.ManualOverrideWins | components/RestockRequirements.tsx:83 | a positive typed quantity takes precedence over the computed gap |
| Requests.QuickRestockEnabled | components/RestockRequirements.tsx:332 | the button is enabled when an entry was typed or the gap is positive; `Requests.DisabledButtonIsNoop` states what that means for a click |
| Requests.DisabledButtonIsNoop | components/RestockRequirements.tsx:332 | when the button is disabled, the final amount is 0, so a click would emit nothing |
| Requests.Selected | components/RestockRequirements.tsx:96-99 | the rows to process are a subsequence of the filtered rows: exactly those whose entry reads as a positive number |
| Requests.BulkTransactions | components/RestockRequirements.tsx:106-109 | one transaction per selected row |
| Requests.BulkTransactionAt | components/RestockRequirements.tsx:106-109 | the j-th transaction is the transfer for the j-th selected row, with that row's own quantity |
| Requests.BulkTransactionsStep | components/RestockRequirements.tsx:106-109 | one more row appends exactly its transfer |
| Requests.BulkTransactionsAreRequests | components/RestockRequirements.tsx:106-109 | every bulk transaction is a SHIFT of a positive typed quantity from the central warehouse to the selected one, for its row |
| Requests.RestockPlanner.constructor | components/RestockRequirements.tsx:18-22 | initial state: Gudang Singles, one week, empty search, no entries, nothing sent |
| Requests.RestockPlanner.FilteredCatalog | components/RestockRequirements.tsx:58-66 | the rows on screen: the whole master catalog for an empty search, and every row placed at the selected warehouse |
| Requests.RestockPlanner.ExportPdf | components/RestockRequirements.tsx:133-162 | the exported report has one row per row on screen, in order, for the selected period, with the fixed title and headers, the user name and a white-space-free file name |
| Requests.RestockPlanner.SelectWarehouse | components/RestockRequirements.tsx:212 | the selected warehouse becomes the one clicked |
| Requests.RestockPlanner.SelectPeriod | components/RestockRequirements.tsx:202 | the selected period becomes the one clicked |
| Requests.RestockPlanner.SetSearchTerm | components/RestockRequirements.tsx:249 | the search term becomes the typed text |
| Requests.RestockPlanner.SetManualQuantity | components/RestockRequirements.tsx:74-76 | the entry for the item becomes the typed text, the others stay |
| Requests.RestockPlanner.ProcessTransaction | components/RestockRequirements.tsx:115-131 | exactly one SHIFT record, from the central warehouse to the selected one and carrying the note, stamp and user, is appended to what was sent |
| Requests.RestockPlanner.QuickRestock | components/RestockRequirements.tsx:78-93 | nothing happens when the final amount is ≤ 0; otherwise exactly one transfer of that amount is sent and only this item's entry is removed |
| Requests.RestockPlanner.SubmitEach | components/RestockRequirements.tsx:106-109 | the loop sends the bulk transactions of the selected rows in order |
| Requests.RestockPlanner.BulkSubmit | components/RestockRequirements.tsx:95-113 | with no requested row on screen, nothing is sent, the entries stay and the warning is returned; otherwise one transfer per requested row is sent in catalog order, every entry is cleared and the count notice is returned |

## Left out

- Rendering: the JSX, the Tailwind class strings and the theme switching are not modelled. Neither are the stock colour at lines 300 and 305, which compares with a strict `<` against half the target, and the progress-bar width at line 306, which is a floating-point display value.
- Floating point: `dailyUsage × days × 2` is computed on exact reals, not IEEE-754 doubles, so rounding at the ceiling is not modelled. A `NaN` or absent usage is `None` and reads as 0.
- Numbers.ParseInt: magnitudes are unbounded integers. The precision loss of `parseInt` above 2^53 is not modelled.
- Numbers.IntToString: renders every integer in plain decimal. The exponent form that `toString` uses from 1e21 upward is not modelled.
- Text.Lower: folds the ASCII letters only. Full Unicode case mapping is not modelled.
- External calls: `generatePdfReport`, `onAddTransaction` and `alert` are not executed. They appear as the returned `PdfReport`, the `sent` sequence and the returned notice.
- The random transaction id (`Math.random().toString(36)`) and the timestamp (`new Date().toISOString()`) are not generated. They are parameters of the model.
- React's batching of `setManualQuantities` is not modelled. Each update is applied in order to the `RestockPlanner` fields.
- `components/Layout.tsx`, `components/AdminSettings.tsx`, `components/UserManagement.tsx` and `services/geminiService.ts` are not part of this model. They hold navigation, form handling and calls to external services.
