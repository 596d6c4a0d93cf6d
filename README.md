# Zoo food audit: the reconciliation core in Dafny

The audit reads three files about each food item:

- what was delivered (a properties file);
- what was used (a CSV log);
- what is in stock (a JSON inventory).

For every item named in any of them, it checks that delivered minus used equals what was counted. It then prints a report. This project models the part of the program with the domain logic and proves what it promises:

- the per-file normalisers and record filters;
- the three map builders (last record wins for deliveries and inventory, sums for usage);
- the reconciliation of one item and of all items;
- the summary counts;
- the text report.

Modules, one per file:

| file | module | what it holds |
|---|---|---|
| `results.dfy` | `Results` | `Option` (a `Map.get` that may find nothing) and `Result` (the `ok`/`err` every parser returns); the source's `src/lib/result.ts` is not part of this model, only its two constructors are |
| `types.dfy` | `Types` | the domain datatypes of `src/lib/types.ts`; every field there is `readonly`, so every type is an immutable datatype |
| `text.dfy` | `Text` | `trim` with ECMAScript's whitespace set, `toLowerCase`, `join` and a `split` to read joined text back |
| `numbers.dfy` | `Numbers` | exact decimals, `Number(text)` on decimal text, `Number.isInteger`, `Math.floor`, and the text `${n}` writes for an integer |
| `folds.dfy` | `Folds` | the skip-tolerant record loop (`FilterMap`) and the last-one-wins map loop (`LastWins`) that the parsers share |
| `json.dfy` | `Json` | the value `JSON.parse` returns |
| `delivery_parser.dfy` | `DeliveryParser` | `parsePropertyValue`, the record loop of `parseDeliveryFile`, `createDeliveryMap` |
| `usage_parser.dfy` | `UsageParser` | the row filter and record loop of `parseUsageFile`, `aggregateUsage` |
| `inventory_parser.dfy` | `InventoryParser` | the schema and the record mapping of `parseInventoryFile`, `createInventoryMap` |
| `ordering.dfy` | `Ordering` | the default order of `Array.prototype.sort` on names, and sorting a set of names |
| `reconciliation.dfy` | `Reconciliation` | `reconcileItem`, `collectAllItems`, `reconcileAll`, `calculateSummary`, `createAuditReport` |
| `reporting.dfy` | `Reporting` | `formatResultLine`, `generateTextReport`, `generateReport` |

What the parsing libraries produce is an input to each parser:

- dotenv, through `Object.entries`, yields the `(key, value)` entries; their order is an input too (see "## Left out").
- csv-parse yields rows with an optional `food` and `quantity` cell, plus the raw content for the blank-file check.
- `JSON.parse` yields a `Json` value.

Each of these is wrapped in a `Result` whose failure carries the library's message. Each parser then returns `Failed("<file> file", message)`, which is the source's `Failed to parse <file> file: <message>`.

The clock is also an input: `createAuditReport` takes the time already rendered as ISO text. The JSON rendering of a report is an input of `GenerateReport`.

Numbers are exact. A parsed number is `Decimal(mantissa, scale)`, meaning `mantissa / 10^scale`. Integer quantities are `int`, so there is no overflow and no floating-point rounding.

Three behaviours of the code one might not expect, which the model keeps:

- **Quotes.** The quote-stripping expression `/^["'](.*)["']$/` removes one quote at each end even when the two quotes differ (`"5'` reads as 5). It strips nothing when the text between the quotes holds a line terminator. See `DeliveryParser.StripQuotes` and `DeliveryParser.QuotedDigitsAreValid`.
- **Inventory.** `parseInventoryFile` rejects the whole file when any element fails the schema; no element is skipped on its own.
- **Empty numbers.** `Number` reads empty text as 0. So a delivery value that is only a pair of quotes is delivered as 0 (`DeliveryParser.EmptyQuotesAreZero`). A usage row with an empty quantity cell is used as 0.

## Model

| member | source | states |
|---|---|---|
| Types.StatusOf | src/lib/types.ts:40-43 | every result has exactly one of the three statuses, the one of its variant |
| Results.Get | src/services/reconciliation/reconciliation.service.ts:56-58 | `Map.get` finds a value exactly when the key is in the map, and it is the stored value |
| Text.Trim | src/parsers/delivery.parser.ts:15 | trimmed text neither starts nor ends with whitespace; that it is the middle of the input is `Text.TrimIsSlice` |
| Text.TrimIsSlice | src/parsers/delivery.parser.ts:15 | trimming keeps the middle of the text: the result is a slice of the input and only whitespace is dropped at either end |
| Text.TrimKeepsFirst | src/parsers/delivery.parser.ts:15 | text that starts with a non-whitespace character still starts with it after trimming |
| Text.ToLower | src/parsers/delivery.parser.ts:32 | same length, each character mapped by the ASCII lower-case mapping; `Text.ToLowerIsLower` shows the result is lowercase and lowercasing idempotent |
| Text.Join | src/services/reporting/reporting.service.ts:53 | a one-element join is that element; `Text.SplitJoin` and `Text.JoinWithout` carry its round trip and what characters it can hold |
| Text.TrimBlank | src/parsers/delivery.parser.ts:11 | text trims to nothing exactly when it is all whitespace |
| Text.TrimUnpadded | src/parsers/delivery.parser.ts:15 | text with no whitespace at either end is left unchanged by trimming |
| Text.ToLowerIsLower | src/parsers/delivery.parser.ts:32 | lowercasing yields lowercase text and is idempotent |
| Text.SplitJoin | src/services/reporting/reporting.service.ts:53 | pieces joined with a separator they do not contain split back into the same pieces |
| Numbers.Decimal.Floor | src/parsers/usage.parser.ts:36 | `Math.floor` gives the greatest integer not above the number; it is not negative for a non-negative number and exact for an integer |
| Numbers.Decimal.IsInteger | src/parsers/delivery.parser.ts:19 | `Number.isInteger`; `Numbers.IntegerAndSign` shows it holds exactly when the number equals its floor |
| Numbers.Decimal.IsNegative | src/parsers/usage.parser.ts:31 | `x < 0`, false for `-0`; `Numbers.IntegerAndSign` shows it holds exactly when the floor is negative |
| Numbers.IntegerAndSign | src/parsers/delivery.parser.ts:19 | a number is an integer exactly when it equals its floor, and negative exactly when its floor is negative |
| Numbers.ParseNumberDigits | src/parsers/delivery.parser.ts:17 | `Number` reads a digit string as its decimal value |
| Numbers.NatToStringRoundTrip | src/parsers/delivery.parser.ts:17 | the decimal text of a natural number reads back as that number |
| Numbers.IntToStringRoundTrip | src/services/reporting/reporting.service.ts:13 | the text a template literal writes for an integer reads back as that integer, sign included |
| Numbers.NatToString | src/services/reporting/reporting.service.ts:37 | the text `${n}` writes for a count: at least one character, all digits; `Numbers.NatToStringRoundTrip` reads it back |
| Numbers.IntToString | src/services/reporting/reporting.service.ts:13 | the text `${n}` writes for an integer: digits and a minus sign, which comes first exactly when the integer is negative; `Numbers.IntToStringRoundTrip` reads it back |
| Numbers.PlusSignRoundTrip | src/parsers/delivery.parser.ts:17 | `Number` accepts a leading `+` |
| Numbers.ParseNumber | src/parsers/delivery.parser.ts:17 | `Number(text)` on decimal text; what it reads is stated by `Numbers.ParseNumberDigits`, `Numbers.ParseOneDecimal`, `Numbers.PlusSignRoundTrip`, `Numbers.IntToStringRoundTrip` and `Numbers.LowerLetterIsNaN` |
| Numbers.LowerLetterIsNaN | src/parsers/usage.parser.ts:29-31 | text that starts with a lower-case letter reads as `NaN` |
| Numbers.ParseOneDecimal | src/parsers/usage.parser.ts:29 | `Number` reads `a.b` as the decimal (10a + b) / 10 |
| Folds.FilterMap | src/parsers/delivery.parser.ts:31-39 | the skip-tolerant record loop keeps no more records than rows; `Folds.FilterMapMember` and `Folds.FilterMapConcat` carry what it keeps and in what order |
| Folds.LastWins | src/parsers/delivery.parser.ts:48-54 | the map a `map.set` loop builds; `Folds.LastWinsKeys` and `Folds.LastWinsValue` carry its keys and values |
| Folds.FilterMapMember | src/parsers/delivery.parser.ts:31-39 | a record is kept exactly when some input row yields it |
| Folds.FilterMapConcat | src/parsers/usage.parser.ts:27-37 | the record loop preserves input order: filtering distributes over concatenation |
| Folds.LastWinsKeys | src/parsers/delivery.parser.ts:48-54 | the keys of a `map.set` loop's map are exactly the items of the records |
| Folds.LastWinsValue | src/parsers/delivery.parser.ts:50-52 | each item maps to the quantity of its last record |
| DeliveryParser.InvalidQuantityReason | src/parsers/delivery.parser.ts:20 | the reason quotes the raw, untrimmed value between `invalid quantity: "` and `"` |
| DeliveryParser.StripQuotes | src/parsers/delivery.parser.ts:16 | exactly when the text has a quote of either kind at each end (the two need not match) and no line terminator between them, both quotes are removed; otherwise the text is unchanged |
| DeliveryParser.ParsePropertyValue | src/parsers/delivery.parser.ts:10-24 | absent or blank gives missing "empty value in delivery file"; otherwise valid exactly when the trimmed, unquoted text is a non-negative integer, with that value; every other value is missing with the invalid-quantity reason |
| DeliveryParser.PropertyValueOfNumber | src/parsers/delivery.parser.ts:17-23 | once the unquoted text reads as a number, the value is its floor when it is a non-negative integer, else missing with the invalid-quantity reason |
| DeliveryParser.DigitsAreValid | src/parsers/delivery.parser.ts:15-23 | a plain digit string is delivered as its value |
| DeliveryParser.QuotedDigitsAreValid | src/parsers/delivery.parser.ts:16 | a digit string between any two quotes is delivered as its value |
| DeliveryParser.NegativeIsInvalid | src/parsers/delivery.parser.ts:19-20 | a negative number is missing, quoting the raw text |
| DeliveryParser.FractionIsInvalid | src/parsers/delivery.parser.ts:19-20 | a one-digit fraction that is not whole (`2.5`) is missing, quoting the raw text |
| DeliveryParser.EmptyQuotesAreZero | src/parsers/delivery.parser.ts:16-17 | a value of two quotes and nothing else is delivered as 0 |
| DeliveryParser.NormalizeItem | src/parsers/delivery.parser.ts:32-33 | the item name is empty exactly when the key is blank; it is lowercase with no whitespace at either end |
| DeliveryParser.EntryToRecord | src/parsers/delivery.parser.ts:32-38 | one entry's record, or none when its key is blank; `DeliveryParser.EntryToRecordSome` states both directions |
| DeliveryParser.EntryToRecordSome | src/parsers/delivery.parser.ts:32-38 | an entry yields a record exactly when its key is not blank, and the record is the normalised key with the parsed value; its name is non-empty, lowercase and trimmed |
| DeliveryParser.ParseDeliveryFile | src/parsers/delivery.parser.ts:26-46 | a library failure fails the file; otherwise the records are the entries with non-blank keys, in entry order |
| DeliveryParser.DeliveryRecordsFromEntries | src/parsers/delivery.parser.ts:31-39 | a record is present exactly when some entry with a non-blank key yields it; every name is non-empty, lowercase and trimmed |
| DeliveryParser.CreateDeliveryMap | src/parsers/delivery.parser.ts:48-54 | the map's keys are the record items and each maps to its last record's quantity |
| UsageParser.UsageRowToRecord | src/parsers/usage.parser.ts:28-36 | a row is kept exactly when its food is present and non-empty and its quantity is a number that is not negative; the item is lowercased and the quantity floored, so it is not negative |
| UsageParser.CellNumber | src/parsers/usage.parser.ts:29 | `Number(row.quantity)`: an absent cell is `undefined` and reads as `NaN`; `UsageParser.UsageRowToRecord` and `UsageParser.NegativeOrMissingQuantitySkipped` carry what it decides |
| UsageParser.ParseUsageFile | src/parsers/usage.parser.ts:15-44 | blank content is an empty log; a library failure fails the file; otherwise the accepted rows' records in row order, duplicates kept |
| UsageParser.UsageRecordsAccepted | src/parsers/usage.parser.ts:27-37 | each usage record comes from an accepted row and has a non-empty item and a non-negative quantity |
| UsageParser.FractionalUsageIsFloored | src/parsers/usage.parser.ts:28-36 | a one-digit fraction such as `2.7` is kept and floored to its whole part (2), with the food lowercased |
| UsageParser.NegativeOrMissingQuantitySkipped | src/parsers/usage.parser.ts:29-34 | a negative quantity, an absent quantity cell, or a quantity that is not a number (text starting with a lower-case letter) skips the row |
| UsageParser.TotalFor | src/parsers/usage.parser.ts:46-53 | the sum of one item's quantities, an independent definition the loop is checked against; `UsageParser.TotalForAbsent` and `UsageParser.TotalForNonNegative` carry its properties |
| UsageParser.UsageTotals | src/parsers/usage.parser.ts:46-53 | the map the `aggregateUsage` loop leaves; `UsageParser.UsageTotalsSum` ties it to `TotalFor` |
| UsageParser.UsageTotalsSum | src/parsers/usage.parser.ts:46-53 | the totals are keyed by exactly the records' items, and each is the sum of that item's quantities |
| UsageParser.TotalForAbsent | src/parsers/usage.parser.ts:49 | an item no record names totals 0 |
| UsageParser.TotalForNonNegative | src/parsers/usage.parser.ts:46-53 | non-negative quantities give non-negative totals |
| UsageParser.TwoRecordsTotal | src/parsers/usage.parser.ts:46-53 | records of 8 and 12 for one item total 20 |
| UsageParser.AggregateUsage | src/parsers/usage.parser.ts:46-53 | the loop's map is keyed by the records' items, each item maps to its sum, and totals are non-negative when the quantities are |
| InventoryParser.ItemRecord | src/parsers/inventory.parser.ts:27-30 | a validated element's record has its item lowercased (still non-empty) and its quantity floored (not negative) |
| InventoryParser.IsInventoryItem | src/parsers/inventory.parser.ts:10-13 | the element schema: an object with a string `item` of at least one character and a number `quantity` that is not negative, other fields allowed; `InventoryParser.ParseInventoryFile`, `InventoryParser.ItemRecord` and `InventoryParser.EmptyItemOrNegativeQuantityFails` carry what it decides |
| InventoryParser.IsInventoryDocument | src/parsers/inventory.parser.ts:15 | the file schema: an array whose every element fits the element schema; `InventoryParser.ParseInventoryFile` succeeds exactly when it holds |
| InventoryParser.ParseInventoryFile | src/parsers/inventory.parser.ts:17-37 | unparsable JSON fails the file; it succeeds exactly when the document is an array whose every element fits the schema, else the whole file is invalid; on success one record per element, in order; an empty array is an empty inventory |
| InventoryParser.EmptyItemOrNegativeQuantityFails | src/parsers/inventory.parser.ts:10-25 | one element with an empty item or a negative quantity fails the file, however good the others are |
| InventoryParser.CreateInventoryMap | src/parsers/inventory.parser.ts:39-45 | the map's keys are the record items and each maps to its last record's quantity |
| Ordering.LexLess | src/services/reconciliation/reconciliation.service.ts:52 | the default sort order on names; the four lemmas below show it is a strict total order |
| Ordering.LexLessIrreflexive | src/services/reconciliation/reconciliation.service.ts:52 | no name sorts before itself |
| Ordering.LexLessTransitive | src/services/reconciliation/reconciliation.service.ts:52 | the sort order is transitive |
| Ordering.LexLessTotal | src/services/reconciliation/reconciliation.service.ts:52 | any two different names are ordered |
| Ordering.LexLessAsymmetric | src/services/reconciliation/reconciliation.service.ts:52 | never both orders |
| Ordering.Least | src/services/reconciliation/reconciliation.service.ts:52 | finds the name of a non-empty set that sorts before all the others |
| Ordering.SortItems | src/services/reconciliation/reconciliation.service.ts:52 | sorting a set gives its names, each once, in strictly ascending order |
| Ordering.AscendingUnique | src/services/reconciliation/reconciliation.service.ts:52 | a set of names has exactly one strictly ascending arrangement |
| Reconciliation.ReconcileItem | src/services/reconciliation/reconciliation.service.ts:8-32 | no delivery gives unknown "no delivery record"; a missing delivery gives unknown with its reason, before inventory is looked at; no inventory gives unknown "no inventory record"; otherwise expected = delivered − used and the item is ok exactly when the count equals it, else a discrepancy with difference = actual − expected ≠ 0 |
| Reconciliation.ReconcileBalances | src/services/reconciliation/reconciliation.service.ts:23-31 | with complete data, delivered = used + actual − difference (difference 0 when ok) |
| Reconciliation.OverUseIsNotClamped | src/services/reconciliation/reconciliation.service.ts:23-31 | expected may be negative: it is not clamped at zero |
| Reconciliation.AddKeys | src/services/reconciliation/reconciliation.service.ts:40-42 | one key-adding loop leaves the set holding its keys as well |
| Reconciliation.CollectAllItems | src/services/reconciliation/reconciliation.service.ts:34-44 | the items are exactly the union of the three maps' keys |
| Reconciliation.ReconcileKey | src/services/reconciliation/reconciliation.service.ts:56-60 | the result of a key carries that key and is reconciled from its delivery, use and count; an item nobody used is reconciled with used = 0 |
| Reconciliation.ReconcileAll | src/services/reconciliation/reconciliation.service.ts:46-64 | one result per key of the union and no other, as many as the union has keys, in strictly ascending item order, each reconciled from that item's entries |
| Reconciliation.ReconciledAllUnique | src/services/reconciliation/reconciliation.service.ts:51-55 | the results are determined by the maps alone, not by the order in which the keys were collected |
| Reconciliation.ReconciledAllCovers | src/services/reconciliation/reconciliation.service.ts:51-63 | every key of any map has a result that is its reconciliation, and no item has two |
| Reconciliation.CountOf | src/services/reconciliation/reconciliation.service.ts:66-85 | the number of results of one status, at most the number of results; `Reconciliation.CountsPartition` adds the three up |
| Reconciliation.CountsPartition | src/services/reconciliation/reconciliation.service.ts:66-85 | the ok, discrepancy and unknown counts add up to the number of results |
| Reconciliation.CalculateSummary | src/services/reconciliation/reconciliation.service.ts:66-86 | the total is the number of results, each count is the number of results of its status, and the counts add up to the total |
| Reconciliation.CreateAuditReport | src/services/reconciliation/reconciliation.service.ts:88-103 | the report carries the given time, the reconciled results and exactly their counts |
| Reporting.FormatResultLine | src/services/reporting/reporting.service.ts:7-18 | the item, `: ` and the verdict; `Reporting.LineStatusOfFormat`, `Reporting.DiscrepancySign` and `Reporting.UnknownReason` carry what the line says |
| Reporting.Verdict | src/services/reporting/reporting.service.ts:9-16 | what a line says after the colon: `OK`, `DISCREPANCY ` with the signed difference and the expectation, or `UNKNOWN (` with the reason; `Reporting.LineStatusOfFormat`, `Reporting.DiscrepancySign`, `Reporting.ExpectationNumbers` and `Reporting.UnknownReason` carry it |
| Reporting.DifferenceText | src/services/reporting/reporting.service.ts:12-13 | the difference starts with `+` exactly when it is positive, with `-` exactly when it is negative |
| Reporting.DifferenceTextRoundTrip | src/services/reporting/reporting.service.ts:12-13 | the signed difference reads back as the difference |
| Reporting.LineStatusOfFormat | src/services/reporting/reporting.service.ts:7-18 | a result line starts with the item and a colon, and the word after it names the result's status |
| Reporting.DiscrepancySign | src/services/reporting/reporting.service.ts:11-14 | after `DISCREPANCY ` comes the difference, with a `+` exactly when it is positive, reading back as the difference; the rest of the line is the expectation tail |
| Reporting.ExpectationNumbers | src/services/reporting/reporting.service.ts:13 | the tail is ` (expected: `, the expected quantity, `, actual: `, the counted quantity and `)`, and both numbers read back |
| Reporting.UnknownReason | src/services/reporting/reporting.service.ts:15-16 | an unknown line carries the reason verbatim between `UNKNOWN (` and `)` |
| Reporting.DiscrepancyPart | src/services/reporting/reporting.service.ts:37 | `N discrepancy found` or `N discrepancies found`; `Reporting.DiscrepancyPartWords` states its words |
| Reporting.UnknownPart | src/services/reporting/reporting.service.ts:41 | `N item with missing data` or `N items with missing data`; `Reporting.UnknownPartWords` states its words |
| Reporting.DiscrepancyPartWords | src/services/reporting/reporting.service.ts:36-38 | the discrepancy part's first word reads back as the count, and the noun is `discrepancy` exactly when the count is 1, `discrepancies` otherwise, and the last word is `found` |
| Reporting.UnknownPartWords | src/services/reporting/reporting.service.ts:40-42 | the missing-data part's first word reads back as the count, and the noun is `item` exactly when the count is 1, `items` otherwise, and the words `with`, `missing`, `data` close it |
| Reporting.SummaryParts | src/services/reporting/reporting.service.ts:34-42 | one part for each count that is not zero: the discrepancy part first, the missing-data part last |
| Reporting.SummaryLine | src/services/reporting/reporting.service.ts:44-48 | the all-OK sentence or `Summary: ` and the parts joined with `, `; `Reporting.SummaryAllOk` and `Reporting.SummarySingle` carry its properties |
| Reporting.SummaryText | src/services/reporting/reporting.service.ts:33-48 | the summary line the report method builds is `SummaryLine` |
| Reporting.SummaryAllOk | src/services/reporting/reporting.service.ts:44-48 | the summary line is "Summary: All items OK! No discrepancies found." exactly when both counts are zero, and otherwise a count follows `Summary: ` |
| Reporting.PushResultLines | src/services/reporting/reporting.service.ts:27-29 | the loop appends one line per result, in result order |
| Reporting.ResultLines | src/services/reporting/reporting.service.ts:27-29 | one line per result, in result order |
| Reporting.ReportLines | src/services/reporting/reporting.service.ts:21-51 | the lines `generateTextReport` pushes; `Reporting.ReportLayout` states where each sits |
| Reporting.ReportLayout | src/services/reporting/reporting.service.ts:23-51 | the three header lines, the result lines in order, a blank line, the summary, a blank line, the generation time |
| Reporting.GenerateTextReport | src/services/reporting/reporting.service.ts:20-54 | the text is the report's lines joined with newlines |
| Reporting.SummarySingle | src/services/reporting/reporting.service.ts:44-48 | the summary line holds no newline |
| Reporting.TextReport | src/services/reporting/reporting.service.ts:53 | the lines joined with newlines; `Reporting.TextReportLines` splits them back, and `Reporting.GenerateTextReport` is proved equal to it |
| Reporting.TextReportLines | src/services/reporting/reporting.service.ts:53 | when no item, reason or timestamp holds a newline, splitting the text at newlines gives back exactly its lines |
| Reporting.GenerateReport | src/services/reporting/reporting.service.ts:60-67 | the text format gives the text report and the JSON format gives the JSON rendering |

## Left out

- Parsing libraries. The model leaves out dotenv's line grammar (comments, `=` splitting, its own quote handling, duplicate keys), csv-parse's header mapping, quoting and cell trimming, and `JSON.parse` itself. They are foreign code; what each yields is an input.
- zod's error messages. An inventory that fails the schema gives `InvalidInventoryFormat` without the message text.
- `Number` is modelled on decimal text only: an optional sign, digits, an optional fraction, surrounding whitespace, and empty text read as 0. Exponents (`1e3`), hexadecimal, binary and octal literals, and `Infinity` read as `NaN` in the model, but as numbers in JavaScript.
- Floating point. Quantities are exact. Rounding of long decimals, `-0`, values beyond 2^53 and `JSON.parse` turning a huge literal into `Infinity` are not modelled.
- Text.ToLower: lowercases ASCII letters only; `toLowerCase` also maps other letters.
- Ordering.LexLess: compares Unicode code points, while `sort` compares UTF-16 code units. The two differ only for names that mix characters above U+FFFF with characters from U+E000 to U+FFFF.
- Ordering.SortItems: the engine's sorting algorithm is not modelled. Only its result is: the one ascending arrangement.
- DeliveryParser.ParseDeliveryFile: takes dotenv's entries in the order it is given. `Object.entries` lists integer-like keys first in ascending order, and dotenv keeps one value per repeated key; neither is modelled, so the record order is the order of the given entries.
- Reconciliation.CollectAllItems: the three loops visit keys in an arbitrary order, not in map insertion order. The result is a set either way.
- Logging, including the `logger.debug`, `info` and `warn` calls. They are side effects only.
- The clock and ISO formatting. `createAuditReport` receives a `Timestamp` holding the ISO text instead of calling `new Date()`, and `toISOString` is not modelled.
- `generateJsonReport`. The `JSON.stringify` output is a parameter of `GenerateReport`.
- The catch branches for exceptions other than a library failure. Every such failure is the library's `Failure`.
- Orchestration and I/O. `src/services/audit/audit.service.ts`, `src/main.ts`, `src/lib/cli.ts`, `src/lib/logger.ts` and `src/lib/file-reader.ts` are not part of this model.
