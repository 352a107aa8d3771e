# trace-pay: verified models of the payment rules and their surroundings

Dafny models of the parts of trace-pay whose correctness is an argument rather than a lookup, and
proofs of what those parts are for. `dafny verify dfyconfig.toml` checks the whole project.

| files | what they model |
|---|---|
| `Text`, `Numerals`, `Invoices` | comparable strings (`key`, `iban`), decimal numerals, the entities of the rules |
| `EditDistance`, `AccountRules` | the rolling-row Levenshtein distance; rules R02, R03, R04, R17 |
| `Amounts`, `OrderRules`, `BatchSafety` | half-up cents and their tolerance; R01, R05, R07, R08, R10, R13 to R16; the safety of a batch |
| `Bench` | synthetic copies of a population and the duplicate index |
| `UploadPool` | the worker pool of the web client, over every interleaving |
| `Spans`, `SpanOrder`, `Breaker` | the span recorder over every run of several contexts, and the order of its rows; the write breaker |
| `Money`, `Dates` | the amount and date normalisers, `date_of` and R11 |
| `Bytes`, `Route`, `Migration` | the route insertion and migration 0008, with their inverses |
| `HiringPolicy`, `HiringFactory`, `HiringMock`, `HiringTables` | the hiring answer key: the policy, the generator, and why they agree |

Code that the source runs as loops over variables is a method here, proved against a function; the
protocols are classes whose methods are proved against the step functions the lemmas on runs use.
Amounts are reals and stand for finite decimals. Draws, ids, clocks, server answers and database
outcomes are arbitrary arguments. Strings are over an alphabet whose only whitespace is the space and
whose only letters with two cases are a-z.

## What the proofs found

- **An order reference of separators only** (such as `-`) is present for R01 and has an empty key for
  R05, R07, R13, R15 and R16, which all pass: such invoices are clean however many there are. Being
  clean guards an order exactly when its key is not empty (`BatchSafety.GuardedIffKey`).
- **An order row without an amount** lets any total through R07. What a clean invoice may charge is
  bounded by its order exactly when the row it is compared with states an amount
  (`BatchSafety.BoundedIffRowStated`).
- **The one-cent tolerance** accepts every pair of amounts at most a cent apart except half a cent owed
  against half a cent due (`Amounts.OneCentApartMatches`). Four tolerances in a row stay strictly
  within six cents, because the cents of the total and of the order cancel; 4.5 in whole cents. Both
  bounds are tight over finite decimals.
- **`copies`** says its copies change no duplicate. For every number of entries that holds exactly when
  no copied key meets a base key outside existing duplicates, at most one copied order is bare
  separators, and the cut copy keeps a twin for each duplicate in it (`Bench.CopiesKeepDuplicates`).
- **"Children before parents"** is a law of nesting. In nested runs it holds of a child exactly when its
  parent is the current span or around it (`SpanOrder.ChildRowFirstIff`); any other explicit parent,
  ended or open, may have its row first, as two runs show. Where contexts outlive spans it holds exactly
  when the parent is an open span of the child's own context or the outermost of the list
  (`SpanOrder.ChildRowFirstInAnyRunIff`).
- **A status of `error`** means an exception left the span or its block assigned it, as
  `unhandled_error` does (`Spans.ExitRestoresCurrent`).
- **The write breaker** opens on every OperationalError, which covers more than a database that cannot
  be reached, and a `_write` raises exactly when what interrupts the insert is no Exception.
- **Migration 0008** gives every row back exactly when no cost-free row carries its marker and the
  clean-up deletes nothing. `NOT IN` an empty table holds of NULL references too, so a database
  without instances, or without processes, loses all its events in the downgrade
  (`Migration.EmptyTableLosesEveryEvent`).
- **`date_of`** catches ValueError only: a part beyond a C int raises OverflowError. R11 fires exactly on
  the dates that name no day, for every date without such a part, and raises on every date with one
  (`Dates.R11KeepsItsRuleIff`).
- **The hiring generator** meets its answer key for every draw and a table of counts if and only if
  DUPLICATE_CANDIDATE is not asked for exactly once: a lone duplicate is a clean candidate.

## Model

| member | source | states |
|---|---|---|
| Text.KeyConcat | processes/rules-v3/r01-symbols-present.py:14-16 | The key of two texts written together is their keys written together: the strip that opens `key` is absorbed by the removal of spaces |
| Text.KeyOfOne | processes/rules-v3/r01-symbols-present.py:14-16 | The key of one character: nothing for a space, hyphen or point, its capital otherwise; with KeyConcat, the key of any text |
| Text.IbanConcat | processes/rules-v3/r03-master-iban.py:19-20 | The comparable form of two texts written together is their forms written together |
| Text.IbanOfOne | processes/rules-v3/r03-master-iban.py:19-20 | A space is dropped, any other character becomes its capital; with IbanConcat, the form of any account |
| Text.SameIbanIff | processes/rules-v3/r03-master-iban.py:19-20 | Two accounts have one comparable form iff they differ in spaces and in the case of letters only |
| Text.CaseOfLetters | processes/rules-v3/r01-symbols-present.py:14-16 | Upper and lower case exchange the letters of the two alphabets and leave every other character |
| Text.TextOfIs | processes/rules-v3/r01-symbols-present.py:5-7 | The comparable text is what stands between the spaces at the ends of a value, nothing for an absent or blank one, which alone are empty |
| EditDistance.Differences | processes/rules-v3/r17-iban-near-miss.py:58-69 | The two-row loop computes the bottom-right entry of the full edit-distance table |
| EditDistance.NextRow | processes/rules-v3/r17-iban-near-miss.py:65-67 | From one row of the table the inner loop makes the next, every entry of it |
| EditDistance.DistanceIsLeastScript | processes/rules-v3/r17-iban-near-miss.py:58-60 | A number is the distance iff some script of that many single-character insertions, deletions and substitutions turns one text into the other and no shorter script does |
| EditDistance.ScriptExists | processes/rules-v3/r17-iban-near-miss.py:58-69 | A script as long as the distance exists, built along the table |
| EditDistance.NoShorterScript | processes/rules-v3/r17-iban-near-miss.py:58-69 | Every script that turns one text into the other is at least as long as the distance |
| EditDistance.ZeroIffEqual | processes/rules-v3/r03-master-iban.py:58-69 | No difference means the same text, and conversely: the shortcut of the first line agrees with the table |
| EditDistance.Symmetric | processes/rules-v3/r03-master-iban.py:58-69 | The distance does not depend on which identifier comes first |
| EditDistance.Triangle | processes/rules-v3/r03-master-iban.py:58-69 | Going through a third text is never shorter |
| EditDistance.AtLeastLengthGap | processes/rules-v3/r03-master-iban.py:58-69 | The distance is at least the difference of the lengths |
| EditDistance.AtMostLongerLength | processes/rules-v3/r03-master-iban.py:58-69 | The distance is at most the longer length |
| EditDistance.AtMostHamming | processes/rules-v3/r03-master-iban.py:58-69 | On texts of one length, at most the number of positions that disagree |
| EditDistance.HammingIs | processes/rules-v3/r17-iban-near-miss.py:65-67 | The count behind that bound is the number of positions at which the texts disagree |
| AccountRules.EvaluateR03 | processes/rules-v3/r03-master-iban.py:89-100 | R03 as it runs fires iff the master approves an account more than four edits away |
| AccountRules.EvaluateR17 | processes/rules-v3/r17-iban-near-miss.py:89-104 | R17 as it runs fires iff the approved account is one to four edits away |
| AccountRules.PairsDisagree | processes/rules-v3/r04-inconsistent-master.py:59-64 | The (id, account) pairs of R04 disagree iff the ids or the accounts `approved_account` collects do |
| AccountRules.NoApprovedAccount | processes/rules-v3/r17-iban-near-miss.py:72-86 | The master approves no account iff the invoice lacks a NIF key or an IBAN, or R02 fires, or R04 fires |
| AccountRules.ApprovedByEveryRow | processes/rules-v3/r17-iban-near-miss.py:79-86 | The approved account is the account of every row of that supplier |
| AccountRules.R04Iff | processes/rules-v3/r04-inconsistent-master.py:54-66 | R04 fires iff two rows of the supplier have different ids or different accounts |
| AccountRules.BothPassIffSameAccount | processes/rules-v3/r03-master-iban.py:89-100 | Where the master approves an account, R03 and R17 both pass iff the printed account and the master's differ in spaces and case only |
| AccountRules.FiveWayPartition | processes/rules-v3/r17-iban-near-miss.py:72-104 | R02, R04, same account, R17, R03: exactly one holds iff the NIF key is not empty and there is an IBAN, or R02 or R04 fires |
| AccountRules.RefusedIffFarFromApproved | processes/rules-v3/r03-master-iban.py:89-100 | R03 fires iff there is an approved account that no script of four edits reaches from the invoice's |
| AccountRules.MisreadingIsReadAgain | processes/rules-v3/r17-iban-near-miss.py:89-104 | Whatever at most four edits make of the approved account never fires R03, and fires R17 unless it is that account |
| Amounts.HalfUpIsNearest | processes/rules-v3/r01-symbols-present.py:23-24 | The rounding gives n iff n is a nearest whole number and, of two, the one farther from zero |
| Amounts.MatchIsUnderTwoCents | processes/rules-v3/r01-symbols-present.py:27-29 | Amounts that match differ by strictly less than two cents |
| Amounts.OneCentApartMatches | processes/rules-v3/r01-symbols-present.py:27-29 | Amounts at most a cent apart match iff they are not the pair 0.005 and -0.005 |
| Amounts.MatchesSymmetric | processes/rules-v3/r01-symbols-present.py:27-29 | The tolerance does not depend on the order of the amounts |
| Amounts.ToleranceChain | processes/rules-v3/r14-erp-matches-orders.py:69-72 | Through R14, R07, R10 and R08, the ERP amount is strictly within six cents of base plus exact VAT |
| Amounts.ToleranceChainInWholeCents | processes/rules-v3/r14-erp-matches-orders.py:69-72 | With whole-cent amounts, within 4.5 cents |
| Amounts.WholeCentBoundIsReached | processes/rules-v3/r08-correct-vat.py:60-64 | Some whole-cent amounts pass all four rules 4.5 cents apart |
| Amounts.SixCentBoundIsApproached | processes/rules-v3/r08-correct-vat.py:60-64 | For every number of places from three on, decimals with that many places, at a rate of 10, pass all four rules 6 cents less 2.1 units of the last place apart |
| Amounts.NothingLessBounds | processes/rules-v3/r14-erp-matches-orders.py:69-72 | Whatever bound below six cents is named, some finite decimals pass all four rules farther apart |
| OrderRules.LastIndex | processes/rules-v3/r07-order-amount.py:59-62 | A loop that keeps overwriting ends on the last matching row: the row matches and no later one does |
| OrderRules.FindOrder | processes/rules-v3/r07-order-amount.py:59-62 | The loop over the orders ends on the last row with the key, or on none |
| OrderRules.FindEntry | processes/rules-v3/r15-order-already-paid.py:59-62 | The loop over the ERP ends on the last entry with the key, or on none |
| OrderRules.EvaluateR07 | processes/rules-v3/r07-order-amount.py:54-70 | R07 as it runs compares the total with the last row of the order, and raises on an amount that is no number |
| OrderRules.EvaluateR13 | processes/rules-v3/r13-entry-in-erp.py:54-68 | R13 as it runs fires iff the order is known and accounting has no entry for it |
| OrderRules.EvaluateR14 | processes/rules-v3/r14-erp-matches-orders.py:54-80 | R14 as it runs fires iff the last row and the last entry differ, and lists in which columns |
| OrderRules.Disagree | processes/rules-v3/r14-erp-matches-orders.py:69-80 | The list of differences: amount beyond tolerance, supplier, NIF, in that order; raising only on a garbled amount |
| OrderRules.EvaluateR15 | processes/rules-v3/r15-order-already-paid.py:54-68 | R15 as it runs fires iff the last entry states a status other than PENDIENTE |
| OrderRules.R01Iff | processes/rules-v3/r01-symbols-present.py:54-59 | R01 fires iff one of the eight symbols is missing, and passes otherwise |
| OrderRules.R05Iff | processes/rules-v3/r05-order-exists.py:54-62 | R05 fires iff no row of the orders has the invoice's order |
| OrderRules.R07Iff | processes/rules-v3/r07-order-amount.py:54-70 | R07 compares the total, in cents and within one, with the last row of the order, where both state an amount; it raises iff one of them is garbled |
| OrderRules.R08Iff | processes/rules-v3/r08-correct-vat.py:54-65 | R08 compares the printed VAT with base times rate rounded half up to cents, where all three are stated |
| OrderRules.R10Iff | processes/rules-v3/r10-total-adds-up.py:54-62 | R10 compares the total with base plus VAT, where all three are stated |
| OrderRules.R13Iff | processes/rules-v3/r13-entry-in-erp.py:54-68 | R13 fires iff some row of the orders has the order and no row of the ERP does |
| OrderRules.R14Iff | processes/rules-v3/r14-erp-matches-orders.py:54-80 | R14 compares the last row and the last entry, raises on a garbled amount where both state one, and fires iff a column differs |
| OrderRules.DifferencesAre | processes/rules-v3/r14-erp-matches-orders.py:69-76 | The columns listed: amounts more than a cent apart, different supplier ids, NIFs stated on both sides with different keys, in that order |
| OrderRules.R15Iff | processes/rules-v3/r15-order-already-paid.py:54-68 | R15 fires iff the order has an entry and the last one's status is neither blank nor the nine letters of PENDIENTE in whatever case |
| OrderRules.R16Iff | processes/rules-v3/r16-duplicate-order.py:54-66 | R16 fires iff another invoice has the same order key |
| OrderRules.PassingAmountsAgree | processes/rules-v3/r14-erp-matches-orders.py:54-80 | When R07, R08, R10 and R14 pass with every amount stated, the ERP amount is within six cents of base plus VAT |
| BatchSafety.NobodyElseCharges | processes/rules-v3/r16-duplicate-order.py:54-66 | The order of a payable invoice is no other invoice's of the batch |
| BatchSafety.AccountingAwaitsPayment | processes/rules-v3/r15-order-already-paid.py:54-68 | A payable invoice's order has an ERP entry, and the last one states no status or one that reads PENDIENTE, letter by letter |
| BatchSafety.AsksForWhatWasOrdered | processes/rules-v3/r07-order-amount.py:54-70 | A clean invoice charges at most a cent more than the last row of its order, if that row states an amount |
| BatchSafety.BatchPaymentSafety | processes/rules-v3/r07-order-amount.py:54-70 | Over any batch and sources: distinct orders, each pending in accounting; and, where the rows compared with state amounts, the sum of totals at most the sum of those rows plus a cent per invoice |
| BatchSafety.NotMoreThanWasOrdered | processes/rules-v3/r07-order-amount.py:54-70 | Hence at most all that was ordered, provided no row that nobody charges states a negative amount |
| BatchSafety.SeparatorsPassEveryOrderRule | processes/rules-v3/r16-duplicate-order.py:56-58 | With an empty order key, the order rules all pass iff R01 does |
| BatchSafety.GuardedIffKey | processes/rules-v3/r16-duplicate-order.py:54-66 | For an invoice R01 passes: whatever the batch and the sources, clean means that nobody else charges its order and accounting has it pending, iff its order key is not empty |
| BatchSafety.DashIsAnOrderToR01 | processes/rules-v3/r01-symbols-present.py:54-59 | R01 takes a dash for an order reference, and its key is empty |
| BatchSafety.BlankOrderAmountPassesAnyTotal | processes/rules-v3/r07-order-amount.py:63-64 | Where the last row of the order states no amount, a clean invoice stays clean with any total |
| BatchSafety.BoundedIffRowStated | processes/rules-v3/r07-order-amount.py:54-70 | Every number a clean invoice with a key stays clean with as its total is within a cent of its row or below, iff that row states an amount; and then it stays clean with nothing but such numbers |
| Bench.Copies | tools/bench_scale.py:140-152 | Entry i is copy i // len(base) of member i % len(base): `c<c>-` before the name, `-C<c>` after an order that is not empty, all else the same, and copy 0 the member itself |
| Bench.KeyOfCopy | tools/bench_scale.py:146-149 | The key of a copied order is the original's followed by C and the numeral; without an order it stays empty |
| Bench.SuffixIsReadable | tools/bench_scale.py:149 | Two suffixed keys are equal only if the keys and the numerals are: the last C marks the suffix |
| Bench.CopiesKeepDuplicates | tools/bench_scale.py:140-152 | For every base and every number of entries, whole copies or not: each entry fires R16 exactly as its original iff colliding keys belonged to duplicates already, at most one order among those copied is bare separators, and every duplicate in the cut copy has a twin there or meets a base order by its new name |
| Bench.CopyOfAnOrderAlreadyTaken | tools/bench_scale.py:140-142 | An order and the name of its first copy, both in the base, break the claim |
| Bench.CutCopyLosesItsTwin | tools/bench_scale.py:140-142 | Two members with one order, copied to three entries, do not keep their duplicates |
| Bench.BuildIndex | tools/bench_scale.py:220-224 | The index has a bucket for exactly the non-empty keys, holding in order the names of the members with that key |
| Bench.IndexAgreesWithScan | tools/bench_scale.py:50-57 | For every population and member, the indexed rule fires iff R16 fires against all the others |
| Bench.EachMemberOnce | tools/bench_scale.py:222-224 | A member with a key stands at exactly one place of the index, one without a key at none |
| UploadPool.Pool.constructor | frontend/src/api/live.ts:148-150 | Starting the pool leaves min(4, n) workers, each waiting for the upload of another file |
| UploadPool.Pool.OnEvent | frontend/src/api/live.ts:133-147 | Between two awaits the shared variables change as the step function says, for an answer, a re-extraction or a failure |
| UploadPool.StepKeepsInv | frontend/src/api/live.ts:133-147 | Every step of every worker keeps the invariant on files, workers and reports |
| UploadPool.EveryRun | frontend/src/api/live.ts:129-152 | Every interleaving keeps the invariant and ends within two events a file; an answer can arrive exactly while a request is outstanding, so a run without failures goes on to the end |
| UploadPool.AtEveryMoment | frontend/src/api/live.ts:133-147 | min(4, n) workers, no file held twice; a file is sent once, and again at most once, only after an answer that had not created its instance and was PENDING |
| UploadPool.CompleteWithoutFailures | frontend/src/api/live.ts:129-152 | Without failures the pool ends with done == n, every file sent once, and a second time iff its first answer was not created and PENDING, every result the last answer to its own file, and reports 1..n each about another file |
| UploadPool.QuietOutcome | frontend/src/api/live.ts:148-151 | With failures, every claimed file is settled or lost, and files stay unclaimed only if every worker failed |
| Spans.Recorder.Open | backend/app/core/events.py:105-130 | Opening a span sets the current one, shares or starts the list of rows, and takes trace and links from the parent |
| Spans.OpenedAs | backend/app/core/events.py:110-130 | A new span has the step, id and data given, its parent's trace, process, rule and norm rule or a trace of its own, and the links given over these; the other spans stay as they are |
| Spans.SetChanges | backend/app/core/events.py:87-91 | `set` changes the links and data of its span, name by name, and nothing else |
| Spans.LastValueIsInTheRow | backend/app/core/events.py:87-91 | The value `set` gave last for a name is in the row, among links or data, whatever any context does later (but for `error`, which an exception overwrites) |
| Spans.Recorder.Close | backend/app/core/events.py:134-145 | Closing restores the current span, appends one row, and writes the list iff the span was outermost |
| Spans.StepKeepsInv | backend/app/core/events.py:101-145 | Every event of every context keeps the invariant on spans, lists and writes |
| Spans.OneRowPerSpan | backend/app/core/events.py:138-140 | In every run an open span has no row, and an ended one exactly one, in its own list |
| SpanOrder.NestedRowsFirst | backend/app/core/events.py:123-140 | In every nested run, whatever the contexts, a span's row comes after the rows of all spans opened inside it, at any depth |
| Spans.TraceOfParent | backend/app/core/events.py:116-122 | In every run a row names its parent's id and carries its parent's trace |
| Spans.OneWritePerOutermost | backend/app/core/events.py:141-145 | In every run each ended outermost span made exactly one write, of precisely the rows of its tree, and there is no other write |
| Spans.ExitRestoresCurrent | backend/app/core/events.py:130-140 | Whatever happens inside, closing puts back the context's current span as it was; the status is error iff an exception left the span or its block assigned `error` |
| Spans.RowOnExit | backend/app/core/events.py:130-154 | Closing a span adds one row to its list: the step, id, trace and parent it was opened with, status error iff an exception left it or its block assigned it, and the first thousand characters of the exception's message |
| SpanOrder.ChildRowFirstIff | backend/app/core/events.py:105-140 | In nested runs a child's row comes before its parent's however both come to end, iff the parent is the current span or one it is nested in when the child is opened |
| SpanOrder.ChildRowFirstInAnyRunIff | backend/app/core/events.py:105-140 | Where contexts may outlive spans, the same holds of every run iff the parent is an open span of the child's own context or the outermost of the list |
| SpanOrder.EndAfterBlocking | backend/app/core/events.py:130-145 | From every state that keeps the invariant, any open span can be brought to its end with nothing but what its own context opened since, or the rest of its list for an outermost one |
| SpanOrder.EndWithInside | backend/app/core/events.py:130-145 | In nested runs any open span can be brought to its end, with what is open inside it and nothing else |
| SpanOrder.EndedParentComesFirst | backend/app/core/events.py:105-109 | A nested run of three spans whose write holds a parent before its child: the parent had ended |
| SpanOrder.OpenParentComesFirst | backend/app/core/events.py:105-109 | A nested run of three contexts whose write holds a parent before its child: the parent was open in another context |
| Breaker.Writer.InTransaction | backend/app/core/events.py:185-187 | Rows go in one by one, and a failure at connecting, at any row or at the commit leaves the table as it was; otherwise it gains the whole batch |
| Breaker.Writer.Write | backend/app/core/events.py:176-192 | An early call changes nothing; otherwise the table gains the batch or nothing, the breaker moves only on an operational failure, to 30 s after it, and a call raises iff an attempted insert is interrupted by what is no Exception |
| Breaker.AttemptedUnlessJustUnreachable | backend/app/core/events.py:176-192 | In every run an insert is attempted iff no operational failure is less than 30 s old |
| Breaker.TableIsWhatWasKept | backend/app/core/events.py:176-192 | In every run the table is, in order, all batches but those whose own insert failed and those within 30 s of an operational failure |
| Money.DressIsIrrelevant | backend/app/common/normalization.py:54-63 | A plus, a minus of either kind, accounting parentheses and a currency mark, outside them or between them and the digits, before or after, spaced or not, only decide the sign |
| Money.MoneyUndoesPrinting | backend/app/common/normalization.py:54-83 | Every signed amount of cents in Spanish, English or ungrouped notation is read as its canonical form iff its digits fit 28, and refused otherwise |
| Money.MoneyReads | backend/app/common/normalization.py:54-83 | Digits alone, with one or two decimals after either separator, or in threes with two decimals, in any sign and dress, are read as the cents they say iff these fit 28 digits |
| Money.MoneyRefuses | backend/app/common/normalization.py:64-79 | Digits and separators in any other arrangement are refused |
| Money.ThreeDigitsAreAmbiguous | backend/app/common/normalization.py:74-78 | One separator followed by three digits is always refused |
| Money.MoneyIsAFixpoint | backend/app/common/normalization.py:80-81 | An amount `money` returned is returned again unchanged |
| Money.PartsAreDigits | backend/app/common/normalization.py:64-79 | What survives the grouping checks is digits, with at most two decimals |
| Dates.ReadInvoiceDate | backend/app/common/normalization.py:97-107 | The loop over the layouts returns the first layout's day, or refuses |
| Dates.LayoutsDisjoint | backend/app/common/normalization.py:102 | No text is a day under two layouts |
| Dates.NumericDateIsRead | backend/app/common/normalization.py:102-107 | Day, month and year in figures are read as that day iff it exists |
| Dates.SpacedDayIsRead | backend/app/common/normalization.py:102-107 | With the year first, a one-digit day after a space is read as that day iff it exists |
| Dates.SpelledDateIsRead | backend/app/common/normalization.py:98-101 | Day, `de`, a month by its name, `de` and year, in any case and with any spaces around and between, are read as that day iff it exists |
| Money.CleanSpaced | backend/app/common/normalization.py:29-31 | The clean-up leaves the words with single spaces between them, however they were spaced |
| Dates.AcceptedIsARealDay | backend/app/common/normalization.py:97-107 | What is accepted is the ISO form of an existing day, and never fires R11 |
| Dates.AcceptedIsWritten | backend/app/common/normalization.py:97-107 | What is accepted writes the day it is read as: figures between slashes, hyphens or points, the year first between hyphens, or words |
| Dates.UnknownMonthIff | backend/app/common/normalization.py:98-101 | The KeyError: iff the text spells a date with a word for a month that names none |
| Dates.DaysOfTheCalendar | backend/app/common/normalization.py:101-104 | The days `date` accepts are those of the Gregorian calendar, leap years counted by the days before each year |
| Dates.InvoiceDateIsAFixpoint | backend/app/common/normalization.py:97-107 | A date `invoice_date` returned is returned again unchanged |
| Dates.R11OnIso | processes/rules-v3/r11-real-date.py:54-60 | On a date in the ISO shape R11 fires iff the day does not exist |
| Dates.KeptDateFiresIffImpossible | backend/evals/ocr_regression.py:68-76 | A printed day, month and year that were kept fire R11 iff that day does not exist |
| Dates.PrintedIsKept | backend/evals/ocr_regression.py:68-76 | Day, month and year in figures, with any of the three separators in either place, are kept year first and fire R11 iff the day does not exist; a normalised date is kept as it is |
| Dates.IntReads | processes/rules-v3/r11-real-date.py:36-44 | A part of a date may have spaces around it and a plus before it |
| Dates.UnderscoreReads | processes/rules-v3/r11-real-date.py:36-44 | Two runs of digits with an underscore between them are one number |
| Dates.IntMeansDigits | processes/rules-v3/r11-real-date.py:36-44 | A part that is read holds digits, single underscores each between two digits, and a plus or spaces outside, and is the number of its digits |
| Dates.R11KeepsItsRuleIff | processes/rules-v3/r11-real-date.py:36-60 | For every date that is not blank, R11 keeps its rule (it fires iff the date names no existing day) iff no part is beyond a C int; R11 raises iff the date is not blank and has such a part; and a blank date passes |
| Dates.NumeralsRaiseIff | processes/rules-v3/r11-real-date.py:36-44 | Year, month and day written as numerals: R11 raises iff any of the three is beyond a C int, and fires iff otherwise the day does not exist |
| Dates.HugeYearRaises | processes/rules-v3/r11-real-date.py:36-44 | The input: a year beyond a C int makes R11 raise |
| Route.RunIs | deploy/activate-route.py:31-44 | For any file: it is changed iff it has neither marker nor route, one anchor and one domain line, and then by the snippet directly before the anchor; otherwise it stays, for the reason given |
| Bytes.FirstCounts | deploy/activate-route.py:37-44 | The first occurrence of a text counts one, the rest is counted after it, and a replacement with a limit of one writes in its place |
| Route.RunInserts | deploy/activate-route.py:31-44 | In a file with other snippets in place, a new request is inserted directly before the anchor |
| Route.RunFindsItsOwn | deploy/activate-route.py:31-36 | A request already served leaves the file as it is |
| Route.SnippetOnce | deploy/activate-route.py:39-44 | A request's snippet occurs at one place of the file only |
| Route.DeletedSnippet | deploy/activate-route.py:44 | Deleting a snippet gives the file without it |
| Route.EverySequenceOfRuns | deploy/activate-route.py:12-44 | From any untouched file every sequence of runs succeeds, anchor and domain stay single, repeats do nothing, and deleting the snippets restores the bytes |
| Migration.Table.Upgrade | backend/alembic/versions/0008_event_spans.py:26-47 | The upgrade succeeds iff no row conflicts, and moves every cost into its row's data |
| Migration.Table.Downgrade | backend/alembic/versions/0008_event_spans.py:67-88 | The downgrade fails iff a marked row's cost is no number, and otherwise restores the marked rows and deletes the orphans |
| Migration.ConflictsIff | backend/alembic/versions/0008_event_spans.py:32-39 | The preflight refuses a row with a cost whose data is no object or has one of the three keys |
| Migration.UpgradedRowIs | backend/alembic/versions/0008_event_spans.py:40-47 | A cost becomes a JSON number beside the fields there were and the markers; a row without a cost stays as it is |
| Migration.DowngradedRowIs | backend/alembic/versions/0008_event_spans.py:70-79 | A marked row gets the number of its cost field, or fails on anything else, and its data without the three fields, or NULL; another row keeps its data |
| Migration.OrphanedIff | backend/alembic/versions/0008_event_spans.py:81-82 | A row is deleted iff a referenced table is empty or a reference of its own is set and not there |
| Migration.RowRoundTrip | backend/alembic/versions/0008_event_spans.py:32-79 | A row the preflight passes gets cost and data back, NULLs included, iff it is not a cost-free row with the marker |
| Migration.TableRoundTrip | backend/alembic/versions/0008_event_spans.py:26-88 | Upgrade then downgrade restores the table iff no cost-free row has the marker and no row is orphaned |
| Migration.EmptyTableLosesEveryEvent | backend/alembic/versions/0008_event_spans.py:81-82 | With all references valid, the downgrade keeps every row iff neither table is empty, and none otherwise |
| HiringPolicy.CollectReasons | tools/hiring_mock.py:267-317 | The accumulated reasons, in order, and the decision they lead to |
| HiringPolicy.ReasonListed | tools/hiring_mock.py:272-310 | Each reason is on the list iff its own condition on the symbols, the position, the history and the batch holds, stated field by field |
| HiringPolicy.ReasonsInOrder | tools/hiring_mock.py:272-310 | Each reason is listed once at most, in the order the policy looks for them |
| HiringPolicy.PositionOfIs | tools/hiring_mock.py:275-276 | A code stands for the last position of the table that has it |
| HiringPolicy.OutcomeIs | tools/hiring_mock.py:311-317 | REVIEW iff some condition for review holds, else REJECT iff some condition for refusal holds, else INTERVIEW |
| HiringFactory.Factory.Person | tools/hiring_mock.py:328-334 | The next name, and the first email tried for it that nobody has, in lower case and recorded as used; nothing iff no name is left or every email tried is taken |
| HiringFactory.Factory.Clean | tools/hiring_mock.py:339-375 | A candidate with the years, salary, skills and availability drawn, which nothing speaks against, made iff a person is left |
| HiringFactory.NothingRunsOut | tools/hiring_mock.py:328-334 | With a name for everybody, and at every turn more emails to try than were given out, everybody gets one |
| HiringFactory.JoinedSkills | tools/hiring_mock.py:258-292 | Skills joined with commas are offered again, case aside, by the policy's split |
| HiringFactory.DroppedIsMissing | tools/hiring_mock.py:436-441 | Without the dropped skill the policy finds a required skill missing |
| HiringMock.SetTrap | tools/hiring_mock.py:421-495 | Each category changes its own fields of the candidate and adds its own history row, within the drawn ranges, and nothing else; the result is the category's trap to the policy |
| HiringMock.AddStrangers | tools/hiring_mock.py:496-510 | The rows about strangers come after those of the candidates: never barred, 300 to 1199 days old, with emails nobody else has |
| HiringMock.RepeatedIff | tools/hiring_mock.py:303-304 | Another candidate shares the email iff the candidate is a duplicate with a twin |
| HiringMock.HistoryIff | tools/hiring_mock.py:296-302 | The history bars or recalls a candidate iff its category put it there |
| HiringMock.AsDeclared | tools/hiring_mock.py:638-645 | With what `build` keeps and no lone duplicate, the policy gives a candidate its category's outcome |
| HiringMock.AsDeclaredIffPaired | tools/hiring_mock.py:638-645 | With what `build` keeps, and the history in any order, the answer key holds iff no duplicate stands alone |
| HiringMock.WhereAsked | tools/hiring_mock.py:416-417 | In the list of what is asked for, the files of a category are the one run of its count, after those of the categories before it |
| HiringMock.PairedIffNotOne | tools/hiring_mock.py:416-479 | No duplicate stands alone iff the table does not ask for exactly one |
| HiringMock.Build | tools/hiring_mock.py:411-512 | For all draws and counts: nothing comes back iff names, draws or email numbers run out; otherwise exactly the categories asked for, in order, no reason leaking between candidates (the invariant RepeatedIff and HistoryIff read), and the declared outcome for every candidate, in any order of the history, iff not exactly one duplicate is asked for |
| HiringMock.LoneDuplicateIsInterviewed | tools/hiring_mock.py:472-479 | Of what `build` makes, a duplicate without a twin gets INTERVIEW where REVIEW is declared |
| HiringTables.TableIsWellFormed | tools/hiring_mock.py:46-138 | The positions and extra skills of the file meet every assumption of the generator |

## Left out

- Reasons of verdicts: rules return that they fire, not the sentence; R14 alone keeps its list of columns.
- The decision engine, sandbox, compiler and publication: "clean" means that no modelled rule fires.
- R06, R09 and R12: verdicts of one comparison each.
- The 28-digit context of decimals outside `money`, and the sign and order of NaN: amounts are reals.
- Unicode: normalisation, case folding, digits and whitespace beyond ASCII.
- Non-string orders in the index, where 0 and False normalise differently from the rules' `key`.
- Spans: start, duration, OpenTelemetry, `record`, changing an ended span, a status assigned back to `ok`, and contexts that outlive the outermost span they were started under.
- Breaker: overlapping calls from several threads, and a connection lost after the database has committed, which the model takes for a failed commit.
- UploadPool: a progress callback that throws, and a server that never answers.
- Migration.RowRoundTrip: leaves out columns other than cost, data and the two references; text such as `1e3` is not taken for a number where PostgreSQL would take it, which matters only to rows carrying the marker without a cost.
- Route: the validation, staging and reload of the configuration, and a concurrent change of the file; the ERP snippet is written out where the script derives it by replacement.
- HiringFactory.Factory.Person: gives up when the drawn numbers run out, where the source draws on, for ever if all its emails are taken.
- HiringFactory: titles, phones, degrees and careers, and dates and numbers as text; sampling and shuffling of skills are any arrangement of them.
- HiringMock.Build: sorting the history is any reordering of it.
