# Migration algorithms, modelled and proved

The application keeps its data in Mongo collections and changes their shape by migrations. Most migrations
are one-line updates; a few hold real algorithms: callbacks that fill array slots concurrently, a labelling
that carries state across nested lists, a dictionary rewriter, a tree printer, a counted stream, upserts over
a shared object, denormalised copies that must stay in agreement. This project models those, together with the
currency converter of the API, and proves what they promise and exactly when they keep it.

| module | what it models |
|---|---|
| `SlotFilling` | the "overwrite the slot if there is one, push otherwise" rule under arbitrary completion orders |
| `BillingMigration` | `processRequest`: provider tasks, the invoice list they share, and the two billing migrations |
| `PriorityStatus` | the labelling of provider tasks, and runs in which they are closed one by one |
| `ReplaceText` | six global replacements in turn, against one simultaneous longest-match pass |
| `Paths`, `PaddedPaths`, `Hierarchy` | the company hierarchy: the chain builder, the direct printer, the recursive printer, the streams |
| `Rounding`, `ConvertedSums`, `ExactRounding`, `CurrencyConverter` | the decimal division and the rounding; the cached rate table and calls on it, overlapping or not |
| `EmbeddingRevert` | embedded objects turned back into ids, behind a completion counter |
| `DocumentSplit` | the documents of a request, split over two migrations |
| `RoleGrants` | roles of groups and of the group copies embedded in users |
| `Schedulers`, `SchedulerCopies` | the upsert loop over one template object; two concurrent copy loops |
| `Renames` | rename tables, applied in series or concurrently |

## How the model reads the code

- A collection is a sequence or map of records. A stretch of code between two awaits is one atomic step, and a
  single database update is one atomic step. `Promise.map` allows every completion order; `mapSeries` keeps the
  order of the list. What a database read returns is computed from the modelled collection or is a parameter.
- A null or undefined value is `None`, except for the names of companies, which print differently. An array element that is nil is `None` as well, because the code tests
  elements for it.
- The updates of the users that come before one at which a migration throws are taken as carried out.
- Ids are texts or numbers, fresh ids are parameters. Amounts of the converter are real numbers, amounts of the
  billing details are integers that are only copied.
- In `SlotFilling` an array element has the fields that the migration assigns, `written`, and all others, `rest`.
- In `BillingMigration` the tasks of all workflows form one list: nothing in `processRequest` crosses a task.
- An `OtherStatus` or `OtherPriority` value stands for any text outside the five statuses and four labels.

## Where the code does less than one might expect

Each of these is a lemma or an exact condition in one:

- The slot filler keeps its alignment exactly when the callbacks past the old end of the array finish in order and
  no slot to be written is nil. A callback that overtakes its predecessor costs a slot, and the next run then
  appends (`SlotFilling.AlignedExactlyInOrder`, `SlotFilling.OvertakingIsNotIdempotent`). An in-order run of the later
  migration repairs whatever an earlier run did (`BillingMigration.LaterMigrationSupersedes`).
- The invoice list is shared by the provider tasks of a task, so that slot i holds the invoice of whichever callback of
  index i was last. The interleaving of the lists does not matter exactly when they agree on the invoice entry wherever
  they share an index (`BillingMigration.InvoicesUntimedExactly`, `BillingMigration.InvoiceDependsOnTiming`).
- The later migration still prints the path that the direct printer wrote exactly when all ancestors have names and no
  name contains a colon, which the printer takes for a separator (`Hierarchy.MigrationPrintsPathExactly`, for names
  without outer spaces). The path is blanked altogether exactly when the nearest parent has no name
  (`Hierarchy.UnnamedParentBlanksHierarchy`, `Hierarchy.NamelessParent`).
- A rate of 1 keeps an amount exactly when it has no more decimals than the precision and the division keep
  (`ExactRounding.UnitRateKeepsAmount`, `ExactRounding.ThreeDecimalsAreRounded`). The places of the division are
  `Big.DP`, a setting of the whole process that starts at 20 and that app/utils/handlebars/accounting.js:5 reassigns;
  they are a parameter of every result.
- A nil element in one of the lists leaves the promise of its collection open for ever
  (`EmbeddingRevert.StuckRunResolvedExactly`, `EmbeddingRevert.NilManagerNeverResolves`).
- The second document migration strips the final documents of every request that has language combinations, also
  of those that the first one skipped and for which nothing keeps them
  (`DocumentSplit.EarlierCombinationsKeepDocumentsExactly`).
- The grant to one group is a single update that reaches only the first group of the name, while every embedded copy of
  the name is changed; and the migration throws at the first user without accounts, with an account without groups or
  with a copy of the name without roles, after the group has been granted and before that user and the later ones are
  written. Agreement survives exactly when no copy stands on the wrong side of either
  (`RoleGrants.GrantKeepsCoherenceExactly`, `RoleGrants.IncompleteUserBreaksCoherence`).
- A single update leaves a second record of the same old name behind (`Renames.SingleUpdatesSimultaneousExactly`).

## Model

| member | source | states |
|---|---|---|
| `SlotFilling.AlignedExactlyInOrder` | app/migrations/20210422144324.js:62-82 | for every initial array, quantity list and completion order: slot i carries quantity i for all i if and only if no slot to be written is nil and the callbacks past the old end finish in increasing order; the outcome is then the intended array, and without nil slots the length max(b, n) alone already tells |
| `SlotFilling.Target` | app/migrations/20210422144324.js:71-82 | the intended array: length max(b, n), amounts aligned, all other fields and later slots as before |
| `SlotFilling.GaplessRunWritesOver` | app/migrations/20210422144324.js:71-82 | any run, of one list or several, in which each index past the end is written after all smaller ones leaves every written index with its last payload beside its old other fields, and everything else untouched |
| `SlotFilling.InOrderReachesTarget` | app/migrations/20210422144324.js:62-82 | in-order completion past the old end gives the intended array |
| `SlotFilling.FullLengthForcesOrder` | app/migrations/20210422144324.js:74-82 | a run that reaches full length has pushed the indices past the old end in increasing order |
| `SlotFilling.NilStays` | app/migrations/20210422144324.js:74-82 | a nil slot stays nil whatever is written |
| `SlotFilling.OrderIrrelevantWhenSlotsExist` | app/migrations/20210422144324.js:58-82 | when every quantity index has a slot, all completion orders give the same array |
| `SlotFilling.OtherFieldsStay` | app/migrations/20210422144324.js:74-82 | in every completion order, aligned or not, an old element keeps its other fields and a pushed one has none |
| `SlotFilling.RerunUnchangedExactlyWhenAligned` | app/migrations/20210422144324.js:62-82 | a further run in any order changes nothing if and only if the array is aligned already |
| `SlotFilling.LaterRunSupersedes` | app/migrations/20210422144324.js:71-116 | a gapless run over at least the same indices erases every trace of an earlier run, in whatever order the earlier writes came |
| `SlotFilling.LaterRunAbsorbs` | app/migrations/20210422144324.js:74-82 | a single write, even one that landed in the wrong slot, leaves no trace after a gapless run that covers its index |
| `SlotFilling.OvertakingIsNotIdempotent` | app/migrations/20210422144324.js:74-82 | two overtaking callbacks lose a slot, and the same run again appends it |
| `BillingMigration.Task.FinishCallback` | app/migrations/20210422144324.js:71-116 | one callback changes the bills of its provider task and the invoices of its task by one step each, nil arrays being created first, and nothing else; the slot of its index, or the new last one, then holds the amount, and the entry described under `InvoiceEntry` |
| `BillingMigration.InvoiceEntry` | app/migrations/20210422144324.js:64-111 | the entry written has _id and name of the first breakdown document of the mapped breakdown name and the tenant, and nothing exactly if there is none; likewise for the translation unit; a unit outside the mapping selects documents without a name; all prices are zero and the projected cost is empty; and no other entry is so |
| `BillingMigration.Request.Finish` | app/migrations/20210422144324.js:56-120 | a finishing callback leaves every other task of the request as it was |
| `BillingMigration.Request.ProcessRequest` | app/migrations/20210422144324.js:53-121 | in every interleaving of all callbacks of a request each task ends in the state that its own callbacks alone lead to |
| `BillingMigration.RunTaskByField` | app/migrations/20210422144324.js:58-118 | the interleaved run of a task is, array by array, the run of the writes meant for that array |
| `BillingMigration.BillsAlignedExactlyInOrder` | app/migrations/20210422144324.js:58-82 | in every interleaving of all callbacks of a task, the bills of a provider task are aligned if and only if its own callbacks past the old end finish in order and no slot to be written is nil |
| `BillingMigration.InvoicesHoldLastWriter` | app/migrations/20210422144324.js:83-116 | if past the old end of the array each list finishes in its own order then, however the lists interleave, invoice slot i holds the entry of the last callback of index i and no other field is touched |
| `BillingMigration.InvoiceSlotsHoldEntries` | app/migrations/20210422144324.js:83-116 | slot i then holds the entry of the quantity whose callback was the last one of index i, beside the other fields that the slot had |
| `BillingMigration.InvoicesUntimedExactly` | app/migrations/20210422144324.js:58-118 | over all runs in which each list finishes in order past the old end, the invoices do not depend on the interleaving if and only if any two lists give the same invoice entry wherever they share an index |
| `BillingMigration.LastListWins` | app/migrations/20210422144324.js:83-116 | with the lists one after the other, the last one decides every slot that it has an index for |
| `BillingMigration.InvoiceDependsOnTiming` | app/migrations/20210422144324.js:83-116 | two provider tasks with different units: two in-order interleavings leave different invoices |
| `BillingMigration.LaterMigrationSupersedes` | app/migrations/20210422144323.js:53-121 | the earlier migration, in any completion order and even broken off, followed by the later one equals the later one alone, whatever the unit tables and lookups contain and however the lists interleave, if each list of the later run finishes in order past the old end of the arrays; with equal tables, twice is once |
| `BillingMigration.RunBothMigrations` | app/migrations/20210422144323.js:123-159 | the same for a whole request whose objects both migrations update in place, the earlier one in any completion order |
| `PriorityStatus.TestsMatchDictated` | app/migrations/20191107122258.js:10-42 | the three tests in the order of the loop body, with the completed case last, decide as the declarative label does |
| `PriorityStatus.PreviousTask` | app/migrations/20191107122258.js:51-66 | the previous provider task across the list boundary and the flag "all of the preceding task is closed" are found, the flag carried or recomputed |
| `PriorityStatus.LabelProviderTask` | app/migrations/20191107122258.js:50-90 | one loop body sets the label to the dictated one, or leaves it where nothing is dictated |
| `PriorityStatus.LabelTask` | app/migrations/20191107122258.js:48-91 | the loop with its carried flag relabels each provider task of a task from the statuses alone |
| `PriorityStatus.LabelOneTask` | app/migrations/20191107122258.js:48-91 | and leaves the labels of the other tasks alone |
| `PriorityStatus.LabelWorkflow` | app/migrations/20191107122258.js:46-93 | all provider tasks of a workflow get the dictated label, the statuses do not change |
| `PriorityStatus.LabelWorkflowLabels` | app/migrations/20191107122258.js:46-93 | the same over the lists of labels of the workflow |
| `PriorityStatus.LabelOneWorkflow` | app/migrations/20191107122258.js:45-94 | labelling one workflow leaves the others alone |
| `PriorityStatus.SetProviderTasksPriorityStatus` | app/migrations/20191107122258.js:44-96 | the nested loops over all workflows change labels only, and each becomes what the statuses dictate for its position |
| `PriorityStatus.FollowingLabelsSettle` | app/migrations/20191107122258.js:44-96 | a second labelling changes nothing |
| `PriorityStatus.LabelMeaning` | app/migrations/20191107122258.js:22-90 | with the five known statuses: completed is labelled completed; not started is pending or future, and future if and only if the task is not the first, its preceding task has an open provider task, and the own predecessor is open |
| `PriorityStatus.CurrentMeaning` | app/migrations/20191107122258.js:10-20 | current is dictated if and only if the provider task is in progress or on hold and comes first, or after one that is completed, cancelled or in progress; nothing is dictated for a cancelled one |
| `PriorityStatus.LabelTable` | app/migrations/20191107122258.js:44-96 | the label that every provider task has after the labelling, by its own status, its predecessor across the task border and the preceding task, for all statuses, known or not; where nothing applies it is the old one |
| `PriorityStatus.ChainedExactly` | app/migrations/20191107122258.js:56-66 | the inputs covered: a task with provider tasks comes first or after a task that has the field |
| `PriorityStatus.ClosingIsLocalAndForward` | app/migrations/20191107122258.js:10-91 | closing a provider task changes what is dictated at most for itself, its successor in the task and the following task, and never takes back a go-ahead |
| `PriorityStatus.StepIsLocal` | app/migrations/20191107122258.js:44-96 | after a closing, relabelling changes labels at most at those positions |
| `PriorityStatus.RelabelSettles` | app/migrations/20191107122258.js:44-96 | every board is settled after one relabelling |
| `PriorityStatus.RunKeepsGoAhead` | app/migrations/20191107122258.js:44-96 | over every sequence of closings a settled pending label stays while the provider task is not started |
| `PriorityStatus.PendingNeverReturnsToFuture` | app/migrations/20191107122258.js:44-96 | at any two moments of any run: pending at the first and still not started at the second means pending at the second |
| `ReplaceText.ApplyRules` | app/migrations/20180104183851.js:22-24 | the loop that reassigns the text is the sequence of global replacements |
| `ReplaceText.ReplaceText` | app/migrations/20180104183851.js:15-26 | anything but text is an error; the result for a text is the longest-match rewriting of it, and the only one |
| `ReplaceText.ReplaceAfterPass` | app/migrations/20180104183851.js:22-24 | one more global replacement after a simultaneous pass is a simultaneous pass with one more rule |
| `ReplaceText.SequentialIsSimultaneous` | app/migrations/20180104183851.js:20-24 | for any separated rules and every text, replacing rule by rule is one simultaneous pass |
| `ReplaceText.SequentialIsLongestMatch` | app/migrations/20180104183851.js:20-24 | if longer keys come first, that pass is the one and only longest-match rewriting |
| `ReplaceText.DictionarySeparated` | app/migrations/20180104183851.js:6-13 | the shipped entries are separated: no key can arise from, or straddle, a value or another key |
| `ReplaceText.DictionaryLongestFirst` | app/migrations/20180104183851.js:6-13 | the shipped plurals come before the singulars they begin with |
| `ReplaceText.SixWords` | app/migrations/20180104183851.js:6-13 | what becomes of each of the six words |
| `ReplaceText.NoKeyLeft` | app/migrations/20180104183851.js:20-24 | no key stands anywhere in rewritten text |
| `ReplaceText.RewrittenTextIsClean` | app/migrations/20180104183851.js:6-26 | for the shipped dictionary: no key is left, and rewriting again changes nothing |
| `ReplaceText.LengthAfterRewriting` | app/migrations/20180104183851.js:6-26 | the text shrinks by exactly the number of singular keys that do not begin a plural |
| `Paths.TrimIsIdentity` | app/migrations/20200930160506.js:17 | trimming leaves a text alone if and only if it neither begins nor ends with a space |
| `Paths.SplitUndoesJoin` | app/migrations/20200930160506.js:14-17 | a joined list splits back into itself if and only if no part contains the separator |
| `Paths.TrimmedPathCount` | app/migrations/20200930160506.js:17 | the trimmed text has one colon less than there are pieces |
| `PaddedPaths.PiecesPrintPathExactly` | app/migrations/20200930160506.js:14-17 | for names without outer spaces, splitting at all colons, reversing, joining and trimming gives the path of the names if and only if no name contains a colon |
| `PaddedPaths.SpacedNameHidesColon` | app/migrations/20200930160506.js:14-17 | with an outer space a colon can hide: the names "x" and ": " print as their path |
| `Hierarchy.AccumulatorJoinsNames` | app/migrations/20200930160506.js:9-18 | the recursion continues whatever is accumulated with the names of all further named ancestors |
| `Hierarchy.PrinterSplitsNames` | app/migrations/20200930160506.js:9-18 | for chains of any depth and any names the result is the reversed list of pieces between colons, joined by " : " and trimmed |
| `Hierarchy.PrinterGivesPath` | app/migrations/20200930160506.js:9-18 | for colon-free names the result is the root-to-leaf path, untouched by the trimming if and only if it has no outer spaces, and the accumulated text splits back into exactly the leaf-to-root names |
| `Hierarchy.PrinterGivesPathExactly` | app/migrations/20200930160506.js:9-18 | for chains of any depth and names without outer spaces the result is the root-to-leaf path if and only if no name contains a colon |
| `Hierarchy.DirectPrepends` | app/migrations/20200930160439.js:24-36 | prepending the name of one more parent prints the path that is longer by that parent |
| `Hierarchy.AssignParentAppends` | app/migrations/20200930160439.js:40-49 | assigning one more parent extends the chain at its far end |
| `Hierarchy.Companies.GetParent` | app/migrations/20200930160439.js:11-17 | the projected fields of a stored parent, or an error for a missing one |
| `Hierarchy.Companies.ResetHierarchy` | app/migrations/20200930160439.js:19-38 | sets the joined path of the parents that are present, or fails on the nearest missing one and changes nothing |
| `Hierarchy.Companies.ResetParents` | app/migrations/20200930160439.js:51-70 | sets the chain of the parents that are present, or fails on the nearest missing one and changes nothing |
| `Hierarchy.Companies.HierarchyData` | app/migrations/20200930160439.js:76-84 | the data handler gives its company the value computed from the original collection, and keeps an error |
| `Hierarchy.Companies.ResetHierarchies` | app/migrations/20200930160439.js:72-92 | whatever order the stream delivers, every company gets the path computed from the original collection, and the errors are those of the failing companies in that order |
| `Hierarchy.Companies.ParentsData` | app/migrations/20200930160439.js:76-84 | the same handler for the parent chains |
| `Hierarchy.Companies.ResetAllParents` | app/migrations/20200930160439.js:72-93 | the same for the parent chains |
| `Hierarchy.Companies.SetHierarchies` | app/migrations/20200930160506.js:19-40 | whatever order the stream delivers, every company gets its own name or the printed chain, and nothing else changes |
| `Hierarchy.Companies.MigrateHierarchies` | app/migrations/20200930160439.js:87-98 | the three streams of both migrations together, each in any order of its own |
| `Hierarchy.DirectSpelledOut` | app/migrations/20200930160439.js:19-38 | for every subset of the three parent ids, the stored hierarchy is the names of the parents, parentId first, then subParentId, then subSubParentId, each with ": ", and the own name; the own name alone without parents; a company with a missing parent, and every other field, stays |
| `Hierarchy.ChainSpelledOut` | app/migrations/20200930160439.js:40-70 | the embedded chain has the id of subSubParentId nearest, then subParentId, then parentId, as far as they are present, each with name, hierarchy, status and securityPolicy of the stored company; a company with a missing parent, and every other field, stays |
| `Hierarchy.PathSpelledOut` | app/migrations/20200930160439.js:19-38 | the path of which the other rows speak is that of the three fields in this order |
| `Hierarchy.FailureSpelledOut` | app/migrations/20200930160439.js:11-37 | a handler fails on a missing subSubParentId, else on a missing subParentId, else on a missing parentId, and otherwise not |
| `Hierarchy.PrintedSpelledOut` | app/migrations/20200930160506.js:27-37 | without an embedded parent, or with one that has no id, the hierarchy becomes the own name; nothing else changes |
| `Hierarchy.ShownNames` | app/migrations/20200930160506.js:10-12 | a missing name shows as "undefined" and a null one as "null"; neither counts as a name of a parent |
| `Hierarchy.ChainListsNames` | app/migrations/20200930160439.js:40-70 | the built chain lists the names of the parents if and only if every ancestor has a name |
| `Hierarchy.ChainPrintsPathExactly` | app/migrations/20200930160506.js:9-18 | for a built chain and colon-free names the recursive printer prints the path of the parent ids if and only if every ancestor has a name |
| `Hierarchy.PrintersListSamePath` | app/migrations/20200930160439.js:19-70 | for every subset of the three parent ids the chain and the direct printer describe the same ancestor path if and only if every ancestor has a name; the direct printer joins that path by ": ", and for colon-free names the recursive one prints it, joined by " : ", if and only if every ancestor has a name |
| `Hierarchy.MigrationPrintsPath` | app/migrations/20200930160506.js:9-40 | after both migrations a company whose parents exist, with colon-free names on the path, carries its root-to-leaf path if and only if all its ancestors have names |
| `Hierarchy.ShortPrintIsNotPath` | app/migrations/20200930160506.js:9-18 | with any names, a print that leaves out an unnamed ancestor or those above it is not the path |
| `Hierarchy.MigrationPrintsPathExactly` | app/migrations/20200930160506.js:9-40 | after both migrations a company whose parents exist, with no outer spaces in the names, carries its root-to-leaf path if and only if all ancestors have names and no name contains a colon |
| `Hierarchy.UnnamedParentBlanksHierarchy` | app/migrations/20200930160506.js:10-37 | after both migrations a company whose parents exist has a blank hierarchy if and only if its nearest parent has no name |
| `Hierarchy.NamelessParent` | app/migrations/20200930160506.js:10-37 | one parent without a name: the direct printer writes a path, the later migration blanks it |
| `Rounding.ConvertError` | app/endpoints/currency-converter-api.js:33-34 | for every number of division places, a conversion is within half a unit of the requested precision of the exact quotient, plus half a unit of the last place of the division |
| `Rounding.ConvertMonotone` | app/endpoints/currency-converter-api.js:33-34 | for a positive rate and every number of division places a larger amount never converts to less |
| `ConvertedSums.LinesAgainstTotal` | app/endpoints/currency-converter-api.js:33-34 | n converted lines add up to the converted sum within n + 1 times the bound for the fewest division places in use, which may change from call to call |
| `ConvertedSums.BoundShrinks` | app/endpoints/currency-converter-api.js:33-34 | more division places never make the bound larger |
| `ExactRounding.RoundHalfUpExact` | app/endpoints/currency-converter-api.js:34 | rounding leaves a number alone if and only if it is a multiple of the unit, and always gives such a multiple |
| `ExactRounding.RoundHalfUpNearest` | app/endpoints/currency-converter-api.js:34 | the result is the nearest multiple of the unit, the upper one of two, and the only number that is |
| `ExactRounding.RoundHalfAwayNearest` | app/endpoints/currency-converter-api.js:33 | the quotient is the nearest multiple of the last place, the one farther from zero of two, and the only number that is |
| `ExactRounding.ConvertNearest` | app/endpoints/currency-converter-api.js:33-34 | a conversion is the second of these after the first, at most 292 decimals being asked for |
| `ExactRounding.ScaleIsPower` | app/endpoints/currency-converter-api.js:33-34 | the unit of p decimals: one for none, a tenth for each further one |
| `ExactRounding.UnitRateKeepsAmount` | app/migrations/20201001125851.js:16-24 | a rate of 1 leaves an amount unchanged if and only if it has at most as many decimals as the precision, the division places and the limit of 292 allow |
| `ExactRounding.ThreeDecimalsAreRounded` | app/endpoints/currency-converter-api.js:33-34 | at rate 1 and precision 2, 0.125 becomes 0.13 |
| `CurrencyConverter.CurrencyConverter.ConvertToLocalCurrency` | app/endpoints/currency-converter-api.js:19-40 | a call that no other overlaps: the kept table, or the one it reads, decides the answer; every failure is the one error, and a table read before the failure is kept |
| `CurrencyConverter.CurrencyConverter.Serve` | app/endpoints/currency-converter-api.js:19-40 | over any sequence of calls one after the other, failing ones included: from the first call on that reads a non-nil table every answer is that on this table, and before it the error |
| `CurrencyConverter.CurrencyConverter.Answer` | app/endpoints/currency-converter-api.js:25-39 | after the lookup: the answer is the conversion at the rate of the first entry whose quote is the currency, if no entry before it lacks a quote and the rate is there and not 0; in all other cases it is the one error |
| `CurrencyConverter.UncachedIsAnswer` | app/endpoints/currency-converter-api.js:25-33 | the same of the uncached answer of which the rows on overlapping calls speak |
| `CurrencyConverter.CurrencyConverter.BeginCall` | app/endpoints/currency-converter-api.js:20-22 | the stretch of a call before its read: a kept table answers at once |
| `CurrencyConverter.CurrencyConverter.FinishCall` | app/endpoints/currency-converter-api.js:22-39 | the stretch after the read: what was read replaces the kept table, and answers; a failed read is the error and keeps the table |
| `CurrencyConverter.StepKeepsInv` | app/endpoints/currency-converter-api.js:19-40 | every stretch of overlapping calls keeps: the kept table is that of the last read, and each answer has its origin |
| `CurrencyConverter.OverlappingCalls` | app/endpoints/currency-converter-api.js:19-40 | in every interleaving of calls each answer is the uncached one on a table that some call has read, or the error of a failed read of its own, and the table of the last read is kept |
| `CurrencyConverter.OverlappingCallsOnOneTable` | app/endpoints/currency-converter-api.js:19-40 | if all reads of the tenant find the same table, every answer in every interleaving is the uncached one on it, or the error of a failed read of its own |
| `EmbeddingRevert.BuildUpdateSetBody` | app/migrations/20200804074711.js:8-17 | the set body holds the ids of exactly those fields that hold embedded objects |
| `EmbeddingRevert.ObjectsToIds` | app/migrations/20200804074711.js:18-28 | the ids of a mixed list in the same order, or the exception of a nil element |
| `EmbeddingRevert.CollectUpdate` | app/migrations/20200804074711.js:71-77 | the update of a document, or an exception exactly if a list to be reverted has a nil element |
| `EmbeddingRevert.RevertUndoesEmbedding` | app/migrations/20200804074711.js:8-28 | whatever subset of references was embedded, reverting restores the document of ids, lists in the same order, and an embedded request becomes its number |
| `EmbeddingRevert.RevertAgain` | app/migrations/20200804074711.js:8-28 | a second reverting changes nothing, and goes through if and only if no list held an object without its id |
| `EmbeddingRevert.RevertedSpelledOut` | app/migrations/20200804074711.js:8-28 | field by field: an embedded object becomes its _id, or nil without one; ids, nil and fields that are not listed stay; lists element by element; a flattened request leaves its number |
| `EmbeddingRevert.RevertibleExactly` | app/migrations/20200804074711.js:18-28 | a document goes through if and only if no element of a listed list is nil |
| `EmbeddingRevert.StepKeepsInv` | app/migrations/20200804074711.js:60-90 | every stretch of a handler keeps: the counter is the number of finished handlers, and each document is as its phase says |
| `EmbeddingRevert.ResolvedMeansReverted` | app/migrations/20200804074711.js:60-90 | in every interleaving of the handlers the counter equals the number of finished updates, and a resolved promise means that every document has been reverted |
| `EmbeddingRevert.StuckRunResolvedExactly` | app/migrations/20200804074711.js:60-90 | a run that can go no further, with or without the pause, has resolved if and only if no list to be reverted has a nil element |
| `EmbeddingRevert.NilManagerNeverResolves` | app/migrations/20200804074711.js:18-90 | a user with a nil project manager: the run is stuck and the promise open |
| `EmbeddingRevert.EveryRunEnds` | app/migrations/20200804074711.js:69-90 | no run has more than three stretches for each document, so that every run reaches a point where it can go no further |
| `EmbeddingRevert.Driver.Handle` | app/migrations/20200804074711.js:91-128 | one stretch of a handler over the stored documents, the counter and the promise is one step of that state machine |
| `EmbeddingRevert.Driver.FinishDocument` | app/migrations/20200804074711.js:122-125 | the counter grows by one and the promise is resolved when it reaches the number of documents |
| `DocumentSplit.TagFiles` | app/migrations/20200619181817.js:67-75 | the documents whose id is among the files, and no others, take the languages of the workflow |
| `DocumentSplit.TagProviderTasks` | app/migrations/20200619181817.js:64-78 | only completed provider tasks of a delivery task tag, and only their files |
| `DocumentSplit.TagTasks` | app/migrations/20200619181817.js:63-79 | a document is tagged by a workflow if and only if one of its tasks delivers it |
| `DocumentSplit.TagFinalDocuments` | app/migrations/20200619181817.js:60-81 | the nested loops give every document its tag over all workflows |
| `DocumentSplit.TaggedByLastDeliverer` | app/migrations/20200619181817.js:62-80 | the tag is that of the last workflow, in iteration order, that delivers the document |
| `DocumentSplit.TaggedByNobody` | app/migrations/20200619181817.js:62-80 | without such a workflow the document is unchanged |
| `DocumentSplit.Request.MapWorkflows` | app/migrations/20200619181817.js:45-58 | every workflow moves its language, or the first target language by name and code, into its target language |
| `DocumentSplit.Request.SplitDocuments` | app/migrations/20200619181817.js:18-97 | the first migration on a request, updated in place; other requests stay |
| `DocumentSplit.Request.PullFinalDocuments` | app/migrations/20200704234110.js:8-15 | the second migration removes the final documents of every combination and nothing else |
| `DocumentSplit.Request.Migrate` | app/migrations/20200704234110.js:5-16 | both migrations in turn |
| `DocumentSplit.SplitConservesDocuments` | app/migrations/20200619181817.js:24-93 | after both migrations the combination and the final documents partition the original documents, nothing lost or doubled, final ones on one side and the others on the other |
| `DocumentSplit.FinalDocumentsTaggedByLastDeliverer` | app/migrations/20200619181817.js:60-88 | each final document is the original one with the languages of its last deliverer, or quite unchanged if it has none, and the second migration leaves it so |
| `DocumentSplit.TagByOriginalWorkflows` | app/migrations/20200619181817.js:45-81 | over the original request alone: the k-th final document gets the request's source language and the language of the last workflow that delivers it, or name and code of the first target language if that workflow has none; otherwise it stays |
| `DocumentSplit.WorkflowsAfterSplit` | app/migrations/20200619181817.js:45-58 | every workflow keeps its tasks, has the request's source language and no language of its own; its target language is the old language, or name and code of the first target language without an id |
| `DocumentSplit.DeliversExactly` | app/migrations/20200619181817.js:63-69 | a workflow delivers a file if and only if a completed provider task of one of its "Validation and Delivery" tasks holds it |
| `DocumentSplit.SplitSpelledOut` | app/migrations/20200619181817.js:11-41 | exactly the requests without combinations, with a named source language and a target language are restructured, into one combination with all documents in order and the text of the language names |
| `DocumentSplit.PullSpelledOut` | app/migrations/20200704234110.js:9-15 | every combination keeps its languages and loses its final documents, every other one staying as often as it was |
| `DocumentSplit.FiltersKeepOrder` | app/migrations/20200619181817.js:60 | final and other documents keep their order |
| `DocumentSplit.EarlierCombinationsKeepDocumentsExactly` | app/migrations/20200704234110.js:9-15 | a request that already had combinations keeps its documents if and only if none of them is final |
| `RoleGrants.GrantKeepsCoherenceExactly` | app/migrations/20170514200020.js:18-45 | a grant keeps the embedded copies in agreement with their groups if and only if, for every group of the name that lacks a role: the group that the single update reaches has no copy among the users from the first one that throws on, and any further one has no copy among the users before it |
| `RoleGrants.GrantSpelledOut` | app/migrations/20170514200020.js:18-45 | field by field: the first group of the name and the copies of the name keep their roles in place and get each new one once; missing names and account types become "Unknown"; everything else, and every user from the first incomplete one on, stays |
| `RoleGrants.ReachExactly` | app/migrations/20170514200020.js:21-44 | the users are rewritten up to the first one without accounts, with an account without groups, or with a copy of the name without roles |
| `RoleGrants.AddedRoles` | app/migrations/20170514200020.js:34-38 | roles that are there stay in place and as often as they are, each new one is added once |
| `RoleGrants.MisfitBreaksCoherence` | app/migrations/20170514200020.js:18-45 | each group with a copy on the wrong side breaks the agreement |
| `RoleGrants.UniqueNameFits` | app/migrations/20170514200020.js:18-45 | with a unique group name and users that can all be rewritten the condition holds |
| `RoleGrants.IncompleteUserBreaksCoherence` | app/migrations/20170514200020.js:18-45 | a user without accounts before a user with a copy: agreement holds before the grant and not after it |
| `RoleGrants.RegrantedRoles` | app/migrations/20180223214043.js:55-58 | filter and push leave the role exactly once in the two groups and nowhere else, and every other role as often as before |
| `RoleGrants.RoleExactlyInGroups` | app/migrations/20180223214043.js:29-45 | after the step the role stands exactly once in LSP_ADMIN and LMS_HR groups and in no other, and all other roles are kept |
| `RoleGrants.RoleExactlyInCopies` | app/migrations/20180223214043.js:46-67 | the same for every embedded copy, and no copy is lost |
| `RoleGrants.HrGroupInserted` | app/migrations/20180223214043.js:32-42 | an LMS_HR group of the tenant is added exactly if the tenant has none, with the role as its only one; the old groups keep id, name and tenant |
| `RoleGrants.UsersRegranted` | app/migrations/20180223214043.js:46-67 | place by place: names, account types and copies of a user stay, and of their roles only the granted one moves |
| `RoleGrants.RemoveKeepsOrder` | app/migrations/20180223214043.js:55 | the roles that stay keep their order |
| `RoleGrants.RegrantKeepsCoherence` | app/migrations/20180223214043.js:29-67 | removing and granting again always keeps the agreement, also with several groups of a name |
| `RoleGrants.RunsKeepCoherence` | app/migrations/20180223214043.js:29-67 | over every sequence of grants that meet the exact condition and of regrants the copies agree with their groups and the group ids stay distinct |
| `RoleGrants.Collections.GrantRoles` | app/migrations/20170514200020.js:18-45 | grants the first group of the name and then rewrites user by user, filling in missing names and account types, up to the first incomplete user; it fails if and only if a user has no accounts, an account no groups, or a copy of the name no roles |
| `RoleGrants.Collections.GrantToCopy` | app/migrations/20170514200020.js:33-39 | the loop over the new roles for one copy adds those it lacks, or throws if a copy of the name has no roles |
| `RoleGrants.Collections.GrantToAccount` | app/migrations/20170514200020.js:29-43 | the loop over the copies of one account, whose missing type is filled in, or the exception of missing groups |
| `RoleGrants.Collections.GrantToUser` | app/migrations/20170514200020.js:22-44 | the loop over the accounts of one user, whose missing names are filled in, or the exception of missing accounts |
| `RoleGrants.Collections.RegrantAccount` | app/migrations/20180223214043.js:52-61 | the loop over the copies of an account rewrites those that have roles |
| `RoleGrants.Collections.RegrantUser` | app/migrations/20180223214043.js:50-64 | the same over the accounts of a user |
| `RoleGrants.Collections.RemoveAndRegrant` | app/migrations/20180223214043.js:29-67 | the updates of the groups, the insertion of a missing LMS_HR group and the loop over the users perform the step |
| `Schedulers.UpsertAllCounts` | app/migrations/20191007092500.js:44-64 | after the loop every listed tenant has one scheduler of the name if it had none, and as many as before otherwise; every other key keeps its count |
| `Schedulers.UpsertAllKeeps` | app/migrations/20191007092500.js:44-64 | every old record keeps its place and id, is overlaid with the template if it is the first match of a listed tenant, and is untouched otherwise |
| `Schedulers.OldDocumentsAfter` | app/migrations/20191007092500.js:44-64 | an old document keeps place, id, name and tenant; the first one of a listed tenant and the name holds every template field in the value of the template, beside its other fields, and all others are untouched |
| `Schedulers.NewDocumentsAfter` | app/migrations/20191007092500.js:50-51 | a new document is exactly the template, for a listed tenant that had no scheduler of the name, with a generated id |
| `Schedulers.UpsertAllIds` | app/migrations/20191007092500.js:44-64 | no id appears that is neither old nor generated |
| `Schedulers.UpsertAllDistinct` | app/migrations/20191007092500.js:44-64 | all ids stay distinct |
| `Schedulers.Collection.Insert` | app/migrations/20191007092500.js:51 | inserting writes the generated id into the inserted object and fails if the object already carries a stored id |
| `Schedulers.Collection.InsertIfMissing` | app/migrations/20191007092500.js:44-54 | whatever id the shared template carries from an earlier insertion, the upsert goes through, and leaves the tenant in the template and the new id if it inserted |
| `Schedulers.Collection.InsertForTenants` | app/migrations/20191007092500.js:61-64 | the series over the tenants with the one template object never meets a duplicate key and is the upsert of every tenant |
| `SchedulerCopies.CopyAllNames` | app/migrations/20200507093343.js:13-21 | a loop on its own leaves exactly the old and the copied names |
| `SchedulerCopies.CopyAllAppends` | app/migrations/20200507093343.js:13-21 | the old schedulers stay in front, and each appended one is a copy whose name was not there before it |
| `SchedulerCopies.StepKeepsInv` | app/migrations/20200507093343.js:15-20 | every find and every continuation keeps: each loop has had on its tenant the effect it would have alone, and what it has found still holds |
| `SchedulerCopies.EveryInterleavingCopiesTheSame` | app/migrations/20200507093343.js:45-52 | for two different tenants every interleaving leaves the same records, those of each loop alone, all others untouched and all ids distinct |
| `SchedulerCopies.SameTenantRaces` | app/migrations/20200507093343.js:13-21 | for one and the same tenant and a copied name that is not there yet, some interleaving of the two loops leaves more than one loop alone would |
| `SchedulerCopies.EveryInterleavingIsAloneExactly` | app/migrations/20200507093343.js:13-52 | every interleaving leaves what the loops alone would leave if and only if the tenants differ, as those of the migration do, or every copied name is there already |
| `Renames.RunManyIsSimultaneous` | app/migrations/20191104121140.js:9-18 | in every order multi updates are the simultaneous rename if no new name feeds another entry |
| `Renames.EveryOrderIsSimultaneousExactly` | app/migrations/20191104121140.js:9-18 | they are so for all records and orders if and only if no new name feeds another entry |
| `Renames.SingleUpdatesSimultaneousExactly` | app/migrations/20210422144320.js:92-98 | in every order the concurrent single updates are the simultaneous rename if and only if each old name to be changed occurs at most once |
| `Renames.Collection.UpdateEachOnce` | app/migrations/20210422144320.js:92-98 | the single updates in the order in which the database takes them |
| `Renames.Collection.UpdateEachMany` | app/migrations/20191104121140.js:9-18 | the series of multi updates |
| `Renames.CountriesSound` | app/migrations/20210422144320.js:5-86 | the country table has distinct old names, and no new name feeds another entry |
| `Renames.StatusesSound` | app/migrations/20191104121140.js:9-17 | the same of the status table |
| `Renames.CountryRenames` | app/migrations/20210422144320.js:88-98 | the country table in any order: the simultaneous rename if and only if no old country name occurs twice |
| `Renames.StatusRenames` | app/migrations/20191104121140.js:8-18 | the status table renames all records simultaneously |

## Left out

- The Mongo driver, mongoose, Bluebird and the stream internals, beyond atomic updates and the orders named above.
- Binary floating point in `toNumber` and `_.round`, and amounts that are not numbers: amounts and rates are real numbers.
- The stream of the billing migrations and their upsert of the "Fuzzy Matches" breakdown; the two shipped unit tables are
  parameters, because the results hold for all tables.
- app/migrations/20210422144322.js, which lets its stream go on before a request is finished.
- app/migrations/20170822141058.js and app/migrations/20170823192635.js, which update groups and copies of different names.
- The edits of scheduler fields around `replaceText`, and the collections it is called on.
- The index dropping and the environment guard of app/migrations/20200804074711.js; `validObjectId` of utils/schema is not
  part of this model and is taken as the test for the id tag.
- A request embedded in a transaction without its number: the model has a number wherever a request is embedded.
- The roles collection and its upserts, and the repeated identical updates of a user.
- `Hierarchy.AssignParent`: is modelled on values; that the original changes the nested object in place, and returns
  the same one, is not captured.
- `DocumentSplit.Request.SplitDocuments`: a request to be split without documents or workflows, or with a workflow task without
  provider tasks, makes the original throw half-way; such requests are excluded by a precondition or by the type.
- `PriorityStatus.SetProviderTasksPriorityStatus`: a task with provider tasks behind a task without that field makes the
  original throw; it is excluded by a precondition.
- `RoleGrants.Collections.GrantRoles`: the two concurrent updates of the group are taken in the order of the list; the
  change within one user is modelled on values.
- A `Big.DP` that is not a whole number from 0 to a million makes the division throw; the model has whole numbers only.
- Whether a missing company name, copied into the hierarchy, is stored as null.
- `SchedulerCopies.BuildLspSchedulers`: the copies are values; the id that an insertion writes into a copy is not modelled,
  as no copy is inserted twice.
- The schema-aware API, the REST endpoints, the migration runner, and migrations that only store lookup data.
