# Verified models of sofka's core logic

sofka is a terminal browser for Kubernetes. These Dafny modules model the parts of it
whose correctness spans many calls or whole runs, and prove what those parts are for:

- **The adjacency engine** (`Pointer`, `ViewKeys`, `Adjacency`, `AdjacencyPlan`). Reference rules are JSON Pointers with
  `*` fan-out. One plan reads them forwards (what an object names) and backwards (what
  names it). The two walkers agree, and the two readings agree exactly where stated below.
- **Atomic file replacement** (`AtomicFile`). A step relation over directory versions,
  inodes, open handles and bytes on disk or not, with any number of writers that collide,
  fail, die or lose power; and the writer's code as a run of those steps.
- **The filter grammar** (`Filter`, `FilterRoundTrip`, `Durations`). Tokenizer, Boolean
  parser and duration reader, with a printer for text, comparisons, selectors, groups and
  unfinished input, and a meaning for what it prints that the parser gives back. `Durations` also holds
  the elapsed-time printer of the table.
- **Publishing packages** (`Publish`). rclone filter rules, one upload as a journal of store
  operations that may break off anywhere, and retention over whole histories of uploads.
- **The node load index** (`NodeLoads`). Totals kept from a pod watch against recomputation,
  and the scheduling peak of one pod, with saturating 128-bit sums.
- **The application log** (`AppLog`, `Logfmt`, `LogQueue`). Sessions sharing and rotating one
  log under a lock, the logfmt quoting, and the bounded queue with its acknowledged flush.
- **The latency histogram** (`Latency`), **the escape repair** (`AltScroll`), **layered
  configuration** (`ConfigMerge`) and **table cells** (`CuratedColumns`, `Cells`, `ViewSpec`).

`Wrappers` and `Text` hold shared datatypes and character reading. Objects that the source
updates in place are classes whose methods are proved against functions of their state;
the lemmas are about those functions. Interleavings, failures and power loss are step
relations, and the class beside such a relation shows that the sequential code is one of
its runs. A `requires` in a method states what its caller has at hand (an unused inode
number, a free lock) or the invariant the methods keep.

Properties that turned out false of the code are stated with their exact condition:

- A reference whose rule has a `namespace_path`, on an element without a namespace, is read
  forwards in the row's namespace and not recognised backwards. The comment at
  `src/adjacent.rs:864-866` promises the fallback; the code at `src/adjacent.rs:883-886` does
  not have it. `Adjacency.ForwardIsBackwardIff` gives the condition and
  `Adjacency.NamespaceFallbackGap` an instance.
- What is recognised backwards is read forwards only if no earlier candidate kind answers to
  the element (`Adjacency.BackwardIsForwardIff`, with an instance in
  `Adjacency.AmbiguousKindGap`).
- A rule keyed by a bare plural that two API groups share is read forwards on both kinds and
  backwards from one. `ViewKeys.OwnKindIff` says exactly when a key resolves to its own kind,
  `AdjacencyPlan.PlansMeet` carries that into the plans, and `Adjacency.SharedPluralGap` is an
  instance.
- A skin pinned by an override is reported as pinned even when the override breaks the typed
  check and the base is in force (`ConfigMerge.PinnedSkinIsEffectiveIff`, with an instance in
  `ConfigMerge.BrokenOverridePinsNothing`).
- The latency figures are said to read "at most" (`src/diagnostics.rs:239-240`). The figure
  is at least the percentile exactly up to 2^25 microseconds (`Latency.FigureBounds`);
  `Latency.SlowRequestIsUnderstated` is a request past it.
- A running total of the node index is exact after an update exactly when the update changes
  nothing or the sum with the old version of the pod still counted fits 128 bits
  (`NodeLoads.ApplyIsExactIff`, with an instance in `NodeLoads.TransientSumIsLost`).
- `apply` is said to answer whether any node changed (`src/columns_metrics.rs:271`). It answers
  whether the index changed. `NodeLoads.NodesStayIff` says exactly when the nodes are as before,
  `NodeLoads.ReadingsStayIff` when they read as before (an entry of 0 can come or go unseen), and
  `NodeLoads.TrueWithoutAChange` is an update that answers true over unchanged nodes.
- A file that an upload listed can be deleted sooner than the retention time afterwards if that
  upload was interrupted. `Publish.InterruptedListingIsIgnored` says exactly when the next
  finished upload deletes it: by its own tree and the manifest as it stood before the interrupted
  ones; `Publish.InterruptedRunKeepsTheOldClock` is an instance.
- `merge` is not associative; `ConfigMerge.AssociativeIff` says exactly when grouping matters
  and `ConfigMerge.GroupingMatters` is a triple for which it does.
- A job whose completion time is present but unreadable keeps a stale running time in a
  cached row (`Cells.CellIsFreshIff`, with an instance in `Cells.StaleJob`).

## Model

| member | source | states |
|---|---|---|
| Pointer.TwoReplacesAreOnePass | src/adjacent.rs:400 | the two successive replaces equal a one-pass reading of `~1` and `~0` (section 4 of RFC 6901) on every string |
| Pointer.UnescapeEscape | src/adjacent.rs:400 | unescaping undoes escaping, and an escaped token holds no slash |
| Pointer.SegmentsOfEncoded | src/adjacent.rs:396-403 | decoding a pointer undoes encoding it, for every non-empty token list |
| Pointer.NodeAt | src/adjacent.rs:528-539 | the loop with its index cursor reaches exactly the node the recursive walk reaches |
| Pointer.Walker.Expand | src/adjacent.rs:407-441 | appends exactly the specified expansion in order and restores `taken` |
| Pointer.ExpansionIsWalk | src/adjacent.rs:407-441 | under any prefix already taken, the expansion holds exactly the index vectors whose walk ends, fully consumed, at a non-empty string |
| Pointer.ExpandAgreesWithNodeAt | src/adjacent.rs:407-441 | `expand` lists an index vector with a string exactly when `node_at` consumes it fully and reaches that non-empty string |
| Pointer.ExpansionIsOrdered | src/adjacent.rs:422-427 | the vectors come in strictly increasing lexicographic order, none a prefix of another, so each once |
| Pointer.WalkCompose | src/adjacent.rs:528-539 | walking a concatenated pointer is walking its parts with the indices that are left |
| Pointer.IndexIsRead | src/adjacent.rs:436-441 | a written array index is read as that number, with a plus sign or without, exactly when it fits 64 bits |
| Pointer.ExpansionIsDocument | src/adjacent.rs:407-441 | the expansion holds exactly the non-empty strings that stand in the document at the end of a path of keys and indices covered by the pointer, each under the indices its stars stand for |
| Pointer.HitReadsItsElement | src/adjacent.rs:476-507 | each hit says its name, namespace, kind and group as they stand at the four pointers under its own indices: the namespace and kind are absent exactly where no non-empty string stands there, the group keeps an empty one |
| Pointer.HitsAreElements | src/adjacent.rs:476-507 | the hits are exactly the elements the document has for the four pointers |
| Pointer.SharedPrefixReadsSameElement | src/adjacent.rs:476-507 | a namespace, kind or group path sharing the starred prefix reads from the element the name came from; what a hit takes from it is `Pointer.HitReadsItsElement` |
| Adjacency.ResolveCandidates | src/adjacent.rs:747-781 | the loop over kind names keeps the first of each kind |
| Adjacency.CandidatesAreDistinct | src/adjacent.rs:758-763 | no two candidate targets are the same kind |
| Adjacency.CandidatesCover | src/adjacent.rs:758-763 | every resolvable name of the rule is represented among the candidates |
| Adjacency.CandidatesAreServed | src/adjacent.rs:758-763 | every candidate is what the registry knows under one of the names |
| Adjacency.DefaultKind | src/adjacent.rs:747-781 | when a rule has its own kind as default, which candidates a rule of one kind has, and exactly when a default among several kinds is reported as stray |
| Adjacency.FirstElement | src/adjacent.rs:789 | the first candidate that an element naming a kind names; past the end only when none is |
| Adjacency.FirstDefault | src/adjacent.rs:790-793 | the first candidate that an element without a kind names through the default; past the end only when none is |
| Adjacency.PickIsNamed | src/adjacent.rs:784-796 | what is picked is the first candidate that the backward test `hit_names_kind` accepts for the same element, and nothing is picked exactly when it accepts none |
| Adjacency.PickIsFirst | src/adjacent.rs:784-796 | a candidate is picked exactly when it answers to the element and no earlier candidate does |
| Adjacency.PickByName | src/adjacent.rs:784-796 | an element that says its kind goes exactly to the first candidate with that name among its kind, plural or qualified plural, letter case aside, in the group that the element says or else the rule |
| Adjacency.PickByDefault | src/adjacent.rs:784-796 | an element that says no kind goes exactly to the first candidate of the default kind, or of its name in the group that the element or the rule says |
| Adjacency.AddRef | src/adjacent.rs:697-704 | references stay grouped: one entry per target, in the order targets are first named, with all its references in order |
| Adjacency.ReadHits | src/adjacent.rs:666-705 | every element with a target is either read or warned about, every warning comes from an element, and what is read is grouped by target |
| Adjacency.PlanRule | src/adjacent.rs:651-706 | the forward half of the plan for one rule: its references grouped by target, exactly its warnings, and when it is skipped |
| Adjacency.RefComesFromHit | src/adjacent.rs:666-705 | a reference is in the plan exactly when some element of the object yields it |
| Adjacency.ForwardIsBackwardIff | src/adjacent.rs:867-889 | a forward reference is recognised backwards exactly when the target is cluster-scoped, the rule has no `namespace_path`, or the element carries a namespace |
| Adjacency.RefsToNamespacedHaveNamespace | src/adjacent.rs:680-696 | every reference to a namespaced target has a non-empty namespace |
| Adjacency.ElementReadsIff | src/adjacent.rs:667-704 | exactly when one element makes the plan read a given candidate under a given name and namespace |
| Adjacency.BackwardIsForwardIff | src/adjacent.rs:784-796 | an element recognised backwards as naming a candidate makes the forward half read it exactly when the kinds can reach each other and no earlier candidate answers to the element |
| Adjacency.ReferenceIff | src/adjacent.rs:651-707 | the plan of a whole object reads a candidate under a name and namespace exactly when some element of that name takes that namespace and picks the candidate first |
| Adjacency.ReferenceIsWrittenIff | src/adjacent.rs:651-707 | a reference is read exactly when the kinds can reach each other and some element of the document has its name, goes to its target and says its namespace, or says none and the object is in it |
| Adjacency.OneKindIsReadIff | src/adjacent.rs:651-707 | for a rule of one kind: exactly which names and namespaces of that kind an object makes the plan read, from its document |
| Adjacency.ClaimIsRead | src/adjacent.rs:265-272 | a persistent volume that says its claim is `data` in `prod` makes the plan read exactly that claim there |
| ViewKeys.LookupKeysAreSpelt | src/views.rs:875-892 | the keys of a kind are exactly its four spellings, each plain or qualified with the object's namespace |
| ViewKeys.LookupKeysInOrder | src/views.rs:875-892 | the keys in the order they are looked up, the object's own namespace before all namespaces |
| ViewKeys.LayoutIsIgnored | src/views.rs:217-221 | a key for a named layout, with or without a namespace, names the plural |
| ViewKeys.AskedName | src/adjacent.rs:562-580 | the name the registry is asked for on the kinds that Kubernetes serves: the plural, qualified by the group where there is one and the key says it |
| ViewKeys.KeyParts | src/views.rs:217-221 | a spelt key falls into its own plural, namespace and prefix again |
| ViewKeys.ResolvesIff | src/adjacent.rs:562-580 | exactly which kind a key of a given kind resolves to, for every registry |
| ViewKeys.OwnKindIff | src/adjacent.rs:562-580 | a key resolves to its own kind exactly when the registry knows the kind under the name asked for |
| ViewKeys.LookupKeyScope | src/views.rs:875-892 | a rule that applies to an object is keyed for every namespace or for the object's own |
| Adjacency.ReverseLookupFindsReference | src/adjacent.rs:708-736 | if an object's plan reads a target by a reversible rule, the target's plan lists that source kind exactly when the registry knows it under the name the rule's key asks for; then the object is recognised, with the exact condition for the scope to cover it |
| Adjacency.ListedIff | src/adjacent.rs:708-736 | a rule is read backwards from a kind exactly when it is reversible, has a target of the selection's resource and group, its key resolves, and the namespace it needs is told |
| Adjacency.ScopeHoldsIff | src/adjacent.rs:727-731 | exactly which objects a backward read looks at: all of a cluster-scoped kind, else those of the key's namespace, of the selection's, of the table's, or all |
| Adjacency.NamespaceFallbackGap | src/adjacent.rs:883-886 | a concrete object read forwards in its own namespace and not recognised backwards |
| Adjacency.AmbiguousKindGap | src/adjacent.rs:891-899 | a registry with two kinds of one name, a rule and an object: the second kind is recognised backwards although nothing reads it |
| Adjacency.SharedPluralGap | src/adjacent.rs:562-580 | a registry with one plural in two groups and a rule keyed by it: the rule reads both kinds forwards and lists one of them backwards |
| AdjacencyPlan.RulesFor | src/adjacent.rs:342-359 | the rules of an object, in order: exactly the built-in rows and then the views keyed for its kind and namespace |
| AdjacencyPlan.AllRules | src/adjacent.rs:386-392 | the built-in rules and then every view's, each view once in some order |
| AdjacencyPlan.PlanForward | src/adjacent.rs:651-707 | rule by rule in order, every reference is planned under its target and nothing else is; every warning has its cause and every cause its warning |
| AdjacencyPlan.PlanBackward | src/adjacent.rs:708-736 | exactly the rules that can name the selection are read backwards, in order and with their scope, and exactly the barred ones are warned about |
| AdjacencyPlan.MakePlan | src/adjacent.rs:619-738 | the whole plan: every rule that applies is accounted for in order, nothing else is read, backward reads are exact, and it warns exactly where a rule could not be followed |
| AdjacencyPlan.PlannedBackward | src/adjacent.rs:708-736 | a rule is in the plan's backward half exactly when it is known and can name the selection |
| AdjacencyPlan.ListedOrWarned | src/adjacent.rs:708-736 | a reversible rule that can name the selection and whose kind is known is either listed or warned about, never both, and warned about only if no object of its kind could be read as naming a selection of that kind |
| AdjacencyPlan.RuleMeets | src/adjacent.rs:708-736 | one reference seen from both ends: when exactly reading the rule backwards from what it names lists the source kind, when exactly the listed scope holds the object, and when the object is recognised there |
| AdjacencyPlan.PlansMeet | src/adjacent.rs:619-738 | if one object's plan reads another by a reversible rule, the other's plan lists the first one's kind by that rule exactly when the registry knows it under the name the rule's key asks for; when exactly the listed scope holds the first object; and the first object is recognised unless its element lacks the namespace its rule points at |
| AdjacencyPlan.PodAndSecret | src/adjacent.rs:619-738 | an instance of two plans that meet: a pod names a secret, and the secret's plan lists pods and recognises this one |
| Adjacency.Dedup | src/adjacent.rs:903-914 | keeps, in order, exactly the items no earlier item matches, so no two kept items match |
| AtomicFile.StepKeepsInv | src/atomicfile.rs:39-111 | every step of any writer, failure, death or power loss keeps the invariant on directories, inodes and owners |
| AtomicFile.RunKeepsInv | src/atomicfile.rs:39-111 | the invariant holds in every reachable state |
| AtomicFile.TargetIsNeverTorn | src/atomicfile.rs:39-111 | in every reachable state the target is its initial bytes or the whole contents of one write, and no open handle reaches the published inode |
| AtomicFile.TargetChangesOnlyByRename | src/atomicfile.rs:95-111 | what a reader sees changes only when a complete file is renamed into place, or on a power loss to an earlier version |
| AtomicFile.CleanUpRemovesOwnTemp | src/atomicfile.rs:48-55 | cleanup removes one entry, the writer's own temp file, and no other writer's |
| AtomicFile.PowerLossKeepsInv | src/atomicfile.rs:102-108 | losing power with the directory unsynced keeps the invariant, because bytes are synced before the rename |
| AtomicFile.Volume.CreateTemp | src/atomicfile.rs:68-93 | claims the first free candidate within the attempts, exactly when there is one before a refused create; the directory is otherwise unchanged |
| AtomicFile.Volume.WriteThenRename | src/atomicfile.rs:95-111 | succeeds exactly when no call fails, and then publishes the contents; on failure the target is unchanged |
| AtomicFile.Volume.WriteWith | src/atomicfile.rs:39-56 | an undisturbed write succeeds exactly when a name is claimed and no later call fails, publishes only its contents, and on failure leaves the directory as it was unless the cleanup fails too |
| Filter.RegexEnd | src/filter.rs:667-697 | the expression ends after the first unescaped slash that ends a term outside every character class, else after the first unescaped slash that ends a term, else nowhere |
| Filter.RegexEndFinds | src/filter.rs:667-697 | the scan specified for the tokenizer finds that same end from whatever it has seen so far |
| Filter.Tokenize | src/filter.rs:523-578 | the loop over quotes, groups and escapes yields the specified tokens or error |
| Filter.TokensAreShort | src/filter.rs:523-578 | tokens never hold more text than their input |
| Filter.BranchesAreShorter | src/filter.rs:332-355 | splitting at `||` gives strictly less text per branch |
| Filter.ParseTokens | src/filter.rs:325-497 | the parser meets its specification and terminates by total text length, independent of the depth limit; what the specification makes of a filter is `FilterRoundTrip.ParseUndoesPrint` |
| FilterRoundTrip.TokensOfPrinted | src/filter.rs:523-578 | tokenizing a printed filter cuts exactly at its separators, whatever its quotes, groups, regular expressions, bars and selectors |
| FilterRoundTrip.SplitCmpOfPrinted | src/filter.rs:778-805 | a written comparison splits into its own key, operator and value |
| FilterRoundTrip.ParsedBody | src/filter.rs:325-497 | parsing a printed body at any depth gives exactly its terms, label selectors, field selectors and first error |
| FilterRoundTrip.ParsedLine | src/filter.rs:361-497 | a line without `||` gives its terms, its label selectors and its field selectors joined by commas each in the order written, and its first error |
| FilterRoundTrip.ParsedSides | src/filter.rs:332-355 | the sides of an or give one alternative each, or the error of the first side that is empty, holds a selector, is too deep or is wrong in itself |
| FilterRoundTrip.AlternativesAreRead | src/filter.rs:741-758 | words between bars: empty ones do not count, one left alone is plain text, and none is an error |
| FilterRoundTrip.PrintedIsTrimmed | src/filter.rs:294-307 | a printed filter has no blanks around it |
| FilterRoundTrip.PaddingIsIgnored | src/filter.rs:294-307 | blanks around a filter make no difference |
| FilterRoundTrip.PlainFilter | src/filter.rs:312-323 | a filter without any marker is one text term per word, with the first error |
| FilterRoundTrip.ParseUndoesPrint | src/filter.rs:294-307 | parsing a written filter gives exactly what was written: text in all its forms, comparisons quoted either way or not, `-l` and `-f` selectors in all their forms, and, or and groups, with the exact error where something is missing, misplaced or too deep |
| FilterRoundTrip.SelectorsAreKeptApart | src/filter.rs:403-433 | an instance with all three spellings: `-l` and attached `-l` fill the label selector, `-f` the field selector |
| FilterRoundTrip.BalanceDecides | src/filter.rs:523-578 | a text without slashes is refused for a `)` exactly when one outside quotes has nothing to close, else for a parenthesis left open, and is taken when nothing is left open |
| FilterRoundTrip.OpenQuote | src/filter.rs:567-577 | a word with a quote left open is taken exactly when a double quote starts it, behind `!` and `label:` or not |
| FilterRoundTrip.UnbalancedGroupIsRefused | src/filter.rs:294-307 | a filter that starts with a group is refused with exactly that error when its parentheses do not close |
| FilterRoundTrip.OddWordIsText | src/filter.rs:309-323 | a `)` or an apostrophe inside a plain word leaves it plain text |
| Durations.ParseDuration | src/filter.rs:903-934 | the loop computes the specified reading, with all three overflow checks |
| Durations.WellFormedIsRead | src/filter.rs:903-934 | every list of number and unit parts is read as its exact sum, or refused when the sum does not fit a signed 64-bit integer |
| Durations.AcceptedIsWellFormed | src/filter.rs:903-934 | whatever is accepted and not a bare number is such a list, and its value the exact sum |
| Durations.BareNumberIsRead | src/filter.rs:903-934 | a bare number, signed or not, is read exactly when it is not negative and fits 64 bits |
| Durations.UnitsAreWorth | src/filter.rs:903-934 | what one part of each unit is worth in seconds |
| Durations.HumanizeRoundTrip | src/columns.rs:2182-2204 | reading a printed duration loses less than the last unit printed, and printing what was read changes nothing |
| Publish.PhasesPartition | scripts/package_repos.py:33-37 | every path is selected by exactly one of the three copy phases' filter rules |
| Publish.GlobIsFilling | scripts/package_repos.py:33-37 | a path matches a pattern exactly when it is the pattern with every star filled in by characters other than a slash |
| Publish.Store.Copy | scripts/package_repos.py:427-429 | one copy phase puts exactly its files after all earlier phases, unless the store fails |
| Publish.Store.Upload | scripts/package_repos.py:414-437 | a run leaves a layered journal; finished, the bucket and manifest are exactly as specified; it stops early only where the store fails |
| Publish.FinishedIsCompleted | scripts/package_repos.py:430-437 | replaying any complete journal leaves exactly the specified bucket and manifest |
| Publish.NothingNamedIsMissing | scripts/package_repos.py:425-429 | at every instant of a run, once a file of one phase is up every tree file of an earlier phase is in the bucket; which phase comes first is `Publish.EntryPointsComeLast` and `Publish.MetadataFollowsPackages` |
| Publish.EntryPointsComeLast | scripts/package_repos.py:425-429 | once a file matching an entry point pattern is put, every tree file that matches none has been put and is in the bucket from then on |
| Publish.MetadataFollowsPackages | scripts/package_repos.py:425-429 | once a file that is neither an entry point nor a package is put, every package of the tree has been put and is in the bucket from then on |
| Publish.DebianOrder | scripts/package_repos.py:33-37 | on concrete paths: the release file goes up after the package and its index, the index after the package |
| Publish.LedgerNamesTheBucket | scripts/package_repos.py:436-437 | after a finished run the manifest's keys are exactly the bucket's files |
| Publish.LedgerAlwaysTellsRuns | scripts/package_repos.py:418-421 | over every history each recorded time is that of a finished run that did not list the file, and no finished run since has listed it |
| Publish.RetentionIsKept | scripts/package_repos.py:430-435 | over every history, interrupted runs included, a file is taken out only if a finished run more than RETENTION ago found it gone from the indexes and no finished run has listed it since |
| Publish.DeletedWasLongUnlisted | scripts/package_repos.py:39-41 | no finished run listed a deleted file within the retention time |
| Publish.BucketIsExactlyTheRetained | scripts/package_repos.py:414-437 | after finished runs the bucket holds exactly the manifest and the files some run listed that have not been out of the index longer than RETENTION |
| Publish.InterruptedListingIsIgnored | scripts/package_repos.py:418-435 | after any interrupted uploads, the next finished one deletes a file that is up exactly when its tree does not list it and the manifest from before them holds a non-zero time for it that is older than the retention time |
| Publish.InterruptedRunKeepsTheOldClock | scripts/package_repos.py:421 | a history in which a file uploaded by an interrupted run is deleted one second later |
| NodeLoads.PodEffective | src/columns_metrics.rs:344-394 | the one-pass loops compute, per resource, the capped maximum over startup phases, then pod-level declarations, then overhead |
| NodeLoads.PeakIsMaximum | src/columns_metrics.rs:371-381 | the peak bounds every phase and is reached by one |
| NodeLoads.EffectiveIsPodAmount | src/columns_metrics.rs:344-394 | what a pod counts for, said from its own fields, for requests and for limits: its own amount of `cpu`, `memory` or huge pages, else the most that runs at once, plus overhead, which a limit only gets where there is one |
| NodeLoads.SidecarStepsAreFree | src/columns_metrics.rs:372-380 | leaving out sidecars' own start steps never changes the peak |
| NodeLoads.NodeLoads.Add | src/columns_metrics.rs:303-315 | the loops add a pod to its node's count and capped totals |
| NodeLoads.NodeLoads.Retire | src/columns_metrics.rs:317-338 | the loops take a pod out, drop entries at zero or below and the node at its last pod |
| NodeLoads.NodeLoads.Apply | src/columns_metrics.rs:272-286 | the new state is the specified one, and false means exactly that nothing changed |
| NodeLoads.NodeLoads.Remove | src/columns_metrics.rs:289-297 | the new state is the specified one, and false means exactly that nothing changed |
| NodeLoads.RemoveIsExact | src/columns_metrics.rs:289-297 | forgetting a pod keeps presence, counts and every total exact |
| NodeLoads.ApplyIsExactIff | src/columns_metrics.rs:272-286 | from exact totals, a new version of a pod keeps them exact just when it changes nothing or the transient sum fits 128 bits |
| NodeLoads.TransientSumIsLost | src/columns_metrics.rs:278-281 | a pod asking for the largest amount is seen asking for 1, and its node then reads 0 |
| NodeLoads.NodesStayIff | src/columns_metrics.rs:271-286 | from exact totals and with a fitting transient sum, an update leaves the nodes as they were exactly when nothing changed or the pod stays on its node with the same amounts and no entry of 0 comes or goes |
| NodeLoads.ReadingsStayIff | src/columns_metrics.rs:271-286 | exactly when an update leaves every reading of every node as it was: same pod, same node, same amounts with an absent one as 0 |
| NodeLoads.RemovalShows | src/columns_metrics.rs:289-298 | forgetting a pod leaves the nodes as they were exactly when the pod was not known, so its answer is right |
| NodeLoads.TrueWithoutAChange | src/columns_metrics.rs:271-275 | a history after which an update answers true and no node changes |
| NodeLoads.RunIsExact | src/columns_metrics.rs:265-338 | after any sequence of events a node is present exactly when a tracked pod is bound to it, and its count and every total, absent entries as 0, equal recomputation |
| NodeLoads.NodesSumTheirPods | src/columns_metrics.rs:246-338 | after any sequence of events a node's `requests` are the sum of what the pods last seen on it request and its `limits` the sum of their limits, and the nodes are those with such a pod |
| AppLog.StepKeepsInv | src/applog.rs:285-346 | starting, locking, reopening, rotating, appending, failing and dying keep the invariant |
| AppLog.LogIsRecentHistory | src/applog.rs:306-346 | in every reachable state the rotated file then the current one are a suffix of all appends in lock order, and each fits its last writer's limit or is one append |
| AppLog.OnlyFullLogsRotate | src/applog.rs:306-346 | at every step of every interleaving both files keep what they hold, or the current file, not empty, takes the place of the rotated one because with some session's line it would have passed that session's limit in bytes |
| AppLog.Directory.Begin | src/applog.rs:285-304 | a session starts with its limit, one byte at least, and leaves what both files hold |
| AppLog.Directory.Open | src/applog.rs:316-321 | taking the lock and reopening reads the size of the file as it is then |
| AppLog.Directory.MakeRoom | src/applog.rs:322-346 | rotates exactly when the log holds something and its bytes and the line's pass the limit; the previous generation is replaced |
| AppLog.Directory.Write | src/applog.rs:306-329 | what one write leaves in both files and when it succeeds, for every place it can fail: the line is added to a log that is empty or has room for it in bytes, and else stands alone after the log is renamed |
| Logfmt.PushValue | src/applog.rs:250-272 | the scan and the escaping loop append the value as it is or quoted |
| Logfmt.FormatFields | src/applog.rs:236-246 | the loop appends the field section of the redacted fields and one newline |
| Logfmt.FieldsAreReadBack | src/applog.rs:237-271 | for plain keys and arbitrary values, splitting at unquoted spaces and unescaping recovers every field |
| Logfmt.PlainIff | src/applog.rs:249-262 | a value stands as it is exactly when it is not empty and holds no space, control character, quote, equals sign or backslash |
| Logfmt.EscapesAreWritten | src/applog.rs:262-271 | how a newline, a return, a tab, a quote and a backslash are written |
| Logfmt.OneNewline | src/applog.rs:245-267 | the field section holds no newline before its end |
| LogQueue.Sink.Emit | src/applog.rs:211-220 | a line is accepted in order exactly when the queue has room, else counted as dropped |
| LogQueue.Sink.AskFlush | src/applog.rs:179-186 | a flush is queued behind the lines accepted so far, without waiting |
| LogQueue.Sink.Take | src/applog.rs:365-376 | one entry is handled in order, and a newer flush replaces the batch's older one |
| LogQueue.Sink.EndBatch | src/applog.rs:357-360 | acknowledges the batch's flush and nothing else, whatever other threads have queued since the last receive |
| LogQueue.Sink.Drain | src/applog.rs:351-361 | a batch handles everything accepted and acknowledges the newest flush |
| LogQueue.Sink.AcknowledgedMeansHandled | src/applog.rs:349-361 | every line accepted before an acknowledged flush has been handed to the file, in order |
| Latency.Stats.Record | src/diagnostics.rs:213-223 | counters, maximum and histogram stand for the samples so far, wrap-around included |
| Latency.Percentile | src/diagnostics.rs:281-291 | the loop returns the bound of the bucket in which the running count reaches the target, 0 only if it never does |
| Latency.Stats.Summary | src/diagnostics.rs:247-276 | with no counter wrapped the figure is the bucket bound of the nearest-rank sample, clamped to the maximum |
| Latency.PercentileIsRankBucket | src/diagnostics.rs:281-291 | the reported bucket is that of the nearest-rank sample and the loop never falls through |
| Latency.TargetIsNearestRank | src/diagnostics.rs:281-283 | the target is the least number of samples, one at least, that makes the percentage of them, with a saturating product |
| Latency.BucketBounds | src/diagnostics.rs:225-227 | a bucket's bound exceeds a sample exactly below 2^25, by at most its double |
| Latency.FigureBounds | src/diagnostics.rs:263-275 | the figure is never above the maximum, at least the percentile exactly up to 2^25, and within a factor of two below it |
| Latency.SlowRequestIsUnderstated | src/diagnostics.rs:239-240 | one request of 2^25 + 1 microseconds: every percentile is that sample and the figure shown is below it |
| Latency.FigureIsMonotone | src/diagnostics.rs:281-291 | a larger percentile never shows a smaller figure |
| Latency.BucketsSumToCount | src/diagnostics.rs:213-223 | the buckets sum to the number of requests exactly as long as none has wrapped |
| AltScroll.Repair.Push | src/altscroll.rs:63-106 | output and new state as specified; what is emitted and still held is the rewriting of what was held and the key |
| AltScroll.Repair.Flush | src/altscroll.rs:109-115 | releases what is held and nothing else |
| AltScroll.StreamIsRewritten | src/altscroll.rs:63-115 | for every stream of presses and flushes the output is the rewriting of each flush-delimited run, with at most two keys held |
| AltScroll.NothingElseChanges | src/altscroll.rs:87-103 | the output is the input with whole sequences joined and lone introducers shown as `[`; nothing else is lost, added or reordered |
| AltScroll.SplitCursorKeys | src/altscroll.rs:119-127 | what comes out for Esc, either introducer and each of the letters A, B, C and D, with or without Shift, and for any other key |
| AltScroll.RewriteIsIdempotent | src/altscroll.rs:63-115 | rewriting a second time changes nothing |
| ConfigMerge.Merge | src/config.rs:1974-1988 | the loop and recursion compute the specified merge |
| ConfigMerge.MergedAt | src/config.rs:1972-1988 | the merge at every path: the overlay wins, two tables merge, an overlay value hides what was below it, the rest of the base stays |
| ConfigMerge.MergeIsIdempotent | src/config.rs:1974-1988 | merging a value with itself changes nothing |
| ConfigMerge.MergeAbsorbs | src/config.rs:1974-1988 | merging the same overlay again changes nothing |
| ConfigMerge.EmptyIsIdentity | src/config.rs:1974-1988 | the empty table is an identity for tables |
| ConfigMerge.AssociativeIff | src/config.rs:1974-1988 | grouping of merges makes no difference exactly when no path holds a table, a plain value and a table, with something below the first that the last neither has nor blocks |
| ConfigMerge.OutlastsIff | src/config.rs:1974-1988 | a merge differs from its overlay exactly when the base has some path that the overlay neither has nor blocks |
| ConfigMerge.GroupingMatters | src/config.rs:1974-1988 | a table, a plain value and a table whose merge depends on the grouping |
| ConfigMerge.CombineByName | src/config.rs:1946-1965 | the loop leaves each name once at its first position with its last content |
| ConfigMerge.NamesOnce | src/config.rs:1956-1965 | no name occurs twice in the combined list |
| ConfigMerge.LatestIsLast | src/config.rs:1961 | the content kept for a name is that of its last entry |
| ConfigMerge.FirstOfName | src/config.rs:1958-1964 | every name of the input is in the combined list |
| ConfigMerge.UnnamedAreKept | src/config.rs:1956-1965 | unnamed entries all stay, in order |
| ConfigMerge.KeptAreTheRest | src/config.rs:1931-1941 | removal keeps every entry as often as it was, except those whose name is listed |
| ConfigMerge.KeptOfBoth | src/config.rs:1931-1941 | removal is decided entry by entry and keeps the order |
| ConfigMerge.Config.MergeConfig | src/config.rs:1923-1970 | invalid controls leave the base untouched; otherwise removal, combination and merge as specified |
| ConfigMerge.PluginsOfLayer | src/config.rs:1930-1967 | the plugin list after one layer, in both modes |
| ConfigMerge.PluginModes | src/config.rs:1923-1970 | without `plugins_merge` or with `replace` a layer's list stands alone, with `name` it is combined with the one before, and any other value makes the layer invalid |
| ConfigMerge.RemovalsAreStrings | src/config.rs:1923-1941 | `plugins_remove` is valid exactly as an array of strings, and those are the names removed |
| ConfigMerge.SameNameTakesThePlace | src/config.rs:1946-1965 | an instance: the plugin of the same name takes the old one's place and a new one goes last |
| ConfigMerge.ControlsAreNotStored | src/config.rs:1928-1929 | the control keys never enter the merged document |
| ConfigMerge.Layered | src/config.rs:1814-1887 | the fold over base, drop-ins and overrides, the fallback to the base or the defaults when the typed check fails, and the overrides alone; whatever is in force passes the check unless nothing does |
| ConfigMerge.OverridesDecide | src/config.rs:1853-1869 | a leaf the overrides set, away from the plugin keys, is the merged document's over any base, and its every other leaf is the base's |
| ConfigMerge.NewestLayerDecides | src/config.rs:1853-1869 | a leaf that the last valid layer sets is in force over any layers before it |
| ConfigMerge.PinnedLeafIsEffectiveIff | src/config.rs:1871-1878 | a leaf the overrides set is in force exactly when the merged document passes the typed check or the document fallen back to has that leaf |
| ConfigMerge.PinnedSkinIsEffectiveIff | src/config.rs:1909-1913 | the skin reported as pinned is in force exactly when the merged document passes the typed check or the document fallen back to names it |
| ConfigMerge.BrokenOverridePinsNothing | src/config.rs:1871-1878 | an override that breaks the typed check: its skin is reported as pinned while the config file's is in force |
| Cells.TablesAgree | src/columns.rs:403-445 | for every group and resource name, each curated column has an override exactly when its extractor reads the clock, although overrides ignore the group |
| Cells.CellIsFreshIff | src/columns.rs:1024-1040 | for every kind and each of its columns, the overridden or kept cell equals a fresh render exactly unless it is the moving duration of a job with an unreadable completion time |
| Cells.StaleJob | src/columns.rs:1032-1034 | such a job, cached at 45 seconds and refreshed at 90, still shows 45s |
| Cells.KeptTimeServes | src/columns.rs:864-881 | the release time a render keeps beside its row serves every cell of that row as decoding the release again would, although only some renders decode one |
| Cells.Refresh | src/columns.rs:846-881 | refreshing a cached row over its kept release time gives the fresh row at the new clock, cell by cell, under that exact condition |
| Cells.ClockCells | src/columns.rs:2092-2104 | what each column that reads the clock shows: the time since its moment, never negative, or its own text without one; a finished job shows how long it ran |
| Cells.ConfiguredCells | src/columns.rs:846-881 | a configured time column shows the time since it, never negative, or its own text without one |
| Cells.AgeReadsBack | src/columns.rs:2092-2104 | the age shown reads back as the time since creation, short of the last unit shown |
| Cells.CpuReadsBackRounded | src/columns.rs:2881-2897 | every amount reads back: a dash for none, exact millicores below one core, from there on the amount rounded half up to hundredths, carry included |
| ViewSpec.OverlayColumns | src/columns.rs:612-633 | exactly these columns in exactly this order: the kind's headers, then new configured ones as first configured, AGE last; under each header the last column configured there, else the curated one; nothing else is shown and headers stay distinct |
| ViewSpec.ConfiguredIsShown | src/columns.rs:593-608 | under a configured header stands the table's column that its last configuration points at, or that configuration's own time or text |
| ViewSpec.UnsupportedIsSkipped | src/columns.rs:593-608 | a configured column is left out exactly when the kind does not support it or has no column of the name it points at |

## Left out

- ViewKeys: how the registry is built from discovery; resources and kinds hold no `/` or `@` and namespaces no `/`, as Kubernetes names do not.
- AdjacencyPlan: owners and children, which are plain lookups; the kind registry is a parameter, and warning texts are reduced to their cause, without their order.
- Pointer: array indices are read as `usize` the way the code does, so `01` is accepted; the strictness of RFC 6901 is not claimed.
- Text: case folding is ASCII only, as the modelled comparisons need; the Unicode folding of filter matching is not part of this model.
- AtomicFile: one target file; a rename either happens or fails as a whole; creating the parent directory is not modelled.
- AtomicFile.Volume.WriteWith: states one writer's calls undisturbed by others; what others can do in between is the step relation's theorem.
- Filter: `typed_value` and the compilation of a regular expression are parameters; evaluating terms against rows, fuzzy matching and highlighting are not modelled.
- FilterRoundTrip.ParseUndoesPrint: single-quoted text, text that holds its own quote, regular expressions with brackets, backslashes or slashes, and separators written without spaces or with several have no printer; the parser models them.
- Publish: file contents, checksums, cache headers and signing; directory pruning by rclone's filters; a store operation happens or does not.
- Publish.RetentionIsKept: the history starts without a manifest, and an interrupted run's tree holds no file under the manifest's own name.
- Publish.BucketIsExactlyTheRetained: a clock reading of 0 is excluded, because the code takes a recorded 0 for a missing time.
- NodeLoads: parsing quantities and reading the pod's JSON; a pod arrives as its containers' amounts, which the code makes non-negative. Percentages are floating point.
- AppLog: bytes are characters; `unlock` failing and reading a file's size failing count as the failures before and after them; nobody else deletes the log.
- AppLog.Directory.Write: one write undisturbed; interleavings are the step relation's theorem.
- Logfmt: redaction is a parameter, and the fixed head of a line (time, level, event) is passed through.
- LogQueue: the shutdown grace period and disconnected channels; a write error is dropped by the code as well.
- Latency: concurrent readers between the atomic updates of one record; the average and the conversion to floating-point milliseconds.
- ConfigMerge: reading and parsing files, key migration and bundled plugins; the typed check of a document is a parameter; a control given in serde's table spelling of an enum is treated as invalid.
- ConfigMerge: `sanitize` would only add easy members.
- Cells: what a curated extractor that ignores the clock shows is a parameter, and which extractors read the clock is taken from their code; user time columns are given by their time; overflow of clock differences is not modelled, nor are the floating-point memory formats.
- ViewSpec: views that replace all columns, the default metric columns of pods and nodes, and hiding wide columns.
- Durations: `humanize` is stated for non-negative seconds, the only values its callers pass.
