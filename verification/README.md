# Conditions of AddonConfig: a verified model

AddonConfig is a Kubernetes controller that reports on its objects through *conditions*: one entry per condition
type, each with a status, a severity, a reason, a message and the time of its last transition. Several controllers may
write conditions of the same object at once. This project models the parts of the repository that make this safe, and
proves what they are for.

* **The condition list** (`Api`, `Ordering`, `Store`, `Histories`, `Times`). A slice that is edited in place and sorted again
  after each edit. It implements a finite map from type to condition; its order is canonical, Ready first and then by
  name; a transition time is the time of the last change of state, and it is proved exactly when times can go back.
* **The three-way merge** (`MergePatch`, `MergeLaws`). The diff of a list before and after a reconciliation is replayed
  on the list that the server holds by then. Types the controller owns always win; on others a disagreement is a
  conflict. The merge is proved equal to a table read off the three entries of one type.
* **Publishing** (`Json`, `World`, `WorldLaws`, `Confluence`, `Publish`, `Payloads`, `PatchHelper`). The conditions go
  out in a loop of at most five attempts: read, merge, write under the version that was read. The server, any number of
  controllers and any number of other writers form a transition system in which reads may be stale; the loop is proved
  to be a run of it. Spec, metadata and the rest of the status follow in two writes without the version lock, whose
  payloads come from shallow copies that share an inner map with the originals. A write is a JSON merge patch in the
  sense of section 2 of RFC 7396.
* **Summaries** (`Groups`, `Summary`, `SummaryLaws`, `Readings`). Many conditions are merged into one by grouping, sorting and
  picking a representative. This is proved equal to a minimum, what the result says is given field by field, and it is
  proved exactly when the result does not depend on what an unstable sort does with ties. Since Unknown ranks below True, an object with a True and an Unknown condition
  is summed up as True.
* **Reconciliation** (`Reconcile`, `AddonConfig`). The phase pipelines, one nested in the other, and how the controller
  sums up and publishes what its phases found.

Where the source works by assignment, so does the model: `Store.Object`, `MergePatch.Patch`, `Publish.Server`,
`Payloads.Unstructured` and `PatchHelper.Helper` are classes whose methods change fields, and the loops of the source
are loops with invariants. Each such method is proved against a function of the old state, and the laws are proved about
those functions. The clock is a parameter; so is whatever the surroundings do: what other processes write and when, how
old a cached read is, which requests fail.

A list is abstracted by `Ordering.Entries`, a map in which the first condition of a type counts. Sorting is specified by
its result only (an ordered permutation), so every law holds for any sorting algorithm, stable or not. Every lemma
switches automatic induction off and calls itself where it needs to.

## Where the code and its comments differ

The model follows the code.

* `Set` is described as updating the transition time only on a change of state. When it adds a condition that already
  carries a time, it keeps that time. So the times of a type can go back: after a deletion, when a mirrored condition
  brings an older time (`Histories.MirrorCanTurnBackTime`), and without one, when a mirrored time lies ahead of the clock
  and the state then changes (`Histories.ChangeAfterMirrorCanTurnBackTime`). `Times.TimesNeverDecreaseIff` gives the exact
  condition over every history, merges and mirrors included.
* `WithForceOverwrite` is described as a setting for owned conditions. It overrides conflicts for every type
  (`MergeLaws.ForceNeverConflicts`).
* A removal is described as a conflict if the condition was changed in the meantime. It forgives a changed transition
  time on the server, which a change does not (`MergeLaws.Untouched`).
* Changes are described as applied to the latest version of the object. The client may serve an older one from its
  cache, and then a call can end in a conflict that the latest version would not give (`Confluence.StaleVersionCanMislead`;
  `Confluence.OutcomeIsFixedIff` says exactly when). A write that commits is never based on an older version.
* A priority that "should never happen" does happen for a False condition without a severity; with two such classes in
  one input the result depends on the sort (`SummaryLaws.MalformedSeveritiesAreAmbiguous`;
  `SummaryLaws.MergeIsDeterminedIff` says exactly when the result is determined).
* The message of a summary is described as listing errors and warnings. It is the message of one condition, or the step
  counter (`Summary.Merge`).
* The step counter's total is described as the number of conditions in scope. It is the number of listed types when
  types are listed (`Summary.WithCounter`), and its count leaves out True conditions that have a severity.

## Model

| member | source | states |
|---|---|---|
| Ordering.TypeLessIsStrictTotalOrder | util/conditions/setter.go:161-166 | the order of types is a strict total order: it fixes one arrangement of any set of types |
| Ordering.ReadyFirstThenByName | util/conditions/setter.go:161-166 | which order that is: Ready goes before every other type, nothing goes before Ready, and of two others the one that ends first or has the smaller character at the first place where they part |
| Ordering.StringLessIsAlphabetical | util/conditions/setter.go:165 | strings are compared at the first place where they part, a string after its prefixes |
| Ordering.CanonicalPairByPair | util/conditions/setter.go:161-166 | a list is in canonical form exactly if of every two positions the first has the type that goes before: Ready first, then by name; so no type occurs twice |
| Ordering.ReadyHeadsTheList | util/conditions/setter.go:161-166 | in a list in canonical form Ready, if it occurs at all, is the first condition and no other |
| Ordering.CanonicalIsDetermined | util/conditions/setter.go:72-75 | two canonical lists that stand for the same map are the same list |
| Ordering.EntriesOfPermutation | util/conditions/setter.go:72-75 | rearranging a list without repeated types changes nothing of the map it stands for |
| Ordering.SortIsDetermined | util/conditions/setter.go:72-75 | with distinct types every sorting algorithm gives the same list, and it is canonical; instability does no harm |
| Ordering.SortConditions | util/conditions/setter.go:72-75 | sorting yields some ordered permutation; the order of equal types is left open |
| Store.SortedPutIsMapUpdate | util/conditions/setter.go:48-77 | replacing or appending and then sorting, in whatever way, is an update of one entry of the map and gives a canonical list |
| Store.DeleteIsMapRemoval | util/conditions/setter.go:150-157 | deleting removes one key from the map, all its occurrences, and repeats no type |
| Store.DeleteKeepsCanonical | util/conditions/setter.go:150-157 | deleting keeps the canonical order without sorting |
| Store.Object.Get | util/conditions/getter.go:41-53 | the entry of the map: the first condition of the type, or nothing |
| Store.Object.Set | util/conditions/setter.go:41-78 | nil is ignored; otherwise the caller's condition gets its time (kept if the state is kept, now if it changed, now if added without one), one entry of the map becomes it, all others stay bit for bit, and the list comes out canonical: Ready first, then by name |
| Store.Object.Placed | util/conditions/setter.go:48-70 | the loop of Set: what replacing the first condition of the type, or appending, makes of the list, and the time the condition gets, without writing to the object |
| Store.Object.Delete | util/conditions/setter.go:145-158 | removes the entry and nothing else, keeps uniqueness and order |
| Histories.SetSummary | util/conditions/setter.go:126-128 | sets Ready to a result of summing up the list as it was: nothing changes if there is none, one entry of the map otherwise |
| Histories.SetAggregate | util/conditions/setter.go:140-142 | sets the target to a result of aggregating the given objects, as Set does |
| Histories.SetMirror | util/conditions/setter.go:132-134 | sets the target to the other object's Ready, or to the fallback, as Set does |
| Histories.Perform | util/conditions/setter.go:41-158 | every single operation, a three-way merge included, takes a canonical list to a canonical list by its effect on the map |
| Histories.Play | util/conditions/setter.go:41-158 | every run of Set, Mark, SetSummary, SetAggregate, SetMirror, Delete and Apply, in any order, keeps the list canonical throughout and is a sequence of map updates |
| Histories.UntimedEventIsDated | util/conditions/setter.go:52-69 | one call that sets a condition without a time leaves an entry bit for bit alone unless its state changes or it is added, and then the time is now |
| Histories.TimeIsLastTransition | util/conditions/setter.go:41-70 | along any run of such calls a transition time is the time of the last call that changed the state or added the condition, and the entry has been the same since |
| Histories.TimesNeverDecrease | util/conditions/setter.go:41-70 | special case, for conditions as the constructors build them, without a time: along any run of calls that set such conditions, under a clock that does not go back and starts no earlier than the stored times, the times of a type never decrease, deletions in between included |
| Histories.MirrorCanTurnBackTime | util/conditions/getter.go:214-238 | a run in which a mirrored condition goes back in time |
| Histories.ChangeAfterMirrorCanTurnBackTime | util/conditions/getter.go:214-238 | a run without any deletion in which a time goes back: a mirrored time ahead of the clock, then a change of state |
| Times.MergeIsItsCalls | util/conditions/patch.go:143-207 | a merge, successful or not, is a run of calls of Set and Delete, one at most for each operation |
| Times.HistoryHasCalls | util/conditions/setter.go:41-158 | every history is a run of calls of Set and Delete |
| Times.NeverDecreasesIffOrderly | util/conditions/setter.go:52-69 | along any run of calls the times of a type never decrease if and only if each call that sets it is in order: it keeps the state, or the clock is not behind the stored time, or, for an absent type, the time it brings (now, if none) is not behind the last time the type had |
| Times.CallTimesNeverDecreaseIff | util/conditions/setter.go:41-70 | the same for the calls of every history, whatever is merged and mirrored in it |
| Times.TimesNeverDecreaseIff | util/conditions/setter.go:41-70 | the same from list to list, for every history whose merges have one operation for a type, as diffs do: the times never decrease if and only if every call that sets the type is in order |
| MergePatch.DiffIsPointwise | util/conditions/patch.go:54-89 | a diff has exactly one operation for every type whose entries differ, transition times included, and no other operation |
| MergePatch.DiffIsInOrder | util/conditions/patch.go:54-89 | removals come last; they are in the order of the first list, and all other operations in the order of the second |
| MergePatch.Patch.NewPatch | util/conditions/patch.go:54-89 | a nil argument is an error; otherwise the operations are the diff of the two lists, changes first in the order of the target, then removals in the order of the base |
| MergePatch.Patch.ApplyOperation | util/conditions/patch.go:143-207 | one operation either conflicts and changes nothing, or changes the entry of its type as specified and overwrites its own time when it has called Set |
| MergePatch.Patch.Apply | util/conditions/patch.go:126-211 | the operations take effect one after the other up to the first conflict; the type of that operation is reported and what was merged before stays; a nil object is an error unless there is nothing to do |
| MergePatch.Patch.ApplyAll | util/conditions/patch.go:143-208 | the loop of Apply computes the fold of the operations over the map, the reported type and the operations left behind included |
| MergePatch.StepIsMapUpdate | util/conditions/patch.go:143-207 | one operation changes the entry for its own type and no other entry or operation |
| MergePatch.ApplyFrame | util/conditions/patch.go:143-207 | whether it succeeds or not, an application leaves every entry it has no operation for as it was |
| MergePatch.EntryAwaitsItsOperation | util/conditions/patch.go:143-207 | an operation finds the entry of its type as it was at the start |
| MergePatch.SucceedsIffNoneConflicts | util/conditions/patch.go:143-207 | an application succeeds exactly when no operation conflicts with the list it starts from |
| MergePatch.ReportsFirstConflict | util/conditions/patch.go:143-207 | the type that is reported is that of an operation that conflicts with the list it starts from, and no operation before it does |
| MergePatch.ApplyIsPointwise | util/conditions/patch.go:143-207 | after success each operation has had the effect it would have had alone |
| MergePatch.ConflictStays | util/conditions/patch.go:143-207 | after a conflict nothing more happens |
| MergeLaws.MergeSucceedsIffTableHasNoConflict | util/conditions/patch.go:54-211 | for all three lists and all settings, merging succeeds if and only if no type has a conflict in the three-way table |
| MergeLaws.ReportedTypeConflicts | util/conditions/patch.go:143-207 | a reported type has a conflict in the three-way table and is neither owned nor forced |
| MergeLaws.MergeFollowsTable | util/conditions/patch.go:54-211 | after success every entry is the one in the table: latest where the controller changed nothing or agrees, gone where it deleted, its own value with its time elsewhere |
| MergeLaws.OwnedAlwaysWins | util/conditions/patch.go:146-150 | on an owned or forced type that the controller changed the outcome has the controller's state, whatever is on the server |
| MergeLaws.ForceNeverConflicts | util/conditions/patch.go:118-122 | when the force setting is on, or every operation is about an owned type, merging succeeds on any list |
| MergeLaws.DiffApplyRoundTrip | util/conditions/patch.go:54-211 | applying a diff to the list it was taken from succeeds with any setting and gives the target's states; unchanged states keep their times |
| MergeLaws.RoundTripOnLists | util/conditions/patch.go:54-211 | as lists: the outcome is the target, sorted, position by position, up to times; neither list need be sorted to begin with |
| MergeLaws.ApplyIsIdempotent | util/conditions/patch.go:126-211 | applying a diff again to the outcome of applying it, at any later time, succeeds and changes nothing, times included |
| MergeLaws.ApplyKeepsDiff | util/conditions/patch.go:149-184 | an application, successful or not, alters the diff in the times of its target conditions only |
| MergeLaws.RestampedOperation | util/conditions/patch.go:149-184 | a time that an application leaves in an operation is the one it had, the reading of the clock for that operation, or the time of the entry it met |
| MergeLaws.DecisionDependsOnTouchedEntries | util/conditions/patch.go:143-207 | conflict and resulting states depend only on the entries the diff is about, and not on the times left in the diff |
| MergeLaws.RetryDecidesTheSame | util/patch/patch.go:225-242 | a retry with the diff as earlier attempts left it decides as a fresh diff would, with the same states |
| MergeLaws.ApplicationsCommute | util/conditions/patch.go:143-207 | diffs about different types commute: either both orders succeed or neither, with the same states |
| Json.DeltaRoundTrip | util/patch/patch.go:147-169 | the merge patch between two documents without nulls takes the first to the second |
| Json.EmptyDeltaMeansEqual | util/patch/patch.go:281-303 | the merge patch is empty exactly when the documents are equal |
| Json.AgreedPathsAreKept | util/patch/patch.go:147-169 | whatever the server's document is, what the two documents agree on stays as the server has it |
| Json.ChangedPathsAreWritten | util/patch/patch.go:147-169 | and what they disagree on becomes as in the second document |
| WorldLaws.NextKeepsInv | util/patch/patch.go:225-255 | one step of anybody keeps the invariant: what each controller holds is a merge of its own diff into the version it read, and what it wrote is a merge into the version before |
| WorldLaws.RunKeepsInv | util/patch/patch.go:225-255 | so it holds in every run |
| WorldLaws.HoldsItsLastMerge | util/patch/patch.go:225-242 | what a controller is about to write is what its own last merge gave |
| WorldLaws.TimesComeFromMerges | util/patch/patch.go:225-242 | in every run the time in an operation is the original one, or was put there by an earlier merge of the same call: a reading of its clock or the time of the entry it met |
| WorldLaws.NoLostUpdate | util/patch/patch.go:225-255 | in every run, with stale reads and any writers, a write that commits leaves the merge of the diff into the conditions the server had just before, computed by an identified step of the same call with that step's clock; types outside the diff keep the last writer's value, time included, and so does the rest |
| WorldLaws.OnlyCommitsAndForeignersWrite | util/patch/patch.go:225-255 | versions are never rewritten, and no other step makes one |
| WorldLaws.AtMostOneVersionPerCall | util/patch/patch.go:225-255 | a call writes at most one version |
| WorldLaws.RunKeepsSorted | util/conditions/setter.go:72-75 | over every run the server's lists stay in canonical order, as long as everybody else writes them so |
| WorldLaws.OneConflictStopsTheCall | util/patch/patch.go:240-242 | one conflicting operation, among any number of harmless or owned ones, ends the call with a merge conflict and writes nothing |
| WorldLaws.ConflictIsOfVersionRead | util/patch/patch.go:225-242 | in every run, the type with which a call ends in a merge conflict is what its original diff reports on a version that one of its merge steps has read |
| WorldLaws.ReportedConflictIsReal | util/patch/patch.go:225-242 | and that type was changed in the version read to something the controller neither started from nor wants, and it is neither owned nor forced |
| WorldLaws.DoneIsForever | util/patch/patch.go:225-255 | a call that has ended does nothing more |
| WorldLaws.AtMostFiveAttempts | util/patch/patch.go:218-225 | no run lets a call make more than five attempts, those with a failed read included |
| WorldLaws.ExhaustionNeedsFiveForeignVersions | util/patch/patch.go:218-255 | with current reads, running out of attempts means five windows from a read to its write, each over before the next begins, in each of which the server got versions that are not the call's own |
| Confluence.RunKeepsSeparated | util/patch/patch.go:225-255 | among controllers about different types, on a server with any history and with reads of any age, each entry is in every version from the start on either as at the start or as its controller's diff alone makes it, according to whether that controller has landed; and what lands succeeds alone |
| Confluence.LandingSucceedsAlone | util/patch/patch.go:225-255 | a controller lands only if it would succeed alone, however stale its reads |
| Confluence.ConflictComesFromRead | util/conditions/patch.go:143-209 | a merge conflict is the one the diff has, alone, with a version that the call has read, and with the version at the start unless that one is older |
| Confluence.DecisionsAreIndependent | util/conditions/patch.go:143-209 | a controller lands only if it would succeed alone and, unless it has read a version from before the start that differs on its types, meets a merge conflict only if it would meet that conflict alone |
| Confluence.FinalState | util/patch/patch.go:225-255 | the state of every entry some controller is about, at any point of any such run |
| Confluence.RunsConverge | util/patch/patch.go:225-255 | two such runs, other processes and other endings included, agree on every entry of a controller that landed in both or in neither |
| Confluence.LandsIffSucceedsAlone | util/conditions/patch.go:143-209 | once its call has ended in a commit or a merge conflict, a controller has landed exactly if its diff would succeed alone, provided that, in the case of a conflict, no version it read from before the start refuses what the start accepts |
| Confluence.OutcomeIsFixedIff | util/patch/patch.go:225-242 | the exact condition: in every run from here the outcome of a call that ends in a commit or a conflict is that of its diff alone if and only if no version on the server refuses a diff that the current one accepts |
| Confluence.StaleVersionCanMislead | util/patch/patch.go:231-242 | a server for which it fails: a cached version from before the current one refuses a diff that merges into the current one |
| Confluence.UntouchedStays | util/patch/patch.go:225-255 | what no controller is about stays bit for bit as it was when nobody else writes |
| Confluence.EveryOrderConverges | util/patch/patch.go:225-255 | any two runs of any number of controllers about different types, from one server with any history, in any order of commits, with reads of any age and retries, end in the same conditions up to timestamps, all of them, once every call has ended in a commit, or in a merge conflict that no version from before the start is to blame for |
| Confluence.EveryOrderConvergesOnLists | util/patch/patch.go:225-255 | the same position by position, on a server whose lists are sorted |
| Publish.Server.Get | util/patch/patch.go:231-234 | a read returns some version so far, the current one if the cache is not behind |
| Publish.Server.PatchStatus | util/patch/patch.go:236-254 | the write takes effect only if the version is the one that was read, replaces the conditions whole and nothing else; a lost reply may hide a write that took effect |
| Publish.ReadAndMerge | util/patch/patch.go:226-242 | the first half of an attempt is a read and merge step of the transition system, or a client failure, and every step is one the surroundings account for |
| Publish.Send | util/patch/patch.go:244-254 | the second half is a write or failure step; it asks for another attempt only if the version has moved on |
| Publish.Attempt | util/patch/patch.go:225-255 | a whole attempt is a run, and it asks for another only if somebody wrote in between or the read was stale |
| Publish.RetryLoop | util/patch/patch.go:225-255 | the loop is a run from the diff to its ending; running out of attempts means each of the five was overtaken or read a stale version |
| Publish.PatchStatusConditions | util/patch/patch.go:180-256 | the call is a run of the transition system from the diff of before and after to the ending it returns, each step of which the surroundings account for; it returns nothing exactly if the diff is empty, and then writes nothing; it can be made again and again on one server |
| Publish.FreshDiffNeverConflicts | util/patch/patch.go:200-242 | on the list it was taken from a diff never conflicts, however often it was retried |
| Publish.UndisturbedCallReachesAfter | util/patch/patch.go:180-256 | in a run with current reads and no other writer a call ends in a commit or a client failure, and a commit leaves the target's conditions up to times and the rest untouched |
| Publish.CalmCallReachesAfter | util/patch/patch.go:180-256 | whatever the call returns when nobody writes, no read is behind and nothing fails, is a commit or nothing to do, and the server has the target's conditions |
| Payloads.CopyKey | util/patch/utils.go:75-93 | one turn of the copy: the field is shared if it is kept, and the conditions are taken out of the inner map once it is shared |
| Payloads.CopyField | util/patch/utils.go:75-82 | a field is shared if it is kept; status shares its inner map |
| Payloads.UnsafeUnstructuredCopy | util/patch/utils.go:68-97 | the copy carries the fields of its focus, shares the inner status map, and alters the original at status.conditions only |
| Payloads.Unstructured.ObserveGeneration | util/patch/patch.go:112-117 | sets status.observedGeneration to metadata.generation, or 0, and changes nothing else |
| Payloads.ObservedIsGeneration | util/patch/patch.go:112-117 | the status then says, as observed generation, the generation in the metadata, or 0 if there is none |
| Payloads.ObservingChangesNothingElse | util/patch/patch.go:112-117 | every path that neither leads to the observed generation nor through it reads as before |
| Payloads.PayloadsAreApart | util/patch/utils.go:80-92 | no conditions and no spec in the status payload, no status in the spec payload |
| Payloads.PayloadCarriesItsFocus | util/patch/utils.go:68-97 | path by path: the spec payload has kind, apiVersion, metadata and spec as in the object, the status payload the status except the conditions; no other field is in either |
| Payloads.StrippingChangesNothingElse | util/patch/utils.go:92 | taking out the conditions leaves every other path as it was |
| Payloads.PayloadIgnoresConditions | util/patch/utils.go:84-92 | taking the conditions out of an object beforehand makes no difference to its payloads |
| PatchHelper.DocRoundTrip | util/patch/utils.go:50-62 | the document form of a version loses nothing of it |
| PatchHelper.MainWriteKeepsStatus | util/patch/patch.go:147-157 | a spec and metadata write leaves conditions and status alone |
| PatchHelper.StatusDeltaSparesConditions | util/patch/patch.go:159-169 | the status patch never mentions status.conditions |
| PatchHelper.StatusWriteKeepsConditions | util/patch/patch.go:159-169 | so the status write leaves the conditions on the server alone |
| PatchHelper.MainWriteReachesAfter | util/patch/patch.go:147-157 | undisturbed, after the first of the two writes every field but status is as in the target |
| PatchHelper.StatusWriteReachesAfter | util/patch/patch.go:159-169 | undisturbed, after the second the other status fields are as in the target and nothing else has changed |
| PatchHelper.UndisturbedWritesReachAfter | util/patch/patch.go:83-145 | from the version the diff was taken from, the two writes one after the other make everything but the conditions as in the target |
| PatchHelper.MainWriteLosesNoUpdate | util/patch/patch.go:147-157 | the spec and metadata write, without a lock, leaves what before and after agree on as other processes left it |
| PatchHelper.StatusWriteLosesNoUpdate | util/patch/patch.go:159-169 | so does the status write |
| PatchHelper.DeltaHasDifferingFields | util/patch/patch.go:281-303 | the merge patch mentions exactly the fields in which the documents differ |
| PatchHelper.ChangedFieldsReadDifferently | util/patch/patch.go:281-303 | a top-level field counts as changed exactly if it reads differently before and after |
| PatchHelper.RequestsAsNeeded | util/patch/patch.go:147-169 | the main request is made exactly if metadata or spec reads differently, the status request exactly if the status does, in this order and each once at most |
| PatchHelper.ChangedConditionsChangeStatus | util/patch/patch.go:281-303 | whenever there are conditions to publish the status counts as changed, so a status request follows |
| PatchHelper.Helper.constructor | util/patch/patch.go:52-81 | keeps the conditions and the document, with those conditions in it, as they are now, apart from the object |
| PatchHelper.Helper.CalculateChanges | util/patch/patch.go:281-303 | the changes are exactly the top-level fields in which the documents differ |
| PatchHelper.Helper.CalculatePatch | util/patch/patch.go:258-275 | the patch is the difference of the two payloads, although taking the copies edits both originals in place, and the originals still agree with the objects outside the conditions |
| PatchHelper.Helper.PatchMain | util/patch/patch.go:147-157 | makes one request, with the difference of the payloads, if metadata or spec has changed, and none otherwise; the history is what that write makes of it |
| PatchHelper.Helper.PatchStatus | util/patch/patch.go:159-169 | makes one request, with the difference of the payloads, if the status has changed, and none otherwise; the history is what that write makes of it |
| PatchHelper.Helper.PatchTheRest | util/patch/patch.go:142-144 | makes both, each on the version it finds, whether or not the first fails |
| PatchHelper.Helper.SetAfter | util/patch/patch.go:106-125 | the target is the object as it is now, its conditions included, with the generation observed if asked for |
| PatchHelper.Helper.PatchBoth | util/patch/patch.go:83-145 | the conditions go first, as a run of the protocol; whatever its ending, a conflict included, the other two requests follow if something has changed for them; no version is rewritten; each error is reported |
| PatchHelper.Helper.Patch | util/patch/patch.go:83-145 | all of that; in calm surroundings, from the version the helper was made for, the call succeeds and the server has the target, whose observed generation, if asked for, is the generation in the metadata; and the server's lists stay sorted if everybody else keeps them so |
| PatchHelper.StrippedTargetIsTarget | util/patch/patch.go:106-125 | the target, path by path: the observed generation is that of the metadata if asked for, and everything else outside the conditions reads as in the object |
| PatchHelper.CalmPatchSucceeds | util/patch/patch.go:83-145 | so undisturbed successful writes leave the server with the target's metadata, spec and other status fields and with state-equal conditions, position by position where everything is sorted |
| PatchHelper.CallStaysSorted | util/patch/patch.go:83-145 | a whole call, all three writes and whatever others write in between, keeps the server's lists sorted if the others do |
| Groups.MemberLessIsWeakOrder | util/conditions/merge.go:103-113 | the order inside a group is irreflexive and transitive, and ties have one type and one name |
| Groups.AddToGroups | util/conditions/merge.go:82-97 | a condition joins the group of its status and severity, or starts one, keeping every group the class of its key |
| Groups.GetConditionGroups | util/conditions/merge.go:74-117 | non-empty groups of distinct keys, each holding exactly the inputs of its key, sorted by priority, the first sorted inside |
| Groups.GroupingConserves | util/conditions/merge.go:74-117 | together the groups hold exactly the inputs that are not nil, as a multiset |
| Summary.GetFirstCondition | util/conditions/merge_strategies.go:148-169 | the first condition of the first listed type that occurs in the top group, or else its first condition |
| Summary.CountTrueGroup | util/conditions/merge.go:144-168 | the size of the group of True conditions without severity, 0 if there is none |
| Summary.Merge | util/conditions/merge.go:54-70 | nothing if there is nothing to merge, otherwise what the first condition of the top group gives (`Readings.ResultsSayWhatLeadersSay` says what that is, field by field) |
| Summary.Summarize | util/conditions/getter.go:123-190 | merges the conditions in scope, with the step counter kept and sized as the options say |
| Summary.Aggregate | util/conditions/getter.go:243-262 | merges the Ready conditions of the objects that have one, counting all objects |
| Summary.Mirror | util/conditions/getter.go:216-238 | the other object's Ready with state and time under the new type; without one, a True condition or the False condition with reason, severity and message of the last fallback, or nothing |
| Summary.LastOptionWins | util/conditions/getter.go:126-129 | options given later override earlier ones: of those about one setting the last is in force, whatever else is given; a setting that no option is about stays as it was |
| SummaryLaws.FirstMemberIsChosen | util/conditions/merge_strategies.go:148-169 | nothing in the group comes before the chosen condition in the listed order and then the canonical order |
| SummaryLaws.TrueCountOfGrouping | util/conditions/merge_strategies.go:131-137 | the counted group is exactly the True inputs without severity |
| SummaryLaws.MergeRendersRepresentative | util/conditions/merge.go:54-117 | every possible result is read off an input of least priority value that no input of its class is preferred to; no input, no result |
| Readings.ResultsSayWhatLeadersSay | util/conditions/merge.go:54-70 | the possible results of merging are exactly these: the target type with the status of a leading condition; nothing more if that is True; otherwise its severity if it is False, its reason (with its source appended only if asked for and not there already), and its message or the step counter |
| Readings.GroupsSpeakForLeader | util/conditions/merge_strategies.go:91-169 | the same of the result of any sorted grouping |
| Readings.OutranksIsPriority | util/conditions/merge.go:180-199 | the priority values in words: False with Error before False with Warning, before False with Info, before True, before Unknown, before everything else |
| Readings.GoesBeforeIsChosenBefore | util/conditions/merge_strategies.go:148-169 | within a class the types listed in the options go first, in that order, then Ready, then names of types in alphabetical order, then names of objects |
| Readings.LeadsIsRepresentative | util/conditions/merge.go:103-117 | the conditions that a result can be read off are those that nothing outranks and that nothing in their class goes before |
| Readings.DecimalSpellsNumber | util/conditions/merge_strategies.go:136 | the numbers in the step counter are decimal numerals, without leading zeros, of the counts |
| Readings.NilsAreLeftOut | util/conditions/merge.go:77-80 | a nil condition goes into no group, and every other one as often as it was given |
| Readings.AggregateReadsReady | util/conditions/getter.go:243-252 | an aggregate takes the Ready condition of each object, or nil, in order and under the object's name |
| Readings.SummaryReadsListed | util/conditions/getter.go:131-157 | a summary takes the conditions other than Ready and, if types are listed, of those types only |
| Readings.CounterIsSized | util/conditions/getter.go:159-187 | the step counter stays exactly if all conditions in scope are of the subset it is meant for; its total is the size of that subset, else of the listed types, else of the scope |
| SummaryLaws.GroupingExists | util/conditions/merge.go:74-117 | every input has a sorted grouping, so what is said of all sorted groupings is never said of nothing |
| SummaryLaws.RepresentativeCanComeOut | util/conditions/merge.go:54-117 | and each such input is the outcome of some sort |
| SummaryLaws.MergeIsDeterminedIff | util/conditions/merge.go:54-117 | the result is independent of the sorts if and only if all such inputs read the same |
| SummaryLaws.MergeIsBest | util/conditions/merge.go:54-117 | with one top class and distinct names the result is that of a one-pass minimum over the inputs |
| SummaryLaws.BestIsLeast | util/conditions/merge.go:119-129 | that minimum is at least as good as every input |
| SummaryLaws.MergeIgnoresInputOrder | util/conditions/merge.go:54-117 | every permutation of the input gives the same status, severity, reason and message |
| SummaryLaws.MergeReadsMembersOnly | util/conditions/merge.go:54-117 | without a step counter not even the number of occurrences matters |
| SummaryLaws.MalformedSeveritiesAreAmbiguous | util/conditions/merge.go:180-199 | two False conditions with severities outside the three make the result depend on the sort |
| SummaryLaws.MergeIsTrueIff | util/conditions/merge.go:36-44 | the result is True exactly when something is True and nothing is False with one of the three severities |
| SummaryLaws.MergeIsFalseIff | util/conditions/merge.go:36-44 | the result is False with a severity exactly when that is the worst severity of a False input |
| SummaryLaws.SummaryIsBest | util/conditions/getter.go:123-190 | the summary of a list of well-formed conditions is the rendering of its best condition in scope |
| SummaryLaws.ScopedSummaryNeverFallsBack | util/conditions/merge_strategies.go:154-168 | with listed types the choice never falls back to the first of the group |
| SummaryLaws.CounterCoversScope | util/conditions/getter.go:159-187 | however the counter is sized, it is at least the number of conditions in scope |
| SummaryLaws.StepCounterIsNeverComplete | util/conditions/getter.go:159-187 | a summary never says that x of x steps are completed |
| SummaryLaws.AggregateCounterIsNeverComplete | util/conditions/getter.go:254-261 | nor does an aggregate |
| Reconcile.LowestIsAssociative | util/util.go:312-329 | combining results is associative with the zero result as identity |
| Reconcile.LowestCommutesIff | util/util.go:312-329 | the order of two results matters exactly when both ask for an immediate retry and they differ |
| Reconcile.CombineIsTheStrongest | util/util.go:312-329 | the combination of a list is the leftmost immediate retry if there is one, otherwise the smallest delay that is not zero, otherwise nothing; and nothing else fits that description |
| Reconcile.RunJoins | controllers/addonconfig_controller.go:116-131 | what a pipeline does after another is what it does alone, joined to what came before; a failure freezes the result |
| Reconcile.RunIsItsReports | controllers/addonconfig_controller.go:116-131 | every phase runs on the context the one before left, all errors are kept in order, and the result combines the phases before the first failure |
| Reconcile.ReportsFollowPhases | controllers/addonconfig_controller.go:118-119 | every phase runs once, in order, on the context that the one before it left |
| Reconcile.ResultsStopAtFailure | controllers/addonconfig_controller.go:124-130 | the results that count are those of the phases before the first failure, and of all phases if none fails |
| Reconcile.EveryFailureIsReported | controllers/addonconfig_controller.go:120-122 | the error of every phase that fails is reported, after as many errors as phases failed before it; there are no others |
| Reconcile.FailuresAreLeaves | controllers/addonconfig_controller.go:143 | the aggregate error has the texts of the failures as its parts, in order |
| Reconcile.RunPhases | controllers/addonconfig_controller.go:116-131 | the loop that both pipelines have computes that |
| Reconcile.ReconcileValidation | controllers/addonconfig_controller_phases.go:81-106 | ValidConfig is marked if and only if no inner phase failed; the failures are returned as one error |
| Reconcile.ReconcileAll | controllers/addonconfig_controller.go:97-143 | without a definition nothing runs; the template is saved if and only if no phase failed, and the save's result counts even when the save fails |
| Reconcile.NestingIsFlattening | controllers/addonconfig_controller_phases.go:81-106 | while the inner pipeline does not fail, nesting makes no difference to context, result or errors, in any surroundings |
| Reconcile.FlatteningAFailure | controllers/addonconfig_controller_phases.go:81-106 | when it fails, context and failures are still as if flattened, and the result is if and only if something failed before or the inner phases before the failure asked for nothing stronger |
| AddonConfig.PatchAddonConfig | controllers/addonconfig_controller.go:177-202 | sets Ready to what the one of the five types says that none of them outranks, the first in the order listed among equals; then publishes the object, that Ready condition included, with the six owned types and the generation observed: what is published, what is requested, what is reported and what is reached undisturbed, the observed generation included, are as for the helper |
| AddonConfig.OwnedTypesWin | controllers/addonconfig_controller.go:189-199 | no merge reports a conflict on Ready, ValidSchema, ValidConfig, DefaultingComplete, ValidTarget or ValidTemplate, whatever is on the server; after success the ones the controller changed have its state |
| AddonConfig.ConflictsIffNotOwned | controllers/addonconfig_controller.go:189-199 | a type that the controller changes can be reported in conflict, with some list on the server, if and only if it is none of those six |
| AddonConfig.OnlyUnownedTypesConflict | controllers/addonconfig_controller.go:189-199 | if the phases change only the six types, ValidDependency and OutputResourceUpdated, then a merge succeeds if and only if neither of the last two has a conflict in the three-way table |
| AddonConfig.UnownedConflictWithholdsReady | controllers/addonconfig_controller.go:189-201 | one conflict on a type that is not owned keeps the call from ever writing a version, Ready included |
| AddonConfig.SummaryComesOfGroups | controllers/addonconfig_controller.go:179-187 | the values that Ready may be set to are exactly those that the sorted groupings of the five types give |
| AddonConfig.ReadySpeaksForListed | controllers/addonconfig_controller.go:179-187 | Ready, for every sorted grouping: there is none if none of the five types occurs; otherwise it has status, severity, reason and message of the one that none outranks, in the order ValidSchema, ValidConfig, DefaultingComplete, ValidTarget, ValidTemplate among those of one status and severity |
| AddonConfig.SummarySpeaksForListed | controllers/addonconfig_controller.go:179-187 | the same of what the call sets Ready to |
| AddonConfig.ReadyReadsListedTypesOnly | controllers/addonconfig_controller.go:179-187 | lists that agree on ValidSchema, ValidConfig, DefaultingComplete, ValidTarget and ValidTemplate give the same Ready, so a failed dependency does not show in it |
| AddonConfig.ReadyIsTrueIff | controllers/addonconfig_controller.go:179-187 | Ready is True exactly when one of those five is True and none is False |

## Left out

- The Kubernetes client, its cache, watches, leader election and logging. A client failure is an ending; a cached read is some earlier version.
- Objects without conditions or without a status object. A missing status counts as an empty one.
- What the server does of its own accord on a write, such as counting generations.
- Objects with top-level fields other than kind, apiVersion, metadata, spec and status.
- Checks of the kind of the object, nil objects passed to the helper, nil options, and conversions that fail.
- Resource version and managed fields inside documents: the version is kept beside the document, not in it.
- Aliasing of single conditions. A list holds copies; that Set overwrites the time of the condition it is given is an out-parameter, which the merge writes back into the diff.
- Aliasing in converted documents below the first level of the status map, which the source never edits.
- Comparing transition times includes the location pointer of the time value in the source; here equal times are equal.
- Formatting. A message used as a format is an uninterpreted function of the message; the text of conflict errors is reduced to the type in conflict.
- Backoff durations and jitter; attempts are counted, not timed.
- Phases of the reconciliation other than as arbitrary steps that turn a shared context into another and return a result or an error. The context is passed on as a value.
- Schema conversion, validation and defaulting, templates, target and dependency lookup, saving the output.
- Owner-reference helpers, name mapping, generated deep copies and test matchers.
- Confluence.LandsIffSucceedsAlone: a conflict met on a version from before the start, which the start would not give, is excluded; the code does end in such conflicts (Confluence.StaleVersionCanMislead), and Confluence.OutcomeIsFixedIff is the exact condition under which it never does.
- Histories.TimesNeverDecrease: a special case that does not cover mirrored conditions and merges, which bring times of their own; Times.TimesNeverDecreaseIff covers them.
- Times.TimesNeverDecreaseIff: from list to list it needs one operation for a type in each merge, since two could go back and forth within one merge; Times.CallTimesNeverDecreaseIff has no such assumption.
- Confluence.EveryOrderConverges: calls that time out, fail at the client or are refused because of a version from before the start are not covered, since the surroundings decide them; Confluence.RunsConverge covers them entry by entry.
- SummaryLaws.SummaryIsBest: assumes severities of the three kinds exactly on False conditions; MergeIsDeterminedIff has no such assumption.
