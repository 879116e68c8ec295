# Control-plane verification

A Dafny model of the fleet control plane's own logic, with proofs of what that logic promises. The
modules follow the program: one per component, values where the program computes, classes and loops
where it changes things step by step.

- **Facts history** (`FactPath.dfy`, `FactsDiff.dfy`, `FactsReplay.dfy`, `Differ.dfy`): fact paths
  and their grammar; the structural differ that spells every change as such a path; the result
  that its uncapped list is a complete patch; and what a listed change says when read by itself.
  `DiffValue` says what the differ finds; the class `Differ` is the differ with its shared output and
  `at_parent` flag, proved to find that.
- **Configuration** (`Merge.dfy`, `ConfigTree.dfy`, `HostConfig.dfy`, `OverrideDiff.dfy`,
  `Layers.dfy`, `Layering.dfy`): JSON Merge Patch against the recursion of section 2 of RFC 7396, the
  override that turns one configuration into another, and the flat row table against nested
  merging. Documents are compared leaf by leaf, by path.
- **Desired state** (`Selector.dfy`, `SelectorLaws.dfy`, `DesiredState.dfy`, `Canonical.dfy`,
  `JsonReader.dfy`, `StateMessage.dfy`, `Cache.dfy`, `CacheProtocol.dfy`): what selectors mean and
  which groups a host is in, what it should run, the bytes its state hash covers and a reader that
  gives the state back from them, and the cache of all that among concurrent computes, host writes,
  invalidations and tenant changes.
- **INI** (`IniLines.dfy`, `Ini.dfy`, `IniPrint.dfy`, `IniRoundTrip.dfy`, `IniEdit.dfy`,
  `IniEditLines.dfy`, `IniPadding.dfy`): the parser against a description of the lines that does
  not walk a document, printing, exactly what reads back, the line editor, whose edits commute with
  parsing and keep every other line, and exactly when it reads what the parser does.
- **Import, throttle, encodings** (`Import.dfy`, `Limits.dfy`, `Encodings.dfy`,
  `IdentityReader.dfy`): the inverted index against the naive join and what its options disregard,
  the poll throttle with sweeping at any moment, and the byte strings that stand for an identity,
  with readers for them.
- `Json.dfy`, `Text.dfy`, `Splits.dfy` and `Ordering.dfy` hold what the others share: one JSON type
  (a number is kept as the text it prints as), UTF-8, trimming, splitting, and the order of keys.

A loop over an object or a map visits its entries in an arbitrary order (`k :| k in left`), so what
is proved of it holds for every order. Clocks are parameters. Functions that another library
computes (the MAC under the state hash, lower-casing) are parameters or are left out.

Some properties hold only under a condition. For these the exact condition is proved, and a
concrete input shows the failure:

- Merging an override onto its base gives the edited settings **if and only if** no kept removal in
  force lies beneath a setting the edit leaves unchanged (`OverrideDiffs.Undercut`; the failing input
  is `UndercutLosesASetting`).
- The row table and the merged document agree about a path **if and only if** no later layer put a
  section in place of its value, or a value above it, with nothing after setting or removing it
  (`Layerings.Shadowed`; the failing input is `SectionOverValueKeepsItsRow`). Shape-compatible layers
  never do that.
- The table of a configuration's settings lists every one of them **if and only if** no two share a
  row id (`HostConfigs.DistinctRows`; the failing input is `SlashedNamesShareARow`). Settings whose
  names are free of `/` and NUL never do.
- A configuration printed as INI text reads back with its settings **if and only if** each setting can
  be written: a section without blank segments, slashes, newlines or white space at its end, a key that
  reads back as itself, and a trimmed value on one line (`IniPrinting.PrintableIni`; a failing input is
  `PaddedValueDoesNotReadBack`).
- Reading keys off an INI text that parses agrees with the document at every section and key **if and
  only if** at every entry the editor and the parser see one section (`IniEditing.EntriesReadAlike`; the
  failing input is `PaddedHeaderIsMisread`, a header with a space inside its brackets).
- Sweeps of the poll throttle are invisible in every run that adds sweeps to given polls **if and
  only if** no poll of those is made to wait on an entry that a sweep just before could drop
  (`PollLimits.NoneHeld`). With intervals of at most an hour, and polls and sweeps that read the clock
  in the order they take the lock, that holds for 2^32 seconds, after which the age of an entry, cut
  to 32 bits, starts again (`SweepShowsAfterTheWrap`). With an interval overridden to more than an hour
  it fails at once (`SweepShowsForALongInterval`), and at exactly an hour when a sweep reads the clock
  later than a poll that follows it (`SweepShowsOutOfOrder`).
- A host that waited out its time is accepted **if and only if** its entry was swept meanwhile or the
  clock does not read within the interval after a multiple of 2^32 seconds (`WaitingItOutSucceeds`;
  the failing input is `WaitingTooLongFails`).
- The bytes a bundle signature covers are those of no other bundle **if and only if** no field of the
  bundle holds a NUL (`Encodings.NulFreeDescriptor`, which the program enforces on names and versions;
  a failing family is `NulMovesTheBoundary`).

Two more are conditions the program itself relies on. What the cache serves is current once no
write to the host awaits its invalidation and none to the tenant its new version
(`CacheProtocol.Freshness`): console writes commit first and move the version in a query of their own,
which may fail, and until it succeeds a cached host is served the state from before the write
(`ServedFromBeforeUntilTheBump`; a run into that window is `AWriteBeforeItsBumpIsNotServed`).
`forget_host` settles a host only if it had an entry
(`CacheProtocol.ForgettingAnUncachedHostSettlesNothing`).

Where the program's comments and its code differ, the model follows the code:

- The header of `desired_state.rs` says a stale entry cannot outlive a change, because every input but
  the host's own reports is behind a mutation that bumps `config_version`. The bump is a step of its
  own for console writes (`CacheProtocol.TenantWrite` and `CacheProtocol.Bump`); only importing,
  renaming and following a configuration source make it in the transaction that writes
  (`CacheProtocol.TenantChange`). An operator's edit of a host's tags invalidates that host instead,
  and deleting a host takes its override along without a bump, so `CacheProtocol.HostWrite` may change
  anything stored about the host.
- A comment in `limits.rs` puts the hour an entry is kept well past any tier's poll interval, but a
  tenant's interval can be overridden to any length; the throttle then spaces polls by an hour where
  there are sweeps (`PollLimits.AcceptedPollsAreSpaced`).

## Model

| member | source | states |
|---|---|---|
| FactPaths.ParseIffSpells | crates/core/src/selector/path.rs:65-103 | the grammar is a bijection: a text parses to a step list exactly when that list is well formed and the text is its rendering |
| FactPaths.RenderInjective | crates/core/src/selector/path.rs:65-103 | two well-formed paths with one text are one path |
| FactPaths.Parse | crates/core/src/selector/path.rs:65-103 | the cursor loop over segments and bracketed ids yields the grammar's reading of the text, and the same error |
| FactPaths.FlattenInjective | crates/core/src/selector/path.rs:58-62 | segments with their ids and flat step lists carry the same information |
| FactPaths.ChildSpells | crates/core/src/selector/path.rs:118-133 | a child's spelling is its parent's steps and one key step, and it is refused exactly when that has no rendering within the limit |
| FactPaths.PickSpells | crates/core/src/selector/path.rs:140-146 | likewise for the record with a given id |
| FactPaths.ResolveExtend | crates/core/src/selector/path.rs:149-171 | a longer path reaches what its last step reaches from everything its parent reaches |
| FactPaths.Resolve | crates/core/src/selector/path.rs:149-183 | the loops over current and next values reach just what the steps, one by one, reach |
| FactPaths.KeyReachesFields | crates/core/src/selector/path.rs:156-161 | a key on a list reaches that field of every record that has it, in the order of the records, and nothing else |
| FactPaths.PickReachesRecords | crates/core/src/selector/path.rs:173-183 | a bracketed id on a list reaches every record with that string id, in order, and nothing else |
| FactPaths.StepsFromEach | crates/core/src/selector/path.rs:149-171 | the empty path reaches the document; a step from several values reaches what it reaches from each in turn |
| FactsDiff.RecordIds | crates/core/src/facts/mod.rs:313-324 | a list is told apart as records exactly when every element has an id and no id repeats |
| FactsDiff.OrderCovers | crates/core/src/facts/mod.rs:255-311 | the order names are visited in names every entry of either side once, and nothing else |
| FactsReplay.DiffValueReal | crates/core/src/facts/mod.rs:221-324 | every change names a path that finds one value in the new document and none in the old, the reverse, or one unequal value in each, as its kind says, and carries the values found, but for a report of two maps or record lists, which carries none |
| FactsReplay.DiffValueDistinct | crates/core/src/facts/mod.rs:221-324 | no two changes name one path |
| FactsReplay.DiffIsACompletePatch | crates/core/src/facts/mod.rs:197-324 | for all documents, replaying the uncapped changes onto the old one gives the new one up to the order of record lists |
| FactsReplay.EmptyDiffMeansEquivalent | crates/core/src/facts/mod.rs:197-324 | nothing found means the documents differ in record order at most |
| Differs.Differ.Push | crates/core/src/facts/mod.rs:229-240 | while there is room one more change is listed, with its path and kind, showing the old value as old and the new as new; otherwise it is counted |
| Differs.Differ.ChangedBeneath | crates/core/src/facts/mod.rs:223-227 | a parent is told of unspellable changes once, however many there are |
| Differs.Differ.Value | crates/core/src/facts/mod.rs:242-253 | the walk with shared output appends exactly the changes between the two values |
| Differs.Differ.Object | crates/core/src/facts/mod.rs:255-275 | maps: the sorted union of their keys |
| Differs.Differ.Records | crates/core/src/facts/mod.rs:277-311 | record lists: matched by id, whatever their order |
| Differs.Diff | crates/core/src/facts/mod.rs:197-211 | a cap lists the first changes of the uncapped list and counts all the others; each listed change, read by its own path, shows the value found in the old document as old and the one found in the new as new |
| Differs.ListedChangesTell | crates/core/src/facts/mod.rs:229-351 | of every listed change alone: its path finds values as its kind says; scalars are shown as they are, strings beyond 200 characters cut there with an ellipsis, lists of up to 16 scalars item by item, and no other list and no map at all; a report for a parent shows nothing |
| Differs.ListedChangesAreReal | crates/core/src/facts/mod.rs:221-324 | every listed path is the whole document or parses within the selector's limit, and finds what the change says |
| Differs.ListedPathsAreDistinct | crates/core/src/facts/mod.rs:221-324 | paths in a listing are pairwise distinct as texts |
| Differs.EqualDocumentsDoNotDiffer | crates/core/src/facts/mod.rs:242-253 | equal documents give no change |
| MergePatches.MergePatch | crates/core/src/merge.rs:11-35 | for all targets and patches, the in-place loop gives what section 2 of RFC 7396 defines |
| MergePatches.StripNullsIsMergeIntoAbsent | crates/core/src/merge.rs:37-54 | stripping nulls is merging into a target that is not there |
| MergePatches.MergeTwice | crates/core/src/merge.rs:11-54 | applying a patch twice is applying it once |
| MergePatches.MergeStaysNullFree | crates/core/src/merge.rs:11-54 | an object patch leaves no null reachable through objects where there was none |
| ConfigTrees.MergeLeaf | crates/core/src/merge.rs:11-54 | the leaf of a merged document at a path is decided by where the patch ends along that path |
| ConfigTrees.PrunedUnique | web/src/hosts/hostConfig.ts:171-179 | documents without empty sections are determined by their leaves |
| Canonical.WriteCanonical | crates/core/src/merge.rs:64-98 | the buffer writer appends the canonical text |
| Canonical.CanonicalString | crates/core/src/merge.rs:58-62 | the canonical text is written whole |
| Canonical.EscapedUnique | crates/core/src/merge.rs:64-98 | escaping (section 7 of RFC 8259) tells strings apart, whatever follows the closing quote |
| Canonical.CanonUnique | crates/core/src/merge.rs:64-98 | canonical texts are prefix-free: a value ends where its text says |
| Canonical.CanonInjective | crates/core/src/merge.rs:58-98 | equal canonical texts mean equal documents, object key order aside |
| JsonReaders.StringReads | crates/core/src/merge.rs:70-73 | a reader of section 7 of RFC 8259 gives every string back from its escaped text, up to the closing quote |
| JsonReaders.CanonicalTextReadsBack | crates/core/src/merge.rs:58-98 | a reader of RFC 8259 that refuses object names out of order gives every document back from its canonical text |
| Ordering.LeMeaning | crates/core/src/merge.rs:84-86 | the order of keys: a text before its extensions, and else by the first character that differs |
| HostConfigs.RowIdInjective | web/src/hosts/hostConfig.ts:45-46 | rows of different paths have different ids, for names free of `/` and NUL |
| HostConfigs.SectionSegments | web/src/hosts/hostConfig.ts:242-245 | a section's text splits back into its segments |
| HostConfigs.Leaves | web/src/hosts/hostConfig.ts:156-167 | for every configuration, a row for each setting and no row but a setting's, under its id and rendered; every setting is listed if and only if no two share a row id |
| HostConfigs.CleanRowsAreDistinct | web/src/hosts/hostConfig.ts:45-46 | settings whose names are free of `/` and NUL never share a row id |
| HostConfigs.SlashedNamesShareARow | web/src/hosts/hostConfig.ts:45-46 | a configuration two of whose settings have one row id |
| HostConfigs.RenderTexts | web/src/hosts/hostConfig.ts:35-40 | a string reads as itself, a number as its digits, the two flags as `true` and `false`, a map as its JSON text |
| HostConfigs.RenderTellsScalars | web/src/hosts/hostConfig.ts:35-40 | scalars of one kind read alike only when they are equal |
| HostConfigs.ListSplitsIntoItems | web/src/hosts/hostConfig.ts:38 | the text of a list whose items hold no comma splits at the commas into the texts of the items |
| OverrideDiffs.OverrideDiff | web/src/hosts/hostConfig.ts:191-220 | for configurations no two of whose settings share a row id, and kept removals none of which is beneath another, the three loops write, leaf for leaf, the override described by path, without empty sections |
| OverrideDiffs.DiffUnique | web/src/hosts/hostConfig.ts:191-220 | there is only one such override, so loop order does not matter |
| OverrideDiffs.OverrideReproducesTheEdit | web/src/hosts/hostConfig.ts:181-220 | merging the override onto the base gives exactly the edited settings if and only if no kept removal in force undercuts an unchanged setting |
| OverrideDiffs.ApplyValue | web/src/hosts/hostConfig.ts:181-220 | setting by setting, merging the override gives nothing where a setting is undercut and the edited value everywhere else |
| OverrideDiffs.UndercutLosesASetting | web/src/hosts/hostConfig.ts:208-212 | an input where a kept removal beneath an unchanged setting loses it |
| OverrideDiffs.SavingAgainIsAFixedPoint | web/src/hosts/hostConfig.ts:126-220 | saving again, with nothing edited and the override's own removals kept, writes the same override, whether or not a setting was undercut |
| OverrideDiffs.NoOverrideIffNoEdit | web/src/hosts/hostConfig.ts:181-220 | with nothing kept, the override is `{}` exactly when no setting was edited |
| OverrideDiffs.NoOverrideIffSameScalars | web/src/hosts/hostConfig.ts:181-220 | where settings both sides have are scalars of one kind, `{}` is written exactly when the settings themselves are equal |
| OverrideDiffs.OverrideHasTheChangedScalars | web/src/hosts/hostConfig.ts:207-209 | at a setting of one scalar kind on both sides, the override has nothing if the two are equal and else the text of the edited one |
| OverrideDiffs.MergedSettings | web/src/hosts/hostConfig.ts:181-220 | where none is lost, merging gives the settings of the edited configuration and no others: those that were not edited as they were, new and edited scalars as their text |
| OverrideDiffs.KeptRemovalsStay | web/src/hosts/hostConfig.ts:210-215 | a kept removal stays in the override, also where the base has nothing for it to remove, unless a setting stands there or beneath or an edited one above |
| OverrideDiffs.RemovalsOf | web/src/hosts/hostConfig.ts:126-136 | exactly the null leaves of a patch, none beneath another, which is what `overrideDiff` is handed as kept |
| OverrideDiffs.PruneEmptyPrunes | web/src/hosts/hostConfig.ts:171-179 | no empty section is left anywhere |
| OverrideDiffs.PruneEmptyLeaves | web/src/hosts/hostConfig.ts:171-179 | pruning changes no leaf |
| ConfigLayers.StartsWithIsAbove | web/src/hosts/hostConfig.ts:59-63 | comparing section texts finds exactly the sections strictly beneath |
| ConfigLayers.RemoveUnder | web/src/hosts/hostConfig.ts:55-83 | for names free of `/` and NUL, a removal takes the rows at and beneath its path and no other; those in force stay for an override, in its name and without a value, the value last among those replaced; an override gets a new row, at the path itself, exactly when nothing there or beneath was in force |
| ConfigLayers.SetRow | web/src/hosts/hostConfig.ts:94-110 | for names free of `/` and NUL, a setting takes over its row with what it replaced, oldest first, and ends the removal rows standing above it |
| ConfigLayers.LayerWalk | web/src/hosts/hostConfig.ts:85-113 | for names free of `/` and NUL, one layer changes the row at every path by where the layer's document ends along it, and every removal of an override stays shown |
| Layerings.LayerConfigs | web/src/hosts/hostConfig.ts:52-119 | after all layers every row is in force as the last word on its path, naming that layer, and lists values layers really set, in order, none since the last removal missing; a value the override removes keeps its row, in the override's name, with that value and those before it to show; the rows are listed once each, by section and within one by key, under any collation |
| Layerings.RowsInForce | web/src/hosts/hostConfig.ts:52-119 | a row is in force exactly when some layer has a setting at its path and no later one a setting or a null there, or a null above; it has the text of that setting and names that layer |
| Layerings.TableAgreesIff | web/src/hosts/hostConfig.ts:52-119 | the table and the RFC 7396 fold agree about a path if and only if it is not shadowed |
| Layerings.CompatibleIsNeverShadowed | web/src/hosts/hostConfig.ts:52-119 | shape-compatible layers shadow nothing |
| Layerings.RowsAreTheMergedSettings | web/src/hosts/hostConfig.ts:52-119 | for shape-compatible layers the rows in force are exactly the merged settings, each from the last layer that set it |
| Layerings.SectionOverValueKeepsItsRow | web/src/hosts/hostConfig.ts:92-110 | an input where the table keeps a value that merging replaces by a section |
| Layerings.ConfigFromRows | web/src/hosts/hostConfig.ts:139-153 | any rows in any order become one document without empty sections, in which every path holds what the rows leave there last |
| Layerings.LastWordMeaning | web/src/hosts/hostConfig.ts:139-153 | a setting comes out exactly when some row sets it and no later one sets a path at, above or beneath it |
| Layerings.InOrderIsSectionsFirst | web/src/hosts/hostConfig.ts:116-118 | sorted by section, under a collation that ranks a text before its extensions, no setting is listed after one beneath it |
| Layerings.DeepestSettingsWin | web/src/hosts/hostConfig.ts:116-153 | rows listed with no setting after one beneath it, give each setting in force that has none in force beneath it, and no other |
| Layerings.EffectiveConfig | web/src/hosts/hostConfig.ts:52-153 | rows and back, for any layers: the deepest settings the table says, when a section is listed before those inside it; for shape-compatible layers, however listed, the merged document's settings, rendered, and nothing else |
| Selectors.MatchesNeedsOnlyItsSources | crates/core/src/selector/expr.rs:139-173 | a selector answers alike with every document and with any loaded set that covers the sources it names |
| Selectors.FactSources | crates/core/src/selector/expr.rs:156-173 | the walk collects the sources of every fact leaf |
| SelectorLaws.ClausesAllHold | crates/core/src/selector/expr.rs:145-152 | a selector holds when each of its clauses does; without clauses it matches every host |
| SelectorLaws.AndOneMore | crates/core/src/selector/expr.rs:282 | a conjunction holds when all its operands do, and an empty one always |
| SelectorLaws.OrOneMore | crates/core/src/selector/expr.rs:283 | a disjunction holds when some operand does, and an empty one never |
| SelectorLaws.NotSwapsCompounds | crates/core/src/selector/expr.rs:281-283 | negating one compound is the other of the negated operands |
| SelectorLaws.TagEqOneMore | crates/core/src/selector/expr.rs:268 | one more tag on a host satisfies just the equalities with its key and value whose filter names its source or any; a host without a value under the key satisfies none |
| SelectorLaws.TagInIsOr | crates/core/src/selector/expr.rs:269-273 | one of several values is the disjunction of the equalities |
| SelectorLaws.TagExistsIsSomeEq | crates/core/src/selector/expr.rs:274 | a key exists, from an accepted source, when some equality on it holds |
| SelectorLaws.FactReadsEachValue | crates/core/src/selector/expr.rs:275-280 | a leaf on facts fails without its document, and else holds when some value its path reaches passes by itself |
| SelectorLaws.TestsByKind | crates/core/src/selector/expr.rs:287-300 | which JSON values pass each test, kind by kind |
| SelectorLaws.HostControlledIffALeafHears | crates/core/src/selector/expr.rs:175-191 | a selector is host-controlled exactly when some leaf accepts agent tags or reads the agent's document |
| Selectors.HostCannotSwayAnOperatorSelector | crates/core/src/selector/expr.rs:145-191 | a selector that is not host-controlled answers alike for hosts that agree on manual tags and on documents the host does not write |
| Selectors.ClaimSatisfiesExactlyHostControlledLeaves | crates/core/src/selector/tags.rs:59-76 | a host's claim satisfies an equality leaf exactly when the leaf accepts agent values or already held, and operators see no difference |
| Selectors.ValidateExpr | crates/core/src/selector/expr.rs:193-257 | accepts exactly trees within the depth and node limits with good leaves and no empty compound; the shared counter ends at the tree's size; limit errors mean that limit is exceeded |
| Selectors.Validate | crates/core/src/selector/expr.rs:120-126 | one node budget is shared by all clauses |
| SelectorLaws.SourceNames | crates/core/src/facts/mod.rs:43-58 | a source has a name of 1 to 64 lower-case letters, digits, `_`, `.`, `:` and `-`, a letter first |
| DesiredStates.MatchingNeedsOnlySourcesRead | crates/server/src/agent/desired_state.rs:311-327 | loading the union of the sources all groups read chooses the same groups as loading everything |
| DesiredStates.HostCannotSwayItsState | crates/server/src/agent/desired_state.rs:298-425 | with no host-controlled group, nothing a host reports changes what it is served |
| DesiredStates.SortedByPriority | crates/server/src/agent/desired_state.rs:333-334 | bundles come in ascending priority, those of one priority in their old order |
| DesiredStates.StableOrderUnique | crates/server/src/agent/desired_state.rs:333-334 | there is only one such order |
| DesiredStates.FramedInjective | crates/server/src/agent/desired_state.rs:405-413 | length prefixes parse back uniquely: equal bytes mean equal field lists |
| DesiredStates.MessageInjective | crates/server/src/agent/desired_state.rs:409-425 | equal messages under the state hash mean equal configurations and equal bundle lists in all seven fields, and conversely |
| DesiredStates.HashMessage | crates/server/src/agent/desired_state.rs:409-423 | the appending loop writes that message |
| DesiredStates.ComputeUncached | crates/server/src/agent/desired_state.rs:298-432 | the walk, with lazily loaded documents, builds what all stored inputs determine, or fails with the reason the stored override could not be read: the bundles of exactly the rows that assign to a group with a usable selector matching the host, each row once, by priority and within one as listed; the stored override if it is an object and `{}` otherwise |
| DesiredStates.ServedIffAssigned | crates/server/src/agent/desired_state.rs:309-334 | a bundle is served if and only if some row assigns it to a group whose usable selector matches the host's tags and documents |
| StateMessages.MessageReadsBack | crates/server/src/agent/desired_state.rs:405-425 | a reader of lengths, UTF-8, 64-bit integers and JSON gives the configuration and every field of every bundle back from the message under the state hash |
| DesiredStateCaches.DesiredStateCache.Get | crates/server/src/agent/desired_state.rs:103-124 | serves only a state stored under the version asked for, and touches only that entry |
| DesiredStateCaches.DesiredStateCache.TakeTicket | crates/server/src/agent/desired_state.rs:127-136 | the epoch and the host's generation at one moment |
| DesiredStateCaches.DesiredStateCache.PutIfCurrent | crates/server/src/agent/desired_state.rs:140-186 | stores exactly under a still-current ticket, sweeping a full table first; after a store the table is within its bound and serves the state |
| DesiredStateCaches.DesiredStateCache.ForgetHost | crates/server/src/agent/desired_state.rs:206-212 | drops the entry and moves the epoch, or does nothing |
| DesiredStateCaches.DesiredStateCache.InvalidateHost | crates/server/src/agent/desired_state.rs:218-230 | leaves a tombstone with the next generation |
| DesiredStateCaches.StoreBounds | crates/server/src/agent/desired_state.rs:155-186 | whatever tombstones did to the table, an accepted store leaves at most the maximum number of entries |
| DesiredStateCaches.SweepKeepsLiveEntries | crates/server/src/agent/desired_state.rs:154-172 | a full table keeps exactly the entries used within the last 3600 seconds, as they were, if there are fewer than 100000 of them, and else none; any other is left alone |
| DesiredStateCaches.SweepMovesTheEpoch | crates/server/src/agent/desired_state.rs:164-172 | the epoch moves exactly when the sweep dropped something |
| DesiredStateCaches.LastUsed | crates/server/src/agent/desired_state.rs:103-230 | whatever an operation does, an entry that stays was last used when it was, unless the operation is a lookup that hits or an accepted store for that host: then at its time, as a new entry is |
| DesiredStateCaches.UseKeepsTheEntryForAnHour | crates/server/src/agent/desired_state.rs:50-52 | over any operations, for an hour after a lookup that hits or an accepted store, no sweep that can make room drops the host's entry |
| DesiredStateCaches.TicketExact | crates/server/src/agent/desired_state.rs:127-230 | over any operations, a store is accepted if and only if, since its ticket, the host was not invalidated and no entry was dropped |
| DesiredStateCaches.GenerationComesBackButNotTheTicket | crates/server/src/agent/desired_state.rs:196-205 | a forgotten and re-invalidated host has its old generation again, and old tickets are refused all the same |
| CacheProtocol.StepKeepsInv | crates/server/src/agent/desired_state.rs:67-291 | every step of any compute, host, operator, version bump or sweep keeps what freshness needs |
| CacheProtocol.ReadKeepsJob | crates/server/src/agent/desired_state.rs:298-385 | inputs read one query at a time under a valid ticket are still the stored ones |
| CacheProtocol.Freshness | crates/server/src/agent/desired_state.rs:67-291 | in every run, a lookup at the tenant's current version, for a host with no write awaiting its invalidation and a tenant with no write awaiting its bump, serves what a compute on the current inputs gives |
| CacheProtocol.TenantStepKeepsInv | crates/server/src/hosts/config_api.rs:155-162 | a committed write, its later bump and a write that bumps in one transaction each leave nothing wrong that was right |
| CacheProtocol.ServedFromBeforeUntilTheBump | crates/server/src/hosts/config_api.rs:666-673 | from a console write on, through every run that neither moves the version nor invalidates, forgets, replaces or sweeps what is stored for the host, it is served its state from before the write; after the bump that state is not served |
| CacheProtocol.AWriteBeforeItsBumpIsNotServed | crates/server/src/hosts/config_api.rs:457-472 | a run from a fresh server in which a written override is not served before the bump |
| CacheProtocol.ForgettingAnUncachedHostSettlesNothing | crates/server/src/agent/desired_state.rs:206-212 | forgetting a host without an entry voids no compute: what it read before a write is stored and served |
| Imports.KeyIndex.Add | crates/core/src/facts/import.rs:164-173 | sorted insertion keeps every list the ascending hosts holding that value, for every target |
| Imports.KeyIndex.Lookup | crates/core/src/facts/import.rs:177-200 | in strictly ascending order, exactly the hosts that for every target hold a value with the key's non-empty normal form |
| Imports.JoinedMeaning | crates/core/src/facts/import.rs:175-200 | the naive join: a host matches when it holds every key |
| Imports.JoinedByValues | crates/core/src/facts/import.rs:175-200 | the same in recorded values: for every key the host has a value with the same, non-empty normal form |
| Imports.TrimIffPaddingIsIgnored | crates/core/src/facts/import.rs:103-106 | keys that differ in the white space around them find the same hosts, whatever is recorded, if and only if the option to trim is on |
| Imports.ShortIffDomainIsIgnored | crates/core/src/facts/import.rs:107-111 | likewise for keys that differ after their first dot, and comparing short host names |
| Imports.FullNameFindsShortName | crates/core/src/facts/import.rs:105-111 | a full name finds what its short name finds, unless white space stands before the dot |
| Imports.CaseIffCaseIsIgnored | crates/core/src/facts/import.rs:112-116 | likewise for keys that are the same but for case, and ignoring case |
| Imports.AscendingUnique | crates/core/src/facts/import.rs:175-177 | a set of hosts has one ascending list, so the lookup's result is determined |
| Imports.ResolveRows | crates/core/src/facts/import.rs:230-257 | each row lands where its keys or its chosen host say, and the first row on a host keeps it |
| Imports.LandsUnique | crates/core/src/facts/import.rs:234-247 | a row's keys or choice fix where it lands, and only a skipped row lands nowhere as skipped |
| Imports.NoHostMatchedTwice | crates/core/src/facts/import.rs:228-257 | no host is matched by two rows |
| Imports.DuplicatePointsBack | crates/core/src/facts/import.rs:221-224 | a duplicate names an earlier row, matched to the same host |
| Imports.ResolvedUnique | crates/core/src/facts/import.rs:230-257 | there is one way to resolve a list of rows |
| Imports.SkippedRowsDoNotCount | crates/core/src/facts/import.rs:211-213 | resolving the rows without the skipped ones gives every other row the result it had, the index of the row a duplicate names renumbered |
| PollLimits.AgentRateLimits.CheckPollInterval | crates/server/src/agent/limits.rs:132-147 | the wait told, and the entry moved only by an accepted poll |
| PollLimits.AgentRateLimits.Prune | crates/server/src/agent/limits.rs:80-90 | drops exactly the entries older than the time they are kept |
| PollLimits.AgentRateLimits.MaybePrune | crates/server/src/agent/limits.rs:92-97 | every 512th check sweeps |
| PollLimits.SweepingIsInvisibleIff | crates/server/src/agent/limits.rs:80-147 | for polls of any intervals, reading the clock in any order, and sweeps that read it at most a given time ahead of the polls after them, every placing of sweeps is answered alike if and only if no poll of the unswept run waits on an entry that a sweep just before could drop |
| PollLimits.SweepingIsInvisible | crates/server/src/agent/limits.rs:80-97 | with intervals short of the hour an entry is kept by that time, every run shorter than 2^32 seconds is answered, with sweeps at any moments, as an unswept table would answer it |
| PollLimits.SweepShowsAfterTheWrap | crates/server/src/agent/limits.rs:140-141 | a run longer than 2^32 seconds where a sweep shows |
| PollLimits.SweepShowsForALongInterval | crates/server/src/agent/limits.rs:47-50 | a run of 4000 seconds, at an interval of two hours, where a sweep shows |
| PollLimits.SweepShowsOutOfOrder | crates/server/src/agent/limits.rs:84-89 | at an interval of an hour, a sweep that read the clock a nanosecond later than the poll after it shows |
| PollLimits.AcceptedPollsAreSpaced | crates/server/src/agent/limits.rs:132-147 | accepted polls of a host are at least the interval apart in runs of any length, or an hour of it where there are sweeps and the interval is longer |
| PollLimits.WaitingItOutSucceeds | crates/server/src/agent/limits.rs:131-147 | after waiting the returned time, whatever others do meanwhile, the next poll is accepted if and only if the entry was swept or its age cut to 32 bits is past the interval, which it is within 2^32 seconds |
| PollLimits.WaitingTooLongFails | crates/server/src/agent/limits.rs:140-141 | a host that waits 2^32 seconds too long is told to wait again |
| Encodings.ToSigningBytes | crates/core/src/crypto/bundlesig.rs:46-61 | the loop writes the domain and every field after a NUL |
| Encodings.ToldApartIffNulFree | crates/core/src/crypto/bundlesig.rs:46-61 | a descriptor's bytes are those of no other descriptor if and only if none of its fields holds a NUL |
| Encodings.NulMovesTheBoundary | crates/core/src/crypto/bundlesig.rs:49-58 | descriptors with a NUL in the name that encode alike |
| IdentityReaders.SigningBytesReadBack | crates/core/src/crypto/bundlesig.rs:46-61 | a reader gives the bundle back, field by field, from its signed bytes, when no field but the last holds a NUL |
| IdentityReaders.DecimalReads | crates/core/src/crypto/bundlesig.rs:50 | a decimal text gives its integer back, negative ones too |
| Encodings.DecimalInjective | crates/core/src/crypto/bundlesig.rs:50 | decimal texts tell integers apart, negative ones too |
| Encodings.ToAad | crates/core/src/crypto/aead.rs:54-77 | the domain, then the fields of each purpose |
| Encodings.AadInjective | crates/core/src/crypto/aead.rs:49-77 | distinct purposes have distinct associated data, whatever the host id holds |
| IdentityReaders.AadReadsBack | crates/core/src/crypto/aead.rs:49-77 | a reader gives the purpose back from its associated data, whatever the host id holds |
| Text.Utf8ReadsBack | crates/core/src/crypto/bundlesig.rs:57 | a reader of section 3 of RFC 3629 gives every text back from its bytes |
| IniLines.EntryReadsBack | web/src/config/ini.ts:105-111 | a written key and value read back as that entry, the value trimmed |
| IniLines.HeaderReadsBack | web/src/config/ini.ts:92-101 | a written section header reads back as its segments |
| IniLines.KindsOfJoin | web/src/config/ini.ts:86-90 | lines written out and split again are the same lines to the parser |
| IniRoundTrips.EntryIff | web/src/config/ini.ts:106-113 | a line is an entry exactly when, trimmed, it is a well-formed key, white space, an equals sign and a text that trims to the value |
| IniRoundTrips.BlankIff | web/src/config/ini.ts:91-92 | a line is skipped exactly when, trimmed, it is empty or begins with `;` or `#` |
| IniDocuments.IniToJson | web/src/config/ini.ts:63-125 | the loop over lines, building sections on the way, parses line by line with the line's number in every error |
| IniDocuments.ParsesIffSound | web/src/config/ini.ts:63-125 | parsing succeeds exactly when no line is malformed and no two lines conflict, in whatever order; the document holds what the lines say and nothing else; an error names the first line that could not be taken |
| IniDocuments.NodeMeaning | web/src/config/ini.ts:68-125 | a value stands where some line sets it and a section where some line is in it or beneath it |
| IniDocuments.NodesTell | web/src/config/ini.ts:63-125 | a document is determined by its values and sections |
| IniPrinting.JsonToIni | web/src/config/ini.ts:24-53 | for every configuration, collects a value for each setting and nothing but settings, by section text and key, and prints them in order; what can be read back is collected exactly |
| IniPrinting.PrintedText | web/src/config/ini.ts:41-52 | the printed text, character by character: sections in ascending order under their headers, the keys of each in ascending order as `key=value` lines, a blank line between sections |
| IniRoundTrips.PrintThenParseIff | web/src/config/ini.ts:24-125 | for every configuration, what was printed reads back, without an error and with the same settings rendered and no nulls or empty sections, if and only if every setting can be written |
| IniRoundTrips.ParsedShape | web/src/config/ini.ts:63-125 | whatever text is read, every value stands under plain segments and a key that reads back as itself, and is trimmed and on one line |
| IniRoundTrips.PaddedValueDoesNotReadBack | web/src/config/ini.ts:106-111 | a value with a space before it, which does not read back |
| IniRoundTrips.PrintingAgainIsStable | web/src/config/ini.ts:24-125 | when a printed text reads back, printing what was read gives the same text |
| IniPrinting.ParsedIsPrintable | web/src/config/ini.ts:24-125 | what was read back can be printed |
| IniEditing.ScanIsCurrentIff | web/src/config/ini.ts:133-151 | of lines none of which is malformed, the editor and the parser see one section at every line if and only if they read every header alike |
| IniLines.UnpaddedReadsAlike | web/src/config/ini.ts:92-141 | a header without white space inside its brackets is read alike |
| IniEditing.GetIniValue | web/src/config/ini.ts:164-174 | the value of the first line that sets the key in the section |
| IniPaddings.ReadsTheDocumentIff | web/src/config/ini.ts:164-174 | reading keys off a text that parses agrees with the document at every section and key if and only if at every entry the editor and the parser see one section |
| IniPaddings.PaddedHeaderIsMisread | web/src/config/ini.ts:131-174 | a text whose one value the document has in a section where the editor does not find it |
| IniEditing.SetIniValue | web/src/config/ini.ts:178-202 | one pass that replaces in place, appends to the section, or appends a section |
| IniEditing.SetUpdatesOnePath | web/src/config/ini.ts:176-202 | the edited text parses if and only if the document has room at that path, and then differs from the old one there alone |
| IniEditing.SetThenGet | web/src/config/ini.ts:164-202 | what was set is what is read |
| IniEditing.RemoveDropsOnePath | web/src/config/ini.ts:236-242 | the value at that path goes, the section stays, nothing else changes |
| IniEditing.RenameIniKey | web/src/config/ini.ts:223-234 | the first line that sets the key gets the new one, with its value |
| IniEditing.RenameMovesOnePath | web/src/config/ini.ts:222-234 | the edited text parses if and only if nothing was at the new path, and the value then moves there and nothing else changes |
| IniEditLines.SetWritesOneLine | web/src/config/ini.ts:127-202 | in any text, malformed or not, setting a key replaces the first line that sets it, or follows the last line of the section that is not blank, or comes at the end under a header of its own; every other line stays as it is, in its place |
| IniEditLines.GetReadsTheFirstLine | web/src/config/ini.ts:162-174 | in any text, reading a key gives the value of the first line that sets it |
| IniEditLines.RenameWritesOneLine | web/src/config/ini.ts:222-234 | in any text, renaming writes the first line that sets the key anew, with its value, and leaves every other |
| IniEditLines.RemoveDropsItsLines | web/src/config/ini.ts:236-242 | in any text, removing drops every line that sets the key, and no other |

## Left out

- ConfigLayers.RemoveUnder: names holding `/` or NUL, for which section texts do not tell sections apart, are not covered; the same holds for ConfigLayers.SetRow, ConfigLayers.LayerWalk and Layerings.LayerConfigs.
- OverrideDiffs.OverrideDiff: kept removals of which one is beneath another are not covered; the callers pass those of one patch, which never are.
- Layerings.ConfigFromRows: objects updated through references are modelled as values rebuilt along the path, so aliasing is not captured; the same holds for Layerings.SetPath, OverrideDiffs.Put, OverrideDiffs.PruneEmpty, IniDocuments.EnsureSection and IniDocuments.AddEntry.
- IniPrinting.JsonToIni: keys are sorted by code point where JavaScript sorts by UTF-16 code unit; the two differ only for characters beyond U+FFFF, and no result depends on the order.
- IniEditing.SetUpdatesOnePath: texts with a header that the editor and the parser read differently are not covered; the same holds for IniEditing.RemoveDropsOnePath and IniEditing.RenameMovesOnePath.
- Differs.Differ.Value: numbers are the same when their texts are, where the JSON library also takes `0.0` and `-0.0` for equal.
- HostConfigs.Render: a map inside an array is rendered with its keys in canonical order, where `JSON.stringify` keeps the order of insertion.
- PollLimits.AgentRateLimits.Prune: the token buckets of the rate-limiting library (`retain_recent`) are not part of this model, nor are `check_request` and the enrolment limits built on them.
- PollLimits.AcceptedPollsAreSpaced: polls of one host that race for the lock and read the clock out of order are not covered.
- CacheProtocol.Freshness: nothing is promised between a console write and its bump, where the program promises nothing either; deleting a tenant is not modelled.
- DesiredStates.ComputeUncached: rows of one priority come in the order the database returned them, taken to be the same for the same data; decrypting the override and parsing it are parameters, and failing queries are left out.
- DesiredStates.MessageInjective: the MAC over the message is not modelled, so equal hashes are not shown to mean equal messages.
- Imports.Apply: lower-casing is a parameter of which only what it does to ASCII texts is assumed, and that where an option is shown to matter; the Unicode case table is not modelled.
- Selectors.ValidateExpr: parsing a selector from JSON (defaults, unknown fields) is not modelled.
- Counter wrap-around of epochs, generations and statistics, and memory ordering below the cache's lock.
- JavaScript prototype keys such as `constructor`, and the order of object keys.
- `listIniKeys`, `removedBy`, `shapeOf`, `sameRemoval`, `normalize_hash` and `suggestNextVersion`: settled by reading one body.
- Request handlers, SQL, migrations, the user interface, and the internals of AEAD, HMAC, Ed25519, SHA-256 and X.509.
