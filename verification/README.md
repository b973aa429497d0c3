# Verified model of clash-sub-parser's control plane

A Dafny model of the parts of the control plane that decide what ends up in a client configuration
and what a refresh, a recovery or a probe experiment may change. `dafny verify dfyconfig.toml`
checks everything.

The model follows the form of the code: services and search state are classes whose methods update
their fields, loops are loops, in-place sorts work on arrays. Each such method is proved against a
function on values, and what the system promises is proved about those functions and about all runs
of them. Text syntax, filter conditions, regular expressions and hashes are consulted only through
function-valued fields (`Checks`, `Oracle`, `Text`, `Hashes`, `Environment`, ...), so every result
holds for any such syntax.

## What is modelled

- **Policy topology and rules** (`Policy`, `Topology`, `Rules`). The three-colour search is correct in
  both directions, and its finishing order is a topological rank. That rank is the termination
  measure of everything downstream. The resolver's reordering of MATCH rules keeps routing exactly
  under a stated condition.
- **The resolver** (`Pipeline`, `PipelineFacts`, `PipelineMeaning`, `PipelineKinds`, `PipelineAlike`,
  `GroupResolver`, `DerivedGroups`, `ResolveGroups`, `RewriteMeaning`, `GroupSnapshot`, `SnapshotAlike`,
  `FilterChoice`, `MemberRepeats`, `Admission`, `Resolve`, `ResolveOutcomes`). A recursive
  meaning of ordered add/remove pipelines over the group graph, said kind by kind in identities, patterns
  and conditions; memoised evaluation refines it;
  rewriting filtered references into derived groups preserves it exactly under a stated condition, and
  never lists or reaches a node that was not admitted; the returned groups are determined by what the
  pipelines mean; `Resolve.Resolve` ties validation, admission,
  risk, global filter, groups and rules together for whole inputs.
- **The body-budget ledger** (`BudgetLedger`, `Allocation`, `Experiment`). Every reachable ledger state is
  balanced, and the quotas that a whole experiment creates fit the approved cap.
- **The optional-group pruner** (`Prune`, `PruneSafety`, `PruneOutcomes`). The bounded loop always reaches
  a fixed point; passes keep references, rule targets and every path to a leaf, and drop exactly the
  groups that a stated condition on the snapshot's fields names. `Publication` runs it on what the
  resolver returns and carries the guarantees of both to the outcome; `DerivedNames` gives a condition
  on names under which they apply, and `RedirectedPolicy` publishes one policy from end to end.
- **The input digest** (`Digest`, `PayloadAdmission`, `PayloadSnapshot`, `PayloadEvidence`). When the
  canonical payload is independent of arrival order, and when it determines the snapshot.
- **The refresh transaction** (`Connection`, `Refresh`, `RefreshService`, `RefreshSafety`,
  `RefreshIsolation`, `RefreshRuns`, `RefreshStored`, `RefreshVersions`, `RefreshActivation`, `RefreshNew`,
  `RefreshRecords`, `RefreshLinks`). Matching, copy-on-write, provenance, versions and pruning over maps of rows, with
  guarantees for one payload and for all runs of refreshes.
- **Smaller cores.** `Recovery` (compare-and-set restoration and rollback), `ProbeReport` (the tally and
  status of a maintenance probe), `LegacyEdges` (the edge view of member sources), `ScoreBands` (partition
  of the score range), over `Sorting` (stable sort) and `Wrappers`.

## Promises that hold only under a condition

Where the code keeps a promise on some inputs only, the exact condition is proved together with an
input outside it; for the consistency of resolved snapshots the condition is a sufficient one.

- Reordering rules keeps routing exactly when the reachable rules behind the first MATCH share its
  target (`Rules.ReorderingPreservesRouting`). The resolver validates without requiring a terminal
  MATCH, so accepted policies can be rerouted (`Rules.OptionalMatchMayReroute`).
- Evaluation and rewrite pick the filter of a group reference differently. The recollected nodes of all
  groups are their pipelines' leaf nodes exactly when, for every group, both choices select the same
  nodes from its children (`RewriteMeaning.MeaningExactly`, `GroupSnapshot.FaithfulExactly`). Filters with
  the same conditions do (`RewriteMeaning.AgreeingFiltersSelect`), so one reference per parent and child
  suffices (`RewriteMeaning.SingleRefsSelect`); otherwise a filtered node can reappear in what the group
  stage returns (`FilterChoice.RunTwiceReferenced`).
- A removal leaves every item that its kind does not concern (`PipelineKinds.SourceActs`), but it is not
  the inverse of the addition by the same source. Besides what the source would add it drops exactly a
  named node that the filter rejects, leaves of the group that pattern or filter reject, and the nodes
  that a blank pattern matches (`PipelineKinds.RemovalOverreaches`).
- A derived group lists no member twice exactly when no leaf of the child that passes the filter occurs
  there twice (`MemberRepeats.DerivedMembersOnceExactly`). A child without groups among its members is
  such a child (`MemberRepeats.FlatChildMembersOnce`); one that lists a node and nests a group with the
  same node is not (`MemberRepeats.RunNested`). Original groups never repeat a member.
- A resolved snapshot is consistent, as the pruner's guarantees need it, when the ids and names of
  groups and derived groups are trimmed and distinct and no node or builtin is named like one
  (`Publication.ResolvedConsistent`). Names that are distinct and free of brackets will do
  (`DerivedNames.PlainIsTidy`); with brackets two derived groups can share a name
  (`DerivedNames.BracketsClash`). Distinct group names are necessary
  (`Publication.ConsistentNeedsNames`), and the resolver accepts policies without them
  (`Publication.ResolveNamesakes`).
- On a consistent snapshot a pass drops a group exactly when it is empty, may not pass traffic through, is
  no rule's target, and every group with a member that mentions its id or name is a selector with a
  member for something else (`PruneOutcomes.PassDropsExactly`). A mention is a reference where no group is
  named like another's id (`PruneOutcomes.MentionRefers`); otherwise a group that nothing refers to can
  stay for good (`PruneOutcomes.SparedByName`). On any snapshot a group goes exactly when a prunable one
  shares its id or name (`PruneOutcomes.DroppedExactly`), so of two namesakes the one with members goes
  with the empty one (`PruneOutcomes.NamesakeDropped`).
- A pass of the pruner empties a parent exactly when all its members stand for groups pruned in that
  pass (`PruneSafety.EmptiedExactly`). Over a run a rule-targeted group ends empty exactly when one of
  the passes prunes all it has left (`PruneSafety.TargetEmptiedExactly`); that never happens to a group
  that reaches a leaf (`PruneSafety.ReachingTargetKeepsMembers`), and it does happen
  (`PruneSafety.SiblingsEmptyParent`).
- A refresh keeps the connections of shared nodes exactly when no shared id clashes in the payload
  (`RefreshRuns.RefreshGuarantees`); a repeated id can clash (`RefreshRuns.RepeatedIdOverwrites`).
- A refresh keeps heads at their nodes' revisions exactly when no stored node drifts in the payload
  (`RefreshVersions.RefreshHeads`); two entries for one node can drift
  (`RefreshVersions.ThereAndBackDrifts`).
- A refresh keeps a stored node's activation exactly unless the last write to it is a copy-on-write
  split from a node with the other one (`RefreshActivation.RefreshKeepsActivation`). A second split from
  an active shared node reactivates the private copy that was disabled
  (`RefreshActivation.SplitReactivates`).
- A row that a refresh creates is active exactly unless the last split onto it came from an inactive
  stored node (`RefreshNew.NewRowActivation`). When no entry matches a stored node it is always active,
  and its revision is one plus the number of entries scoped onto it that change its connection
  (`RefreshNew.NewRowsActive`), so not always one (`RefreshNew.SecondRevises`); a stored row comes back
  active exactly when it has no owner and the first entry written to it carries its id
  (`RefreshNew.StoredRowJoined`).
- A full refresh links the subscription to every node it wrote exactly when no entry is split off from
  a node that an earlier entry wrote (`RefreshLinks.WrittenLinkedExactly`,
  `RefreshLinks.WrittenNodeUnlinked`).
- A refresh keeps the connection recorded for a stored node under a revision exactly unless the last
  entry that writes the node at that revision has another one (`RefreshVersions.VersionKeptExactly`,
  `RefreshVersions.SecondSplitReplaces`).
- A rollback is idle exactly when no candidate's row carries the plan's stamp
  (`Recovery.RollbackIdleExactly`). The stamp is set even by a restoration that aborts. So restoring and
  rolling back is the identity after a restoration that went through, and after an aborted one exactly
  when no candidate was activated under the same stamp (`Recovery.ApplyThenRollback`,
  `Recovery.AbortedThenRollbackDeactivates`); and a rollback can miss its own rows
  (`Recovery.RepeatDisarmsRollback`).
- With a digest that tells plans apart a hashed plan cannot be changed and still be applied; a plan
  without a hash is not checked (`Recovery.TamperingRefused`).
- The digest's payload is independent of arrival order exactly when equal sort keys mean equal
  canonical elements (`Digest.PayloadOrderFreeExactly`, `Digest.SharedPositionsDepend`).
- Of two inputs with the same digest payload the snapshots are the same, up to rule ids, exactly when
  both admit the same nodes and agree on what the snapshot copies and the payload lacks: the endpoints of
  those nodes and the time of the risk decisions (`PayloadSnapshot.SamePayloadSameSnapshot`). Moving a
  listed node to another server changes the snapshot and not the payload
  (`PayloadSnapshot.EndpointNotDigested`).
- In every environment that is so exactly when both inputs hold out the same active nodes, sort the
  admission rules to the same verdicts if any node gets as far as these, and copy the same for every node
  that does (`PayloadAdmission.AdmitAlikeExactly`, `PayloadSnapshot.AlwaysAlikeExactly`). The payload has
  neither the excluded ids nor the action for nodes under review
  (`PayloadAdmission.ReviewActionDecides`), and rules that share a position are digested in a stable order
  but tried in another (`PayloadAdmission.TiedRulesDecide`).
- The digest of sources and observations tells what a filter condition reads exactly when the condition
  asks for freshness by the digest's own limit of a day (`PayloadEvidence.LimitDigestedExactly`); with
  any other limit equal digests leave open whether a node is admitted
  (`PayloadEvidence.OtherLimitDecides`).
- A probe that leaves tasks over is marked PARTIAL, but the status of the run is computed afresh. The
  mark is the final status exactly when tasks are left over, or the runner failed, just in case no node
  is available (`ProbeReport.RunProbe`); a run cut off after its baseline passes (`ProbeReport.RunCutOff`).
- Submitting the legacy view unchanged is the identity exactly when the pipeline carries one common
  filter (`LegacyEdges.ResubmitExactly`, `LegacyEdges.ResubmitSpreadsFilter`), although the comment in the
  source calls accepted edits lossless.

## Model

| member | source | states |
|---|---|---|
| `Topology.CheckHeaders` | internal/domain/policy.go:301-313 | Accepts exactly when every group has a valid id, a non-blank name and a known type; then returns the set of group ids. |
| `Policy.ValidateGroupEdge` | internal/domain/policy.go:225-261 | Accepts exactly the edges with a valid parent, a non-negative position and one non-empty target: a valid group other than the parent, or a valid node; otherwise the first failing check's code. |
| `Topology.ScanEdges` | internal/domain/policy.go:325-341 | Accepts exactly when every edge is valid and its child exists; the children are exactly those the edges declare. |
| `Topology.ScanSources` | internal/domain/policy.go:344-365 | Accepts exactly when every source is valid and its target exists and is not the group itself; the targets are exactly those the sources declare. |
| `Topology.AdjacencyIsDeclared` | internal/domain/policy.go:315-365 | The adjacency map built from edges and sources is the declared dependency relation, and it is closed. |
| `Topology.CycleSearch.ReportCycle` | internal/domain/policy.go:386-410 | A back edge to a grey group yields a closed walk of real edges; the fallback path is never taken. |
| `Topology.CycleSearch.Dfs` | internal/domain/policy.go:377-421 | From a white group: either a closed walk of real edges is reported, or the group is finished, everything finished stays finished and the stack is restored. |
| `Topology.CycleSearch.Run` | internal/domain/policy.go:367-429 | Reports nothing exactly when the adjacency graph is acyclic, and the finishing order is then a topological rank of all groups. |
| `Topology.RankedIsAcyclic` | internal/domain/policy.go:367-429 | A graph with a rank falling along every edge has no closed walk. |
| `Topology.ValidatePolicyTopology` | internal/domain/policy.go:295-432 | Accepts exactly when references are in order, the declared graph is acyclic and the rules are valid; a cyclic graph is always reported as a cycle, with a closed walk of declared edges. |
| `Rules.ValidatePolicyRules` | internal/domain/policy.go:435-475 | Accepts exactly when every rule is well-formed, at most one is terminal, and, if required, the terminal one is last by position. |
| `Rules.ResolveRules` | internal/resolver/graph.go:650-698 | The result lists standard rules before terminal ones, numbered from 0, with the target's name. |
| `Rules.RulesListed` | internal/resolver/graph.go:650-698 | The list is a permutation of the rules: each under its place and its target's name and marked terminal exactly if it is a MATCH, terminal ones last, rules of one kind by position. |
| `Rules.ArrangeIsStablePartition` | internal/resolver/graph.go:658-697 | The reordering is a permutation, puts every terminal rule behind every standard one and keeps the order within both kinds. |
| `Rules.ReorderingPreservesRouting` | internal/resolver/graph.go:658-697 | First-match routing is the same for all traffic exactly when every reachable standard rule behind the first MATCH has that MATCH's target. |
| `Rules.TerminalMatchPreservesRouting` | internal/domain/policy.go:435-475 | Validation with a required terminal MATCH makes the resolver's reordering invisible to routing. |
| `Rules.OptionalMatchMayReroute` | internal/resolver/graph.go:14-20 | Without that requirement, as the resolver validates, any accepted pair of a MATCH before a rule with another target is routed differently. |
| `GroupResolver.Evaluator.ResolveGroupMemo` | internal/resolver/graph.go:102-416 | The memoised recursion returns the plain recursive evaluation of the group, terminates, and never takes its re-entrancy guard. |
| `GroupResolver.Evaluator.RunPipeline` | internal/resolver/graph.go:119-331 | The item list and candidate count after all sources are those of the recursive pipeline. |
| `GroupResolver.Evaluator.AddSource` | internal/resolver/graph.go:127-279 | One add source extends the items by its candidates not yet present, for all six kinds, and keeps the seen set equal to the item ids. |
| `GroupResolver.Evaluator.RemoveSource` | internal/resolver/graph.go:280-330 | One remove source keeps exactly the items it does not select and forgets the ids of the others. |
| `GroupResolver.Evaluator.BuildMemo` | internal/resolver/graph.go:333-415 | Members, child groups, nodes, leaf items, leaf set and effective empty-pass are those of the recursive meaning. |
| `GroupResolver.Evaluator.ResolveAll` | internal/resolver/graph.go:418-437 | Every listed group gets its recursive meaning. |
| `PipelineFacts.ItemsDistinct` | internal/resolver/graph.go:119-331 | No identity occurs twice among a group's items, after any number of sources. |
| `PipelineMeaning.LastWriterWins` | internal/resolver/graph.go:123-331 | An item is in the group exactly when some source adds it and no later source removes it. |
| `PipelineMeaning.LeafNodesAdmitted` | internal/resolver/graph.go:123-384 | No group, through any nesting, reaches a node that was not admitted. |
| `PipelineAlike.LeavesRankFree` | internal/resolver/graph.go:102-416 | The meaning does not depend on which topological rank the evaluation is measured by. |
| `PipelineAlike.LeavesAlike` | internal/resolver/graph.go:102-416 | Members and leaves of a group are the same over policies that differ only in the ids and owners recorded with their sources. |
| `PipelineMeaning.RemoveUndoesAdd` | internal/resolver/graph.go:123-330 | A source turned into a removal drops everything it would add, except the builtins that an addition by group nodes carries along. |
| `PipelineKinds.SourceActs` | internal/resolver/graph.go:123-331 | For every source of every group: a removal by identity takes out that one item and no other; one by pattern, filter or group leaves, in order, all groups and builtins and every node it rejects; an addition appends, in order, exactly the items of its kind that were not there. |
| `PipelineKinds.SourcesInOrder` | internal/resolver/graph.go:71-77 | Sources run by ascending position, those of one position as listed, none lost. |
| `PipelineKinds.RemovalOverreaches` | internal/resolver/graph.go:123-330 | What a source removes but would not add: exactly a named node the filter rejects, leaves that pattern or filter reject, matches of a blank pattern. |
| `PipelineKinds.CandidatesCounted` | internal/resolver/graph.go:121-252 | The candidates each kind of source adds to the reported count. |
| `DerivedGroups.FindAddFilter` | internal/resolver/graph.go:473-480 | The rewrite uses the filter of the first add reference to the child. |
| `DerivedGroups.FilterLeaves` | internal/resolver/graph.go:489-518 | Members and node ids are the child's leaves that pass the filter, and the flag tells whether some node did not. |
| `DerivedGroups.SingleRefsAgree` | internal/resolver/graph.go:350-358 | With at most one reference per parent and child, the evaluation's and the rewrite's choice of filter have the same conditions. |
| `FilterChoice.ChoicesAgreeExactly` | internal/resolver/graph.go:350-358 | For any reference to a child with leaf nodes, the evaluation's and the rewrite's filter keep the same nodes under every condition semantics exactly when they have the same conditions. |
| `FilterChoice.DisagreementLeaksNode` | internal/resolver/graph.go:474-480 | With two references to one child, the second filtered, the parent has no leaves, yet a filtered node is reachable in every rewritten graph. |
| `FilterChoice.RunTwiceReferenced` | internal/resolver/graph.go:418-599 | The group stage run on that policy, with fresh and injective derived ids, returns the parent with the filtered node among its nodes. |
| `ResolveGroups.DeriveChild` | internal/resolver/graph.go:481-538 | A reference is redirected exactly when its filter rejects a leaf of the child; id, name, type, members and node ids of the derived group are fixed, its members being exactly the leaves that pass. |
| `ResolveGroups.RewriteParent` | internal/resolver/graph.go:467-548 | Every filtered reference of the parent, in members with their names and in child ids, is redirected to its derived group; name, type, nodes and all other members are left alone. |
| `DerivedNames.NameTellsParent` | internal/resolver/graph.go:522 | A derived name properly extends the child's name and differs between different parents of one child. |
| `DerivedNames.NameTellsBoth` | internal/resolver/graph.go:522 | Where child names have no bracket, the derived name tells parent and child. |
| `DerivedNames.BracketsClash` | internal/resolver/graph.go:522 | With brackets in names, references with different parents and children share a derived name. |
| `ResolveGroups.TableIsRanked` | internal/resolver/graph.go:464-555 | The rewritten graph is again acyclic, so the transitive collection terminates. |
| `RewriteMeaning.MeaningPreserved` | internal/resolver/graph.go:464-599 | Where both filter choices select the same nodes, the nodes recollected from the rewritten graph are exactly the leaf nodes of the group's pipeline. |
| `RewriteMeaning.MeaningExactly` | internal/resolver/graph.go:464-599 | All groups keep their meaning exactly when, for every group, the filters the rewrite picks select the same nodes from its children as those the evaluation picks. |
| `RewriteMeaning.AgreeingFiltersSelect` | internal/resolver/graph.go:350-480 | Filters with the same conditions select the same nodes for every group. |
| `RewriteMeaning.SingleRefsSelect` | internal/resolver/graph.go:350-480 | With at most one reference per parent and child, both choices select the same nodes. |
| `RewriteMeaning.RewrittenMembersOk` | internal/resolver/graph.go:333-548 | Every member of a rewritten group names an admitted node, a group of the rewritten graph or a builtin, and its id lists are those of its members. |
| `RewriteMeaning.DerivedMembersOk` | internal/resolver/graph.go:489-538 | The same for every derived group. |
| `RewriteMeaning.ReachedNodesAdmitted` | internal/resolver/graph.go:464-599 | Whatever the filters, no original or derived group reaches a node that was not admitted. |
| `DerivedGroups.Collect` | internal/resolver/graph.go:562-580 | The depth-first walk with a visited set delivers exactly the nodes reachable from the group. |
| `GroupSnapshot.RecollectAll` | internal/resolver/graph.go:557-599 | Whatever the filters, the groups stay in order, and every group keeps its content, gets the set of nodes reachable from it in the rewritten graph and an empty-pass flag that is kept only when nothing is reachable. |
| `GroupSnapshot.SnapshotIdsDistinct` | internal/resolver/graph.go:464-555 | The originals followed by the derived group of every redirected reference, parent by parent, list no id twice. |
| `GroupSnapshot.SnapshotSafe` | internal/resolver/graph.go:418-599 | Every group of the snapshot lists and reaches admitted nodes only, and refers to the snapshot's own groups only. |
| `GroupSnapshot.FaithfulExactly` | internal/resolver/graph.go:418-599 | All original groups offer their leaf nodes and pass through when empty as their pipelines say, exactly when the filter choices select the same nodes. |
| `GroupSnapshot.Run` | internal/resolver/graph.go:418-599 | The whole group stage presents one rewritten graph: originals in order, then the derived groups in order, each group once, with contents, reachable nodes and flags fixed; every group is safe, and all are faithful exactly when the filter choices select the same nodes. |
| `SnapshotAlike.SnapshotsSame` | internal/resolver/graph.go:418-599 | The groups are determined: over policies that differ only in the ids and owners of sources, and by any ranks, the stage presents the same list. |
| `MemberRepeats.OriginalMembersOnce` | internal/resolver/graph.go:123-548 | An original group lists no member twice, also after the rewrite. |
| `MemberRepeats.DerivedMembersOnceExactly` | internal/resolver/graph.go:489-518 | A derived group lists no member twice exactly when no leaf of the child that passes the filter occurs twice. |
| `MemberRepeats.FlatChildMembersOnce` | internal/resolver/graph.go:489-518 | So it lists none twice if the child has no groups among its members. |
| `MemberRepeats.RunNested` | internal/resolver/graph.go:418-599 | On a child that lists a node and nests a group with the same node the stage returns a group that lists the node twice. |
| `Admission.ExchangeSort` | internal/resolver/admission.go:39-48 | The in-place exchange sort orders the rules by position and permutes them, and its result is the value-level sort, ties included. |
| `Admission.ExchangedSorts` | internal/resolver/admission.go:39-48 | The value-level exchange sort orders by position and permutes. |
| `Admission.FirstMatchDecides` | internal/resolver/admission.go:75-103 | The first match in sorted order is a match of lowest position, and its action decides. |
| `Admission.DecisionUnique` | internal/resolver/admission.go:39-103 | If matching rules have distinct positions, the decision does not depend on how ties are sorted. |
| `Admission.EvaluateNodeAdmission` | internal/resolver/admission.go:21-116 | Admitted are exactly the active, not excluded nodes that the first match in sorted order lets through, so none is blocked by every lowest-position match; every excluded id has a reason; the two partition the input. A node whose lowest-position matches all reject or quarantine it is excluded. |
| `Admission.UniqueStrings` | internal/resolver/risk_admission.go:81-92 | Compacts in place, keeping one of each run of equal strings. |
| `Admission.SortUnique` | internal/resolver/admission.go:113-115 | Sorting and compacting lists each id exactly once, in order. |
| `Admission.EvaluateRiskAdmission` | internal/resolver/risk_admission.go:10-79 | Excludes exactly the listed nodes with a blocking decision of the current revision, review counting as blocking unless allowed. |
| `Resolve.GlobalFilter` | internal/resolver/resolver.go:82-111 | Keeps exactly the admitted nodes that match, indexes them, and moves the others to the excluded ids. |
| `Resolve.AdmitNodes` | internal/resolver/resolver.go:77-111 | Kept are exactly the input nodes that risk, admission and global filter let through; every other input id is listed as excluded for a reason that holds. |
| `Resolve.AdmittedIsSafe` | internal/resolver/admission.go:39-103 | A node the stages let through is active, not excluded, not blocked by risk or by its lowest-position match, and matches the global filter. |
| `Resolve.Resolve` | internal/resolver/resolver.go:25-246 | Accepts exactly the valid policies. Then the nodes are exactly the admitted ones of the input with their own endpoints, all safe, each once, by name and id; admitted and excluded ids are sorted and partition the input; the groups present the rewritten graph of the policy over those nodes, each group once, and are faithful exactly when the filter choices select alike; every node that any group lists, has as a member or reaches is safe and every group member is a group of the snapshot; rules are presented in the reordered form. |
| `ResolveOutcomes.BarredExcluded` | internal/resolver/resolver.go:56-111 | A node that is inactive, excluded, blocked or undecided or under disallowed review by a current risk decision, rejected or quarantined by all its lowest-position matches, or outside the filter is not in the snapshot, and its id is listed as excluded. |
| `ResolveOutcomes.InSnapshotExactly` | internal/resolver/resolver.go:56-111 | Where the matching rules of a node have different positions, it is in the snapshot exactly when nothing of this bars it. |
| `ResolveOutcomes.ListedInOrder` | internal/resolver/graph.go:79-97 | Nodes and groups are listed strictly by name, then id, and ids by their own order, compared at the first difference. |
| `ResolveOutcomes.SourcesSupplied` | internal/resolver/resolver.go:38-45 | A group is resolved with its own sources, or, if sources are supplied separately, with those under its id or none. |
| `BudgetLedger.Ledger.Start` | tools/probe-comparison/ledger.py:39-46 | Starts exactly a new ledger of this manifest; otherwise nothing changes. |
| `BudgetLedger.Ledger.AddQuota` | tools/probe-comparison/ledger.py:48-50 | Adds an unused scope; a scope that exists is refused without change. |
| `BudgetLedger.Ledger.Reserve` | tools/probe-comparison/ledger.py:52-67 | Grants the least of the request, the experiment's and the scope's remainder, if positive, while running and before the deadline; otherwise nothing changes. |
| `BudgetLedger.Ledger.Settle` | tools/probe-comparison/ledger.py:69-77 | Settles a held reservation once, for at most its amount, and releases the rest; otherwise nothing changes. |
| `BudgetLedger.Ledger.BeginAttempt` | tools/probe-comparison/ledger.py:79-81 | Records a new attempt once. |
| `BudgetLedger.Ledger.FinishAttempt` | tools/probe-comparison/ledger.py:83-86 | Finishes a queued attempt once. |
| `BudgetLedger.Ledger.Close` | tools/probe-comparison/ledger.py:95-98 | Only the state changes; held amounts stay charged. |
| `BudgetLedger.RunBalanced` | tools/probe-comparison/ledger.py:34-98 | In every reachable state used plus reserved stays within every cap, and experiment and quota totals are the sums over reservations. |
| `BudgetLedger.SettledOnce` | tools/probe-comparison/ledger.py:69-77 | Over any run a reservation is never dropped or resized, and once settled never changes. |
| `BudgetLedger.ReservedInTime` | tools/probe-comparison/ledger.py:39-67 | In every run a reservation is granted only after the start of this manifest, before the end of the time that start allowed, and never after a close. |
| `BudgetLedger.RunSized` | tools/probe-comparison/ledger.py:52-68 | In every run every reservation is positive and at most 64 MiB. |
| `BudgetLedger.ReserveSettle` | tools/probe-comparison/ledger.py:52-77 | Whatever is granted can be settled at any part of it: the part is charged, the rest released, all else is as before the reservation. |
| `BudgetLedger.ClosedStaysCharged` | tools/probe-comparison/ledger.py:95-98 | After close nothing is reserved any more, the total never grows, and what is not settled stays charged. |
| `BudgetLedger.ScopeDecidesGrant` | tools/probe-comparison/ledger.py:59 | When the quotas fit the cap, the experiment's remainder is at least each scope's and a grant is limited by its scope alone. |
| `Allocation.AllocationPlan` | tools/probe-comparison/run.py:93-97 | Accepts exactly the legal caps; baseline, four equal platform shares and the rounding rest add up to the cap. |
| `Allocation.PlatformLimit` | tools/probe-comparison/run.py:386 | The doubly floored per-node limit is the largest that, times groups and nodes, fits in one side's share. |
| `Allocation.ScheduleFits` | tools/probe-comparison/run.py:379-410 | All quotas an accepted plan can create cost at most the approved cap. |
| `Allocation.ScheduledRunsFit` | tools/probe-comparison/run.py:338-410 | In every state reachable through the schedule the ledger is balanced, the quotas fit, and each grant is limited by its own scope alone. |
| `Experiment.Launch` | tools/probe-comparison/run.py:338-378 | One launch creates its quotas in order before anything else and leaves the ledger as its operations say, also when it stops early. |
| `Experiment.Intersection` | tools/probe-comparison/run.py:221-223 | Exactly the nodes available and executed on all four baseline sides. |
| `Experiment.Execute` | tools/probe-comparison/run.py:311-424 | A whole run's operations follow the schedule, so the final ledger is balanced, closed and within the cap. |
| `Prune.PruneOnePass` | internal/compiler/prune.go:44-198 | One pass removes the prunable groups and every member standing for one; it reports a change and the pruned groups. |
| `Prune.ChangeDropsGroup` | internal/compiler/prune.go:170-197 | A pass that changes anything drops at least one group. |
| `Prune.PruneUnavailableOptionalGroups` | internal/compiler/prune.go:18-42 | The bounded loop always ends at a fixed point, after at most as many rounds as there are groups, and reports nothing exactly when nothing changed. |
| `PruneSafety.PrunedExactly` | internal/compiler/prune.go:81-168 | On a consistent snapshot exactly the empty, untargeted, spareable groups go. |
| `PruneOutcomes.PassDropsExactly` | internal/compiler/prune.go:81-190 | On a consistent snapshot a pass drops a group, and the members standing for it, exactly when it is empty, may not pass traffic through, is no rule's target and is optional for every group that mentions it. |
| `PruneOutcomes.PassThroughSurvives` | internal/compiler/prune.go:81-84 | An empty group that may pass traffic through is there after any number of passes. |
| `PruneOutcomes.PassThroughStaysMember` | internal/compiler/prune.go:81-190 | Members standing for it stay in their groups, which stay with them, over any number of passes. |
| `PruneOutcomes.MentionRefers` | internal/compiler/prune.go:59-72 | Where no group is named like another's id, a mention is a reference. |
| `PruneOutcomes.SparedByName` | internal/compiler/prune.go:59-128 | A consistent snapshot whose empty, unreferenced group stays for good because of a member named like its id. |
| `PruneOutcomes.PrunableIsHarmless` | internal/compiler/prune.go:81-128 | On any snapshot, what is found prunable is empty and no rule's target, and a group with a member under its id is a selector that keeps another member. |
| `PruneOutcomes.DroppedExactly` | internal/compiler/prune.go:138-176 | On any snapshot a group goes exactly when some prunable group shares its id or its name. |
| `PruneOutcomes.MemberDroppedExactly` | internal/compiler/prune.go:177-186 | On any snapshot a member goes exactly when it is listed under the id or name of a prunable group. |
| `PruneOutcomes.NamesakeDropped` | internal/compiler/prune.go:138-176 | Of two groups with one name the one with members goes with the empty one. |
| `PruneSafety.TargetKept` | internal/compiler/prune.go:86-90 | A group that a rule targets survives the pass. |
| `PruneSafety.NonSelectorUnchanged` | internal/compiler/prune.go:111-116 | A group that is not a selector keeps all its members. |
| `PruneSafety.PassConsistent` | internal/compiler/prune.go:170-197 | A pass leaves no dangling member or rule reference. |
| `PruneSafety.EmptiedExactly` | internal/compiler/prune.go:117-130 | A parent loses all members exactly when each of them stands for a group pruned in that pass. |
| `PruneSafety.EmptiedTakesTwo` | internal/compiler/prune.go:117-130 | That takes two different pruned groups and a selector parent. |
| `PruneSafety.SiblingsEmptyParent` | internal/compiler/prune.go:117-130 | In a consistent snapshot, two empty siblings, each spareable alone, are pruned together and leave their rule-targeted parent in place and empty, after any number of rounds. |
| `PruneSafety.ChainKept` | internal/compiler/prune.go:170-197 | Every chain of references to a leaf survives the pass, and none is invented. |
| `PruneSafety.RunPreserves` | internal/compiler/prune.go:26-41 | Over all rounds the snapshot stays consistent, the rules stay, and every group reaches the same leaves. |
| `PruneSafety.RunKeepsTargets` | internal/compiler/prune.go:26-41 | Over all rounds rule-targeted groups survive with id, name and type, non-selectors among them unchanged. |
| `PruneSafety.TargetEmptiedExactly` | internal/compiler/prune.go:26-130 | A rule-targeted group with members is empty after any number of rounds exactly when one of them prunes every group its remaining members stand for. |
| `PruneSafety.ReachingTargetKeepsMembers` | internal/compiler/prune.go:26-130 | A rule-targeted group that reaches a node or builtin is never emptied. |
| `Publication.ResolvedConsistent` | internal/application/publication/service.go:182-197 | With tidy labels every resolved policy is a consistent snapshot: ids and names identify its groups, members and rule targets resolve by id and name, and no node or builtin is mistaken for a group. |
| `Publication.ConsistentNeedsNames` | internal/resolver/resolver.go:25-246 | Consistency needs distinct, non-empty group names, and groups if there are rules; the resolver demands neither. |
| `Publication.NamesakesInconsistent` | internal/resolver/resolver.go:25-246 | A policy with two groups of one name never resolves to a consistent snapshot. |
| `Publication.ResolveNamesakes` | internal/resolver/resolver.go:25-246 | The resolver, run on two groups of one name, accepts them and returns an inconsistent snapshot. |
| `Publication.ResolveAndPrune` | internal/application/publication/service.go:182-197 | Without the opt-in the outcome is the resolved snapshot, with it what the pruner leaves at its fixed point; it never offers an unsafe node; with tidy labels it is consistent, keeps the rules and their targets, and every group reaches what it reached before pruning. |
| `DerivedNames.PlainIsTidy` | internal/application/publication/service.go:182-197 | Trimmed, distinct group names without brackets, and leaves not labelled like groups, make a policy tidy. |
| `RedirectedPolicy.PublishRedirected` | internal/application/publication/service.go:182-197 | A tidy policy whose group "Auto" refers to "HK" through a filter: published, pruned or not, it lists "HK [Auto]" with the node that passes, and "Auto" refers to it. |
| `Connection.AreInboundCredentialsEqual` | internal/application/inventory/reconcile_helper.go:14-56 | True exactly when the credentials agree up to the pre-shared key's alias. |
| `Connection.AreConnectionParametersEqual` | internal/application/inventory/reconcile_helper.go:59-75 | True exactly when the canonical forms agree. |
| `Connection.SameExactly` | internal/application/inventory/reconcile_helper.go:12-75 | Equal are connections with the same protocol, port, folded trimmed server and pre-shared key under either alias, and the same other credentials. |
| `Connection.OverrideExactly` | internal/application/inventory/service.go:1879-1907 | An override gives the one connection that has the user's values and is otherwise the entry's; applying it again changes nothing. |
| `RefreshService.FindMatch` | internal/application/inventory/service.go:908-930 | The stored node an entry updates: by logical id, by unique name and protocol, by scoped id, by base id, in this order. |
| `RefreshRecords.MatchMeans` | internal/application/inventory/service.go:908-930 | A matched node is stored, and has the entry's id, or alone its name and protocol, or its scoped or base id. |
| `RefreshRecords.NoticeMeans` | internal/application/inventory/service.go:879-894 | A notice is noted with the stored node of its id, else exactly with the only one of its name and protocol. |
| `RefreshRecords.NameRecorded` | internal/application/inventory/service.go:597-640 | After a refresh a stored node is on record under the name of the last entry or notice seen for it. |
| `RefreshRecords.FoundAgain` | internal/application/inventory/service.go:597-640 | The next refresh loads it under that name, whatever it was renamed to, and an only entry of that name and protocol matches it. |
| `RefreshService.Inventory.IngestMatched` | internal/application/inventory/service.go:932-1023 | An entry that updates a stored node: same connection, in-place change, or copy-on-write with its provenance record and, on full success, its unlinking. |
| `RefreshStored.OverridesWin` | internal/application/inventory/service.go:936-943 | A matching entry writes the user's values, and its own in everything else, wherever it writes. |
| `RefreshRecords.SplitRecorded` | internal/application/inventory/service.go:970-992 | A first split off from a stored node is on record exactly if there was one, with the revision the node had. |
| `RefreshService.Inventory.IngestUnmatched` | internal/application/inventory/service.go:1024-1106 | An entry that updates none: a new node, a joined one, or a scoped one. |
| `RefreshService.Inventory.WriteNode` | internal/application/inventory/service.go:1108-1159 | Node, version, head and association are written; a node seen before in the payload is not linked again. |
| `RefreshService.Inventory.IngestEntries` | internal/application/inventory/service.go:896-1209 | The loop over the payload is the fold of the single-entry step. |
| `RefreshService.Inventory.PruneStale` | internal/application/inventory/service.go:1211-1282 | Exactly the associations of this subscription with another fetch go, each leaving a provenance record if its node has a row. |
| `RefreshService.Inventory.Reconcile` | internal/application/inventory/service.go:530-1294 | The transaction ingests the payload, prunes on full success only, and otherwise changes nothing but display names. |
| `RefreshSafety.IngestKnown` | internal/application/inventory/service.go:973-1005 | No entry makes the tables forget an association: unlinked ones are recorded. |
| `RefreshIsolation.ClashExactly` | internal/application/inventory/service.go:1047-1052 | What the payload leaves on a shared id differs from the stored connection exactly when an entry joins it and the last later one under the id disagrees. |
| `RefreshIsolation.PayloadIsolates` | internal/application/inventory/service.go:896-1145 | A payload keeps the connection of every node owned by others exactly when no shared id clashes in it. |
| `RefreshIsolation.DistinctClashFree` | internal/application/inventory/service.go:1040-1052 | Payloads without repeated ids never clash. |
| `RefreshIsolation.PayloadConfirmed` | internal/application/inventory/service.go:1147-1158 | With a new fetch id, an association carries it exactly when the payload wrote its node. |
| `RefreshRuns.PruneKnown` | internal/application/inventory/service.go:1211-1282 | Pruning forgets no association. |
| `RefreshRuns.RefreshGuarantees` | internal/application/inventory/service.go:896-1294 | For any payload: other subscriptions' associations are identical, no node row goes, no association is forgotten, a partial refresh removes none of its own, a full one leaves exactly those this fetch confirmed, and shared connections are kept exactly when nothing clashes. |
| `RefreshRuns.RepeatedIdOverwrites` | internal/application/inventory/service.go:1047-1052 | A payload repeating another subscription's id, first as stored and then different, changes that node under its owner. |
| `RefreshRuns.ProvenanceNeverLost` | internal/application/inventory/service.go:973-1282 | Over any run of failed, partial and full refreshes, whatever was ever associated stays live or recorded, and no node row is lost. |
| `RefreshRuns.ForeignRunIntact` | internal/application/inventory/service.go:401-1294 | A run of other subscriptions' refreshes leaves a subscription's associations identical and its nodes' connections semantically the same. |
| `RefreshVersions.VersionsRecorded` | internal/application/inventory/service.go:938-1106 | Over any run of refreshes every node's current connection is on record under its revision, and every recorded node and revision stays on record. |
| `RefreshVersions.VersionKeptExactly` | internal/application/inventory/service.go:938-1020 | What is recorded for a stored node under a revision keeps its connection exactly unless the last entry that writes the node at that revision has another. |
| `RefreshVersions.SecondSplitReplaces` | internal/application/inventory/service.go:956-1020 | A second split from an unchanged shared node overwrites what the first recorded, under the same revision. |
| `RefreshVersions.RefreshHeads` | internal/application/inventory/service.go:908-1020 | A refresh keeps every head at its node's revision exactly when no stored node is first changed and then, after its last change, matched again as it was loaded. |
| `RefreshVersions.HeadsFollow` | internal/application/inventory/service.go:908-1106 | Over runs of such payloads every head stays at its node's revision. |
| `RefreshVersions.ThereAndBackDrifts` | internal/application/inventory/service.go:908-954 | A payload naming a stored node twice, first changed and then as stored, leaves the head ahead of the row. |
| `RefreshActivation.RefreshKeepsActivation` | internal/application/inventory/service.go:932-1103 | A refresh preserves the activation of a stored node of the subscription exactly unless the last write to it is a split from a loaded node with the other activation. |
| `RefreshActivation.SplitReactivates` | internal/application/inventory/service.go:932-976 | A payload that changes a node shared with another subscription writes the subscription's disabled private copy again and activates it. |
| `RefreshNew.NewRowActivation` | internal/application/inventory/service.go:932-1106 | A row that was not there before is inactive exactly when the last split onto it came from an inactive stored node. |
| `RefreshNew.UnmatchedRow` | internal/application/inventory/service.go:1021-1106 | When no entry matches a stored node: which rows there are, with which connection, revision and activation, id by id and for any hashes. |
| `RefreshNew.NewRowsActive` | internal/application/inventory/service.go:1037-1106 | Then every new row is active, at one plus the changes made to it under a scoped id. |
| `RefreshNew.FirstImport` | internal/application/inventory/service.go:1037-1040 | Entries that match nothing and carry unknown ids get active rows at revision one under these ids, and no other id gets a row. |
| `RefreshNew.StoredRowJoined` | internal/application/inventory/service.go:1041-1077 | A row that was there is active afterwards exactly when it was, or when it has no other owner and the first entry written to it carries its id. |
| `RefreshNew.JoinReactivates` | internal/application/inventory/service.go:1054-1062 | An inactive row without owners comes back active when the first entry carries its id and connection. |
| `RefreshNew.SecondRevises` | internal/application/inventory/service.go:1079-1102 | Two entries under a foreign id with connections of their own create a scoped node that ends at revision two. |
| `RefreshLinks.StoredLinkedExactly` | internal/application/inventory/service.go:998-1158 | After a full refresh a stored node is linked exactly when an entry writes it and none is split off from it later. |
| `RefreshLinks.WrittenLinkedExactly` | internal/application/inventory/service.go:998-1158 | After a full refresh every node it wrote is linked exactly when no entry is split off from a node that an earlier one wrote. |
| `RefreshLinks.WrittenNodeUnlinked` | internal/application/inventory/service.go:998-1158 | A payload naming a shared node twice, first as stored and then changed, writes it and leaves it unlinked. |
| `Recovery.Database.Activate` | internal/recovery/recover.go:331-336 | The compare-and-set changes the row exactly when it is inactive with the reviewed timestamp. |
| `Recovery.Database.Apply` | internal/recovery/recover.go:279-391 | Refused unless every gate holds; succeeds exactly on distinct, current candidates and then restores all of them; otherwise the table is unchanged and the first stale candidate is named; the plan's stamp is set even when it aborts. |
| `Recovery.PassesGates` | internal/recovery/recover.go:279-308 | The gates, tried in order, pass exactly approved, non-empty plans for a sandbox under simulated approval with no hash or the right one. |
| `Recovery.TamperingRefused` | internal/recovery/recover.go:305-308 | With a digest that tells plans apart, a hashed plan whose candidates or approval changed is refused. |
| `Recovery.Database.Rollback` | internal/recovery/recover.go:399-462 | Reverts the qualifying candidates and counts them. |
| `Recovery.RolledBackRow` | internal/recovery/recover.go:424-458 | A rollback changes exactly the candidates' rows that are active with the plan's stamp, each to its reviewed state. |
| `Recovery.RestoreRollback` | internal/recovery/recover.go:326-458 | Restoring and rolling back is the identity on every row. |
| `Recovery.RollbackUndoesOnlyOwnWrites` | internal/recovery/recover.go:396-458 | With any writes in between, untouched restored rows go back and rows with another timestamp are left alone. |
| `Recovery.RollbackIdleExactly` | internal/recovery/recover.go:424-458 | A rollback changes nothing exactly when no candidate's row qualifies. |
| `Recovery.AbortedThenRollbackDeactivates` | internal/recovery/recover.go:310-311 | A candidate's row activated under the stamp of a restoration makes that restoration abort, and the rollback deactivates the row. |
| `Recovery.ApplyThenRollback` | internal/recovery/recover.go:279-462 | Restoring and rolling back is the identity after a restoration that went through; after an aborted one exactly when no candidate was activated under the same stamp. |
| `Recovery.RollbackTwice` | internal/recovery/recover.go:424-458 | Rolling back twice is rolling back once. |
| `Recovery.RepeatDisarmsRollback` | internal/recovery/recover.go:310-311 | A repeated restoration always aborts, and the first one can then be undone only if the second ran within the same stamp. |
| `ProbeReport.IndexObservations` | internal/application/inventory/maintenance.go:530-547 | The index holds the last observation of every node and kind, and the bytes are those of all attempts. |
| `ProbeReport.CountersAddUp` | internal/application/inventory/maintenance.go:556-648 | Tasks that each end in one counter are counted once: the eight counters sum to the tasks. |
| `ProbeReport.Tally` | internal/application/inventory/maintenance.go:549-648 | Every counter is the number of tasks that ended so, the rows are those of all tasks in order, and for all nodes, kinds and observations the eight counters sum to the number of rows, which is nodes times kinds. |
| `ProbeReport.TaskEnds` | internal/application/inventory/maintenance.go:563-641 | How a task ends by its last observation: which words of the current revision lead to which counter, what another revision and no observation mean. |
| `ProbeReport.RowExplains` | internal/application/inventory/maintenance.go:591-641 | A row names its task; failures and tasks without observation carry a code, an observation's own code comes first, and exactly the tasks that did not run carry a reason. |
| `ProbeReport.RowsTellCounters` | internal/application/inventory/maintenance.go:549-648 | The counters can be read off the rows. |
| `ProbeReport.ExecuteProbe` | internal/application/inventory/maintenance.go:461-658 | The whole probe with its early exits; it is marked PARTIAL exactly when the runner failed or completed and failed tasks fall short of nodes times kinds. |
| `ProbeReport.ProbeOutcome` | internal/application/inventory/maintenance.go:549-655 | They fall short exactly when the last observation of some task neither completes nor fails it, and no node counts as available exactly when no baseline says so. |
| `ProbeReport.ScheduledExactly` | internal/application/inventory/maintenance.go:477-481 | The scheduled number of tasks is the number of rows exactly when the listing was complete or no kind was asked for. |
| `ProbeReport.EvaluateOverallStatus` | internal/application/inventory/maintenance.go:331-367 | The aggregate status: blocked previews first, then failures, whatever the status was. |
| `ProbeReport.RunProbe` | internal/application/inventory/maintenance.go:291-367 | A run that only probes ends PARTIAL exactly when nodes were targeted and none was available, so the probe's own mark survives exactly when tasks are left over, or the runner failed, just in case no node is available. |
| `ProbeReport.RunCutOff` | internal/application/inventory/maintenance.go:291-367 | A run cut off after the baseline of its only node has a cancelled task and a PARTIAL mark, and passes. |
| `Digest.Canonicalize` | internal/resolver/digest.go:109-205 | The payload is the same for every order in which the edge map is walked. |
| `Digest.PayloadInOrder` | internal/resolver/digest.go:120-199 | Nodes and groups by id, edges by parent and position, rules by position, risk decisions by node and reason. |
| `Digest.FilterDigested` | internal/resolver/digest.go:109-205 | A global filter without conditions is digested like none, any other as it is. |
| `Digest.SideSourcesIgnored` | internal/resolver/digest.go:125-145 | Sources listed on the side matter only for groups without sources of their own. |
| `Digest.WalkOrderIrrelevant` | internal/resolver/digest.go:147-164 | Stability alone makes the sorted edges independent of the map's iteration order. |
| `Digest.OrderFreeExactly` | internal/resolver/digest.go:111-187 | A stably sorted list is independent of arrival order exactly when equal keys mean equal canonical elements. |
| `Digest.PayloadOrderFreeExactly` | internal/resolver/digest.go:109-205 | The payload is independent of arrival and iteration order exactly when, in each list, equal sort keys mean equal canonical elements. |
| `Digest.SharedPositionsDepend` | internal/resolver/digest.go:166-177 | Two different rules at one position make the payload depend on how they arrive. |
| `PayloadAdmission.VerdictsExactly` | internal/resolver/admission.go:75-103 | Two orders of the same admission rules decide alike, whatever matches, exactly when every two expressions taken as all that match get the same verdict. |
| `PayloadAdmission.AdmitAlikeExactly` | internal/resolver/digest.go:88-107 | Inputs with one payload admit the same nodes in every environment exactly when they hold out the same active nodes and, if any node gets to the rules, sort these to the same verdicts. |
| `PayloadAdmission.PayloadSuffices` | internal/resolver/digest.go:88-107 | With one rule per position, equal excluded ids and agreement on whether review allows, the payload decides which nodes are admitted. |
| `PayloadAdmission.ReviewActionDecides` | internal/resolver/digest.go:88-107 | Two inputs that differ only in the action for nodes under review have one payload, and with a node under review do not admit alike. |
| `PayloadAdmission.TiedRulesDecide` | internal/resolver/digest.go:166-177 | Two arrival orders of three rules, two of them at one position, have one payload and are tried in different orders. |
| `PayloadSnapshot.GroupMapsAlike` | internal/resolver/digest.go:124-143 | One payload means the same groups up to the ids and owners of their sources. |
| `PayloadSnapshot.SamePayloadSameSnapshot` | internal/resolver/resolver.go:113-126 | Inputs with one payload, in environments that answer alike, resolve to the same nodes with endpoints, groups, id lists, risk time and, up to their ids, rules exactly when they admit the same nodes and agree on the endpoints of these and on the risk time. |
| `PayloadSnapshot.AlwaysAlikeExactly` | internal/resolver/digest.go:14-107 | With one payload that condition holds in every environment exactly when the inputs hold out the same active nodes, sort the rules to the same verdicts if any is asked, and agree on the risk time and on the endpoints of all nodes that only rules or filters can keep out. |
| `PayloadSnapshot.PayloadDetermines` | internal/resolver/digest.go:88-107 | Where these guards agree the payload determines the snapshot. |
| `PayloadSnapshot.EndpointNotDigested` | internal/resolver/digest.go:14-19 | Giving a listed node another endpoint keeps payload and admitted nodes and changes the snapshot. |
| `PayloadEvidence.LimitDigestedExactly` | internal/resolver/digest.go:252-276 | Equal digests of sources and observations tell all that a condition reads exactly when its freshness limit is the digest's 86400 seconds. |
| `PayloadEvidence.ViewsExactly` | internal/domain/node_filter.go:341-390 | With equal digests a condition reads the same of a node exactly when its limit parts no pair of observations by age. |
| `PayloadEvidence.OraclesExactly` | internal/domain/node_filter.go:298-409 | Conditions answer alike, whatever they make of what they read, exactly when they read the same. |
| `PayloadEvidence.DigestDetermines` | internal/resolver/digest.go:223-296 | Payload and evidence digest together determine the snapshot if conditions ask by the digest's limit and what is not digested agrees. |
| `PayloadEvidence.OtherLimitDecides` | internal/domain/node_filter.go:366-374 | With any other limit in the global filter there are observations with one digest of which one admits the node and the other does not. |
| `PayloadSnapshot.SameInputSameSnapshot` | internal/resolver/resolver.go:24-25 | Resolution is deterministic. |
| `LegacyEdges.ProjectSourceEdges` | internal/domain/policy_sources.go:4-16 | The view lists the added nodes and groups, in order. |
| `LegacyEdges.EditLegacySources` | internal/domain/policy_sources.go:20-68 | Refused exactly for pipelines with removals or rich kinds, invalid edges or an invalid filter; otherwise the specified pipeline. |
| `LegacyEdges.EditReadsBack` | internal/domain/policy_sources.go:4-68 | An accepted edge list reads back with only parent and position normalised; a filter edit leaves the view as it was. |
| `LegacyEdges.EditSetsFilter` | internal/domain/policy_sources.go:28-68 | After an edit every source carries the filter set, or else that of the first source before; a filter without conditions is none. |
| `LegacyEdges.EditedStaysPlain` | internal/domain/policy_sources.go:20-68 | An edited pipeline can be edited through the view again. |
| `LegacyEdges.ResubmitExactly` | internal/domain/policy_sources.go:18-68 | Submitting the unchanged view gives back the stored pipeline exactly when it carries one common filter. |
| `LegacyEdges.ResubmitSpreadsFilter` | internal/domain/policy_sources.go:43-62 | Submitting the unchanged view spreads the first member's filter to the others. |
| `ScoreBands.CheckOrdered` | internal/domain/iprisk.go:466-483 | On any sorted arrangement the walk accepts exactly the partitions. |
| `ScoreBands.ValidateScoreBands` | internal/domain/iprisk.go:462-484 | Accepts exactly when every band is well-formed and every score from 0 to 100 lies in exactly one band, whatever the input order. |

## Left out

- Text syntax: UUID and logical-id formats, trimming, case folding, regular expressions, admission expressions and filter conditions are arbitrary functions; a per-source syntax error is one such function.
- Hashing, JSON encoding, UUID generation and clocks: ids, times and digests are parameters, with injectivity and freshness stated where needed (`Resolve.NamingOk`, `RefreshSafety.ScopedInjective`, `RefreshSafety.BaseEntries`, `RefreshIsolation.NewFetch`).
- SQL: tables are maps and a transaction is one step; driver errors, missing history tables and swallowed errors are not modelled.
- Diagnostics of the resolver and of the risk stage, filter counts and node positions; of the pruner only the targets of its diagnostics are kept.
- Resolve.Resolve: requires distinct node ids, distinct group ids (both primary keys, see migrations/000001_initial_schema.sql:104-105 for groups) and derived ids that are fresh and injective.
- Resolve.Resolve: the sorted list of a group's transitive nodes is a set here.
- PruneSafety: its lemmas are about snapshots whose group ids and names identify groups and whose references resolve, which `Publication.ResolvedConsistent` establishes for resolved policies (`PruneOutcomes` also has results on any snapshot); members of no kind are not representable.
- Publication.ResolvedConsistent: its condition also covers the names that references would get if they were redirected, so it is sufficient only; preflight evaluation and compilation are not modelled.
- RefreshService.Inventory.Rename: the recomputed display names are a parameter; how they are computed is not modelled.
- RefreshService.Inventory.Reconcile: whether an entry is a notice, including user overrides of that classification, is an input; observation times of provenance records, raw entry rows and failed-fetch bookkeeping are not modelled.
- RefreshRuns: deleting subscriptions and manual edits between refreshes are not steps of a run.
- RefreshVersions: a version holds the whole connection here; the stored one leaves out the protocol.
- RefreshActivation.RefreshKeepsActivation: about nodes the subscription already has; new rows are in `RefreshNew.NewRowActivation`, joined ones in `RefreshNew.StoredRowJoined`.
- RefreshNew.UnmatchedRow: about payloads whose entries match no stored node; in others a row of another subscription can also be written by a split.
- RefreshRecords.FoundAgain: the name on record is that of the last entry in payload order; rows of entries and their times are not modelled.
- RefreshVersions.VersionKeptExactly: about nodes the subscription already has.
- Experiment.Execute: result normalisation and the table of terminal rows are not modelled; a child process is any sequence of reserve and settle calls.
- BudgetLedger.Ledger.Reserve: the random token and the clock are parameters.
- Digest.Canonicalize: scalar fields other than the risk revision are not modelled; risk decisions are taken with their formatted times; sources and observations are in `PayloadEvidence`, as values instead of their hash.
- PayloadSnapshot.SamePayloadSameSnapshot: about snapshots of accepted inputs; the snapshot's own time, diagnostics, filter counts and the copy of each group's sources, with ids, are not part of the model.
- PayloadEvidence.DigestDetermines: the time of the resolution is given; a resolution without one takes the clock twice.
- Recovery: the inspection that proposes candidates, the allowlist and the textual rollback script are not modelled.
- The policy specification's bound of 16 nesting levels is not in the code, so the model has none.
- ProbeReport.ExecuteProbe: creating and running the probe is an input; attempts, latencies and times in rows are not modelled.
- Configuration renderers, the subscription parser, network fetching, HTTP, command-line and web code.
