# A verified model of FastVoice's hard parts

This project models the parts of FastVoice whose correctness spans many steps, and proves
properties of them for all inputs, all runs and all interleavings. `dafny verify dfyconfig.toml`
verifies everything.

## What is modelled

**The Python bridge.** `generate_code` prints a stored workflow graph as a small Python program;
`parse_code` reads such a program back. Values, node specifications and Python syntax trees are
recursive datatypes (`PyValues`, `NodeSpecs`, `PySource`). The printer (`Bridge`, with variable
allocation in `Identifiers`) and the parser (`BridgeParser`) follow the source branch by branch.
`BridgeRoundTrip` and `BridgeNormalForm` show which printable graphs are accepted again, and that
they come back as their normal form exactly when no edge endpoint's variable, as Python reads it, is
bound again by a later node; with ASCII names that is always so. `BridgeFixedPoint` is about
repeated trips: the second returns the first one's graph exactly under the same condition on that
graph, always with names that are ASCII after defaults are filled in, and the third never differs
from the second. `BridgeSoundness` is about programs from any author.

Some facts the proofs brought out:

* Python evaluates `defaults[name] != value`, and `True == 1 == 1.0`. A stored value that Python
  calls equal to the default comes back as the default, so the round trip is the identity only up
  to Python's equality (`BridgeData.NormalKeepsMeaning`).
* The parser takes any receiver before `Workflow(...)` is bound.
* Python normalises identifiers with NFKC, the printer does not. `MergedNamesMoveEdge` gives node
  names for which the first trip moves an edge. A default can do it on the second trip
  (`DefaultNameMovesEdge`): a node "x" without a name and a node called "ªgent" survive the first,
  which fills in the default name "Agent", and collide in the second.

**Concurrent protocols over tables.** One SQL statement, or one commit, is one atomic step.

* Campaign claims with `FOR UPDATE SKIP LOCKED` (`CampaignClaims`): row locks are held from the
  SELECT to the commit. `QueuedRunTable` has the methods of one transaction, in place.
* The fenced configuration lease (`ConfigurationLease`), with the two commits of a claim apart.
  `ClaimMissesFreedKeyIff` says when the two miss a key that has become free.
* The optimistic revision of text sessions (`TextSessions`).
* The lease and the unfenced reports of webhook deliveries (`WebhookDeliveries`), with a claim's
  UPDATE and its SELECT, which are two transactions, apart.
* Keyset sweeps over a table that changes between pages (`KeysetSweep`).

**State machines over tables.** Workflow versions (`WorkflowVersions`, `WorkflowHistory`, and
`WorkflowRaces` for saves, reverts, discards and publications that overlap), trigger ownership
(`AgentTriggers`), redial chains (`RedialChains`), and the choice of redial candidates by a
recursive walk over retries (`RedialCandidates`).

**Credentials.** Display and save of provider credentials over nested dictionaries, with lens laws
for dotted paths (`Credentials`, `CredentialRoundTrip`).

A class holds each table that the source updates in place; its methods are proved against functions
on values, and the theorems are about those functions. Clocks, fresh tokens, random order, the
success of an enqueue and the caller's copies of rows are parameters.

Where the code and its documentation disagree, the model follows the code:

* `get_redial_candidates` says it groups by `source_uuid`; the query groups by the root queued run.
* `revert_to_version` speaks of an archived version; any version of the workflow is accepted.
* `mark_webhook_delivery_dead_letter` says "never retried again", and the delivery row's
  documentation speaks of a hard attempt ceiling; neither the reports nor the SELECT of a claim look
  at the state, and an attempt whose worker dies is not counted. `TerminalChangesIff` says exactly
  when a dead letter or a success changes again, `AttemptsAreBoundedIff` when the recorded attempts
  stay within the ceiling, `SendsAreAccounted` and `SendsStayWithin` when the requests do;
  `LateReportRevives`, `LateFetchExceedsMaximum` and `CrashesAreNotCounted` are runs in which they
  do not.
* `save_workflow_draft` keeps the legacy columns in sync; discarding and reverting do not.

## Model

| member | source | states |
|---|---|---|
| PyValues.Lookup | api/mcp_server/python_bridge.py:260-261 | looking a key up finds a value exactly when some entry has that key, and then the value of such an entry |
| PyValues.PyEqReflexive | api/mcp_server/python_bridge.py:71-81 | Python's `==` on every value without repeated dictionary keys is reflexive, so a stored default is always recognised as one |
| PySource.LiteralRoundTrip | api/mcp_server/python_bridge.py:47-48 | for every value, evaluating the literal that is printed for it gives the value back, at any nesting and for negative numbers |
| PySource.LiteralItemsRoundTrip | api/mcp_server/python_bridge.py:139-143 | a printed dictionary evaluates to the same entries in the same order |
| Identifiers.FirstFreeMeaning | api/mcp_server/python_bridge.py:38-43 | the suffix search returns the base if unused, else the least free suffix from 2 on, and nothing else fits that description |
| Identifiers.Identifier | api/mcp_server/python_bridge.py:32-44 | the loop ends (the used names of the form base_k with k at or above the suffix shrink), returns that choice, and adds exactly it to the used names |
| Identifiers.FirstFreeIsFresh | api/mcp_server/python_bridge.py:36-44 | no choice is empty, a keyword, `workflow`, or already in use, in any alphabet |
| Identifiers.FirstFreeIsLegal | api/mcp_server/python_bridge.py:32-44 | for an ASCII node name the choice is an ASCII identifier that does not start with a digit |
| Identifiers.VariablesDistinct | api/mcp_server/python_bridge.py:100-106 | over any list of names the allocated variables are pairwise different |
| Identifiers.VariablesAreUsable | api/mcp_server/python_bridge.py:100-106 | every allocated variable is non-empty, unreserved and different from the others, and legal when its node's name is ASCII |
| NodeSpecs.PropertyErrorMeaning | api/mcp_server/python_bridge.py:187-249 | the recursive validator accepts exactly the values that meet an order-free description of what each property type asks, nested collections included |
| NodeSpecs.RowErrorMeaning | api/mcp_server/python_bridge.py:233-248 | a row passes exactly when it is a dictionary of declared cells, none missing that is required without default, each conforming |
| NodeSpecs.FillDefaultsMeaning | api/mcp_server/python_bridge.py:258-265 | the default-filling loop fails exactly on a missing required field without default, and otherwise collects every given or default value in specification order |
| NodeSpecs.ValidateMeaning | api/mcp_server/python_bridge.py:252-271 | validation accepts data exactly when all its fields are declared and every property, defaults filled in, conforms or is optional and absent; the result is that filled data |
| Bridge.LastWithId | api/mcp_server/python_bridge.py:100-106 | an edge refers to the last node with a given id, and to none only if no node has it |
| Bridge.BindNodes | api/mcp_server/python_bridge.py:100-111 | the node loop prints one binding per node, in order, and maps each id to the variable of the last node that has it |
| Bridge.EdgeLines | api/mcp_server/python_bridge.py:113-126 | the edge loop prints each edge with its declared fields between its endpoints' variables, or stops at the first edge with an unknown endpoint |
| Bridge.GenerateCode | api/mcp_server/python_bridge.py:84-128 | printing fails exactly on an unknown node type or, failing that, on the first edge with an unknown endpoint; otherwise it yields the program of the graph under freshly allocated variables |
| BridgeData.ValidateAuthored | api/mcp_server/python_bridge.py:51-81 | dropping unknown fields and defaults and then validating yields the normal form of the data, exactly when the data survives |
| BridgeData.NormalDataIsNormal | api/mcp_server/python_bridge.py:51-81 | the normal form of node data is its own normal form and survives again |
| BridgeData.NormalKeepsMeaning | api/mcp_server/python_bridge.py:71-81 | every declared field keeps a value that Python calls equal to the stored one without its undeclared cells |
| BridgeParser.TypeOfClass | api/mcp_server/python_bridge.py:286 | a class name only ever resolves to a type of the registry |
| BridgeParser.RunKnowsTypes | api/mcp_server/python_bridge.py:295-399 | after any statements every collected node has a registered type |
| BridgeParser.ParseCode | api/mcp_server/python_bridge.py:274-420 | the statement loop, with every error branch in the order of the source, computes the fold of the one-statement function, and then the validation verdict |
| BridgeParser.ValidateNodes | api/mcp_server/python_bridge.py:406-420 | the validation loop collects one error per invalid node, or replaces every node's data by its validated form |
| BridgeRoundTrip.TypeOfOwnClass | api/mcp_server/python_bridge.py:27-29 | with class names that tell types apart, the parser resolves a printed class name to the type it was printed for |
| BridgeRoundTrip.ArgumentsRoundTrip | api/mcp_server/python_bridge.py:158-168 | reading the printed keyword arguments gives back the fields in order, without a duplicate |
| BridgeRoundTrip.NodeStatement | api/mcp_server/python_bridge.py:358-399 | a printed node statement adds one node of the same type at the origin with the authored data and binds its variable |
| BridgeRoundTrip.EdgeStatement | api/mcp_server/python_bridge.py:300-328 | a printed edge statement adds the edge between whatever its variables denote, or reports a missing label or condition |
| BridgeRoundTrip.PrintThenParse | api/mcp_server/python_bridge.py:274-420 | for every printable graph and every naming of its nodes, the parser accepts exactly the graphs whose edges are labelled and whose data survives, and returns the nodes in order, renumbered, at the origin, with normal data, and the edges in order |
| BridgeNormalForm.ReadBackExact | api/mcp_server/python_bridge.py:105-126 | under any naming the result is the normal form if and only if no edge endpoint's variable is bound again by a later node |
| BridgeNormalForm.RoundTrip | api/mcp_server/python_bridge.py:84-128 | with the printer's own variables, read by Python with NFKC, every printable graph that fails the condition is refused, and every other comes back as its normal form if and only if no edge endpoint's variable is bound again later |
| BridgeNormalForm.RoundTripAscii | api/mcp_server/python_bridge.py:84-128 | with ASCII node names every printable graph that meets the condition comes back as its normal form |
| BridgeFixedPoint.NormalFormIsNormal | api/mcp_server/python_bridge.py:252-271 | a normal form is printable, meets the condition and is its own normal form |
| BridgeFixedPoint.TidyIsNormal | api/mcp_server/python_bridge.py:397-420 | the same of any graph that was read back, also when its edges have moved |
| BridgeFixedPoint.RoundTripTwice | api/mcp_server/python_bridge.py:51-128 | for every printable graph that meets the condition, printing and parsing the first trip's result again returns the identical graph if and only if no edge endpoint's variable in that result, as Python reads it, is bound again later |
| BridgeFixedPoint.RoundTripTwiceAscii | api/mcp_server/python_bridge.py:51-128 | it always does when the names are ASCII before and after defaults are filled in |
| BridgeFixedPoint.RoundTripsSettle | api/mcp_server/python_bridge.py:51-128 | in any alphabet the second trip's result comes back unchanged from every later one |
| BridgeFixedPoint.DefaultNameMovesEdge | api/mcp_server/python_bridge.py:258-265 | a default name that NFKC merges with another node's name lets the first trip be exact and the second move an edge |
| BridgeNormalForm.MergedNamesMoveEdge | api/mcp_server/python_bridge.py:32-44 | a graph whose two nodes are called by different letters that NFKC merges gets two variables and comes back with an edge at the wrong node |
| BridgeSoundness.ValidatedAddsDefaults | api/mcp_server/python_bridge.py:258-271 | validated data differs from the authored data only by added defaults of declared fields |
| BridgeSoundness.ValidatedIsFullyValid | api/mcp_server/python_bridge.py:252-271 | validated data satisfies its specification recursively, and validating it again changes nothing |
| BridgeSoundness.StepsSound | api/mcp_server/python_bridge.py:295-399 | after any statements, by any author, nodes are numbered from 1, variables denote listed nodes, and edges are labelled and join listed nodes |
| BridgeSoundness.AcceptedIsSound | api/mcp_server/python_bridge.py:274-420 | every accepted program yields nodes "1" to "n" of known types with valid data, and sound edges |
| CampaignClaims.RunKeepsInv | api/db/campaign_client.py:775-852 | in every interleaving the rows locked by open claims are disjoint, still queued, still eligible, and within each claim's limit |
| CampaignClaims.ClaimedOncePerReturn | api/db/campaign_client.py:554-581 | two committed claims of one run are always separated by a return that gave it back |
| CampaignClaims.ClaimBounds | api/db/campaign_client.py:792-852 | a claim takes at most `limit` runs of its campaign, none twice, none due after the cutoff, all still queued when it commits |
| CampaignClaims.DueWasSelected | api/db/campaign_client.py:796-815 | the due runs a claim holds are those its own first SELECT returned, with the claim's own arguments |
| CampaignClaims.RegularOnlyAfterDue | api/db/campaign_client.py:817-839 | whenever a claim takes unscheduled runs, its first SELECT had left no unlocked due retry |
| CampaignClaims.ExecutedAtMostTotal | api/db/campaign_client.py:597-624 | the executed runs of a campaign number at most its runs |
| CampaignClaims.StepConservesTotal | api/db/campaign_client.py:554-581 | only an enqueue changes a campaign's total |
| CampaignClaims.StepConservesExecuted | api/db/campaign_client.py:554-581 | only a completion changes what has been executed |
| QueuedRunTable.CampaignStats | api/db/campaign_client.py:597-624 | the counting loop over the grouped rows yields each requested campaign's number of runs and of processed runs |
| QueuedRunTable.QueuedRuns.SelectDue | api/db/campaign_client.py:796-810 | the first SELECT returns the unlocked due runs with the earliest times, in order, up to the limit |
| QueuedRunTable.QueuedRuns.SelectRegular | api/db/campaign_client.py:821-834 | the second SELECT returns distinct unlocked unscheduled runs, fewer than the free slots only if there are no more |
| QueuedRunTable.QueuedRuns.ClaimForProcessing | api/db/campaign_client.py:775-852 | the claim returns what its SELECTs chose, and the table differs exactly in those rows being processing |
| QueuedRunTable.QueuedRuns.ReturnWithoutWorkflow | api/db/campaign_client.py:554-581 | exactly the listed processing runs without a workflow run become queued, and their number is returned |
| QueuedRunTable.SerialClaimIsPath | api/db/campaign_client.py:792-852 | a claim that runs alone is a path of the concurrent protocol |
| RedialCandidates.ChainUnique | api/db/campaign_client.py:352-363 | two chains of retries from roots to the same run are the same chain |
| RedialCandidates.RunTree | api/db/campaign_client.py:352-363 | the recursive walk ends on every table, also with parent cycles, and lists each transitive retry of each root exactly once, under that root only |
| RedialCandidates.RootUnique | api/db/campaign_client.py:352-363 | a run belongs to the tree of at most one root |
| RedialCandidates.LatestPerRoot | api/db/campaign_client.py:364-373 | for every tree that has calls, one call is chosen that no other call of the tree is later than |
| RedialCandidates.GetRedialCandidates | api/db/campaign_client.py:316-386 | the result is the selection on some choice of latest calls; with no reason enabled it is empty |
| RedialCandidates.SelectionExact | api/db/campaign_client.py:374-386 | a row is returned exactly when it is the root of a tree whose latest call carries a selected tag, if tied calls agree about that |
| RedialCandidates.TiesDecide | api/db/campaign_client.py:364-373 | if tied calls disagree, the database may return the root or not |
| RedialCandidates.MoreReasonsMoreCandidates | api/db/campaign_client.py:331-348 | enabling more reasons only adds candidates, also across two queries |
| RedialChains.CampaignStore.CreateRedialCampaign | api/db/campaign_client.py:241-314 | the outcome and the whole new store, or the unchanged store on an error |
| RedialChains.RedialKeepsLinksIffCurrent | api/db/campaign_client.py:262-305 | a successful redial keeps the parent and child links mutually inverse if and only if the caller's copy of the parent's links was current |
| RedialChains.RunKeepsLinks | api/db/campaign_client.py:241-314 | with current copies every run keeps the links inverse and every child younger than its parent |
| RedialChains.ChainsNeverMerge | api/db/campaign_client.py:299-305 | a campaign reached from two campaigns by redials of the same length is reached from one |
| RedialChains.ChainsAreDisjoint | api/db/campaign_client.py:241-314 | in every reachable store the two links are inverse to each other and no campaign lies on a cycle |
| RedialChains.ChildIsSeeded | api/db/campaign_client.py:267-297 | the child's queued runs are exactly its candidates in order, `total_rows` is their number, and nothing else changes but the parent |
| RedialChains.RacingRedialsBreakLinks | api/db/campaign_client.py:261-266 | two callers holding the same unredialed copy both succeed and orphan the first child |
| WorkflowVersions.MaxVersion | api/db/workflow_client.py:14-22 | the maximum bounds every version of the workflow and is one of them, or 0 if there is none |
| WorkflowVersions.WorkflowStore.CreateWorkflow | api/db/workflow_client.py:24-65 | the new workflow has version 1, published, current and released |
| WorkflowVersions.WorkflowStore.SaveWorkflowDraft | api/db/workflow_client.py:71-146 | the draft is edited in place or started from the published version, and the legacy columns follow it |
| WorkflowVersions.WorkflowStore.PublishWorkflowDraft | api/db/workflow_client.py:148-202 | the draft is published, the published version archived, the released reference and the legacy columns moved; without a draft nothing changes |
| WorkflowVersions.WorkflowStore.DiscardWorkflowDraft | api/db/workflow_client.py:204-226 | exactly the draft's row is deleted; without a draft nothing changes |
| WorkflowVersions.WorkflowStore.RevertToVersion | api/db/workflow_client.py:228-284 | a draft with the chosen snapshot is added, unless a draft exists or the version does not |
| WorkflowHistory.RunKeepsInv | api/db/workflow_client.py:24-284 | every serial run of create, save, publish, discard and revert keeps the version history: unique keys, distinct numbers, one published row that reference and flag agree on |
| WorkflowHistory.OnePublishedVersion | api/db/workflow_client.py:148-202 | in every reachable store a row is current exactly when it is published, released, and the only published one of its workflow |
| WorkflowHistory.DraftIsNewest | api/db/workflow_client.py:14-22 | in every reachable store version numbers of a workflow differ and its at most one draft has the highest |
| WorkflowHistory.PublishPromotes | api/db/workflow_client.py:148-202 | publishing makes the draft, with its number and snapshot, the only published and released version, archives the one before, leaves no draft and touches no other row |
| WorkflowHistory.RevertStartsDraft | api/db/workflow_client.py:228-284 | a revert adds one draft holding the chosen snapshot, numbered above all, and touches no other row |
| WorkflowHistory.PublishedIsImmutable | api/db/workflow_client.py:148-202 | no run changes number, snapshot or date of a version that was once published, and archived versions stay archived |
| WorkflowHistory.PublishedVersionsIncrease | api/db/workflow_client.py:148-202 | the published number grows by at least one with each publication and by nothing else |
| WorkflowHistory.SavesAreOneSave | api/db/workflow_client.py:84-146 | any sequence of partial saves leaves the same store as one save of the last given value of each field |
| WorkflowHistory.DraftIsOverlay | api/db/workflow_client.py:99-127 | a draft started from the published version holds in each field the last given value or the published one |
| WorkflowHistory.DiscardInSyncIff | api/db/workflow_client.py:204-226 | after a discard the legacy columns are right if and only if they showed the published version before it |
| WorkflowHistory.RevertInSyncIff | api/db/workflow_client.py:228-284 | after a revert the legacy columns are right if and only if the chosen snapshot equals what they showed |
| WorkflowHistory.DiscardUndoesSave | api/db/workflow_client.py:204-226 | saving and discarding leave the store as it was but for the legacy columns and one spent key |
| WorkflowHistory.NumberIsReusedIff | api/db/workflow_client.py:14-22 | in every serial run the number a new draft gets had been given before if and only if the workflow's last draft was discarded |
| WorkflowHistory.DiscardedNumberIsReused | api/db/workflow_client.py:14-22 | the next draft after a discard gets the discarded number under a new key |
| WorkflowHistory.SavedIsInSync | api/db/workflow_client.py:129-137 | after a save the legacy columns show the draft |
| WorkflowHistory.PublishedIsInSync | api/db/workflow_client.py:186-194 | after a publication they show the published version |
| WorkflowRaces.InsertKeepsInvIff | api/db/workflow_client.py:85-128 | an insert by a save or revert that looked earlier keeps the version history if and only if the workflow has no draft and the number read exceeds every version at that moment |
| WorkflowRaces.WrittenAtOnceIsWhole | api/db/workflow_client.py:71-284 | a save, revert, discard or publication whose look and write have nothing in between is the serial request |
| WorkflowRaces.HistoryHoldsIff | api/db/workflow_client.py:71-284 | in any interleaving of saves, reverts, discards and publications that look and write later, also when the SELECTs of one look see different moments, the version history holds throughout if and only if every insert comes in time |
| WorkflowRaces.RacingSavesMakeTwoDrafts | api/db/workflow_client.py:85-128 | a run of two saves that both look before either writes ends with two drafts of one number |
| WorkflowRaces.StepFreezesIff | api/db/workflow_client.py:71-284 | a step of any interleaving leaves published and archived snapshots alone if and only if the row that it looked at is still a draft or gone when it writes, or the write changes nothing: an edit that says what is there, a discard of a released row, a publication of the very same moment |
| WorkflowRaces.PublishedSurvivesRaces | api/db/workflow_client.py:71-284 | when inserts, edits, discards and publications come in time no interleaving changes a published or archived snapshot |
| WorkflowRaces.ReleasedNeverFalls | api/db/workflow_client.py:148-202 | and in none does the number of the released version fall |
| WorkflowRaces.LateEditChangesPublished | api/db/workflow_client.py:84-98 | a save that looked at a draft writes into the published version if the draft was published in between |
| WorkflowRaces.LateDiscardDeletesArchived | api/db/workflow_client.py:204-226 | a discard that looked at a draft deletes the archived version if the draft was published and superseded in between |
| WorkflowRaces.LatePublishReleasesOlder | api/db/workflow_client.py:162-194 | a publication that looked at a draft releases it again, with a new date and a lower number, if the draft was published and superseded in between |
| ConfigurationLease.ConfigurationTable.ClaimConfigurationLease | api/db/organization_configuration_client.py:110-174 | a claim that nothing interrupts wins exactly when the key is free or pending past `stale_after` |
| ConfigurationLease.ConfigurationTable.CompleteConfigurationLease | api/db/organization_configuration_client.py:176-198 | the row is completed exactly if it is pending with this token |
| ConfigurationLease.ConfigurationTable.ReleaseConfigurationLease | api/db/organization_configuration_client.py:200-218 | the row is deleted exactly if it is pending with this token |
| ConfigurationLease.OnlyLatestClaimerHolds | api/db/organization_configuration_client.py:110-218 | in every interleaving a token holds a key exactly when it is the latest successful claim since the key was free and nothing has completed it |
| ConfigurationLease.OnlyLatestClaimerCloses | api/db/organization_configuration_client.py:176-218 | a completion or release that changes anything carries that token |
| ConfigurationLease.CompletedAtMostOnce | api/db/organization_configuration_client.py:176-198 | at most one completion ever takes effect on a key, exactly when the row says completed |
| ConfigurationLease.CompletedIsTerminal | api/db/organization_configuration_client.py:117-125 | once a completion took effect nothing changes the row and no claim succeeds |
| ConfigurationLease.TakeoversAreSpaced | api/db/organization_configuration_client.py:152-174 | of two holders in one lifetime of the row the later began more than its `stale_after` after the earlier |
| ConfigurationLease.ClaimMissesFreedKeyIff | api/db/organization_configuration_client.py:143-174 | in every run a claim whose insert met a holder returns nothing although the key is free if and only if a release took effect on the key after that insert and no claim on it has succeeded since |
| ConfigurationLease.ClaimCanMissFreedKey | api/db/organization_configuration_client.py:143-174 | a run of two claims and one release in which that happens |
| TextSessions.SessionTable.EnsureWorkflowRunTextSession | api/db/workflow_run_text_session_client.py:27-62 | an existing session is left alone; otherwise one with revision 0 is made, or an error for an unknown run |
| TextSessions.SessionTable.UpdateWorkflowRunTextSession | api/db/workflow_run_text_session_client.py:142-183 | the error in the order of the source, or the given fields and one revision more; no other row changes |
| TextSessions.SessionTable.CompleteWorkflowRunTextSession | api/db/workflow_run_text_session_client.py:185-256 | session and run change together or not at all; contexts and logs are merged, the run is completed |
| TextSessions.RevisionCountsWrites | api/db/workflow_run_text_session_client.py:142-256 | in every interleaving the revision counts the accepted writes, guarded or not |
| TextSessions.NoLostUpdateIff | api/db/workflow_run_text_session_client.py:142-256 | in every interleaving of writers, guarded or not, session and run are after every event the fold of the accepted edits, each computed from what its predecessor left, if and only if every accepted write leaves what it would have left had it read the row it replaces |
| TextSessions.NoLostUpdate | api/db/workflow_run_text_session_client.py:142-256 | so they are when every accepted write had read the row's revision, and in particular when all writers pass the revision they read |
| TextSessions.ConsecutiveIff | api/db/workflow_run_text_session_client.py:160-177 | the accepted writes had read consecutive revisions if and only if each had read the row's revision |
| TextSessions.EachRevisionWrittenOnce | api/db/workflow_run_text_session_client.py:160-177 | accepted writes that pass the revision they read had read consecutive ones, so no two succeed on one |
| TextSessions.EditsRemember | api/db/workflow_run_text_session_client.py:233-247 | over any accepted edits a completed run stays completed and its contexts and logs keep every key |
| TextSessions.CompletionMerges | api/db/workflow_run_text_session_client.py:226-247 | a completion gives each sent key its new value and leaves every other key its old one |
| TextSessions.UnguardedWriteLosesUpdate | api/db/workflow_run_text_session_client.py:160-167 | without an expected revision the second of two writers overwrites the first |
| KeysetSweep.PageMeaning | api/db/webhook_delivery_client.py:232-244 | a page holds the smallest keys after the cursor in order: all of them when short, else all up to its last |
| KeysetSweep.SweptAscends | api/db/webhook_delivery_client.py:219-244 | whatever changes between pages, keys come in increasing order, so none comes twice |
| KeysetSweep.SweptExactly | api/db/webhook_delivery_client.py:219-244 | a row is seen exactly when it qualifies at the one query that decides about its key |
| KeysetSweep.PersistentRowIsSweptOnce | api/db/webhook_delivery_client.py:219-244 | a row that qualifies at every query of the sweep is seen once |
| KeysetSweep.SweepWebhookDeliveries | api/tasks/webhook_delivery.py:385-424 | the sweep ends and enqueues one job for each row seen, in order |
| KeysetSweep.ExpiredIsCandidate | api/db/workflow_run_text_session_client.py:102-121 | the coarse filter loses no chat between the end of its own timeout and one sweep interval later |
| KeysetSweep.Timeout | api/tasks/text_chat_inactivity.py:146-169 | the timeout is always within its bounds |
| KeysetSweep.SweepInactiveTextChats | api/tasks/text_chat_inactivity.py:28-86 | stopping at page and enqueue limits takes exactly the first 500 expired chats of the first 10 pages; the scan limit is reported exactly when the sweep had more pages and enqueue room was left |
| KeysetSweep.FittingSweepIsWhole | api/tasks/text_chat_inactivity.py:40-82 | a sweep that ends within its pages sees what an unlimited one sees |
| KeysetSweep.TakenExactly | api/tasks/text_chat_inactivity.py:50-72 | with room left, every expired chat whose enqueueing succeeds is taken, and no other |
| WebhookDeliveries.DeliveryTable.CreateWebhookDelivery | api/db/webhook_delivery_client.py:23-97 | get or create: a row for this run and node is returned untouched, else one pending row is added; keys stay unique; each error exactly in its case |
| WebhookDeliveries.DeliveryTable.LeaseDelivery | api/db/webhook_delivery_client.py:125-142 | the conditional UPDATE takes effect exactly on a pending due row and only moves its due time to the lease's end |
| WebhookDeliveries.DeliveryTable.ClaimWebhookDelivery | api/db/webhook_delivery_client.py:110-148 | with nothing between UPDATE and SELECT the claim returns that row exactly when it was pending and due |
| WebhookDeliveries.PromptKeepsLease | api/db/webhook_delivery_client.py:110-148 | if no worker reports after its lease, in every run at most one lease is live and it is what keeps the row from being claimed |
| WebhookDeliveries.OneAttemptInFlight | api/tasks/webhook_delivery.py:256-278 | under the same assumption a claim succeeds only when every earlier lease has run out |
| WebhookDeliveries.TerminalIsFinal | api/db/webhook_delivery_client.py:150-217 | under the same assumption a succeeded or dead-lettered row never changes |
| WebhookDeliveries.TerminalChangesIff | api/db/webhook_delivery_client.py:110-217 | in every run, prompt or not, a succeeded or dead-lettered row changes later if and only if a worker whose claim was still open, whether it fetches the row before or after, then makes a differing report |
| WebhookDeliveries.LateReportRevives | api/db/webhook_delivery_client.py:168-217 | a late failure makes a row pending again after a success and after a dead letter |
| WebhookDeliveries.PendingHasAttemptsLeft | api/tasks/webhook_delivery.py:214-242 | in every run, prompt or not, a row that reached `max_attempts` is not pending |
| WebhookDeliveries.AttemptsAreBoundedIff | api/tasks/webhook_delivery.py:268-278 | the recorded attempts stay within `max_attempts` throughout a run if and only if no attempt with a number above it is reported |
| WebhookDeliveries.AttemptsAreBounded | api/db/webhook_delivery_client.py:128-148 | so they do whenever every fetch after a claim still finds the row pending, however late the reports are |
| WebhookDeliveries.PromptStaysWithin | api/tasks/webhook_delivery.py:214-242 | and whenever workers are prompt |
| WebhookDeliveries.LateFetchExceedsMaximum | api/db/webhook_delivery_client.py:128-148 | a late report between another worker's UPDATE and its SELECT lets a delivery with one attempt record two |
| WebhookDeliveries.SendsAreAccounted | api/tasks/webhook_delivery.py:256-278 | with prompt workers every request sent is a recorded attempt, one lost with its worker, or one still to be reported |
| WebhookDeliveries.SendsStayWithin | api/tasks/webhook_delivery.py:214-242 | with prompt workers the requests exceed `max_attempts` by at most the lost and the overdue ones, so not at all without them; with nobody sending they stay within it if and only if recorded attempts and lost requests together do |
| WebhookDeliveries.CrashesAreNotCounted | api/tasks/webhook_delivery.py:256-280 | workers that die uncounted can send any number of requests with no attempt recorded |
| AgentTriggers.TriggerTable.CheckTriggerPathConflicts | api/db/agent_trigger_client.py:54-85 | the paths in use by another workflow, active or archived |
| AgentTriggers.TriggerTable.SyncTriggersForWorkflow | api/db/agent_trigger_client.py:102-192 | with no path of another workflow the table becomes the synced one, otherwise the conflicts are reported and nothing changes |
| AgentTriggers.ConflictsAreNew | api/db/agent_trigger_client.py:139-154 | the check before on all paths and the check inside on the new ones find the same conflicts |
| AgentTriggers.StatesThenRows | api/db/agent_trigger_client.py:156-186 | archiving, reactivating and inserting in sequence is one sync |
| AgentTriggers.SyncIsExact | api/db/agent_trigger_client.py:102-192 | the workflow's active paths are then exactly the given ones and no row of another workflow changes |
| AgentTriggers.ActiveIsLastSynced | api/db/agent_trigger_client.py:102-192 | after any sequence of syncs active paths are those of the last accepted one |
| AgentTriggers.OwnerNeverChanges | api/db/agent_trigger_client.py:143-154 | no sequence of syncs moves or frees a path |
| AgentTriggers.SyncIsIdempotent | api/db/agent_trigger_client.py:102-192 | the same sync again is accepted and changes nothing |
| AgentTriggers.OwnerSurvivesRaces | api/db/agent_trigger_client.py:143-146 | in any interleaving of syncs, aborted ones included, with the unique constraint a path keeps its owner |
| AgentTriggers.CommitAtOnceIsSync | api/db/agent_trigger_client.py:125-192 | a commit with nothing in between is the serial sync |
| AgentTriggers.CommitLeaves | api/db/agent_trigger_client.py:156-192 | a commit that is not rolled back leaves active the given paths and those active ones that were not the workflow's when it began |
| AgentTriggers.LastCommitDecides | api/db/agent_trigger_client.py:102-192 | in every interleaving the active paths are those of the last effective sync and the active ones it could not see |
| AgentTriggers.ActiveIsLastCommittedIff | api/db/agent_trigger_client.py:102-192 | so they are exactly its paths if and only if every one it could not see was among them |
| AgentTriggers.OneAtATimeIsExact | api/db/agent_trigger_client.py:102-192 | with at most one open sync of a workflow at a time they always are, whatever other workflows do |
| AgentTriggers.OverlappingSyncsAddUp | api/db/agent_trigger_client.py:125-137 | two overlapping syncs of one workflow can leave the paths of both active |
| Credentials.GetNestedField | api/routes/organization.py:562-568 | the loop over the parts computes the recursive reading, null for what is missing or no dictionary |
| Credentials.GetAfterSet | api/routes/organization.py:571-580 | a path that was set reads back what was set, whatever was on the way |
| Credentials.SetAfterSet | api/routes/organization.py:571-580 | setting a path twice is setting it once |
| Credentials.SetWhatIsThere | api/routes/organization.py:571-580 | setting the value that is there changes nothing |
| Credentials.GetElsewhere | api/routes/organization.py:571-580 | setting a path leaves every path alone that is neither above nor below it |
| Credentials.MaskTwice | api/services/configuration/masking.py:54-69 | masking a mask changes nothing |
| Credentials.MaskShowsLastFour | api/services/configuration/masking.py:54-69 | a mask shows the last four characters of a longer key and nothing of a shorter one |
| Credentials.CredentialsForDisplay | api/routes/organization.py:115-133 | the loops compute the display: each true sensitive field masked in turn, server-managed fields dropped |
| Credentials.PreserveMaskedFields | api/routes/organization.py:553-559 | the loop restores, in turn, each field that is the mask of the stored one, or raises where the stored value has no mask |
| Credentials.RunPreprocessHook | api/routes/organization.py:591-620 | server-managed fields of the result are exactly the carried stored ones, the rest is the payload's |
| CredentialRoundTrip.RestoredDisplay | api/routes/organization.py:115-133 | displaying and restoring leaves exactly the stored fields the server does not manage, when every sensitive one is a string or empty |
| CredentialRoundTrip.DisplayHidesSecrets | api/routes/organization.py:115-133 | with independent sensitive paths every true sensitive field is shown as its mask, no server-managed field is shown, everything else as stored |
| CredentialRoundTrip.HookRestores | api/routes/organization.py:591-620 | the server-managed fields come back exactly unless the display dropped the account field |
| CredentialRoundTrip.RoundTripIff | api/routes/organization.py:553-624 | saving what was displayed gives exactly the stored credentials if and only if every sensitive field holds a string or nothing and the account is not lost |
| CredentialRoundTrip.OffenceBreaksRoundTrip | api/services/configuration/masking.py:54-80 | a sensitive field with any other true value breaks the round trip or raises |
| CredentialRoundTrip.ServerFieldsAreStored | api/routes/organization.py:591-620 | for any payload server-managed fields come only from the stored row, and only account-bound ones can be lost |
| CredentialRoundTrip.OnlyMasksAreRestored | api/routes/organization.py:553-559 | for any payload and independent sensitive paths, a field is the stored one exactly when its mask was sent, and the payload's otherwise |

## Left out

- Python's tokenizer and grammar, `pprint` layout and the text of literals: the bridge starts from and ends in syntax trees; source positions in errors are not kept.
- Node names with characters that count as word characters but may not occur in Python identifiers (such as a superscript two): the printed program does not parse, which the syntax-tree model cannot show; ASCII names are shown legal.
- Floating-point rounding, NaN, negative zero, and `float()` of integers too large for it: numbers are exact reals.
- Literals no stored graph contains (bytes, complex numbers, sets, dictionaries with other keys) are one opaque value each; patterns are predicates on strings.
- Error message texts; the `name` of an error's field is kept where the source reports it first.
- BridgeParser.ParseCode: `float(...)` overflow of a huge position raises out of `parse_code` in the source and is not modelled.
- Row locks of plain UPDATE statements: each takes effect as one step; `CampaignClaims` lets a completion wait for the row's lock.
- Generic setters (`update_campaign`, `update_queued_run`), configuration upserts and deletes, workflow bulk migrations and node-summary updates, which write the same tables outside the protocols.
- Foreign keys and cascading deletes, except where the code handles a missing row, and the released reference, which keeps a released version from being deleted; runs lose their reference to a deleted version.
- The provider's own preprocessing of credentials: `Save` is the save of a provider without one; request-model validation of payloads.
- In-place mutation inside nested dictionaries and the aliases it creates: `Credentials.Set` returns the new dictionary; the values that a restore shares are strings.
- Webhook jobs, HTTP, header building, redaction and backoff amounts; the enqueued job's deduplication.
- TextSessions.NoLostUpdate: the half about the workflow run assumes that only these two writers change it; other clients write the run's columns without a revision.
- In `WorkflowRaces` creating a workflow is taken whole.
- `WorkflowRaces` writes the legacy columns and the given fields whole; the session's omission of columns that equal what it loaded is not modelled.
- `last_error`, `last_status_code` and audit timestamps of deliveries.
- `KeysetSweep.Expired`: a chat without any activity has a deadline that the clock reads later; such a chat never passes the filter.
- HTTP routes, pages, telemetry, storage, authentication, offset pagination, usage totals and the remaining table clients: no state that spans steps.
