# Verification of the attendance platform's core

A Dafny model of the parts of the backend where correctness is not visible from one function: the face
tracker's assignment, the organization tree and everything that trusts it, the migration that built that
tree, the attendance pipeline, the camera stream protocol, the request limiters and the realtime hub.
`dafny verify dfyconfig.toml` checks all of it.

| file | what it models |
|---|---|
| `Matching.dfy`, `FaceTracker.dfy`, `TrackerRuns.dfy`, `TrackerOutcomes.dfy` | multi-camera face tracking: the greedy assignment, one update, whole runs, ties and recognition |
| `OrgTree.dfy` | the depth-capped recursive queries over `parent_id`, on any table, cycles included |
| `TreeMove.dfy` | moving a sub-unit of the tree |
| `Accounts.dfy`, `TenantScope.dfy` | request and websocket scopes |
| `Delegation.dfy`, `AccountRuns.dfy` | role and organization grants between accounts; which requests are accepted and what no run of them breaks |
| `Decimal.dfy`, `TreeIndex.dfy`, `MergeCodes.dfy`, `MergeMembers.dfy`, `MergeRows.dfy`, `OrgMerge.dfy` | the branch/department merge into one tree: its path index, the generated codes, the members, every row before and after, the migration itself |
| `WindowMemory.dfy`, `AttendanceGenerator.dfy`, `UnknownDetector.dfy` | "seen within the window" memories and the events they gate |
| `AttendanceSync.dfy` | the event consumer with its retry list |
| `StreamLoop.dfy`, `StreamRuns.dfy`, `StreamProgress.dfy` | who releases a camera's capture, and when: the protocol and its runs; when the loop ends, opens, reads and raises an alert |
| `RateLimit.dfy` | the in-process sliding window and the Redis fixed window |
| `Hub.dfy`, `HubRuns.dfy`, `HubServer.dfy` | realtime fan-out and chat presence: one call, whole runs, and the objects as a run |
| `Wrappers.dfy`, `Sequences.dfy` | Option, Result, and facts about sequences and sets |

Objects that the source updates in place are classes here (`FaceTrack`, `MultiCameraTracker`,
`OrgNodes`, `OrgDatabase`, `UserAdmin`, `DuplicateTracker`, `AttendanceGenerator`, `UnknownPersonDetector`,
`AttendanceEventConsumer`, `InMemoryLimiter`, `RedisLimiter`, `Connection`, `RealtimeHub`, `Server`). Each method is
tied to a function of the old state, and the lemmas about whole runs are about those same functions.
Concurrency is modelled as sequences of actions, an action being a stretch of code that nothing can
interrupt; a theorem about every sequence is a theorem about every interleaving.

Time is an integer, or a real in the tracker, and is passed in. Bounding boxes and overlaps are reals. The
attendance service, the cameras, the database's choice of a new id and the order of a set's elements are
parameters, so every theorem holds for all of their behaviours.

## What turned out conditional or false

- Sub-trees nest exactly on the tables whose ancestry the cap of 64 covers (`OrgTree.NestingNeedsTheCap`), and
  so does everything the grant loader accepts stay inside the granter's sub-tree (`Delegation.DelegationIsClosed`).
  With the request gate before the loader, no run of requests by tenant admins ever grows what they cover exactly
  if the cap covers the tree or there is no company root at all, when nobody is admitted
  (`Delegation.DelegationIsClosedExactly`). `OrgTree.DeepChainIsNotCovered` is a chain of 66 organizations where
  nesting fails and `Delegation.DeepGrantEscapes` one request on it after which a new node is covered;
  `OrgTree.SmallTablesAreCovered` shows that 65 organizations can never do it, and
  `OrgTree.ShallowTreesAreCovered` that no tree of height at most 64 can.
- Moving a sub-unit keeps the tree free of cycles and every node in its company exactly under the conditions of
  `TreeMove.MoveIsSafeExactly`: always where the node's company is within the cap, hence in every run of moves by
  callers who act in a company (`TreeMove.TenantMovesKeepTheForest`), but not for a super admin who acts in none
  and moves nodes deeper than the cap: `TreeMove.DeepMoveClosesACycle`, `TreeMove.DeepMoveChangesCompany`.
- A super admin's websocket watches what HTTP reads unless the selector names nothing and there is a lone active
  company (`TenantScope.SuperSocketMatchesHttp`, `TenantScope.UnknownSelectorDiffers`).
- A sub-tree shares its top's company root exactly when no node sits 65 steps below a root
  (`OrgTree.SharedRootsNeedReach`); on the same chain one does and they differ
  (`OrgTree.DeepChainLosesItsRoot`).
- The headers' narrowed node lists add up to the grants exactly when every granted node has a root within
  the cap (`TenantScope.HeadersPartitionTheGrants`); `TenantScope.DeepGrantIsNeverShown` is a user whose grant
  has none.
- `upgrade()` backfills while the old `UNIQUE(code)` on organizations
  (backend/alembic/versions/50fa64e85121_initial_schema.py:43) is still in force; it is dropped only afterwards.
  Branch and department codes were unique per company only, so two companies that share one make the migration
  fail. `OrgMerge.OrgDatabase.Upgrade` gives the exact condition under which it completes,
  `OrgMerge.SameBranchCodeAborts` two companies where it does not.
- The migration's final tenant check is not implied by the backfill: it fails exactly for the members
  described in `MergeMembers.TenantCheckIsExact`, such as the one in
  `OrgMerge.ForeignDepartmentFailsTheCheck`.
- `_await_stream_task` says that no read is in flight once it returns. After a force-cancel in the middle of
  a read one is (`StreamRuns.ForceCancelLeavesAReadInFlight`); `StreamRuns.AfterTheLoop` says exactly when.
- `_drain_and_release` says that its release cannot race a read. It can when the event loop, shutting down,
  cancels the read's future itself: `StreamRuns.RacesExactlyByTearDown` says exactly when,
  `StreamRuns.TearDownRacesARead` is such a run, and without that step it never does
  (`StreamRuns.ReleaseNeverRacesARead`).
- A capture can be forgotten without a release. `StreamRuns.SettledStreamHasReleasedAll` gives the exact
  condition, `StreamRuns.UnsettableCaptureIsForgotten` a run where it happens.
- A rate-limiter purge can erase hits that still count. `RateLimit.PurgeIsInvisibleWhenHarmless` says exactly
  when a key does not notice, in terms of the dict before the purge; `RateLimit.ClearedLimiterForgets` is a run
  in which a client is admitted twice over its limit. The sliding-window theorems about a key assume no more
  than harmlessness to that key, which `RateLimit.FirstPassesAreHarmless` and `RateLimit.FewKeysAreSafe`
  establish: with the deployed windows of 60 s for logins, 300 s for registrations and 60 s for recognition
  (backend/app/core/config.py:123-128), the login and recognition limits survive every first pass.

## Model

| member | source | states |
|---|---|---|
| Matching.SortIsStable | backend/app/engine/face_tracker.py:112-112 | the sort by weight rearranges the candidates, puts the heaviest first, and lets none of equal weight overtake another |
| Matching.GreedyIsMatching | backend/app/engine/face_tracker.py:113-126 | the greedy pass uses each face and each track at most once |
| Matching.GreedyLeavesNoBlockingPair | backend/app/engine/face_tracker.py:113-126 | every candidate left out shares its face or its track with a chosen pair that overlaps at least as much |
| Matching.GreedyIsHalfOptimal | backend/app/engine/face_tracker.py:113-126 | from any set of pairs already taken, the rest of the pass gathers at least half the weight of any matching still possible |
| Matching.AssignmentIsStableAndHalfOptimal | backend/app/engine/face_tracker.py:98-126 | sorting and the greedy pass together: a matching without blocking pairs, worth at least half of any other matching of the candidates |
| FaceTracker.IouInUnitInterval | backend/app/engine/face_tracker.py:214-228 | for any two boxes, malformed ones included, the overlap ratio lies in [0, 1], is positive exactly when the boxes overlap, and is 1 exactly for one proper box and itself |
| FaceTracker.IouIsSymmetric | backend/app/engine/face_tracker.py:214-228 | the order of the two boxes does not matter |
| FaceTracker.IouIsShareOfUnion | backend/app/engine/face_tracker.py:214-228 | boxes that share a point have a common part, the box of exactly the points inside both, and the ratio is its area over what the two cover together; boxes that share none have ratio 0 |
| FaceTracker.MultiCameraTracker.NextId | backend/app/engine/face_tracker.py:209-212 | ids of a camera count up by one; other cameras' counters stay |
| FaceTracker.MultiCameraTracker.Prune | backend/app/engine/face_tracker.py:199-207 | exactly the tracks unseen for longer than the maximum age leave the table; no track is changed |
| FaceTracker.MultiCameraTracker.CollectCandidates | backend/app/engine/face_tracker.py:98-110 | the candidate list, in the order of the double loop |
| FaceTracker.CandidatesMeaning | backend/app/engine/face_tracker.py:98-110 | the list holds exactly the face and track pairs at or above the threshold, with their true overlap |
| FaceTracker.MultiCameraTracker.MatchTracks | backend/app/engine/face_tracker.py:113-126 | the loop over the sorted queue matches the greedy pairs, refreshes exactly their tracks, and reports them in that order |
| FaceTracker.MultiCameraTracker.GrowTracks | backend/app/engine/face_tracker.py:128-151 | unmatched faces, in order, get new tracks with the next ids while there is room |
| FaceTracker.MultiCameraTracker.AgeTracks | backend/app/engine/face_tracker.py:153-154 | exactly the unmatched tracks count one lost frame, the just created ones included |
| FaceTracker.MultiCameraTracker.Update | backend/app/engine/face_tracker.py:86-156 | one frame: new table, last id and results are the specified function of the old ones, and no other camera's tracks or ids change |
| FaceTracker.MultiCameraTracker.MarkRecognized | backend/app/engine/face_tracker.py:158-176 | only the named track of the named camera is marked, and only if it exists |
| TrackerRuns.CandidatesAreAllPairs | backend/app/engine/face_tracker.py:92-110 | an update considers exactly the pairs of a face and a track that is young enough whose overlap passes the threshold |
| TrackerRuns.PairsAreStableAndHalfOptimal | backend/app/engine/face_tracker.py:86-126 | the pairs an update matches are a matching, leave no blocking pair, and weigh at least half of any other matching of its candidates |
| TrackerRuns.TrackAfterUpdate | backend/app/engine/face_tracker.py:86-156 | each track after an update is an old one with one more hit exactly if matched, or a new one with one hit and a higher id; each was seen within the maximum age or just now |
| TrackerRuns.RoomAndFaces | backend/app/engine/face_tracker.py:113-151 | a face is reported at most once, and goes unreported only when the table is full; an update never overfills the table |
| TrackerRuns.IdsAreNeverReused | backend/app/engine/face_tracker.py:128-151 | over any run, the ids a camera issued are 1, 2, … in order without repetition, and every track in its table carries one of them |
| TrackerRuns.TableStaysBounded | backend/app/engine/face_tracker.py:128-134 | over any run, no camera tracks more than the maximum |
| TrackerRuns.HitsCountMatches | backend/app/engine/face_tracker.py:113-126 | over any run, a track's hits are one plus the number of updates that matched it |
| TrackerRuns.CamerasAreIndependent | backend/app/engine/face_tracker.py:72-80 | over any run, a camera's tracks and ids are those of its own operations alone |
| TrackerOutcomes.MatchedExactly | backend/app/engine/face_tracker.py:98-126 | a candidate is matched exactly if it clashes with no matched one of larger overlap, or of equal overlap and an earlier face, or an older track of the same face: ties are settled, and the choice is unique |
| TrackerOutcomes.ReportedTrackIsOnItsFace | backend/app/engine/face_tracker.py:113-154 | a reported track has its face's box, was seen now, and has lost no frame, or one if it was created by this very update |
| TrackerOutcomes.UnreportedTrackStays | backend/app/engine/face_tracker.py:153-154 | a track that no result names keeps everything and has lost one frame more |
| TrackerOutcomes.RecognitionIsDueExactly | backend/app/engine/face_tracker.py:45-60 | over every run, a matched face is reported as due exactly if it was matched often enough and the last mark of its track is a cooldown old if it named somebody, twice that if it named nobody; cooling down exactly if it is not due and somebody was named |
| OrgTree.DescendantsMeaning | backend/app/middleware/tenant.py:68-107 | on any parent map, the downward walk lists a node exactly when some seed is reached from it in at most 64 parent steps |
| OrgTree.RootsMeaning | backend/app/middleware/tenant.py:110-132 | the upward walk keeps exactly the roots some seed reaches within the cap |
| OrgTree.UpDownDuality | backend/app/middleware/tenant.py:68-184 | a node's company root is r exactly when r is a root and the node is in r's sub-tree |
| OrgTree.AtMostOneRootRow | backend/app/middleware/tenant.py:164-184 | the up-walk from one node yields at most one root row, so `scalar_one_or_none` cannot fail |
| OrgTree.RootsHaveDisjointSubtrees | backend/app/middleware/tenant.py:68-85 | two companies never share a node |
| OrgTree.MultiSeedIsUnion | backend/app/middleware/tenant.py:88-132 | a walk from several nodes is the union of the walks from each |
| OrgTree.ComputeRootIdsOf | backend/app/middleware/tenant.py:135-145 | the loop returns the roots of the listed nodes, each once |
| OrgTree.RootIdsOfMeaning | backend/app/middleware/tenant.py:135-145 | a root is listed exactly when some listed node rolls up to it |
| OrgTree.NestingNeedsTheCap | backend/app/middleware/tenant.py:68-85 | what lies under a node of a sub-tree lies in that sub-tree, if and only if no node's 65th ancestor is one its first 64 steps have not met |
| OrgTree.SharedRootsNeedReach | backend/app/middleware/tenant.py:68-184 | sub-trees share their top's company root if and only if no node is exactly 65 steps below a root |
| OrgTree.DescentKeepsRoot | backend/app/middleware/tenant.py:68-184 | when roots are in reach, a node of a sub-tree has the company root of the sub-tree's top |
| OrgTree.RootComesFromAbove | backend/app/middleware/tenant.py:68-184 | on any table, a node that has a company root shares it with every node whose sub-tree holds it |
| OrgTree.WalksAreBounded | backend/app/middleware/tenant.py:12-132 | a down-walk over n rows yields at most 65·n rows and a single up-walk at most 65, cycles or not |
| OrgTree.DownLevelDistinct | backend/app/middleware/tenant.py:75-85 | each level of the down-walk lists a node at most once |
| OrgTree.AncestorChain | backend/app/middleware/tenant.py:187-220 | the cursor walk ends on every table and returns, root first, exactly the nodes the capped up-walk meets, without repetition, each the parent of the next; without the node itself if asked |
| OrgTree.ChainStartsAtRoot | backend/app/middleware/tenant.py:164-220 | the chain begins at the node's company root exactly when there is one |
| OrgTree.SmallTablesAreCovered | backend/app/middleware/tenant.py:12-12 | with at most 65 organizations the cap covers every ancestry |
| OrgTree.ShallowTreesAreCovered | backend/app/middleware/tenant.py:12-184 | where no chain of parents is longer than 64, cycles excluded, the cap covers every ancestry, roots are in reach, and with existing parents every node finds its company |
| OrgTree.DeepChainIsNotCovered | backend/app/middleware/tenant.py:12-85 | a chain of 66 organizations where a node under a node of a sub-tree is outside it |
| OrgTree.DeepChainLosesItsRoot | backend/app/middleware/tenant.py:68-184 | on that chain a node lies under one whose company is the top, and has no company itself |
| TreeMove.OrgNodes.MoveNode | backend/app/services/organization_service.py:379-415 | the first check that fails names the error and leaves the table; otherwise the node hangs under its new parent and nothing else changes |
| TreeMove.MovedMeaning | backend/app/services/organization_service.py:379-415 | an accepted move changes nothing, or is between two nodes that report the same company, of a node that is no root, to one its own walk does not list; a caller's scope is that company |
| TreeMove.MovedExactly | backend/app/services/organization_service.py:241-415 | which move is refused with which error, and which accepted, in terms of parents, companies and codes; then only the moved node's parent changes |
| TreeMove.CycleExactlyFromBelow | backend/app/services/organization_service.py:404-413 | in a tree without cycles re-parenting closes a cycle exactly if the new parent lay below the node, at whatever distance |
| TreeMove.CompaniesExactly | backend/app/services/organization_service.py:379-415 | re-parenting leaves every node its company exactly if it closes no cycle and both nodes belong to the same company |
| TreeMove.MoveIsSafeExactly | backend/app/services/organization_service.py:379-415 | an accepted move of a forest leaves a forest exactly if the node's company is within the cap or the new parent did not lie below it; it leaves every node its company exactly if the node's company is within the cap, or the new parent did not lie below it and both belong to the same company |
| TreeMove.TenantMovesKeepTheForest | backend/app/services/organization_service.py:379-415 | over any run of moves by callers who act in a company the tree stays a forest and no node changes company |
| TreeMove.MovesKeepSiblings | backend/app/services/organization_service.py:241-415 | over any run of moves by anyone, two children of one node keep different codes |
| TreeMove.ReportedCompaniesExactly | backend/app/services/organization_service.py:379-415 | the companies the capped walks report stay the same for every node exactly if no node of the moved sub-tree crosses the cap, either way |
| TreeMove.DeepMoveClosesACycle | backend/app/services/organization_service.py:397-413 | a move by a super admin without a company that the guard accepts and that closes a cycle |
| TreeMove.DeepMoveChangesCompany | backend/app/services/organization_service.py:384-395 | one that the root comparison accepts and that puts a node into another company |
| TenantScope.SingleOrgIsTheOnlyActiveRoot | backend/app/core/dependencies.py:116-140 | an organization is the default exactly when it is the only active company root |
| TenantScope.WriteLandsInReadScope | backend/app/core/dependencies.py:163-241 | whenever a write is accepted, so is the read, and the write's organization is in the read's roots; the cases in which reads pass and writes do not are exactly given |
| TenantScope.TenantReadsAreBounded | backend/app/core/dependencies.py:201-241 | a tenant user's scopes are never unlimited; without a header they are exactly the grants and their roots, and a header only narrows them |
| TenantScope.HeadersPartitionTheGrants | backend/app/core/dependencies.py:201-241 | the node lists shown under each assigned root, together, hold every grant that has a root as often as it was granted, and are the grants exactly when all have one |
| TenantScope.DeepGrantIsNeverShown | backend/app/core/dependencies.py:201-241 | a user whose only grant lies deeper than the cap sees it under no header |
| TenantScope.VisibleNodesHaveVisibleRoots | backend/app/core/dependencies.py:201-241 | on any table, the company of a node visible through the node scope, if it has one, is the scope node's and in the root scope; where roots are in reach (`RootsInReach`) it has one whenever the scope node has |
| TenantScope.SocketMatchesHttp | backend/app/api/ws.py:57-119 | for a tenant user and any selector the websocket's root set is the HTTP root scope, and the socket is refused exactly when HTTP is or the scope is empty |
| TenantScope.SuperSocketMatchesHttp | backend/app/api/ws.py:57-119 | for a super admin and any selector the websocket's companies are those HTTP reads, or both are unlimited, if and only if the selector is absent, or names a node that has a company, or there is not exactly one active company |
| TenantScope.UnknownSelectorDiffers | backend/app/api/ws.py:57-119 | a lone company and an unknown selector, where they differ |
| TenantScope.SuperAdminActsInTheNamedCompany | backend/app/core/dependencies.py:143-231 | a super admin whose header names any node of company r writes to r, reads exactly r, and listens to exactly r |
| TenantScope.TenantActsInTheNamedCompany | backend/app/core/dependencies.py:143-241 | a tenant user whose header names any node of a company they hold a grant in writes to it, reads it and exactly their grants of it, in order, and listens to it; a header naming another company is as good as none |
| TenantScope.SuperAdminWithoutACompany | backend/app/core/dependencies.py:116-231 | without a usable header a super admin acts in the only active company, or writes without one and reads everything |
| TenantScope.TenantWithoutACompany | backend/app/core/dependencies.py:163-241 | without a usable header a tenant user writes exactly if they work in one company only, reads all their companies and grants, and gets a socket exactly if they work in any |
| Delegation.UserAdmin.CreateUser | backend/app/api/users.py:155-194 | the new account, or the exact error, and no other account changed |
| Delegation.UserAdmin.UpdateUser | backend/app/api/users.py:197-290 | the changed account, or the exact error, and no other account changed |
| Delegation.LoadOrgsMeaning | backend/app/api/users.py:73-107 | an accepted list grants exactly the requested organizations, all inside the actor's sub-trees unless the actor is a super admin |
| Delegation.DelegationIsClosed | backend/app/api/users.py:73-107 | the lists that the loader accepts from accounts that are not super admins stay inside what those accounts cover, if and only if the cap covers the tree (`CapSuffices`) |
| Delegation.DeepGrantEscapes | backend/app/api/users.py:155-194 | one admitted request on the chain of 66 organizations, after which a node is covered that no account covered before |
| Delegation.TouchedAccount | backend/app/api/users.py:66-290 | a tenant admin's request touches no super admin, makes none, and leaves the target's organizations alone or puts them all inside the admin's coverage |
| Delegation.StepBySuperless | backend/app/api/users.py:155-290 | one request by a tenant admin leaves the super admins as they are, on any tree; where the cap covers the tree (`CapSuffices`) it covers no node that no tenant account covered before |
| Delegation.DelegationNeverEscalates | backend/app/api/users.py:66-290 | over any run of such requests the set of super admins stays the same, on any tree, and where the cap covers the tree (`CapSuffices`) the union of tenant coverage never grows |
| Delegation.DelegationIsClosedExactly | backend/app/api/users.py:66-290 | no run of requests by tenant admins, from any accounts, makes them cover a new node, if and only if the cap covers the tree or the table has no company root |
| Delegation.UncoveredNodeEscapes | backend/app/api/users.py:155-194 | for every node the cap does not cover, and any company, one admitted request that makes it covered |
| AccountRuns.AdmittedExactly | backend/app/core/dependencies.py:17-200 | a request passes exactly if its account is active and either a super admin's, or may manage users and acts in one company; which of the two refusals it gets otherwise |
| AccountRuns.LoadRolesExactly | backend/app/api/users.py:53-71 | roles load exactly if all exist, each once, and include the super admin role exactly if it was named |
| AccountRuns.LoadOrgsExactly | backend/app/api/users.py:73-107 | a list of nodes is granted exactly if all exist and, unless the actor is a super admin, each is at most 64 steps below one of the actor's; which refusal it gets otherwise |
| AccountRuns.CreatedExactly | backend/app/api/users.py:155-194 | an account is created exactly if its email is free and its roles and nodes are the actor's to give, and then with these |
| AccountRuns.UpdatedExactly | backend/app/api/users.py:197-290 | an account is changed exactly if only super admins touch super admins, the email is free, nobody switches themselves off or drops their own super admin role, and what is given is the actor's to give |
| AccountRuns.AccountsStaySound | backend/app/api/users.py:155-290 | over any run of requests by anyone, no two accounts come to share an email, and if there is an active super admin there still is one |
| MergeCodes.UniqueCode | backend/alembic/versions/g3b4c5d6e7f8_org_tree_merge.py:93-105 | returns the first free candidate, unused in the company, after at most as many failures as the company has codes |
| MergeCodes.CandidatesDiffer | backend/alembic/versions/g3b4c5d6e7f8_org_tree_merge.py:93-105 | no candidate is tried twice |
| MergeCodes.TriedCandidatesAreCodes | backend/alembic/versions/g3b4c5d6e7f8_org_tree_merge.py:93-105 | k failed trials need k used codes: the loop ends |
| MergeCodes.CodesOfOneCompanyDiffer | backend/alembic/versions/g3b4c5d6e7f8_org_tree_merge.py:93-167 | over a whole backfill no two codes generated for one company are equal, nor is one equal to a code the company had: collisions are between companies only |
| OrgMerge.InsertKeepsFilled | backend/alembic/versions/g3b4c5d6e7f8_org_tree_merge.py:93-132 | adding a child row with a free code keeps the path index, the (root, code) uniqueness and the record of used codes |
| OrgMerge.OrgDatabase.InsertNode | backend/alembic/versions/g3b4c5d6e7f8_org_tree_merge.py:107-132 | raises exactly when codes are unique in the whole table and some organization holds the code; otherwise one new row with a fresh id whose path is the parent's path and that id |
| OrgMerge.OrgDatabase.InsertBranches | backend/alembic/versions/g3b4c5d6e7f8_org_tree_merge.py:134-147 | raises only on a code already held while codes are unique in the whole table; otherwise one new node of depth 1 with its own generated code for each branch under its company, tree still indexed, codes still unique per company |
| OrgMerge.OrgDatabase.InsertDepartments | backend/alembic/versions/g3b4c5d6e7f8_org_tree_merge.py:149-167 | raises exactly when some code of the plan is held or generated twice while codes are unique in the whole table; otherwise one new node with its own generated code for each department, under its branch's node if it has a branch, else under its company |
| OrgMerge.OrgDatabase.RepointMembers | backend/alembic/versions/g3b4c5d6e7f8_org_tree_merge.py:169-232 | the audit rows, then members repointed department first, users without a tenant unscoped, and locations on their branch's node |
| OrgMerge.OrgDatabase.BackfillOrgTree | backend/alembic/versions/g3b4c5d6e7f8_org_tree_merge.py:49-235 | with per-company codes it always completes; with `UNIQUE(code)` in force it raises exactly when a generated code is already held or generated twice; completed, the tree is indexed, no two nodes share (root, code), old companies keep their ids and codes, one node per branch and department, and every member's new node |
| OrgMerge.OrgDatabase.Upgrade | backend/alembic/versions/g3b4c5d6e7f8_org_tree_merge.py:264-330 | the backfill and the integrity checks in one transaction: it fails, leaving everything as it was, exactly when the backfill raises or some member with a tenant is in another company's department, or lacking one branch |
| OrgMerge.SameBranchCodeAborts | backend/alembic/versions/g3b4c5d6e7f8_org_tree_merge.py:264-299 | two companies with a branch of the same code, on which it fails |
| OrgMerge.ForeignDepartmentFailsTheCheck | backend/alembic/versions/g3b4c5d6e7f8_org_tree_merge.py:320-330 | an employee in another company's department: the backfill completes and the final check fails |
| TreeIndex.PathIndexIsExact | backend/alembic/versions/g3b4c5d6e7f8_org_tree_merge.py:71-167 | in an indexed tree one node's path is a string prefix of another's exactly when it is that node or an ancestor of it by `parent_id` |
| TreeIndex.PathsAreDistinct | backend/alembic/versions/g3b4c5d6e7f8_org_tree_merge.py:127-131 | no two nodes have the same path |
| TreeIndex.DepthAndRootAreRight | backend/alembic/versions/g3b4c5d6e7f8_org_tree_merge.py:71-167 | `depth` is the number of parent steps to the top, and the top is the node's company root |
| MergeMembers.MemberNode | backend/alembic/versions/g3b4c5d6e7f8_org_tree_merge.py:200-219 | a member ends on their department's node, else their branch's, else nowhere |
| MergeMembers.OneRowPerLoss | backend/alembic/versions/g3b4c5d6e7f8_org_tree_merge.py:169-184 | exactly one audit row, naming the lost branch, for a member whose branch link is dropped, and none for any other |
| MergeMembers.NodeKinds | backend/alembic/versions/g3b4c5d6e7f8_org_tree_merge.py:200-219 | a repointed member is on their old branch's node or right under it exactly if the audit does not count the link as lost |
| MergeMembers.BranchLinksAreKept | backend/alembic/versions/g3b4c5d6e7f8_org_tree_merge.py:149-221 | across a completed backfill, for every employee, and every user with an organization, that had a branch: on its node, or on a child of its node, or else, and only else, exactly one audit row records it |
| MergeMembers.TenantCheckIsExact | backend/alembic/versions/g3b4c5d6e7f8_org_tree_merge.py:320-330 | after a completed backfill the final check counts a member exactly if they have a tenant and their department, or lacking one their branch, was another company's before it |
| MergeRows.CompanyAfter | backend/alembic/versions/g3b4c5d6e7f8_org_tree_merge.py:71-83 | every organization stays and becomes the company root of its own tree |
| MergeRows.DepartmentAfter | backend/alembic/versions/g3b4c5d6e7f8_org_tree_merge.py:58-167 | a department keeps its branch exactly if that is a branch of its own company; its node hangs under that branch's node, and otherwise right under the company |
| MergeRows.AuditAfter | backend/alembic/versions/g3b4c5d6e7f8_org_tree_merge.py:58-184 | a member with a branch gets its audit row exactly if their department, before the backfill, named no branch, another one, or one of another company |
| MergeRows.MemberRowAfter | backend/alembic/versions/g3b4c5d6e7f8_org_tree_merge.py:200-221 | a member ends on the department's node, lacking one on the branch's, lacking both on none; a user without a company on none; nothing else about them changes |
| MergeRows.LocationAfter | backend/alembic/versions/g3b4c5d6e7f8_org_tree_merge.py:223-232 | a location ends on its branch's node; one without a branch stays as it was |
| Decimal.ReadsBack | backend/alembic/versions/g3b4c5d6e7f8_org_tree_merge.py:127-127 | an id written in decimal reads back as that id, so paths determine ids |
| WindowMemory.ForgettingIsInvisible | backend/app/engine/attendance_generator.py:82-103 | whatever expired entries are dropped at whatever moments, the memory answers as the full history of acceptances would |
| WindowMemory.AcceptancesAreSpaced | backend/app/engine/attendance_generator.py:82-92 | two acceptances of one key are at least a window apart |
| AttendanceGenerator.KeyIsInjective | backend/app/engine/attendance_generator.py:82-84 | the string key determines the employee and the type, even for ids with colons |
| AttendanceGenerator.DuplicateTracker.IsDuplicate | backend/app/engine/attendance_generator.py:82-92 | duplicate exactly if the same employee and type was remembered less than a window ago; otherwise it is remembered now |
| AttendanceGenerator.DuplicateTracker.ClearExpired | backend/app/engine/attendance_generator.py:94-103 | exactly the entries older than two windows go, and their number is returned |
| AttendanceGenerator.DuplicateMeansAcceptedWithin | backend/app/engine/attendance_generator.py:82-103 | over any run with sweeps at any moments, an event is suppressed exactly if one of that employee and type was accepted within the window |
| AttendanceGenerator.AcceptedEventsAreSpaced | backend/app/engine/attendance_generator.py:82-103 | over any run, accepted events of one employee and type are at least a window apart |
| AttendanceGenerator.AttendanceGenerator.GenerateEvent | backend/app/engine/attendance_generator.py:125-179 | the event, of the kind the camera's direction says, or its suppression; the memory, the queue of at most 1000 and the counters |
| AttendanceGenerator.AttendanceGenerator.DrainEvents | backend/app/engine/attendance_generator.py:181-192 | all queued events in order, and an empty queue |
| AttendanceGenerator.AppendKeepsTheNewest | backend/app/engine/attendance_generator.py:113-113 | the bounded queue never exceeds its bound and drops exactly its oldest event, and only when full |
| UnknownDetector.UnknownPersonDetector.IsOnCooldown | backend/app/engine/unknown_detector.py:184-188 | on cooldown exactly if the key was reported less than a cooldown ago |
| UnknownDetector.UnknownPersonDetector.SetCooldown | backend/app/engine/unknown_detector.py:190-198 | the key is stamped, and an overfull cache loses exactly its entries older than two cooldowns |
| UnknownDetector.SuppressedMeansReportedWithin | backend/app/engine/unknown_detector.py:184-198 | over any run, pruning included, an unknown face is suppressed exactly if its key was reported within the cooldown |
| AttendanceSync.EventsAreConserved | backend/app/engine/attendance_sync.py:108-243 | over every run with any failures and interruptions, and with producers acting between any two steps, also between two pops of a drain, the events ever produced are, counted with multiplicity, those queued, in retry, in the running drain, done with for a stated reason, or dropped by the bounded queue |
| AttendanceSync.EachEventIsInOnePlace | backend/app/engine/attendance_sync.py:108-243 | if no event was produced twice, each is in exactly one of those places, once |
| AttendanceSync.PendingKeepsOrder | backend/app/engine/attendance_sync.py:108-159 | retry, running drain and queue, in that order, always list pending events in the order they were produced |
| AttendanceSync.RetryStaysFresh | backend/app/engine/attendance_sync.py:161-205 | whenever a drain has requeued an event of its batch, the event was fresh, an employee's, and of a kind the ledger records |
| AttendanceSync.CompletedDrainLeavesFreshRetries | backend/app/engine/attendance_sync.py:108-205 | after a completed drain every event in retry is no older than the maximum age |
| AttendanceSync.DrainIsExact | backend/app/engine/attendance_sync.py:108-243 | by the events' fields and the service's answers alone: which events of a drain are in retry afterwards, in order, which are done with and for which reason, how many became ledger writes, and what goes back when a write is cut off |
| AttendanceSync.UnopenedDrainPutsAllBack | backend/app/engine/attendance_sync.py:108-159 | a drain whose session does not open puts every event back, in order, and raises if there was one |
| AttendanceSync.AttendanceEventConsumer.PersistBatch | backend/app/engine/attendance_sync.py:126-150 | the loop over one batch: settled, requeued, or cut off with the rest put back; the count is the number of persisted events |
| AttendanceSync.AttendanceEventConsumer.DrainOnce | backend/app/engine/attendance_sync.py:108-159 | one drain turns the consumer's and generator's state into the specified one, raises exactly when specified, and otherwise returns the number of ledger writes |
| AttendanceSync.DrainIsARun | backend/app/engine/attendance_sync.py:108-159 | a drain is a sequence of the state machine's actions, so every theorem about runs applies to it |
| StreamRuns.ReleaseNeverRacesARead | backend/app/engine/stream_manager.py:426-544 | under every interleaving a capture is released at most once and never read by two threads; and under every interleaving of slow reads, read errors, stop, remove and force-cancel, as long as the event loop does not cancel the read's own future, it is never released while a thread is reading it and never read after its release |
| StreamRuns.EveryCaptureHasOneHolder | backend/app/engine/stream_manager.py:144-171 | each capture is released or has exactly one holder: the stream, an open in progress, a done-callback, or the steps that forget it |
| StreamLoop.NextKeepsOwned | backend/app/engine/stream_manager.py:426-656 | every step of every party keeps that ownership |
| StreamRuns.AfterTheLoop | backend/app/engine/stream_manager.py:306-329 | once the loop has ended, a capture is unreleased exactly if it waits for a done-callback or was forgotten, and a read of it is in flight exactly if a cancellation reached the loop in the middle of that read and its thread has not returned since |
| StreamRuns.StrayExactlyIfAbandoned | backend/app/engine/stream_manager.py:426-453 | at any moment a thread is inside a read the loop does not await exactly if the loop was cancelled in the middle of that read and the thread has not returned since |
| StreamRuns.RacesExactlyByTearDown | backend/app/engine/stream_manager.py:152-161 | a capture has been released under a reader exactly if the done-callback of a read whose own future had been cancelled ran while the thread was still inside |
| StreamRuns.TearDownRacesARead | backend/app/engine/stream_manager.py:152-161 | a run in which that happens |
| StreamRuns.ForceCancelLeavesAReadInFlight | backend/app/engine/stream_manager.py:306-329 | a run after which the loop has ended while a read is in flight |
| StreamRuns.DeferredReleaseHappens | backend/app/engine/stream_manager.py:152-161 | when the stuck read of a force-cancelled loop returns, its capture is released, once |
| StreamRuns.DroppedExactlyByForgetting | backend/app/engine/stream_manager.py:605-656 | captures are forgotten exactly by an open that cannot be configured, one that replaces a capture still held, or one that finishes after its own future was cancelled |
| StreamRuns.SettledStreamHasReleasedAll | backend/app/engine/stream_manager.py:426-656 | when the loop is over and no callback is outstanding, every capture has been released exactly once if and only if none of those steps was taken |
| StreamRuns.UnsettableCaptureIsForgotten | backend/app/engine/stream_manager.py:639-656 | a run in which a capture is forgotten |
| StreamRuns.OneAlertPerOutage | backend/app/engine/stream_manager.py:567-594 | the number of offline alerts is the number of outages ended plus one if an outage is on |
| StreamProgress.LoopEndsExactly | backend/app/engine/stream_manager.py:426-519 | the loop ends exactly by a cancellation or by testing its condition when the stream's or the manager's flag is down |
| StreamProgress.LoopBeginsExactly | backend/app/engine/stream_manager.py:436-447 | a read begins exactly on the capture the loop holds while it reports open, or on the one just connected; an open begins exactly when the loop holds none that reports open |
| StreamProgress.FlagsAreHeard | backend/app/engine/stream_manager.py:252-304 | over every run, a stream's flag is up exactly if it was started and not stopped since, and the manager's unless it was last told to stop |
| StreamProgress.StopEndsTheLoop | backend/app/engine/stream_manager.py:295-304 | once told to stop and not started again, a loop gets at most seven more answers to what it awaits, and is over with the seventh |
| StreamProgress.AlertsAreOutages | backend/app/engine/stream_manager.py:567-594 | over every run, alerts are the failures that found no outage: a failure begins one, a frame or a fresh start ends it |
| StreamProgress.FifthFailureReleases | backend/app/engine/stream_manager.py:462-486 | a read without a frame makes the loop release the capture exactly if the four reads before it were of the same capture and brought none; backoff follows unless the source is a file |
| StreamProgress.OrphanReleaseHappens | backend/app/engine/stream_manager.py:164-171 | the capture of an abandoned open is released by its done-callback, once |
| RateLimit.KeyIsInjective | backend/app/core/rate_limit.py:41-43 | limiters with different names, and different clients of one limiter, never share a bucket |
| RateLimit.InMemoryLimiter.PurgeIfNeeded | backend/app/core/rate_limit.py:31-38 | both passes of the purge |
| RateLimit.InMemoryLimiter.Allow | backend/app/core/rate_limit.py:41-53 | the answer and the new buckets after trimming, counting and purging |
| RateLimit.SlidingWindowIsExact | backend/app/core/rate_limit.py:41-53 | for each key to which no purge of the run was harmful (`AlwaysHarmlessTo`), whatever purges did to others, the trimmed bucket decides as the full history of admitted hits does: fewer than the maximum since now minus the window |
| RateLimit.PurgeIsInvisibleWhenHarmless | backend/app/core/rate_limit.py:31-38 | a purge changes no later answer about a key if and only if it does not drop the key with a hit still in its own window |
| RateLimit.PurgeDropsExactly | backend/app/core/rate_limit.py:31-53 | which keys a request's purge drops, from the dict before it: none unless admitted and over the size; then the stale ones, and all when too many are not stale; no other bucket changes |
| RateLimit.PurgeExactly | backend/app/core/rate_limit.py:31-38 | up to 50000 keys a purge does nothing; beyond, it keeps exactly the keys with a hit no older than the cutoff, or none if those are more than 50000 |
| RateLimit.ClearedLimiterForgets | backend/app/core/rate_limit.py:35-53 | a run of logins from 50001 addresses in which one address is admitted twice where its limit is one |
| RateLimit.FirstPassIsHarmless | backend/app/core/rate_limit.py:31-36 | a purge that stops after its first pass is harmless to every key whose window is no longer than the caller's, whatever the other windows |
| RateLimit.FirstPassesAreHarmless | backend/app/core/rate_limit.py:31-53 | over a run without second passes, a key with the shortest window of all requests is never harmed |
| RateLimit.FewKeysAreSafe | backend/app/core/rate_limit.py:31-53 | over a run with at most 50000 distinct keys no key is ever harmed |
| RateLimit.AdmittedIsHistory | backend/app/core/rate_limit.py:41-53 | for each key to which no purge was harmful (`AlwaysHarmlessTo`), the requests let through are those the full history admits |
| RateLimit.SlidingWindowLimits | backend/app/core/rate_limit.py:41-53 | for each key to which no purge was harmful (`AlwaysHarmlessTo`), in every closed interval as long as its window at most the maximum number of its requests is admitted |
| RateLimit.RedisLimiter.AllowRedis | backend/app/core/rate_limit.py:56-71 | the counter of the current bucket goes up, its expiry is set on the first hit, and the answer compares it with the maximum |
| RateLimit.ExpiryNeverResetsARunningWindow | backend/app/core/rate_limit.py:56-71 | the live counter of a current bucket is the number of requests made in it |
| RateLimit.OldCountersAreGone | backend/app/core/rate_limit.py:56-71 | no counter outlives its fixed window by more than one window |
| RateLimit.FixedWindowAdmits | backend/app/core/rate_limit.py:56-71 | each fixed window admits the first requests up to the maximum, and all of them if there are fewer |
| RateLimit.FixedWindowLimits | backend/app/core/rate_limit.py:56-71 | any half-open interval as long as the window admits at most twice the maximum |
| Hub.Connection.Get | backend/app/api/ws.py:122-125 | the client is sent the oldest queued event |
| Hub.RealtimeHub.Register | backend/app/realtime/hub.py:89-97 | refused exactly when the user has 8 registered sockets; otherwise a fresh empty mailbox joins and no other changes |
| Hub.RealtimeHub.Unregister | backend/app/realtime/hub.py:99-101 | exactly that mailbox leaves |
| Hub.RealtimeHub.PresenceConnect | backend/app/realtime/hub.py:126-134 | the counters of exactly the user's roots go up by one, and the list holds, once each, exactly the roots where the count was zero |
| Hub.RealtimeHub.PresenceDisconnect | backend/app/realtime/hub.py:151-161 | the counters go down or disappear, and the list holds, once each, exactly the roots where at most one was counted |
| Hub.RealtimeHub.OnlineUserIds | backend/app/realtime/hub.py:163-184 | strictly ascending, and exactly the users counted in that root; empty without a root |
| Hub.RealtimeHub.DeliverLocal | backend/app/realtime/hub.py:219-250 | each mailbox that the event is addressed to gets it last in its queue unless 100 are queued; no other mailbox changes |
| Hub.RealtimeHub.GoLive | backend/app/api/ws.py:442-447 | counting a socket in and announcing exactly the roots where the user came online |
| Hub.RealtimeHub.HangUp | backend/app/api/ws.py:457-464 | unregistering, counting out, and announcing exactly the roots where the user went offline |
| HubRuns.ClientsReceiveInOrder | backend/app/realtime/hub.py:219-250 | over every run, what has been taken to be sent to a client followed by what is queued is every event published for it since it registered, in order, without exactly those that found 100 queued |
| HubRuns.ClientsSeeOnlyTheirTenants | backend/app/realtime/hub.py:219-250 | over every run, a client only gets direct events addressed to its user and, if scoped, broadcasts for a root in its set |
| HubRuns.EveryoneIsOfferedTheirEvents | backend/app/realtime/hub.py:219-250 | over every run, of the events published since a socket registered it was offered exactly those addressed to its user, or addressed to nobody and, unless it watches every tenant, about an organization in its set |
| HubRuns.CounterIsLiveSockets | backend/app/realtime/hub.py:126-184 | over every interleaving of connects and disconnects, the counter is the number of that user's live sockets in that root, and positive exactly if there is one |
| HubRuns.AnnouncementsAlternate | backend/app/api/ws.py:442-464 | over every run, the announcements about a user to everyone in a root go online, offline, online, …, and the last one tells whether the user is live there |
| HubRuns.AtMostEightSockets | backend/app/realtime/hub.py:89-97 | over every run no user has more than 8 registered sockets |
| HubServer.Server.Accept | backend/app/api/ws.py:428-434 | a handshake through the hub's objects is one Register action of the state machine, with the same answer |
| HubServer.Server.GoLive | backend/app/api/ws.py:442-447 | going live is one Announce action |
| HubServer.Server.HangUp | backend/app/api/ws.py:457-464 | closing is one Close action |
| HubServer.Server.Broadcast | backend/app/realtime/hub.py:219-250 | publishing is one Publish action |
| HubServer.Server.Read | backend/app/api/ws.py:122-125 | sending the next event is one Consume action: so every theorem about runs holds of the objects |

## Left out

- Image code, detector, quality, liveness, embeddings and the FAISS index: numeric library calls.
- The attendance service, notifications and everything else under `app.services` but the move of a sub-unit: the consumer is proved against an arbitrary outcome of each call.
- The row lock that serializes two moves in one company: moves are one after the other.
- HTTP routing, request schemas, ORM models, constraint and index DDL, scheduled tasks, the frontend and the installer.
- Parsing of tokens, header values and employee identities, and `isdigit` on stream URLs: the parsed value, or its absence, is a parameter.
- The Redis presence branch of the hub: increment and delete are two commands, so its counts are not exact across workers.
- The hub's Redis subscriber loop and its reconnection; JSON encoding of events, which are kept as values.
- A failed websocket handshake after registration: such a socket stays registered and counts against the cap; in the runs it is one that is never announced.
- Exactly-once ledger writes: a commit that is cancelled may be replayed, and a requeued event is written after later ones.
- Failure of the two imports at the start of a drain.
- The consumer's timer loop, `start` and `stop`: stopping interrupts a drain, and the last drain is one more drain.
- Two loops on one stream object, possible when the stopper's own wait is cancelled: the model has one loop for each stream.
- Shutting the event loop down while it holds work other than a stream's reads and opens.
- Backoff delays, frame rates, health numbers and stream status.
- The two clock readings inside a tracker update are one reading `now` and one later reading for the recognition cooldown.
- The order in which a dict of tracks is walked is ascending by id, which is its insertion order.
- Floating-point rounding in overlaps, times and windows.
- Row order of SQL results: tables are sequences or maps, and the theorems hold for every order.
- Names, addresses, time zones and active flags copied by the migration, and `used_codes` filled by a loop over the roots: it is a map built at once.
- Cascading deletes and concurrent writers during the migration, and the length limits of its text columns.
- Thread races inside `is_duplicate`, and thresholds or windows changed while running.
- AttendanceSync.CompletedDrainLeavesFreshRetries: an interrupted drain puts its unprocessed events back whatever their age, so freshness is stated after a drain that completes.
- Pagination, metrics ratios, identity verification, CSV and media-type helpers: they would only add easy members.
