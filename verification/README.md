# Verified models of the relay measurement tools

This project models the parts of the repository whose correctness rests on an argument rather
than on a single function, and proves those arguments with Dafny 4.11. `dafny verify
dfyconfig.toml` checks everything.

## The components

**Catalogue comparison** (`Blocks`, `Counting`, `Snapshot`, `Sweep`, `UnionFind`, `Reslice`,
`ResliceCount`, `ChurnDiff`, `ChurnLaws`). A CIDR is an aligned power-of-two block of a space of
`width` bits (32 or 128), a label is a country/region/city triple. The loader, the boundary sweep,
the binary-search locator, the run counter, the two-pointer overlap walk and the array union-find
keep their loops. They are proved against a definition per address: `ChangeAt` says what happened
to one address, `Addresses` counts the addresses with a given change, and `Runs` counts the
addresses at which a maximal run of one transition starts. A changed row is cosmetic when the other
snapshot covers the whole of the largest changed row around it. The two halves meet in
`ChurnDiff.DiffFamily`: raw churn is all cosmetic exactly when no address was added or removed.

**ECS scanner** (`EcsScan`, `EcsLog`, `EcsScanner`, `EcsRestart`, `EcsResume`, `EcsSources`). `EcsScan` is the
sequential scan over arbitrary answers. `EcsLog` says what a run means without following its steps: which
prefixes are asked about given the rows, and what the answers leave in rows, mark, counters and
status. The class `EcsScanner.Scanner` is the scanner with its queue of running
tasks, its stale skip decision at submission and the second decision at commit; at every
concurrency it refines the sequential scan. `EcsRestart` proves coverage over any number of cut
runs: only the last checkpoint and the rows that reached the log survive a cut. `EcsResume` joins
the two: a scanner resumed at any concurrency after any number of cuts. Scopes follow
sections 6 and 7.3 of RFC 7871.

**System overrides** (`CrashPlans`, `HostsPin`, `HostsText`, `PfRule`). Applying and restoring the
hosts pin and the packet filter rule are sequences of durable effects. A `budget` is the number of
effects before the process dies, so a statement for every budget covers every crash point, and a
list of budgets is a crash schedule. The classes carry the plans out effect by effect, and return
exactly when the budget was enough.

**Admission guards** (`Admission`, `DiagnosticSlots`, `CampaignSlots`). Both controllers admit
attempts over an append-only history. The guards are stated on any history; the reachable ones are
then characterised.

**Evidence** (`Ingress`, `Pairing`, `Destination`, `PrefixMatch`, `Text`, `Manifest`, `DnsStub`). Packet
attribution and its indifference to background traffic, the conditions of a positive finding,
three longest-prefix matchers, the hash manifest, and the DNS stub (sections 4.1.1 to 4.1.4 of
RFC 1035).

## Where the code does less than it could be taken to promise

- After a crash right behind the hosts install and a second one right behind the reinstall, the
  next restore succeeds without flushing any DNS cache (`HostsPin.StaleCachesPossible`).
  `HostsPin.RestoreRecovers` has the exact condition: the caches end clean iff they were clean
  already, the pin was still installed, or the completed install had been recorded.
- A rule that was loaded but not yet recorded as loaded is cleared only if the packet filter prints
  it, up to normalisation, like the exact rule. `PfRule.RestoreRecovers` says that this and the two
  ambiguous windows are all the refusals there are, and `PfRule.UnrecognisedIff` that some crash
  schedule is refused for this exactly when PF is to block, the rule can be loaded and is printed
  differently.
- A directory finalized with a line break in a file name does not verify
  (`Manifest.LineBreakInNameFails`); a finalized directory verifies iff no covered name has one
  (`Manifest.FinalizedPassesIffOneLine`). A sidecar of a file with white space in its name never
  verifies (`Manifest.SidecarIff`).
- `encode_name` writes labels of no or of 64 to 255 characters, which the question parser does not
  read back. `DnsStub.EncodeThenParse` is an if-and-only-if.
- The legacy attribution policy is open to background traffic (`Ingress.LegacyInterferes`).
  `Ingress.LegacyImmuneIff` has the exact condition: the decision is immune iff it is already
  undecidable (two contacted addresses, or without fallback one address over both transports) or
  nothing can be added to it. With two or more candidates an observed ingress is never safe
  (`Ingress.ObservedLegacyNeverImmune`).

## Model

| member | source | states |
|---|---|---|
| Blocks.Nesting | egress-catalog-analysis/churn_diff.py:143-144 | Networks that share an address are nested, the one with fewer host bits inside the other |
| Blocks.SameLengthEqual | egress-catalog-analysis/churn_diff.py:42-53 | Networks of one length that share an address are the same network |
| Snapshot.NeighboursDisjoint | egress-catalog-analysis/churn_diff.py:55-65 | Comparing each interval with its predecessor only decides pairwise disjointness of the whole sorted list |
| Snapshot.Load | egress-catalog-analysis/churn_diff.py:32-66 | Loading fails exactly when two rows overlap; otherwise the sorted intervals are disjoint, label every address as the rows do, and the CIDR set is that of the rows |
| Snapshot.SortOrderedNoClash | egress-catalog-analysis/churn_diff.py:56 | Sorting orders the intervals and neither hides nor creates an overlap |
| Snapshot.SortedMeansDisjoint | egress-catalog-analysis/catalogue_audit.py:129-135 | After sorting, the intervals are clash-free exactly when the rows they came from are disjoint, so the audit's adjacent-only check decides it too |
| Snapshot.Locate | egress-catalog-analysis/churn_diff.py:84-97 | The binary search gives every address the label of the interval that covers it, and none where no interval does |
| Sweep.Boundaries | egress-catalog-analysis/churn_diff.py:69-81 | The edges are strictly increasing and are exactly the starts and ends-plus-one of both lists |
| Sweep.ConstantSegment | egress-catalog-analysis/churn_diff.py:195-211 | All addresses between two consecutive edges undergo the same change, so probing the first address is enough |
| Sweep.SegmentCount | egress-catalog-analysis/churn_diff.py:197-210 | One segment adds its whole size to the count of its own change and nothing to any other |
| Sweep.SegmentRun | egress-catalog-analysis/churn_diff.py:218-226 | A relabelled segment starts a maximal run exactly when it does not continue the previous one in place and transition |
| Sweep.CountRuns | egress-catalog-analysis/churn_diff.py:212-227 | The run counter over segments equals the number of addresses at which a maximal constant-transition run starts |
| Sweep.Diff | egress-catalog-analysis/churn_diff.py:185-230 | Added, removed, reassigned and per-transition numbers are the cardinalities of the matching address sets, and the reassignment count is the number of maximal runs |
| Sweep.TransitionCounts | egress-catalog-analysis/catalogue_audit.py:139-164 | The audit's two tables hold, per transition, its number of addresses and of maximal runs, with the same keys |
| Sweep.RunIffAddress | egress-catalog-analysis/catalogue_audit.py:156-164 | A transition has a run exactly when some address makes it, so looking runs up by the keys of the address table loses nothing |
| ChurnLaws.SliceIndependent | egress-catalog-analysis/churn_diff.py:212-230 | Any two ways of slicing the same address-to-label maps give the same counts and runs |
| ChurnLaws.SwapReverses | egress-catalog-analysis/churn_diff.py:204-210 | Swapping the snapshots swaps added with removed, reverses every transition and keeps the number of runs |
| ChurnLaws.CoverageConserved | egress-catalog-analysis/churn_diff.py:229-230 | Added minus removed addresses is the change in total coverage |
| ChurnLaws.TableSum | egress-catalog-analysis/catalogue_audit.py:147-164 | A table with the count of each of its keys sums to the count of the union of its keys |
| ChurnLaws.AuditAgrees | egress-catalog-analysis/catalogue_audit.py:139-164 | The audit's run counts sum to the comparison's reassignment count and its address counts to the reassigned addresses |
| ChurnLaws.TransitionTableUnique | egress-catalog-analysis/churn_diff.py:193-210 | The audit's address table and the comparison's transitions are equal for every pair of snapshots |
| UnionFind.HalvingKeeps | egress-catalog-analysis/churn_diff.py:132-136 | One path-halving assignment leaves every node's root unchanged and moves to a strictly higher node, which is why find terminates |
| UnionFind.LinkingKeeps | egress-catalog-analysis/churn_diff.py:138-141 | Linking one root under another keeps the forest and merges exactly those two trees |
| UnionFind.Forest.Find | egress-catalog-analysis/churn_diff.py:132-136 | Returns the root of the start node; halving changes no node's root |
| UnionFind.Forest.Union | egress-catalog-analysis/churn_diff.py:138-141 | Joins the trees of the two nodes under the first root and no others |
| Reslice.OverlapSameTop | egress-catalog-analysis/churn_diff.py:145-160 | An overlapping old and new changed row are nested and share one largest row |
| Reslice.ComponentsAreTops | egress-catalog-analysis/churn_diff.py:112-116 | Two changed rows are connected by a chain of overlaps exactly when they have the same largest row around them |
| Reslice.ComponentShape | egress-catalog-analysis/churn_diff.py:166-175 | A component around an old largest row is that one row plus the new rows inside it |
| Reslice.EqualCoverageIsTilingOld | egress-catalog-analysis/churn_diff.py:172-175 | In such a component equal coverage on both sides means that the new rows tile the old one |
| Reslice.EqualCoverageIsCosmetic | egress-catalog-analysis/churn_diff.py:166-175 | The component test of the code holds exactly when the rows of the component are cosmetic |
| ChurnLaws.CosmeticIffSizesAdd | egress-catalog-analysis/churn_diff.py:172-175 | A component around an old row is counted exactly when the sizes of the new rows inside it sum to its size |
| ChurnLaws.DisjointSizesAdd | egress-catalog-analysis/churn_diff.py:172-174 | The coverage of disjoint blocks has as many addresses as their sizes sum to |
| ResliceCount.OverlapWalk | egress-catalog-analysis/churn_diff.py:143-160 | The two-pointer walk visits every overlapping old/new pair and no other, and joins exactly those pairs in the forest |
| ResliceCount.AdvanceOld | egress-catalog-analysis/churn_diff.py:150-158 | Advancing past an old row that ends first leaves behind no overlapping pair but the visited one |
| ResliceCount.AdvanceNew | egress-catalog-analysis/churn_diff.py:153-160 | The same for a new row |
| ResliceCount.RootsAreTops | egress-catalog-analysis/churn_diff.py:146-164 | After the walk two rows have the same root exactly when they are in one overlap-connected component |
| ResliceCount.Components | egress-catalog-analysis/churn_diff.py:162-164 | The collected groups hold, per root, every row with that root once, marked old or new |
| ResliceCount.ComponentTest | egress-catalog-analysis/churn_diff.py:167-175 | The collected group passes the coverage test exactly when each of its rows is cosmetic |
| ResliceCount.CountResliced | egress-catalog-analysis/churn_diff.py:166-176 | Adding the sizes of the passing groups gives the number of cosmetic rows |
| ResliceCount.ReslicedPrefixCount | egress-catalog-analysis/churn_diff.py:109-176 | The whole computation returns the number of cosmetic changed rows |
| ChurnDiff.AllCosmeticIffSameCoverage | egress-catalog-analysis/churn_diff.py:109-116 | There are never more cosmetic than changed rows, and as many exactly when both catalogues cover the same addresses |
| ChurnDiff.NothingAddedOrRemoved | egress-catalog-analysis/churn_diff.py:204-207 | Two loaded snapshots cover the same addresses exactly when the sweep finds none added and none removed |
| ChurnDiff.DiffFamily | egress-catalog-analysis/churn_diff.py:179-250 | All reported numbers of one family, with 0 <= fake <= naive churn and fake == naive exactly when no address was added or removed |
| EcsScan.ScopeAligned | ecs-scanner/ecs_ingress_scanner.py:532-542 | The block of a scope of at most 24 bits consists of whole /24s around the queried address, has two to the power 32 less the scope addresses and starts at a multiple of that |
| EcsScan.LaterWithinScope | ecs-scanner/ecs_ingress_scanner.py:508-513 | A later /24 not beyond the scope's last address lies wholly inside the scope |
| EcsScan.RisesAreLogged | ecs-scanner/ecs_ingress_scanner.py:530-545 | A scan raises the skip mark at most as often as it logs rows |
| EcsLog.RowsInOrder | ecs-scanner/ecs_ingress_scanner.py:199-207 | An answer gives one row per address in the order of the addresses, or one row without an address |
| EcsLog.SkipOne | ecs-scanner/ecs_ingress_scanner.py:505-513 | A prefix not beyond the mark is one that an earlier mark or the scope of a logged row of a smaller prefix covers; committing it adds one skip and no query |
| EcsLog.QueryOne | ecs-scanner/ecs_ingress_scanner.py:514-550 | Any other committed prefix adds exactly its query: rows, addresses, attempts, errors, pending state, failures in a row, and a mark that is the greatest end of a logged scope below 24 |
| EcsLog.RunFollows | ecs-scanner/ecs_ingress_scanner.py:445-582 | For every run and every cut: of the committed inputs exactly the uncovered ones are asked about, each other one counts as a skip; rows, addresses, pending set, failure count and query counters are those of the asked prefixes; the mark is the greatest end of a logged scope; the run ends with the query that reaches the limit, or with the budget or the input |
| EcsLog.NoRowShadowed | ecs-scanner/ecs_ingress_scanner.py:508-545 | No row a run logs lies inside the scope of a row it logged for a smaller prefix, or below the earlier mark |
| EcsLog.StoppedOnFailures | ecs-scanner/ecs_ingress_scanner.py:462-573 | A run that stops has failed on its last queries, as many as the limit, one after another |
| EcsScanner.QueryWithRetries | ecs-scanner/ecs_ingress_scanner.py:210-243 | Succeeds exactly when one of the allowed tries does, with the first success; attempts and errors count the tries made and failed |
| EcsScanner.Scanner.RecordOutcome | ecs-scanner/ecs_ingress_scanner.py:246-259 | Counters always move; rows and addresses are added only for an answer, one row per address or one empty row |
| EcsScanner.Scanner.FillQueue | ecs-scanner/ecs_ingress_scanner.py:479-500 | The queue keeps its tasks and stays the next inputs in order, `concurrency` of them while input remains; a new task goes unsubmitted exactly when it lies under the current skip mark |
| EcsScanner.Scanner.CommitHead | ecs-scanner/ecs_ingress_scanner.py:504-550 | Committing the head is one sequential step, whose effect on the log `EcsLog.SkipOne` and `EcsLog.QueryOne` state, plus the attempts of the head if it had been overtaken; the mark never falls |
| EcsScanner.PotentialStep | ecs-scanner/README.md:146-151 | The overtaken tasks, waiting or wasted, never exceed concurrency-1 for each rise of the skip mark |
| EcsScanner.Scanner.ScanLoop | ecs-scanner/ecs_ingress_scanner.py:474-575 | At any concurrency and any cut the loop has the rows, pending set, mark, counters and addresses of the sequential scan; only query and error counters are larger, by the wasted tasks, at most concurrency-1 per scope extension |
| EcsScanner.Scanner.RetryPending | ecs-scanner/ecs_ingress_scanner.py:452-472 | Pending prefixes are retried in address order until done, cut or stopped by failures |
| EcsScanner.Scanner.Run | ecs-scanner/ecs_ingress_scanner.py:445-582 | A whole run at any concurrency refines the sequential run, follows the laws of its log with only the attempts of the wasted tasks added, and ends stopped by failures, stopped early, completed, or completed with a nonempty pending set exactly as these laws say |
| EcsResume.RunLeaves | ecs-scanner/ecs_ingress_scanner.py:411-582 | Whatever refines a run from the last disk of a chain of cut runs loses no row, serves every input if it completes, and extends the chain |
| EcsResume.ResumeAndRun | ecs-scanner/ecs_ingress_scanner.py:411-582 | A scanner resumed at any concurrency after any cuts: completed means every input served in its log, and what it leaves on disk can be resumed again |
| EcsRestart.SkippedIsShadowed | ecs-scanner/ecs_ingress_scanner.py:508-513 | Every skipped prefix lies wholly inside the scope of an answer already logged for an earlier prefix |
| EcsRestart.StepConsistent | ecs-scanner/ecs_ingress_scanner.py:505-550 | Each committed task keeps every processed prefix pending or served, the log growing and the mark rising |
| EcsRestart.RunConsistent | ecs-scanner/ecs_ingress_scanner.py:452-575 | So does every run cut at any commit, and one that finishes has processed all input |
| EcsRestart.RestartsConsistent | ecs-scanner/ecs_ingress_scanner.py:411-435 | The state resumed after any number of cut runs is consistent, whatever rows beyond the checkpoint reached the log |
| EcsRestart.ResumeContinues | ecs-scanner/ecs_ingress_scanner.py:411-447 | If no query fails, stopping at a checkpoint and resuming from it gives the same rows, mark, skips, counters and addresses as never having stopped |
| EcsRestart.CompletedCovers | ecs-scanner/ecs_ingress_scanner.py:411-582 | After any number of cuts, a run ending completed leaves every input answered in the log or inside the scope of an answer, with no logged row lost |
| EcsRestart.ProcessedCounts | ecs-scanner/ecs_ingress_scanner.py:548-550 | At every commit of every run `processed` is the number of inputs up to the last processed prefix |
| EcsSources.MarkedRange | ecs-scanner/ecs_ingress_scanner.py:300-302 | The marked index range of a row is exactly the /24s that share an address with it |
| EcsSources.BuildSources | ecs-scanner/ecs_ingress_scanner.py:282-320 | The written prefixes are the global /24s touched by a row no broader than a /8, strictly increasing |
| EcsSources.IterPrefixes | ecs-scanner/ecs_ingress_scanner.py:31-53 | Reading succeeds exactly on strictly increasing global /24s, and returns them all in order |
| EcsSources.BuildThenRead | ecs-scanner/ecs_ingress_scanner.py:282-321 | The scanner accepts every file the source builder writes and reads back the same prefixes |
| HostsPin.ApplyKeeps | protocol-diagnostic/platform_ops.py:174-268 | Wherever applying dies, hosts is the baseline or the pin, and whenever it may be the pin the record and the saved baseline are on disk |
| HostsPin.RestoreRecovers | protocol-diagnostic/platform_ops.py:700-761 | From every such state restoring is never refused, stays recoverable wherever it dies, ends with the baseline byte for byte, and leaves clean caches exactly under the stated condition |
| HostsPin.EveryScheduleRecovers | protocol-diagnostic/platform_ops.py:174-268 | After one apply and any number of restores, each cut anywhere, one more restore succeeds and gives the baseline |
| HostsPin.ThirdContentUntouched | protocol-diagnostic/platform_ops.py:700-761 | If hosts is neither the baseline nor the pin, restoring is refused and changes nothing at all |
| HostsPin.RefusedLeavesHosts | protocol-diagnostic/platform_ops.py:700-761 | A refused restore has changed no byte of hosts, wherever it was cut |
| HostsPin.StaleCachesPossible | protocol-diagnostic/platform_ops.py:700-761 | A concrete pair of crashes after which a successful restore leaves every cache stale |
| HostsPin.ApplyEnds | protocol-diagnostic/platform_ops.py:174-268 | An uninterrupted apply takes nine effects, leaves exactly the pin, both artifacts, the recorded completed install and stale caches, and succeeds exactly when the lookups show the pin |
| HostsPin.RestoreEnds | protocol-diagnostic/platform_ops.py:700-761 | In any state whatsoever: when a restore has nothing to do, exactly which conflicts it refuses, and that a successful one brings the recorded baseline back and leaves the caches clean if the pin was installed |
| HostsPin.ReturnedApplyIsUndone | protocol-diagnostic/platform_ops.py:700-761 | Once an apply has returned, however many restores are cut anywhere, the restore that returns leaves the baseline and no stale cache |
| HostsPin.System.Apply | protocol-diagnostic/platform_ops.py:174-268 | Refuses an unrenderable pin and changes nothing; otherwise returns exactly when it is given nine effects, with success exactly when the lookups show the pin, and has then left exactly the recorded pin; from a clean start the pin can be undone wherever it dies |
| HostsPin.System.Restore | protocol-diagnostic/platform_ops.py:700-761 | In any state its answer says what was found and what is left, and six effects are enough; a recoverable state stays recoverable wherever it dies, and when it returns hosts is the baseline |
| HostsText.HostsTargetEntries | protocol-diagnostic/platform_ops.py:103-112 | Lists one entry for each line whose names before any comment include the target, with its number and address, in order, and no other |
| HostsText.EntriesList | protocol-diagnostic/platform_ops.py:103-112 | The entries of any list of lines are exactly those of the lines that name the target, in order |
| HostsText.RenderHostsOverride | protocol-diagnostic/platform_ops.py:115-129 | Refuses unusable or already present names, otherwise appends one pin line after completing the last line |
| HostsText.SeparatedEntries | protocol-diagnostic/platform_ops.py:121-129 | Completing an unfinished last line changes no entry of any name |
| HostsText.RenderedPinsExactly | protocol-diagnostic/platform_ops.py:115-129 | The rendered file extends and differs from the baseline, ends with the comment, gives each pinned name exactly one entry, with the pin's address, and every other name the entries it had |
| PfRule.PrepareKeeps | protocol-diagnostic/platform_ops.py:325-439 | Wherever preparation dies, the record accounts for the anchor and for every enable reference held |
| PfRule.RestoreRecovers | protocol-diagnostic/platform_ops.py:764-850 | Clearing is refused exactly in the two ambiguous windows or on an unrecognised unrecorded load; otherwise it ends with an empty anchor and no reference held, and it stays sound wherever it dies |
| PfRule.EveryScheduleRecovers | protocol-diagnostic/platform_ops.py:325-439 | Over every crash schedule the token is released at most once, only the loaded rule is flushed, and clearing succeeds outside the declared windows |
| PfRule.OnlyRecordedRulesFlushed | protocol-diagnostic/platform_ops.py:764-850 | In any state whatsoever and wherever it dies, a clearing flushes at most a rule recorded for the attempt, and releases at most the one reference that record and output file agree on |
| PfRule.RefusedChangesNothing | protocol-diagnostic/platform_ops.py:764-850 | A clearing that is refused or has nothing to do changes nothing, wherever it was cut |
| PfRule.UnrecognisedIff | protocol-diagnostic/platform_ops.py:823-830 | Some crash schedule leaves a loaded rule that clearing refuses exactly when PF is to block, the rule can be loaded and PF prints it differently |
| PfRule.DiesBehindLoad | protocol-diagnostic/platform_ops.py:406-415 | Dying right behind the load is such a schedule |
| PfRule.LostTokenIff | protocol-diagnostic/platform_ops.py:803-814 | Some crash schedule stops in an ambiguous window exactly when PF is to block and was not enabled |
| PfRule.PrepareEnds | protocol-diagnostic/platform_ops.py:325-439 | Over an empty anchor an uninterrupted preparation takes at most eleven effects, succeeds exactly when the condition is to permit, or the rule passes its check and PF was enabled or gave a token, and leaves exactly the stated anchor, references, output and record |
| PfRule.RestoreEnds | protocol-diagnostic/platform_ops.py:764-850 | In any state whatsoever: when a clearing has nothing to do, exactly which evidence and anchors it refuses, and that a successful one leaves an empty anchor and the told reference released |
| PfRule.Firewall.Prepare | protocol-diagnostic/platform_ops.py:325-439 | Refuses an occupied anchor and changes nothing; over an empty one a finished preparation succeeds exactly when the condition can be had and leaves exactly the stated state; from a clean start the record accounts for everything wherever it dies |
| PfRule.Firewall.Restore | protocol-diagnostic/platform_ops.py:764-850 | In any state its answer says what was found and what is left, and six effects are enough; a sound state stays sound wherever it dies, and on return the anchor is empty and nothing held unless it was refused in a known window |
| Admission.OnlyFirstIncomplete | protocol-diagnostic/protocol_diag.py:583-589 | In a well-run history only the first incomplete slot is in order and still open |
| Admission.NextKeepsWellRun | protocol-diagnostic/protocol_diag.py:554-589 | Serving the next request keeps retries numbered 1..k, plan order and no backfill |
| Admission.AttemptsBounded | protocol-diagnostic/protocol_diag.py:563-565 | A well-run history has at most slots times maximum attempts |
| DiagnosticSlots.SlotComplete | protocol-diagnostic/protocol_diag.py:502-521 | Complete exactly when some attempt was a network outcome or an unauthorized failure, or the last allowed retry failed |
| DiagnosticSlots.SafetyStopped | protocol-diagnostic/protocol_diag.py:524-551 | Stops exactly when some recorded attempt is a direct bypass by outcome or evidence, has unreadable evidence, a changed condition or a stop code |
| DiagnosticSlots.CheckRetry | protocol-diagnostic/protocol_diag.py:571-582 | A retry is open exactly when its number is unused, a first attempt is the slot's first, and a later one follows a single retryable failure with the preceding number |
| DiagnosticSlots.LastDecides | protocol-diagnostic/protocol_diag.py:502-582 | On a tidy slot everything but an authorized mechanical or preparation failure settles it, and such a failure opens exactly the next retry up to the maximum |
| DiagnosticSlots.ValidateSlotRequest | protocol-diagnostic/protocol_diag.py:554-589 | On any history whatsoever, accepts exactly the requests within the maximum, for a slot listed once with that condition, with an open retry, earlier slots settled and later slots untouched |
| DiagnosticSlots.AdmitsExactlyNext | protocol-diagnostic/protocol_diag.py:554-589 | In a well-run history the guard admits exactly the first incomplete slot with its next retry and planned condition |
| DiagnosticSlots.OneRequest | protocol-diagnostic/protocol_diag.py:554-589 | An unfinished plan has an admissible request and never two; a complete plan has none |
| DiagnosticSlots.ReachableWellRun | protocol-diagnostic/protocol_diag.py:1679-1695 | Every reachable history is well run, within slots times maximum attempts, and nothing follows a safety stop |
| DiagnosticSlots.Controller.Attempt | protocol-diagnostic/protocol_diag.py:1679-1695 | Appends one finalized attempt exactly when no recorded attempt carries a stop reason and the guard admits the request; the authorization is kept only for a mechanical or preparation failure, and otherwise nothing changes |
| CampaignSlots.SlotIsComplete | experiment/controller.py:1702-1714 | Complete exactly when some attempt succeeded or the last allowed retry ended in a technical failure |
| CampaignSlots.LastDecides | experiment/controller.py:1702-1745 | On a tidy slot a success settles it, and every other outcome opens exactly the next retry up to the maximum |
| CampaignSlots.ValidateSlot | experiment/controller.py:1717-1832 | On any history: without a plan, the retry rules and an unplanned mode; with one, also its campaign, mode, session, date, limit, pin file and hash, a slot listed once with exactly the requested settings, earlier slots settled and later ones untouched |
| CampaignSlots.AcceptsExactlyNext | experiment/controller.py:1717-1832 | Under a plan of this campaign, mode, session, day, pin file and limit, with no attempt of another plan, the one accepted request is the first incomplete slot with its next retry and its own settings |
| CampaignSlots.AdmitsExactlyNext | experiment/controller.py:1717-1832 | Though without a clause for first attempts, this guard too admits exactly the next request in a well-run history |
| CampaignSlots.ReachableWellRun | experiment/controller.py:1717-1832 | Every history the campaign controller can produce under one plan numbers retries 1..k, leaves only retryable outcomes before the last, follows the plan and is bounded |
| Ingress.ClientIngress | experiment/pipeline.py:982-1060 | The contacts and the fresh setups are keyed by exactly the five-tuples with a matching packet, each represented by its first such packet |
| Ingress.AttributeRun | experiment/pipeline.py:1604-1668 | Under each policy an ingress is observed exactly when the packets the policy looks at decide it, and is then the first five-tuple among them: fresh bounded setups, or under the bounded-candidate policy all bounded contacts unless one address alone had fresh setups, or all contacts; the wrong-ingress decision follows |
| Ingress.PoliciesOnPackets | experiment/pipeline.py:1612-1657 | Deciding on five-tuples is deciding on packets: one address, and some TCP in a fallback run or otherwise one transport |
| Ingress.PinnedRun | experiment/pipeline.py:1063-1092 | In a pinned run only the pin can be observed, exactly when what was sent to it decides: its setups if there are any, otherwise all contacts |
| Ingress.BoundedBy | experiment/pipeline.py:1063-1120 | The bounded addresses are the pin, or without one those directly evidenced, or all approved ones when there are none |
| Ingress.BackgroundCannotInterfere | experiment/pipeline.py:1612-1668 | Under the bounded-candidate policy with one fresh bounded address, inserting packets that are no fresh setups, or go elsewhere, changes no part of the decision |
| Ingress.FreshPolicyImmune | experiment/pipeline.py:1612-1614 | The fresh-handshake policy has this immunity for any number of fresh addresses |
| Ingress.LegacyImmuneIff | experiment/pipeline.py:1623-1668 | The legacy decision survives every insertion of background traffic exactly in undecidable and saturated runs |
| Ingress.ObservedLegacyNeverImmune | experiment/pipeline.py:1623-1668 | With two or more candidates immune means undecidable, so an observed ingress never is |
| Ingress.UnshieldedContact | experiment/pipeline.py:1632-1657 | In every other run there is one contact whose addition changes what is observed |
| Ingress.TupleOrderSorts | experiment/pipeline.py:1044-1058 | The order in which contacts are sorted is a strict total order, as the attribution results assume |
| Ingress.LegacyInterferes | experiment/pipeline.py:1623-1624 | A concrete packet that turns an observed ingress into an unknown one under the legacy policy |
| Pairing.SortedInOrder | protocol-diagnostic/pairing.py:260-267 | Packets are read by time and frame number, untimed ones last |
| Pairing.FindHandshake | protocol-diagnostic/pairing.py:331-374 | Finds a SYN-ACK and ACK that complete the SYN in time order inside the window exactly when there are some |
| Pairing.ObservedAddresses | protocol-diagnostic/pairing.py:389-392 | The contacted addresses, each once, in the order of their first contacts |
| Pairing.ClientContacts | protocol-diagnostic/pairing.py:243-432 | Flows, fallback, UDP attempts and failover, origin contact, observed addresses and each case of the outer transport mean what they should on the capture, whatever the order of its packets; every contact carries its own evidence |
| Pairing.ServerFlowEvidence | protocol-diagnostic/pairing.py:557-617 | Fresh exactly when the earliest setup on the delivery's five-tuple lies between launch and a delivery inside the window |
| Pairing.EnforcedMeans | protocol-diagnostic/pairing.py:645-738 | The filter evidence counts as enforcement exactly when the recorded rule is the expected one, one printed rule contains all its parts, the recorded steps are in time order and the packet counter rose |
| Pairing.GateNeverPromotes | protocol-diagnostic/pairing.py:969-1008 | The lifecycle gate passes a positive finding unchanged from a clean lifecycle, and never makes one |
| Pairing.AttributedMeans | protocol-diagnostic/pairing.py:281-318 | Attributed is the setup of an HTTPS connection to a named candidate other than the origin, between the reset and the delivery |
| Pairing.ClassificationWarranted | protocol-diagnostic/pairing.py:741-1008 | Correctly gathered evidence, classified and gated, gives a verdict the attempt warrants |
| Pairing.OneVerdict | protocol-diagnostic/pairing.py:741-1008 | The conditions of the fourteen verdicts exclude one another |
| Pairing.PairAttempt | protocol-diagnostic/pairing.py:1073-1341 | Given the selected delivery, the acceptance is the one verdict the attempt warrants, each of the fourteen with its exact condition on packets, delivery, filter state and lifecycle: strong exactly with one outer TCP flow with an ordered handshake, a rising counter on the exact rule, a fresh QUIC setup, a unique catalogue match, no origin contact, no other QUIC and a clean lifecycle |
| Destination.ExactCaddyPair | protocol-diagnostic/pairing.py:494-544 | Selects a row exactly when it is the only one tagged with the run, has the response's identifier and agrees with the response in every compared field and time |
| Destination.HostBeforeColon | protocol-diagnostic/pairing.py:535-536 | Hosts are compared by what stands before the first colon |
| Destination.PairUnique | protocol-diagnostic/pairing.py:511-515 | No response pairs exactly with two rows |
| Destination.SelectDelivery | protocol-diagnostic/pairing.py:1184-1238 | Without errors the delivery to evaluate is the exactly paired one; without a response any tagged row is an error |
| Destination.PairTrial | protocol-diagnostic/pairing.py:1073-1341 | From the log on: an exactly paired delivery is judged by its own verdict and no delivery at all as none, if the pin was effective; everything else is excluded as ambiguous, or a safety stop after a direct bypass |
| PrefixMatch.AcceptFeed | experiment/pipeline.py:1175-1185 | A feed of both families is accepted exactly when every prefix parses and equal prefixes have equal locations |
| PrefixMatch.LongestPrefixMatch | experiment/icprlib.py:740-755 | Answers with the first of the most specific rows containing the address, and with none exactly when no row contains it |
| PrefixMatch.CatalogueMatch | protocol-diagnostic/pairing.py:135-158 | Answers an IPv4 address exactly when the most specific row is unique, and with that row |
| PrefixMatch.LongestUnique | experiment/pipeline.py:1175-1185 | On an accepted feed the most specific row is one, whatever the order and repetition of rows |
| PrefixMatch.MatchersAgree | experiment/icprlib.py:740-755 | On an accepted feed both matchers agree for every address and every ordering of the rows |
| PrefixMatch.MostSpecificUnique | experiment/reference/asn/apply_historical_bgp_reconstruction.py:84-87 | Two most specific prefixes that contain one address are equal |
| PrefixMatch.OriginOf | experiment/reference/asn/apply_historical_bgp_reconstruction.py:89-97 | A route has an origin exactly when its path ends with the text of a number from 1 to 4294967295 |
| PrefixMatch.DecimalValue | experiment/reference/asn/apply_historical_bgp_reconstruction.py:94-95 | The value read from the decimal text of a number is that number |
| PrefixMatch.ChooseRoute | experiment/reference/asn/apply_historical_bgp_reconstruction.py:65-102 | Never reports several most specific prefixes; otherwise returns the number text with which every route at the most specific prefix ends, or fails because there is none, naming a route without hops, one that ends with no number, or two that end differently |
| Manifest.Finalize | experiment/icprlib.py:191-212 | Refuses a finalized directory and one without artifacts, otherwise adds the manifest of the covered files and its sidecar |
| Manifest.VerifyAttempt | experiment/icprlib.py:215-249 | Succeeds exactly when the manifest's sidecar verifies, every line holds and the listed paths are the covered files, and returns their hashes |
| Manifest.SomeDigest | experiment/icprlib.py:147-152 | There are functions that print digests as the results below require |
| Manifest.DigestCase | experiment/icprlib.py:165-187 | A recorded digest is compared without regard to letter case |
| Manifest.ExcludedAnywhere | experiment/icprlib.py:195-201 | In any directory the manifest leaves out exactly the pid file, the manifest and every sidecar |
| Manifest.PartsOfJoined | experiment/icprlib.py:226-228 | Splitting a path gives back the parts it was joined from |
| Manifest.KeptPathsOrdered | experiment/icprlib.py:195-208 | The covered files are listed in the order of the sorted walk |
| Manifest.ParseLineIff | experiment/icprlib.py:219-224 | A manifest line is read exactly when it is 64 hexadecimal digits, two spaces and a path |
| Manifest.VerifiesIffSameHashes | experiment/icprlib.py:215-249 | For any hash, a manifest of one-line names verifies exactly the directories with the finalized paths and hashes |
| Manifest.PassesIffUnchanged | experiment/icprlib.py:191-249 | With manifest and sidecar untouched, and no collision among the contents compared, a directory passes exactly when its covered paths and contents are the finalized ones |
| Manifest.FinalizedPassesIffOneLine | experiment/icprlib.py:191-249 | A directory passes right after finalizing exactly when no covered name contains a line break |
| Manifest.LineBreakInNameFails | experiment/icprlib.py:204-225 | A concrete directory that is finalized and then does not verify |
| Manifest.SidecarIff | experiment/icprlib.py:155-188 | A sidecar verifies exactly the contents with the written hash, so without a collision only its own, and only if the file name has no white space |
| DnsStub.ParseQuestion | experiment/helpers/dns_stub.py:24-45 | Terminates on every packet and returns the question defined label by label, refusing short, truncated, compressed and non-ASCII ones |
| DnsStub.JoinSplit | experiment/helpers/dns_stub.py:45-50 | Joining the labels of a name gives the name back |
| DnsStub.SplitHasNoDots | experiment/helpers/dns_stub.py:48-50 | No label of a split name contains a dot |
| DnsStub.SplitJoin | experiment/helpers/dns_stub.py:48-50 | A name has only one list of labels without dots, the one the split gives |
| DnsStub.DotsStripped | experiment/helpers/dns_stub.py:49 | Exactly the dots at the end of a name are stripped |
| DnsStub.ParseEncoded | experiment/helpers/dns_stub.py:24-50 | Labels of 1 to 63 characters are read back from wherever they were written, up to the byte after the name |
| DnsStub.ParsedIsEncoded | experiment/helpers/dns_stub.py:27-41 | Whatever parses is a printed name of labels of 1 to 63 characters, up to the byte after it |
| DnsStub.BadLabelsDiffer | experiment/helpers/dns_stub.py:32-41 | With any other label the parser refuses or stops before the end of the name |
| DnsStub.EncodeThenParse | experiment/helpers/dns_stub.py:24-50 | Parsing a printed question gives the name in lower case, type, class and bytes exactly when every label has 1 to 63 characters |
| DnsStub.ParsesIff | experiment/helpers/dns_stub.py:24-45 | A packet parses exactly when its header is followed by a printed name of such labels and four more bytes |
| DnsStub.QuestionLocal | experiment/helpers/dns_stub.py:24-45 | A packet holding the same question bytes parses to the same question |
| DnsStub.ReadWritten | experiment/helpers/dns_stub.py:61-80 | A reader of resource records reads back every field that is written, with the time to live and the declared length |
| DnsStub.ResponseWellFormed | experiment/helpers/dns_stub.py:64-92 | A packet is answered exactly when it announces one parsable question; the answer repeats identifier and question, and holds exactly the one record its counts announce: the pinned address or the authority |
| DnsStub.AddressIff | experiment/helpers/dns_stub.py:64-92 | A printed query gets the pinned address exactly for an Internet address query of one of the two relay names in any letter case, and any other name or class a name error |
| DnsStub.CaseIrrelevant | experiment/helpers/dns_stub.py:45-92 | Queries whose names differ only in letter case get the same flags, counts and record |
| Text.LowerDecides | experiment/helpers/dns_stub.py:45 | Texts have the same lower case exactly when they differ at most in the case of letters |
| DnsStub.AuthorityParses | experiment/helpers/dns_stub.py:53-61 | The authority's two names parse back, and its five numbers follow them up to the end |

## Left out

- ChurnDiff.DiffFamily: one address family at a time; `added_pfx` and `removed_pfx` (address-range summarising) are not modelled.
- Snapshot.Load: starts from parsed rows; CSV reading, CIDR parsing and the order of equal intervals are not modelled.
- ResliceCount.ReslicedPrefixCount: `collapse_addresses` is taken as the address set it denotes.
- EcsScanner.Scanner.ScanLoop: one outcome per prefix stands for the executor; threads, rate limiting, timestamps and progress output are not modelled.
- EcsRestart.CompletedCovers: checkpoints may fall on any commit instead of by the clock, the commit of one task and the write of the summary are single steps, so an interrupt inside a commit is not covered. The query and error counters of a restart are not claimed.
- EcsSources.BuildSources: starts from parsed IPv4 rows; `is_global` is an arbitrary predicate; the chunked writing is not modelled.
- HostsPin.RestoreRecovers: one file install, one record write and one cache flush are single steps; a failing command counts as a crash at that point. The lookups after the pin only decide the result.
- HostsText.RenderedPinsExactly: for one-line comments, which the code's constant is; bytes that are not text are not modelled.
- PfRule.RestoreRecovers: one rule load, flush, enable or release is a single step; several tokens in one enable output and unreadable artifacts are not modelled.
- DiagnosticSlots.ValidateSlotRequest: attempts of other diagnostics, unfinished attempts and metadata that does not parse, which the code refuses before, are not modelled.
- CampaignSlots.ValidateSlot: attempts of other campaigns, and attempts whose metadata or outcome does not parse, which the code refuses before, are not modelled.
- Ingress.AttributeRun: packets with missing addresses or ports have them normalised beforehand; the other exclusion codes are not modelled.
- Pairing.PairAttempt: reading and hashing of files and the validation of the origin gate's evidence are one flag each; the classification's wording and the frames of the evidence are not modelled.
- Destination.PairTrial: reading an address or a port from text is an arbitrary function; that a server capture of the right time exists is a flag.
- PrefixMatch.ChooseRoute: a hop text with digits outside ASCII, which the code does not expect, is taken as no number.
- Manifest.VerifyAttempt: a path that exists as a directory, permissions and text encodings are not modelled.
- DnsStub.ResponseWellFormed: sockets, TCP framing, the query log and the resolver-discovery name are not modelled.
- Freshness checks, dated origin tables, capture processes, watchdogs, locks, the origin gate, plots and reports are not part of this model.
- The controller's own hosts, resolver and firewall cleanup repeats what is modelled for the diagnostic, with a superseded resolver file.
