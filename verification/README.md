# Verified model of the collocate orchestration logic

This project models, in Dafny, the parts of collocate that decide over state: the rolling-update planner and the
controller that drives it, the autoscaler, the address allocator, dependency ordering and deployment, HTTP body
framing, the template scanner, the daemon's bookkeeping of live containers, start-up reconciliation, and civil-date
arithmetic. Each component has a specification in functions, the program's own loops and updates as methods or
classes proved against it, and lemmas that state what holds over all inputs, runs or reachable states.

| module | models |
|---|---|
| `Rollout`, `RolloutLaws`, `RolloutCounting`, `RolloutSafety`, `RolloutProgress`, `ScaleDown` | the planner `next_step`, what a step does replica by replica, its safety over runs with an environment, its convergence, scaling down |
| `Controller`, `Ticks`, `Revisions`, `Stalls`, `Retry` | a tick over the services, crashes and pace over runs of ticks, the revision state machine over runs, stalled rollouts, a rejected revision that returns |
| `Autoscaler`, `AutoscalerRuns`, `AutoscalerLaws` | the scaler with its pruned history, its guarantees over runs, and when it scales |
| `Ipam`, `IpamLaws` | subnet arithmetic, allocation, probing, rebuilding |
| `Topo`, `Diff`, `Up`, `UpRuns`, `DeployLaws`, `Deploy` | dependency order, plan, the loops of `up` against an abstract daemon, and `up` as a whole |
| `HttpBytes`, `HttpBody`, `HttpLaws` | chunked framing as a meaning of bytes, the buffered readers and writers, and heads and bodies as they look on the wire |
| `Template`, `TemplateLaws` | the scanner with its two uses, by cases on what stands in front |
| `Lifecycle`, `LifecycleRuns`, `Requests`, `Restarts`, `IdleReaping` | live containers, event tokens, waiters, who is told what about an exit, restarts, idle containers |
| `Reconcile`, `ReconcileRuns` | the start-up plan and carrying it out |
| `CivilDate` | day numbers and the fraction of a timestamp |
| `Order`, `Basics` | name order, stable sorting, small types |

Every integer is unbounded in Dafny, so 32-bit and 64-bit limits, saturating subtraction and truncating division are
written out. Where the source adds without a check (`desired + max_surge`, `index + 1`, `t + longest`, the probing sum),
the precondition or a lemma says that the sum fits.

## What the proofs found

- **Scaling down may break availability.** Outside a rollout the excess is drained by connections and index alone, and
  the controller reports no connections, so in practice by index. `ScaleDown.ScaleDownAvailability` gives the exact
  condition on the fleet; `ScaleDownMayDrainTheReadyReplica` is an instance with no connections at all.
- **A canary without room idles until the deadline, and for ever if nobody knows when it began.** `Canary` skips the
  check that both allowances are zero, and a full, healthy fleet then gets no action (`Stalls.IdlesExactly`,
  `FullCanaryIdles`). The progress deadline ends such a rollout by a rollback or a pause if and only if its start is
  recorded (`StalledRolloutEndsExactly`). The start is not recorded for a rollout found when a service is first seen, so
  that one is never ended while it is stalled (`FoundStalledIdlesForEver`, with a run in `StallFromStartUp`).
- **Only the last rejection is remembered.** While the file keeps a rejected revision it is not retried
  (`Revisions.RejectedStaysRejected`), but after another rollback it can be: `Retry.RejectedRevisionCanReturn` is a run
  from start-up (`Revisions.RetryNeedsAnotherRollback` says that this is the only way).
- **A stop may be undone.** Stopping a container that crashed and waits to be relaunched is answered at once, yet the
  planned relaunch is not withdrawn. `LifecycleRuns.StoppedComesBackExactly` is the exact condition,
  `StopMayBeUndone` a run from start-up.
- **Forgetting a stop on start does nothing**: every exit has forgotten it already
  (`LifecycleRuns.ForgettingAStopChangesNothing`).
- **A forced rotation never settles.** With a service under forced rotation the wanted hash is never the recorded one,
  so planning again under rotation always finds work (`UpRuns.SecondPlan`).
- Containers whose ids agree in the first ten digits share a link name, so the link of a dead one is kept
  as long as the other is adopted (`Reconcile.VethName`, `Reconcile.PlanExact`). The daemon never fills the list of firewall
  tags and takes no step for `MarkStopped` and `DeleteNftTag`; `ReconcileRuns` models the effect these actions name.

## Model

| member | source | states |
|---|---|---|
| Rollout.PlanStep | crates/collocate-controller/src/rollout.rs:68-151 | the planner with its early returns, sorted candidates and growing list computes the planner's specification, on every state whose sums fit 32 bits |
| Rollout.TakeVictims | crates/collocate-controller/src/rollout.rs:134-144 | the loop that spends the budget picks every unready old replica and the first ready ones in descending index |
| Rollout.SteadyWork | crates/collocate-controller/src/rollout.rs:101-118 | the branch without old replicas drains the excess, starts what is missing, or reports completion |
| RolloutLaws.ObstacleExact | crates/collocate-controller/src/rollout.rs:78-88 | a rollout with a failed replica of the target or past its deadline goes back if it may and can, otherwise pauses; a rolling one without room pauses; nothing else is an obstacle |
| RolloutLaws.BeforeTheDelay | crates/collocate-controller/src/rollout.rs:128-130 | before the delay since the last action has passed, a rolling or canary rollout does nothing but remove replicas that have drained |
| RolloutLaws.RecreatePace | crates/collocate-controller/src/rollout.rs:120-126 | a recreating rollout drains exactly the old replicas, once the delay has passed or something has drained, and starts nothing |
| RolloutLaws.RollingDrainsExactly | crates/collocate-controller/src/rollout.rs:132-145 | after the delay exactly those old replicas are drained that are not ready or have fewer ready old ones above them than can be spared |
| RolloutLaws.StartsExactly | crates/collocate-controller/src/rollout.rs:95-118 | only the target is started, in free slots, the lowest ones first, in as many as are missing or are free; how many are missing is stated in numbers of replicas |
| RolloutLaws.RemovesExactly | crates/collocate-controller/src/rollout.rs:90-95 | exactly the replicas that have drained for long enough are removed |
| RolloutCounting.FreeIndexesExact | crates/collocate-controller/src/rollout.rs:57-59 | pigeonhole: with fewer replicas than slots the lowest unused indexes are found, as many as are wanted or are free |
| RolloutSafety.WorkEffect | crates/collocate-controller/src/rollout.rs:90-150 | removing, draining and starting by index keep indexes distinct and move each live count by exactly the replicas concerned |
| RolloutSafety.ReadyVictims | crates/collocate-controller/src/rollout.rs:132-145 | a rolling step drains no more ready replicas than are available beyond the required number |
| RolloutSafety.PlanKeepsSafe | crates/collocate-controller/src/rollout.rs:68-151 | one planner step keeps surge, availability, distinct indexes and revision sizes |
| RolloutSafety.EnvironmentKeepsSafe | crates/collocate-controller/tests/sim.rs:141-172 | health changes that spare ready replicas, draining clocks, the disappearance of replicas that are not ready, new targets and pauses keep them too |
| RolloutSafety.EveryRunIsSafe | crates/collocate-controller/tests/sim.rs:141-172 | in every state of every run live replicas stay within desired plus surge, ready ones at or above desired minus unavailable, and all indexes are distinct |
| RolloutLaws.SafeInNumbers | crates/collocate-controller/tests/sim.rs:141-172 | what this safety says of the numbers of live and ready replicas and of the indexes |
| RolloutSafety.FreshFleetIsSafe | crates/collocate-controller/tests/sim.rs:141-172 | a full fleet of ready replicas of one revision is a state runs may start from |
| ScaleDown.DrainedExactly | crates/collocate-controller/src/rollout.rs:102-106 | outside a rollout exactly those replicas are drained that have fewer replicas ahead of them, by connections and then descending index, than are in excess |
| ScaleDown.ScaleDownAvailability | crates/collocate-controller/src/rollout.rs:102-106 | after a lowered count availability is kept if and only if as many ready replicas as required have at least the excess ahead of them |
| ScaleDown.ScaleDownMayDrainTheReadyReplica | crates/collocate-controller/src/rollout.rs:102-106 | of two replicas without connections, the lower one starting and the higher one ready, the ready one is drained and availability lost |
| RolloutProgress.CompleteMeansSteady | crates/collocate-controller/src/rollout.rs:96-118 | an unpaused step is exactly completion if and only if there are exactly the desired replicas, all live, ready and of the target revision |
| RolloutProgress.LeastConnectedGo | crates/collocate-controller/src/rollout.rs:102-106 | exactly the excess is drained and no survivor is less connected than a victim; ties go by index |
| RolloutProgress.HighestReadyGo | crates/collocate-controller/src/rollout.rs:132-145 | a surviving old replica is ready, below every ready victim in index, and the budget is used up |
| RolloutProgress.SettledStepProgresses | crates/collocate-controller/src/rollout.rs:68-151 | a settled rollout step lowers the distance to the end if and only if the rollout is not stuck |
| RolloutProgress.SettledSteadyStep | crates/collocate-controller/src/rollout.rs:101-118 | outside a rollout one settled step reaches the desired number or reports completion |
| RolloutProgress.EveryRolloutCompletes | crates/collocate-controller/tests/sim.rs:141-172 | under a policy with some allowance every settled run reports completion within as many steps as the first distance |
| Stalls.IdlesExactly | crates/collocate-controller/src/rollout.rs:82-88 | a settled rollout gets no action if and only if it is a canary without room on a full fleet |
| Stalls.FullCanaryIdles | crates/collocate-controller/src/rollout.rs:82-88 | a concrete canary state with an empty step |
| Controller.Controller.Follow | crates/collocate-controller/src/controller.rs:188-203 | the file's revision is applied on first sight, or when it differs and is not the rejected one |
| Controller.Controller.Observe | crates/collocate-controller/src/controller.rs:92-149 | one walk over the listing counts crashes, collects running replicas and adds the failed stand-in; other services are untouched |
| Controller.Controller.Perform | crates/collocate-controller/src/controller.rs:236-283 | the effect of each action on what is remembered of the service, and which failures end the tick |
| Controller.Controller.TickService | crates/collocate-controller/src/controller.rs:187-285 | one service's tick leaves exactly the specified memory and plans the specified actions; other services are untouched |
| Controller.Controller.TickAll | crates/collocate-controller/src/controller.rs:187-285 | the services take their turns in order until one fails; those before it ticked, those after it are untouched |
| Ticks.LookExact | crates/collocate-controller/src/controller.rs:92-149 | a walk succeeds exactly when every exited replica can be removed; it then shows the running ones in order, and the crashes have grown by the number of positions with an exited replica of the target |
| Ticks.CrashesEndExactly | crates/collocate-controller/src/controller.rs:138-147 | over every run that watches one revision: three exits of it in all since it was applied, with another revision still running, end the rollout; with fewer, or without one, the planner sees the listing as it is |
| Ticks.ActionsAreSpaced | crates/collocate-controller/src/controller.rs:187-285 | however many ticks lie between, a tick that starts or drains something and a later tick of a rollout that does so are at least the delay of that rollout apart |
| Ticks.FollowExact | crates/collocate-controller/src/controller.rs:190-203 | what is remembered and forgotten when the file brings in a revision, on first sight, anew, or not at all |
| Ticks.DesiredExact | crates/collocate-controller/src/controller.rs:211-222 | the autoscaler's decision reaches the planner and is remembered exactly when the service is autoscaled and no other revision is seen; otherwise the last count or the file's is used |
| Ticks.TickPauses | crates/collocate-controller/src/controller.rs:273-277 | a service is paused exactly by a planned pause, and the actions leave the desired count alone |
| Ticks.PlannerIsShown | crates/collocate-controller/src/controller.rs:205-235 | when the planner is asked, and that it is shown the applied revision with its own policy, where it may go back to and how long the rollout has lasted |
| Ticks.TurnExact | crates/collocate-controller/src/controller.rs:235-284 | a turn goes through exactly when the service is paused, or the planner is asked and none of its actions ends the tick |
| Ticks.StopsAtTheFirst | crates/collocate-controller/src/controller.rs:235-284 | the first action that ends the tick leaves no trace, nor do those after it |
| Revisions.TickRevisions | crates/collocate-controller/src/controller.rs:187-285 | a tick either only follows the file, or swaps applied for previous and rejects it |
| Revisions.EveryRunIsConsistent | crates/collocate-controller/src/controller.rs:188-203 | over every run the applied revision is neither the rejected nor the previous one |
| Revisions.RollbackRejects | crates/collocate-controller/src/controller.rs:264-272 | after a rollback of the file's revision it is rejected and not applied |
| Revisions.RejectedStaysRejected | crates/collocate-controller/src/controller.rs:190-203 | as long as the file keeps the rejected revision, what is applied does not move and nothing is rolled back again |
| Revisions.RetryNeedsAnotherRollback | crates/collocate-controller/src/controller.rs:190-203 | whatever the file does, a rejected revision is applied again only after some other rollback |
| Retry.RejectedRevisionCanReturn | crates/collocate-controller/src/controller.rs:264-272 | a run from start-up, listing only what its own ticks started, in which a revision is applied, rolled back, rejected and applied again |
| Revisions.FollowsUnlessRejected | crates/collocate-controller/src/controller.rs:190-203 | a new file revision is applied by a tick without rollback if and only if it is not the last rejected one |
| Revisions.ThreeCrashesEndTheRollout | crates/collocate-controller/src/controller.rs:138-147 | a tick whose record of crashes has reached three while another revision survives ends the rollout, by rollback or pause |
| Revisions.ReplicaNumbersFit | crates/collocate-controller/src/controller.rs:252-263 | the stand-in's index is never drained or started, so index plus one always fits 32 bits |
| Stalls.RolloutEndsExactly | crates/collocate-controller/src/rollout.rs:78-88 | a tick that sees a rollout rolls back or pauses if and only if a new replica failed, the recorded start is longer ago than the deadline, or the rolling strategy has no room |
| Stalls.TickClock | crates/collocate-controller/src/controller.rs:191-203 | when the start of a rollout is recorded and forgotten: not on first sight |
| Stalls.StalledRolloutEndsExactly | crates/collocate-controller/src/rollout.rs:82-84 | over every run of a stalled canary the rollout is ended if and only if its start is recorded and some tick comes after the deadline |
| Stalls.FoundStalledIdlesForEver | crates/collocate-controller/src/controller.rs:192-194 | a stalled rollout found on first sight is never ended, whatever the times of the ticks |
| Stalls.StallFromStartUp | crates/collocate-controller/src/controller.rs:192-194 | such runs exist from start-up, of any length |
| Autoscaler.Scaler.Recommendation | crates/collocate-controller/src/autoscaler.rs:38-54 | the largest count any usable metric asks for, and none exactly when no metric is usable |
| Autoscaler.Scaler.Step | crates/collocate-controller/src/autoscaler.rs:56-91 | the decision and the pruned history, with the deque popped in place |
| AutoscalerLaws.ScalesUpExactly | crates/collocate-controller/src/autoscaler.rs:74-80 | over every run: with a recommendation above the current count the scaler scales up if and only if all recommendations of the up window exceed it, and then to the least of these, as far as step and maximum allow |
| AutoscalerLaws.ScalesDownExactly | crates/collocate-controller/src/autoscaler.rs:81-87 | the same downward, with the greatest recommendation of the down window |
| AutoscalerLaws.OtherwiseHolds | crates/collocate-controller/src/autoscaler.rs:56-66 | a count out of range goes to the nearest bound; without a usable metric, or when the current count is recommended, it holds |
| AutoscalerLaws.WantedExact | crates/collocate-controller/src/autoscaler.rs:38-54 | a metric asks for the current count within its tolerance, and outside it for the least count that brings the load per replica to the target, but for the stated slack |
| AutoscalerLaws.FindFirst | crates/collocate-controller/src/autoscaler.rs:38-54 | the first finite reading of the kind that is not negative is the one used |
| AutoscalerRuns.PrunedRefinesFull | crates/collocate-controller/src/autoscaler.rs:68-73 | for nondecreasing times every window over the pruned history shows what it shows over the log of all recommendations |
| AutoscalerRuns.PrunedDecidesAsFull | crates/collocate-controller/src/autoscaler.rs:68-91 | hence each decision is the one an unpruned scaler takes |
| AutoscalerRuns.LogContents | crates/collocate-controller/src/autoscaler.rs:67-68 | the log holds each recording tick's clamped recommendation, and only counts within the policy |
| AutoscalerRuns.HistoryWithinBounds | crates/collocate-controller/src/autoscaler.rs:67-72 | every history entry of every run lies within the policy |
| AutoscalerRuns.ScalingIsBounded | crates/collocate-controller/src/autoscaler.rs:56-91 | every target lies within the policy, and from a count in range it moves only in the decided direction by at most that direction's step |
| AutoscalerRuns.DecisionWithinRecommendation | crates/collocate-controller/src/autoscaler.rs:74-87 | no decision passes its own tick's recommendation |
| AutoscalerRuns.NoFlapDown | crates/collocate-controller/src/autoscaler.rs:81-87 | within the down window after scaling up to n no decision goes below n |
| AutoscalerRuns.NoFlapUp | crates/collocate-controller/src/autoscaler.rs:74-80 | within the up window after scaling down to n no decision goes above n |
| Ipam.ParseGivesValidSubnet | crates/collocate-net/src/ipam.rs:16-26 | a subnet is accepted exactly for prefixes 8 to 30, is aligned and contains the given address |
| Ipam.BlockFits | crates/collocate-net/src/ipam.rs:36-42 | the aligned block never runs past 32 bits |
| Ipam.RangesPartition | crates/collocate-net/src/ipam.rs:98-118 | pool and virtual range are disjoint, cover the assignable addresses between gateway and broadcast, and no sum overflows |
| IpamLaws.Layout | crates/collocate-net/src/ipam.rs:98-118 | gateway, pool, virtual block and broadcast in numbers: an eighth of the assignable addresses, at most 255, are virtual |
| Ipam.Allocator.DoReserve | crates/collocate-net/src/ipam.rs:128-146 | reserving updates both maps, drops the owner's old address, and on refusal changes nothing |
| Ipam.Allocator.DoAllocate | crates/collocate-net/src/ipam.rs:154-168 | the linear walk over the pool computes its specification |
| Ipam.Allocator.DoProbe | crates/collocate-net/src/ipam.rs:170-182 | the circular walk computes its specification |
| Ipam.EveryRunIsConsistent | crates/collocate-net/src/ipam.rs:128-205 | over any sequence of calls the two maps are exact inverses over assignable addresses |
| Ipam.OneCall | crates/collocate-net/src/ipam.rs:128-205 | a failed call changes nothing |
| Ipam.ProbeExhaustive | crates/collocate-net/src/ipam.rs:170-182 | probing fails only when every slot is taken, else finds the first free one in cyclic order |
| Ipam.ForServiceExact | crates/collocate-net/src/ipam.rs:184-192 | a new service owner fails exactly when the pool is full, else gets the first free pool address from its start, and only its entries are added |
| Ipam.VipExact | crates/collocate-net/src/ipam.rs:194-205 | the same for virtual addresses, including an empty range |
| Ipam.AllocateExact | crates/collocate-net/src/ipam.rs:154-168 | a new owner fails exactly when the pool is full, else gets the lowest free pool address |
| IpamLaws.KnownOwnerKeepsItsAddress | crates/collocate-net/src/ipam.rs:154-205 | an owner that has an address gets it again from every kind of allocation, and nothing changes |
| IpamLaws.ReserveExact | crates/collocate-net/src/ipam.rs:128-146 | reserving succeeds exactly for an assignable address that is free or the owner's, and both maps afterwards are stated address by address |
| IpamLaws.ReleaseExact | crates/collocate-net/src/ipam.rs:148-152 | releasing takes away exactly the owner's address |
| Ipam.ReleaseUndoes | crates/collocate-net/src/ipam.rs:148-152 | releasing a newly obtained address restores both maps |
| Ipam.Rebuild | crates/collocate-net/src/ipam.rs:86-92 | the loop reserves entry by entry and stops at the first refusal |
| Ipam.RebuildRestores | crates/collocate-net/src/ipam.rs:86-92 | rebuilding from the entries of any reachable state, in any order, restores that state |
| Topo.TopoOrder | crates/collocate-compose/src/plan.rs:4-45 | an order is returned exactly for known acyclic graphs, lists each service once, after its dependencies, by depth and then by name; otherwise the first unknown dependency or a closed path of real edges is reported |
| Topo.FirstUnknown | crates/collocate-compose/src/plan.rs:5-11 | the scan finds the first unknown dependency of the first service, in name order, that has one, exactly when there is one |
| Topo.Peel | crates/collocate-compose/src/plan.rs:12-26 | the layers come out in order, and what remains waits on what remains |
| Topo.FindCycle | crates/collocate-compose/src/plan.rs:30-44 | the walk over first outstanding dependencies ends and gives a cycle of the graph |
| Topo.SortedMeansAcyclic | crates/collocate-compose/src/plan.rs:27-29 | a graph that can be ordered has no cycle |
| Topo.DependentsStopFirst | crates/collocate-compose/src/plan.rs:47-49 | in the shutdown order every dependent precedes what it depends on |
| Diff.ComputeDiff | crates/collocate-compose/src/plan.rs:79-95 | the loops build the plan the specification describes |
| Diff.PlanPartitions | crates/collocate-compose/src/plan.rs:82-89 | every wanted item lands in exactly one of create, recreate, start and keep |
| Diff.JudgedMembers | crates/collocate-compose/src/plan.rs:82-89 | a name is in a list if and only if some wanted item of that name gets its verdict |
| Diff.RemovedMembers | crates/collocate-compose/src/plan.rs:90-93 | a name is removed if and only if it is there and not wanted |
| Diff.RemovalsAreSorted | crates/collocate-compose/src/plan.rs:91-93 | the removals are in name order |
| Diff.NoopMeansMatching | crates/collocate-compose/src/plan.rs:73-95 | nothing is to do if and only if all wanted containers run with the wanted hash and no others are there |
| DeployLaws.ListsExact | crates/collocate-compose/src/plan.rs:79-89 | which list a name is in, from the last entry of that name and its hash and state alone: missing, other hash, stopped, running |
| Up.BringUp | crates/collocate-compose/src/up.rs:373-423 | the calls made are a prefix of the specified calls, all of them on success, none on a dry run |
| Up.CallService | crates/collocate-compose/src/up.rs:391-416 | one service: its replicas' calls, one wait for the touched ones, then its balancers |
| DeployLaws.CallsExact | crates/collocate-compose/src/up.rs:391-407 | the calls of one replica: stop, remove and run for another hash, run for a missing one, start for a stopped one, none for the rest |
| DeployLaws.TouchedExact | crates/collocate-compose/src/up.rs:391-410 | a wait is about exactly the replicas with a call |
| DeployLaws.BalancersRegisterOnce | crates/collocate-compose/src/up.rs:411-415 | on success every balancer whose backend is one of the services has been registered exactly once |
| DeployLaws.RegisteredWhenReady | crates/collocate-compose/src/up.rs:408-415 | however far up got, a balancer was registered only after the touched replicas of its backend had been waited for |
| UpRuns.PlanLeadsUp | crates/collocate-compose/src/up.rs:391-421 | a plan made from what is there asks for nothing that must be refused, and its calls leave exactly the wanted containers running |
| UpRuns.SecondPlan | crates/collocate-compose/src/up.rs:266-282 | once all is up, planning again is a no-op if and only if no replica is under forced rotation |
| UpRuns.SecondUpIsNoop | crates/collocate-compose/src/up.rs:373-423 | after carrying the calls out, a plan without rotation is a no-op |
| UpRuns.EarlierServiceIsReady | crates/collocate-compose/src/up.rs:391-410 | however far up got, no replica is brought up before the touched replicas of every earlier service were waited for |
| UpRuns.DependenciesAreReady | crates/collocate-compose/src/up.rs:391-410 | with services in dependency order this holds for every declared dependency |
| Deploy.UpProject | crates/collocate-compose/src/up.rs:373-423 | up as a whole: no call unless the dependencies are known and acyclic; the calls made keep to the dependencies however far they get; success leaves exactly the wanted containers running |
| HttpBytes.LineRoundTrip | crates/collocate-remote/src/http.rs:236-252 | a written line is read back with exactly the bytes after it left |
| HttpLaws.LineExact | crates/collocate-remote/src/http.rs:236-252 | a line is taken exactly when a line feed follows at most 4097 other bytes, and what follows it is left |
| HttpLaws.TrimExact | crates/collocate-remote/src/http.rs:236-252 | trimming takes off the white space at both ends and nothing else |
| HttpBytes.SizeRoundTrip | crates/collocate-remote/src/http.rs:295-297 | a chunk size printed in hexadecimal is parsed back, for every 64-bit size |
| HttpBytes.BodyRoundTrip | crates/collocate-remote/src/http.rs:372-387 | for any chunks the encoded body means their concatenation and leaves exactly the bytes after the terminator |
| HttpLaws.TrailersSkipped | crates/collocate-remote/src/http.rs:298-305 | trailers are skipped up to the first empty line, and what follows is left |
| HttpLaws.BodyWithTrailers | crates/collocate-remote/src/http.rs:276-322 | an extension of the last chunk and trailers after it add nothing to the body |
| HttpLaws.ExtensionIgnored | crates/collocate-remote/src/http.rs:295-297 | a chunk size is read up to the semicolon |
| HttpLaws.OtherBytesRefused | crates/collocate-remote/src/http.rs:295-297 | nothing but hexadecimal digits is read as a size, at least one, after at most one plus sign |
| HttpBody.Buffered.Read | crates/collocate-remote/src/http.rs:30-44 | a read delivers a prefix of the unread bytes and leaves the rest, from the buffer or the source |
| HttpBody.Buffered.ReadHeadBytes | crates/collocate-remote/src/http.rs:60-82 | through any short reads: exactly the bytes up to the first empty line, nothing at a clean end, the two errors otherwise |
| HttpBody.FindEndOfPrefix | crates/collocate-remote/src/http.rs:56-58 | the end of a head does not move when more bytes arrive |
| HttpLaws.FindEndIsLeast | crates/collocate-remote/src/http.rs:56-58 | the end of a head is the least position after the bytes 13 10 13 10, if there is one |
| HttpLaws.HeadEndsWhereWritten | crates/collocate-remote/src/http.rs:390-398 | the end of a written head is found where its final empty line was written, whatever follows |
| HttpLaws.HeadThereAndBack | crates/collocate-remote/src/http.rs:60-82 | a head written line by line is read back whole through any source, and the following bytes stay unread; it is never refused while within the limit |
| HttpBody.Body.ReadLine | crates/collocate-remote/src/http.rs:236-252 | byte by byte: the first line as specified and exactly the bytes after it left, or an error |
| HttpBody.Body.Read | crates/collocate-remote/src/http.rs:276-322 | each read delivers a prefix of the body's meaning and leaves the meaning of the rest, under all three framings |
| HttpBody.Body.ReadAll | crates/collocate-remote/src/http.rs:254-267 | with any nonempty buffer: the whole body and exactly the bytes after it left, or an error for a malformed, cut or too large one |
| HttpBody.Sink.WriteChunk | crates/collocate-remote/src/http.rs:372-381 | appends the encoding of the chunk, nothing for an empty one |
| HttpBody.ThereAndBack | crates/collocate-remote/src/http.rs:254-387 | what is written in chunks is read back whole through any source, and the following bytes stay unread |
| Template.Scan | crates/collocate-compose/src/template.rs:34-54 | the loop over dollar signs gives the expansion and hands over the references in order |
| Template.References | crates/collocate-compose/src/template.rs:56-63 | lists the references, or the scan's error |
| Template.Resolve | crates/collocate-compose/src/template.rs:65-84 | the expansion with the values the context gives |
| Template.ResolvesIffAllKnown | crates/collocate-compose/src/template.rs:34-84 | expanding succeeds if and only if listing does and every listed reference has a value |
| Template.PrintRoundTrip | crates/collocate-compose/src/template.rs:34-54 | scanning printed literals (dollars doubled) and references gives the literals and values concatenated |
| TemplateLaws.LoneDollar | crates/collocate-compose/src/template.rs:47-50 | a dollar sign before anything but a dollar sign or a brace stands for itself, also at the end |
| TemplateLaws.ReferenceReplaced | crates/collocate-compose/src/template.rs:34-54 | a reference in braces is parsed, handed on and replaced by its value, and the first failure is the result |
| TemplateLaws.ReferencesSpelled | crates/collocate-compose/src/template.rs:20-32 | the spelling of the four kinds of references |
| TemplateLaws.ValuesExact | crates/collocate-compose/src/template.rs:65-84 | the value of each kind of reference: the secret, the first address, all addresses with commas, the address of the balancer; none for what is unknown |
| Template.ListingRoundTrip | crates/collocate-compose/src/template.rs:56-63 | and lists exactly the printed references in order |
| Template.ParseExact | crates/collocate-compose/src/template.rs:20-32 | a body parses to a reference if and only if it is that reference's spelling with a nonempty name without dots |
| Lifecycle.Daemon.DoLaunch | crates/collocated/src/daemon.rs:787-823 | a launched process is entered in both maps under a new token and its idle look is planned; a failed watch uses the token up and enters nothing |
| Lifecycle.Daemon.DoOnExit | crates/collocated/src/daemon.rs:832-859 | an exit forgets the life, records the code, answers all its waiters in order and plans relaunch or removal |
| Lifecycle.Daemon.DoStop | crates/collocated/src/daemon.rs:1254-1272 | a stop of a running container is deferred and marked once, of a stopped one answered at once |
| Lifecycle.Daemon.DoRun | crates/collocated/src/daemon.rs:1219-1240 | a container that cannot be launched is purged again |
| Lifecycle.Daemon.DoPidfd | crates/collocated/src/daemon.rs:1509-1522 | a readable token ends the life it belongs to, unless that is a child still to be waited for, and only a child has an exit code |
| Lifecycle.Daemon.DoExec | crates/collocated/src/daemon.rs:1381-1388 | a command run in a container renews its activity, plans the next look and takes a token |
| Lifecycle.Daemon.TakeDue | crates/collocated/src/daemon.rs:1556-1565 | the in-place loop takes out exactly the due tasks and keeps the order of both parts |
| Lifecycle.Daemon.DoTimer | crates/collocated/src/daemon.rs:1554-1590 | a tick runs the due tasks in order on the remaining schedule |
| LifecycleRuns.EveryRunKeepsTheBooks | crates/collocated/src/daemon.rs:832-859 | over every sequence of events the maps stay exact inverses, a retired token never returns, and what was deferred under a token is what was answered plus what still waits |
| LifecycleRuns.RequestsAreAnsweredOnce | crates/collocated/src/daemon.rs:832-859 | from start-up: under a token without a life every deferred request has been answered exactly once |
| LifecycleRuns.AnswersComeFromTheExit | crates/collocated/src/daemon.rs:843-849 | an event answers under a token exactly those who waited on the life it ends, and nobody under the others |
| Requests.EachRequestIsAnsweredByItsExit | crates/collocated/src/daemon.rs:832-859 | over every run from start-up: nothing is sent about a life before the event that ends it; that event sends each client one done for each of its stops and one exit with the code of that ending for each of its waits; nothing is sent later |
| Requests.RequestsWait | crates/collocated/src/daemon.rs:1254-1272 | a stop or a wait that meets a live container waits for its client under the token of that life, as what it is |
| Requests.WhoIsAnsweredAtOnce | crates/collocated/src/daemon.rs:1075-1083 | a request for a container without a life is answered at once |
| LifecycleRuns.LateWaitHearsTheSame | crates/collocated/src/daemon.rs:1075-1083 | waiters hear the code, stoppers hear it is done, and a later wait hears the same code |
| LifecycleRuns.ForgettingAStopChangesNothing | crates/collocated/src/daemon.rs:1039 | in every reachable state start and restart agree |
| LifecycleRuns.StoppedStaysDown | crates/collocated/src/restart.rs:14-23 | with no relaunch planned, a stopped container is down until somebody starts it, over every run |
| LifecycleRuns.StoppedComesBackExactly | crates/collocated/src/daemon.rs:1567-1580 | a stopped container returns at a tick (when launches succeed, not before the tick) if and only if its first effective due task is a relaunch |
| LifecycleRuns.StopMayBeUndone | crates/collocated/src/daemon.rs:1254-1260 | a run from start-up in which a stop is answered and the next tick starts the container |
| Restarts.ExitExact | crates/collocated/src/daemon.rs:832-859 | what an exit records and plans: the code, the failures in a row, a relaunch after its delay exactly when the policy and the count ask for it, removal exactly when asked for |
| Restarts.DelayDoubles | crates/collocated/src/restart.rs:7-12 | the delay of a relaunch starts at a tenth of a second and doubles up to a minute |
| Restarts.PolicyLimitsRelaunches | crates/collocated/src/restart.rs:14-23 | over every run from start-up whose lives are short: a container that is never to be relaunched has none planned, one limited to a number of failures at most that many |
| Restarts.RequestsExact | crates/collocated/src/daemon.rs:1034-1074 | what running, starting and removing answer and leave behind, with everything of a removed container purged |
| Restarts.LaunchExact | crates/collocated/src/daemon.rs:787-823 | a launch gives a new life under the next token with nobody waiting and no exit code |
| Restarts.AdoptExact | crates/collocated/src/daemon.rs:521-556 | an adopted life is not a child, and the record stays as it was |
| Restarts.TaskExact | crates/collocated/src/daemon.rs:1566-1590 | what a planned relaunch, removal or look at an idle container does, and when it does nothing |
| IdleReaping.EveryRunIsWatched | crates/collocated/src/daemon.rs:558-562 | over every run each live container with an idle timeout has the look its last activity called for still planned |
| IdleReaping.ATickEndsExactlyTheIdle | crates/collocated/src/daemon.rs:1581-1588 | at a tick of any run from start-up a life ends if and only if it has been idle for its timeout |
| Reconcile.Plan | crates/collocate-store/src/reconcile.rs:26-83 | the loops with their adopted and cleaned sets build the specified plan |
| Reconcile.PlanExact | crates/collocate-store/src/reconcile.rs:26-83 | an action is planned if and only if what was found warrants it |
| Reconcile.NamesExact | crates/collocate-core/src/net.rs:89-97 | the names of a container's link and tag, and which names count as ours |
| Reconcile.AdoptedIsLeftAlone | crates/collocate-store/src/reconcile.rs:32-81 | no adopted container, link or tag is removed, cleaned, killed or deleted |
| ReconcileRuns.CleanedExactly | crates/collocate-store/src/reconcile.rs:47-81 | how often each id is cleaned |
| ReconcileRuns.CleanedAtMostOnce | crates/collocate-store/src/reconcile.rs:47-81 | with distinct ids, at most once |
| ReconcileRuns.KilledBeforeRemoved | crates/collocate-store/src/reconcile.rs:51-55 | an unknown cgroup is removed right after it is killed |
| ReconcileRuns.SecondPlan | crates/collocate-store/src/reconcile.rs:26-83 | after carrying the plan out, the next plan holds exactly the adoptions again and the marking and cleaning of stopped persistent containers |
| ReconcileRuns.ReconcileOnce | crates/collocate-store/src/reconcile.rs:26-83 | carrying that next plan out changes nothing |
| CivilDate.FormulaCountsDays | crates/collocate-pebble/src/time.rs:1-9 | for every year, also negative ones, the closed formula is the number of days counted from 1970-01-01 |
| CivilDate.NextDayIsNextNumber | crates/collocate-pebble/src/time.rs:1-9 | the epoch is day zero and the following date has the following number |
| CivilDate.LaterDateLargerNumber | crates/collocate-pebble/src/time.rs:1-9 | day numbers keep the order of dates |
| CivilDate.EveryNumberHasItsDate | crates/collocate-pebble/src/time.rs:1-9 | every integer is the number of exactly one date |
| CivilDate.IntermediatesFit | crates/collocate-pebble/src/time.rs:2-8 | for years within twenty quadrillion of zero no intermediate value leaves 64 bits |
| CivilDate.FractionNanos | crates/collocate-pebble/src/time.rs:20-23 | the loop gives the first nine digits padded to nanoseconds, and nothing for a non-digit |
| Order.SortedArrangementUnique | crates/collocate-compose/src/plan.rs:91-93 | under a total order there is one sorted arrangement, so the sorting algorithm does not matter |

## Left out

- Kernel, network and process calls, TLS, registries, command line, YAML and JSON: parsed values and the outcome of each call are inputs.
- Real time: the present moment is an input; where a property needs it, it does not go backwards.
- Autoscaler.Scaler.Recommendation: metric values are reals, so rounding and infinities are not modelled.
- Autoscaler.Scaler.Step: requires that now plus the longest window fits 64 bits; the source adds without a check.
- Controller.Controller.Observe: how long a replica has been healthy is an input per replica; the table of first healthy times is not kept.
- Controller.Controller.TickService: whether a replica can be specified and in which revision, and whether each call is granted, are inputs; the events reported are not modelled.
- Controller.Controller.TickAll: the calls before the first turn are left out; a service whose wanted revision cannot be told has no input.
- Rollout.PlanStep: requires desired plus surge and the number of replicas to fit 32 bits; the source adds without a check.
- RolloutProgress.EveryRolloutCompletes: is about settled steps, in which everything started has become ready, nothing is draining and the delay has passed.
- RolloutSafety.EveryRunIsSafe: holds the desired count and the policy fixed and lets ready replicas stay ready; availability is not claimed of the `Recreate` strategy, which drains all old replicas at once.
- Ipam.ForServiceExact: the hash of the owner is an arbitrary number, and owners are opaque names; dotted addresses are numbers.
- Ipam.ParseGivesValidSubnet: the text of an address and its split at the slash are not modelled.
- Up.BringUp: the readiness polling of one service is one call that may fail; balancer registrations carry only a name; other projects' containers do not occur.
- Deploy.UpProject: secrets, addresses and images are settled before; replicas and forced services are inputs.
- UpRuns.PlanLeadsUp: names across services are distinct, every listed container can be acted on, and no stored hash carries the rotation mark.
- HttpBody.Body.Read: the source delivers bytes or its end; other I/O errors are left out, as is the choice of framing from the head.
- HttpBytes.LineRoundTrip: white space is trimmed as in ASCII; the wider Unicode spaces and the replacement of invalid UTF-8 are left out.
- Template.Resolve: addresses are given as text.
- Lifecycle.Daemon.DoStop: signals, kill deadlines and drain times are left out; the exit is its own event.
- Lifecycle.Daemon.DoPidfd: the ends of commands and probes, which have tokens of their own, are left out.
- Lifecycle.Daemon.DoRun: naming, default limits, validation and the choice of a base build, before the container is stored, are left out.
- Lifecycle.Daemon.DoLaunch: the last activity and the planned look are taken at one moment, where the source reads the clock twice; preparing the container and making it run are one outcome.
- Lifecycle.Daemon.DoTimer: health checks and the kill deadlines of the same tick are left out.
- Lifecycle.Daemon.DoAdopt: choosing the process and opening it are left out; adoption is of known containers that are not yet live, as at start-up.
- Lifecycle.Daemon.DoExec: the command itself and its own reply are left out.
- IdleReaping.ATickEndsExactlyTheIdle: launches during the tick do not happen before it.
- Reconcile.Plan: ids are their hexadecimal text, whose order is that of the bytes.
- CivilDate.FractionNanos: splitting the timestamp text, its time zone and the final sum are left out; day numbers beyond the stated years may overflow 64 bits.
- `down`, image, secret, firewall, health-probe and store handling: they would add members about single branches or foreign calls.
