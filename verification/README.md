# Fairness Governor: a verified model

This project models the Fairness Governor: the service that divides a window's
service among weighted subjects in a forest of groups, derives who is owed and who
is over, plans bounded corrections, and commits deficit and surplus carries to a
crash-safe store. It proves what the system promises about exact division, about
every decision, about every run of the governor, and about what survives a crash.

Loops that update variables are methods with loop invariants, records the source
updates in place are classes, and each method is tied to a specification function
or predicate about which the laws are proved. Exits the source writes for cases
that cannot happen stand in the model as `assert false`, so their unreachability
is part of what is verified.

## How it fits together

| part | modules |
|---|---|
| Widths, sums, sorted orders, greedy spending | Core, Sums, Ordering, Greedy |
| 128-bit arithmetic | Wide |
| Division of a whole, its laws, its answers read off the competitors | Allocation, Allocator, AllocationLaws, AllocationAnswers |
| Policy, group forest, both distribution passes, and what they entitle to | Policy, Validity, Forest, Distributor, Scatter, Distribution, Siblings |
| Evidence and eligibility | Evidence, Decision, Eligibility |
| Planning: per subject, budget, outcomes, intents | Planner, Budget, Verdicts |
| The evaluation, its laws, what it says, its determinism | Engine, EngineLaws, DecisionLaws, OneAnswer, Determinism |
| Carries over windows and runs | Accounting |
| Committing decisions; what durable accounting is made of | Commitment, CommitmentLaws, History |
| The governor's operations and runs of them | Lifecycle, LifecycleLaws, Runs, Governor, Fencing, Evaluation, Room, EvaluatedRuns |
| Bytes, digest, formats | Bytes, Digest, Record, Frame, Rows, AccountingCodec, EvidenceCodec, PolicyCodec, Layout |
| Crash-safe store, reopening, durable runs | Disk, Store, Opening, DurableRuns, Sessions |

The main results, strongest first:

- `Sessions.Session`: for any script of client actions, with the process dying at any
  file operation and any number of reopenings, the disk holds exactly the deeds done
  to the accounting and exactly the policies installed: windows strictly increasing
  (so none twice), one accounting generation each, policies ever newer, and
  everything acknowledged among them, and nothing committed in silence but at most one
  window for each action the process did not survive. Where renames tear, a record can be lost only
  by sinking for good (no usable file, no journalled backup), after which nothing
  serves it; where they are atomic none ever is.
- `DurableRuns.DurableCarries`, `History.ReplayedReflects`: whatever crashed and
  reopened, every carry on disk is exactly what the windows committed for its subject
  since it was last dropped make of nothing, saturation included.
- `Store.DurableStore.Recover`, `Store.CommitThenRecover`: a commit cut short anywhere,
  and recoveries cut short any number of times, leave exactly the old record or
  exactly the new one; the one way to lose a record is named, with its exact condition.
- `Evaluation.FencedOverRun`, `Runs.NeverAgain`, and the last clause of
  `Sessions.Session`: whatever interleaves, a decision that commits is applied to
  exactly the policy and carries it was computed from, and at most one decision per
  accounting generation commits.
- `Runs.RunMovesTotal`, `Runs.CarryInEveryRun`, `EvaluatedRuns.FullAuthorityRun`: the
  signed carry identity over every run, per subject and for the population, which is
  owed nothing in all when every committed decision had full authority.
- `Engine.EvaluateFairness` with `EngineLaws` and `Determinism.OneDecision`: in the
  bounded domain every evaluation succeeds, its plan balances within every cap,
  starving subjects come first, and the decision is the only one possible.
- `DecisionLaws`: the budget is as large as the policy allows
  (`DecisionLaws.BudgetIsMaximal`), and every number, outcome, reason and intent of a
  decision follows from what the policy declares and the evidence says.
- `Siblings`: in the policy's own terms, who competes with whom and what that entitles
  to: floors that fit are all honoured, level by level down to the subjects
  (`Siblings.EveryFloorReached`), those that do not go by obligation, and where none
  binds weights decide.
- `AllocationLaws`, `AllocationAnswers`: closure, floors, quota, order independence and
  monotonicity of the division in all three branches, and exactly who is raised, who
  pays, who is honoured and who is rounded up.
- `CommitmentLaws.CommitRecords`, `LifecycleLaws`: what each operation tells its caller
  and leaves on record, corrections and their cooldown included.
- Round trips and error detection for every format.

## What the code does where its comments say otherwise

- The overcommit flag is set exactly when the floors exceed the sum of the
  rounded-down shares (`src/eval/engine.cpp:381-401,440-441`). That can happen with
  floors that still fit the whole and nothing short; a comment in
  `tests/property/test_property_allocation.cpp` reads the flag as a shortfall.
  `AllocationLaws.OvercommitWithoutShortfall` gives the input, and
  `Allocation.OvercommitCondition` the exact condition.
- The sign of the identity at `include/fairness_governor/model/accounting.hpp:7-8` is
  not what the code keeps. Lines 118-124 are, and `Accounting.WindowCloses` proves it.
  The header's form holds of a run exactly when as much deficit as surplus was
  discarded (`Accounting.HeaderIdentityExactly`), so it is kept exactly by windows that
  do not saturate (`HeaderIdentityKept`) and lost at the first one that does
  (`HeaderIdentityFails`).
- Tie-break keys are not distinct for all identities (`Distributor.CompositeKeyCollides`
  says exactly which pairs collide). `OneAnswer.CollidingSiblings` gives two siblings
  either of which may get the unit; determinism is stated for policies without such
  siblings, as all with identities below 2^63 are (`OneAnswer.SmallIdsKeepKeys`).
- A commit does not look at the evidence generation again, and accepts a decision
  without any authority that names a new window. Such a commit moves no carry but
  uses the window up (`CommitmentLaws.UnauthorisedCommit`).
- Installing a policy is two durable commits. When a failure is reported, the policy is
  in memory exactly when the policy record holds it
  (`Governor.InstalledExactlyWhenHeld`); otherwise the installation is undone exactly,
  except that evidence held is gone once the new policy had moved the epoch
  (`Lifecycle.UndoneExactly`).
- Recovery whose restoring rename is refused still removes the journal. The record that
  stood is lost exactly when that removal succeeds (the contract of
  `Store.DurableStore.RestoreBackup`): the next recovery finds no journal and takes the
  backup away (`Store.RefusedRestoreLoses`). This takes a volume whose renames tear.
- On a volume whose renames can tear, a crash inside the very first commit of a kind
  can leave an unusable record and no backup; nothing was acknowledged then.
- The digest has the FNV-1a prime but not that algorithm's published 64-bit offset
  basis; no conformance is claimed.

## What is assumed

- A write that does not complete leaves some prefix of its data; a rename that
  reports failure changes nothing, and one that completed is durable although the
  result of the directory sync after it (`src/persist/store.cpp:297`) is not looked at;
  reads are reliable. A rename is atomic, or, for a volume marked so, may leave a strict
  prefix when the process dies inside it.
- The engine is given what the governor gives it: a policy that validation accepted
  and evidence that validation accepted. A commit that is not refused is defined for
  decisions whose signed differences of entitled and served units do not overflow.
- The digest of a decision's content is an arbitrary function; no collision
  resistance is assumed anywhere.
- Every operation of the governor is one step, as the state lock makes it.

## Model

| member | source | states |
|---|---|---|
| `Wide.MulWideExact` | include/fairness_governor/core/u128.hpp:33-54 | the four-limb product is the true 128-bit product |
| `Wide.DivWide` | include/fairness_governor/core/u128.hpp:64-95 | quotient times denominator plus remainder is the numerator with the remainder below the denominator, for every denominator, carry-out included |
| `Wide.MulDiv` | include/fairness_governor/core/u128.hpp:104-120 | exact floor and remainder; overflow is reported exactly when the quotient needs more than 64 bits |
| `Wide.AfterInvariant` | include/fairness_governor/core/u128.hpp:64-95 | after each round of the restoring division the quotient words spell, and the remainder completes, the division of the numerator's leading bits |
| `Ordering.Sort` | src/eval/engine.cpp:411-421 | an unstable sort: the same indices in non-descending comparator order |
| `Ordering.SortedOrderIsUnique` | src/eval/engine.cpp:411-421 | with distinct comparator keys only one order is sorted |
| `Greedy.GrantAlong` | src/eval/engine.cpp:454-458 | spends a budget along an order, each position taking the least of its cap and what remains; the rest is returned |
| `Greedy.GrantAt` | src/eval/engine.cpp:454-458 | what a position receives depends only on the caps before it |
| `Greedy.BudgetIsSpent` | src/eval/engine.cpp:422-439 | an order over every non-zero cap spends the least of the budget and all caps |
| `Greedy.FullBeforeAnything` | src/eval/engine.cpp:958-966 | whoever receives anything has every predecessor filled to its cap |
| `Allocator.SumWeights` | src/eval/engine.cpp:350-358 | the weight sum; out of range exactly when a competitor without weight comes before the sum overflows, and overflow otherwise |
| `Allocator.ShareOut` | src/eval/engine.cpp:365-379 | rounded-down weighted shares and residues; their total never exceeds the whole |
| `Allocator.WeighFloors` | src/eval/engine.cpp:381-393 | how far floors lie above and below the shares; overflow only where the floors' excess does not fit 64 bits |
| `Allocator.ReallocateFloors` | src/eval/engine.cpp:402-439 | donors pay exactly the unmet floors; the exit for an unpaid rest is unreachable |
| `Allocator.GrantGuarantees` | src/eval/engine.cpp:442-458 | floors granted in order of obligation while the whole lasts |
| `Allocator.HandOutRounding` | src/eval/engine.cpp:498-513 | the rounding units go to the largest residues; every index used is in range |
| `Allocator.AllocateOvercommitted` | src/eval/engine.cpp:441-485 | guarantees first, then weighted shares of the rest, then rounding units |
| `Allocator.ConfirmTotal` | src/eval/engine.cpp:515-523 | adds the allocations up to the whole; neither exit of the closing check can be taken |
| `Allocator.AllocateWhole` | src/eval/engine.cpp:342-527 | succeeds exactly for a non-empty, bounded set of positive weights whose sums fit 64 bits; the answer is an allocation in the sense of the laws below; every internal exit is unreachable |
| `Allocation.LeftoverBounds` | src/eval/engine.cpp:376-379 | fewer rounding units are left than there are competitors |
| `Allocation.ShareAndResidue` | src/eval/engine.cpp:365-379 | the whole times a weight is the weight sum times the share plus the residue, which is below the weight sum |
| `Allocation.AllocationCloses` | src/eval/engine.cpp:515-523 | every branch hands out exactly the whole |
| `Allocation.OvercommitCondition` | src/eval/engine.cpp:399-441 | overcommit exactly when floors exceed the rounded-down shares in sum; plain exactly when no floor exceeds its share |
| `Allocation.FittingFloorsAreMet` | src/eval/engine.cpp:441-495 | overcommitted but fitting floors are all met and nothing is short |
| `Allocation.ExcessFloorsShareTheWhole` | src/eval/engine.cpp:441-495 | floors above the whole: nobody passes its floor and the shortfall is the excess |
| `AllocationLaws.Closes` | src/eval/engine.cpp:342-527 | allocations sum exactly to the whole |
| `AllocationLaws.FloorsAreExact` | src/eval/engine.cpp:381-496 | floors fitting the whole are all met; otherwise none is exceeded and the shortfall is floor sum minus whole |
| `AllocationLaws.StrongerObligationsFirst` | src/eval/engine.cpp:445-458 | a weaker obligation gets units only after every stronger one has its full floor |
| `AllocationLaws.OvercommitWithoutShortfall` | src/eval/engine.cpp:440-441 | an input every answer to which reports overcommit and nothing short, though its floors fit |
| `AllocationLaws.Quota` | src/eval/engine.cpp:365-379 | without binding floors an allocation is its exact share rounded down or up, and rounded up only with a residue |
| `AllocationLaws.EqualWeightsDifferByOne` | src/eval/engine.cpp:498-513 | equal weights differ by at most one unit |
| `AllocationLaws.OneAllocation` | src/eval/engine.cpp:411-509 | with distinct keys the four comparators leave one possible allocation |
| `AllocationLaws.OrderIndependence` | src/eval/engine.cpp:411-509 | permuting the competitors permutes allocations and binding flags identically, in every branch |
| `AllocationLaws.MonotoneInWeight` | src/eval/engine.cpp:365-513 | without floors, raising one weight never lowers that competitor's allocation |
| `AllocationLaws.NoFloorsIsPlain` | src/eval/engine.cpp:399-400 | no floors means the plain branch |
| `AllocationAnswers.FloorsWithinReach` | src/eval/engine.cpp:399-439 | with floors within the shares each competitor holds its share raised to its floor, less what it gave, and its rounding unit; donors give exactly what is needed, all they have above their floors, the furthest above first, then the weaker obligation, then the smaller identity |
| `AllocationAnswers.FloorsPastShares` | src/eval/engine.cpp:441-485 | with floors past the shares each holds its guarantee, as much as the whole allows by obligation, floor size and identity, its weighted share of the rest, and its rounding unit |
| `AllocationAnswers.UnitsGoOut` | src/eval/engine.cpp:498-513 | exactly the units lost to rounding go out, one each, none to a smaller residue before a larger one |
| `AllocationAnswers.BindingExactly` | src/eval/engine.cpp:430-495 | a floor is flagged as binding exactly when it lies above the share and is met |
| `Policy.CheckDepth` | src/model/policy.cpp:124-142 | the walk accepts exactly the groups whose root is within the depth limit, and terminates on cycles |
| `Policy.CheckGroups` | src/model/policy.cpp:85-109 | accepts exactly well-formed groups with distinct identities, and tells the first fault of the first group at fault |
| `Policy.CheckSubjects` | src/model/policy.cpp:147-201 | accepts exactly well-formed subjects of existing groups with distinct identities, and tells the first fault of the first subject at fault |
| `Policy.GroupFloorTotal` | src/model/policy.cpp:229-245 | the sum of the child groups' floors; the bounded counts keep it in 64 bits |
| `Policy.SubjectFloorTotal` | src/model/policy.cpp:229-245 | the sum of the child subjects' floors; the bounded counts keep it in 64 bits |
| `Policy.CheckWeights` | src/model/policy.cpp:203-220 | accepts exactly when every group governs a subject; the weight sums' overflow exits are unreachable |
| `Policy.CheckFloors` | src/model/policy.cpp:222-250 | accepts exactly when every declared group floor covers its direct children's |
| `Policy.ValidatePolicy` | src/model/policy.cpp:31-254 | validation accepts exactly the valid policies, and tells the first stage that refuses and what it says |
| `Validity.ValidExactly` | src/model/policy.cpp:31-254 | valid means: numbers in range, identities distinct, every reference to an existing group, chains at most eight deep, no group without a subject, and declared floors covering their direct children |
| `Validity.HeaderTold` | src/model/policy.cpp:32-80 | the ranges of a policy header and which failure is told first |
| `Validity.GroupTold` | src/model/policy.cpp:85-109 | the ranges of a group and which failure is told first |
| `Validity.SubjectTold` | src/model/policy.cpp:147-201 | the ranges of a subject and which failure is told first |
| `Distributor.CompositeKeyCollides` | src/eval/engine.cpp:25-27 | which distinct competitors share a tie-break key |
| `Distributor.EffectiveShareWeightIs` | src/eval/engine.cpp:330-340 | the weight scaled exactly by the modifier, never below one |
| `Distributor.WeightBounds` | src/eval/engine.cpp:330-340 | effective weights of the declared domain stay between one and its largest product |
| `Distributor.MeasureDepths` | src/eval/engine.cpp:100-113 | depths count groups from the root; refused exactly when some chain is too long |
| `Distributor.LinkChildren` | src/eval/engine.cpp:87-129 | each group's children are the groups (or subjects) naming it, in policy order |
| `Distributor.BuildTree` | src/eval/engine.cpp:74-140 | the tree of the policy's forest; never fails for a valid policy |
| `Scatter.Pass.DivideNode` | src/eval/engine.cpp:171-207 | a group's allocation is divided among its children and nothing else moves |
| `Scatter.Pass.Scatter` | src/eval/engine.cpp:171-219 | everything below a group, each once, is divided; nothing elsewhere changes; in the bounded domain it succeeds |
| `Scatter.Pass.Run` | src/eval/engine.cpp:221-265 | one pass divides every group of the forest exactly once |
| `Forest.DistributionConserves` | src/eval/engine.cpp:171-265 | every group is the sum of its children and the subjects share exactly the whole |
| `Forest.ChildrenSumToGroup` | src/eval/engine.cpp:171-219 | a divided group's children sum to it |
| `Distribution.ValidIsAffordable` | include/fairness_governor/core/limits.hpp:15-58 | every division a valid policy needs is inside the allocator's domain |
| `Distribution.ValidHasNoEmptyGroup` | src/model/policy.cpp:203-220 | no group of a valid policy is left without someone to divide among |
| `Distribution.RunPass` | src/eval/engine.cpp:221-265 | a valid policy's pass succeeds and is a complete distribution |
| `Distribution.Distribute` | src/eval/engine.cpp:221-265 | both passes of a valid policy succeed and are complete distributions of the same whole, among the competitors that `Siblings.ChildrenCompete` names |
| `Distribution.EntitlementsSumToWhole` | src/eval/engine.cpp:767-781 | entitlements, with and without modifiers, sum to the whole |
| `Siblings.ChildrenCompete` | src/eval/engine.cpp:142-207 | every group, and the root, is divided among exactly its direct children, each with the policy's own floor, obligation, identity and weight, the modifier applied in the effective pass only |
| `Siblings.FloorsHonoured` | src/eval/engine.cpp:142-207 | where the children's floors fit, each child holds at least its own; where not, none more |
| `Siblings.StrongerChildFirst` | src/eval/engine.cpp:445-458 | where they do not fit, a child holds anything only once each child that outranks it has its full floor |
| `Siblings.EveryFloorReached` | src/model/policy.cpp:222-250 | if every group declares a floor and the roots' fit the whole, every group and subject holds at least its floor |
| `Siblings.SharesFollowWeights` | src/eval/engine.cpp:330-340 | where no floor lies above its share, every child is within one unit of its exact weighted share |
| `Siblings.BindingMeans` | src/eval/engine.cpp:196-204 | a subject's floor is flagged exactly when it lies above the weighted share and is held |
| `Evidence.CheckObservations` | src/model/evidence.cpp:49-77 | accepts exactly sound observations, and tells the fault of the first that is not; the bounded count keeps the total in 64 bits |
| `Evidence.FindDuplicate` | src/model/evidence.cpp:79-82 | sorting and comparing neighbours finds a repeated subject exactly when there is one |
| `Validity.SnapshotTold` | src/model/evidence.cpp:22-51 | the ranges of a snapshot header and which failure is told first |
| `Validity.ObservationTold` | src/model/evidence.cpp:57-77 | the ranges of an observation and which failure is told first |
| `Evidence.ValidateEvidence` | src/model/evidence.cpp:21-91 | validation accepts exactly the valid snapshots, declared digest included, and tells what fails first |
| `Evidence.ComputeObservationDigest` | src/model/evidence.cpp:93-118 | the mixed sum and exclusive or of the per-observation digests |
| `Evidence.DigestedExactly` | src/model/evidence.cpp:93-118 | two observations are digested alike exactly if they agree in identity, generation, service, both streaks and both class identities |
| `Evidence.DigestIgnoresOrder` | src/model/evidence.cpp:94-98 | any rearrangement of the observations has the same digest |
| `Eligibility.EligibleExactly` | src/eval/engine.cpp:629-703 | a request is eligible exactly when its evidence is the one named, of this epoch and window, uncommitted, seen and fresh |
| `Eligibility.IneligibleBecause` | src/eval/engine.cpp:629-703 | which reason an ineligible request is told, in the order things are checked |
| `Eligibility.HeardExactly` | src/eval/engine.cpp:719-757 | a subject is heard exactly when observed and in agreement on generation, references and accounting |
| `Planner.PrepareAll` | src/eval/engine.cpp:788-900 | the per-subject loops yield each subject's plan; they stop exactly where a carry would overflow |
| `Planner.AuthorityExactly` | src/eval/engine.cpp:628-757 | authority means exactly named, fresh and recognised |
| `Planner.NoAuthorityNoPlan` | src/eval/engine.cpp:705-718 | without authority nothing is measured and the outcome is unknown or stale |
| `Planner.UnknownExactly` | src/eval/engine.cpp:705-736 | without authority a subject is unknown exactly when only the observation is missing and the request asks for that; else stale |
| `Planner.UnrecognisedBecause` | src/eval/engine.cpp:719-757 | which disagreement a subject without authority is told |
| `Planner.PreparedNumbers` | src/eval/engine.cpp:788-838 | entitlement less service is deficit less surplus, one-sided; the carry ahead is the recorded carry after exactly that net |
| `Planner.OwedExactly` | src/eval/engine.cpp:800-815 | what is owed is the window's deficit and the recorded one as far as the carry bound lets it count |
| `Planner.UnpreparedExactly` | src/eval/engine.cpp:788-838 | in the bounded domain preparing fails exactly where the carry of a subject with authority has no room |
| `Planner.PreparedWithinBounds` | src/eval/engine.cpp:868-900 | demand and reducible units stay within caps; reduction never reaches below entitlement nor a protected floor; withheld is what protection holds back |
| `Planner.StarvingExactly` | src/eval/engine.cpp:816-866 | each streak is the longer of the producer's and the governor's own, which grows by one while its cause lasts; starving, and its reason, mean a declared limit is reached |
| `Planner.CoolingExactly` | src/eval/engine.cpp:875-882 | a subject cools down exactly while its last correction lies fewer windows back than the cooldown, unless it starves |
| `Planner.DemandExactly` | src/eval/engine.cpp:884-887 | a unit is demanded exactly within what is owed, the subject's cap and the global one, above the band and not cooling down |
| `Planner.ReducibleExactly` | src/eval/engine.cpp:889-900 | a unit may be taken back exactly within surplus and cap and above a protected floor; what protection keeps is withheld |
| `Planner.RoomyPrepares` | src/eval/engine.cpp:788-838 | in the bounded domain no subject's preparation overflows |
| `Planner.StreaksBounded` | src/eval/engine.cpp:560-567 | streaks saturate where the durable record can hold them |
| `Budget.AddTotals` | src/eval/engine.cpp:903-912 | pool, demand and withheld totals; their overflow exits are unreachable |
| `Budget.AuthorizeBudget` | src/eval/engine.cpp:914-924 | the budget whose size `Budget.AuthorizedExactly` states; the basis-point product cannot overflow |
| `Budget.AuthorizedExactly` | src/eval/engine.cpp:914-924 | a unit is authorized exactly when the pool holds it, it is demanded, and it passes neither the unit nor the basis-point limit |
| `Budget.GrantBoth` | src/eval/engine.cpp:936-999 | both greedy passes use the authorized budget up; their internal exits are unreachable |
| `Budget.AddUnmet` | src/eval/engine.cpp:1007-1017 | total unmet demand; it cannot overflow because entitlements share one whole |
| `Budget.BalancedBoundedPlan` | src/eval/engine.cpp:914-999 | augmented and reduced units both equal the authorized budget, within the policy's unit and basis-point caps and every subject's ask |
| `Budget.StarvingServedFirst` | src/eval/engine.cpp:936-966 | if a subject that does not starve gains, every starving one has its full demand |
| `Budget.StrongerDemandFirst` | src/eval/engine.cpp:945-966 | of two subjects, starving first, then larger demand, stronger obligation, smaller identity, the later gains only after the earlier is filled |
| `Budget.LargerSurplusFirst` | src/eval/engine.cpp:979-996 | of two subjects, larger surplus first, then weaker obligation, smaller identity, the later gives only after the earlier gave all it may |
| `Verdicts.VerdictMeans` | src/eval/engine.cpp:1037-1090 | exactly when each of the eight outcomes is given |
| `Verdicts.ReasonMeans` | src/eval/engine.cpp:1046-1090 | the reason given with each outcome |
| `Verdicts.BlockedMeans` | src/eval/engine.cpp:1025-1036 | a subject is blocked exactly when the plan is and it lacks more than its own cap explains |
| `Verdicts.Worst` | src/eval/engine.cpp:1269-1275 | the aggregate is the outcome of a worst subject |
| `Verdicts.WorstIs` | src/eval/engine.cpp:1269-1275 | an outcome is the population's exactly when some subject has it and none a graver one |
| `Verdicts.OppositeIntentsDiffer` | src/eval/engine.cpp:569-579 | the two directions of one correction never share an identity, but for the stand-in for zero |
| `Verdicts.IdentityTells` | src/eval/engine.cpp:569-579 | an intent's identity is drawn from window, subject, direction and attempt, all four |
| `Verdicts.EmitIntents` | src/eval/engine.cpp:1188-1252 | one intent per moving subject along the order, numbered on; the intent bound is never reached |
| `Verdicts.IntentsSay` | src/eval/engine.cpp:1195-1252 | one intent for each subject along the order that moves anything, in order, with its units, bound, reason and flags |
| `Verdicts.IntentsNumbered` | src/eval/engine.cpp:1188-1194 | each intent moves something and takes the next generation, saturating |
| `Verdicts.IntentsMatchPlan` | src/eval/engine.cpp:1195-1252 | intents of each direction total that direction's units |
| `Engine.AddServed` | src/eval/engine.cpp:767-775 | the whole is the authoritative service and never overflows |
| `Engine.EvaluateFairness` | src/eval/engine.cpp:585-1278 | every decision is the one its distribution, plans and grants determine; in the bounded domain there always is one, and failure means exactly a carry without room |
| `EngineLaws.DecisionBalances` | src/eval/engine.cpp:914-1252 | summary, subjects and intents agree on one amount augmented and reduced, within every cap |
| `EngineLaws.SubjectBounds` | src/eval/engine.cpp:868-999 | per subject: caps respected, no reduction below entitlement or protected floor |
| `EngineLaws.StarvationFirst` | src/eval/engine.cpp:936-966 | starving subjects are granted their capped effective deficit before anyone else gains |
| `EngineLaws.BothWaysMeans` | src/eval/engine.cpp:868-999 | a subject both augmented and reduced was over-served now and owed from before |
| `EngineLaws.StateNumbers` | src/eval/engine.cpp:788-838 | a state shows its share, service, one-sided difference and the carry committing would leave |
| `EngineLaws.PopulationBalances` | src/eval/engine.cpp:767-816 | with authority over everyone, entitlements sum to service and population deficit equals population surplus |
| `EngineLaws.AuthorityOfState` | src/eval/engine.cpp:700-760 | a state has authority exactly when its evidence does, and is otherwise unknown or stale with nothing assigned |
| `EngineLaws.IneligibleProposesNothing` | src/eval/engine.cpp:705-718 | an ineligible request authorizes nothing and emits no intent |
| `DecisionLaws.BudgetIsMaximal` | src/eval/engine.cpp:902-924 | a unit is moved exactly when the pool holds it, it is demanded, and both policy limits allow it |
| `DecisionLaws.TotalsMean` | src/eval/engine.cpp:902-929 | pool, demand, withheld and unsatisfied units are the sums over the subjects |
| `DecisionLaws.FlagsMean` | src/eval/engine.cpp:926-935 | which limit stopped the plan, whether protection blocked it, whether authority was missing |
| `DecisionLaws.StateReads` | src/eval/engine.cpp:1093-1124 | a subject's state shows its plan, its grant, both passes' entitlements and its group's; without authority no amount |
| `DecisionLaws.VerdictReads` | src/eval/engine.cpp:1025-1090 | a subject's outcome and reason follow from its plan, its grant and whether the plan was blocked |
| `DecisionLaws.PopulationOutcome` | src/eval/engine.cpp:1269-1275 | the decision's outcome is the gravest of its subjects' |
| `DecisionLaws.IntentsRead` | src/eval/engine.cpp:1188-1252 | one intent for each subject that gains, then for each that gives, in the order granted, saying what its plan says |
| `DecisionLaws.IntentsAreNumbered` | src/eval/engine.cpp:1188-1194 | intents are numbered on from the last committed generation, saturating |
| `DecisionLaws.EntitlementsHonourFloors` | src/eval/engine.cpp:142-207 | where guarantees reach down the whole tree, every subject with authority is entitled to its floor |
| `OneAnswer.OneSpread` | src/eval/engine.cpp:171-265 | with distinct keys a whole has one distribution over a forest |
| `Determinism.OneDecision` | include/fairness_governor/eval/governor.hpp:235-237 | identical contexts yield identical decisions although the sorts are unstable, where no two siblings share a tie-break key |
| `OneAnswer.SmallIdsKeepKeys` | src/eval/engine.cpp:25-27 | identities below the key bit leave no siblings sharing a key |
| `OneAnswer.CollidingSiblings` | src/eval/engine.cpp:504-509 | two subjects that share a key: either may get the rounding unit |
| `Accounting.ApplyWindowCarry` | src/model/accounting.cpp:24-76 | the step-by-step update computes the specified carry, refuses exactly on overflow, and reports credit, debit and saturation |
| `Accounting.WindowCloses` | src/model/accounting.cpp:24-76 | the signed carry moves by exactly the net, saturation included |
| `Accounting.WindowClampsBalance` | src/model/accounting.cpp:24-76 | in one-sided form a window is a clamped addition |
| `Accounting.WindowNeverOverflows` | src/model/accounting.cpp:24-76 | inside the bounded domain a window always applies |
| `Accounting.RunCloses` | include/fairness_governor/model/accounting.hpp:118-124 | over any run of windows the signed carry sums the nets |
| `Accounting.HeaderIdentityExactly` | include/fairness_governor/model/accounting.hpp:7-8 | the identity as the header writes it holds of a run exactly when both discards are equal |
| `Accounting.HeaderIdentityKept` | include/fairness_governor/model/accounting.hpp:7-8 | while it holds, a window keeps it exactly if it does not saturate |
| `Accounting.HeaderIdentityFails` | include/fairness_governor/model/accounting.hpp:7-8 | it fails of any first window whose net exceeds the bound |
| `Accounting.DiscardsMeanSaturation` | src/model/accounting.cpp:24-76 | nothing was discarded exactly when no running total left its bound |
| `Accounting.UnsaturatedRun` | src/model/accounting.cpp:24-76 | until saturation the carry is the positive or negative part of the sum |
| `Accounting.WindowOrderDoesNotMatter` | src/model/accounting.cpp:24-76 | unsaturated windows leave the same carry in any order |
| `Accounting.AccountingCloses` | src/model/accounting.cpp:78-109 | the checked closure test has no false positive and is exact while the magnitudes fit |
| `Commitment.AddIntents` | src/eval/governor.cpp:557-572 | both directions' totals, refused exactly when one passes 64 bits |
| `Commitment.CheckDecision` | src/eval/governor.cpp:525-575 | the refusals of a commit, in order |
| `Commitment.ApplyAll` | src/eval/governor.cpp:596-637 | states applied one after the other; the first that cannot be applied fails the whole |
| `Commitment.PrepareCommit` | src/eval/governor.cpp:520-660 | the accounting a commit would make durable, or its refusal |
| `CommitmentLaws.CommitMovesCarry` | src/eval/governor.cpp:596-637 | a commit takes each subject's carry through exactly its own windows |
| `CommitmentLaws.CommitAppliesNet` | src/eval/governor.cpp:619-629 | a subject named once moves by exactly its net, and no other carry moves |
| `CommitmentLaws.CommitMovesTotal` | src/eval/governor.cpp:596-637 | the population's signed carry and discards move by the decision's nets |
| `CommitmentLaws.CommitKeepsOrder` | src/eval/governor.cpp:596-648 | identities stay distinct, carries bounded, and one-sided if they were |
| `CommitmentLaws.UnauthorisedCommit` | src/eval/governor.cpp:596-599 | a decision without authority commits without moving a carry, but uses its window up |
| `CommitmentLaws.CommitRecords` | src/eval/governor.cpp:596-648 | what an accepted commit records of a subject: a window and its service for each state, the last streaks, and the newest correction proposed with the decision's window if newer than the one on record, else what it had |
| `CommitmentLaws.CommitHeads` | src/eval/governor.cpp:650-660 | policy, epoch, writer, window, the next accounting generation and the newest intervention generation of an accepted commit |
| `CommitmentLaws.LetThroughExactly` | src/eval/governor.cpp:525-574 | a decision is let through exactly from this incarnation, for present policy, epoch and accounting, a later window, and coherent content |
| `CommitmentLaws.RefusedBecause` | src/eval/governor.cpp:525-574 | which refusal is told |
| `CommitmentLaws.StateApplies` | src/eval/governor.cpp:596-636 | a state applies exactly if the policy governs its subject and its record has room; which failure is told |
| `CommitmentLaws.CommitsExactly` | src/eval/governor.cpp:596-663 | a decision let through commits exactly if its states apply in turn and the generation can advance |
| `CommitmentLaws.SignedReading` | src/eval/governor.cpp:619-620 | the signed reading of a 64-bit count |
| `History.GovernsExactly` | src/eval/governor.cpp:297-305 | a policy governs an entry exactly when it has its subject at its generation |
| `History.KeptEntries` | src/eval/governor.cpp:297-305 | the entries kept on reopening are exactly the governed ones |
| `History.KeptCarry` | src/eval/governor.cpp:297-305 | reopening leaves a governed subject its carry and drops any other's |
| `History.ReplayedOrderly` | src/eval/governor.cpp:596-648 | however commits and reopenings alternate, identities stay distinct, carries bounded and one-sided |
| `History.ReplayedCarries` | src/eval/governor.cpp:596-648 | every carry is what the subject's windows since it was last dropped make of nothing |
| `History.ReplayedReflects` | src/model/accounting.cpp:24-76 | so it sums their nets, saturation included, and is their plain positive or negative part exactly until saturation |
| `History.ReplayedTotal` | src/eval/governor.cpp:596-648 | the population's signed carry is the nets committed less what dropped subjects took with them |
| `Lifecycle.TrimTo` | src/eval/governor.cpp:467-476 | evicts smallest keys until the bound holds |
| `Lifecycle.TrimKeepsLargest` | src/eval/governor.cpp:467-476 | eviction stops at the bound and removes only keys below all it keeps |
| `Lifecycle.IdentityKeyOrder` | src/eval/governor.cpp:424-425 | evidence identities are compared by id, then generation |
| `Lifecycle.SecondArrival` | src/eval/governor.cpp:423-438 | evidence that arrives again is ignored if equal and contradictory if not, while its identity is remembered |
| `Lifecycle.SequencesAdvance` | src/eval/governor.cpp:440-465 | remembered sequences and staged generations never go backwards |
| `Lifecycle.InstallConsistent` | src/eval/governor.cpp:335-378 | installing, or undoing a failed install, keeps the governor's invariant |
| `Lifecycle.UndoneExactly` | src/eval/governor.cpp:352-372 | a failed install leaves everything as it was, except exactly the evidence discarded by a moved epoch |
| `LifecycleLaws.IngestTells` | src/eval/governor.cpp:403-446 | exactly when valid evidence is staged or ignored, and each refusal's own condition, in order |
| `LifecycleLaws.IngestLeaves` | src/eval/governor.cpp:447-478 | what staging remembers and evicts; refused or ignored evidence leaves all as it was |
| `LifecycleLaws.AnyByteContradicts` | src/eval/governor.cpp:423-429 | the remembered digest changes with any byte of the snapshot |
| `LifecycleLaws.InstancesApart` | src/eval/governor.cpp:438-441 | two instances of one producer have separate sequences |
| `LifecycleLaws.InstallTells` | src/eval/governor.cpp:335-351 | a valid policy is installed exactly if of this identity, newer, and of no earlier epoch; which refusal is told |
| `LifecycleLaws.InstallLeaves` | src/eval/governor.cpp:352-364 | what installing changes, and that it changes nothing else |
| `LifecycleLaws.EpochTells` | src/eval/governor.cpp:380-393 | the epoch moves exactly to a later one and takes the evidence with it |
| `LifecycleLaws.EpochUndoneLeaves` | src/eval/governor.cpp:393-401 | a failed advance restores everything but evidence |
| `LifecycleLaws.EvaluationReads` | src/eval/governor.cpp:497-515 | what an evaluation reads of the governor |
| `Governor.FairnessGovernor.IngestEvidence` | src/eval/governor.cpp:403-478 | valid evidence is staged exactly if admitted, for an open window, new, in sequence and newest, each other case told its own status (`LifecycleLaws.Tells`); refused evidence changes nothing; one step of a run |
| `Governor.FairnessGovernor.InstallPolicy` | src/eval/governor.cpp:335-378 | success means policy and accounting durable; on any return memory has the new policy or the undone old one, and the policy record exactly that; a crash leaves old or new of each |
| `Governor.InstalledExactlyWhenHeld` | src/eval/governor.cpp:365-376 | after an installation that returned, whatever it reported, the new policy is in memory exactly when the policy record holds it |
| `Governor.FairnessGovernor.AdvanceEpoch` | src/eval/governor.cpp:380-401 | the epoch moves durably or not at all; staged evidence is gone either way |
| `Governor.FairnessGovernor.Commit` | src/eval/governor.cpp:520-669 | all of a decision's accounting durably, or nothing changed; what is neither refused here nor by the store commits unless a file operation fails; one step of a run |
| `Governor.FairnessGovernor.Shutdown` | src/eval/governor.cpp:671-681 | stops accepting work and drops staged evidence, idempotently |
| `Runs.RunConsistent` | src/eval/governor.cpp:335-669 | every operation, durable or failing, keeps the governor's invariant |
| `Runs.RunEvolves` | src/eval/governor.cpp:335-669 | generations only grow, and policy and carries change only with theirs |
| `Runs.CommitAdvances` | src/eval/governor.cpp:650-660 | a commit raises the accounting generation by one and moves to a later window |
| `Runs.NeverAgain` | src/eval/governor.cpp:536-546 | after a commit, no decision of its generation and no passed window ever commits |
| `Runs.RunMovesTotal` | src/eval/governor.cpp:596-669 | over any run the population's signed carry changes by exactly the committed nets |
| `Runs.RunMovesCarry` | src/eval/governor.cpp:596-669 | over any run each subject's carry goes through exactly its committed windows |
| `Runs.CarryInEveryRun` | src/model/accounting.cpp:24-76 | from empty accounting a carry is always one-sided, sums its nets, and is their plain positive or negative part exactly until saturation |
| `Runs.BalancedRun` | src/eval/governor.cpp:596-669 | committed nets that each sum to zero keep the population's signed carry zero |
| `EvaluatedRuns.FullAuthorityRun` | src/eval/governor.cpp:596-669 | over any run whose committed decisions were evaluated with authority over everyone, the population is owed nothing in all |
| `Room.CommitSpends` | src/model/accounting.cpp:24-76 | what one committed window can discard of a carry |
| `EvaluatedRuns.RoomLasts` | include/fairness_governor/core/limits.hpp:15-58 | from empty accounting, 1023 evaluated decisions can be committed before any carry could lack room |
| `Evaluation.Evaluate` | src/eval/governor.cpp:497-518 | the decision for the live state, changing nothing; it fails only stopped or where a carry has no room, never in the bounded domain |
| `Evaluation.AcceptedMeansCurrent` | src/eval/governor.cpp:520-546 | a commit that is accepted applies to exactly what was evaluated, and leaves the projected carry |
| `Evaluation.FencedOverRun` | src/link/link.cpp:487-517 | the same across any operations interleaved between evaluating and committing |
| `Evaluation.EvaluatedIsCommittable` | src/eval/governor.cpp:619-636 | an evaluated decision's counts and streaks are within what commit and record hold |
| `Evaluation.FullAuthorityBalances` | src/eval/governor.cpp:619-620 | a decision with authority over everyone commits nets that sum to zero |
| `Evaluation.EvaluatedIsAnchored` | src/eval/governor.cpp:520-546 | in whatever state the governor has come to, an evaluated decision is refused or leaves the carries it projected |
| `Evaluation.Consult` | src/eval/governor.cpp:497-518 | a client is given the decision the state justifies for its request, always in the bounded domain until the governor stops |
| `Opening.OpenPolicy` | src/eval/governor.cpp:212-265 | the newer of the durable and the configured policy serves; a newer configured one is made durable first; the disk is otherwise untouched |
| `Opening.NeverRolledBack` | src/eval/governor.cpp:235-247 | what serves is as new as the durable policy, and is the durable policy where that is newer |
| `Opening.ServesExactly` | src/eval/governor.cpp:212-265 | which of the durable and the configured policy serves, and when neither can |
| `Opening.ConfigTells` | src/eval/governor.cpp:160-172 | which configurations can serve, and what is told of the others |
| `Opening.RecoverBoth` | src/eval/governor.cpp:196-210 | recovery that succeeds brings each kind to what stood of it, unless that has sunk; undisturbed it succeeds exactly if neither kind is beyond repair and leaves no companion file |
| `Opening.OpenAccounting` | src/eval/governor.cpp:266-311 | memory is the durable accounting with exactly the entries the policy governs, its epoch never older; it can be exactly when nothing is recorded or the record decodes |
| `Opening.Open` | src/eval/governor.cpp:155-324 | nothing that stood is lost but by sinking, each kind for itself; a governor that serves has the newer policy, durably, and continues the durable accounting; if no file operation fails it serves exactly when what stands can be opened |
| `Opening.Restore` | src/eval/governor.cpp:212-324 | where no configured policy has to be made durable, or no file operation fails, it serves exactly when a policy can be settled and the accounting loads |
| `Opening.OpenInMemory` | src/eval/governor.cpp:326-333 | opens exactly for a valid policy and configuration |
| `DurableRuns.RunCommit` | src/eval/governor.cpp:520-669 | an acknowledged commit is exactly one more deed on record, under the policy and entries memory had; a crash adds it or nothing, a refusal nothing |
| `DurableRuns.StoreTakesNext` | src/eval/governor.cpp:61-90 | a serving governor's store refuses only payloads past the bound |
| `DurableRuns.RunInstall` | src/eval/governor.cpp:335-378 | an acknowledged installation succeeds the policy on record; a crash or failure adds it or nothing; no window is committed |
| `DurableRuns.StepDeeds` | src/persist/store.cpp:199-310 | a step that may rewrite the accounting leaves the old deeds standing or the further ones |
| `DurableRuns.DurableCarries` | include/fairness_governor/model/accounting.hpp:118-124 | every carry on disk reflects exactly the windows committed since its subject was last dropped, and their total the nets |
| `DurableRuns.RunOpen` | src/eval/governor.cpp:155-324 | reopening keeps the deeds on record, may add the configured policy, and yields a governor that continues exactly them; undisturbed it yields one exactly when what stands can be opened |
| `Sessions.Session` | src/link/link.cpp:487-517 | over any script with crashes and reopens, deeds and policies on record only grow and the disk holds exactly them unless a kind sinks; what was acknowledged is among them, and all but at most one window for each action the process did not survive was acknowledged; committed decisions leave the carries they projected |
| `Sessions.Serve` | src/eval/governor.cpp:335-681 | each action moves memory by just its own step; commits are reported exactly when done; undisturbed the process survives and what is neither refused nor too large becomes durable |
| `Sessions.NeverRolledBackTo` | src/eval/governor.cpp:235-247 | no policy on record is ever rolled back: what stands is newer or the same |
| `Sessions.ServesWhatIsRecorded` | src/eval/governor.cpp:266-311 | a governor that serves, on any volume, has exactly what is on record, less what its policy does not govern |
| `Bytes.StoreLe` | include/fairness_governor/core/bytes.hpp:171-177 | stores little-endian at an offset and touches nothing else |
| `Bytes.LeDigits` | include/fairness_governor/core/bytes.hpp:171-177 | byte i of a word is its digit of weight 256 to the i |
| `Bytes.ByteWriter.Word` | include/fairness_governor/core/bytes.hpp:32-47 | appends exactly the word |
| `Bytes.ByteReader.Word` | include/fairness_governor/core/bytes.hpp:76-127 | reads the word at the cursor, or leaves the cursor where the bytes run out |
| `Bytes.ByteReader.Blob` | include/fairness_governor/core/bytes.hpp:139-153 | reads a length-prefixed text within its bound |
| `Bytes.ReadBack` | include/fairness_governor/core/bytes.hpp:171-185 | a reader finds what a writer appended |
| `Digest.Fnv1a64` | include/fairness_governor/core/ids.hpp:148-156 | the loop computes the digest |
| `Digest.StepInjectiveInHash` | include/fairness_governor/core/ids.hpp:148-156 | a digest step loses nothing of the state |
| `Digest.SingleByteChangesDigest` | include/fairness_governor/core/ids.hpp:148-156 | changing any one byte changes the digest |
| `Record.EncodeRecord` | src/persist/store.cpp:28-49 | the in-place stores produce the specified header and payload |
| `Record.RecordRoundTrip` | src/persist/store.cpp:28-98 | decoding undoes encoding |
| `Record.RecordIsCanonical` | src/persist/store.cpp:51-98 | bytes that decode are exactly the encoding of what they decode to |
| `Record.TornRecordRejected` | src/persist/store.cpp:51-98 | no strict prefix of a record decodes |
| `Record.WrongKindRejected` | src/persist/store.cpp:51-98 | a record of one kind does not decode as the other |
| `Record.CorruptedByteRejected` | src/persist/store.cpp:51-98 | no record with one byte changed decodes |
| `Frame.EncodeFrame` | src/link/frame.cpp:53-82 | the in-place stores produce the specified frame |
| `Frame.FrameRoundTrip` | src/link/frame.cpp:70-151 | header and payload of a legal frame are read back and verified |
| `Frame.CorruptedByteRejected` | src/link/frame.cpp:84-151 | a frame with one byte changed fails its header or its payload check |
| `Rows.NextRow` | src/persist/codec.cpp:144-157 | reads a row of fields, stopping at the first that does not fit |
| `Rows.RowReadBack` | src/persist/codec.cpp:71-122 | a row that was written is read back whole |
| `AccountingCodec.EncodeAccounting` | src/persist/codec.cpp:227-255 | writes the accounting payload |
| `AccountingCodec.DecodeAccounting` | src/persist/codec.cpp:257-329 | reads the accounting payload with its refusals in order |
| `AccountingCodec.AccountingRoundTrip` | src/persist/codec.cpp:227-329 | decoding recovers the accounting exactly when identities are distinct, carries and streaks bounded and the payload within the durable bound |
| `AccountingCodec.DecodedIsStorable` | src/persist/codec.cpp:257-329 | whatever decodes has distinct identities and bounded entries |
| `EvidenceCodec.DecodeEvidence` | src/persist/codec.cpp:362-421 | accepts exactly what parses and is valid |
| `EvidenceCodec.EvidenceRoundTrip` | src/persist/codec.cpp:333-421 | every valid snapshot survives encoding and decoding |
| `PolicyCodec.DecodePolicy` | src/persist/codec.cpp:124-223 | accepts exactly what parses and is valid |
| `PolicyCodec.PolicyRoundTrip` | src/persist/codec.cpp:71-223 | every valid policy survives encoding and decoding |
| `Layout.AccountingLayout` | src/persist/codec.cpp:227-255 | the accounting payload, field by field |
| `Layout.EvidenceLayout` | src/persist/codec.cpp:333-360 | the evidence payload, field by field |
| `Layout.PolicyLayout` | src/persist/codec.cpp:71-122 | the policy payload, field by field |
| `Disk.Volume.Write` | src/persist/fsutil.cpp:200-245 | completes, or leaves at most a prefix |
| `Disk.Volume.Rename` | src/persist/fsutil.cpp:247-260 | atomic, or, where renames tear, may leave a strict prefix in a crash |
| `Store.DurableStore.Prepare` | src/persist/store.cpp:234-277 | temporary, journal and backup are written beside the record, which does not change |
| `Store.DurableStore.Replace` | src/persist/store.cpp:293-310 | the new record is in place, or the old one, or the process died with one of them standing |
| `Store.DurableStore.Commit` | src/persist/store.cpp:199-310 | success means durable; a refusal is told its reason and any other failure is an I/O error, both leaving the record unchanged; a crash leaves old or new standing, loadable where renames are atomic; and what is not refused succeeds, leaving no companion file, unless a file operation fails |
| `Store.RefusalTells` | src/persist/store.cpp:199-232 | a commit goes ahead exactly for a bounded payload, a live writer, a later generation and a record of just the expected one; which refusal is told |
| `Store.DurableStore.Recover` | src/persist/store.cpp:112-167 | whatever stands is loadable once it succeeds and still stands if it is cut short; what a refused restore leaves is exact; what is reported found and done; no companion file is left unless a file operation fails |
| `Store.TornReplace` | src/persist/store.cpp:279-291 | after a torn replace the journalled backup stands |
| `Store.DurableStore.RestoreBackup` | src/persist/store.cpp:131-147 | a refused restore keeps what stood exactly when the journal outlives it; an unusable backup is reported as such |
| `Store.RefusedRestoreLoses` | src/persist/store.cpp:131-165 | how a record is lost: torn, its restore refused, the journal dropped, and the backup taken away by the next recovery |
| `Store.RecoverRepeatedly` | src/persist/store.cpp:112-167 | over any interruptions what stood still stands exactly unless the kind has sunk, which takes a refused restore |
| `Store.CommitThenRecover` | src/persist/store.cpp:112-310 | commit then recovery, both cut short anywhere: on atomic renames exactly the old or the new record loads; otherwise that or a sunk kind, with the causes named |

## Left out

- Sockets, threads, idle polls, the accept loop and shutdown joins: clients are modelled as interleaving the governor's atomic operations.
- The operating-system calls under the file operations: they are steps that complete, fail or are the process's last.
- The injected faults other than the torn replace: they exist to exercise the store.
- Entropy: incarnations are parameters; only the last clause of `Sessions.Session` supposes that no incarnation opens twice, and says so.
- Explanation rendering, scenario parsing, tools and benchmarks: they add only text.
- Acknowledgement payloads of the link: straight-line rows like those of the codecs.
- Outcome counts, group rollups, echoed limits and references, labels, modifier clipping and diagnostic notes of a decision: reported beside what is modelled and read by nothing else.
- Deficit and surplus totals of the accounting: plain checked sums.
- `Opening.Open`: what recovery reports about previous writers is not modelled, because it grants nothing.
- `Distribution.RunPass`: does not say when a pass is marked overcommitted or how much it adds up to be short, because only a diagnostic note reads the mark; each division's own flag and shortfall are exact.
- `Store.DurableStore.Prepare`: does not say what the journal holds, because recovery only asks whether it is there.
- `AccountingCodec.DecodeAccounting`, `EvidenceCodec.DecodeEvidence` and `PolicyCodec.DecodePolicy`: bytes that no encoder wrote may be accepted where they parse to something valid.
- `Bytes.ByteReader.Word`: the disjoint bits of a word are combined by addition where the code uses a bitwise or.
- `Commitment.PrepareCommit`: does not say what a signed difference past 64 bits does, because that is outside what the language defines.
