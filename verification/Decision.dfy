// What an evaluation is asked, and what it answers.

module Decision {
  import opened Core
  import opened Record
  import opened Policy
  import opened Accounting
  import opened Evidence

  datatype Outcome =
    | Fair | OverServed | UnderServed | StarvationRisk | CorrectionRequired | BlockedByStrongerObligation
    | Unknown | Stale

  /** Severity: the absence of authority dominates every positive outcome. */
  function Severity(o: Outcome): nat {
    match o
    case Fair => 0
    case OverServed => 1
    case UnderServed => 2
    case StarvationRisk => 3
    case CorrectionRequired => 4
    case BlockedByStrongerObligation => 5
    case Unknown => 6
    case Stale => 7
  }

  datatype Reason =
    | NoReason | WithinFairBand | WeightedShareDeficit | WeightedShareSurplus | GuaranteeFloorDeficit | GuaranteeFloorSurplus
    | StarvationUnserved | StarvationBelowFloor | EvidenceAbsent | EvidenceStaleGeneration | EvidenceStaleWindow
    | EvidenceStaleEpoch | EvidenceStaleAge | SubjectGenerationMismatch | PolicyMismatch | PriorityReferenceMismatch
    | CorrectiveBudgetExhausted | CorrectiveCooldown | ProtectedObligationHeld | SubjectCapReached | PolicyBoundReached

  datatype Bound = PolicyTotalBudget | ProtectedObligation | BudgetExhausted | DemandSatisfied

  datatype Direction = Augment | Reduce {
    function Code(): nat {
      if Augment? then 0 else 1
    }
  }

  datatype Request = Request(
    policyId: u64, policyGeneration: u64, epoch: u64, evidenceId: u64, evidenceGeneration: u64,
    window: u64, windowGeneration: u64, now: i64, requestId: u64, attempt: u32, missingIsUnknown: bool)

  /** Everything an evaluation reads. */
  datatype Context = Context(
    policy: FairnessPolicy, accounting: FairnessAccounting, evidence: Option<Snapshot>, request: Request,
    epoch: u64, currentWindow: u64, lastWindow: u64)

  /** Which generations and epoch justified a decision. */
  datatype Authority = Authority(
    policyId: u64, policyGeneration: u64, epoch: u64, evidenceId: u64, evidenceGeneration: u64,
    window: u64, windowGeneration: u64, accountingGeneration: u64, requestId: u64, attempt: u32)

  function AuthorityOf(c: Context): Authority {
    var r := c.request;
    Authority(c.policy.id, c.policy.generation, c.epoch, r.evidenceId, r.evidenceGeneration,
              r.window, r.windowGeneration, c.accounting.generation, r.requestId, r.attempt)
  }

  datatype SubjectState = SubjectState(
    id: u64, generation: u64, group: u64, outcome: Outcome, reason: Reason, authority: bool,
    groupEntitlement: nat, entitlement: nat, baseEntitlement: nat, served: nat,
    deficit: nat, surplus: nat, deficitAfter: nat, surplusAfter: nat,
    unservedStreak: nat, belowFloorStreak: nat, augment: nat, reduce: nat, unsatisfied: nat)

  datatype Intent = Intent(
    id: nat, generation: u64, direction: Direction, subject: u64, subjectGeneration: u64, group: u64,
    units: nat, bound: Bound, reason: Reason, fromStarvation: bool, fromProtected: bool, rank: u32)

  datatype Correction = Correction(
    pool: nat, demand: nat, authorized: nat, augment: nat, reduce: nat, withheld: nat, unsatisfied: nat,
    boundedByTotal: bool, boundedByBps: bool, blocked: bool, authorityMissing: bool)

  /** What the content digest covers. */
  datatype Content = Content(
    authority: Authority, outcome: Outcome, subjects: seq<SubjectState>, intents: seq<Intent>, correction: Correction)

  datatype FairnessDecision = FairnessDecision(governor: Incarnation, content: Content, digest: u64)
}
