// Fencing: a decision that still commits is applied to exactly what it was computed
// from, so it leaves the carries it projected. Stated without how it was computed.

module Fencing {
  import opened Core
  import opened Policy
  import opened Accounting
  import opened Decision
  import opened Commitment
  import opened CommitmentLaws
  import opened Lifecycle
  import opened Runs
  import opened History

  /** The carries are the ones the states projected. */
  ghost predicate Projects(entries: seq<SubjectAccounting>, states: seq<SubjectState>) {
    forall i :: 0 <= i < |states| && states[i].authority ==> ProjectsOne(CarryOf(entries, states[i].id), states[i])
  }

  ghost predicate ProjectsOne(c: Carry, s: SubjectState) {
    c.deficit == s.deficitAfter && c.surplus == s.surplusAfter
  }

  /** In whatever state a governor has come to since s, the decision is refused or
      leaves the carries it projected. */
  ghost predicate Anchored(d: FairnessDecision, s: State, digestOf: Content -> u64) {
    forall t: State :: Evolves(s, t) && CommitVerdict(t, d, digestOf).Ok? ==>
      Projects(CommitVerdict(t, d, digestOf).value.subjects, d.content.subjects)
  }

  /** Every committed deed left the carries its evaluation projected. */
  ghost predicate AllProjected(deeds: seq<Deed>) {
    forall k :: 0 <= k < |deeds| && deeds[k].Committed? ==> ProjectedAt(deeds, k)
  }

  ghost predicate ProjectedAt(deeds: seq<Deed>, k: nat)
    requires k < |deeds| && deeds[k].Committed?
  {
    Replayed(deeds[..k + 1]).Some? && Projects(Replayed(deeds[..k + 1]).value, deeds[k].content.subjects)
  }

  lemma {:induction false} ProjectedMore(deeds: seq<Deed>, deed: Deed)
    requires AllProjected(deeds)
    requires deed.Committed? ==> Replayed(deeds + [deed]).Some? && Projects(Replayed(deeds + [deed]).value, deed.content.subjects)
    ensures AllProjected(deeds + [deed])
  {
    var all := deeds + [deed];
    forall k | 0 <= k < |all| && all[k].Committed?
      ensures ProjectedAt(all, k)
    {
      if k < |deeds| {
        assert all[..k + 1] == deeds[..k + 1];
        assert ProjectedAt(deeds, k);
      } else {
        assert all[..k + 1] == all;
      }
    }
  }
}
