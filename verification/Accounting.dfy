// Durable deficit and credit accounting: how one window's net moves a subject's
// carry, and what any run of windows leaves behind.

module Accounting {
  import opened Core
  import opened Sums

  datatype Carry = Carry(deficit: u64, surplus: u64, discardedDeficit: u64, discardedSurplus: u64)

  const EMPTY_CARRY := Carry(0, 0, 0, 0)

  datatype SubjectAccounting = SubjectAccounting(
    id: u64, generation: u64, carry: Carry,
    unservedStreak: u32, belowFloorStreak: u32,
    windowsObserved: u64, totalServed: u64,
    lastCorrectionWindow: u64, lastCorrectionGeneration: u64)

  datatype FairnessAccounting = FairnessAccounting(
    policyId: u64, policyGeneration: u64, epoch: u64,
    generation: u64, interventionGeneration: u64,
    lastWindow: u64, lastWindowGeneration: u64, writerBoot: u64,
    subjects: seq<SubjectAccounting>)

  datatype CarryOutcome = CarryOutcome(
    carry: Carry, deficitUnits: u64, surplusUnits: u64, creditApplied: u64, debitApplied: u64, saturated: bool)

  // --- One window ----------------------------------------------------------------

  /** The signed quantity the accounting promises to track. */
  function Signed(c: Carry): int {
    c.deficit - c.surplus + c.discardedDeficit - c.discardedSurplus
  }

  /** What is still owed (positive) or still owing (negative). */
  function Balance(c: Carry): int {
    c.deficit - c.surplus
  }

  /** The live carry once the window's net has consumed the opposite carry. */
  function Offset(c: Carry, net: int): (int, int) {
    if net >= 0 then
      var credit := Min(net, c.surplus);
      (c.deficit + (net - credit), c.surplus - credit)
    else
      var debit := Min(-net, c.deficit);
      (c.deficit - debit, c.surplus + (-net - debit))
  }

  /** The carry after a window, or None where a 64-bit counter overflows. */
  function Applied(c: Carry, net: int, maxCarry: u64): Option<Carry> {
    var (deficit, surplus) := Offset(c, net);
    var lostDeficit := Monus(deficit, maxCarry);
    var lostSurplus := Monus(surplus, maxCarry);
    if deficit >= U64_END || surplus >= U64_END || c.discardedDeficit + lostDeficit >= U64_END
      || c.discardedSurplus + lostSurplus >= U64_END then None
    else
      Some(Carry(deficit - lostDeficit, surplus - lostSurplus, c.discardedDeficit + lostDeficit, c.discardedSurplus + lostSurplus))
  }

  /** Applies one window's net to a carry, step by step. */
  method ApplyWindowCarry(current: Carry, net: i64, maxCarry: u64) returns (r: Option<CarryOutcome>)
    ensures r.None? <==> Applied(current, net, maxCarry).None?
    ensures r.Some? ==>
      && Applied(current, net, maxCarry) == Some(r.value.carry)
      && r.value.deficitUnits + r.value.creditApplied == Max(net, 0)
      && r.value.surplusUnits + r.value.debitApplied == Monus(0, net)
      && (r.value.saturated <==> (Offset(current, net).0 > maxCarry || Offset(current, net).1 > maxCarry))
  {
    var deficit, surplus := current.deficit, current.surplus;
    var discardedDeficit, discardedSurplus := current.discardedDeficit, current.discardedSurplus;
    var deficitUnits, surplusUnits, credit, debit := 0, 0, 0, 0;
    var saturated := false;
    if net >= 0 {
      credit := Min(net, surplus);
      surplus := surplus - credit;
      deficitUnits := net - credit;
      if deficit + deficitUnits >= U64_END {
        return None;
      }
      deficit := deficit + deficitUnits;
    } else {
      debit := Min(Monus(0, net), deficit);
      deficit := deficit - debit;
      surplusUnits := Monus(0, net) - debit;
      if surplus + surplusUnits >= U64_END {
        return None;
      }
      surplus := surplus + surplusUnits;
    }
    if deficit > maxCarry {
      if discardedDeficit + (deficit - maxCarry) >= U64_END {
        return None;
      }
      discardedDeficit := discardedDeficit + (deficit - maxCarry);
      deficit := maxCarry;
      saturated := true;
    }
    if surplus > maxCarry {
      if discardedSurplus + (surplus - maxCarry) >= U64_END {
        return None;
      }
      discardedSurplus := discardedSurplus + (surplus - maxCarry);
      surplus := maxCarry;
      saturated := true;
    }
    r := Some(CarryOutcome(Carry(deficit, surplus, discardedDeficit, discardedSurplus),
                           deficitUnits, surplusUnits, credit, debit, saturated));
  }

  ghost predicate NormalForm(c: Carry) {
    c.deficit == 0 || c.surplus == 0
  }

  function Clamp(x: int, bound: nat): int {
    if x > bound then bound else if x < -(bound as int) then -(bound as int) else x
  }

  /** The closure identity moves by exactly the net, saturation included. */
  lemma {:induction false} WindowCloses(c: Carry, net: int, maxCarry: u64)
    requires Applied(c, net, maxCarry).Some?
    ensures Signed(Applied(c, net, maxCarry).value) == Signed(c) + net
  {
  }

  /** In normal form a window is a clamped addition to the balance. */
  lemma {:induction false} WindowClampsBalance(c: Carry, net: int, maxCarry: u64)
    requires NormalForm(c) && Applied(c, net, maxCarry).Some?
    ensures
      var c' := Applied(c, net, maxCarry).value;
      NormalForm(c') && c'.deficit <= maxCarry && c'.surplus <= maxCarry && Balance(c') == Clamp(Balance(c) + net, maxCarry)
  {
  }

  /** Whatever was carried before, a window leaves both sides within the bound. */
  lemma {:induction false} WindowCaps(c: Carry, net: int, maxCarry: u64)
    requires Applied(c, net, maxCarry).Some?
    ensures Applied(c, net, maxCarry).value.deficit <= maxCarry && Applied(c, net, maxCarry).value.surplus <= maxCarry
  {
  }

  /** Inside the bounded domain a window can always be applied. */
  lemma {:induction false} WindowNeverOverflows(c: Carry, net: int, maxCarry: u64)
    requires c.deficit <= MAX_CARRY_UNITS && c.surplus <= MAX_CARRY_UNITS && maxCarry <= MAX_CARRY_UNITS
    requires -(MAX_CARRY_UNITS as int) * 64 <= net <= MAX_CARRY_UNITS * 64
    requires c.discardedDeficit < U64_END / 2 && c.discardedSurplus < U64_END / 2
    ensures Applied(c, net, maxCarry).Some?
    ensures Applied(c, net, maxCarry).value.deficit <= MAX_CARRY_UNITS
    ensures Applied(c, net, maxCarry).value.surplus <= MAX_CARRY_UNITS
  {
  }

  // --- Runs of windows --------------------------------------------------------------

  datatype Window = Window(net: int, maxCarry: u64)

  function Nets(ws: seq<Window>): (s: seq<int>)
    ensures |s| == |ws|
  {
    seq(|ws|, i requires 0 <= i < |ws| => ws[i].net)
  }

  function CarryAfter(c: Carry, ws: seq<Window>): Option<Carry> {
    if ws == [] then Some(c)
    else
      match CarryAfter(c, ws[..|ws| - 1])
      case None => None
      case Some(c') => Applied(c', ws[|ws| - 1].net, ws[|ws| - 1].maxCarry)
  }

  /** One run of windows after another. */
  lemma {:induction false} CarryJoins(c: Carry, a: seq<Window>, b: seq<Window>)
    requires CarryAfter(c, a).Some?
    ensures CarryAfter(c, a + b) == CarryAfter(CarryAfter(c, a).value, b)
    decreases |b|
  {
    if b == [] {
      assert a + b == a;
    } else {
      CarryJoins(c, a, b[..|b| - 1]);
      assert (a + b)[..|a + b| - 1] == a + b[..|b| - 1];
    }
  }

  /** Over any run the signed carry and discards sum the nets, saturation or
      not, and whatever bound each window was applied under. */
  lemma {:induction false} RunCloses(c: Carry, ws: seq<Window>)
    requires CarryAfter(c, ws).Some?
    ensures Signed(CarryAfter(c, ws).value) == Signed(c) + Sum(Nets(ws))
  {
    if ws != [] {
      var front, w := ws[..|ws| - 1], ws[|ws| - 1];
      RunCloses(c, front);
      WindowCloses(CarryAfter(c, front).value, w.net, w.maxCarry);
      assert Nets(ws)[..|ws| - 1] == Nets(front);
    }
  }

  /** From an empty carry a subject never holds both deficit and surplus, and
      the last window's bound holds. */
  lemma {:induction false} RunStaysNormal(ws: seq<Window>)
    requires CarryAfter(EMPTY_CARRY, ws).Some?
    ensures
      var c := CarryAfter(EMPTY_CARRY, ws).value;
      NormalForm(c) && (ws != [] ==> c.deficit <= ws[|ws| - 1].maxCarry && c.surplus <= ws[|ws| - 1].maxCarry)
  {
    if ws != [] {
      var front, w := ws[..|ws| - 1], ws[|ws| - 1];
      RunStaysNormal(front);
      WindowClampsBalance(CarryAfter(EMPTY_CARRY, front).value, w.net, w.maxCarry);
    }
  }

  ghost function RunningTotal(ws: seq<Window>, k: nat): int
    requires k < |ws|
  {
    Sum(Nets(ws[..k + 1]))
  }

  /** Every running total stays inside the bound in force, so nothing is lost. */
  ghost predicate NeverSaturates(ws: seq<Window>) {
    forall k :: 0 <= k < |ws| ==> -(ws[k].maxCarry as int) <= RunningTotal(ws, k) <= ws[k].maxCarry
  }

  lemma {:induction false} NeverSaturatesStep(ws: seq<Window>)
    requires ws != []
    ensures
      var front, bound := ws[..|ws| - 1], ws[|ws| - 1].maxCarry;
      NeverSaturates(ws) <==> NeverSaturates(front) && -(bound as int) <= Sum(Nets(ws)) <= bound
  {
    var front := ws[..|ws| - 1];
    assert ws[..|ws|] == ws;
    assert RunningTotal(ws, |ws| - 1) == Sum(Nets(ws));
    forall k | 0 <= k < |front|
      ensures RunningTotal(front, k) == RunningTotal(ws, k)
    {
      assert front[..k + 1] == ws[..k + 1];
    }
  }

  /** A window discards nothing exactly when the new balance is within bounds. */
  lemma {:induction false} WindowDiscards(c: Carry, net: int, maxCarry: u64)
    requires NormalForm(c) && Applied(c, net, maxCarry).Some?
    ensures
      var c' := Applied(c, net, maxCarry).value;
      && c'.discardedDeficit >= c.discardedDeficit && c'.discardedSurplus >= c.discardedSurplus
      && (c'.discardedDeficit == c.discardedDeficit && c'.discardedSurplus == c.discardedSurplus
          <==> -(maxCarry as int) <= Balance(c) + net <= maxCarry)
  {
  }

  /** Nothing has been discarded exactly when no running total left its bound. */
  lemma {:induction false} DiscardsMeanSaturation(ws: seq<Window>)
    requires CarryAfter(EMPTY_CARRY, ws).Some?
    ensures
      var c := CarryAfter(EMPTY_CARRY, ws).value;
      c.discardedDeficit == c.discardedSurplus == 0 <==> NeverSaturates(ws)
  {
    if ws != [] {
      var front, w := ws[..|ws| - 1], ws[|ws| - 1];
      DiscardsMeanSaturation(front);
      RunStaysNormal(front);
      RunCloses(EMPTY_CARRY, front);
      WindowDiscards(CarryAfter(EMPTY_CARRY, front).value, w.net, w.maxCarry);
      assert Nets(ws)[..|ws| - 1] == Nets(front);
      NeverSaturatesStep(ws);
    }
  }

  /** Until the first saturation the carry is the positive and negative part of
      the net sum. */
  lemma {:induction false} UnsaturatedRun(ws: seq<Window>)
    requires CarryAfter(EMPTY_CARRY, ws).Some? && NeverSaturates(ws)
    ensures
      var c := CarryAfter(EMPTY_CARRY, ws).value;
      && c.deficit == Max(Sum(Nets(ws)), 0) && c.surplus == Max(-Sum(Nets(ws)), 0)
      && c.discardedDeficit == c.discardedSurplus == 0
  {
    var c := CarryAfter(EMPTY_CARRY, ws).value;
    assert NormalForm(c) by {
      RunStaysNormal(ws);
    }
    assert Signed(c) == Sum(Nets(ws)) by {
      RunCloses(EMPTY_CARRY, ws);
    }
    assert c.discardedDeficit == c.discardedSurplus == 0 by {
      DiscardsMeanSaturation(ws);
    }
    SidesOfSum(c, Sum(Nets(ws)));
  }

  /** What an originally empty carry says of its windows: it is one-sided, its
      signed value is their sum, and exactly while nothing saturated it discarded
      nothing and is the positive or negative part of that sum. */
  ghost predicate Reflects(c: Carry, ws: seq<Window>) {
    && NormalForm(c) && Signed(c) == Sum(Nets(ws))
    && (c.discardedDeficit == c.discardedSurplus == 0 <==> NeverSaturates(ws))
    && (NeverSaturates(ws) ==> c.deficit == Max(Sum(Nets(ws)), 0) && c.surplus == Max(-Sum(Nets(ws)), 0))
  }

  lemma {:induction false} RunReflects(ws: seq<Window>, c: Carry)
    requires CarryAfter(EMPTY_CARRY, ws) == Some(c)
    ensures Reflects(c, ws)
  {
    assert NormalForm(c) by {
      RunStaysNormal(ws);
    }
    assert Signed(c) == Sum(Nets(ws)) by {
      RunCloses(EMPTY_CARRY, ws);
    }
    assert c.discardedDeficit == c.discardedSurplus == 0 <==> NeverSaturates(ws) by {
      DiscardsMeanSaturation(ws);
    }
    SidesOfSum(c, Sum(Nets(ws)));
  }

  /** A one-sided carry that discarded nothing is one side of its signed value. */
  lemma {:induction false} SidesOfSum(c: Carry, total: int)
    requires NormalForm(c) && Signed(c) == total
    ensures c.discardedDeficit == c.discardedSurplus == 0 ==> c.deficit == Max(total, 0) && c.surplus == Max(-total, 0)
  {
  }

  // --- The identity as the header states it --------------------------------------------

  /** The header's form of the identity, with the discards on the other side. */
  ghost predicate HeaderIdentity(c: Carry, total: int) {
    Balance(c) == total + c.discardedDeficit - c.discardedSurplus
  }

  /** It holds of a run exactly when as much deficit as surplus was discarded. */
  lemma {:induction false} HeaderIdentityExactly(ws: seq<Window>, c: Carry)
    requires CarryAfter(EMPTY_CARRY, ws) == Some(c)
    ensures HeaderIdentity(c, Sum(Nets(ws))) <==> c.discardedDeficit == c.discardedSurplus
  {
    assert Signed(c) == Sum(Nets(ws)) by {
      RunCloses(EMPTY_CARRY, ws);
    }
    HeaderIdentityOf(c, Sum(Nets(ws)));
  }

  lemma {:induction false} HeaderIdentityOf(c: Carry, total: int)
    requires Signed(c) == total
    ensures HeaderIdentity(c, total) <==> c.discardedDeficit == c.discardedSurplus
  {
  }

  /** So while it holds, the next window keeps it exactly if it does not saturate. */
  lemma {:induction false} HeaderIdentityKept(c: Carry, total: int, net: int, maxCarry: u64)
    requires NormalForm(c) && Signed(c) == total && HeaderIdentity(c, total) && Applied(c, net, maxCarry).Some?
    ensures HeaderIdentity(Applied(c, net, maxCarry).value, total + net) <==> -(maxCarry as int) <= Balance(c) + net <= maxCarry
  {
    WindowCloses(c, net, maxCarry);
    WindowDiscards(c, net, maxCarry);
  }

  /** And it fails at the first window that does: from nothing, any net above the
      bound, such as two units owed where one may be carried. */
  lemma {:induction false} HeaderIdentityFails(w: Window) returns (c: Carry)
    requires w.maxCarry < w.net < U64_END
    ensures CarryAfter(EMPTY_CARRY, [w]) == Some(c) && c == Carry(w.maxCarry, 0, w.net - w.maxCarry, 0)
    ensures !HeaderIdentity(c, Sum(Nets([w])))
  {
    c := Carry(w.maxCarry, 0, w.net - w.maxCarry, 0);
    OneWindow(w, c);
    HeaderIdentityExactly([w], c);
  }

  lemma {:induction false} OneWindow(w: Window, c: Carry)
    requires Applied(EMPTY_CARRY, w.net, w.maxCarry) == Some(c)
    ensures CarryAfter(EMPTY_CARRY, [w]) == Some(c)
  {
    assert [w][..0] == [];
    assert CarryAfter(EMPTY_CARRY, []) == Some(EMPTY_CARRY);
  }

  /** So the order of unsaturated windows does not matter. */
  lemma {:induction false} WindowOrderDoesNotMatter(ws: seq<Window>, ws': seq<Window>, p: seq<nat>)
    requires Permutes(p, |ws|) && |ws'| == |p| && forall i :: 0 <= i < |p| ==> ws'[i] == ws[p[i]]
    requires CarryAfter(EMPTY_CARRY, ws).Some? && NeverSaturates(ws)
    requires CarryAfter(EMPTY_CARRY, ws').Some? && NeverSaturates(ws')
    ensures CarryAfter(EMPTY_CARRY, ws') == CarryAfter(EMPTY_CARRY, ws)
  {
    assert Sum(Nets(ws')) == Sum(Nets(ws)) by {
      assert Nets(ws') == Gather(Nets(ws), p);
      SumPermuted(Nets(ws), p);
    }
    SameSumSameCarry(ws, ws');
  }

  /** An unsaturated run leaves one carry whatever its length: the sides of its sum. */
  lemma {:induction false} SameSumSameCarry(ws: seq<Window>, ws': seq<Window>)
    requires CarryAfter(EMPTY_CARRY, ws).Some? && NeverSaturates(ws) && CarryAfter(EMPTY_CARRY, ws').Some? && NeverSaturates(ws')
    requires Sum(Nets(ws')) == Sum(Nets(ws))
    ensures CarryAfter(EMPTY_CARRY, ws') == CarryAfter(EMPTY_CARRY, ws)
  {
    OneSide(ws, Sum(Nets(ws)));
    OneSide(ws', Sum(Nets(ws)));
    SidesAgree(CarryAfter(EMPTY_CARRY, ws).value, CarryAfter(EMPTY_CARRY, ws').value, Sum(Nets(ws)));
  }

  ghost predicate IsOneSideOf(c: Carry, total: int) {
    && c.deficit == Max(total, 0) && c.surplus == Max(-total, 0)
    && c.discardedDeficit == c.discardedSurplus == 0
  }

  lemma {:induction false} SidesAgree(c: Carry, c': Carry, total: int)
    requires IsOneSideOf(c, total) && IsOneSideOf(c', total)
    ensures c == c'
  {
  }

  lemma {:induction false} OneSide(ws: seq<Window>, total: int)
    requires CarryAfter(EMPTY_CARRY, ws).Some? && NeverSaturates(ws) && total == Sum(Nets(ws))
    ensures IsOneSideOf(CarryAfter(EMPTY_CARRY, ws).value, total)
  {
    UnsaturatedRun(ws);
  }

  // --- The closure check ----------------------------------------------------------------

  function SignedEach(subjects: seq<SubjectAccounting>): (s: seq<int>)
    ensures |s| == |subjects|
  {
    seq(|subjects|, i requires 0 <= i < |subjects| => Signed(subjects[i].carry))
  }

  ghost function MagnitudeEach(subjects: seq<SubjectAccounting>): (s: seq<nat>)
    ensures |s| == |subjects|
  {
    seq(|subjects|, i requires 0 <= i < |subjects| => Magnitude(subjects[i].carry))
  }

  function Magnitude(c: Carry): nat {
    c.deficit + c.surplus + c.discardedDeficit + c.discardedSurplus
  }

  predicate FitsI64(x: int) {
    -0x8000_0000_0000_0000 <= x <= I64_MAX
  }

  /** The signed closure check with 64-bit checked arithmetic: never a false
      positive, and exact whenever the magnitudes together fit. */
  method AccountingCloses(subjects: seq<SubjectAccounting>, expected: i64) returns (closes: bool)
    ensures closes ==> Sum(SignedEach(subjects)) == expected
    ensures Sum(MagnitudeEach(subjects)) <= I64_MAX ==> (closes <==> Sum(SignedEach(subjects)) == expected)
  {
    var residual: int := 0;
    for i := 0 to |subjects|
      invariant residual == Sum(SignedEach(subjects)[..i])
      invariant Sum(MagnitudeEach(subjects)) <= I64_MAX ==> -Sum(MagnitudeEach(subjects)[..i]) <= residual <= Sum(MagnitudeEach(subjects)[..i])
    {
      var c := subjects[i].carry;
      SumStep(SignedEach(subjects), i);
      SumStep(MagnitudeEach(subjects), i);
      SumPrefix(MagnitudeEach(subjects), i);
      SumPrefix(MagnitudeEach(subjects), i + 1);
      if c.deficit > I64_MAX || c.surplus > I64_MAX || c.discardedDeficit > I64_MAX || c.discardedSurplus > I64_MAX {
        return false;
      }
      if !FitsI64(residual + c.deficit) {
        return false;
      }
      residual := residual + c.deficit;
      if !FitsI64(residual - c.surplus) {
        return false;
      }
      residual := residual - c.surplus;
      if !FitsI64(residual + c.discardedDeficit) {
        return false;
      }
      residual := residual + c.discardedDeficit;
      if !FitsI64(residual - c.discardedSurplus) {
        return false;
      }
      residual := residual - c.discardedSurplus;
    }
    assert SignedEach(subjects)[..|subjects|] == SignedEach(subjects);
    closes := residual == expected;
  }
}
