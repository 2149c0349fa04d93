// One distribution pass: the recursive walk that hands every group's allocation
// to its children.

module Scatter {
  import opened Core
  import opened Sums
  import opened Allocation
  import opened Allocator
  import AllocationLaws
  import opened Forest
  import opened Policy
  import opened Distributor

  // --- Who lies under whom ---------------------------------------------------------

  ghost predicate Under(parents: seq<Option<nat>>, depth: seq<nat>, x: nat, g: nat)
    requires Layered(parents, depth) && x < |parents|
    decreases depth[x]
  {
    x == g || (parents[x].Some? && Under(parents, depth, parents[x].value, g))
  }

  lemma {:induction false} UnderIsDeeper(parents: seq<Option<nat>>, depth: seq<nat>, x: nat, g: nat)
    requires Layered(parents, depth) && x < |parents| && g < |parents| && Under(parents, depth, x, g)
    ensures depth[x] > depth[g] || x == g
    decreases depth[x]
  {
    if x != g {
      UnderIsDeeper(parents, depth, parents[x].value, g);
    }
  }

  lemma {:induction false} NotOwnParent(parents: seq<Option<nat>>, depth: seq<nat>, g: nat)
    requires Layered(parents, depth) && g < |parents|
    ensures parents[g] != Some(g)
  {
  }

  /** Distinct groups of one depth have nothing below them in common. */
  lemma {:induction false} UnderOneSibling(parents: seq<Option<nat>>, depth: seq<nat>, x: nat, c: nat, d: nat)
    requires Layered(parents, depth) && x < |parents| && c < |parents| && d < |parents| && depth[c] == depth[d]
    requires Under(parents, depth, x, c) && Under(parents, depth, x, d)
    ensures c == d
    decreases depth[x]
  {
    UnderIsDeeper(parents, depth, x, c);
    UnderIsDeeper(parents, depth, x, d);
    if x != c && x != d {
      UnderOneSibling(parents, depth, parents[x].value, c, d);
    }
  }

  lemma {:induction false} UnderChildIsUnder(parents: seq<Option<nat>>, depth: seq<nat>, x: nat, c: nat, g: nat)
    requires Layered(parents, depth) && x < |parents| && c < |parents| && parents[c] == Some(g)
    requires Under(parents, depth, x, c)
    ensures Under(parents, depth, x, g)
    decreases depth[x]
  {
    if x != c {
      UnderChildIsUnder(parents, depth, parents[x].value, c, g);
    }
  }

  lemma {:induction false} UnderSomeChild(parents: seq<Option<nat>>, depth: seq<nat>, x: nat, g: nat) returns (c: nat)
    requires Layered(parents, depth) && x < |parents| && g < |parents| && x != g && Under(parents, depth, x, g)
    ensures c < |parents| && parents[c] == Some(g) && Under(parents, depth, x, c)
    decreases depth[x]
  {
    if parents[x] == Some(g) {
      c := x;
    } else {
      c := UnderSomeChild(parents, depth, parents[x].value, g);
    }
  }

  // --- What a valid policy makes affordable --------------------------------------------

  const MAX_NODE_SHORTFALL: nat := MAX_COMPETITORS * MAX_SERVICE_UNITS

  ghost predicate AffordableInputs(cs: seq<Input>) {
    |cs| <= MAX_COMPETITORS && forall i :: 0 <= i < |cs| ==> 1 <= cs[i].weight <= MAX_WEIGHT && cs[i].floor <= MAX_SERVICE_UNITS
  }

  /** In the bounded domain the allocator accepts any whole, and what it reports
      short stays small. */
  lemma {:induction false} AffordableIsAccepted(cs: seq<Input>, whole: nat)
    requires AffordableInputs(cs) && cs != []
    ensures Accepts(cs, whole) && Sum(Floors(cs)) <= MAX_NODE_SHORTFALL
  {
    SumBounds(Weights(cs), 0, MAX_WEIGHT);
    SumBounds(Floors(cs), 0, MAX_SERVICE_UNITS);
    FloorBalance(cs, whole);
  }

  ghost predicate Affordable(f: Forest) {
    && f.WellFormed() && |f.parents| <= MAX_GROUPS
    && AffordableInputs(Pick(f.groupInputs, f.Roots()))
    && forall g :: 0 <= g < |f.parents| ==> AffordableInputs(InputsFor(f, g))
  }

  lemma {:induction false} EachAtMostWhole(cs: seq<Input>, whole: nat, r: AllocationResult)
    requires IsAllocation(cs, whole, r)
    ensures |r.allocations| == |r.floorBinding| == |cs|
    ensures forall i :: 0 <= i < |r.allocations| ==> r.allocations[i] <= whole
  {
    AllocationLaws.Closes(cs, whole, r);
    forall i | 0 <= i < |r.allocations|
      ensures r.allocations[i] <= whole
    {
      SumElement(r.allocations, i);
    }
  }

  lemma {:induction false} ShortfallWithinFloors(cs: seq<Input>, whole: nat, r: AllocationResult)
    requires IsAllocation(cs, whole, r) && AffordableInputs(cs) && cs != []
    ensures r.shortfall <= MAX_NODE_SHORTFALL
  {
    AllocationLaws.FloorsAreExact(cs, whole, r);
    AffordableIsAccepted(cs, whole);
  }

  /** A group nobody belongs to has nothing to divide. */
  ghost predicate DividedOrEmpty(f: Forest, a: Spread, g: nat)
    requires f.WellFormed() && Sized(f, a) && g < |f.parents|
  {
    InputsFor(f, g) == [] || Divided(f, a, g)
  }

  /** Entries change only where their owner is newly visited. */
  ghost predicate OnlyBelow(f: Forest, before: Spread, after: Spread, newly: set<nat>)
    requires Sized(f, before) && Sized(f, after)
  {
    && (forall x :: 0 <= x < |f.parents| && !(f.parents[x].Some? && f.parents[x].value in newly) ==>
        after.groups[x] == before.groups[x])
    && (forall s :: 0 <= s < |f.homes| && !(f.homes[s].Some? && f.homes[s].value in newly) ==>
        after.subjects[s] == before.subjects[s] && after.binding[s] == before.binding[s])
  }

  lemma {:induction false} OnlyBelowTwice(f: Forest, a: Spread, b: Spread, c: Spread, n1: set<nat>, n2: set<nat>)
    requires Sized(f, a) && Sized(f, b) && Sized(f, c) && OnlyBelow(f, a, b, n1) && OnlyBelow(f, b, c, n2)
    ensures OnlyBelow(f, a, c, n1 + n2)
  {
  }

  lemma {:induction false} DivisionStands(f: Forest, before: Spread, after: Spread, newly: set<nat>, g: nat)
    requires f.WellFormed() && Sized(f, before) && Sized(f, after) && g < |f.parents|
    requires OnlyBelow(f, before, after, newly)
    requires g !in newly && !(f.parents[g].Some? && f.parents[g].value in newly)
    requires DividedOrEmpty(f, before, g)
    ensures DividedOrEmpty(f, after, g)
  {
    if InputsFor(f, g) != [] {
      var r :| IsAllocation(InputsFor(f, g), before.groups[g], r) && Handed(f, before, g, r);
      HandedStands(f, before, after, newly, g, r);
    }
  }

  lemma {:induction false} HandedStands(f: Forest, before: Spread, after: Spread, newly: set<nat>, g: nat, r: AllocationResult)
    requires f.WellFormed() && Sized(f, before) && Sized(f, after) && g < |f.parents|
    requires OnlyBelow(f, before, after, newly) && g !in newly && Handed(f, before, g, r)
    ensures Handed(f, after, g, r)
  {
    SamePicks(before.groups, after.groups, f.Kids(g));
    SamePicks(before.subjects, after.subjects, f.Folk(g));
    SamePicks(before.binding, after.binding, f.Folk(g));
  }

  lemma {:induction false} SamePicks<T>(a: seq<T>, b: seq<T>, order: seq<nat>)
    requires |a| == |b| && InRange(order, |a|) && forall i :: i in order ==> a[i] == b[i]
    ensures Pick(a, order) == Pick(b, order)
  {
  }

  lemma {:induction false} SubsetSize(s: set<nat>, n: nat)
    requires forall x :: x in s ==> x < n
    ensures |s| <= n
  {
    if n > 0 {
      SubsetSize(s - {n - 1}, n - 1);
    } else {
      assert s == {};
    }
  }

  lemma {:induction false} OneFewer(s: set<nat>, x: nat)
    requires x in s
    ensures |s| == |s - {x}| + 1
  {
    assert s == s - {x} + {x};
  }

  lemma {:induction false} OnlyBelowAfterNode(f: Forest, a: Spread, b: Spread, c: Spread, node: nat, v0: set<nat>, v: set<nat>)
    requires Sized(f, a) && Sized(f, b) && Sized(f, c) && v0 + {node} <= v && node !in v0
    requires OnlyBelow(f, a, b, {node}) && OnlyBelow(f, b, c, v - (v0 + {node}))
    ensures OnlyBelow(f, a, c, v - v0)
  {
    OnlyBelowTwice(f, a, b, c, {node}, v - (v0 + {node}));
    SetSplit(v, v0, {node});
  }

  lemma {:induction false} SetSplit(v: set<nat>, v0: set<nat>, added: set<nat>)
    requires v0 + added <= v && added !! v0
    ensures v - v0 == added + (v - (v0 + added))
  {
  }

  lemma {:induction false} SetSteps(v: set<nat>, seen: set<nat>, v0: set<nat>)
    requires v0 <= seen <= v
    ensures v - v0 == (seen - v0) + (v - seen)
  {
  }

  /** The links and depths are those of the forest. */
  ghost predicate Fits(f: Forest, t: Tree) {
    && f.WellFormed() && Layered(f.parents, t.depth)
    && |t.childGroups| == |t.childSubjects| == |f.parents|
    && (forall g :: 0 <= g < |f.parents| ==> t.childGroups[g] == f.Kids(g) && t.childSubjects[g] == f.Folk(g))
    && t.roots == f.Roots()
  }

  /** A shortfall total over the root division and n others, far below 64 bits. */
  ghost predicate SmallTotal(total: nat, n: nat) {
    total <= n * MAX_NODE_SHORTFALL + MAX_NODE_SHORTFALL
  }

  lemma {:induction false} OneMoreShortfall(total: nat, more: nat, n: nat)
    requires SmallTotal(total, n) && more <= MAX_NODE_SHORTFALL && n < MAX_GROUPS
    ensures total + more < U64_END && SmallTotal(total + more, n + 1)
  {
    assert MAX_NODE_SHORTFALL == 4785074604081152;
  }

  /** Every division of the pass was made by the allocator. */
  ghost predicate IsTopDown(f: Forest, a: Spread, whole: nat) {
    && f.WellFormed() && Sized(f, a) && RootsDivided(f, a, whole)
    && forall g :: 0 <= g < |f.parents| ==> DividedOrEmpty(f, a, g)
  }

  /** Nothing lies below two roots. */
  lemma {:induction false} UnderOneRoot(parents: seq<Option<nat>>, depth: seq<nat>, x: nat, c: nat, d: nat)
    requires Layered(parents, depth) && x < |parents| && c < |parents| && d < |parents|
    requires parents[c] == None && parents[d] == None
    requires Under(parents, depth, x, c) && Under(parents, depth, x, d)
    ensures c == d
    decreases depth[x]
  {
    if parents[x].Some? {
      UnderOneRoot(parents, depth, parents[x].value, c, d);
    }
  }

  lemma {:induction false} UnderSomeRoot(parents: seq<Option<nat>>, depth: seq<nat>, x: nat) returns (root: nat)
    requires Layered(parents, depth) && x < |parents|
    ensures root < |parents| && parents[root] == None && Under(parents, depth, x, root)
    decreases depth[x]
  {
    if parents[x].Some? {
      root := UnderSomeRoot(parents, depth, parents[x].value);
    } else {
      root := x;
    }
  }

  class Pass {
    const forest: Forest
    const tree: Tree
    var groups: seq<nat>
    var subjects: seq<nat>
    var binding: seq<bool>
    var overcommit: bool
    var shortfall: nat
    ghost var visited: set<nat>

    ghost function Results(): Spread
      reads this
    {
      Spread(groups, subjects, binding)
    }

    ghost predicate Valid()
      reads this
    {
      && Fits(forest, tree) && Sized(forest, Results())
      && (forall x :: x in visited ==> x < |groups|)
    }

    /** The shortfall counter stays far from its width. */
    ghost predicate Solvent()
      reads this
    {
      SmallTotal(shortfall, |visited|)
    }

    constructor (forest: Forest, tree: Tree)
      requires Fits(forest, tree)
      ensures Valid() && this.forest == forest && this.tree == tree
      ensures visited == {} && shortfall == 0 && !overcommit
    {
      this.tree := tree;
      this.forest := forest;
      groups := seq(|forest.parents|, g => 0);
      subjects := seq(|forest.homes|, s => 0);
      binding := seq(|forest.homes|, s => false);
      overcommit := false;
      shortfall := 0;
      visited := {};
    }

    /** The competitors for a group's allocation: child groups, then subjects. */
    method InputsOf(node: nat) returns (inputs: seq<Input>)
      requires Valid() && node < |groups|
      ensures inputs == InputsFor(forest, node)
    {
      inputs := [];
      var kids := tree.childGroups[node];
      for k := 0 to |kids|
        invariant inputs == Pick(forest.groupInputs, kids)[..k]
      {
        inputs := inputs + [forest.groupInputs[kids[k]]];
      }
      var folk := tree.childSubjects[node];
      for k := 0 to |folk|
        invariant inputs == Pick(forest.groupInputs, kids) + Pick(forest.subjectInputs, folk)[..k]
      {
        inputs := inputs + [forest.subjectInputs[folk[k]]];
      }
    }

    method HandGroups(kids: seq<nat>, values: seq<nat>)
      requires InRange(kids, |groups|) && Distinct(kids) && |values| == |kids|
      modifies `groups
      ensures |groups| == |old(groups)| && Pick(groups, kids) == values
      ensures forall x :: 0 <= x < |groups| && x !in kids ==> groups[x] == old(groups)[x]
    {
      for k := 0 to |kids|
        invariant |groups| == |old(groups)|
        invariant forall j :: 0 <= j < k ==> groups[kids[j]] == values[j]
        invariant forall x :: 0 <= x < |groups| && x !in kids ==> groups[x] == old(groups)[x]
      {
        groups := groups[kids[k] := values[k]];
      }
    }

    method HandSubjects(folk: seq<nat>, values: seq<nat>, flags: seq<bool>)
      requires InRange(folk, |subjects|) && |binding| == |subjects| && Distinct(folk) && |values| == |flags| == |folk|
      modifies `subjects, `binding
      ensures |subjects| == |binding| == |old(subjects)|
      ensures Pick(subjects, folk) == values && Pick(binding, folk) == flags
      ensures forall s :: 0 <= s < |subjects| && s !in folk ==> subjects[s] == old(subjects)[s] && binding[s] == old(binding)[s]
    {
      for k := 0 to |folk|
        invariant |subjects| == |binding| == |old(subjects)|
        invariant forall j :: 0 <= j < k ==> subjects[folk[j]] == values[j] && binding[folk[j]] == flags[j]
        invariant forall s :: 0 <= s < |subjects| && s !in folk ==> subjects[s] == old(subjects)[s] && binding[s] == old(binding)[s]
      {
        subjects := subjects[folk[k] := values[k]];
        binding := binding[folk[k] := flags[k]];
      }
    }

    /** Writes an allocation's results to the children, in the same order. */
    method Hand(node: nat, r: AllocationResult)
      requires Valid() && node < |groups|
      requires |r.allocations| == |r.floorBinding| == |InputsFor(forest, node)|
      modifies `groups, `subjects, `binding
      ensures Valid() && Handed(forest, Results(), node, r)
      ensures OnlyBelow(forest, old(Results()), Results(), {node})
    {
      var kids, folk := tree.childGroups[node], tree.childSubjects[node];
      MembersDistinct(forest.parents, node, |forest.parents|);
      MembersDistinct(forest.homes, node, |forest.homes|);
      HandGroups(kids, r.allocations[..|kids|]);
      HandSubjects(folk, r.allocations[|kids|..], r.floorBinding[|kids|..]);
    }

    /** An overcommitted division marks the pass and adds what fell short. */
    static ghost predicate Tallied(r: AllocationResult, overcommit: bool, shortfall: nat, overcommit': bool, shortfall': nat) {
      overcommit' == (overcommit || r.overcommit) && shortfall' == shortfall + if r.overcommit then r.shortfall else 0
    }

    /** Adds an allocation's shortfall to the pass. */
    method Note(r: AllocationResult) returns (status: Status)
      modifies `overcommit, `shortfall
      ensures status in {Okay, ArithmeticOverflow}
      ensures overcommit == (old(overcommit) || r.overcommit)
      ensures status == Okay ==> shortfall == old(shortfall) + if r.overcommit then r.shortfall else 0
      ensures old(shortfall) + r.shortfall < U64_END ==> status == Okay
    {
      if r.overcommit {
        overcommit := true;
        if shortfall + r.shortfall >= U64_END {
          return ArithmeticOverflow;
        }
        shortfall := shortfall + r.shortfall;
      }
      status := Okay;
    }

    /** Notes a division while the pass stays solvent. */
    method NoteNode(node: nat, whole: u64, shared: Result<AllocationResult>) returns (status: Status)
      requires Valid() && node in visited && InputsFor(forest, node) != [] && shared.Ok?
      requires IsAllocation(InputsFor(forest, node), whole, shared.value)
      modifies `overcommit, `shortfall
      ensures status in {Okay, ArithmeticOverflow}
      ensures overcommit == (old(overcommit) || shared.value.overcommit)
      ensures status == Okay ==> shortfall == old(shortfall) + if shared.value.overcommit then shared.value.shortfall else 0
      ensures Affordable(forest) && SmallTotal(old(shortfall), |visited - {node}|) ==> status == Okay && Solvent()
    {
      if Affordable(forest) && SmallTotal(shortfall, |visited - {node}|) {
        NoteFits(node, whole, shared.value);
      }
      status := Note(shared.value);
    }

    /** One more division keeps the shortfall total within its bound. */
    lemma {:induction false} NoteFits(node: nat, whole: u64, r: AllocationResult)
      requires Valid() && node in visited && InputsFor(forest, node) != [] && Affordable(forest)
      requires IsAllocation(InputsFor(forest, node), whole, r)
      requires SmallTotal(shortfall, |visited - {node}|)
      ensures shortfall + r.shortfall < U64_END && SmallTotal(shortfall + r.shortfall, |visited|)
    {
      ShortfallWithinFloors(InputsFor(forest, node), whole, r);
      VisitedFits();
      OneFewer(visited, node);
      OneMoreShortfall(shortfall, r.shortfall, |visited - {node}|);
    }

    ghost predicate Below(x: nat, g: nat)
      requires Fits(forest, tree)
    {
      x < |forest.parents| && Under(forest.parents, tree.depth, x, g)
    }

    /** Everything below the group, and nothing else, has been newly visited and
        divided, and only entries owned below it have moved. */
    ghost predicate Covered(node: nat, visited0: set<nat>, before: Spread)
      requires Valid() && Sized(forest, before)
      reads this
    {
      && (forall x :: x in visited <==> x in visited0 || Below(x, node))
      && OnlyBelow(forest, before, Results(), visited - visited0)
      && (forall x :: Below(x, node) ==> DividedOrEmpty(forest, Results(), x))
    }

    /** The same, for a group whose own children were handed theirs before. */
    ghost predicate CoveredBelow(node: nat, visited0: set<nat>, handed: Spread)
      requires Valid() && Sized(forest, handed)
      reads this
    {
      && (forall x :: x in visited <==> x in visited0 || Below(x, node))
      && OnlyBelow(forest, handed, Results(), visited - (visited0 + {node}))
      && (forall x :: Below(x, node) ==> DividedOrEmpty(forest, Results(), x))
    }

    lemma {:induction false} CoveredByKids(node: nat, visited0: set<nat>, before: Spread, handed: Spread)
      requires Valid() && node < |groups| && node !in visited0 && Sized(forest, before) && Sized(forest, handed)
      requires OnlyBelow(forest, before, handed, {node}) && CoveredBelow(node, visited0, handed)
      ensures Covered(node, visited0, before)
    {
      assert Below(node, node);
      OnlyBelowAfterNode(forest, before, handed, Results(), node, visited0, visited);
    }

    /** Allocates a group's whole to its competitors and notes any shortfall. */
    method AllocateNode(node: nat, whole: u64) returns (r: Result<AllocationResult>)
      requires Valid() && node in visited && InputsFor(forest, node) != []
      modifies `overcommit, `shortfall
      ensures r.Err? ==> r.status in {InvalidArgument, LimitExceeded, OutOfRange, ArithmeticOverflow}
      ensures r.Ok? ==> IsAllocation(InputsFor(forest, node), whole, r.value)
      ensures r.Ok? ==> Tallied(r.value, old(overcommit), old(shortfall), overcommit, shortfall)
      ensures Affordable(forest) && SmallTotal(old(shortfall), |visited - {node}|) ==> r.Ok? && Solvent()
    {
      var inputs := InputsOf(node);
      r := AllocateWhole(inputs, whole);
      AffordableNode(node, whole, r);
      if r.Ok? {
        var status := NoteNode(node, whole, r);
        if status != Okay {
          return Err(status);
        }
      }
    }

    /** The group's own division is in place and nothing else moved. */
    ghost predicate DivisionMade(node: nat, whole: nat, before: Spread)
      requires Valid() && node < |groups| && Sized(forest, before)
      reads this
    {
      && OnlyBelow(forest, before, Results(), {node})
      && DividedOrEmpty(forest, Results(), node)
      && (forall c :: c in forest.Kids(node) ==> groups[c] <= whole)
    }

    method HandNode(node: nat, whole: u64, r: AllocationResult)
      requires Valid() && node < |groups| && groups[node] == whole
      requires IsAllocation(InputsFor(forest, node), whole, r)
      modifies `groups, `subjects, `binding
      ensures Valid() && DivisionMade(node, whole, old(Results()))
    {
      EachAtMostWhole(InputsFor(forest, node), whole, r);
      Hand(node, r);
      HandedAtMost(node, r, whole);
      HandedDivides(node, whole, old(Results()), r);
    }

    /** Divides one group's allocation among its children. */
    method DivideNode(node: nat, whole: u64) returns (status: Status)
      requires Valid() && node in visited && groups[node] == whole && InputsFor(forest, node) != []
      modifies `groups, `subjects, `binding, `overcommit, `shortfall
      ensures Valid() && status in {Okay, InvalidArgument, LimitExceeded, OutOfRange, ArithmeticOverflow}
      ensures Affordable(forest) && SmallTotal(old(shortfall), |visited - {node}|) ==> status == Okay && Solvent()
      ensures status == Okay ==> DivisionMade(node, whole, old(Results()))
    {
      ghost var before := Results();
      var shared := AllocateNode(node, whole);
      assert Valid() && Results() == before;
      if shared.Err? {
        return shared.status;
      }
      HandNode(node, whole, shared.value);
      status := Okay;
    }

    /** Divides a group's allocation, then each child group's in turn. */
    method Scatter(node: nat, whole: u64) returns (status: Status)
      requires Valid() && node < |groups| && groups[node] == whole
      requires forall x :: Below(x, node) ==> x !in visited
      modifies this
      ensures Valid() && status in {Okay, InvalidArgument, LimitExceeded, OutOfRange, ArithmeticOverflow}
      ensures Affordable(forest) && old(Solvent()) ==> status == Okay && Solvent()
      ensures status == Okay ==> Covered(node, old(visited), old(Results()))
      decreases MAX_GROUP_DEPTH - tree.depth[node], 1
    {
      assert Below(node, node);
      visited := visited + {node};
      assert visited - {node} == old(visited);
      LeafOrNot(node);
      if tree.childGroups[node] == [] && tree.childSubjects[node] == [] {
        LeafCovered(node, old(visited));
        status := Okay;
      } else {
        status := ScatterFamily(node, whole, old(visited));
      }
    }

    lemma {:induction false} LeafOrNot(node: nat)
      requires Valid() && node < |groups|
      ensures InputsFor(forest, node) == [] <==> tree.childGroups[node] == [] && tree.childSubjects[node] == []
    {
    }

    method ScatterFamily(node: nat, whole: u64, ghost visited0: set<nat>) returns (status: Status)
      requires Valid() && node < |groups| && groups[node] == whole && InputsFor(forest, node) != []
      requires node !in visited0 && visited == visited0 + {node}
      requires forall x :: Below(x, node) ==> x !in visited0
      modifies this
      ensures Valid() && status in {Okay, InvalidArgument, LimitExceeded, OutOfRange, ArithmeticOverflow}
      ensures Affordable(forest) && SmallTotal(old(shortfall), |visited0|) ==> status == Okay && Solvent()
      ensures status == Okay ==> Covered(node, visited0, old(Results()))
      decreases MAX_GROUP_DEPTH - tree.depth[node], 0, 2
    {
      assert visited - {node} == visited0;
      status := DivideNode(node, whole);
      if status != Okay {
        return;
      }
      ghost var handed := Results();
      status := ScatterKids(node, whole, visited0);
      if status == Okay {
        CoveredByKids(node, visited0, old(Results()), handed);
      }
    }

    /** Recurses into the child groups of a group already divided. */
    method ScatterKids(node: nat, whole: u64, ghost visited0: set<nat>) returns (status: Status)
      requires Valid() && node < |groups| && node !in visited0 && visited == visited0 + {node}
      requires forall x :: Below(x, node) ==> x !in visited0
      requires forall c :: c in forest.Kids(node) ==> groups[c] <= whole
      requires DividedOrEmpty(forest, Results(), node)
      modifies this
      ensures Valid() && status in {Okay, InvalidArgument, LimitExceeded, OutOfRange, ArithmeticOverflow}
      ensures Affordable(forest) && old(Solvent()) ==> status == Okay && Solvent()
      ensures status == Okay ==> CoveredBelow(node, visited0, old(Results()))
      decreases MAX_GROUP_DEPTH - tree.depth[node], 0, 1
    {
      var kids := tree.childGroups[node];
      MembersDistinct(forest.parents, node, |forest.parents|);
      NoKidsYet(node, visited0, kids);
      for i := 0 to |kids|
        invariant KidsCovered(node, visited0, old(Results()), kids, i)
        invariant Affordable(forest) && old(Solvent()) ==> Solvent()
      {
        status := ScatterKid(node, whole, visited0, old(Results()), kids, i);
        if status != Okay {
          return;
        }
      }
      AllKidsCovered(node, visited0, old(Results()));
      status := Okay;
    }

    lemma {:induction false} NoKidsYet(node: nat, visited0: set<nat>, kids: seq<nat>)
      requires Valid() && node < |groups| && node !in visited0 && visited == visited0 + {node}
      requires DividedOrEmpty(forest, Results(), node)
      ensures KidsCovered(node, visited0, Results(), kids, 0)
    {
    }

    lemma {:induction false} AllKidsCovered(node: nat, visited0: set<nat>, handed: Spread)
      requires Valid() && node < |groups| && Sized(forest, handed)
      requires forall x :: Below(x, node) ==> x !in visited0
      requires KidsCovered(node, visited0, handed, forest.Kids(node), |forest.Kids(node)|)
      ensures CoveredBelow(node, visited0, handed)
    {
      AllBelow(node);
    }

    /** The first i children are covered, and the group itself stays divided. */
    ghost predicate KidsCovered(node: nat, visited0: set<nat>, handed: Spread, kids: seq<nat>, i: nat)
      requires Fits(forest, tree) && Sized(forest, handed) && i <= |kids|
      reads this
    {
      && Valid() && visited0 + {node} <= visited
      && OnlyBelow(forest, handed, Results(), visited - (visited0 + {node}))
      && VisitedSoFar(visited0, node, kids, i)
      && (forall x :: x in visited && x !in visited0 ==> DividedOrEmpty(forest, Results(), x))
    }

    method ScatterKid(node: nat, whole: u64, ghost visited0: set<nat>, ghost handed: Spread, kids: seq<nat>, i: nat)
      returns (status: Status)
      requires Fits(forest, tree) && Sized(forest, handed) && i < |kids| && node < |forest.parents|
      requires kids == forest.Kids(node) && Distinct(kids) && KidsCovered(node, visited0, handed, kids, i)
      requires forall x :: Below(x, node) ==> x !in visited0
      requires forall c :: c in kids ==> handed.groups[c] <= whole
      modifies this
      ensures Valid() && status in {Okay, InvalidArgument, LimitExceeded, OutOfRange, ArithmeticOverflow}
      ensures Affordable(forest) && old(Solvent()) ==> status == Okay && Solvent()
      ensures status == Okay ==> KidsCovered(node, visited0, handed, kids, i + 1)
      decreases MAX_GROUP_DEPTH - tree.depth[node], 0, 0
    {
      var child := kids[i];
      FreshBelow(node, child, kids, i, visited0);
      assert groups[child] <= whole;
      status := Scatter(child, groups[child]);
      if status == Okay {
        KidCovered(node, child, kids, i, visited0, old(visited), old(Results()));
        OnlyBelowTwice(forest, handed, old(Results()), Results(), old(visited) - (visited0 + {node}), visited - old(visited));
        SetSteps(visited, old(visited), visited0 + {node});
      }
    }

    /** x lies below one of the first i children. */
    ghost predicate BelowFirst(x: nat, kids: seq<nat>, i: nat)
      requires Fits(forest, tree) && i <= |kids|
    {
      exists j :: 0 <= j < i && Below(x, kids[j])
    }

    ghost predicate VisitedSoFar(visited0: set<nat>, node: nat, kids: seq<nat>, i: nat)
      requires Fits(forest, tree) && i <= |kids|
      reads this
    {
      forall x :: x in visited <==> x in visited0 || x == node || BelowFirst(x, kids, i)
    }

    lemma {:induction false} HandedDivides(node: nat, whole: u64, before: Spread, r: AllocationResult)
      requires Valid() && node < |groups| && Sized(forest, before) && before.groups[node] == whole
      requires IsAllocation(InputsFor(forest, node), whole, r) && Handed(forest, Results(), node, r)
      requires OnlyBelow(forest, before, Results(), {node})
      ensures DividedOrEmpty(forest, Results(), node)
    {
      NotOwnParent(forest.parents, tree.depth, node);
      assert Results().groups[node] == whole;
    }

    lemma {:induction false} LeafCovered(node: nat, visited0: set<nat>)
      requires Valid() && node < |groups| && InputsFor(forest, node) == [] && visited == visited0 + {node}
      ensures Covered(node, visited0, Results())
    {
      NothingBelow(node);
      assert Below(node, node);
    }

    lemma {:induction false} NothingBelow(node: nat)
      requires Valid() && node < |groups| && InputsFor(forest, node) == []
      ensures forall x :: Below(x, node) ==> x == node
    {
      forall x | Below(x, node)
        ensures x == node
      {
        assert forall c :: 0 <= c < |groups| ==> forest.parents[c] != Some(node) by {
          assert forest.Kids(node) == [];
        }
        if x != node {
          var c := UnderSomeChild(forest.parents, tree.depth, x, node);
        }
      }
    }

    lemma {:induction false} AllBelow(node: nat)
      requires Valid() && node < |groups|
      ensures forall x :: Below(x, node) <==> x == node || BelowFirst(x, forest.Kids(node), |forest.Kids(node)|)
    {
      var kids := forest.Kids(node);
      forall x
        ensures Below(x, node) <==> x == node || BelowFirst(x, kids, |kids|)
      {
        if Below(x, node) && x != node {
          var c := UnderSomeChild(forest.parents, tree.depth, x, node);
          assert c in kids;
        }
        if BelowFirst(x, kids, |kids|) {
          var j :| 0 <= j < |kids| && Below(x, kids[j]);
          assert kids[j] in kids;
          UnderChildIsUnder(forest.parents, tree.depth, x, kids[j], node);
        }
      }
    }

    lemma {:induction false} AffordableNode(node: nat, whole: u64, shared: Result<AllocationResult>)
      requires Valid() && node < |groups| && InputsFor(forest, node) != []
      requires shared.Ok? <==> Accepts(InputsFor(forest, node), whole)
      requires shared.Ok? ==> IsAllocation(InputsFor(forest, node), whole, shared.value)
      ensures Affordable(forest) ==> shared.Ok? && shared.value.shortfall <= MAX_NODE_SHORTFALL
    {
      if Affordable(forest) {
        AffordableIsAccepted(InputsFor(forest, node), whole);
        ShortfallWithinFloors(InputsFor(forest, node), whole, shared.value);
      }
    }

    lemma {:induction false} VisitedFits()
      requires Valid()
      ensures |visited| <= |groups|
    {
      SubsetSize(visited, |groups|);
    }

    lemma {:induction false} HandedAtMost(node: nat, r: AllocationResult, whole: nat)
      requires Valid() && node < |groups| && Handed(forest, Results(), node, r)
      requires forall i :: 0 <= i < |r.allocations| ==> r.allocations[i] <= whole
      ensures forall c :: c in forest.Kids(node) ==> groups[c] <= whole
    {
      var kids := forest.Kids(node);
      forall c | c in kids
        ensures groups[c] <= whole
      {
        var k :| 0 <= k < |kids| && kids[k] == c;
        assert r.allocations[k] == Pick(groups, kids)[k];
      }
    }

    /** The i-th child and everything below it are still to be visited. */
    lemma {:induction false} FreshBelow(node: nat, child: nat, kids: seq<nat>, i: nat, visited0: set<nat>)
      requires Valid() && node < |groups| && kids == forest.Kids(node) && i < |kids| && child == kids[i]
      requires Distinct(kids) && forall x :: Below(x, node) ==> x !in visited0
      requires VisitedSoFar(visited0, node, kids, i)
      ensures child < |groups| && forest.parents[child] == Some(node)
      ensures forall x :: Below(x, child) ==> x !in visited
    {
      var (ps, depth) := (forest.parents, tree.depth);
      assert child in kids;
      forall x | Below(x, child)
        ensures x !in visited
      {
        UnderChildIsUnder(ps, depth, x, child, node);
        UnderIsDeeper(ps, depth, x, child);
        if BelowFirst(x, kids, i) {
          var j :| 0 <= j < i && Below(x, kids[j]);
          assert kids[j] in kids;
          UnderOneSibling(ps, depth, x, kids[j], child);
        }
      }
    }

    /** Covering one child keeps what was divided before. */
    lemma {:induction false} KidCovered(node: nat, child: nat, kids: seq<nat>, i: nat, visited0: set<nat>, seen: set<nat>, mid: Spread)
      requires Valid() && Sized(forest, mid) && i < |kids| && child == kids[i] && child < |groups|
      requires forall x :: x in seen <==> x in visited0 || x == node || BelowFirst(x, kids, i)
      requires forall x :: x in seen ==> x < |groups|
      requires forall x :: x in seen && x !in visited0 ==> DividedOrEmpty(forest, mid, x)
      requires forall x :: Below(x, child) ==> x !in seen
      requires Covered(child, seen, mid)
      ensures VisitedSoFar(visited0, node, kids, i + 1)
      ensures forall x :: x in visited && x !in visited0 ==> DividedOrEmpty(forest, Results(), x)
    {
      forall x
        ensures BelowFirst(x, kids, i + 1) <==> BelowFirst(x, kids, i) || Below(x, child)
      {
        assert Below(x, child) <==> Below(x, kids[i]);
      }
      forall x | x in seen && x !in visited0
        ensures DividedOrEmpty(forest, Results(), x)
      {
        DivisionStands(forest, mid, Results(), visited - seen, x);
      }
    }

    // --- The roots ------------------------------------------------------------------

    /** The trees of the first i roots are covered. */
    ghost predicate RootsCovered(handed: Spread, i: nat)
      requires Fits(forest, tree) && Sized(forest, handed) && i <= |forest.Roots()|
      reads this
    {
      && Valid() && OnlyBelow(forest, handed, Results(), visited)
      && (forall x :: x in visited <==> BelowFirst(x, forest.Roots(), i))
      && (forall x :: x in visited ==> DividedOrEmpty(forest, Results(), x))
    }

    lemma {:induction false} FreshTree(root: nat, i: nat, handed: Spread)
      requires Fits(forest, tree) && Sized(forest, handed) && i < |forest.Roots()| && root == forest.Roots()[i]
      requires RootsCovered(handed, i)
      ensures root < |groups| && forest.parents[root] == None && groups[root] == handed.groups[root]
      ensures forall x :: Below(x, root) ==> x !in visited
    {
      var roots := forest.Roots();
      UnownedDistinct(forest.parents, |forest.parents|);
      assert root in roots;
      forall x | Below(x, root)
        ensures x !in visited
      {
        if BelowFirst(x, roots, i) {
          var j :| 0 <= j < i && Below(x, roots[j]);
          assert roots[j] in roots;
          UnderOneRoot(forest.parents, tree.depth, x, roots[j], root);
        }
      }
    }

    lemma {:induction false} TreeCovered(root: nat, i: nat, handed: Spread, seen: set<nat>, mid: Spread)
      requires Valid() && Sized(forest, handed) && Sized(forest, mid) && i < |forest.Roots()| && root == forest.Roots()[i]
      requires OnlyBelow(forest, handed, mid, seen) && root < |groups| && forest.parents[root] == None
      requires forall x :: x in seen <==> BelowFirst(x, forest.Roots(), i)
      requires forall x :: x in seen ==> x < |groups| && DividedOrEmpty(forest, mid, x)
      requires forall x :: Below(x, root) ==> x !in seen
      requires Covered(root, seen, mid)
      ensures RootsCovered(handed, i + 1)
    {
      TreeVisited(root, i, seen);
      TreesStayDivided(root, i, seen, mid);
      OnlyBelowTwice(forest, handed, mid, Results(), seen, visited - seen);
      assert seen + (visited - seen) == visited;
    }

    lemma {:induction false} TreeVisited(root: nat, i: nat, seen: set<nat>)
      requires Valid() && i < |forest.Roots()| && root == forest.Roots()[i]
      requires forall x :: x in seen <==> BelowFirst(x, forest.Roots(), i)
      requires forall x :: x in visited <==> x in seen || Below(x, root)
      ensures forall x :: x in visited <==> BelowFirst(x, forest.Roots(), i + 1)
    {
      var roots := forest.Roots();
      forall x
        ensures BelowFirst(x, roots, i + 1) <==> BelowFirst(x, roots, i) || Below(x, root)
      {
        assert Below(x, root) <==> Below(x, roots[i]);
      }
    }

    lemma {:induction false} TreesStayDivided(root: nat, i: nat, seen: set<nat>, mid: Spread)
      requires Valid() && Sized(forest, mid) && i < |forest.Roots()| && root == forest.Roots()[i]
      requires forall x :: x in seen <==> BelowFirst(x, forest.Roots(), i)
      requires forall x :: x in seen ==> x < |groups| && DividedOrEmpty(forest, mid, x)
      requires forall x :: Below(x, root) ==> x !in seen
      requires Covered(root, seen, mid)
      ensures forall x :: x in seen ==> DividedOrEmpty(forest, Results(), x)
    {
      forall x | x in seen
        ensures DividedOrEmpty(forest, Results(), x)
      {
        SeenStaysClear(root, x, seen, i);
        DivisionStands(forest, mid, Results(), visited - seen, x);
      }
    }

    /** What lay below earlier roots has no owner below this one. */
    lemma {:induction false} SeenStaysClear(root: nat, x: nat, seen: set<nat>, i: nat)
      requires Valid() && i < |forest.Roots()| && root == forest.Roots()[i] && x in seen && x < |groups|
      requires forall y :: y in seen <==> BelowFirst(y, forest.Roots(), i)
      requires forall y :: Below(y, root) ==> y !in seen
      requires forall y :: y in visited <==> y in seen || Below(y, root)
      ensures !(forest.parents[x].Some? && forest.parents[x].value in visited - seen)
    {
      if forest.parents[x].Some? && Below(forest.parents[x].value, root) {
        assert Below(x, root);
      }
    }

    lemma {:induction false} AllTreesCovered(handed: Spread, whole: nat, r: AllocationResult)
      requires Fits(forest, tree) && Sized(forest, handed) && RootsCovered(handed, |forest.Roots()|)
      requires IsAllocation(Pick(forest.groupInputs, forest.Roots()), whole, r)
      requires r.allocations == Pick(handed.groups, forest.Roots())
      ensures IsTopDown(forest, Results(), whole)
      ensures forall g :: 0 <= g < |forest.parents| ==> g in visited
    {
      var roots := forest.Roots();
      forall g | 0 <= g < |forest.parents|
        ensures g in visited
      {
        var root := UnderSomeRoot(forest.parents, tree.depth, g);
        assert root in roots;
        var j :| 0 <= j < |roots| && roots[j] == root;
        assert Below(g, roots[j]);
      }
      SamePicks(handed.groups, groups, roots);
    }

    method ScatterRoot(i: nat, whole: u64, ghost handed: Spread) returns (status: Status)
      requires Fits(forest, tree) && Sized(forest, handed) && i < |tree.roots| && RootsCovered(handed, i)
      requires forall j :: 0 <= j < |tree.roots| ==> handed.groups[tree.roots[j]] <= whole
      modifies this
      ensures Valid() && status in {Okay, InvalidArgument, LimitExceeded, OutOfRange, ArithmeticOverflow}
      ensures Affordable(forest) && old(Solvent()) ==> status == Okay && Solvent()
      ensures status == Okay ==> RootsCovered(handed, i + 1)
    {
      var root := tree.roots[i];
      FreshTree(root, i, handed);
      status := Scatter(root, groups[root]);
      if status == Okay {
        TreeCovered(root, i, handed, old(visited), old(Results()));
      }
    }

    method ScatterTrees(whole: u64, ghost handed: Spread) returns (status: Status)
      requires Valid() && visited == {} && handed == Results()
      requires forall j :: 0 <= j < |tree.roots| ==> handed.groups[tree.roots[j]] <= whole
      modifies this
      ensures Valid() && status in {Okay, InvalidArgument, LimitExceeded, OutOfRange, ArithmeticOverflow}
      ensures Affordable(forest) && old(Solvent()) ==> status == Okay
      ensures status == Okay ==> RootsCovered(handed, |tree.roots|)
    {
      for i := 0 to |tree.roots|
        invariant RootsCovered(handed, i)
        invariant Affordable(forest) && old(Solvent()) ==> Solvent()
      {
        status := ScatterRoot(i, whole, handed);
        if status != Okay {
          return;
        }
      }
      status := Okay;
    }

    method ScatterRoots(whole: u64, ghost r: AllocationResult) returns (status: Status)
      requires Valid() && visited == {}
      requires IsAllocation(Pick(forest.groupInputs, forest.Roots()), whole, r)
      requires r.allocations == Pick(groups, forest.Roots())
      modifies this
      ensures Valid() && status in {Okay, InvalidArgument, LimitExceeded, OutOfRange, ArithmeticOverflow}
      ensures Affordable(forest) && old(Solvent()) ==> status == Okay
      ensures status == Okay ==> IsTopDown(forest, Results(), whole) && forall g :: 0 <= g < |forest.parents| ==> g in visited
    {
      ghost var handed := Results();
      EachAtMostWhole(Pick(forest.groupInputs, forest.Roots()), whole, r);
      assert forall j :: 0 <= j < |tree.roots| ==> handed.groups[tree.roots[j]] == r.allocations[j];
      status := ScatterTrees(whole, handed);
      if status == Okay {
        AllTreesCovered(handed, whole, r);
      }
    }

    method RootInputs() returns (inputs: seq<Input>)
      requires Valid()
      ensures inputs == Pick(forest.groupInputs, forest.Roots())
    {
      inputs := [];
      for k := 0 to |tree.roots|
        invariant inputs == Pick(forest.groupInputs, tree.roots)[..k]
      {
        inputs := inputs + [forest.groupInputs[tree.roots[k]]];
      }
    }

    lemma {:induction false} AffordableRoots(whole: u64, shared: Result<AllocationResult>)
      requires Valid() && Affordable(forest) && forest.Roots() != []
      requires shared.Ok? <==> Accepts(Pick(forest.groupInputs, forest.Roots()), whole)
      requires shared.Ok? ==> IsAllocation(Pick(forest.groupInputs, forest.Roots()), whole, shared.value)
      ensures shared.Ok? && shared.value.shortfall <= MAX_NODE_SHORTFALL
    {
      var inputs := Pick(forest.groupInputs, forest.Roots());
      AffordableIsAccepted(inputs, whole);
      ShortfallWithinFloors(inputs, whole, shared.value);
    }

    method AllocateRoots(whole: u64) returns (r: Result<AllocationResult>)
      requires Valid() && shortfall == 0
      modifies `overcommit, `shortfall
      ensures r.Err? ==> r.status in {InvalidArgument, LimitExceeded, OutOfRange, ArithmeticOverflow}
      ensures r.Ok? ==> IsAllocation(Pick(forest.groupInputs, forest.Roots()), whole, r.value)
      ensures r.Ok? ==> Tallied(r.value, old(overcommit), old(shortfall), overcommit, shortfall)
      ensures Affordable(forest) && forest.Roots() != [] ==> r.Ok? && SmallTotal(shortfall, 0)
    {
      var inputs := RootInputs();
      r := AllocateWhole(inputs, whole);
      if Affordable(forest) && forest.Roots() != [] {
        AffordableRoots(whole, r);
      }
      if r.Ok? {
        var status := Note(r.value);
        if status != Okay {
          return Err(status);
        }
      }
    }

    /** Runs the pass over the whole forest: every group is divided once. */
    method Run(whole: u64) returns (status: Status)
      requires Valid() && visited == {} && shortfall == 0
      modifies this
      ensures Valid() && status in {Okay, InvalidArgument, LimitExceeded, OutOfRange, ArithmeticOverflow}
      ensures Affordable(forest) && forest.Roots() != [] ==> status == Okay
      ensures status == Okay ==> IsTopDown(forest, Results(), whole) && forall g :: 0 <= g < |forest.parents| ==> g in visited
    {
      var shared := AllocateRoots(whole);
      if shared.Err? {
        return shared.status;
      }
      UnownedDistinct(forest.parents, |forest.parents|);
      EachAtMostWhole(Pick(forest.groupInputs, forest.Roots()), whole, shared.value);
      HandGroups(tree.roots, shared.value.allocations);
      status := ScatterRoots(whole, shared.value);
    }
  }
}
