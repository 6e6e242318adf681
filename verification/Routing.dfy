/**
 The route selector: the order in which a request tries its candidate providers.

 Random draws are an input: `draws[k]` is what the generator returns for the k-th candidate picked,
 any number below the total weight still in play.
 */
module Routing {
  import opened Common

  datatype Strategy = Sequential | Random

  datatype RouteCandidate = RouteCandidate(mappingId: string, providerId: string, upstreamModel: string,
                                           level: int, weight: int, strategy: Strategy)

  // ----- the library's stable sort -----

  datatype Order = ByLevel | ByLevelThenWeight

  /** `a` sorts strictly before `b`. */
  predicate Before(o: Order, a: RouteCandidate, b: RouteCandidate) {
    a.level < b.level || (o == ByLevelThenWeight && a.level == b.level && b.weight < a.weight)
  }

  predicate Tied(o: Order, a: RouteCandidate, b: RouteCandidate) {
    !Before(o, a, b) && !Before(o, b, a)
  }

  function TiedWith(o: Order, s: seq<RouteCandidate>, c: RouteCandidate): seq<RouteCandidate> {
    if s == [] then []
    else TiedWith(o, s[..|s| - 1], c) + (if Tied(o, s[|s| - 1], c) then [s[|s| - 1]] else [])
  }

  ghost predicate InOrder(o: Order, s: seq<RouteCandidate>) {
    forall i, j :: 0 <= i < j < |s| ==> !Before(o, s[j], s[i])
  }

  /** `t` is in order, and candidates that tie keep the order they have in `s`. */
  ghost predicate IsStableSort(o: Order, s: seq<RouteCandidate>, t: seq<RouteCandidate>) {
    InOrder(o, t) && forall c :: TiedWith(o, t, c) == TiedWith(o, s, c)
  }

  function Insert(o: Order, s: seq<RouteCandidate>, x: RouteCandidate): seq<RouteCandidate> {
    if s == [] || !Before(o, x, s[|s| - 1]) then s + [x]
    else Insert(o, s[..|s| - 1], x) + [s[|s| - 1]]
  }

  function StableSort(o: Order, s: seq<RouteCandidate>): seq<RouteCandidate> {
    if s == [] then [] else Insert(o, StableSort(o, s[..|s| - 1]), s[|s| - 1])
  }

  lemma TiedWithAppend(o: Order, s: seq<RouteCandidate>, x: RouteCandidate, c: RouteCandidate)
    ensures TiedWith(o, s + [x], c) == TiedWith(o, s, c) + (if Tied(o, x, c) then [x] else [])
  {
    assert (s + [x])[..|s|] == s;
  }

  lemma {:induction false} InsertKeepsMembers(o: Order, s: seq<RouteCandidate>, x: RouteCandidate)
    ensures multiset(Insert(o, s, x)) == multiset(s) + multiset{x}
  {
    if s != [] && Before(o, x, s[|s| - 1]) {
      InsertKeepsMembers(o, s[..|s| - 1], x);
      assert s == s[..|s| - 1] + [s[|s| - 1]];
    }
  }

  lemma InOrderAppend(o: Order, s: seq<RouteCandidate>, last: RouteCandidate)
    requires InOrder(o, s) && forall y :: y in s ==> !Before(o, last, y)
    ensures InOrder(o, s + [last])
  {
  }

  lemma {:induction false} InsertKeepsOrder(o: Order, s: seq<RouteCandidate>, x: RouteCandidate)
    requires InOrder(o, s)
    ensures InOrder(o, Insert(o, s, x))
  {
    if s != [] && Before(o, x, s[|s| - 1]) {
      var init, last := s[..|s| - 1], s[|s| - 1];
      InsertKeepsOrder(o, init, x);
      InsertKeepsMembers(o, init, x);
      forall y | y in Insert(o, init, x)
        ensures !Before(o, last, y)
      {
        assert y in multiset(Insert(o, init, x));
        assert y == x || y in init;
      }
      InOrderAppend(o, Insert(o, init, x), last);
    } else {
      forall y | y in s
        ensures !Before(o, x, y)
      {
        var k :| 0 <= k < |s| && s[k] == y;
        assert k < |s| - 1 ==> !Before(o, s[|s| - 1], s[k]);
      }
      InOrderAppend(o, s, x);
    }
  }

  /** Nothing ties with both of two candidates in strict order. */
  lemma NoCommonTie(o: Order, x: RouteCandidate, y: RouteCandidate, c: RouteCandidate)
    requires Before(o, x, y)
    ensures !Tied(o, x, c) || !Tied(o, y, c)
  {
  }

  /** `last` comes after `x` without moving it among `x`'s ties. */
  lemma TiesBeforeLast(o: Order, init: seq<RouteCandidate>, inserted: seq<RouteCandidate>, last: RouteCandidate,
                       x: RouteCandidate, c: RouteCandidate)
    requires Before(o, x, last)
    requires TiedWith(o, inserted, c) == TiedWith(o, init, c) + (if Tied(o, x, c) then [x] else [])
    ensures TiedWith(o, inserted + [last], c) == TiedWith(o, init + [last], c) + (if Tied(o, x, c) then [x] else [])
  {
    NoCommonTie(o, x, last, c);
    TiedWithAppend(o, inserted, last, c);
    TiedWithAppend(o, init, last, c);
  }

  lemma {:induction false} InsertKeepsTies(o: Order, s: seq<RouteCandidate>, x: RouteCandidate, c: RouteCandidate)
    ensures TiedWith(o, Insert(o, s, x), c) == TiedWith(o, s, c) + (if Tied(o, x, c) then [x] else [])
  {
    if s == [] || !Before(o, x, s[|s| - 1]) {
      assert Insert(o, s, x) == s + [x];
      TiedWithAppend(o, s, x, c);
    } else {
      var init, last := s[..|s| - 1], s[|s| - 1];
      InsertKeepsTies(o, init, x, c);
      TiesBeforeLast(o, init, Insert(o, init, x), last, x, c);
      assert Insert(o, s, x) == Insert(o, init, x) + [last];
      assert s == init + [last];
    }
  }

  lemma {:induction false} StableSortIsStable(o: Order, s: seq<RouteCandidate>)
    ensures IsStableSort(o, s, StableSort(o, s))
    ensures multiset(StableSort(o, s)) == multiset(s)
  {
    if s != [] {
      var init, last := s[..|s| - 1], s[|s| - 1];
      assert s == init + [last];
      StableSortIsStable(o, init);
      InsertKeepsMembers(o, StableSort(o, init), last);
      InsertKeepsOrder(o, StableSort(o, init), last);
      forall c
        ensures TiedWith(o, StableSort(o, s), c) == TiedWith(o, s, c)
      {
        InsertKeepsTies(o, StableSort(o, init), last, c);
      }
    }
  }

  lemma {:induction false} TiedWithMembers(o: Order, s: seq<RouteCandidate>, c: RouteCandidate)
    ensures forall x :: x in TiedWith(o, s, c) <==> x in s && Tied(o, x, c)
  {
    if s != [] {
      TiedWithMembers(o, s[..|s| - 1], c);
      assert s == s[..|s| - 1] + [s[|s| - 1]];
    }
  }

  /** The two lists have the same ties, in the same order. */
  ghost predicate SameTies(o: Order, t: seq<RouteCandidate>, u: seq<RouteCandidate>) {
    forall c :: TiedWith(o, t, c) == TiedWith(o, u, c)
  }

  lemma SameTiesMembers(o: Order, t: seq<RouteCandidate>, u: seq<RouteCandidate>, x: RouteCandidate)
    requires SameTies(o, t, u) && x in t
    ensures x in u
  {
    TiedWithMembers(o, t, x);
    TiedWithMembers(o, u, x);
    assert TiedWith(o, t, x) == TiedWith(o, u, x);
  }

  /** Candidates that come last in two ordered lists with the same members tie. */
  lemma LastsTie(o: Order, t: seq<RouteCandidate>, x: RouteCandidate, u: seq<RouteCandidate>, y: RouteCandidate)
    requires InOrder(o, t + [x]) && InOrder(o, u + [y]) && x in u + [y] && y in t + [x]
    ensures Tied(o, x, y)
  {
    NotAfterLast(o, t, x, y);
    NotAfterLast(o, u, y, x);
  }

  lemma NotAfterLast(o: Order, t: seq<RouteCandidate>, x: RouteCandidate, y: RouteCandidate)
    requires InOrder(o, t + [x]) && y in t + [x]
    ensures !Before(o, x, y)
  {
    var s := t + [x];
    var k :| 0 <= k < |s| && s[k] == y;
    assert k < |t| ==> !Before(o, s[|t|], s[k]);
  }

  lemma SameLast(s: seq<RouteCandidate>, x: RouteCandidate, s': seq<RouteCandidate>, y: RouteCandidate)
    requires s + [x] == s' + [y]
    ensures x == y && s == s'
  {
    assert (s + [x])[|s|] == x && (s' + [y])[|s'|] == y;
    assert s == (s + [x])[..|s|] && s' == (s' + [y])[..|s'|];
  }

  /** Taking the common last candidate off leaves the ties the same. */
  lemma SameTiesInit(o: Order, t: seq<RouteCandidate>, u: seq<RouteCandidate>, x: RouteCandidate)
    requires SameTies(o, t + [x], u + [x])
    ensures SameTies(o, t, u)
  {
    forall c
      ensures TiedWith(o, t, c) == TiedWith(o, u, c)
    {
      assert TiedWith(o, t + [x], c) == TiedWith(o, u + [x], c);
      TiedWithAppend(o, t, x, c);
      TiedWithAppend(o, u, x, c);
      assert TiedWith(o, t, c) + [] == TiedWith(o, t, c) && TiedWith(o, u, c) + [] == TiedWith(o, u, c);
      if Tied(o, x, c) {
        SameLast(TiedWith(o, t, c), x, TiedWith(o, u, c), x);
      }
    }
  }

  lemma InOrderInit(o: Order, t: seq<RouteCandidate>, x: RouteCandidate)
    requires InOrder(o, t + [x])
    ensures InOrder(o, t)
  {
    assert forall i :: 0 <= i < |t| ==> (t + [x])[i] == t[i];
  }

  /** Two ordered lists with the same ties end with the same candidate. */
  lemma SameEnd(o: Order, t: seq<RouteCandidate>, x: RouteCandidate, u: seq<RouteCandidate>, y: RouteCandidate)
    requires InOrder(o, t + [x]) && InOrder(o, u + [y]) && SameTies(o, t + [x], u + [y])
    ensures x == y
  {
    SameTiesMembers(o, t + [x], u + [y], x);
    SameTiesMembers(o, u + [y], t + [x], y);
    LastsTie(o, t, x, u, y);
    assert TiedWith(o, t + [x], x) == TiedWith(o, u + [y], x);
    TiedWithAppend(o, t, x, x);
    TiedWithAppend(o, u, y, x);
    SameLast(TiedWith(o, t, x), x, TiedWith(o, u, x), y);
  }

  /** There is only one stable sort, so nothing hangs on which algorithm the library uses. */
  lemma {:induction false} StableSortIsUnique(o: Order, t: seq<RouteCandidate>, u: seq<RouteCandidate>)
    requires InOrder(o, t) && InOrder(o, u)
    requires forall c :: TiedWith(o, t, c) == TiedWith(o, u, c)
    ensures t == u
  {
    assert SameTies(o, t, u);
    if t == [] {
      assert u != [] ==> u[0] in u;
      if u != [] {
        SameTiesMembers(o, u, t, u[0]);
      }
    } else {
      SameTiesMembers(o, t, u, t[0]);
      var t', x, u', y := t[..|t| - 1], t[|t| - 1], u[..|u| - 1], u[|u| - 1];
      assert t == t' + [x] && u == u' + [y];
      SameEnd(o, t', x, u', y);
      SameTiesInit(o, t', u', x);
      InOrderInit(o, t', x);
      InOrderInit(o, u', y);
      StableSortIsUnique(o, t', u');
    }
  }

  // ----- the weighted roulette -----

  /** A weight below 1 counts as 1. */
  function Weight(c: RouteCandidate): (w: int)
    ensures 1 <= w
  {
    Max(c.weight, 1)
  }

  function TotalWeight(items: seq<RouteCandidate>): nat {
    if items == [] then 0 else TotalWeight(items[..|items| - 1]) + Weight(items[|items| - 1])
  }

  /** The weight that comes before item `i` on the wheel. */
  function WeightBefore(items: seq<RouteCandidate>, i: nat): nat
    requires i <= |items|
  {
    TotalWeight(items[..i])
  }

  /** The item whose stretch of the wheel contains `pick`. */
  function Chosen(items: seq<RouteCandidate>, pick: nat): (i: nat)
    requires pick < TotalWeight(items)
    ensures i < |items| && WeightBefore(items, i) <= pick < WeightBefore(items, i) + Weight(items[i])
  {
    var init := items[..|items| - 1];
    if TotalWeight(init) <= pick then assert items[..|init|] == init; |init|
    else
      var i := Chosen(init, pick);
      assert items[..i] == init[..i];
      i
  }

  lemma {:induction false} WeightBeforeStep(items: seq<RouteCandidate>, i: nat)
    requires i < |items|
    ensures WeightBefore(items, i + 1) == WeightBefore(items, i) + Weight(items[i])
  {
    assert items[..i + 1][..i] == items[..i];
  }

  lemma {:induction false} WeightBeforeMonotone(items: seq<RouteCandidate>, i: nat, j: nat)
    requires i <= j <= |items|
    ensures WeightBefore(items, i) <= WeightBefore(items, j)
    decreases j - i
  {
    if i < j {
      WeightBeforeStep(items, j - 1);
      WeightBeforeMonotone(items, i, j - 1);
    }
  }

  /** A draw selects item `i` exactly when it falls on that item's stretch of the wheel. */
  lemma ChosenIff(items: seq<RouteCandidate>, pick: nat, i: nat)
    requires i < |items| && pick < TotalWeight(items)
    ensures Chosen(items, pick) == i <==> WeightBefore(items, i) <= pick < WeightBefore(items, i) + Weight(items[i])
  {
    var j := Chosen(items, pick);
    WeightBeforeStep(items, i);
    WeightBeforeStep(items, j);
    if i < j {
      WeightBeforeMonotone(items, i + 1, j);
    } else if j < i {
      WeightBeforeMonotone(items, j + 1, i);
    }
  }

  lemma ItemFitsOnWheel(items: seq<RouteCandidate>, i: nat)
    requires i < |items|
    ensures WeightBefore(items, i) + Weight(items[i]) <= TotalWeight(items)
  {
    WeightBeforeStep(items, i);
    WeightBeforeMonotone(items, i + 1, |items|);
    assert items[..|items|] == items;
  }

  /** The draws that fall on the stretch of `n` positions from `lo`. */
  function Stretch(lo: nat, n: nat): (draws: set<nat>)
    ensures |draws| == n
    ensures forall d: nat :: d in draws <==> lo <= d < lo + n
  {
    if n == 0 then {} else Stretch(lo, n - 1) + {lo + n - 1}
  }

  /** The draws there are that select item `i`. */
  ghost function DrawsFor(items: seq<RouteCandidate>, i: nat): set<nat> {
    set pick: nat | pick < TotalWeight(items) && Chosen(items, pick) == i
  }

  /** Exact proportionality: of the draws there are, just `max(1, weight)` select item `i`. */
  lemma RouletteIsExact(items: seq<RouteCandidate>, i: nat)
    requires i < |items|
    ensures |DrawsFor(items, i)| == Max(1, items[i].weight)
  {
    var lo, n := WeightBefore(items, i), Weight(items[i]);
    ItemFitsOnWheel(items, i);
    forall pick: nat | pick < TotalWeight(items)
      ensures Chosen(items, pick) == i <==> pick in Stretch(lo, n)
    {
      ChosenIff(items, pick, i);
    }
    assert DrawsFor(items, i) == Stretch(lo, n);
  }

  function Without(items: seq<RouteCandidate>, i: nat): seq<RouteCandidate>
    requires i < |items|
  {
    items[..i] + items[i + 1..]
  }

  /** Every draw is below the weight left on the wheel when it is made. */
  predicate ValidDraws(items: seq<RouteCandidate>, draws: seq<nat>)
    decreases |items|
  {
    |draws| == |items| &&
    (items != [] ==>
       draws[0] < TotalWeight(items) && ValidDraws(Without(items, Chosen(items, draws[0])), draws[1..]))
  }

  function Shuffled(items: seq<RouteCandidate>, draws: seq<nat>): seq<RouteCandidate>
    requires ValidDraws(items, draws)
    decreases |items|
  {
    if items == [] then []
    else
      var i := Chosen(items, draws[0]);
      [items[i]] + Shuffled(Without(items, i), draws[1..])
  }

  lemma WithoutMultiset(items: seq<RouteCandidate>, i: nat)
    requires i < |items|
    ensures multiset(items) == multiset{items[i]} + multiset(Without(items, i))
  {
    assert items == items[..i] + [items[i]] + items[i + 1..];
  }

  lemma {:induction false} ShuffleIsPermutation(items: seq<RouteCandidate>, draws: seq<nat>)
    requires ValidDraws(items, draws)
    ensures multiset(Shuffled(items, draws)) == multiset(items)
    decreases |items|
  {
    if items != [] {
      var i := Chosen(items, draws[0]);
      ShuffleIsPermutation(Without(items, i), draws[1..]);
      WithoutMultiset(items, i);
    }
  }

  lemma SameRest(items: seq<RouteCandidate>, i: nat, target: seq<RouteCandidate>)
    requires i < |items| && target != [] && items[i] == target[0] && multiset(items) == multiset(target)
    ensures multiset(Without(items, i)) == multiset(target[1..])
  {
    WithoutMultiset(items, i);
    assert target == [target[0]] + target[1..];
    var x := multiset{target[0]};
    assert multiset(target) == x + multiset(target[1..]);
    assert multiset(Without(items, i)) == multiset(items) - x == multiset(target[1..]);
  }

  /** Where the first candidate of `target` stands among `items`. */
  lemma FirstOf(items: seq<RouteCandidate>, target: seq<RouteCandidate>) returns (i: nat)
    requires multiset(items) == multiset(target) && items != []
    ensures target != [] && i < |items| && items[i] == target[0]
  {
    assert |multiset(items)| == |multiset(target)|;
    assert target[0] in multiset(items);
    i :| 0 <= i < |items| && items[i] == target[0];
  }

  /** A first draw at the start of item `i`'s stretch brings that item out first. */
  lemma DrawFirst(items: seq<RouteCandidate>, i: nat, rest: seq<nat>)
    requires i < |items| && ValidDraws(Without(items, i), rest)
    ensures ValidDraws(items, [WeightBefore(items, i)] + rest)
    ensures Shuffled(items, [WeightBefore(items, i)] + rest) == [items[i]] + Shuffled(Without(items, i), rest)
  {
    var draws := [WeightBefore(items, i)] + rest;
    ItemFitsOnWheel(items, i);
    ChosenIff(items, draws[0], i);
    assert draws[1..] == rest;
  }

  /** Completeness: every permutation of the group comes out for some draws. */
  lemma {:induction false} EveryPermutationIsDrawn(items: seq<RouteCandidate>, target: seq<RouteCandidate>)
    returns (draws: seq<nat>)
    requires multiset(items) == multiset(target)
    ensures ValidDraws(items, draws) && Shuffled(items, draws) == target
    decreases |items|
  {
    if items == [] {
      assert |multiset(target)| == 0;
      draws := [];
    } else {
      var i := FirstOf(items, target);
      SameRest(items, i, target);
      var others, after := Without(items, i), target[1..];
      var rest := EveryPermutationIsDrawn(others, after);
      DrawFirst(items, i, rest);
      draws := [WeightBefore(items, i)] + rest;
      assert target == [target[0]] + after;
    }
  }

  /** `rest` are the items not among the first `j` of the result. */
  ghost predicate LeftAfter(items: seq<RouteCandidate>, result: seq<RouteCandidate>, j: nat, rest: seq<RouteCandidate>)
    requires j <= |result|
  {
    multiset(rest) + multiset(result[..j]) == multiset(items)
  }

  lemma PickFirst(items: seq<RouteCandidate>, draws: seq<nat>)
    requires ValidDraws(items, draws) && items != []
    ensures var i := Chosen(items, draws[0]);
            Shuffled(items, draws) == [items[i]] + Shuffled(Without(items, i), draws[1..])
  {
  }

  lemma LeftAfterFirst(items: seq<RouteCandidate>, i: nat, after: seq<RouteCandidate>, j: nat, rest: seq<RouteCandidate>)
    requires i < |items| && j <= |after| && LeftAfter(Without(items, i), after, j, rest)
    ensures LeftAfter(items, [items[i]] + after, j + 1, rest)
  {
    WithoutMultiset(items, i);
    assert ([items[i]] + after)[..j + 1] == [items[i]] + after[..j];
  }

  /** Each place in the result goes to an item of those still left, by one turn of their wheel. */
  lemma {:induction false} ShufflePicks(items: seq<RouteCandidate>, draws: seq<nat>, j: nat)
    returns (rest: seq<RouteCandidate>)
    requires ValidDraws(items, draws) && j < |items|
    ensures |Shuffled(items, draws)| == |items| && LeftAfter(items, Shuffled(items, draws), j, rest)
    ensures draws[j] < TotalWeight(rest) && Shuffled(items, draws)[j] == rest[Chosen(rest, draws[j])]
    decreases |items|
  {
    var i := Chosen(items, draws[0]);
    PickFirst(items, draws);
    ShuffledLength(items, draws);
    if j == 0 {
      rest := items;
      assert Shuffled(items, draws)[..0] == [];
    } else {
      rest := ShufflePicks(Without(items, i), draws[1..], j - 1);
      LeftAfterFirst(items, i, Shuffled(Without(items, i), draws[1..]), j - 1, rest);
    }
  }

  lemma ShuffledLength(items: seq<RouteCandidate>, draws: seq<nat>)
    requires ValidDraws(items, draws)
    ensures |Shuffled(items, draws)| == |items|
  {
    ShuffleIsPermutation(items, draws);
    assert |multiset(Shuffled(items, draws))| == |multiset(items)|;
  }

  /** The scan of the wheel: it always stops at an item, so index 0 is never a mere default. */
  method Spin(items: seq<RouteCandidate>, draw: nat) returns (chosen: nat)
    requires draw < TotalWeight(items)
    ensures chosen == Chosen(items, draw)
  {
    var pick: int := draw;
    chosen := 0;
    ghost var selected := false;
    var i := 0;
    while i < |items| && pick >= 0
      invariant 0 <= i <= |items|
      invariant 0 <= pick ==> pick == draw - WeightBefore(items, i) && !selected
      invariant pick < 0 ==> selected && chosen == Chosen(items, draw)
    {
      pick := pick - Weight(items[i]);
      WeightBeforeStep(items, i);
      if pick < 0 {
        chosen := i;
        selected := true;
        ChosenIff(items, draw, i);
      }
      i := i + 1;
    }
    assert items[..|items|] == items;
    assert selected;
  }

  method WeightedShuffle(items: seq<RouteCandidate>, draws: seq<nat>) returns (result: seq<RouteCandidate>)
    requires ValidDraws(items, draws)
    ensures result == Shuffled(items, draws)
  {
    result := [];
    var rest, unused := items, draws;
    while rest != []
      invariant ValidDraws(rest, unused)
      invariant Shuffled(items, draws) == result + Shuffled(rest, unused)
      decreases |rest|
    {
      var chosen := Spin(rest, unused[0]);
      result := result + [rest[chosen]];
      rest, unused := Without(rest, chosen), unused[1..];
    }
  }

  // ----- whole orders -----

  /** Level by level, each level contiguous. */
  ghost predicate LevelsAscend(s: seq<RouteCandidate>) {
    forall i, j :: 0 <= i < j < |s| ==> s[i].level <= s[j].level
  }

  /** How many candidates at the front of `s` share the first one's level. */
  function GroupSize(s: seq<RouteCandidate>, level: int): (n: nat)
    ensures n <= |s|
    ensures s != [] && s[0].level == level ==> 0 < n
  {
    if s == [] || s[0].level != level then 0 else 1 + GroupSize(s[1..], level)
  }

  lemma {:induction false} GroupSizeMeans(s: seq<RouteCandidate>, level: int)
    ensures var n := GroupSize(s, level);
            && (forall x :: x in s[..n] ==> x.level == level)
            && (n < |s| ==> s[n].level != level)
  {
    if s != [] && s[0].level == level {
      var n := GroupSize(s[1..], level);
      GroupSizeMeans(s[1..], level);
      assert s[..n + 1] == [s[0]] + s[1..][..n];
    }
  }

  predicate ValidOrderDraws(s: seq<RouteCandidate>, draws: seq<nat>)
    decreases |s|
  {
    |draws| == |s| &&
    (s != [] ==>
       var n := GroupSize(s, s[0].level);
       ValidDraws(s[..n], draws[..n]) && ValidOrderDraws(s[n..], draws[n..]))
  }

  /** Each level shuffled within itself. */
  function ShuffledByLevel(s: seq<RouteCandidate>, draws: seq<nat>): seq<RouteCandidate>
    requires ValidOrderDraws(s, draws)
    decreases |s|
  {
    if s == [] then []
    else
      var n := GroupSize(s, s[0].level);
      Shuffled(s[..n], draws[..n]) + ShuffledByLevel(s[n..], draws[n..])
  }

  function SequentialOrder(candidates: seq<RouteCandidate>): seq<RouteCandidate> {
    StableSort(ByLevelThenWeight, candidates)
  }

  /** Walks to the end of the first group. */
  method GroupEnd(s: seq<RouteCandidate>, level: int) returns (idx: nat)
    ensures idx == GroupSize(s, level)
  {
    idx := 0;
    while idx < |s| && s[idx].level == level
      invariant 0 <= idx <= |s|
      invariant idx + GroupSize(s[idx..], level) == GroupSize(s, level)
    {
      assert s[idx..][1..] == s[idx + 1..];
      idx := idx + 1;
    }
  }

  /** All of one level. */
  ghost predicate AllAt(s: seq<RouteCandidate>, level: int) {
    forall x :: x in s ==> x.level == level
  }

  /** All of higher levels. */
  ghost predicate AllAbove(s: seq<RouteCandidate>, level: int) {
    forall x :: x in s ==> level < x.level
  }

  /** A group followed by candidates of another level is the first group of the whole. */
  lemma {:induction false} GroupOfParts(front: seq<RouteCandidate>, back: seq<RouteCandidate>, level: int)
    requires AllAt(front, level) && (back != [] ==> back[0].level != level)
    ensures GroupSize(front + back, level) == |front|
  {
    if front == [] {
      assert front + back == back;
    } else {
      assert front[0] in front;
      assert (front + back)[1..] == front[1..] + back;
      GroupOfParts(front[1..], back, level);
    }
  }

  /** The draws for a list in two parts, the first of them its first group, are those for the parts. */
  lemma OrderOfParts(front: seq<RouteCandidate>, back: seq<RouteCandidate>, level: int, first: seq<nat>, rest: seq<nat>)
    requires front != [] && |first| == |front|
    requires AllAt(front, level) && (back != [] ==> back[0].level != level)
    ensures ValidOrderDraws(front + back, first + rest) <==> ValidDraws(front, first) && ValidOrderDraws(back, rest)
    ensures ValidOrderDraws(front + back, first + rest)
            ==> ShuffledByLevel(front + back, first + rest) == Shuffled(front, first) + ShuffledByLevel(back, rest)
  {
    var s, draws, n := front + back, first + rest, |front|;
    assert s[0] == front[0] && front[0] in front;
    GroupOfParts(front, back, level);
    assert s[..n] == front && s[n..] == back && draws[..n] == first && draws[n..] == rest;
  }

  /** A list in which a group stands first, and what follows it. */
  lemma Parts(s: seq<RouteCandidate>, level: int) returns (front: seq<RouteCandidate>, back: seq<RouteCandidate>)
    ensures s == front + back && |front| == GroupSize(s, level)
    ensures AllAt(front, level) && (back != [] ==> back[0].level != level)
  {
    var n := GroupSize(s, level);
    GroupSizeMeans(s, level);
    front, back := s[..n], s[n..];
    assert back != [] ==> back[0] == s[n];
  }

  method RandomOrder(candidates: seq<RouteCandidate>, draws: seq<nat>) returns (result: seq<RouteCandidate>)
    requires ValidOrderDraws(StableSort(ByLevel, candidates), draws)
    ensures result == ShuffledByLevel(StableSort(ByLevel, candidates), draws)
  {
    var rest, unused := StableSort(ByLevel, candidates), draws;
    ghost var whole := ShuffledByLevel(rest, unused);
    result := [];
    while rest != []
      invariant ValidOrderDraws(rest, unused)
      invariant whole == result + ShuffledByLevel(rest, unused)
      decreases |rest|
    {
      var group;
      group, rest, unused := ShuffleGroup(rest, unused);
      result := result + group;
    }
  }

  /** Takes off the first group and shuffles it. */
  method ShuffleGroup(s: seq<RouteCandidate>, draws: seq<nat>)
    returns (group: seq<RouteCandidate>, rest: seq<RouteCandidate>, unused: seq<nat>)
    requires s != [] && ValidOrderDraws(s, draws)
    ensures |rest| < |s| && ValidOrderDraws(rest, unused)
    ensures ShuffledByLevel(s, draws) == group + ShuffledByLevel(rest, unused)
  {
    var n := GroupEnd(s, s[0].level);
    rest, unused := s[n..], draws[n..];
    group := WeightedShuffle(s[..n], draws[..n]);
  }

  lemma SameMembers(s: seq<RouteCandidate>, t: seq<RouteCandidate>, x: RouteCandidate)
    requires multiset(s) == multiset(t)
    ensures |s| == |t| && (x in s <==> x in t)
  {
    assert |multiset(s)| == |multiset(t)|;
    assert x in multiset(s) <==> x in multiset(t);
  }

  lemma SameLevels(s: seq<RouteCandidate>, t: seq<RouteCandidate>, level: int)
    requires multiset(s) == multiset(t)
    ensures AllAt(s, level) ==> AllAt(t, level)
    ensures AllAbove(s, level) ==> AllAbove(t, level)
  {
    forall x {
      SameMembers(s, t, x);
    }
  }

  lemma LevelsAscendConcat(front: seq<RouteCandidate>, back: seq<RouteCandidate>, level: int)
    requires AllAt(front, level) && AllAbove(back, level) && LevelsAscend(back)
    ensures LevelsAscend(front + back)
  {
  }

  /** In an ascending list whose levels start no lower, what follows the group is higher, and ascends. */
  lemma GroupIsWhole(front: seq<RouteCandidate>, back: seq<RouteCandidate>, level: int)
    requires LevelsAscend(front + back) && (front + back != [] ==> level <= (front + back)[0].level)
    requires AllAt(front, level) && (back != [] ==> back[0].level != level)
    ensures LevelsAscend(back) && AllAbove(back, level)
  {
    var s, n := front + back, |front|;
    forall i, j | 0 <= i <= j < |back|
      ensures back[i].level <= back[j].level
    {
      assert s[n + i] == back[i] && s[n + j] == back[j];
    }
    if back != [] {
      assert s[0].level <= s[n].level && s[n] == back[0];
      forall k | 0 <= k < |back|
        ensures level < back[k].level
      {
        assert back[0].level <= back[k].level;
      }
    }
  }

  lemma {:induction false} ShuffledByLevelKeepsOrder(s: seq<RouteCandidate>, draws: seq<nat>)
    requires ValidOrderDraws(s, draws) && LevelsAscend(s)
    ensures OrderedBy(s, ShuffledByLevel(s, draws))
    decreases |s|
  {
    if s != [] {
      var level := s[0].level;
      var front, back := Parts(s, level);
      var n := |front|;
      assert s[..n] == front && s[n..] == back;
      GroupIsWhole(front, back, level);
      ShuffleIsPermutation(front, draws[..n]);
      ShuffledByLevelKeepsOrder(back, draws[n..]);
      PartsKeepOrder(front, back, Shuffled(front, draws[..n]), ShuffledByLevel(back, draws[n..]), level);
    }
  }

  lemma PartsKeepOrder(front: seq<RouteCandidate>, back: seq<RouteCandidate>,
                       front': seq<RouteCandidate>, back': seq<RouteCandidate>, level: int)
    requires AllAt(front, level) && AllAbove(back, level)
    requires multiset(front') == multiset(front) && OrderedBy(back, back')
    ensures OrderedBy(front + back, front' + back')
  {
    SameLevels(front, front', level);
    SameLevels(back, back', level);
    LevelsAscendConcat(front', back', level);
  }

  ghost predicate OrderedBy(candidates: seq<RouteCandidate>, result: seq<RouteCandidate>) {
    multiset(result) == multiset(candidates) && LevelsAscend(result)
  }

  /** Random mode yields a permutation in which the levels ascend. */
  lemma RandomOrderIsByLevel(candidates: seq<RouteCandidate>, draws: seq<nat>)
    requires ValidOrderDraws(StableSort(ByLevel, candidates), draws)
    ensures OrderedBy(candidates, ShuffledByLevel(StableSort(ByLevel, candidates), draws))
  {
    StableSortIsStable(ByLevel, candidates);
    ShuffledByLevelKeepsOrder(StableSort(ByLevel, candidates), draws);
  }

  /** How often `x` occurs before and after a group's end. */
  lemma SplitCount(front: seq<RouteCandidate>, back: seq<RouteCandidate>, level: int, x: RouteCandidate)
    requires AllAt(front, level) && AllAbove(back, level)
    ensures multiset(front)[x] == (if x.level == level then multiset(front + back)[x] else 0)
    ensures multiset(back)[x] == (if x.level == level then 0 else multiset(front + back)[x])
  {
    assert x in multiset(front) <==> x in front;
    assert x in multiset(back) <==> x in back;
    assert multiset(front + back)[x] == multiset(front)[x] + multiset(back)[x];
  }

  lemma SameSplit(front: seq<RouteCandidate>, back: seq<RouteCandidate>,
                  front': seq<RouteCandidate>, back': seq<RouteCandidate>, level: int)
    requires AllAt(front, level) && AllAt(front', level) && AllAbove(back, level) && AllAbove(back', level)
    requires multiset(front + back) == multiset(front' + back')
    ensures multiset(front) == multiset(front') && multiset(back) == multiset(back')
  {
    forall x
      ensures multiset(front)[x] == multiset(front')[x] && multiset(back)[x] == multiset(back')[x]
    {
      SplitCount(front, back, level, x);
      SplitCount(front', back', level, x);
    }
  }

  lemma LowestLevel(s: seq<RouteCandidate>, t: seq<RouteCandidate>)
    requires s != [] && LevelsAscend(s) && multiset(s) == multiset(t)
    ensures t != [] && s[0].level <= t[0].level
  {
    SameMembers(s, t, s[0]);
    SameMembers(s, t, t[0]);
    var k :| 0 <= k < |s| && s[k] == t[0];
  }

  /** Two level-ascending arrangements of the same candidates have their first level in common. */
  lemma SameFirstGroup(front: seq<RouteCandidate>, back: seq<RouteCandidate>, level: int, t: seq<RouteCandidate>)
    returns (front': seq<RouteCandidate>, back': seq<RouteCandidate>)
    requires front != [] && AllAt(front, level) && AllAbove(back, level) && LevelsAscend(front + back)
    requires OrderedBy(front + back, t)
    ensures t == front' + back' && multiset(front') == multiset(front) && OrderedBy(back, back')
  {
    assert (front + back)[0] == front[0] && front[0] in front;
    LowestLevel(front + back, t);
    front', back' := Parts(t, level);
    GroupIsWhole(front', back', level);
    SameSplit(front, back, front', back', level);
  }

  /** Random mode turns the level-sorted list `s` into `target` when given these draws. */
  ghost predicate Yields(s: seq<RouteCandidate>, draws: seq<nat>, target: seq<RouteCandidate>) {
    ValidOrderDraws(s, draws) && ShuffledByLevel(s, draws) == target
  }

  lemma {:induction false} DrawsLength(items: seq<RouteCandidate>, draws: seq<nat>)
    requires ValidDraws(items, draws)
    ensures |draws| == |items|
  {
  }

  /** Every level-ascending permutation comes out of random mode for some draws. */
  lemma {:induction false} EveryLevelOrderIsDrawn(s: seq<RouteCandidate>, target: seq<RouteCandidate>)
    returns (draws: seq<nat>)
    requires LevelsAscend(s) && OrderedBy(s, target)
    ensures Yields(s, draws, target)
    decreases |s|
  {
    assert |multiset(s)| == |multiset(target)|;
    if s == [] {
      draws := [];
    } else {
      var level := s[0].level;
      var front, back := Parts(s, level);
      GroupIsWhole(front, back, level);
      var front', back' := SameFirstGroup(front, back, level, target);
      var first := EveryPermutationIsDrawn(front, front');
      DrawsLength(front, first);
      var rest := EveryLevelOrderIsDrawn(back, back');
      draws := first + rest;
      assert AllAbove(back, level) && back != [] ==> back[0] in back;
      OrderOfParts(front, back, level, first, rest);
    }
  }

  /** Random mode can produce an order if and only if it is a permutation whose levels ascend. */
  lemma RandomOrderReachesExactly(candidates: seq<RouteCandidate>, target: seq<RouteCandidate>)
    ensures OrderedBy(candidates, target)
       <==> exists draws :: Yields(StableSort(ByLevel, candidates), draws, target)
  {
    var sorted := StableSort(ByLevel, candidates);
    StableSortIsStable(ByLevel, candidates);
    if OrderedBy(candidates, target) {
      var draws := EveryLevelOrderIsDrawn(sorted, target);
    }
    forall draws | Yields(sorted, draws, target)
      ensures OrderedBy(candidates, target)
    {
      RandomOrderIsByLevel(candidates, draws);
    }
  }

  /** The candidates of one level and weight. */
  function Ranked(s: seq<RouteCandidate>, level: int, weight: int): seq<RouteCandidate> {
    if s == [] then []
    else
      var last := s[|s| - 1];
      Ranked(s[..|s| - 1], level, weight) + (if last.level == level && last.weight == weight then [last] else [])
  }

  lemma {:induction false} RankedAreTied(s: seq<RouteCandidate>, c: RouteCandidate)
    ensures Ranked(s, c.level, c.weight) == TiedWith(ByLevelThenWeight, s, c)
  {
    if s != [] {
      RankedAreTied(s[..|s| - 1], c);
    }
  }

  /** Sequential mode: by level, within a level by falling weight, and those equal in both as they were given. */
  lemma SequentialOrderIsStable(candidates: seq<RouteCandidate>)
    ensures OrderedBy(candidates, SequentialOrder(candidates))
    ensures forall i, j :: 0 <= i < j < |SequentialOrder(candidates)|
              && SequentialOrder(candidates)[i].level == SequentialOrder(candidates)[j].level
              ==> SequentialOrder(candidates)[j].weight <= SequentialOrder(candidates)[i].weight
    ensures forall level, weight ::
              Ranked(SequentialOrder(candidates), level, weight) == Ranked(candidates, level, weight)
  {
    var t := SequentialOrder(candidates);
    StableSortIsStable(ByLevelThenWeight, candidates);
    forall level, weight
      ensures Ranked(t, level, weight) == Ranked(candidates, level, weight)
    {
      var c := RouteCandidate("", "", "", level, weight, Sequential);
      RankedAreTied(t, c);
      RankedAreTied(candidates, c);
      assert TiedWith(ByLevelThenWeight, t, c) == TiedWith(ByLevelThenWeight, candidates, c);
    }
  }

  predicate ValidSelectDraws(candidates: seq<RouteCandidate>, draws: seq<nat>) {
    candidates != [] && candidates[0].strategy == Random
    ==> ValidOrderDraws(StableSort(ByLevel, candidates), draws)
  }

  /** With mixed strategies, the first candidate's decides. */
  function Selected(candidates: seq<RouteCandidate>, draws: seq<nat>): seq<RouteCandidate>
    requires ValidSelectDraws(candidates, draws)
  {
    if candidates == [] then []
    else
      match candidates[0].strategy
      case Sequential => SequentialOrder(candidates)
      case Random => ShuffledByLevel(StableSort(ByLevel, candidates), draws)
  }

  /** Either way every candidate is tried at most once and the levels ascend. */
  lemma SelectedIsByLevel(candidates: seq<RouteCandidate>, draws: seq<nat>)
    requires ValidSelectDraws(candidates, draws)
    ensures OrderedBy(candidates, Selected(candidates, draws))
  {
    if candidates != [] {
      match candidates[0].strategy {
        case Sequential => SequentialOrderIsStable(candidates);
        case Random => RandomOrderIsByLevel(candidates, draws);
      }
    }
  }

  /** The selection can come out as `target`. */
  ghost predicate SelectsAs(candidates: seq<RouteCandidate>, draws: seq<nat>, target: seq<RouteCandidate>) {
    ValidSelectDraws(candidates, draws) && Selected(candidates, draws) == target
  }

  /**
   What the strategy decides. If the first candidate is sequential, an order is selected just if it is
   the stable sort by level and falling weight, whatever is drawn; if it is random, just if it is a
   permutation whose levels ascend.
   */
  lemma SelectsIff(candidates: seq<RouteCandidate>, target: seq<RouteCandidate>)
    requires candidates != []
    ensures candidates[0].strategy == Sequential
            ==> forall draws :: SelectsAs(candidates, draws, target)
                                <==> IsStableSort(ByLevelThenWeight, candidates, target)
    ensures candidates[0].strategy == Random
            ==> (OrderedBy(candidates, target) <==> exists draws :: SelectsAs(candidates, draws, target))
  {
    match candidates[0].strategy {
      case Sequential =>
        forall draws
          ensures SelectsAs(candidates, draws, target) <==> IsStableSort(ByLevelThenWeight, candidates, target)
        {
          SequentialSelectsIff(candidates, draws, target);
        }
      case Random =>
        RandomSelectsIff(candidates, target);
    }
  }

  lemma SequentialSelectsIff(candidates: seq<RouteCandidate>, draws: seq<nat>, target: seq<RouteCandidate>)
    requires candidates != [] && candidates[0].strategy == Sequential
    ensures SelectsAs(candidates, draws, target) <==> IsStableSort(ByLevelThenWeight, candidates, target)
  {
    var sorted := Selected(candidates, draws);
    StableSortIsStable(ByLevelThenWeight, candidates);
    if IsStableSort(ByLevelThenWeight, candidates, target) {
      StableSortIsUnique(ByLevelThenWeight, sorted, target);
    }
  }

  lemma RandomSelectsIff(candidates: seq<RouteCandidate>, target: seq<RouteCandidate>)
    requires candidates != [] && candidates[0].strategy == Random
    ensures OrderedBy(candidates, target) <==> exists draws :: SelectsAs(candidates, draws, target)
  {
    RandomOrderReachesExactly(candidates, target);
    if OrderedBy(candidates, target) {
      var draws :| Yields(StableSort(ByLevel, candidates), draws, target);
      RandomSelects(candidates, draws, target);
    }
    if draws :| SelectsAs(candidates, draws, target) {
      RandomSelects(candidates, draws, target);
    }
  }

  lemma RandomSelects(candidates: seq<RouteCandidate>, draws: seq<nat>, target: seq<RouteCandidate>)
    requires candidates != [] && candidates[0].strategy == Random
    ensures SelectsAs(candidates, draws, target) <==> Yields(StableSort(ByLevel, candidates), draws, target)
  {
  }

  /** The candidates of one level, as given. */
  function OnLevel(s: seq<RouteCandidate>, level: int): seq<RouteCandidate> {
    if s == [] then []
    else OnLevel(s[..|s| - 1], level) + (if s[|s| - 1].level == level then [s[|s| - 1]] else [])
  }

  lemma {:induction false} OnLevelIsTied(s: seq<RouteCandidate>, c: RouteCandidate)
    ensures OnLevel(s, c.level) == TiedWith(ByLevel, s, c)
  {
    if s != [] {
      OnLevelIsTied(s[..|s| - 1], c);
    }
  }

  /** Sorting by level leaves the candidates of each level as they were. */
  lemma SortKeepsLevel(s: seq<RouteCandidate>, level: int)
    ensures OnLevel(StableSort(ByLevel, s), level) == OnLevel(s, level)
  {
    var c := RouteCandidate("", "", "", level, 0, Random);
    StableSortIsStable(ByLevel, s);
    OnLevelIsTied(s, c);
    OnLevelIsTied(StableSort(ByLevel, s), c);
    assert TiedWith(ByLevel, StableSort(ByLevel, s), c) == TiedWith(ByLevel, s, c);
  }

  lemma {:induction false} OnLevelParts(front: seq<RouteCandidate>, back: seq<RouteCandidate>, level: int)
    ensures OnLevel(front + back, level) == OnLevel(front, level) + OnLevel(back, level)
    decreases |back|
  {
    if back == [] {
      assert front + back == front;
    } else {
      var init := back[..|back| - 1];
      assert (front + back)[..|front + back| - 1] == front + init;
      OnLevelParts(front, init, level);
    }
  }

  lemma {:induction false} OnLevelOfGroup(s: seq<RouteCandidate>, own: int, level: int)
    requires AllAt(s, own)
    ensures OnLevel(s, level) == if level == own then s else []
  {
    if s != [] {
      var init := s[..|s| - 1];
      assert s == init + [s[|s| - 1]];
      OnLevelOfGroup(init, own, level);
    }
  }

  lemma {:induction false} OnLevelAbove(s: seq<RouteCandidate>, level: int)
    requires AllAbove(s, level)
    ensures OnLevel(s, level) == []
  {
    if s != [] {
      var init := s[..|s| - 1];
      assert s == init + [s[|s| - 1]];
      OnLevelAbove(init, level);
    }
  }

  /** `part` stands in `whole` from place `b` on. */
  ghost predicate StandsIn<T>(part: seq<T>, whole: seq<T>, b: nat) {
    b + |part| <= |whole| && forall i :: 0 <= i < |part| ==> part[i] == whole[b + i]
  }

  lemma StandsFirst<T>(part: seq<T>, rest: seq<T>)
    ensures StandsIn(part, part + rest, 0)
  {
  }

  lemma StandsLater<T>(part: seq<T>, whole: seq<T>, b: nat, front: seq<T>)
    requires StandsIn(part, whole, b)
    ensures StandsIn(part, front + whole, |front| + b)
  {
  }

  /** The first group of a level-ascending list, and what follows it. */
  lemma FirstLevel(s: seq<RouteCandidate>) returns (front: seq<RouteCandidate>, back: seq<RouteCandidate>)
    requires LevelsAscend(s) && s != []
    ensures s == front + back && |front| == GroupSize(s, s[0].level)
    ensures AllAt(front, s[0].level) && AllAbove(back, s[0].level) && LevelsAscend(back)
  {
    front, back := Parts(s, s[0].level);
    GroupIsWhole(front, back, s[0].level);
  }

  /** How the two are shuffled. */
  lemma FirstDraws(s: seq<RouteCandidate>, draws: seq<nat>, front: seq<RouteCandidate>, back: seq<RouteCandidate>)
    returns (first: seq<nat>, others: seq<nat>)
    requires ValidOrderDraws(s, draws) && s != [] && s == front + back && |front| == GroupSize(s, s[0].level)
    ensures draws == first + others && |first| == |front| > 0
    ensures ValidDraws(front, first) && ValidOrderDraws(back, others)
    ensures ShuffledByLevel(s, draws) == Shuffled(front, first) + ShuffledByLevel(back, others)
  {
    first, others := draws[..|front|], draws[|front|..];
    assert s[..|front|] == front && s[|front|..] == back;
  }

  /** `group`'s places in the order are those of its draws, which shuffle it. */
  ghost predicate ShuffledAt(ordered: seq<RouteCandidate>, draws: seq<nat>, b: nat, group: seq<RouteCandidate>,
                             own: seq<nat>)
  {
    ValidDraws(group, own) && StandsIn(own, draws, b) && StandsIn(Shuffled(group, own), ordered, b)
  }

  lemma FrontIsShuffled(front: seq<RouteCandidate>, first: seq<nat>, others: seq<nat>, back': seq<RouteCandidate>)
    requires ValidDraws(front, first)
    ensures ShuffledAt(Shuffled(front, first) + back', first + others, 0, front, first)
  {
    StandsFirst(first, others);
    StandsFirst(Shuffled(front, first), back');
  }

  lemma BackIsShuffled(front': seq<RouteCandidate>, first: seq<nat>, others: seq<nat>, back': seq<RouteCandidate>,
                       b: nat, group: seq<RouteCandidate>, own: seq<nat>)
    requires |front'| == |first| && ShuffledAt(back', others, b, group, own)
    ensures ShuffledAt(front' + back', first + others, |first| + b, group, own)
  {
    StandsLater(own, others, b, first);
    StandsLater(Shuffled(group, own), back', b, front');
  }

  /** The level's candidates stand together, shuffled by the draws for their places. */
  ghost predicate LevelShuffled(ordered: seq<RouteCandidate>, draws: seq<nat>, group: seq<RouteCandidate>) {
    exists b, own :: ShuffledAt(ordered, draws, b, group, own)
  }

  lemma {:induction false} LevelIsShuffled(s: seq<RouteCandidate>, draws: seq<nat>, ordered: seq<RouteCandidate>, level: int)
    requires Yields(s, draws, ordered) && LevelsAscend(s)
    ensures LevelShuffled(ordered, draws, OnLevel(s, level))
    decreases |s|
  {
    if s == [] {
      assert ShuffledAt(ordered, draws, 0, [], []);
    } else {
      var front, back := FirstLevel(s);
      var first, others := FirstDraws(s, draws, front, back);
      var back' := ShuffledByLevel(back, others);
      LevelOfParts(front, back, s[0].level, level);
      if level == s[0].level {
        FrontIsShuffled(front, first, others, back');
      } else {
        LevelIsShuffled(back, others, back', level);
        var b, own :| ShuffledAt(back', others, b, OnLevel(back, level), own);
        ShuffledLength(front, first);
        BackIsShuffled(Shuffled(front, first), first, others, back', b, OnLevel(back, level), own);
      }
    }
  }

  lemma LevelOfParts(front: seq<RouteCandidate>, back: seq<RouteCandidate>, own: int, level: int)
    requires AllAt(front, own) && AllAbove(back, own)
    ensures OnLevel(front + back, level) == if level == own then front else OnLevel(back, level)
  {
    OnLevelParts(front, back, level);
    OnLevelOfGroup(front, own, level);
    if level == own {
      OnLevelAbove(back, level);
    }
  }

  /** In random mode each level stands together, and is the shuffle of its candidates by its own draws. */
  lemma EveryLevelIsShuffled(candidates: seq<RouteCandidate>, draws: seq<nat>, level: int)
    requires candidates != [] && candidates[0].strategy == Random && ValidSelectDraws(candidates, draws)
    ensures LevelShuffled(Selected(candidates, draws), draws, OnLevel(candidates, level))
  {
    StableSortIsStable(ByLevel, candidates);
    SortKeepsLevel(candidates, level);
    LevelIsShuffled(StableSort(ByLevel, candidates), draws, Selected(candidates, draws), level);
  }

  /**
   Weighted at every place: in random mode the `j`-th place of each level goes to one of the level's
   candidates that have no earlier place, as its draw falls; and of the draws there are for it, just
   `max(1, weight)` bring out each of them.
   */
  lemma EveryPickIsRoulette(candidates: seq<RouteCandidate>, draws: seq<nat>, level: int, j: nat)
    returns (b: nat, own: seq<nat>, rest: seq<RouteCandidate>)
    requires candidates != [] && candidates[0].strategy == Random && ValidSelectDraws(candidates, draws)
    requires j < |OnLevel(candidates, level)|
    ensures var group := OnLevel(candidates, level);
            && ShuffledAt(Selected(candidates, draws), draws, b, group, own)
            && |own| == |Shuffled(group, own)| == |group|
            && LeftAfter(group, Shuffled(group, own), j, rest)
            && own[j] < TotalWeight(rest) && Shuffled(group, own)[j] == rest[Chosen(rest, own[j])]
    ensures forall i :: 0 <= i < |rest| ==> |DrawsFor(rest, i)| == Max(1, rest[i].weight)
  {
    EveryLevelIsShuffled(candidates, draws, level);
    b, own :| ShuffledAt(Selected(candidates, draws), draws, b, OnLevel(candidates, level), own);
    rest := WeightedPick(OnLevel(candidates, level), own, j);
  }

  /** One pick of a shuffle, with the weights of those it is made from. */
  lemma WeightedPick(group: seq<RouteCandidate>, own: seq<nat>, j: nat) returns (rest: seq<RouteCandidate>)
    requires ValidDraws(group, own) && j < |group|
    ensures |own| == |Shuffled(group, own)| == |group|
    ensures LeftAfter(group, Shuffled(group, own), j, rest)
    ensures own[j] < TotalWeight(rest) && Shuffled(group, own)[j] == rest[Chosen(rest, own[j])]
    ensures forall i :: 0 <= i < |rest| ==> |DrawsFor(rest, i)| == Max(1, rest[i].weight)
  {
    rest := ShufflePicks(group, own, j);
    forall i | 0 <= i < |rest|
      ensures |DrawsFor(rest, i)| == Max(1, rest[i].weight)
    {
      RouletteIsExact(rest, i);
    }
  }

  method Select(candidates: seq<RouteCandidate>, draws: seq<nat>) returns (ordered: seq<RouteCandidate>)
    requires ValidSelectDraws(candidates, draws)
    ensures ordered == Selected(candidates, draws)
    ensures OrderedBy(candidates, ordered)
    ensures candidates != [] && candidates[0].strategy == Sequential
            ==> IsStableSort(ByLevelThenWeight, candidates, ordered)
  {
    SelectedIsByLevel(candidates, draws);
    if candidates == [] {
      return [];
    }
    match candidates[0].strategy {
      case Sequential =>
        SequentialSelectsIff(candidates, draws, Selected(candidates, draws));
        ordered := SequentialOrder(candidates);
      case Random =>
        ordered := RandomOrder(candidates, draws);
    }
  }
}
