/** Whole-run fairness of the per-route position: rotation over the slots available at each admission. */
module RoundRobin {
  import opened Cyclic

  /** Admission `m` takes the first slot available to it from the position, which then moves past that slot. */
  ghost predicate HopAt(n: nat, available: seq<seq<bool>>, positions: seq<nat>, picks: seq<nat>, m: nat)
    requires |available| == |picks| && |positions| == |picks| + 1 && m < |picks|
  {
    && |available[m]| == n && positions[m] < n
    && IsFirst(available[m], positions[m], picks[m])
    && positions[m + 1] == Successor(picks[m], n)
  }

  /** Successive admissions on one route of `n` slots; `positions[m]` is the position before admission `m`. */
  ghost predicate Rotation(n: nat, available: seq<seq<bool>>, positions: seq<nat>, picks: seq<nat>) {
    && |available| == |picks| && |positions| == |picks| + 1
    && positions[0] < n
    && (forall m :: 0 <= m < |picks| ==> HopAt(n, available, positions, picks, m))
  }

  // ----- a fixed set of available slots

  function Chosen(available: seq<bool>): set<nat> {
    set i: nat | i < |available| && available[i]
  }

  /** Available slots less than `d` ahead of `c`. */
  function Within(available: seq<bool>, c: nat, d: nat): set<nat>
    requires c < |available|
  {
    set i: nat | i < |available| && available[i] && Distance(c, i, |available|) < d
  }

  /** The slots of the first `x` picks. */
  function Firsts(picks: seq<nat>, x: nat): set<nat>
    requires x <= |picks|
  {
    if x == 0 then {} else Firsts(picks, x - 1) + {picks[x - 1]}
  }

  /** The pick after `j`, when something available lies beyond `j`, is the nearest slot beyond `j`. */
  lemma NextPick(c: nat, n: nat, a: seq<bool>, j: nat, p: nat, far: nat)
    requires |a| == n && c < n && j < n && far < n && IsFirst(a, Successor(j, n), p)
    requires a[far] && Distance(c, far, n) > Distance(c, j, n)
    ensures Distance(c, p, n) > Distance(c, j, n)
    ensures forall i: nat :: i < n && a[i] && Distance(c, j, n) < Distance(c, i, n) <= Distance(c, p, n) ==> i == p
  {
    CursorPasses(c, j, far, n);
    CursorPasses(c, j, p, n);
    forall i: nat | i < n && a[i] && Distance(c, j, n) < Distance(c, i, n) <= Distance(c, p, n)
      ensures i == p
    {
      CursorPasses(c, j, i, n);
    }
  }

  lemma WithinGrows(c: nat, n: nat, a: seq<bool>, j: nat, p: nat)
    requires |a| == n && c < n && j < n && p < n && a[p] && Distance(c, p, n) > Distance(c, j, n)
    requires forall i: nat :: i < n && a[i] && Distance(c, j, n) < Distance(c, i, n) <= Distance(c, p, n) ==> i == p
    ensures var near := Within(a, c, Distance(c, j, n) + 1);
      p !in near && Within(a, c, Distance(c, p, n) + 1) == near + {p}
  {
  }

  lemma FirstPick(c: nat, n: nat, a: seq<bool>, p: nat)
    requires |a| == n && c < n && IsFirst(a, c, p)
    ensures Within(a, c, Distance(c, p, n) + 1) == {p}
  {
    forall i: nat | i < n && a[i] && Distance(c, i, n) < Distance(c, p, n) + 1
      ensures i == p
    {
      assert Distance(c, i, n) == Distance(c, p, n);
    }
  }

  /** If fewer slots were picked than are available, one lies farther than everything picked. */
  lemma FarSlot(c: nat, n: nat, a: seq<bool>, d: nat) returns (far: nat)
    requires |a| == n && c < n && |Within(a, c, d)| < |Chosen(a)|
    ensures far < n && a[far] && Distance(c, far, n) >= d
  {
    var picked := Within(a, c, d);
    if Chosen(a) <= picked {
      SizeOfSubset(Chosen(a), picked);
    }
    far :| far in Chosen(a) && far !in picked;
  }

  lemma SizeOfSubset(x: set<nat>, y: set<nat>)
    requires x <= y
    ensures |x| <= |y| && (|x| == |y| ==> x == y)
  {
    assert y == x + (y - x);
    assert |y| == |x| + |y - x|;
  }

  lemma NearestNext(c: nat, n: nat, a: seq<bool>, j: nat, p: nat)
    requires |a| == n && c < n && j < n && IsFirst(a, Successor(j, n), p)
    requires |Within(a, c, Distance(c, j, n) + 1)| < |Chosen(a)|
    ensures Distance(c, p, n) > Distance(c, j, n)
    ensures var near := Within(a, c, Distance(c, j, n) + 1);
      p !in near && Within(a, c, Distance(c, p, n) + 1) == near + {p}
  {
    var far := FarSlot(c, n, a, Distance(c, j, n) + 1);
    NextPick(c, n, a, j, p, far);
    WithinGrows(c, n, a, j, p);
  }

  /** The first `x` picks, the last of them `p`, are the `x` available slots nearest to `c`. */
  ghost predicate Nearest(c: nat, a: seq<bool>, picked: set<nat>, p: nat, x: nat) {
    && c < |a| && p < |a|
    && picked == Within(a, c, Distance(c, p, |a|) + 1)
    && |picked| == x
  }

  lemma NearestStarts(c: nat, a: seq<bool>, p: nat)
    requires c < |a| && IsFirst(a, c, p)
    ensures Nearest(c, a, {p}, p, 1)
  {
    FirstPick(c, |a|, a, p);
  }

  lemma NearestContinues(c: nat, a: seq<bool>, picked: set<nat>, j: nat, p: nat, x: nat)
    requires Nearest(c, a, picked, j, x) && x < |Chosen(a)| && IsFirst(a, Successor(j, |a|), p)
    ensures Nearest(c, a, picked + {p}, p, x + 1)
    ensures Distance(c, j, |a|) < Distance(c, p, |a|)
  {
    NearestNext(c, |a|, a, j, p);
  }

  lemma FirstsGrow(picks: seq<nat>, x: nat)
    requires 1 <= x <= |picks|
    ensures Firsts(picks, x) == Firsts(picks, x - 1) + {picks[x - 1]}
    ensures x == 1 ==> Firsts(picks, x) == {picks[0]}
  {
    assert Firsts(picks, 0) == {};
  }

  /** What admission `m` does, with a fixed set of available slots. */
  lemma HopsFrom(n: nat, a: seq<bool>, available: seq<seq<bool>>, positions: seq<nat>, picks: seq<nat>, m: nat)
    requires Rotation(n, available, positions, picks) && |a| == n && m < |picks| && available[m] == a
    ensures positions[m] < n && IsFirst(a, positions[m], picks[m])
    ensures picks[m] < n && positions[m + 1] == Successor(picks[m], n)
  {
    assert HopAt(n, available, positions, picks, m);
  }

  /** The first `x` picks are the `x` available slots nearest to the start. */
  lemma {:induction false} NearestFirst(n: nat, a: seq<bool>, available: seq<seq<bool>>, positions: seq<nat>, picks: seq<nat>, x: nat)
    requires Rotation(n, available, positions, picks) && |a| == n && 1 <= x <= |picks| && x <= |Chosen(a)|
    requires forall k :: 0 <= k < |picks| ==> available[k] == a
    ensures Nearest(positions[0], a, Firsts(picks, x), picks[x - 1], x)
    decreases x
  {
    if x == 1 {
      HopsFrom(n, a, available, positions, picks, 0);
      FirstsGrow(picks, 1);
      NearestStarts(positions[0], a, picks[0]);
    } else {
      NearestFirst(n, a, available, positions, picks, x - 1);
      NearestExtends(n, a, available, positions, picks, x);
    }
  }

  /** One more pick is the next nearest slot, farther than the one before. */
  lemma NearestExtends(n: nat, a: seq<bool>, available: seq<seq<bool>>, positions: seq<nat>, picks: seq<nat>, x: nat)
    requires Rotation(n, available, positions, picks) && |a| == n && 2 <= x <= |picks| && x <= |Chosen(a)|
    requires available[x - 2] == a && available[x - 1] == a
    requires Nearest(positions[0], a, Firsts(picks, x - 1), picks[x - 2], x - 1)
    ensures Nearest(positions[0], a, Firsts(picks, x), picks[x - 1], x)
    ensures Distance(positions[0], picks[x - 2], n) < Distance(positions[0], picks[x - 1], n)
  {
    var c, j, p, picked := positions[0], picks[x - 2], picks[x - 1], Firsts(picks, x - 1);
    HopsFrom(n, a, available, positions, picks, x - 2);
    HopsFrom(n, a, available, positions, picks, x - 1);
    FirstsGrow(picks, x);
    NearestContinues(c, a, picked, j, p, x - 1);
  }

  lemma {:induction false} DistancesIncrease(n: nat, a: seq<bool>, available: seq<seq<bool>>, positions: seq<nat>, picks: seq<nat>, i: nat, j: nat)
    requires Rotation(n, available, positions, picks) && |a| == n && i < j < |picks| <= |Chosen(a)|
    requires forall k :: 0 <= k < |picks| ==> available[k] == a
    ensures picks[i] < n && picks[j] < n
    ensures Distance(positions[0], picks[i], n) < Distance(positions[0], picks[j], n)
    decreases j
  {
    NearestFirst(n, a, available, positions, picks, j);
    NearestExtends(n, a, available, positions, picks, j + 1);
    if i < j - 1 {
      DistancesIncrease(n, a, available, positions, picks, i, j - 1);
    }
  }

  lemma RotationWindow(n: nat, available: seq<seq<bool>>, positions: seq<nat>, picks: seq<nat>, m: nat, k: nat)
    requires Rotation(n, available, positions, picks) && m + k <= |picks|
    ensures Rotation(n, available[m..m + k], positions[m..m + k + 1], picks[m..m + k])
  {
    if m > 0 {
      assert HopAt(n, available, positions, picks, m - 1);
    }
    var av, pos, window := available[m..m + k], positions[m..m + k + 1], picks[m..m + k];
    forall x | 0 <= x < k
      ensures HopAt(n, av, pos, window, x)
    {
      assert HopAt(n, available, positions, picks, m + x);
    }
  }

  /** The picks come round the ring in order, starting from `c`. */
  ghost predicate InCyclicOrder(c: nat, n: nat, picks: seq<nat>) {
    && c < n && (forall k :: 0 <= k < |picks| ==> picks[k] < n)
    && (forall i, j :: 0 <= i < j < |picks| ==> Distance(c, picks[i], n) < Distance(c, picks[j], n))
  }

  /** The slots picked. */
  function PickedSet(picks: seq<nat>): set<nat> {
    set p | p in picks
  }

  lemma WholeRound(n: nat, a: seq<bool>, available: seq<seq<bool>>, positions: seq<nat>, picks: seq<nat>)
    requires Rotation(n, available, positions, picks) && |a| == n && 1 <= |picks| == |Chosen(a)|
    requires forall k :: 0 <= k < |picks| ==> available[k] == a
    ensures PickedSet(picks) == Chosen(a) && InCyclicOrder(positions[0], n, picks)
  {
    var k := |picks|;
    NearestFirst(n, a, available, positions, picks, k);
    forall i | 0 <= i < k ensures picks[i] < n { assert HopAt(n, available, positions, picks, i); }
    FirstsAreAll(picks);
    WithinIsChosen(positions[0], n, a, Distance(positions[0], picks[k - 1], n) + 1);
    forall i, j | 0 <= i < j < k
      ensures picks[i] < n && picks[j] < n && Distance(positions[0], picks[i], n) < Distance(positions[0], picks[j], n)
    {
      DistancesIncrease(n, a, available, positions, picks, i, j);
    }
  }

  /** With a fixed set of k available slots, any k consecutive admissions pick each exactly once, in cyclic order. */
  lemma RotationVisitsEachOnce(n: nat, a: seq<bool>, available: seq<seq<bool>>, positions: seq<nat>, picks: seq<nat>, m: nat)
    requires Rotation(n, available, positions, picks) && |a| == n
    requires 1 <= |Chosen(a)| && m + |Chosen(a)| <= |picks|
    requires forall k :: m <= k < m + |Chosen(a)| ==> available[k] == a
    ensures var window := picks[m..m + |Chosen(a)|];
      PickedSet(window) == Chosen(a) && InCyclicOrder(positions[m], n, window)
  {
    var k := |Chosen(a)|;
    RotationWindow(n, available, positions, picks, m, k);
    WholeRound(n, a, available[m..m + k], positions[m..m + k + 1], picks[m..m + k]);
  }

  lemma {:induction false} FirstsAre(picks: seq<nat>, x: nat)
    requires x <= |picks|
    ensures forall p :: p in Firsts(picks, x) <==> p in picks[..x]
  {
    if x > 0 {
      FirstsAre(picks, x - 1);
      assert picks[..x] == picks[..x - 1] + [picks[x - 1]];
    }
  }

  lemma FirstsAreAll(picks: seq<nat>)
    ensures Firsts(picks, |picks|) == PickedSet(picks)
  {
    FirstsAre(picks, |picks|);
    assert picks[..|picks|] == picks;
  }

  lemma WithinIsChosen(c: nat, n: nat, a: seq<bool>, d: nat)
    requires |a| == n && c < n && |Within(a, c, d)| == |Chosen(a)|
    ensures Within(a, c, d) == Chosen(a)
  {
    SizeOfSubset(Within(a, c, d), Chosen(a));
  }

  // ----- arbitrary health of the other slots

  /** While slot `i` stays available and unpicked, every admission brings the position nearer to it. */
  lemma {:induction false} PositionApproaches(n: nat, available: seq<seq<bool>>, positions: seq<nat>, picks: seq<nat>, i: nat, t: nat)
    requires Rotation(n, available, positions, picks) && i < n && t <= |picks|
    requires forall k :: 0 <= k < t ==> i < |available[k]| && available[k][i] && picks[k] != i
    ensures positions[t] < n && Distance(positions[t], i, n) + t < n
  {
    if t > 0 {
      PositionApproaches(n, available, positions, picks, i, t - 1);
      assert HopAt(n, available, positions, picks, t - 1);
      CursorPasses(positions[t - 1], picks[t - 1], i, n);
    }
  }

  /** A slot that stays available is picked within n admissions, whatever happens to the others. */
  lemma PickedWithinOneRound(n: nat, available: seq<seq<bool>>, positions: seq<nat>, picks: seq<nat>, i: nat, m: nat)
    requires Rotation(n, available, positions, picks) && i < n && m + n <= |picks|
    requires forall k :: m <= k < m + n ==> i < |available[k]| && available[k][i]
    ensures exists k :: m <= k < m + n && picks[k] == i
  {
    if forall k :: m <= k < m + n ==> picks[k] != i {
      RotationWindow(n, available, positions, picks, m, n);
      PositionApproaches(n, available[m..m + n], positions[m..m + n + 1], picks[m..m + n], i, n);
    }
  }
}
