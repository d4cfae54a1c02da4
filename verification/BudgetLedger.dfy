/** The body-buffer budget as a ledger: what is reserved is exactly what live permits hold. */
module BudgetLedger {

  /** Bytes held by each live permit. */
  type Holdings<!P> = map<P, nat>

  ghost function Sum<P>(held: Holdings<P>): nat
  {
    if held == map[] then 0
    else
      var p :| p in held;
      held[p] + Sum(held - {p})
  }

  lemma {:induction false} SumWithout<P>(held: Holdings<P>, p: P)
    requires p in held
    ensures Sum(held) == held[p] + Sum(held - {p})
    decreases |held|
  {
    var q :| q in held && Sum(held) == held[q] + Sum(held - {q});
    if q != p {
      SumWithout(held - {q}, p);
      assert held - {q} - {p} == held - {p} - {q};
      SumWithout(held - {p}, q);
    }
  }

  lemma SumWith<P>(held: Holdings<P>, p: P, n: nat)
    requires p !in held
    ensures Sum(held[p := n]) == Sum(held) + n
  {
    SumWithout(held[p := n], p);
    assert held[p := n] - {p} == held;
  }

  lemma SumUpdate<P>(held: Holdings<P>, p: P, n: nat)
    requires p in held
    ensures Sum(held[p := n]) == Sum(held) - held[p] + n
  {
    SumWithout(held, p);
    SumWithout(held[p := n], p);
    assert held[p := n] - {p} == held - {p};
  }

  datatype Ledger<!P> = Ledger(max: nat, current: nat, held: Holdings<P>) {
    /** Conservation: the counter is the sum over live permits, within the limit. */
    ghost predicate Valid() {
      current == Sum(held) <= max
    }

    predicate HasRoom(n: nat) { current + n <= max }

    function Acquired(p: P, n: nat): Ledger<P> {
      this.(current := current + n, held := held[p := n])
    }

    function Released(p: P): Ledger<P> {
      if p !in held then this
      else this.(current := if held[p] <= current then current - held[p] else current, held := held - {p})
    }

    predicate Shrinks(p: P, n: nat) {
      p in held && n <= held[p] && held[p] - n <= current
    }

    function Shrunk(p: P, n: nat): Ledger<P> {
      if Shrinks(p, n) then this.(current := current - (held[p] - n), held := held[p := n]) else this
    }

    /** Move assignment: what `to` held is released, and what `from` held changes hands. */
    function Moved(from: P, to: P): Ledger<P> {
      if from == to then this else Released(to).Handed(from, to)
    }

    function Handed(from: P, to: P): Ledger<P> {
      if from in held then this.(held := (held - {from})[to := held[from]]) else this
    }
  }

  lemma AcquireConserves<P>(l: Ledger<P>, p: P, n: nat)
    requires l.Valid() && p !in l.held && l.HasRoom(n)
    ensures l.Acquired(p, n).Valid()
  {
    SumWith(l.held, p, n);
  }

  /** Releasing never meets its underflow guard and gives back exactly what the permit held. */
  lemma ReleaseConserves<P>(l: Ledger<P>, p: P)
    requires l.Valid()
    ensures l.Released(p).Valid()
    ensures p in l.held ==> l.held[p] <= l.current && l.Released(p).current == l.current - l.held[p]
  {
    if p in l.held {
      SumWithout(l.held, p);
    }
  }

  /** A shrink fails only for a permit that owns nothing or a larger size: its underflow guard is never met. */
  lemma ShrinkConserves<P>(l: Ledger<P>, p: P, n: nat)
    requires l.Valid()
    ensures l.Shrunk(p, n).Valid()
    ensures l.Shrinks(p, n) <==> p in l.held && n <= l.held[p]
  {
    if p in l.held {
      SumWithout(l.held, p);
      if n <= l.held[p] {
        SumUpdate(l.held, p, n);
      }
    }
  }

  lemma HandConserves<P>(l: Ledger<P>, from: P, to: P)
    requires l.Valid() && to !in l.held
    ensures l.Handed(from, to).Valid() && l.Handed(from, to).current == l.current
  {
    if from in l.held {
      SumWithout(l.held, from);
      SumWith(l.held - {from}, to, l.held[from]);
    }
  }

  lemma MoveConserves<P>(l: Ledger<P>, from: P, to: P)
    requires l.Valid()
    ensures l.Moved(from, to).Valid()
    ensures from != to && to !in l.held ==> l.Moved(from, to).current == l.current
  {
    ReleaseConserves(l, to);
    if from != to {
      HandConserves(l.Released(to), from, to);
    }
  }

  // ----- whole runs, including permits kept alive by several shared holders

  datatype Op<P> =
    | Acquire(permit: P, bytes: nat)
    | Release(permit: P)
    | Move(from: P, to: P)
    | Shrink(permit: P, bytes: nat)
    | Share(permit: P)
    | Drop(permit: P)

  /** A ledger with the number of shared holders of each permit object. */
  datatype World<!P> = World(ledger: Ledger<P>, holders: map<P, nat>)

  function Step<P>(w: World<P>, op: Op<P>): World<P> {
    match op
    case Acquire(p, n) =>
      if p !in w.ledger.held && w.ledger.HasRoom(n) then w.(ledger := w.ledger.Acquired(p, n)) else w
    case Release(p) => w.(ledger := w.ledger.Released(p))
    case Move(from, to) => w.(ledger := w.ledger.Moved(from, to))
    case Shrink(p, n) => w.(ledger := w.ledger.Shrunk(p, n))
    case Share(p) => w.(holders := w.holders[p := Holders(w, p) + 1])
    case Drop(p) =>
      if Holders(w, p) > 1 then w.(holders := w.holders[p := Holders(w, p) - 1])
      else World(w.ledger.Released(p), w.holders - {p})
  }

  function Holders<P>(w: World<P>, p: P): nat {
    if p in w.holders then w.holders[p] else 0
  }

  function After<P>(w: World<P>, ops: seq<Op<P>>): World<P> {
    if ops == [] then w else Step(After(w, ops[..|ops| - 1]), ops[|ops| - 1])
  }

  lemma StepConserves<P>(w: World<P>, op: Op<P>)
    requires w.ledger.Valid()
    ensures Step(w, op).ledger.Valid() && Step(w, op).ledger.max == w.ledger.max
  {
    match op
    case Acquire(p, n) => if p !in w.ledger.held && w.ledger.HasRoom(n) { AcquireConserves(w.ledger, p, n); }
    case Release(p) => ReleaseConserves(w.ledger, p);
    case Move(from, to) => MoveConserves(w.ledger, from, to);
    case Shrink(p, n) => ShrinkConserves(w.ledger, p, n);
    case Share(p) =>
    case Drop(p) => ReleaseConserves(w.ledger, p);
  }

  /** Conservation over every sequence of operations, from an empty budget. */
  lemma {:induction false} RunConserves<P>(max: nat, ops: seq<Op<P>>)
    ensures var w := After(World(Ledger(max, 0, map[]), map[]), ops);
      w.ledger.current == Sum(w.ledger.held) <= w.ledger.max == max
  {
    if ops != [] {
      RunConserves<P>(max, ops[..|ops| - 1]);
      StepConserves(After(World(Ledger(max, 0, map[]), map[]), ops[..|ops| - 1]), ops[|ops| - 1]);
    }
  }

  /** Dropping one of several holders keeps the bytes reserved; dropping the last gives them back. */
  lemma OnlyTheLastHolderReleases<P>(w: World<P>, p: P)
    requires w.ledger.Valid() && p in w.ledger.held
    ensures Holders(w, p) > 1 ==> Step(w, Drop(p)).ledger == w.ledger
    ensures Holders(w, p) <= 1 ==>
      p !in Step(w, Drop(p)).ledger.held && Step(w, Drop(p)).ledger.current == w.ledger.current - w.ledger.held[p]
  {
    ReleaseConserves(w.ledger, p);
  }
}
