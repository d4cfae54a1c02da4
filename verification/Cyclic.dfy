/** Positions on a ring of `n` slots, scanned from a cursor. */
module Cyclic {

  /** How far `i` lies ahead of the cursor `c`. */
  function Distance(c: nat, i: nat, n: nat): (d: nat)
    requires c < n && i < n
    ensures d < n
  {
    if c <= i then i - c else i + n - c
  }

  function Successor(i: nat, n: nat): (r: nat)
    requires i < n
    ensures r < n
  {
    if i + 1 == n then 0 else i + 1
  }

  /** `i` is the first slot, scanning forward from the cursor, for which `ok` holds. */
  ghost predicate IsFirst(ok: seq<bool>, c: nat, i: nat)
    requires c < |ok|
  {
    && i < |ok|
    && ok[i]
    && (forall k :: 0 <= k < |ok| && ok[k] ==> Distance(c, i, |ok|) <= Distance(c, k, |ok|))
  }

  /** Distances once the cursor has moved just past `j`: slots ahead of `j` come nearer, the others wrap around. */
  lemma CursorPasses(c: nat, j: nat, i: nat, n: nat)
    requires c < n && i < n && j < n
    ensures var d := Distance(Successor(j, n), i, n);
      if Distance(c, j, n) < Distance(c, i, n) then d == Distance(c, i, n) - Distance(c, j, n) - 1
      else d == Distance(c, i, n) + n - Distance(c, j, n) - 1
  {
  }
}
