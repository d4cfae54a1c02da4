/** Splitting, searching and normalising the strings of HTTP targets and header fields. */
module Strings {

  /** Position of the first `c`, or the length if there is none. */
  function IndexOf(s: string, c: char): (n: nat)
    ensures n <= |s| && c !in s[..n]
    ensures n < |s| ==> s[n] == c
  {
    if s == [] || s[0] == c then 0
    else
      assert forall n: nat :: n <= |s[1..]| ==> s[..n + 1] == [s[0]] + s[1..][..n];
      1 + IndexOf(s[1..], c)
  }

  lemma NotBefore(s: string, c: char, n: nat)
    requires n <= |s| && c !in s[..n]
    ensures forall k :: 0 <= k < n ==> s[k] != c
  {
    forall k | 0 <= k < n ensures s[k] != c { assert s[..n][k] == s[k]; }
  }

  /** The first position is determined by what lies before it. */
  lemma IndexOfIs(s: string, c: char, n: nat)
    requires n <= |s| && c !in s[..n] && (n < |s| ==> s[n] == c)
    ensures IndexOf(s, c) == n
  {
    NotBefore(s, c, n);
    NotBefore(s, c, IndexOf(s, c));
  }

  /** The elements of a list separated by `c`; always at least one, possibly empty. */
  function Split(s: string, c: char): (parts: seq<string>)
    ensures |parts| >= 1
    decreases |s|
  {
    var n := IndexOf(s, c);
    if n == |s| then [s] else [s[..n]] + Split(s[n + 1..], c)
  }

  function Join(parts: seq<string>, c: char): string
    requires parts != []
  {
    if |parts| == 1 then parts[0] else parts[0] + [c] + Join(parts[1..], c)
  }

  /** Splitting loses nothing and splits everywhere: joining gives the string back, and no element holds the separator. */
  lemma {:induction false} SplitIsExact(s: string, c: char)
    ensures Join(Split(s, c), c) == s
    ensures forall p :: p in Split(s, c) ==> c !in p
    decreases |s|
  {
    var n := IndexOf(s, c);
    if n < |s| {
      SplitIsExact(s[n + 1..], c);
      assert Split(s, c)[1..] == Split(s[n + 1..], c);
      assert s == s[..n] + [c] + s[n + 1..];
    } else {
      assert s[..n] == s;
    }
  }

  /** Joining two lists is joining each, with a separator between. */
  lemma {:induction false} JoinAppend(p: seq<string>, q: seq<string>, c: char)
    requires p != [] && q != []
    ensures Join(p + q, c) == Join(p, c) + [c] + Join(q, c)
  {
    if |p| == 1 {
      assert (p + q)[1..] == q;
    } else {
      JoinAppend(p[1..], q, c);
      assert (p + q)[1..] == p[1..] + q;
    }
  }

  /** A separator splits: the elements are those before it and those after it. */
  lemma {:induction false} SplitAppend(a: string, b: string, c: char)
    ensures Split(a + [c] + b, c) == Split(a, c) + Split(b, c)
    decreases |a|
  {
    var n := IndexOf(a, c);
    SplitOfAppend(a, b, c, n);
    if n < |a| {
      SplitAppend(a[n + 1..], b, c);
      SplitFirst(a, c, n);
      Regroup([a[..n]], Split(a[n + 1..], c), Split(b, c));
    }
  }

  /** The first element of `a`, then the rest of it with what is appended; or `a` itself, then what is appended. */
  lemma SplitOfAppend(a: string, b: string, c: char, n: nat)
    requires n == IndexOf(a, c)
    ensures n == |a| ==> Split(a + [c] + b, c) == Split(a, c) + Split(b, c)
    ensures n < |a| ==> Split(a + [c] + b, c) == [a[..n]] + Split(a[n + 1..] + [c] + b, c)
  {
    var s := a + [c] + b;
    FirstOfAppend(a, b, c, n);
    SplitFirst(s, c, n);
    if n == |a| {
      assert s[..n] == a && s[n + 1..] == b;
    } else {
      assert s[..n] == a[..n] && s[n + 1..] == a[n + 1..] + [c] + b;
    }
  }

  lemma Regroup(x: seq<string>, y: seq<string>, z: seq<string>)
    ensures x + (y + z) == x + y + z
  {
  }

  lemma SplitFirst(s: string, c: char, n: nat)
    requires n == IndexOf(s, c) && n < |s|
    ensures Split(s, c) == [s[..n]] + Split(s[n + 1..], c)
  {
  }

  lemma FirstOfAppend(a: string, b: string, c: char, n: nat)
    requires n == IndexOf(a, c)
    ensures IndexOf(a + [c] + b, c) == n
  {
    var s := a + [c] + b;
    assert s[..n] == a[..n];
    IndexOfIs(s, c, n);
  }

  function LowerChar(c: char): char {
    if 'A' <= c <= 'Z' then ((c as int) - ('A' as int) + ('a' as int)) as char else c
  }

  function Lower(s: string): (r: string)
    ensures |r| == |s| && forall k :: 0 <= k < |s| ==> r[k] == LowerChar(s[k])
  {
    seq(|s|, k requires 0 <= k < |s| => LowerChar(s[k]))
  }

  lemma LowerIsIdempotent(s: string)
    ensures Lower(Lower(s)) == Lower(s)
  {
  }

  predicate IsBlank(c: char) { c == ' ' || c == '\t' }

  ghost predicate BlankBetween(s: string, i: int, j: int)
    requires 0 <= i && j <= |s|
  {
    forall k :: i <= k < j ==> IsBlank(s[k])
  }

  /** Position of the first character that is not blank, or the length. */
  function FirstNonBlank(s: string): (n: nat)
    ensures n <= |s| && BlankBetween(s, 0, n) && (n < |s| ==> !IsBlank(s[n]))
  {
    if s == [] || !IsBlank(s[0]) then 0 else 1 + FirstNonBlank(s[1..])
  }

  /** Length of the string without its trailing blanks. */
  function EndNonBlank(s: string): (n: nat)
    ensures n <= |s| && BlankBetween(s, n, |s|) && (n > 0 ==> !IsBlank(s[n - 1]))
  {
    if s == [] || !IsBlank(s[|s| - 1]) then |s| else EndNonBlank(s[..|s| - 1])
  }

  /** `trim_http_token`: surrounding blanks removed, letters lowered. */
  function TrimToken(s: string): (t: string)
  {
    var first := FirstNonBlank(s);
    if first == |s| then ""
    else
      var end := EndNonBlank(s);
      assert first < end;
      Lower(s[first..end])
  }

  /** A token is what remains between blanks: it neither starts nor ends with one, and only blanks were dropped. */
  lemma TokenIsTheTrimmedText(s: string, left: string, core: string, right: string)
    requires s == left + core + right
    requires (forall c :: c in left ==> c == ' ' || c == '\t') && (forall c :: c in right ==> c == ' ' || c == '\t')
    requires core != "" ==> core[0] != ' ' && core[0] != '\t' && core[|core| - 1] != ' ' && core[|core| - 1] != '\t'
    ensures TrimToken(s) == Lower(core)
  {
    assert forall k :: 0 <= k < |left| ==> IsBlank(s[k]) by {
      forall k | 0 <= k < |left| ensures IsBlank(s[k]) { assert s[k] == left[k] && left[k] in left; }
    }
    assert forall k :: |left| + |core| <= k < |s| ==> IsBlank(s[k]) by {
      forall k | |left| + |core| <= k < |s| ensures IsBlank(s[k]) { assert s[k] == right[k - |left| - |core|] && right[k - |left| - |core|] in right; }
    }
    if core != "" {
      assert s[|left|] == core[0] && s[|left| + |core| - 1] == core[|core| - 1];
      assert s[FirstNonBlank(s)..EndNonBlank(s)] == core;
    }
  }
}
