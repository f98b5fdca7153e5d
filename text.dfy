/** Small facts about strings that the parsers and the renderer are specified with. */
module Text {

  datatype Option<+T> = None | Some(value: T) {
    predicate IsFailure() { None? }
    function PropagateFailure<U>(): Option<U> requires None? { None }
    function Extract(): T requires Some? { value }
  }

  predicate StartsWith(s: string, p: string) {
    |p| <= |s| && s[..|p|] == p
  }

  lemma StartsWithBoth(s: string, t1: string, t2: string, r1: string, r2: string)
    requires s == t1 + r1 && r1 == t2 + r2
    ensures StartsWith(s, t1 + t2) && s == (t1 + t2) + r2
  {
    assert s == (t1 + t2) + r2;
    assert (t1 + t2 + r2)[..|t1 + t2|] == t1 + t2;
  }

  /** Regrouping a concatenation of three strings. */
  lemma Regroup3(a: string, b: string, c: string)
    ensures a + b + c == a + (b + c)
  {
  }

  /** Regrouping a concatenation of four strings. */
  lemma Regroup4(a: string, b: string, c: string, d: string)
    ensures a + b + c + d == a + (b + (c + d))
  {
  }

  /** Regrouping a concatenation of six strings. */
  lemma Regroup4Nested(a: string, b: string, c: string, d: string, r: string)
    ensures a + (b + (c + d)) + r == a + b + c + d + r
  {
  }

  lemma Regroup6(a: string, b: string, c: string, d: string, e: string, f: string)
    ensures a + (b + (c + (d + (e + f)))) == a + b + c + d + e + f
  {
  }

  /** Regrouping a concatenation of seven strings. */
  lemma Regroup7(a: string, b: string, c: string, d: string, e: string, f: string, g: string)
    ensures a + b + c + d + e + f + g == a + (b + (c + (d + (e + (f + g)))))
  {
  }

  /** Regrouping a concatenation of seven strings followed by a rest. */
  lemma Regroup8(a: string, b: string, c: string, d: string, e: string, f: string, g: string,
                 r: string)
    ensures a + b + c + d + e + f + g + r == a + (b + (c + (d + (e + (f + (g + r))))))
  {
  }

  /** Regrouping a concatenation of eight strings followed by a rest. */
  lemma Regroup9(a: string, b: string, c: string, d: string, e: string, f: string, g: string,
                 h: string, r: string)
    ensures a + b + c + d + e + f + g + h + r == a + (b + (c + (d + (e + (f + (g + (h + r)))))))
  {
  }

  /** Regrouping a concatenation of nine strings followed by a rest. */
  lemma Regroup10(a: string, b: string, c: string, d: string, e: string, f: string, g: string,
                  h: string, i: string, r: string)
    ensures a + b + c + d + e + f + g + h + i + r
      == a + (b + (c + (d + (e + (f + (g + (h + (i + r))))))))
  {
  }

  /** A non-empty sequence is its head followed by its tail. */
  lemma HeadTail<T>(xs: seq<T>)
    requires xs != []
    ensures [xs[0]] + xs[1..] == xs
  {
  }

  /** `r` is a suffix of `s`: what a parser leaves of its input. */
  predicate SuffixOf(r: string, s: string) {
    |r| <= |s| && s[|s| - |r|..] == r
  }

  lemma SuffixOfAppend(x: string, r: string)
    ensures SuffixOf(r, x + r)
  {
    assert (x + r)[|x|..] == r;
  }

  lemma SuffixOfTrans(a: string, b: string, c: string)
    requires SuffixOf(a, b) && SuffixOf(b, c)
    ensures SuffixOf(a, c)
  {
    assert c[|c| - |a|..] == c[|c| - |b|..][|b| - |a|..];
  }

  predicate IsBlank(c: char) { c == ' ' || c == '\t' }

  predicate IsLineBreak(c: char) { c == '\n' || c == '\r' }

  predicate AllBlank(s: string) {
    forall i | 0 <= i < |s| :: IsBlank(s[i])
  }

  /** No carriage return and no line feed. */
  predicate SingleLine(s: string) {
    forall i | 0 <= i < |s| :: !IsLineBreak(s[i])
  }

  lemma SingleLineAppend(a: string, b: string)
    requires SingleLine(a) && SingleLine(b)
    ensures SingleLine(a + b)
  {
    forall i | 0 <= i < |a + b| ensures !IsLineBreak((a + b)[i]) {
      if i >= |a| { assert (a + b)[i] == b[i - |a|]; }
    }
  }

  /** `p` occurs in `s` starting at index `j`. */
  predicate OccursAt(s: string, p: string, j: nat) {
    j + |p| <= |s| && s[j..j + |p|] == p
  }

  predicate Contains(s: string, p: string) {
    exists j: nat | j <= |s| :: OccursAt(s, p, j)
  }

  lemma OccursAtShift(s: string, p: string, j: nat)
    requires s != []
    ensures OccursAt(s[1..], p, j) <==> OccursAt(s, p, j + 1)
  {
    if j + 1 + |p| <= |s| {
      assert s[1..][j..j + |p|] == s[j + 1..j + 1 + |p|];
    }
  }

  /** `p` starts nowhere inside `b`, not even running on into a `p` that follows `b`:
      `b + p` holds `p` first at the end of `b`. */
  predicate Clear(b: string, p: string) {
    forall j: nat | j < |b| :: !OccursAt(b + p, p, j)
  }

  /** Whether `p` starts inside `b` depends only on the first `|p|` characters that
      follow `b`. */
  lemma ClearBefore(b: string, p: string, t: string)
    requires StartsWith(t, p)
    ensures Clear(b, p) <==> forall j: nat | j < |b| :: !OccursAt(b + t, p, j)
  {
    forall j: nat | j < |b|
      ensures OccursAt(b + p, p, j) <==> OccursAt(b + t, p, j)
    {
      assert (b + t)[..|b| + |p|] == b + p;
      if j + |p| <= |b| + |p| {
        assert (b + t)[j..j + |p|] == (b + t)[..|b| + |p|][j..j + |p|];
      }
    }
  }

  /** A text without the first character of `p` is clear of `p`. */
  lemma ClearWithout(b: string, p: string)
    requires p != [] && p[0] !in b
    ensures Clear(b, p)
  {
    forall j: nat | j < |b| ensures !OccursAt(b + p, p, j) {
      assert (b + p)[j] == b[j];
    }
  }

  /** The first index at which `p` occurs in `s`. */
  function Find(s: string, p: string): (r: Option<nat>)
    ensures r.Some? ==> OccursAt(s, p, r.value)
    ensures r.Some? ==> forall j: nat | j < r.value :: !OccursAt(s, p, j)
    ensures r.None? ==> forall j: nat | j <= |s| :: !OccursAt(s, p, j)
    decreases |s|
  {
    if StartsWith(s, p) then Some(0)
    else if s == [] then None
    else
      match Find(s[1..], p)
      case Some(i) =>
        OccursAtShift(s, p, i);
        assert forall j: nat | j < i + 1 :: !OccursAt(s, p, j) by {
          forall j: nat | j < i + 1 ensures !OccursAt(s, p, j) {
            if j > 0 { OccursAtShift(s, p, j - 1); }
          }
        }
        Some(i + 1)
      case None =>
        assert forall j: nat | j <= |s| :: !OccursAt(s, p, j) by {
          forall j: nat | j <= |s| ensures !OccursAt(s, p, j) {
            if j > 0 { OccursAtShift(s, p, j - 1); }
          }
        }
        None
  }

  /** The number of line feeds in `s`. */
  function CountLines(s: string): nat {
    if s == [] then 0 else (if s[0] == '\n' then 1 else 0) + CountLines(s[1..])
  }

  lemma {:induction false} CountLinesAppend(a: string, b: string)
    ensures CountLines(a + b) == CountLines(a) + CountLines(b)
  {
    if a == [] {
      assert a + b == b;
    } else {
      assert (a + b)[1..] == a[1..] + b;
      CountLinesAppend(a[1..], b);
    }
  }

  lemma {:induction false} CountLinesNone(s: string)
    requires '\n' !in s
    ensures CountLines(s) == 0
  {
    if s != [] {
      assert s[0] != '\n';
      CountLinesNone(s[1..]);
    }
  }
}
