/** The nom 7 combinators the Movable Type parsers are built from, over `string`. */
module Nom {
  import opened Text

  /** How a parser fails. `Mismatch` is nom's recoverable `Err::Error` (the `Incomplete`
      that the streaming `tag` returns on a too-short input is merged into it); `Panic`
      is an `unwrap` that fails inside a mapping closure and aborts the program. */
  datatype Fault = Mismatch | Panic

  /** `IResult<&str, T>`: the input left over and the value read, or a fault. */
  datatype Outcome<+T> = Ok(rest: string, value: T) | Err(fault: Fault) {
    predicate IsFailure() { Err? }
    function PropagateFailure<U>(): Outcome<U> requires Err? { Err(fault) }
    function Extract(): (string, T) requires Ok? { (rest, value) }
  }

  /** `tag(t)`, complete and streaming alike. */
  function Tag(t: string, s: string): (r: Outcome<()>)
    ensures r.Ok? <==> StartsWith(s, t)
    ensures r.Ok? ==> s == t + r.rest
    ensures r.Err? ==> r.fault == Mismatch
  {
    if StartsWith(s, t) then Ok(s[|t|..], ()) else Err(Mismatch)
  }

  lemma TagOf(t: string, r: string)
    ensures Tag(t, t + r) == Ok(r, ())
  {
    assert (t + r)[..|t|] == t;
    assert (t + r)[|t|..] == r;
  }

  /** The length of the longest prefix of blanks (spaces and tabs). */
  function BlankRun(s: string): (n: nat)
    ensures n <= |s| && AllBlank(s[..n])
    ensures n < |s| ==> !IsBlank(s[n])
  {
    if s != [] && IsBlank(s[0]) then
      var n := 1 + BlankRun(s[1..]);
      assert forall i | 1 <= i < n :: s[..n][i] == s[1..][..n - 1][i - 1];
      n
    else 0
  }

  /** `space0`: the longest run of spaces and tabs, possibly empty; it never fails. */
  function Space0(s: string): (r: Outcome<string>)
    ensures r.Ok? && s == r.value + r.rest && AllBlank(r.value)
    ensures r.rest == [] || !IsBlank(r.rest[0])
  {
    var n := BlankRun(s);
    assert s == s[..n] + s[n..];
    Ok(s[n..], s[..n])
  }

  lemma BlankRunOf(ws: string, t: string)
    requires AllBlank(ws) && (t == [] || !IsBlank(t[0]))
    ensures BlankRun(ws + t) == |ws|
    decreases |ws|
  {
    if ws == [] {
      assert ws + t == t;
    } else {
      assert (ws + t)[1..] == ws[1..] + t;
      BlankRunOf(ws[1..], t);
    }
  }

  lemma Space0Of(ws: string, t: string)
    requires AllBlank(ws) && (t == [] || !IsBlank(t[0]))
    ensures Space0(ws + t) == Ok(t, ws)
  {
    BlankRunOf(ws, t);
    assert (ws + t)[..|ws|] == ws && (ws + t)[|ws|..] == t;
  }

  /** The length of the longest prefix without a carriage return or a line feed. */
  function LineRun(s: string): (n: nat)
    ensures n <= |s| && SingleLine(s[..n])
    ensures n < |s| ==> IsLineBreak(s[n])
  {
    if s != [] && !IsLineBreak(s[0]) then
      var n := 1 + LineRun(s[1..]);
      assert forall i | 1 <= i < n :: s[..n][i] == s[1..][..n - 1][i - 1];
      n
    else 0
  }

  /** `not_line_ending` (complete): everything up to the first `\n` or `\r\n`, or the whole
      input when it holds neither; a `\r` not followed by `\n` is an error. */
  function NotLineEnding(s: string): (r: Outcome<string>)
    ensures r.Ok? ==> s == r.value + r.rest && SingleLine(r.value)
    ensures r.Ok? ==> r.rest == [] || StartsWith(r.rest, "\n") || StartsWith(r.rest, "\r\n")
    ensures r.Err? ==> r.fault == Mismatch && '\r' in s
    ensures r.Err? ==> exists i | 0 <= i < |s| ::
      SingleLine(s[..i]) && s[i] == '\r' && !StartsWith(s[i..], "\r\n")
  {
    var n := LineRun(s);
    assert s == s[..n] + s[n..];
    if n < |s| && s[n] == '\r' && !StartsWith(s[n..], "\r\n") then
      assert SingleLine(s[..n]);
      Err(Mismatch)
    else
      assert n < |s| ==> s[n..][0] == s[n];
      Ok(s[n..], s[..n])
  }

  lemma LineRunOf(v: string, t: string)
    requires SingleLine(v) && t != [] && IsLineBreak(t[0])
    ensures LineRun(v + t) == |v|
    decreases |v|
  {
    if v == [] {
      assert v + t == t;
    } else {
      assert (v + t)[1..] == v[1..] + t;
      LineRunOf(v[1..], t);
    }
  }

  lemma NotLineEndingOf(v: string, term: string, rest: string)
    requires SingleLine(v) && (term == "\n" || term == "\r\n")
    ensures NotLineEnding(v + (term + rest)) == Ok(term + rest, v)
  {
    var t := term + rest;
    assert t[0] == term[0];
    LineRunOf(v, t);
    assert (v + t)[..|v|] == v && (v + t)[|v|..] == t;
    if term == "\r\n" {
      assert (v + t)[|v|..][..2] == term;
    }
  }

  lemma NotLineEndingBareReturn(v: string, tail: string)
    requires SingleLine(v) && !StartsWith(tail, "\n")
    ensures NotLineEnding(v + ("\r" + tail)) == Err(Mismatch)
  {
    var t := "\r" + tail;
    assert t[0] == '\r';
    LineRunOf(v, t);
    assert (v + t)[|v|] == '\r';
    assert (v + t)[|v|..] == t;
    assert !StartsWith(t, "\r\n") by {
      if |t| >= 2 { assert t[1] == tail[0] && tail[..1] == [tail[0]]; }
    }
  }

  /** `line_ending`: a `\n` or a `\r\n`. */
  function LineEnding(s: string): (r: Outcome<string>)
    ensures r.Ok? <==> StartsWith(s, "\n") || StartsWith(s, "\r\n")
    ensures r.Ok? ==> (r.value == "\n" || r.value == "\r\n") && s == r.value + r.rest
    ensures r.Err? ==> r.fault == Mismatch
  {
    if StartsWith(s, "\n") then Ok(s[1..], "\n")
    else if StartsWith(s, "\r\n") then Ok(s[2..], "\r\n")
    else Err(Mismatch)
  }

  lemma LineEndingOf(term: string, rest: string)
    requires term == "\n" || term == "\r\n"
    ensures LineEnding(term + rest) == Ok(rest, term)
  {
    assert (term + rest)[..|term|] == term;
    assert (term + rest)[|term|..] == rest;
    assert (term + rest)[0] == term[0];
  }

  /** `take_until(p)` (complete): everything before the first occurrence of `p`, which
      stays in the input; an error when `p` does not occur. */
  function TakeUntil(p: string, s: string): (r: Outcome<string>)
    ensures r.Ok? ==> s == r.value + r.rest && StartsWith(r.rest, p)
    ensures r.Ok? ==> forall j: nat | j < |r.value| :: !OccursAt(s, p, j)
    ensures r.Ok? ==> Clear(r.value, p)
    ensures r.Err? <==> !Contains(s, p)
    ensures r.Err? ==> r.fault == Mismatch
  {
    match Find(s, p)
    case Some(i) =>
      assert s == s[..i] + s[i..];
      assert s[i..][..|p|] == s[i..i + |p|];
      ClearBefore(s[..i], p, s[i..]);
      Ok(s[i..], s[..i])
    case None => Err(Mismatch)
  }

  /** `take_until(p)` stops right after a text clear of `p`, at the `p` that follows it. */
  lemma TakeUntilOf(p: string, v: string, t: string)
    requires Clear(v, p) && StartsWith(t, p)
    ensures TakeUntil(p, v + t) == Ok(t, v)
  {
    var s := v + t;
    ClearBefore(v, p, t);
    assert s[|v|..|v| + |p|] == t[..|p|];
    assert OccursAt(s, p, |v|);
    var i := Find(s, p).value;
    assert s[..i] == v && s[i..] == t;
  }

  /** `newline`: a line feed, and only that. */
  function Newline(s: string): (r: Outcome<char>)
    ensures r.Ok? <==> StartsWith(s, "\n")
    ensures r.Ok? ==> s == "\n" + r.rest
    ensures r.Err? ==> r.fault == Mismatch
  {
    if StartsWith(s, "\n") then Ok(s[1..], '\n') else Err(Mismatch)
  }

  lemma NewlineOf(rest: string)
    ensures Newline("\n" + rest) == Ok(rest, '\n')
  {
    assert ("\n" + rest)[1..] == rest;
  }

  /** `pair(tag(t), newline)`: the line `t`. */
  function TagLine(t: string, s: string): (r: Outcome<()>)
    ensures r.Ok? <==> StartsWith(s, t + "\n")
    ensures r.Ok? ==> s == t + "\n" + r.rest
    ensures r.Err? ==> r.fault == Mismatch
  {
    var (s0, _) :- Tag(t, s);
    var (s1, _) :- Newline(s0);
    StartsWithBoth(s, t, "\n", s0, s1);
    Ok(s1, ())
  }

  lemma TagLineOf(t: string, rest: string)
    ensures TagLine(t, t + "\n" + rest) == Ok(rest, ())
  {
    assert t + "\n" + rest == t + ("\n" + rest);
    TagOf(t, "\n" + rest);
    NewlineOf(rest);
  }
}
