/** src/movable_type/comments.rs: the comment block of an entry, an opening `-----`,
    `COMMENT:` records separated by `-----` and a closing `--------`. */
module Comments {
  import opened Text
  import opened Nom
  import opened Numbers
  import opened Chrono
  import opened Utils
  import Author
  import Common

  /** `IP`: an IPv4 address, four bytes. */
  datatype Ip = Ip(a: Byte, b: Byte, c: Byte, d: Byte)

  datatype Comment = Comment(author: string, ip: Ip, date: DateTime, body: string)

  /** `ip`: the line `IP: `, four bytes in decimal separated by dots, a line feed. */
  function DecodeIp(s: string): (r: Outcome<Ip>)
    ensures r.Ok? ==> StartsWith(s, "IP: ") && |r.rest| < |s|
    ensures !StartsWith(s, "IP: ") ==> r == Err(Mismatch)
    ensures r.Err? ==> r.fault == Mismatch
  {
    var (s0, _) :- Tag("IP: ", s);
    var (s1, a) :- U8Prefix(s0);
    var (s2, _) :- Tag(".", s1);
    var (s3, b) :- U8Prefix(s2);
    var (s4, _) :- Tag(".", s3);
    var (s5, c) :- U8Prefix(s4);
    var (s6, _) :- Tag(".", s5);
    var (s7, d) :- U8Prefix(s6);
    var (s8, _) :- Newline(s7);
    Ok(s8, Ip(a, b, c, d))
  }

  /** The line an export writes for an address: each byte in shortest decimal. */
  function IpText(ip: Ip): string {
    "IP: " + Decimal(ip.a) + "." + Decimal(ip.b) + "." + Decimal(ip.c) + "." + Decimal(ip.d) + "\n"
  }

  lemma DotStartsNoDigit(t: string)
    ensures ("." + t)[0] == '.' && ("\n" + t)[0] == '\n'
  {
  }

  /** Every address is read back from its line, and the read stops right after it. */
  lemma DecodeIpText(ip: Ip, rest: string)
    ensures DecodeIp(IpText(ip) + rest) == Ok(rest, ip)
  {
    var t8 := "\n" + rest;
    var t7 := Decimal(ip.d) + t8;
    var t6 := "." + t7;
    var t5 := Decimal(ip.c) + t6;
    var t4 := "." + t5;
    var t3 := Decimal(ip.b) + t4;
    var t2 := "." + t3;
    var t1 := Decimal(ip.a) + t2;
    Regroup10("IP: ", Decimal(ip.a), ".", Decimal(ip.b), ".", Decimal(ip.c), ".", Decimal(ip.d),
      "\n", rest);
    assert IpText(ip) + rest == "IP: " + t1;
    TagOf("IP: ", t1);
    DotStartsNoDigit(t3);
    DotStartsNoDigit(t5);
    DotStartsNoDigit(t7);
    DotStartsNoDigit(rest);
    U8PrefixOfDecimal(ip.a, t2);
    TagOf(".", t3);
    U8PrefixOfDecimal(ip.b, t4);
    TagOf(".", t5);
    U8PrefixOfDecimal(ip.c, t6);
    TagOf(".", t7);
    U8PrefixOfDecimal(ip.d, t8);
    NewlineOf(rest);
  }

  /** Conversely a successful read is of `IP: `, four runs of digits worth the bytes
      read, separated by dots, and a line feed; leading zeros are allowed. */
  lemma DecodeIpParts(s: string) returns (d0: string, d1: string, d2: string, d3: string)
    requires DecodeIp(s).Ok?
    ensures d0 != [] && AllDigits(d0) && d1 != [] && AllDigits(d1)
    ensures d2 != [] && AllDigits(d2) && d3 != [] && AllDigits(d3)
    ensures var ip := DecodeIp(s).value;
      Value(d0) == ip.a && Value(d1) == ip.b && Value(d2) == ip.c && Value(d3) == ip.d
    ensures s == "IP: " + d0 + "." + d1 + "." + d2 + "." + d3 + "\n" + DecodeIp(s).rest
  {
    var r0 := Tag("IP: ", s);
    assert r0.Ok?;
    var r1 := U8Prefix(r0.rest);
    assert r1.Ok?;
    var r2 := Tag(".", r1.rest);
    assert r2.Ok?;
    var r3 := U8Prefix(r2.rest);
    assert r3.Ok?;
    var r4 := Tag(".", r3.rest);
    assert r4.Ok?;
    var r5 := U8Prefix(r4.rest);
    assert r5.Ok?;
    var r6 := Tag(".", r5.rest);
    assert r6.Ok?;
    var r7 := U8Prefix(r6.rest);
    assert r7.Ok?;
    var r8 := Newline(r7.rest);
    assert r8.Ok?;
    assert DecodeIp(s) == Ok(r8.rest, Ip(r1.value, r3.value, r5.value, r7.value));
    d0 := U8PrefixParts(r0.rest);
    d1 := U8PrefixParts(r2.rest);
    d2 := U8PrefixParts(r4.rest);
    d3 := U8PrefixParts(r6.rest);
    var s8 := r8.rest;
    assert s == "IP: " + (d0 + ("." + (d1 + ("." + (d2 + ("." + (d3 + ("\n" + s8))))))));
    Regroup10("IP: ", d0, ".", d1, ".", d2, ".", d3, "\n", s8);
  }

  /** An `IP: ` line whose address does not start with a digit is rejected. */
  lemma DecodeIpRejectsNonNumber(t: string)
    requires t == [] || !IsDigit(t[0])
    ensures DecodeIp("IP: " + t) == Err(Mismatch)
  {
    TagOf("IP: ", t);
  }

  /** A first byte that is not a number, or a number above 255, makes the line fail. */
  lemma DecodeIpRejectsFirst(ds: string, tail: string)
    requires ds != [] && AllDigits(ds) && Value(ds) > 255
    requires tail == [] || !IsDigit(tail[0])
    ensures DecodeIp("IP: " + ds + tail) == Err(Mismatch)
    ensures DecodeIp("IP: " + "." + tail) == Err(Mismatch)
  {
    Regroup3("IP: ", ds, tail);
    TagOf("IP: ", ds + tail);
    U8PrefixRejectsOverflow(ds, tail);
    TagOf("IP: ", "." + tail);
    DotStartsNoDigit(tail);
  }

  /** The same holds of the last byte. */
  lemma DecodeIpRejectsLast(a: Byte, b: Byte, c: Byte, ds: string, tail: string)
    requires ds != [] && AllDigits(ds) && Value(ds) > 255
    requires tail == [] || !IsDigit(tail[0])
    ensures DecodeIp("IP: " + Decimal(a) + "." + Decimal(b) + "." + Decimal(c) + "." + ds + tail)
      == Err(Mismatch)
  {
    var t6 := "." + (ds + tail);
    var t5 := Decimal(c) + t6;
    var t4 := "." + t5;
    var t3 := Decimal(b) + t4;
    var t2 := "." + t3;
    var t1 := Decimal(a) + t2;
    Regroup9("IP: ", Decimal(a), ".", Decimal(b), ".", Decimal(c), ".", ds, tail);
    TagOf("IP: ", t1);
    DotStartsNoDigit(t3);
    DotStartsNoDigit(t5);
    DotStartsNoDigit(ds + tail);
    U8PrefixOfDecimal(a, t2);
    TagOf(".", t3);
    U8PrefixOfDecimal(b, t4);
    TagOf(".", t5);
    U8PrefixOfDecimal(c, t6);
    TagOf(".", ds + tail);
    U8PrefixRejectsOverflow(ds, tail);
    DecodeIpFailsAtLast("IP: " + t1, t1, t2, t3, t4, t5, t6, ds + tail, a, b, c);
  }

  /** The reader's steps up to the last byte, which fails. */
  lemma DecodeIpFailsAtLast(s: string, s0: string, s1: string, s2: string, s3: string,
                            s4: string, s5: string, s6: string, a: Byte, b: Byte, c: Byte)
    requires Tag("IP: ", s) == Ok(s0, ()) && U8Prefix(s0) == Ok(s1, a)
    requires Tag(".", s1) == Ok(s2, ()) && U8Prefix(s2) == Ok(s3, b)
    requires Tag(".", s3) == Ok(s4, ()) && U8Prefix(s4) == Ok(s5, c)
    requires Tag(".", s5) == Ok(s6, ()) && U8Prefix(s6) == Err(Mismatch)
    ensures DecodeIp(s) == Err(Mismatch)
  {
  }

  /** `body`: the text before the first `-----`, or failing that before the first
      `--------`. */
  function CommentBody(s: string): (r: Outcome<string>)
    ensures r.Ok? ==> s == r.value + r.rest && StartsWith(r.rest, "-----")
    ensures r.Err? ==> !Contains(s, "-----") && r.fault == Mismatch
  {
    match TakeUntil("-----", s)
    case Ok(rest, v) => Ok(rest, v)
    case Err(_) =>
      var r := TakeUntil("--------", s);
      assert r.Ok? ==> r.rest[..5] == r.rest[..8][..5];
      r
  }

  /** The second alternative never succeeds where the first fails: a `--------` starts
      with a `-----`. So the body is the text before the first `-----`. */
  lemma CommentBodyIsFirst(s: string)
    ensures CommentBody(s) == TakeUntil("-----", s)
  {
    if TakeUntil("-----", s).Err? {
      if Contains(s, "--------") {
        var j: nat :| j <= |s| && OccursAt(s, "--------", j);
        assert s[j..j + 5] == s[j..j + 8][..5];
        assert OccursAt(s, "-----", j);
      }
    }
  }

  /** `comment`: `COMMENT:` on its own line, the author, the address, the date and the
      body, in this order. */
  function DecodeComment(s: string): (r: Outcome<Comment>)
    ensures r.Ok? ==> StartsWith(s, "COMMENT") && |r.rest| < |s|
    ensures r.Ok? ==> StartsWith(r.rest, "-----") && Clear(r.value.body, "-----")
    ensures r.Ok? ==> SingleLine(r.value.author) && Valid(r.value.date)
    ensures !StartsWith(s, "COMMENT") ==> r == Err(Mismatch)
  {
    var (s0, _) :- Tag("COMMENT", s);
    var (s1, _) :- Tag(":", s0);
    var (s2, _) :- Newline(s1);
    var (s3, author) :- Author.Author(s2);
    var (s4, ip) :- DecodeIp(s3);
    var (s5, date) :- Common.Date(s4);
    var (s6, body) :- CommentBody(s5);
    CommentBodyIsFirst(s5);
    Ok(s6, Comment(author, ip, date, body))
  }

  lemma CommentHeaderOf(t: string)
    ensures Tag("COMMENT", "COMMENT:\n" + t) == Ok(":\n" + t, ())
    ensures Tag(":", ":\n" + t) == Ok("\n" + t, ())
    ensures Newline("\n" + t) == Ok(t, '\n')
  {
    assert "COMMENT:\n" + t == "COMMENT" + (":\n" + t);
    TagOf("COMMENT", ":\n" + t);
    assert ":\n" + t == ":" + ("\n" + t);
    TagOf(":", "\n" + t);
    NewlineOf(t);
  }

  /** The record an export writes for a comment. */
  function CommentText(c: Comment): string {
    "COMMENT:\n" + FieldLine("AUTHOR", c.author) + IpText(c.ip)
      + FieldLine("DATE", FormatFixed(c.date)) + c.body
  }

  /** The comments the reader gives back unchanged. */
  predicate WellFormed(c: Comment) {
    FieldValue(c.author) && Valid(c.date) && c.date.year < 10000 && Clear(c.body, "-----")
  }

  /** Every well-formed comment is read back from its record when a delimiter follows,
      and the delimiter is left in the input. */
  lemma DecodeCommentText(c: Comment, t: string)
    requires WellFormed(c) && StartsWith(t, "-----")
    ensures DecodeComment(CommentText(c) + t) == Ok(t, c)
  {
    var t4 := c.body + t;
    var t3 := FieldLine("DATE", FormatFixed(c.date)) + t4;
    var t2 := IpText(c.ip) + t3;
    var t1 := FieldLine("AUTHOR", c.author) + t2;
    Regroup6("COMMENT:\n", FieldLine("AUTHOR", c.author), IpText(c.ip),
      FieldLine("DATE", FormatFixed(c.date)), c.body, t);
    CommentHeaderOf(t1);
    Author.AuthorOfLine(c.author, t2);
    DecodeIpText(c.ip, t3);
    Common.DateOfLine(c.date, t4);
    TakeUntilOf("-----", c.body, t);
    CommentBodyIsFirst(t4);
  }

  /** `pair(tag("-----"), newline)`: the line between two comments, and the line that
      opens the block. */
  function Separator(s: string): (r: Outcome<()>)
    ensures r.Ok? <==> StartsWith(s, "-----\n")
    ensures r.Ok? ==> s == "-----\n" + r.rest
    ensures r.Err? ==> r.fault == Mismatch
  {
    TagLine("-----", s)
  }

  /** `pair(tag("--------"), newline)`: the line that closes the block. */
  function Closing(s: string): (r: Outcome<()>)
    ensures r.Ok? <==> StartsWith(s, "--------\n")
    ensures r.Ok? ==> s == "--------\n" + r.rest
    ensures r.Err? ==> r.fault == Mismatch
  {
    TagLine("--------", s)
  }

  /** All comments of a list are clear of the delimiter. */
  predicate BodiesClear(cs: seq<Comment>) {
    forall k | 0 <= k < |cs| :: Clear(cs[k].body, "-----")
  }

  /** The loop of nom's `separated_list0` after the first element: a separator and a
      further comment, as long as both are there. A mismatch of either ends the list
      before the separator; a panic inside a comment ends the whole read. */
  function MoreComments(s: string): (r: Outcome<seq<Comment>>)
    ensures r.Ok? ==> |r.rest| <= |s| && BodiesClear(r.value)
    ensures r.Ok? ==> Separator(r.rest).Err? || DecodeComment(Separator(r.rest).rest).Err?
    ensures r.Err? ==> r.fault == Panic
    decreases |s|
  {
    match Separator(s)
    case Err(_) => Ok(s, [])
    case Ok(s1, _) =>
      match DecodeComment(s1)
      case Err(Mismatch) => Ok(s, [])
      case Err(Panic) => Err(Panic)
      case Ok(s2, c) =>
        var (s3, more) :- MoreComments(s2);
        Ok(s3, [c] + more)
  }

  /** `separated_list0(pair(tag("-----"), newline), comment)`: possibly no comment at
      all, else a first one and the loop. */
  function CommentList(s: string): (r: Outcome<seq<Comment>>)
    ensures r.Ok? ==> |r.rest| <= |s| && BodiesClear(r.value)
    ensures r.Ok? && r.value == [] ==> r.rest == s
    ensures r.Err? ==> r.fault == Panic
  {
    match DecodeComment(s)
    case Err(Mismatch) => Ok(s, [])
    case Err(Panic) => Err(Panic)
    case Ok(s1, c) =>
      var (s2, more) :- MoreComments(s1);
      Ok(s2, [c] + more)
  }

  /** `comments`: the opening line, the list of comments and the closing line. */
  function Decode(s: string): (r: Outcome<seq<Comment>>)
    ensures r.Ok? ==> StartsWith(s, "-----\n") && |r.rest| < |s| && BodiesClear(r.value)
    ensures !StartsWith(s, "-----\n") ==> r == Err(Mismatch)
  {
    var (s0, _) :- Separator(s);
    var (s1, cs) :- CommentList(s0);
    var (s2, _) :- Closing(s1);
    Ok(s2, cs)
  }

  /** The records of `cs`, each preceded by a separator line. */
  function SeparatedText(cs: seq<Comment>): string {
    if cs == [] then "" else "-----\n" + CommentText(cs[0]) + SeparatedText(cs[1..])
  }

  /** The records of `cs` separated by separator lines. */
  function CommentsText(cs: seq<Comment>): string {
    if cs == [] then "" else CommentText(cs[0]) + SeparatedText(cs[1..])
  }

  /** The block an export writes for `cs`. */
  function BlockText(cs: seq<Comment>): string {
    "-----\n" + CommentsText(cs) + "--------\n"
  }

  predicate AllWellFormed(cs: seq<Comment>) {
    forall k | 0 <= k < |cs| :: WellFormed(cs[k])
  }

  lemma SeparatorOf(t: string)
    ensures Separator("-----\n" + t) == Ok(t, ())
    ensures StartsWith("-----\n" + t, "-----")
  {
    TagLineOf("-----", t);
  }

  lemma ClosingOf(t: string)
    ensures Closing("--------\n" + t) == Ok(t, ())
    ensures Separator("--------\n" + t).Err? && StartsWith("--------\n" + t, "-----")
  {
    TagLineOf("--------", t);
    assert ("--------\n" + t)[..6] == "------";
    assert ("--------\n" + t)[..5] == "-----";
  }

  /** The loop reads every separated record back, and stops at a text that opens with
      dashes but is no separator line. */
  lemma {:induction false} MoreCommentsText(cs: seq<Comment>, u: string)
    requires AllWellFormed(cs) && StartsWith(u, "-----") && Separator(u).Err?
    ensures MoreComments(SeparatedText(cs) + u) == Ok(u, cs)
    decreases |cs|
  {
    if cs == [] {
      assert SeparatedText(cs) + u == u;
    } else {
      assert WellFormed(cs[0]);
      MoreCommentsText(cs[1..], u);
      MoreCommentsStep(cs[0], cs[1..], u);
      HeadTail(cs);
    }
  }

  lemma MoreCommentsStep(c: Comment, cs: seq<Comment>, u: string)
    requires WellFormed(c) && StartsWith(u, "-----")
    requires MoreComments(SeparatedText(cs) + u) == Ok(u, cs)
    ensures MoreComments(SeparatedText([c] + cs) + u) == Ok(u, [c] + cs)
  {
    var more := SeparatedText(cs) + u;
    var s, s1 := SeparatedText([c] + cs) + u, CommentText(c) + more;
    assert ([c] + cs)[0] == c && ([c] + cs)[1..] == cs;
    Regroup4("-----\n", CommentText(c), SeparatedText(cs), u);
    assert s == "-----\n" + s1;
    SeparatorOf(s1);
    ListStartsWithDash(cs, u);
    DecodeCommentText(c, more);
    MoreCommentsCons(s, s1, c, more, cs, u);
  }

  /** One turn of the loop: a separator line, a comment, and the comments after it. */
  lemma MoreCommentsCons(s: string, s1: string, c: Comment, s2: string, cs: seq<Comment>,
                         u: string)
    requires Separator(s) == Ok(s1, ()) && DecodeComment(s1) == Ok(s2, c)
    requires MoreComments(s2) == Ok(u, cs)
    ensures MoreComments(s) == Ok(u, [c] + cs)
  {
  }

  lemma ListStartsWithDash(cs: seq<Comment>, u: string)
    requires StartsWith(u, "-----")
    ensures StartsWith(SeparatedText(cs) + u, "-----")
  {
    if cs == [] {
      assert SeparatedText(cs) + u == u;
    } else {
      Regroup4("-----\n", CommentText(cs[0]), SeparatedText(cs[1..]), u);
      SeparatorOf(CommentText(cs[0]) + (SeparatedText(cs[1..]) + u));
    }
  }

  /** The list reads every record back, and stops at a text that opens with dashes but
      is no separator line. */
  lemma CommentListText(cs: seq<Comment>, u: string)
    requires AllWellFormed(cs) && StartsWith(u, "-----") && Separator(u).Err?
    ensures CommentList(CommentsText(cs) + u) == Ok(u, cs)
  {
    if cs == [] {
      assert CommentsText(cs) + u == u;
      assert u[..5][0] == '-';
    } else {
      assert WellFormed(cs[0]);
      MoreCommentsText(cs[1..], u);
      CommentListStep(cs[0], cs[1..], u);
      HeadTail(cs);
    }
  }

  lemma CommentListStep(c: Comment, cs: seq<Comment>, u: string)
    requires WellFormed(c) && StartsWith(u, "-----")
    requires MoreComments(SeparatedText(cs) + u) == Ok(u, cs)
    ensures CommentList(CommentsText([c] + cs) + u) == Ok(u, [c] + cs)
  {
    var more := SeparatedText(cs) + u;
    var s := CommentsText([c] + cs) + u;
    assert ([c] + cs)[0] == c && ([c] + cs)[1..] == cs;
    Regroup3(CommentText(c), SeparatedText(cs), u);
    assert s == CommentText(c) + more;
    ListStartsWithDash(cs, u);
    DecodeCommentText(c, more);
    CommentListCons(s, c, more, cs, u);
  }

  lemma CommentListCons(s: string, c: Comment, s1: string, cs: seq<Comment>, u: string)
    requires DecodeComment(s) == Ok(s1, c) && MoreComments(s1) == Ok(u, cs)
    ensures CommentList(s) == Ok(u, [c] + cs)
  {
  }

  /** Every list of well-formed comments is read back from its block, in order, and the
      read stops right after the closing line. */
  lemma DecodeBlockText(cs: seq<Comment>, rest: string)
    requires AllWellFormed(cs)
    ensures Decode(BlockText(cs) + rest) == Ok(rest, cs)
  {
    var closing := "--------\n" + rest;
    var s1 := CommentsText(cs) + closing;
    Regroup4("-----\n", CommentsText(cs), "--------\n", rest);
    assert BlockText(cs) + rest == "-----\n" + s1;
    SeparatorOf(s1);
    ClosingOf(rest);
    CommentListText(cs, closing);
  }

  // The examples of comments.rs, one fact at a time.
  lemma Decimal127() ensures Decimal(127) == "127" {}
  lemma Decimal196() ensures Decimal(196) == "196" {}
  lemma Decimal168() ensures Decimal(168) == "168" {}
  lemma Decimal0() ensures Decimal(0) == "0" {}
  lemma Decimal1() ensures Decimal(1) == "1" {}
  lemma LoopbackLine() ensures "IP: " + "127" + "." + "0" + "." + "0" + "." + "1" + "\n" == "IP: 127.0.0.1\n" {}
  lemma SecondIpLine() ensures "IP: " + "196" + "." + "168" + "." + "1" + "." + "1" + "\n" == "IP: 196.168.1.1\n" {}
  lemma PadDay20() ensures ZeroPad(20, 2) == "20" {}
  lemma PadMinute10() ensures ZeroPad(10, 2) == "10" {}
  lemma PadZero() ensures ZeroPad(0, 2) == "00" {}
  lemma JoinSecondDate() ensures Join3("09", '/', "20", "2021") == "09/20/2021" {}
  lemma JoinSecondTime() ensures Join3("22", ':', "10", "00") == "22:10:00" {}
  lemma JoinSecondDateTime() ensures "09/20/2021" + " " + "22:10:00" == "09/20/2021 22:10:00" {}
  lemma SecondDateLine()
    ensures FieldLine("DATE", "09/20/2021 22:10:00") == "DATE: 09/20/2021 22:10:00\n"
  {}
  lemma SecondAuthorLine() ensures FieldLine("AUTHOR", "wat-wat") == "AUTHOR: wat-wat\n" {}
  lemma SecondAuthorValue() ensures FieldValue("wat-wat") {}
  lemma FirstBody() ensures "これは\n" + "コメント\n" + "です\n" == "これは\nコメント\nです\n" {}
  lemma SecondBody() ensures "これは\n" + "コメント2\n" + "です\n" == "これは\nコメント2\nです\n" {}
  lemma FirstBodyClear() ensures '-' !in "これは\nコメント\nです\n" {}
  lemma SecondBodyClear() ensures '-' !in "これは\nコメント2\nです\n" {}

  /** The first comment of the examples. */
  function First(): Comment {
    Comment("wat-aro", Ip(127, 0, 0, 1), DateTime(2021, 9, 16, 22, 9, 33), "これは\nコメント\nです\n")
  }

  /** The second comment of the examples. */
  function Second(): Comment {
    Comment("wat-wat", Ip(196, 168, 1, 1), DateTime(2021, 9, 20, 22, 10, 0), "これは\nコメント2\nです\n")
  }

  lemma IpExample()
    ensures DecodeIp("IP: 127.0.0.1\n") == Ok("", Ip(127, 0, 0, 1))
  {
    Decimal127(); Decimal0(); Decimal1(); LoopbackLine();
    DecodeIpText(Ip(127, 0, 0, 1), "");
    assert IpText(Ip(127, 0, 0, 1)) + "" == "IP: 127.0.0.1\n";
  }

  lemma FirstWellFormed()
    ensures WellFormed(First())
  {
    Author.SampleValue();
    Common.SampleDate(First().date);
    FirstBodyClear();
    ClearWithout(First().body, "-----");
  }

  lemma SecondWellFormed()
    ensures WellFormed(Second())
  {
    SecondAuthorValue();
    assert Valid(Second().date);
    SecondBodyClear();
    ClearWithout(Second().body, "-----");
  }

  /** The first record of the examples, line by line. */
  lemma FirstText()
    ensures CommentText(First()) == "COMMENT:\n" + "AUTHOR: wat-aro\n" + "IP: 127.0.0.1\n"
      + "DATE: 09/16/2021 22:09:33\n" + ("これは\n" + "コメント\n" + "です\n")
  {
    var c := First();
    Author.SampleLine();
    Decimal127(); Decimal0(); Decimal1(); LoopbackLine();
    Common.SampleDate(c.date);
    Common.SampleLine();
    FirstBody();
  }

  /** The second record of the examples, line by line. */
  lemma SecondText()
    ensures CommentText(Second()) == "COMMENT:\n" + "AUTHOR: wat-wat\n" + "IP: 196.168.1.1\n"
      + "DATE: 09/20/2021 22:10:00\n" + ("これは\n" + "コメント2\n" + "です\n")
  {
    var c := Second();
    SecondAuthorLine();
    Decimal196(); Decimal168(); Decimal1(); SecondIpLine();
    Common.PadMonth(); PadDay20(); Common.PadYear(); Common.PadHour(); PadMinute10(); PadZero();
    JoinSecondDate(); JoinSecondTime(); JoinSecondDateTime();
    SecondDateLine();
    SecondBody();
  }

  /** The single record of comments.rs is read up to the closing line, which it leaves. */
  lemma CommentExample()
    ensures DecodeComment(CommentText(First()) + "--------\n") == Ok("--------\n", First())
  {
    FirstWellFormed();
    ClosingOf("");
    DecodeCommentText(First(), "--------\n");
  }

  /** The empty block of comments.rs. */
  lemma EmptyBlockExample()
    ensures Decode("-----\n--------\n") == Ok("", [])
  {
    DecodeBlockText([], "");
    assert BlockText([]) + "" == "-----\n" + "" + "--------\n" + "";
    EmptyBlockLine();
  }

  lemma EmptyBlockLine() ensures "-----\n" + "" + "--------\n" + "" == "-----\n--------\n" {}

  /** The block of two comments of comments.rs is read in order, with nothing left. */
  lemma BlockExample()
    ensures Decode(BlockText([First(), Second()])) == Ok("", [First(), Second()])
  {
    FirstWellFormed();
    SecondWellFormed();
    DecodePair(First(), Second());
  }

  lemma DecodePair(c1: Comment, c2: Comment)
    requires WellFormed(c1) && WellFormed(c2)
    ensures Decode(BlockText([c1, c2])) == Ok("", [c1, c2])
  {
    DecodeBlockText([c1, c2], "");
    assert BlockText([c1, c2]) + "" == BlockText([c1, c2]);
  }

  lemma BlockTextPair(c1: Comment, c2: Comment)
    ensures BlockText([c1, c2])
      == "-----\n" + CommentText(c1) + "-----\n" + CommentText(c2) + "--------\n"
  {
    var t1, t2 := CommentText(c1), CommentText(c2);
    assert [c1, c2][1..] == [c2];
    assert [c2][1..] == [];
    assert SeparatedText([c2]) == "-----\n" + t2 + "";
    assert "-----\n" + t2 + "" == "-----\n" + t2;
    assert CommentsText([c1, c2]) == t1 + ("-----\n" + t2);
    Regroup4Nested("-----\n", t1, "-----\n", t2, "--------\n");
  }

  /** The same, stated on the text of the example itself. */
  lemma BlockTextExample()
    ensures Decode("-----\n"
      + ("COMMENT:\n" + "AUTHOR: wat-aro\n" + "IP: 127.0.0.1\n"
         + "DATE: 09/16/2021 22:09:33\n" + ("これは\n" + "コメント\n" + "です\n"))
      + "-----\n"
      + ("COMMENT:\n" + "AUTHOR: wat-wat\n" + "IP: 196.168.1.1\n"
         + "DATE: 09/20/2021 22:10:00\n" + ("これは\n" + "コメント2\n" + "です\n"))
      + "--------\n") == Ok("", [First(), Second()])
  {
    BlockExample();
    BlockTextPair(First(), Second());
    FirstText();
    SecondText();
  }

  /** The single record of comments.rs, stated on its text. */
  lemma CommentTextExample()
    ensures DecodeComment("COMMENT:\n" + "AUTHOR: wat-aro\n" + "IP: 127.0.0.1\n"
         + "DATE: 09/16/2021 22:09:33\n" + ("これは\n" + "コメント\n" + "です\n") + "--------\n")
      == Ok("--------\n", First())
  {
    CommentExample();
    FirstText();
  }
}
