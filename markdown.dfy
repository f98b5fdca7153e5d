/** src/markdown.rs: the Markdown file written for a post, YAML front matter and then
    the body. */
module Markdown {
  import opened Text
  import opened Nom
  import opened Numbers
  import opened Chrono

  /** `Markdown`: what the writer needs of a post. */
  datatype Markdown = Markdown(title: string, published: DateTime, tags: seq<string>, body: string)

  /** The fields `From<Post>` reads: the header's title, date and category, and the raw
      body. */
  datatype SourcePost = SourcePost(title: string, date: DateTime, category: seq<string>, body: string)

  /** `From<Post>`: the title, the date as the publication date, the categories as the
      tags in their order, and the body, all unchanged. */
  function FromPost(p: SourcePost): (m: Markdown)
    ensures m.title == p.title && m.published == p.date && m.tags == p.category && m.body == p.body
  {
    Markdown(p.title, p.date, p.category, p.body)
  }

  function TitleLine(title: string): string {
    "title: \"" + title + "\"\n"
  }

  function PublishedLine(t: DateTime): string {
    "published: " + FormatYmd(t) + "\n"
  }

  function TagLine(tag: string): string {
    "  - " + tag + "\n"
  }

  /** One line per tag, in order. */
  function TagLines(tags: seq<string>): string {
    if tags == [] then "" else TagLines(tags[..|tags| - 1]) + TagLine(tags[|tags| - 1])
  }

  /** The `tags:` block, absent when there is no tag. */
  function TagsBlock(tags: seq<string>): string {
    if |tags| > 0 then "tags:\n" + TagLines(tags) else ""
  }

  /** The front matter. */
  function FrontMatter(m: Markdown): string {
    "---\n" + TitleLine(m.title) + PublishedLine(m.published) + TagsBlock(m.tags) + "---\n\n"
  }

  /** The text `dump` writes. */
  function Render(m: Markdown): string {
    FrontMatter(m) + m.body + "\n"
  }

  /** `dump`: the front matter and the body, appended piece by piece to a string. */
  method Dump(m: Markdown) returns (s: string)
    ensures s == Render(m)
  {
    var head := "---\n" + TitleLine(m.title) + PublishedLine(m.published);
    s := "";
    s := s + "---\n";
    assert s == "---\n";
    s := s + TitleLine(m.title);
    s := s + PublishedLine(m.published);
    if |m.tags| > 0 {
      s := s + "tags:\n";
      s := AppendTagLines(s, m.tags);
      Regroup3(head, "tags:\n", TagLines(m.tags));
    } else {
      assert s == head + TagsBlock(m.tags);
    }
    s := s + "---\n\n";
    s := s + (m.body + "\n");
    Regroup3(FrontMatter(m), m.body, "\n");
  }

  /** The loop of `dump` over the tags: one line appended per tag. */
  method AppendTagLines(s0: string, tags: seq<string>) returns (s: string)
    ensures s == s0 + TagLines(tags)
  {
    s := s0;
    for i := 0 to |tags|
      invariant s == s0 + TagLines(tags[..i])
    {
      assert tags[..i + 1][..i] == tags[..i];
      Regroup3(s0, TagLines(tags[..i]), TagLine(tags[i]));
      s := s + TagLine(tags[i]);
    }
    assert tags[..|tags|] == tags;
  }

  /** `path`: the file `<title>.md` in `directory`, the title used as it is. */
  function Path(m: Markdown, directory: string): string {
    directory + "/" + m.title + ".md"
  }

  /** Two posts go to the same file exactly when they have the same title. */
  lemma PathInjective(m1: Markdown, m2: Markdown, directory: string)
    ensures Path(m1, directory) == Path(m2, directory) <==> m1.title == m2.title
  {
    if Path(m1, directory) == Path(m2, directory) {
      var p := Path(m1, directory);
      var n := |directory| + 1;
      assert |m1.title| == |m2.title|;
      assert p[n..|p| - 3] == m1.title;
      assert Path(m2, directory)[n..|p| - 3] == m2.title;
    }
  }

  lemma {:induction false} TagLinesCons(tag: string, tags: seq<string>)
    ensures TagLines([tag] + tags) == TagLine(tag) + TagLines(tags)
    decreases |tags|
  {
    if tags == [] {
      assert [tag] + tags == [tag];
      assert [tag][..0] == [];
    } else {
      var init, last := tags[..|tags| - 1], tags[|tags| - 1];
      assert ([tag] + tags)[..|tags|] == [tag] + init;
      assert ([tag] + tags)[|tags|] == last;
      TagLinesCons(tag, init);
      Regroup3(TagLine(tag), TagLines(init), TagLine(last));
    }
  }

  /** One line per tag, when no tag holds a line feed. */
  lemma {:induction false} TagLinesCount(tags: seq<string>)
    requires forall k | 0 <= k < |tags| :: '\n' !in tags[k]
    ensures CountLines(TagLines(tags)) == |tags|
    decreases |tags|
  {
    if tags != [] {
      var init, last := tags[..|tags| - 1], tags[|tags| - 1];
      assert forall k | 0 <= k < |init| :: init[k] == tags[k];
      TagLinesCount(init);
      CountLinesAppend(TagLines(init), TagLine(last));
      CountLinesAppend("  - " + last, "\n");
      CountLinesAppend("  - ", last);
      CountLinesNone("  - ");
      CountLinesNone(last);
    }
  }

  /** What a reader of the file recovers: the title, the publication date as year,
      month and day, the tags and the body. */
  datatype Front = Front(title: string, published: (nat, nat, nat), tags: seq<string>, body: string)

  /** A date written `YYYY/MM/DD`. */
  function ReadYmd(s: string): (r: Outcome<(nat, nat, nat)>)
    ensures r.Ok? ==> |r.rest| < |s|
  {
    if |s| < 10 then Err(Mismatch)
    else
      match ReadTriple(s[..10], '/', 4, 2, 2)
      case Some(ymd) => Ok(s[10..], ymd)
      case None => Err(Mismatch)
  }

  /** Lines `  - <tag>`, as many as there are. */
  function ReadTagItems(s: string): (r: Outcome<seq<string>>)
    ensures r.Ok? ==> |r.rest| <= |s|
    decreases |s|
  {
    if StartsWith(s, "  - ") then
      var (s1, tag) :- TakeUntil("\n", s[4..]);
      var (s2, more) :- ReadTagItems(s1[1..]);
      Ok(s2, [tag] + more)
    else Ok(s, [])
  }

  /** The `tags:` block, if there is one. */
  function ReadTags(s: string): (r: Outcome<seq<string>>)
  {
    if StartsWith(s, "tags:\n") then ReadTagItems(s[6..]) else Ok(s, [])
  }

  /** The opening delimiter and the title line. */
  function ReadTitle(s: string): (r: Outcome<string>)
    ensures r.Ok? ==> Clear(r.value, "\"\n") && |r.rest| < |s|
    ensures !StartsWith(s, "---\n") ==> r.Err?
  {
    var (s0, _) :- Tag("---\n", s);
    var (s1, _) :- Tag("title: \"", s0);
    var (s2, title) :- TakeUntil("\"\n", s1);
    Ok(s2[2..], title)
  }

  /** The publication date line. */
  function ReadPublished(s: string): (r: Outcome<(nat, nat, nat)>)
  {
    var (s0, _) :- Tag("published: ", s);
    var (s1, ymd) :- ReadYmd(s0);
    var (s2, _) :- Tag("\n", s1);
    Ok(s2, ymd)
  }

  /** The closing delimiter, the blank line, and the body up to the final line feed. */
  function ReadBody(s: string): (r: Outcome<string>)
    ensures r.Ok? ==> r.rest == [] && s == "---\n\n" + r.value + "\n"
  {
    var (s0, _) :- Tag("---\n\n", s);
    if s0 != [] && s0[|s0| - 1] == '\n' then
      assert s0 == s0[..|s0| - 1] + "\n";
      Ok([], s0[..|s0| - 1])
    else Err(Mismatch)
  }

  /** A reader of the files `dump` writes: the front matter field by field, then the
      body. */
  function Unrender(s: string): (r: Outcome<Front>)
    ensures r.Ok? ==> r.rest == [] && Clear(r.value.title, "\"\n")
    ensures !StartsWith(s, "---\n") ==> r.Err?
  {
    var (s0, title) :- ReadTitle(s);
    var (s1, ymd) :- ReadPublished(s0);
    var (s2, tags) :- ReadTags(s1);
    var (s3, body) :- ReadBody(s2);
    Ok(s3, Front(title, ymd, tags, body))
  }

  lemma ReadYmdOf(t: DateTime, rest: string)
    requires Valid(t) && t.year < 10000
    ensures ReadYmd(FormatYmd(t) + rest) == Ok(rest, (t.year, t.month, t.day))
  {
    var f := Join3(ZeroPad(t.year, 4), '/', ZeroPad(t.month, 2), ZeroPad(t.day, 2));
    assert FormatYmd(t) == f;
    ReadJoin3(t.year, t.month, t.day, '/', 4, 2, 2);
    Join3Parts(ZeroPad(t.year, 4), '/', ZeroPad(t.month, 2), ZeroPad(t.day, 2));
    assert (f + rest)[..10] == f && (f + rest)[10..] == rest;
  }

  /** A tag line is `  - `, the tag and a line feed; reading tag lines stops at the
      first line that does not start with `  - `. */
  lemma {:induction false} ReadTagItemsOf(tags: seq<string>, rest: string)
    requires forall k | 0 <= k < |tags| :: '\n' !in tags[k]
    requires !StartsWith(rest, "  - ")
    ensures ReadTagItems(TagLines(tags) + rest) == Ok(rest, tags)
    decreases |tags|
  {
    if tags == [] {
      assert TagLines(tags) + rest == rest;
    } else {
      var tag, more := tags[0], tags[1..];
      HeadTail(tags);
      TagLinesCons(tag, more);
      var w := TagLines(more) + rest;
      var s := TagLines(tags) + rest;
      assert s == "  - " + (tag + ("\n" + w)) by {
        Regroup3(TagLine(tag), TagLines(more), rest);
        Regroup4("  - ", tag, "\n", w);
      }
      assert s[4..] == tag + ("\n" + w);
      ClearWithout(tag, "\n");
      TakeUntilOf("\n", tag, "\n" + w);
      assert ("\n" + w)[1..] == w;
      assert forall k | 0 <= k < |more| :: more[k] == tags[k + 1];
      ReadTagItemsOf(more, rest);
    }
  }

  lemma ReadTagsOf(tags: seq<string>, rest: string)
    requires forall k | 0 <= k < |tags| :: '\n' !in tags[k]
    requires !StartsWith(rest, "  - ") && !StartsWith(rest, "tags:\n")
    ensures ReadTags(TagsBlock(tags) + rest) == Ok(rest, tags)
  {
    if |tags| > 0 {
      Regroup3("tags:\n", TagLines(tags), rest);
      ReadTagItemsOf(tags, rest);
    } else {
      assert TagsBlock(tags) + rest == rest;
    }
  }

  /** The rendered text, one field after the other. */
  lemma RenderNested(m: Markdown)
    ensures Render(m) == "---\n" + ("title: \"" + (m.title + ("\"\n" + ("published: "
      + (FormatYmd(m.published) + ("\n" + (TagsBlock(m.tags) + ("---\n\n" + (m.body + "\n")))))))))
  {
    var y4 := "---\n\n" + (m.body + "\n");
    var y3 := TagsBlock(m.tags) + y4;
    var y2 := PublishedLine(m.published) + y3;
    Regroup7("---\n", TitleLine(m.title), PublishedLine(m.published), TagsBlock(m.tags),
      "---\n\n", m.body, "\n");
    Regroup4("title: \"", m.title, "\"\n", y2);
    Regroup4("published: ", FormatYmd(m.published), "\n", y3);
  }

  lemma ReadTitleOf(title: string, rest: string)
    requires Clear(title, "\"\n")
    ensures ReadTitle("---\n" + ("title: \"" + (title + ("\"\n" + rest)))) == Ok(rest, title)
  {
    var y := "\"\n" + rest;
    TagOf("---\n", "title: \"" + (title + y));
    TagOf("title: \"", title + y);
    TakeUntilOf("\"\n", title, y);
    assert y[2..] == rest;
  }

  lemma ReadPublishedOf(t: DateTime, rest: string)
    requires Valid(t) && t.year < 10000
    ensures ReadPublished("published: " + (FormatYmd(t) + ("\n" + rest)))
      == Ok(rest, (t.year, t.month, t.day))
  {
    TagOf("published: ", FormatYmd(t) + ("\n" + rest));
    ReadYmdOf(t, "\n" + rest);
    TagOf("\n", rest);
  }

  lemma ReadBodyOf(body: string)
    ensures ReadBody("---\n\n" + (body + "\n")) == Ok([], body)
  {
    var y := body + "\n";
    TagOf("---\n\n", y);
    assert y[..|y| - 1] == body;
  }

  /** The closing delimiter is neither a tag line nor the `tags:` line. */
  lemma ClosingNotTags(r: string)
    ensures !StartsWith("---\n\n" + r, "  - ") && !StartsWith("---\n\n" + r, "tags:\n")
  {
    var s := "---\n\n" + r;
    assert s[0] == '-';
  }

  lemma UnrenderSteps(s: string, s0: string, s1: string, s2: string, title: string,
                      ymd: (nat, nat, nat), tags: seq<string>, body: string)
    requires ReadTitle(s) == Ok(s0, title) && ReadPublished(s0) == Ok(s1, ymd)
    requires ReadTags(s1) == Ok(s2, tags) && ReadBody(s2) == Ok([], body)
    ensures Unrender(s) == Ok([], Front(title, ymd, tags, body))
  {
  }

  /** The reader, on the fields laid out one after the other. */
  lemma UnrenderFields(title: string, t: DateTime, tags: seq<string>, body: string)
    requires Clear(title, "\"\n")
    requires forall k | 0 <= k < |tags| :: '\n' !in tags[k]
    requires Valid(t) && t.year < 10000
    ensures Unrender("---\n" + ("title: \"" + (title + ("\"\n" + ("published: "
      + (FormatYmd(t) + ("\n" + (TagsBlock(tags) + ("---\n\n" + (body + "\n"))))))))))
      == Ok([], Front(title, (t.year, t.month, t.day), tags, body))
  {
    var y4 := "---\n\n" + (body + "\n");
    var y3 := TagsBlock(tags) + y4;
    var y1 := "published: " + (FormatYmd(t) + ("\n" + y3));
    var s := "---\n" + ("title: \"" + (title + ("\"\n" + y1)));
    ReadTitleOf(title, y1);
    ReadPublishedOf(t, y3);
    ClosingNotTags(body + "\n");
    ReadTagsOf(tags, y4);
    ReadBodyOf(body);
    UnrenderSteps(s, y1, y3, y4, title, (t.year, t.month, t.day), tags, body);
  }

  /** The file `dump` writes is read back: the title, the date, the tags in their
      order and the body, for a title without the two characters that close it, tags
      of one line each and a date of a four-digit year. */
  lemma UnrenderRender(m: Markdown)
    requires Clear(m.title, "\"\n")
    requires forall k | 0 <= k < |m.tags| :: '\n' !in m.tags[k]
    requires Valid(m.published) && m.published.year < 10000
    ensures Unrender(Render(m))
      == Ok([], Front(m.title, (m.published.year, m.published.month, m.published.day), m.tags, m.body))
  {
    RenderNested(m);
    UnrenderFields(m.title, m.published, m.tags, m.body);
  }

  lemma DigitsHaveNoLineFeed(s: string)
    requires AllDigits(s)
    ensures '\n' !in s
  {
    assert forall i | 0 <= i < |s| :: s[i] != '\n';
  }

  lemma FormatYmdHasNoLineFeed(t: DateTime)
    ensures '\n' !in FormatYmd(t)
  {
    if t.year < 10000 {
      DigitsHaveNoLineFeed(YearText(t.year));
    } else {
      DigitsHaveNoLineFeed(Decimal(t.year));
    }
    DigitsHaveNoLineFeed(ZeroPad(t.month, 2));
    DigitsHaveNoLineFeed(ZeroPad(t.day, 2));
  }

  /** A text without a line feed, closed by one, is one line. */
  lemma OneLine(s: string)
    requires '\n' !in s
    ensures CountLines(s + "\n") == 1
  {
    CountLinesNone(s);
    CountLinesAppend(s, "\n");
  }

  lemma TitleLineCount(title: string)
    requires '\n' !in title
    ensures CountLines(TitleLine(title)) == 1
  {
    var s := "title: \"" + title + "\"";
    assert "\"\n" == "\"" + "\n";
    Regroup3("title: \"" + title, "\"", "\n");
    OneLine(s);
  }

  lemma PublishedLineCount(t: DateTime)
    ensures CountLines(PublishedLine(t)) == 1
  {
    FormatYmdHasNoLineFeed(t);
    OneLine("published: " + FormatYmd(t));
  }

  lemma TagsBlockCount(tags: seq<string>)
    requires forall k | 0 <= k < |tags| :: '\n' !in tags[k]
    ensures CountLines(TagsBlock(tags)) == if |tags| > 0 then 1 + |tags| else 0
  {
    if |tags| > 0 {
      TagLinesCount(tags);
      CountLinesAppend("tags:\n", TagLines(tags));
    }
  }

  lemma CountLines7(a: string, b: string, c: string, d: string, e: string, f: string, g: string)
    ensures CountLines(a + b + c + d + e + f + g)
      == CountLines(a) + CountLines(b) + CountLines(c) + CountLines(d) + CountLines(e)
        + CountLines(f) + CountLines(g)
  {
    CountLinesAppend(a, b);
    CountLinesAppend(a + b, c);
    CountLinesAppend(a + b + c, d);
    CountLinesAppend(a + b + c + d, e);
    CountLinesAppend(a + b + c + d + e, f);
    CountLinesAppend(a + b + c + d + e + f, g);
  }

  /** Each field of the front matter takes one line, and each tag one more: the file
      has the two delimiters, the blank line after them, the title, the date, the
      `tags:` block when there are tags, and the body closed by a line feed. */
  lemma RenderLines(m: Markdown)
    requires '\n' !in m.title
    requires forall k | 0 <= k < |m.tags| :: '\n' !in m.tags[k]
    ensures CountLines(Render(m))
      == 6 + (if |m.tags| > 0 then 1 + |m.tags| else 0) + CountLines(m.body)
  {
    TitleLineCount(m.title);
    PublishedLineCount(m.published);
    TagsBlockCount(m.tags);
    CountLines7("---\n", TitleLine(m.title), PublishedLine(m.published), TagsBlock(m.tags),
      "---\n\n", m.body, "\n");
  }
}
