/** src/movable_type/metadata.rs: the eight header fields of an entry, read in a fixed
    order. */
module Metadata {
  import opened Text
  import opened Nom
  import opened Numbers
  import opened Chrono
  import opened Utils
  import Author
  import Common

  datatype Metadata = Metadata(
    author: string,
    title: string,
    basename: string,
    status: string,
    allowComments: bool,
    convertBreaks: bool,
    date: DateTime,
    image: string)

  /** `title`, the `TITLE` field. */
  function Title(s: string): (r: Outcome<string>)
    ensures r.Ok? ==> StartsWith(s, "TITLE:") && SingleLine(r.value) && |r.rest| < |s|
    ensures !StartsWith(s, "TITLE:") ==> r == Err(Mismatch)
    ensures r.Err? ==> r.fault == Mismatch
  {
    KeyValue("TITLE", s)
  }

  /** `basename`, the `BASENAME` field. */
  function Basename(s: string): (r: Outcome<string>)
    ensures r.Ok? ==> StartsWith(s, "BASENAME:") && SingleLine(r.value) && |r.rest| < |s|
    ensures !StartsWith(s, "BASENAME:") ==> r == Err(Mismatch)
    ensures r.Err? ==> r.fault == Mismatch
  {
    KeyValue("BASENAME", s)
  }

  /** `status`, the `STATUS` field. */
  function Status(s: string): (r: Outcome<string>)
    ensures r.Ok? ==> StartsWith(s, "STATUS:") && SingleLine(r.value) && |r.rest| < |s|
    ensures !StartsWith(s, "STATUS:") ==> r == Err(Mismatch)
    ensures r.Err? ==> r.fault == Mismatch
  {
    KeyValue("STATUS", s)
  }

  /** `image`, the `IMAGE` field, its value kept verbatim. */
  function Image(s: string): (r: Outcome<string>)
    ensures r.Ok? ==> StartsWith(s, "IMAGE:") && SingleLine(r.value) && |r.rest| < |s|
    ensures !StartsWith(s, "IMAGE:") ==> r == Err(Mismatch)
    ensures r.Err? ==> r.fault == Mismatch
  {
    KeyValue("IMAGE", s)
  }

  /** A boolean field: the value read as `parse::<u8>`, true when it is not zero. A value
      that is not a byte makes the `unwrap` in the mapping closure panic. */
  function Flag(key: string, s: string): (r: Outcome<bool>)
    ensures r.Ok? ==> StartsWith(s, key + ":") && |r.rest| < |s|
    ensures r.Ok? ==> KeyValue(key, s).Ok? && r.rest == KeyValue(key, s).rest
    ensures r.Err? ==> (r.fault == Panic <==> KeyValue(key, s).Ok?)
    ensures KeyValue(key, s).Ok? ==> (r.Err? <==> ParseU8(KeyValue(key, s).value).None?)
    ensures r.Ok? ==> r.value == (ParseU8(KeyValue(key, s).value).value != 0)
  {
    var kv :- KeyValue(key, s);
    match ParseU8(kv.1)
    case Some(n) => Ok(kv.0, n != 0)
    case None => Err(Panic)
  }

  /** `allow_comments`, the `ALLOW COMMENTS` field. */
  function AllowComments(s: string): (r: Outcome<bool>)
    ensures r.Ok? ==> StartsWith(s, "ALLOW COMMENTS:") && |r.rest| < |s|
    ensures !StartsWith(s, "ALLOW COMMENTS:") ==> r == Err(Mismatch)
    ensures r.Ok? ==> KeyValue("ALLOW COMMENTS", s).Ok? && r.rest == KeyValue("ALLOW COMMENTS", s).rest
    ensures r.Ok? ==> ParseU8(KeyValue("ALLOW COMMENTS", s).value).Some?
    ensures r.Ok? ==> r.value == (ParseU8(KeyValue("ALLOW COMMENTS", s).value).value != 0)
    ensures KeyValue("ALLOW COMMENTS", s).Ok? ==> (r.Err? <==> ParseU8(KeyValue("ALLOW COMMENTS", s).value).None?)
    ensures r.Err? ==> (r.fault == Panic <==> KeyValue("ALLOW COMMENTS", s).Ok?)
  {
    Flag("ALLOW COMMENTS", s)
  }

  /** `convert_breaks`, the `CONVERT BREAKS` field. */
  function ConvertBreaks(s: string): (r: Outcome<bool>)
    ensures r.Ok? ==> StartsWith(s, "CONVERT BREAKS:") && |r.rest| < |s|
    ensures !StartsWith(s, "CONVERT BREAKS:") ==> r == Err(Mismatch)
    ensures r.Ok? ==> KeyValue("CONVERT BREAKS", s).Ok? && r.rest == KeyValue("CONVERT BREAKS", s).rest
    ensures r.Ok? ==> ParseU8(KeyValue("CONVERT BREAKS", s).value).Some?
    ensures r.Ok? ==> r.value == (ParseU8(KeyValue("CONVERT BREAKS", s).value).value != 0)
    ensures KeyValue("CONVERT BREAKS", s).Ok? ==> (r.Err? <==> ParseU8(KeyValue("CONVERT BREAKS", s).value).None?)
    ensures r.Err? ==> (r.fault == Panic <==> KeyValue("CONVERT BREAKS", s).Ok?)
  {
    Flag("CONVERT BREAKS", s)
  }

  /** `metadata`: the eight fields, each mandatory, in this order and no other. */
  function Decode(s: string): (r: Outcome<Metadata>)
    ensures r.Ok? ==> |r.rest| < |s| && Valid(r.value.date) && r.value.date.year < 10000
    ensures r.Ok? ==> SingleLine(r.value.author) && SingleLine(r.value.title)
    ensures r.Ok? ==> SingleLine(r.value.basename) && SingleLine(r.value.status)
    ensures r.Ok? ==> SingleLine(r.value.image)
    ensures !StartsWith(s, "AUTHOR:") ==> r == Err(Mismatch)
  {
    var (s1, author) :- Author.Author(s);
    var (s2, title) :- Title(s1);
    var (s3, basename) :- Basename(s2);
    var (s4, status) :- Status(s3);
    var (s5, allowComments) :- AllowComments(s4);
    var (s6, convertBreaks) :- ConvertBreaks(s5);
    var (s7, date) :- Common.Date(s6);
    var (s8, image) :- Image(s7);
    Ok(s8, Metadata(author, title, basename, status, allowComments, convertBreaks, date, image))
  }

  /** How the export writes a boolean field. */
  function FlagText(b: bool): string {
    if b then "1" else "0"
  }

  /** The header the export writes for `m`: one `KEY: value` line per field. */
  function MetadataText(m: Metadata): string {
    FieldLine("AUTHOR", m.author) + FieldLine("TITLE", m.title)
      + FieldLine("BASENAME", m.basename) + FieldLine("STATUS", m.status)
      + FieldLine("ALLOW COMMENTS", FlagText(m.allowComments))
      + FieldLine("CONVERT BREAKS", FlagText(m.convertBreaks))
      + FieldLine("DATE", FormatFixed(m.date)) + FieldLine("IMAGE", m.image)
  }

  /** The header values the field reader gives back unchanged: no line break, no
      leading blank, a date that exists and has four digits. */
  predicate WellFormed(m: Metadata) {
    && FieldValue(m.author) && FieldValue(m.title) && FieldValue(m.basename)
    && FieldValue(m.status) && FieldValue(m.image)
    && Valid(m.date) && m.date.year < 10000
  }

  /** A byte written in decimal reads as true exactly when it is not zero. */
  lemma FlagOfLine(key: string, n: Byte, rest: string)
    ensures Flag(key, FieldLine(key, Decimal(n)) + rest) == Ok(rest, n != 0)
  {
    var v := Decimal(n);
    assert FieldValue(v) by {
      forall i | 0 <= i < |v| ensures !IsLineBreak(v[i]) && !IsBlank(v[i]) {
        assert IsDigit(v[i]);
      }
    }
    KeyValueOfFieldLine(key, v, rest);
    ParseU8OfDecimal(n);
  }

  lemma FlagOfText(key: string, b: bool, rest: string)
    ensures Flag(key, FieldLine(key, FlagText(b)) + rest) == Ok(rest, b)
  {
    var n: Byte := if b then 1 else 0;
    assert Decimal(n) == FlagText(b);
    FlagOfLine(key, n, rest);
  }

  /** A value that is not a byte, such as `yes` or `256`, panics. */
  lemma FlagPanics(key: string, v: string, rest: string)
    requires FieldValue(v) && ParseU8(v).None?
    ensures Flag(key, FieldLine(key, v) + rest) == Err(Panic)
  {
    KeyValueOfFieldLine(key, v, rest);
  }

  lemma FlagRejectsYes(key: string, rest: string)
    ensures Flag(key, FieldLine(key, "yes") + rest) == Err(Panic)
  {
    assert FieldValue("yes") && ParseU8("yes").None? by {
      ParseU8RejectsNonDigit("yes", 0);
    }
    FlagPanics(key, "yes", rest);
  }

  lemma FlagRejects256(key: string, rest: string)
    ensures Flag(key, FieldLine(key, "256") + rest) == Err(Panic)
  {
    assert FieldValue("256") && ParseU8("256").None? by {
      assert AllDigits("256") && Value("256") == 256 by {
        assert "256"[..2] == "25" && "25"[..1] == "2";
      }
      ParseU8RejectsOverflow("256");
    }
    FlagPanics(key, "256", rest);
  }

  /** Every well-formed header is read back from the text the export writes for it,
      and the read stops right after the `IMAGE` line. */
  lemma DecodeMetadataText(m: Metadata, rest: string)
    requires WellFormed(m)
    ensures Decode(MetadataText(m) + rest) == Ok(rest, m)
  {
    var t8 := FieldLine("IMAGE", m.image) + rest;
    var t7 := FieldLine("DATE", FormatFixed(m.date)) + t8;
    var t6 := FieldLine("CONVERT BREAKS", FlagText(m.convertBreaks)) + t7;
    var t5 := FieldLine("ALLOW COMMENTS", FlagText(m.allowComments)) + t6;
    var t4 := FieldLine("STATUS", m.status) + t5;
    var t3 := FieldLine("BASENAME", m.basename) + t4;
    var t2 := FieldLine("TITLE", m.title) + t3;
    var t1 := FieldLine("AUTHOR", m.author) + t2;
    Regroup9(FieldLine("AUTHOR", m.author), FieldLine("TITLE", m.title),
      FieldLine("BASENAME", m.basename), FieldLine("STATUS", m.status),
      FieldLine("ALLOW COMMENTS", FlagText(m.allowComments)),
      FieldLine("CONVERT BREAKS", FlagText(m.convertBreaks)),
      FieldLine("DATE", FormatFixed(m.date)), FieldLine("IMAGE", m.image), rest);
    Author.AuthorOfLine(m.author, t2);
    KeyValueOfFieldLine("TITLE", m.title, t3);
    KeyValueOfFieldLine("BASENAME", m.basename, t4);
    KeyValueOfFieldLine("STATUS", m.status, t5);
    FlagOfText("ALLOW COMMENTS", m.allowComments, t6);
    FlagOfText("CONVERT BREAKS", m.convertBreaks, t7);
    Common.DateOfLine(m.date, t8);
    KeyValueOfFieldLine("IMAGE", m.image, rest);
    DecodeSteps(t1, t2, t3, t4, t5, t6, t7, t8, rest, m);
  }

  /** The reader's eight steps, each giving one field. */
  lemma DecodeSteps(s: string, s1: string, s2: string, s3: string, s4: string, s5: string,
                    s6: string, s7: string, s8: string, m: Metadata)
    requires Author.Author(s) == Ok(s1, m.author) && Title(s1) == Ok(s2, m.title)
    requires Basename(s2) == Ok(s3, m.basename) && Status(s3) == Ok(s4, m.status)
    requires AllowComments(s4) == Ok(s5, m.allowComments)
    requires ConvertBreaks(s5) == Ok(s6, m.convertBreaks)
    requires Common.Date(s6) == Ok(s7, m.date) && Image(s7) == Ok(s8, m.image)
    ensures Decode(s) == Ok(s8, m)
  {
  }

  /** A header is read as eight lines: the input holds eight line feeds more than the
      text left after it. */
  lemma DecodeEightLines(s: string)
    requires Decode(s).Ok?
    ensures CountLines(s) == 8 + CountLines(Decode(s).rest)
  {
    var s1 := KeyValue("AUTHOR", s).rest;
    var s2 := KeyValue("TITLE", s1).rest;
    var s3 := KeyValue("BASENAME", s2).rest;
    var s4 := KeyValue("STATUS", s3).rest;
    var s5 := KeyValue("ALLOW COMMENTS", s4).rest;
    var s6 := KeyValue("CONVERT BREAKS", s5).rest;
    var s7 := KeyValue("DATE", s6).rest;
    var s8 := KeyValue("IMAGE", s7).rest;
    assert Decode(s).rest == s8;
    KeysAreOneLine();
    KeyValueOneLine("AUTHOR", s);
    KeyValueOneLine("TITLE", s1);
    KeyValueOneLine("BASENAME", s2);
    KeyValueOneLine("STATUS", s3);
    KeyValueOneLine("ALLOW COMMENTS", s4);
    KeyValueOneLine("CONVERT BREAKS", s5);
    KeyValueOneLine("DATE", s6);
    KeyValueOneLine("IMAGE", s7);
  }

  lemma KeysAreOneLine()
    ensures '\n' !in "AUTHOR" && '\n' !in "TITLE" && '\n' !in "BASENAME" && '\n' !in "STATUS"
    ensures '\n' !in "ALLOW COMMENTS" && '\n' !in "CONVERT BREAKS"
    ensures '\n' !in "DATE" && '\n' !in "IMAGE"
  {
  }

  /** The fields are not reordered: a header that opens with its title fails. */
  lemma DecodeRejectsTitleFirst(title: string, rest: string)
    ensures Decode(FieldLine("TITLE", title) + rest) == Err(Mismatch)
  {
    var s := FieldLine("TITLE", title) + rest;
    assert s[..7][0] == 'T';
  }

  /** `IMAGE` is mandatory: the seven other lines alone are not a header. */
  lemma DecodeRequiresImage(m: Metadata, rest: string)
    requires WellFormed(m) && !StartsWith(rest, "IMAGE:")
    ensures Decode(FieldLine("AUTHOR", m.author) + FieldLine("TITLE", m.title)
      + FieldLine("BASENAME", m.basename) + FieldLine("STATUS", m.status)
      + FieldLine("ALLOW COMMENTS", FlagText(m.allowComments))
      + FieldLine("CONVERT BREAKS", FlagText(m.convertBreaks))
      + FieldLine("DATE", FormatFixed(m.date)) + rest) == Err(Mismatch)
  {
    var t7 := FieldLine("DATE", FormatFixed(m.date)) + rest;
    var t6 := FieldLine("CONVERT BREAKS", FlagText(m.convertBreaks)) + t7;
    var t5 := FieldLine("ALLOW COMMENTS", FlagText(m.allowComments)) + t6;
    var t4 := FieldLine("STATUS", m.status) + t5;
    var t3 := FieldLine("BASENAME", m.basename) + t4;
    var t2 := FieldLine("TITLE", m.title) + t3;
    var t1 := FieldLine("AUTHOR", m.author) + t2;
    Regroup8(FieldLine("AUTHOR", m.author), FieldLine("TITLE", m.title),
      FieldLine("BASENAME", m.basename), FieldLine("STATUS", m.status),
      FieldLine("ALLOW COMMENTS", FlagText(m.allowComments)),
      FieldLine("CONVERT BREAKS", FlagText(m.convertBreaks)),
      FieldLine("DATE", FormatFixed(m.date)), rest);
    Author.AuthorOfLine(m.author, t2);
    KeyValueOfFieldLine("TITLE", m.title, t3);
    KeyValueOfFieldLine("BASENAME", m.basename, t4);
    KeyValueOfFieldLine("STATUS", m.status, t5);
    FlagOfText("ALLOW COMMENTS", m.allowComments, t6);
    FlagOfText("CONVERT BREAKS", m.convertBreaks, t7);
    Common.DateOfLine(m.date, rest);
  }

  /** A line the export writes for a value the reader keeps is read as that value. */
  lemma FieldExample(key: string, v: string, s: string)
    requires FieldValue(v) && s == FieldLine(key, v)
    ensures KeyValue(key, s) == Ok("", v)
  {
    assert s == FieldLine(key, v) + "";
    KeyValueOfFieldLine(key, v, "");
  }

  // The lines of the examples, one fact at a time.
  lemma TitleLine() ensures FieldLine("TITLE", "Title") == "TITLE: Title\n" {}
  lemma BasenameLine() ensures FieldLine("BASENAME", "Basename") == "BASENAME: Basename\n" {}
  lemma StatusLine() ensures FieldLine("STATUS", "Publish") == "STATUS: Publish\n" {}
  lemma AllowCommentsLine(b: bool)
    ensures FieldLine("ALLOW COMMENTS", FlagText(b))
      == if b then "ALLOW COMMENTS: 1\n" else "ALLOW COMMENTS: 0\n"
  {}
  lemma ConvertBreaksLine(b: bool)
    ensures FieldLine("CONVERT BREAKS", FlagText(b))
      == if b then "CONVERT BREAKS: 1\n" else "CONVERT BREAKS: 0\n"
  {}
  lemma ImageLine()
    ensures FieldLine("IMAGE", "http://example.com/image.jpg") == "IMAGE: http://example.com/image.jpg\n"
  {}
  lemma TitleValue() ensures FieldValue("Title") {}
  lemma BasenameValue() ensures FieldValue("Basename") {}
  lemma StatusValue() ensures FieldValue("Publish") {}
  lemma ImageValue() ensures FieldValue("http://example.com/image.jpg") {}

  lemma TitleExample()
    ensures Title("TITLE: Title\n") == Ok("", "Title")
  {
    TitleLine(); TitleValue();
    FieldExample("TITLE", "Title", "TITLE: Title\n");
  }

  lemma BasenameExample()
    ensures Basename("BASENAME: Basename\n") == Ok("", "Basename")
  {
    BasenameLine(); BasenameValue();
    FieldExample("BASENAME", "Basename", "BASENAME: Basename\n");
  }

  lemma StatusExample()
    ensures Status("STATUS: Publish\n") == Ok("", "Publish")
  {
    StatusLine(); StatusValue();
    FieldExample("STATUS", "Publish", "STATUS: Publish\n");
  }

  lemma ImageExample()
    ensures Image("IMAGE: http://example.com/image.jpg\n") == Ok("", "http://example.com/image.jpg")
  {
    ImageLine(); ImageValue();
    FieldExample("IMAGE", "http://example.com/image.jpg", "IMAGE: http://example.com/image.jpg\n");
  }

  /** A boolean line the export writes is read as the boolean it was written for. */
  lemma FlagExample(key: string, b: bool, s: string)
    requires s == FieldLine(key, FlagText(b))
    ensures Flag(key, s) == Ok("", b)
  {
    assert s == FieldLine(key, FlagText(b)) + "";
    FlagOfText(key, b, "");
  }

  lemma AllowCommentsOnExample()
    ensures AllowComments("ALLOW COMMENTS: 1\n") == Ok("", true)
  {
    AllowCommentsLine(true);
    FlagExample("ALLOW COMMENTS", true, "ALLOW COMMENTS: 1\n");
  }

  lemma AllowCommentsOffExample()
    ensures AllowComments("ALLOW COMMENTS: 0\n") == Ok("", false)
  {
    AllowCommentsLine(false);
    FlagExample("ALLOW COMMENTS", false, "ALLOW COMMENTS: 0\n");
  }

  lemma ConvertBreaksOnExample()
    ensures ConvertBreaks("CONVERT BREAKS: 1\n") == Ok("", true)
  {
    ConvertBreaksLine(true);
    FlagExample("CONVERT BREAKS", true, "CONVERT BREAKS: 1\n");
  }

  lemma ConvertBreaksOffExample()
    ensures ConvertBreaks("CONVERT BREAKS: 0\n") == Ok("", false)
  {
    ConvertBreaksLine(false);
    FlagExample("CONVERT BREAKS", false, "CONVERT BREAKS: 0\n");
  }

  /** The header of the examples. */
  function Sample(): Metadata {
    Metadata("wat-aro", "Title", "Basename", "Publish", true, false,
             DateTime(2021, 9, 16, 22, 9, 33), "http://example.com/image.jpg")
  }

  lemma SampleWellFormed()
    ensures WellFormed(Sample())
  {
    Author.SampleValue(); TitleValue(); BasenameValue(); StatusValue(); ImageValue();
    Common.SampleDate(Sample().date);
  }

  /** The header of the example in metadata.rs is the text written for `Sample()`. */
  lemma SampleText()
    ensures MetadataText(Sample())
      == "AUTHOR: wat-aro\n" + "TITLE: Title\n" + "BASENAME: Basename\n" + "STATUS: Publish\n"
       + "ALLOW COMMENTS: 1\n" + "CONVERT BREAKS: 0\n" + "DATE: 09/16/2021 22:09:33\n"
       + "IMAGE: http://example.com/image.jpg\n"
  {
    var m := Sample();
    Common.SampleDate(m.date);
    Common.SampleLine();
    Author.SampleLine(); TitleLine(); BasenameLine(); StatusLine();
    AllowCommentsLine(true); ConvertBreaksLine(false); ImageLine();
  }

  /** The example header of metadata.rs decodes to its record, with nothing left. */
  lemma DecodeExample()
    ensures Decode(MetadataText(Sample())) == Ok("", Sample())
  {
    SampleWellFormed();
    DecodeMetadataText(Sample(), "");
    assert MetadataText(Sample()) + "" == MetadataText(Sample());
  }

  /** The same, stated on the text of the example itself. */
  lemma DecodeTextExample()
    ensures Decode("AUTHOR: wat-aro\n" + "TITLE: Title\n" + "BASENAME: Basename\n" + "STATUS: Publish\n"
       + "ALLOW COMMENTS: 1\n" + "CONVERT BREAKS: 0\n" + "DATE: 09/16/2021 22:09:33\n"
       + "IMAGE: http://example.com/image.jpg\n") == Ok("", Sample())
  {
    DecodeExample();
    SampleText();
  }
}
