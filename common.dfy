/** src/movable_type/common.rs: the `DATE` field, read with the fixed format
    `%m/%d/%Y %H:%M:%S`. metadata.rs holds the same reader and shares this one. */
module Common {
  import opened Text
  import opened Nom
  import opened Numbers
  import opened Chrono
  import opened Utils

  /** `date`: the `DATE` field, its value parsed as a timestamp. A value of another
      format makes the `unwrap` in the mapping closure panic. */
  function Date(s: string): (r: Outcome<DateTime>)
    ensures r.Ok? ==> StartsWith(s, "DATE:") && Valid(r.value) && r.value.year < 10000
    ensures r.Ok? ==> |r.rest| < |s|
    ensures r.Err? ==> (r.fault == Panic <==> KeyValue("DATE", s).Ok?)
    ensures KeyValue("DATE", s).Ok? ==> (r.Err? <==> ParseFixed(KeyValue("DATE", s).value).None?)
  {
    var kv :- KeyValue("DATE", s);
    match ParseFixed(kv.1)
    case Some(t) => Ok(kv.0, t)
    case None => Err(Panic)
  }

  lemma Join3SingleLine(a: string, sep: char, b: string, c: string)
    requires AllDigits(a) && AllDigits(b) && AllDigits(c) && !IsLineBreak(sep)
    ensures SingleLine(Join3(a, sep, b, c))
  {
    DigitsAreSingleLine(a);
    DigitsAreSingleLine(b);
    DigitsAreSingleLine(c);
    SingleLineAppend(a, [sep]);
    SingleLineAppend(a + [sep], b);
    SingleLineAppend(a + [sep] + b, [sep]);
    SingleLineAppend(a + [sep] + b + [sep], c);
  }

  /** The fixed form of a timestamp is a value the field reader keeps intact. */
  lemma FormatFixedIsFieldValue(t: DateTime)
    ensures FieldValue(FormatFixed(t))
  {
    var d := Join3(ZeroPad(t.month, 2), '/', ZeroPad(t.day, 2), ZeroPad(t.year, 4));
    var h := Join3(ZeroPad(t.hour, 2), ':', ZeroPad(t.minute, 2), ZeroPad(t.second, 2));
    Join3SingleLine(ZeroPad(t.month, 2), '/', ZeroPad(t.day, 2), ZeroPad(t.year, 4));
    Join3SingleLine(ZeroPad(t.hour, 2), ':', ZeroPad(t.minute, 2), ZeroPad(t.second, 2));
    SingleLineAppend(d, " ");
    SingleLineAppend(d + " ", h);
    assert FormatFixed(t)[0] == ZeroPad(t.month, 2)[0];
  }

  /** A `DATE` line holding a valid timestamp of a four-digit year gives that timestamp
      and exactly the text after the line. */
  lemma DateOfLine(t: DateTime, rest: string)
    requires Valid(t) && t.year < 10000
    ensures Date(FieldLine("DATE", FormatFixed(t)) + rest) == Ok(rest, t)
  {
    FormatFixedIsFieldValue(t);
    KeyValueOfFieldLine("DATE", FormatFixed(t), rest);
    ParseFormatFixed(t);
  }

  /** Conversely a successful read is of a `DATE` line whose value is the fixed form of
      the timestamp read. */
  lemma DateParts(s: string) returns (ws: string, term: string)
    requires Date(s).Ok?
    ensures FieldParts(ws, FormatFixed(Date(s).value), term)
    ensures s == "DATE:" + ws + FormatFixed(Date(s).value) + term + Date(s).rest
  {
    ws, term := KeyValueParts("DATE", s);
    FormatParseFixed(KeyValue("DATE", s).value);
  }

  /** A `DATE` line whose value is not a timestamp of the fixed format panics. */
  lemma DatePanics(v: string, rest: string)
    requires FieldValue(v) && ParseFixed(v).None?
    ensures Date(FieldLine("DATE", v) + rest) == Err(Panic)
  {
    KeyValueOfFieldLine("DATE", v, rest);
  }

  // The fixed form of the example timestamp, one fact at a time.
  lemma PadMonth() ensures ZeroPad(9, 2) == "09" {}
  lemma PadDay() ensures ZeroPad(16, 2) == "16" {}
  lemma PadYear() ensures ZeroPad(2021, 4) == "2021" {}
  lemma PadHour() ensures ZeroPad(22, 2) == "22" {}
  lemma PadSecond() ensures ZeroPad(33, 2) == "33" {}
  lemma JoinDate() ensures Join3("09", '/', "16", "2021") == "09/16/2021" {}
  lemma JoinTime() ensures Join3("22", ':', "09", "33") == "22:09:33" {}
  lemma JoinDateTime() ensures "09/16/2021" + " " + "22:09:33" == "09/16/2021 22:09:33" {}
  lemma SampleLine() ensures FieldLine("DATE", "09/16/2021 22:09:33") == "DATE: 09/16/2021 22:09:33\n" {}

  /** The timestamp of the examples, and its fixed form. */
  lemma SampleDate(t: DateTime)
    requires t == DateTime(2021, 9, 16, 22, 9, 33)
    ensures Valid(t) && t.year < 10000
    ensures FormatFixed(t) == "09/16/2021 22:09:33"
  {
    PadMonth(); PadDay(); PadYear(); PadHour(); PadSecond();
    JoinDate(); JoinTime(); JoinDateTime();
  }

  /** The `DATE` line of the examples reads as the example timestamp. */
  lemma DateExample()
    ensures Date("DATE: 09/16/2021 22:09:33\n") == Ok("", DateTime(2021, 9, 16, 22, 9, 33))
  {
    var t := DateTime(2021, 9, 16, 22, 9, 33);
    SampleDate(t);
    SampleLine();
    DateOfLine(t, "");
    assert FieldLine("DATE", FormatFixed(t)) + "" == "DATE: 09/16/2021 22:09:33\n";
  }
}
