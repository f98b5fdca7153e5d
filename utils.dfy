/** src/movable_type/utils.rs: the field reader every `KEY: value` line goes through.
    common.rs and metadata.rs hold the same function, word for word, and share this one. */
module Utils {
  import opened Text
  import opened Nom

  /** `key_value(key)`: the line `KEY:`, blanks, a value, a line terminator. It returns
      the value and the input after the terminator. */
  function KeyValue(key: string, s: string): (r: Outcome<string>)
    ensures r.Ok? ==> StartsWith(s, key + ":") && SingleLine(r.value)
    ensures r.Ok? ==> |r.rest| < |s| && SuffixOf(r.rest, s)
    ensures !StartsWith(s, key + ":") ==> r == Err(Mismatch)
    ensures r.Err? ==> r.fault == Mismatch
  {
    var a :- Tag(key, s);
    var b :- Tag(":", a.0);
    StartsWithBoth(s, key, ":", a.0, b.0);
    var c := Space0(b.0);  // space0 cannot fail
    var d :- NotLineEnding(c.rest);
    var e :- LineEnding(d.0);
    SuffixOfAppend(key, a.0);
    SuffixOfAppend(":", b.0);
    SuffixOfAppend(c.value, c.rest);
    SuffixOfAppend(d.1, d.0);
    SuffixOfAppend(e.1, e.0);
    SuffixOfTrans(b.0, a.0, s);
    SuffixOfTrans(c.rest, b.0, s);
    SuffixOfTrans(d.0, c.rest, s);
    SuffixOfTrans(e.0, d.0, s);
    Ok(e.0, d.1)
  }

  /** The parts of a field line after `KEY:`: a run of blanks, a value on one line
      that does not start with a blank (so the run is the longest), and `\n` or `\r\n`. */
  predicate FieldParts(ws: string, v: string, term: string) {
    && AllBlank(ws)
    && SingleLine(v) && (v == [] || !IsBlank(v[0]))
    && (term == "\n" || term == "\r\n")
  }

  /** Reading a well-formed line `KEY:` + blanks + value + terminator gives the value
      and exactly the text after the terminator. */
  lemma KeyValueOfLine(key: string, ws: string, v: string, term: string, rest: string)
    requires FieldParts(ws, v, term)
    ensures KeyValue(key, key + ":" + ws + v + term + rest) == Ok(rest, v)
  {
    var t := v + (term + rest);
    Regroup6(key, ":", ws, v, term, rest);
    TagOf(key, ":" + (ws + t));
    TagOf(":", ws + t);
    assert t == [] || !IsBlank(t[0]) by {
      if v == [] { assert t == term + rest; assert t[0] == term[0]; }
      else { assert t[0] == v[0]; }
    }
    Space0Of(ws, t);
    NotLineEndingOf(v, term, rest);
    LineEndingOf(term, rest);
  }

  /** Conversely every successful read is of such a line: the witnesses are the blanks
      that were skipped and the terminator that was consumed. */
  lemma KeyValueParts(key: string, s: string) returns (ws: string, term: string)
    requires KeyValue(key, s).Ok?
    ensures FieldParts(ws, KeyValue(key, s).value, term)
    ensures s == key + ":" + ws + KeyValue(key, s).value + term + KeyValue(key, s).rest
  {
    var a := Tag(key, s);
    var b := Tag(":", a.rest);
    var c := Space0(b.rest);
    var d := NotLineEnding(c.rest);
    var e := LineEnding(d.rest);
    assert a.Ok? && b.Ok? && c.Ok? && d.Ok? && e.Ok?;
    assert KeyValue(key, s) == Ok(e.rest, d.value);
    ws, term := c.value, e.value;
    var v := d.value;
    assert v == [] || !IsBlank(v[0]) by {
      if v != [] { assert c.rest[0] == v[0]; }
    }
    assert s == key + (":" + (ws + (v + (term + e.rest))));
    Regroup6(key, ":", ws, v, term, e.rest);
  }

  /** The reader fails unless the line starts with exactly the key and a colon; in
      particular a different key, or the right key in another case, is a mismatch. */
  lemma KeyValueOtherKey(key: string, other: string, rest: string)
    requires |other| == |key| && other != key
    ensures KeyValue(key, other + rest) == Err(Mismatch)
  {
    assert (other + rest)[..|key|] == other;
  }

  /** Without a line feed in the input there is no terminator, and the read fails. */
  lemma KeyValueNeedsTerminator(key: string, s: string)
    requires '\n' !in s
    ensures KeyValue(key, s) == Err(Mismatch)
  {
    if KeyValue(key, s).Ok? {
      var ws, term := KeyValueParts(key, s);
    }
  }

  /** A carriage return not followed by a line feed ends the value but is no
      terminator: the read fails. */
  lemma KeyValueBareReturn(key: string, ws: string, v: string, tail: string)
    requires AllBlank(ws) && SingleLine(v) && (v == [] || !IsBlank(v[0]))
    requires !StartsWith(tail, "\n")
    ensures KeyValue(key, key + ":" + ws + v + "\r" + tail) == Err(Mismatch)
  {
    var t := v + ("\r" + tail);
    Regroup6(key, ":", ws, v, "\r", tail);
    TagOf(key, ":" + (ws + t));
    TagOf(":", ws + t);
    assert t == [] || !IsBlank(t[0]) by {
      if v == [] { assert t[0] == '\r'; } else { assert t[0] == v[0]; }
    }
    Space0Of(ws, t);
    NotLineEndingBareReturn(v, tail);
  }

  /** A read consumes exactly one line: the input holds one line feed more than the rest. */
  lemma KeyValueOneLine(key: string, s: string)
    requires KeyValue(key, s).Ok? && '\n' !in key
    ensures CountLines(s) == 1 + CountLines(KeyValue(key, s).rest)
  {
    var ws, term := KeyValueParts(key, s);
    var v, rest := KeyValue(key, s).value, KeyValue(key, s).rest;
    var line := key + ":" + ws + v + term;
    CountLinesAppend(line, rest);
    FieldLineCount(key, ws, v, term);
  }

  lemma FieldLineCount(key: string, ws: string, v: string, term: string)
    requires FieldParts(ws, v, term) && '\n' !in key
    ensures CountLines(key + ":" + ws + v + term) == 1
  {
    assert '\n' !in ws && '\n' !in v;
    CountLinesNone(key);
    CountLinesNone(":");
    CountLinesNone(ws);
    CountLinesNone(v);
    CountLinesAppend(key, ":");
    CountLinesAppend(key + ":", ws);
    CountLinesAppend(key + ":" + ws, v);
    CountLinesAppend(key + ":" + ws + v, term);
    if term == "\r\n" {
      assert term[1..] == "\n";
    }
  }

  /** The line the export format writes for a field: `KEY: value` and a line feed. */
  function FieldLine(key: string, v: string): string {
    key + ": " + v + "\n"
  }

  /** A value the field reader gives back unchanged: one line, no leading blank. */
  predicate FieldValue(v: string) {
    SingleLine(v) && (v == [] || !IsBlank(v[0]))
  }

  lemma KeyValueOfFieldLine(key: string, v: string, rest: string)
    requires FieldValue(v)
    ensures KeyValue(key, FieldLine(key, v) + rest) == Ok(rest, v)
  {
    KeyColonSpace(key);
    KeyValueOfLine(key, " ", v, "\n", rest);
  }

  lemma KeyColonSpace(key: string)
    ensures key + ": " == key + ":" + " "
  {
    assert ":" + " " == ": ";
  }
}
