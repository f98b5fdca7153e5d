/** src/movable_type/author.rs: the `AUTHOR` field. common.rs and metadata.rs hold the
    same reader and share this one. */
module Author {
  import opened Text
  import opened Nom
  import opened Utils

  /** `author`: the field reader for the key `AUTHOR`. */
  function Author(s: string): (r: Outcome<string>)
    ensures r.Ok? ==> StartsWith(s, "AUTHOR:") && SingleLine(r.value) && |r.rest| < |s|
    ensures !StartsWith(s, "AUTHOR:") ==> r == Err(Mismatch)
    ensures r.Err? ==> r.fault == Mismatch
  {
    KeyValue("AUTHOR", s)
  }

  /** An `AUTHOR` line gives the name and exactly the text after the line. */
  lemma AuthorOfLine(name: string, rest: string)
    requires FieldValue(name)
    ensures Author(FieldLine("AUTHOR", name) + rest) == Ok(rest, name)
  {
    KeyValueOfFieldLine("AUTHOR", name, rest);
  }

  /** Every successful read is of one `AUTHOR` line; the remainder is what follows its
      terminator. */
  lemma AuthorParts(s: string) returns (ws: string, term: string)
    requires Author(s).Ok?
    ensures FieldParts(ws, Author(s).value, term)
    ensures s == "AUTHOR:" + ws + Author(s).value + term + Author(s).rest
  {
    ws, term := KeyValueParts("AUTHOR", s);
  }

  // The author of the examples.
  lemma SampleValue() ensures FieldValue("wat-aro") {}
  lemma SampleLine() ensures FieldLine("AUTHOR", "wat-aro") == "AUTHOR: wat-aro\n" {}

  lemma AuthorExample()
    ensures Author("AUTHOR: wat-aro\n") == Ok("", "wat-aro")
  {
    SampleValue();
    SampleLine();
    AuthorOfLine("wat-aro", "");
    assert FieldLine("AUTHOR", "wat-aro") + "" == "AUTHOR: wat-aro\n";
  }

  /** A line of another field is not an author. */
  lemma AuthorRejectsTitle()
    ensures Author("TITLE: x\n") == Err(Mismatch)
  {
    var s := "TITLE: x\n";
    assert s[..7][0] == 'T';
  }
}
