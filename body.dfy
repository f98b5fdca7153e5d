/** src/movable_type/body.rs: the body of an entry, opened by a `-----` line and a
    `BODY:` line and running up to the next `-----`; the HTML parser it is handed to is a
    parameter of the model. */
module Body {
  import opened Text
  import opened Nom

  /** `Body(Dom)`: the parsed document. */
  datatype Body<D> = Body(dom: D)

  /** The header of the body: a delimiter line and the marker line. */
  const Header: string := "-----\nBODY:\n"

  /** Everything `body` reads before handing the text to the HTML parser: the delimiter
      line, the marker line and the text up to, but not including, the next `-----`. */
  function Raw(s: string): (r: Outcome<string>)
    ensures r.Ok? ==> s == Header + r.value + r.rest
    ensures r.Ok? ==> StartsWith(r.rest, "-----") && Clear(r.value, "-----")
    ensures !StartsWith(s, "-----\n") ==> r == Err(Mismatch)
    ensures r.Err? ==> r.fault == Mismatch
  {
    var (s0, _) :- TagLine("-----", s);
    var (s1, _) :- TagLine("BODY:", s0);
    var (s2, raw) :- TakeUntil("-----", s1);
    HeaderOf(raw, s2);
    Ok(s2, raw)
  }

  /** `body`: the raw text handed to `Dom::parse` (here `parseDom`), whose failure is an
      error of `map_res`. */
  function Decode<D>(parseDom: string -> Option<D>, s: string): (r: Outcome<Body<D>>)
    ensures r.Ok? <==> Raw(s).Ok? && parseDom(Raw(s).value).Some?
    ensures r.Ok? ==> r.rest == Raw(s).rest && r.value.dom == parseDom(Raw(s).value).value
    ensures r.Err? ==> r.fault == Mismatch
  {
    var (rest, raw) :- Raw(s);
    match parseDom(raw)
    case Some(dom) => Ok(rest, Body(dom))
    case None => Err(Mismatch)
  }

  lemma HeaderParts()
    ensures Header == "-----\n" + "BODY:\n"
  {
  }

  lemma HeaderOf(raw: string, t: string)
    ensures Header + raw + t == "-----\n" + ("BODY:\n" + (raw + t))
  {
    HeaderParts();
    Regroup4("-----\n", "BODY:\n", raw, t);
  }

  /** A text clear of the delimiter, after the header and before a delimiter, is read
      exactly; the delimiter is left in the input. */
  lemma RawOf(raw: string, t: string)
    requires Clear(raw, "-----") && StartsWith(t, "-----")
    ensures Raw(Header + raw + t) == Ok(t, raw)
  {
    HeaderOf(raw, t);
    TagLineOf("-----", "BODY:\n" + (raw + t));
    TagLineOf("BODY:", raw + t);
    TakeUntilOf("-----", raw, t);
  }

  /** Without a delimiter after the header there is no body. */
  lemma RawNeedsDelimiter(x: string)
    requires !Contains(x, "-----")
    ensures Raw(Header + x) == Err(Mismatch)
  {
    HeaderOf(x, "");
    assert x + "" == x;
    assert Header + x == Header + x + "";
    TagLineOf("-----", "BODY:\n" + x);
    TagLineOf("BODY:", x);
  }

  /** The header is mandatory: a delimiter line followed by anything but the marker
      line fails. */
  lemma RawNeedsMarker(t: string)
    requires !StartsWith(t, "BODY:\n")
    ensures Raw("-----\n" + t) == Err(Mismatch)
  {
    TagLineOf("-----", t);
  }

  /** A text clear of the delimiter that parses as a document is read as that document. */
  lemma DecodeOf<D>(parseDom: string -> Option<D>, raw: string, t: string)
    requires Clear(raw, "-----") && StartsWith(t, "-----") && parseDom(raw).Some?
    ensures Decode(parseDom, Header + raw + t) == Ok(t, Body(parseDom(raw).value))
  {
    RawOf(raw, t);
  }

  /** A text the parser rejects makes the body fail. */
  lemma DecodeRejects<D>(parseDom: string -> Option<D>, raw: string, t: string)
    requires Clear(raw, "-----") && StartsWith(t, "-----") && parseDom(raw).None?
    ensures Decode(parseDom, Header + raw + t) == Err(Mismatch)
  {
    RawOf(raw, t);
  }
}
