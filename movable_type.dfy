/** src/movable_type.rs: an entry of the export, its header and then its body. */
module MovableType {
  import opened Text
  import opened Nom
  import Metadata
  import Body

  datatype Post<D> = Post(metadata: Metadata.Metadata, body: Body.Body<D>)

  /** `parse`: the header, then the body from the text after the header; whatever
      follows the body is dropped. Each `unwrap` that fails is a panic, modelled as
      `None`. */
  function Parse<D>(parseDom: string -> Option<D>, s: string): (r: Option<seq<Post<D>>>)
    ensures r.Some? ==> |r.value| == 1
    ensures r.Some? <==>
      Metadata.Decode(s).Ok? && Body.Decode(parseDom, Metadata.Decode(s).rest).Ok?
    ensures r.Some? ==>
      && r.value[0].metadata == Metadata.Decode(s).value
      && r.value[0].body == Body.Decode(parseDom, Metadata.Decode(s).rest).value
  {
    match Metadata.Decode(s)
    case Err(_) => None
    case Ok(rest, metadata) =>
      match Body.Decode(parseDom, rest)
      case Err(_) => None
      case Ok(_, body) => Some([Post(metadata, body)])
  }

  /** The text of an entry: its header, the body header, and the raw body. */
  function PostText(m: Metadata.Metadata, raw: string): string {
    Metadata.MetadataText(m) + Body.Header + raw
  }

  /** An entry whose header is well formed and whose raw body is clear of the delimiter
      and parses, followed by a delimiter and anything at all, gives one post of that
      header and that document. */
  lemma ParsePostText<D>(parseDom: string -> Option<D>, m: Metadata.Metadata, raw: string,
                         t: string)
    requires Metadata.WellFormed(m) && Clear(raw, "-----") && StartsWith(t, "-----")
    requires parseDom(raw).Some?
    ensures Parse(parseDom, PostText(m, raw) + t)
      == Some([Post(m, Body.Body(parseDom(raw).value))])
  {
    var b := Body.Header + raw + t;
    Regroup4(Metadata.MetadataText(m), Body.Header, raw, t);
    assert Body.Header + raw + t == Body.Header + (raw + t);
    assert PostText(m, raw) + t == Metadata.MetadataText(m) + b;
    Metadata.DecodeMetadataText(m, b);
    Body.DecodeOf(parseDom, raw, t);
  }

  /** A body the HTML parser rejects makes the whole entry panic. */
  lemma ParseRejectsBody<D>(parseDom: string -> Option<D>, m: Metadata.Metadata, raw: string,
                            t: string)
    requires Metadata.WellFormed(m) && Clear(raw, "-----") && StartsWith(t, "-----")
    requires parseDom(raw).None?
    ensures Parse(parseDom, PostText(m, raw) + t) == None
  {
    var b := Body.Header + raw + t;
    Regroup4(Metadata.MetadataText(m), Body.Header, raw, t);
    assert Body.Header + raw + t == Body.Header + (raw + t);
    assert PostText(m, raw) + t == Metadata.MetadataText(m) + b;
    Metadata.DecodeMetadataText(m, b);
    Body.DecodeRejects(parseDom, raw, t);
  }

  /** The body is read from the text after the header: an entry that opens with a body
      and no header panics. */
  lemma ParseNeedsHeader<D>(parseDom: string -> Option<D>, raw: string, t: string)
    ensures Parse(parseDom, Body.Header + raw + t) == None
  {
    var s := Body.Header + raw + t;
    assert s[..7][0] == '-';
  }
}
