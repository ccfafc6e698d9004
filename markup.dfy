/** Markup repair: fixHtml's round trip of an entry body through an HTML parser and renderer,
    with the escaped original as the fallback at every stage. */
module Markup {
  import opened Wrappers
  import opened Bytes

  /** A parsed HTML document tree; its shape belongs to the HTML library and is not modelled. */
  type Node

  /** What html.Render does with a tree: the serialised document, an error it returns, or the
      bytes.ErrTooLarge panic raised when its output buffer cannot grow. */
  datatype Rendered = Rendered(out: Bytes) | RenderError | ErrTooLarge

  /** The HTML library's operations, which the model takes as given:
      html.Parse (None when it returns an error), html.Render, html.EscapeString and
      html.UnescapeString, the last two on the bytes of their string arguments. */
  datatype Html = Html(
    parse: Bytes -> Option<Node>,
    render: Node -> Rendered,
    escape: Bytes -> Bytes,
    unescape: Bytes -> Bytes)

  /** "<body>" */
  const OpenBody: Bytes := [0x3C, 0x62, 0x6F, 0x64, 0x79, 0x3E]

  /** "</body>" */
  const CloseBody: Bytes := [0x3C, 0x2F, 0x62, 0x6F, 0x64, 0x79, 0x3E]

  /** The bytes strictly between the first "<body>" of `out` and the first "</body>" after it,
      or None when either marker is missing. */
  function BodyContents(out: Bytes): Option<Bytes>
  {
    var i := Index(out, OpenBody);
    if i < 0 then
      None
    else
      var rest := out[i + |OpenBody|..];
      var j := Index(rest, CloseBody);
      if j < 0 then None else Some(rest[..j])
  }

  /** BodyContents finds nothing exactly when there is no "<body>", or no "</body>" after the
      first "<body>". */
  lemma BodyContentsNone(out: Bytes)
    ensures BodyContents(out).None? <==>
      (forall p :: 0 <= p <= |out| ==> !OccursAt(out, OpenBody, p))
      || (forall i :: FirstAt(out, OpenBody, i) ==>
            forall p :: i + |OpenBody| <= p <= |out| ==> !OccursAt(out, CloseBody, p))
  {
    var i := Index(out, OpenBody);
    FirstIsUnique(out, OpenBody);
    if i >= 0 {
      assert FirstAt(out, OpenBody, i);
      var rest := out[i + |OpenBody|..];
      var j := Index(rest, CloseBody);
      if j < 0 {
        forall p | i + |OpenBody| <= p <= |out| ensures !OccursAt(out, CloseBody, p) {
          ShiftOccurs(out, CloseBody, i + |OpenBody|, p);
        }
      } else {
        ShiftOccurs(out, CloseBody, i + |OpenBody|, i + |OpenBody| + j);
      }
    }
  }

  /** What BodyContents finds sits right after the first "<body>" and right before the first
      "</body>" that follows it. */
  lemma BodyContentsFramed(out: Bytes, i: int)
    requires FirstAt(out, OpenBody, i) && BodyContents(out).Some?
    ensures Framed(out, i, BodyContents(out).value)
  {
    FirstIsUnique(out, OpenBody);
    assert Index(out, OpenBody) == i;
    var rest := out[i + |OpenBody|..];
    var j := Index(rest, CloseBody);
    forall p | i + |OpenBody| <= p < i + |OpenBody| + j ensures !OccursAt(out, CloseBody, p) {
      ShiftOccurs(out, CloseBody, i + |OpenBody|, p);
    }
    ShiftOccurs(out, CloseBody, i + |OpenBody|, i + |OpenBody| + j);
    assert out[i + |OpenBody| + j..][..|CloseBody|] == rest[j..j + |CloseBody|];
  }

  /** `sep` occurs at `i` and nowhere before. */
  predicate FirstAt(s: Bytes, sep: Bytes, i: int)
  {
    OccursAt(s, sep, i) && forall p :: 0 <= p < i ==> !OccursAt(s, sep, p)
  }

  /** After the "<body>" at `i`, `out` holds `body` and then "</body>", and no "</body>" starts
      inside `body`. */
  predicate Framed(out: Bytes, i: int, body: Bytes)
  {
    && 0 <= i
    && i + |OpenBody| + |body| + |CloseBody| <= |out|
    && out[i + |OpenBody|..i + |OpenBody| + |body|] == body
    && OccursAt(out, CloseBody, i + |OpenBody| + |body|)
    && forall p :: i + |OpenBody| <= p < i + |OpenBody| + |body| ==> !OccursAt(out, CloseBody, p)
  }

  lemma FirstIsUnique(s: Bytes, sep: Bytes)
    ensures forall i, k :: FirstAt(s, sep, i) && FirstAt(s, sep, k) ==> i == k
  {
  }

  /** An occurrence in a suffix is an occurrence in the whole, shifted by where the suffix starts. */
  lemma ShiftOccurs(s: Bytes, sep: Bytes, from: nat, p: int)
    requires from <= p <= |s|
    ensures OccursAt(s[from..], sep, p - from) <==> OccursAt(s, sep, p)
  {
    if p + |sep| <= |s| {
      assert s[from..][p - from..p - from + |sep|] == s[p..p + |sep|];
    }
  }

  /** What fixHtml returns: the body of the parsed and re-rendered document, or the escaped input
      whenever parsing fails, rendering fails or runs out of buffer, or a body marker is missing. */
  function Repair(h: Html, wild: Bytes): (well: Bytes)
    ensures h.parse(wild).None? ==> well == h.escape(wild)
    ensures h.parse(wild).Some? && !h.render(h.parse(wild).value).Rendered? ==> well == h.escape(wild)
    ensures h.parse(wild).Some? && h.render(h.parse(wild).value).Rendered? ==>
      var out := h.render(h.parse(wild).value).out;
      if BodyContents(out).Some? then well == BodyContents(out).value else well == h.escape(wild)
  {
    match h.parse(wild)
    case None => h.escape(wild)
    case Some(n) =>
      match h.render(n)
      case Rendered(out) =>
        (match BodyContents(out)
         case Some(body) => body
         case None => h.escape(wild))
      case RenderError => h.escape(wild)
      case ErrTooLarge => h.escape(wild)
  }

  /** fixHtml: parses, renders into a buffer, then re-slices the rendered bytes to the body. */
  method FixHtml(h: Html, wild: Bytes) returns (well: Bytes)
    ensures well == Repair(h, wild)
  {
    var n := h.parse(wild);
    if n.None? {
      return h.escape(wild);
    }
    // The deferred recover turns the ErrTooLarge panic of Render into the escaped input.
    var rendered := h.render(n.value);
    match rendered {
      case ErrTooLarge => return h.escape(wild);
      case RenderError => return h.escape(wild);
      case Rendered(out) => well := out;
    }
    var i := Index(well, OpenBody);
    if i < 0 {
      return h.escape(wild);
    }
    well := well[i + |OpenBody|..];
    i := Index(well, CloseBody);
    if i < 0 {
      return h.escape(wild);
    }
    well := well[..i];
  }
}
