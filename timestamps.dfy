/** Timestamp resolution for RSS: rssTime and the ErrBadTime error it reports. */
module Timestamps {
  import opened Wrappers

  /** An instant, as Go's time.Time: nanoseconds since January 1 of year 1, UTC, and the offset
      in seconds of the zone it was read in. */
  datatype Time = Time(nanos: int, zoneOffset: int)

  /** time.Time{}, the zero instant, which stands for "unknown". */
  const ZeroTime := Time(0, 0)

  /** The errors the feed reader returns: ErrBadTime carries a date string that no layout
      parses; DecodeError stands for whatever the XML decoder reported. */
  datatype Error = ErrBadTime(value: string) | DecodeError(message: string)

  const BadTimePrefix := "Unable to parse time: "

  /** ErrBadTime.Error: the message names the unparsable string after a fixed prefix. */
  function BadTimeMessage(s: string): (m: string)
    ensures |m| == |BadTimePrefix| + |s|
    ensures m[..|BadTimePrefix|] == BadTimePrefix && m[|BadTimePrefix|..] == s
  {
    BadTimePrefix + s
  }

  /** Two bad times with the same message are the same string. */
  lemma BadTimeMessageInjective(s: string, t: string)
    requires BadTimeMessage(s) == BadTimeMessage(t)
    ensures s == t
  {
    assert s == BadTimeMessage(s)[|BadTimePrefix|..];
  }

  /** time.Parse(layout, value): the instant, or None when `value` does not match `layout`. */
  type TimeParser = (string, string) -> Option<Time>

  /** The layouts tried, in order: RFC 1123 with a numeric zone, with a named zone,
      RFC 822 (section 5) with a two-digit year and a numeric zone, and a bare date. */
  const RssTimeFormats: seq<string> := [
    "Mon, 2 Jan 2006 15:04:05 -0700",
    "Mon, 2 Jan 2006 15:04:05 MST",
    "Mon, 2 Jan 06 15:04:05 -0700",
    "02 January 2006"
  ]

  /** No layout before position `k` parses `s`. */
  predicate NoneBefore(parse: TimeParser, layouts: seq<string>, s: string, k: int)
    requires 0 <= k <= |layouts|
  {
    forall j :: 0 <= j < k ==> parse(layouts[j], s).None?
  }

  /** The position of the first layout that parses `s`, or |layouts| when none does. */
  function FirstLayout(parse: TimeParser, layouts: seq<string>, s: string): (k: nat)
    ensures k <= |layouts| && NoneBefore(parse, layouts, s, k)
    ensures k < |layouts| ==> parse(layouts[k], s).Some?
  {
    if layouts == [] || parse(layouts[0], s).Some? then
      0
    else
      var k := FirstLayout(parse, layouts[1..], s);
      assert forall j :: 1 <= j <= k ==> layouts[j] == layouts[1..][j - 1];
      k + 1
  }

  /** What rssTime returns for `s`: the zero instant and no error for the empty string; the
      instant of the first layout, in list order, that parses `s`; or the zero instant and
      ErrBadTime(s) when no layout parses it. */
  function ResolveRssTime(parse: TimeParser, s: string): (Time, Option<Error>)
  {
    if s == "" then
      (ZeroTime, None)
    else
      var k := FirstLayout(parse, RssTimeFormats, s);
      if k < |RssTimeFormats| then (parse(RssTimeFormats[k], s).value, None)
      else (ZeroTime, Some(ErrBadTime(s)))
  }

  /** The empty string is the zero instant without error; otherwise the result is the error
      ErrBadTime(s) with the zero instant exactly when no layout parses `s`, and else the instant
      of the first layout that does. */
  lemma ResolveRssTimeMeaning(parse: TimeParser, s: string)
    ensures var r := ResolveRssTime(parse, s);
      && (s == "" ==> r == (ZeroTime, None))
      && (r.1.Some? <==> s != "" && NoneBefore(parse, RssTimeFormats, s, |RssTimeFormats|))
      && (r.1.Some? ==> r == (ZeroTime, Some(ErrBadTime(s))))
      && (forall k :: 0 <= k < |RssTimeFormats| && s != "" && NoneBefore(parse, RssTimeFormats, s, k)
                      && parse(RssTimeFormats[k], s).Some?
                      ==> r == (parse(RssTimeFormats[k], s).value, None))
  {
    var k := FirstLayout(parse, RssTimeFormats, s);
    forall k' | 0 <= k' < |RssTimeFormats| && NoneBefore(parse, RssTimeFormats, s, k')
                && parse(RssTimeFormats[k'], s).Some?
      ensures k' == k
    {
      assert !(k < k') && !(k' < k);
    }
  }

  /** rssTime: tries each layout in order and returns on the first that parses. */
  method RssTime(parse: TimeParser, s: string) returns (t: Time, err: Option<Error>)
    ensures (t, err) == ResolveRssTime(parse, s)
  {
    if s == "" {
      return ZeroTime, None;
    }
    for k := 0 to |RssTimeFormats|
      invariant NoneBefore(parse, RssTimeFormats, s, k)
    {
      var p := parse(RssTimeFormats[k], s);
      if p.Some? {
        return p.value, None;
      }
    }
    return ZeroTime, Some(ErrBadTime(s));
  }
}
