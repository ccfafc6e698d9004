/** The pure pieces of the feedme application: OPML flattening, the error list's message,
    the order of the feed list, and the subscription update worked out from a submitted list. */
module FeedMe {
  import Text
  import opened Timestamps

  // OPML

  /** An OPML <outline> element: its xmlUrl attribute and its nested outlines. */
  datatype Outline = Outline(xmlUrl: string, outlines: seq<Outline>)

  /** The feed URLs of `r` in pre-order: its own when non-empty, then each child's in order. */
  function Urls(r: Outline): seq<string>
    decreases r
  {
    (if r.xmlUrl != "" then [r.xmlUrl] else []) + UrlsOf(r.outlines)
  }

  /** The feed URLs of a list of outlines, one after the other. */
  function UrlsOf(kids: seq<Outline>): seq<string>
    decreases kids
  {
    if kids == [] then [] else UrlsOf(kids[..|kids| - 1]) + Urls(kids[|kids| - 1])
  }

  /** opmlWalk: appends r's URL, then walks each child with a fresh list and appends its URLs. */
  method OpmlWalk(r: Outline, urls: seq<string>) returns (res: seq<string>)
    ensures res == urls + Urls(r)
    decreases r
  {
    res := urls;
    if r.xmlUrl != "" {
      res := res + [r.xmlUrl];
    }
    for i := 0 to |r.outlines|
      invariant res == urls + (if r.xmlUrl != "" then [r.xmlUrl] else []) + UrlsOf(r.outlines[..i])
    {
      var kid := OpmlWalk(r.outlines[i], []);
      assert r.outlines[..i + 1][..i] == r.outlines[..i];
      res := res + kid;
    }
    assert r.outlines[..|r.outlines|] == r.outlines;
  }

  /** The xmlUrl of every outline node in pre-order, empty ones included. */
  function AllXmlUrls(r: Outline): seq<string>
    decreases r
  {
    [r.xmlUrl] + AllXmlUrlsOf(r.outlines)
  }

  function AllXmlUrlsOf(kids: seq<Outline>): seq<string>
    decreases kids
  {
    if kids == [] then [] else AllXmlUrlsOf(kids[..|kids| - 1]) + AllXmlUrls(kids[|kids| - 1])
  }

  /** The non-empty strings of `s`, in order (NonEmptyAppend: it distributes over `+`). */
  function NonEmpty(s: seq<string>): (r: seq<string>)
    ensures forall k :: 0 <= k < |r| ==> r[k] != ""
    ensures |r| == |s| - multiset(s)[""]
    ensures forall x :: x != "" ==> multiset(r)[x] == multiset(s)[x]
  {
    if s == [] then []
    else
      assert s == s[..|s| - 1] + [s[|s| - 1]];
      NonEmpty(s[..|s| - 1]) + (if s[|s| - 1] != "" then [s[|s| - 1]] else [])
  }

  /** Filtering a concatenation filters each part and keeps them in order. */
  lemma {:induction false} NonEmptyAppend(a: seq<string>, b: seq<string>)
    ensures NonEmpty(a + b) == NonEmpty(a) + NonEmpty(b)
    decreases |b|
  {
    if b != [] {
      assert (a + b)[..|a + b| - 1] == a + b[..|b| - 1];
      NonEmptyAppend(a, b[..|b| - 1]);
    } else {
      assert a + b == a;
    }
  }

  /** The walk yields exactly the non-empty xmlUrls of the tree, in pre-order. */
  lemma {:induction false} UrlsAreNonEmptyXmlUrls(r: Outline)
    ensures Urls(r) == NonEmpty(AllXmlUrls(r))
    decreases r
  {
    UrlsOfAreNonEmptyXmlUrls(r.outlines);
    NonEmptyAppend([r.xmlUrl], AllXmlUrlsOf(r.outlines));
    assert [r.xmlUrl] == [] + [r.xmlUrl];
  }

  lemma {:induction false} UrlsOfAreNonEmptyXmlUrls(kids: seq<Outline>)
    ensures UrlsOf(kids) == NonEmpty(AllXmlUrlsOf(kids))
    decreases kids
  {
    if kids != [] {
      UrlsOfAreNonEmptyXmlUrls(kids[..|kids| - 1]);
      UrlsAreNonEmptyXmlUrls(kids[|kids| - 1]);
      NonEmptyAppend(AllXmlUrlsOf(kids[..|kids| - 1]), AllXmlUrls(kids[|kids| - 1]));
    }
  }

  /** opmlWalk(r, nil) holds one URL per outline node with a non-empty xmlUrl, and no empty one. */
  lemma WalkCountsNonEmptyNodes(r: Outline)
    ensures |Urls(r)| == |AllXmlUrls(r)| - multiset(AllXmlUrls(r))[""]
    ensures forall k :: 0 <= k < |Urls(r)| ==> Urls(r)[k] != ""
  {
    UrlsAreNonEmptyXmlUrls(r);
  }

  // errorList

  /** The text of an error list: each message followed by a newline. */
  function ErrorLines(messages: seq<string>): string
  {
    if messages == [] then ""
    else ErrorLines(messages[..|messages| - 1]) + messages[|messages| - 1] + "\n"
  }

  /** errorList.Error: accumulates each error's message and a newline. */
  method ErrorListError(messages: seq<string>) returns (s: string)
    ensures s == ErrorLines(messages)
    ensures messages == [] ==> s == ""
  {
    s := "";
    for i := 0 to |messages|
      invariant s == ErrorLines(messages[..i])
    {
      assert messages[..i + 1][..i] == messages[..i];
      s := s + messages[i] + "\n";
    }
    assert messages[..|messages|] == messages;
  }

  lemma {:induction false} JoinSnoc(ps: seq<string>, q: string)
    requires |ps| >= 1
    ensures Text.Join(ps + [q]) == Text.Join(ps) + "\n" + q
  {
    if |ps| > 1 {
      assert (ps + [q])[1..] == ps[1..] + [q];
      JoinSnoc(ps[1..], q);
    }
  }

  /** The text is the messages joined by newlines, with a newline after the last. */
  lemma {:induction false} ErrorLinesIsJoin(messages: seq<string>)
    ensures ErrorLines(messages) == Text.Join(messages + [""])
  {
    if messages != [] {
      var init, last := messages[..|messages| - 1], messages[|messages| - 1];
      ErrorLinesIsJoin(init);
      assert messages + [""] == init + [last] + [""];
      JoinSnoc(init + [last], "");
      if init != [] {
        JoinSnoc(init, last);
        JoinSnoc(init, "");
      }
    }
  }

  /** Splitting the text at newlines gives back the messages, and an empty last piece, when no
      message holds a newline. */
  lemma ErrorLinesSplit(messages: seq<string>)
    requires forall k :: 0 <= k < |messages| ==> '\n' !in messages[k]
    ensures Text.Split(ErrorLines(messages)) == messages + [""]
  {
    ErrorLinesIsJoin(messages);
    Text.SplitJoin(messages + [""]);
  }

  // feedList

  /** One row of the feed list page. */
  datatype FeedListEntry = FeedListEntry(title: string, url: string, lastFetch: Time, encodedKey: string)

  /** feedList.Len */
  function Len(u: array<FeedListEntry>): (n: int)
    ensures n == u.Length
  {
    u.Length
  }

  /** Titles in the list's order: case-insensitively, by Go's string order. */
  predicate TitleLess(a: string, b: string)
  {
    Text.Less(Text.ToLower(a), Text.ToLower(b))
  }

  /** feedList.Less */
  function Less(u: array<FeedListEntry>, i: int, j: int): (r: bool)
    requires 0 <= i < u.Length && 0 <= j < u.Length
    reads u
    ensures r <==> TitleLess(u[i].title, u[j].title)
  {
    Text.Less(Text.ToLower(u[i].title), Text.ToLower(u[j].title))
  }

  /** feedList.Swap: exchanges two rows in place. */
  method Swap(u: array<FeedListEntry>, i: int, j: int)
    requires 0 <= i < u.Length && 0 <= j < u.Length
    modifies u
    ensures u[i] == old(u[j]) && u[j] == old(u[i])
    ensures forall k :: 0 <= k < u.Length && k != i && k != j ==> u[k] == old(u[k])
    ensures multiset(u[..]) == multiset(old(u[..]))
  {
    u[i], u[j] := u[j], u[i];
  }

  lemma TitleLessIrreflexive(a: string)
    ensures !TitleLess(a, a)
  {
    Text.LessIrreflexive(Text.ToLower(a));
  }

  lemma TitleLessTransitive(a: string, b: string, c: string)
    requires TitleLess(a, b) && TitleLess(b, c)
    ensures TitleLess(a, c)
  {
    Text.LessTransitive(Text.ToLower(a), Text.ToLower(b), Text.ToLower(c));
  }

  /** Titles are unordered by TitleLess exactly when they are equal ignoring case, so the order
      is a strict weak order, as sort.Sort needs. */
  lemma TitleLessIncomparable(a: string, b: string)
    ensures !TitleLess(a, b) && !TitleLess(b, a) <==> Text.ToLower(a) == Text.ToLower(b)
  {
    if Text.ToLower(a) == Text.ToLower(b) {
      Text.LessIrreflexive(Text.ToLower(a));
    } else {
      Text.LessTotal(Text.ToLower(a), Text.ToLower(b));
    }
  }

  /** Case does not matter: a title and its lower-cased form order alike. */
  lemma TitleLessIgnoresCase(a: string, b: string)
    ensures TitleLess(a, b) <==> TitleLess(Text.ToLower(a), b)
    ensures TitleLess(a, b) <==> TitleLess(a, Text.ToLower(b))
  {
    Text.ToLowerIdempotent(a);
    Text.ToLowerIdempotent(b);
  }

  // The subscription update of handleUpdate

  /** The strings a list holds. */
  function Elements(s: seq<string>): set<string>
  {
    set x | x in s
  }

  /** The submitted lines after trimming, blank ones dropped, in order. */
  function Lines(urls: seq<string>): (ls: seq<string>)
    ensures |ls| <= |urls|
    ensures forall k :: 0 <= k < |ls| ==> ls[k] != "" && !Text.IsSpace(ls[k][0])
  {
    if urls == [] then []
    else
      var t := Text.TrimSpace(urls[|urls| - 1]);
      Lines(urls[..|urls| - 1]) + (if t == "" then [] else [t])
  }

  /** Each submitted line trimmed, in order. */
  function Trimmed(urls: seq<string>): (ts: seq<string>)
    ensures |ts| == |urls|
    ensures forall k :: 0 <= k < |urls| ==> ts[k] == Text.TrimSpace(urls[k])
  {
    if urls == [] then [] else Trimmed(urls[..|urls| - 1]) + [Text.TrimSpace(urls[|urls| - 1])]
  }

  /** The lines handleUpdate acts on are exactly the trimmed submitted lines, in order, with
      the ones that trim to nothing dropped. */
  lemma {:induction false} LinesAreTrimmedNonBlank(urls: seq<string>)
    ensures Lines(urls) == NonEmpty(Trimmed(urls))
  {
    if urls != [] {
      var init := urls[..|urls| - 1];
      LinesAreTrimmedNonBlank(init);
      assert Trimmed(urls)[..|urls| - 1] == Trimmed(init);
    }
  }

  lemma LinesSnoc(urls: seq<string>, i: nat)
    requires i < |urls|
    ensures Lines(urls[..i + 1]) ==
      Lines(urls[..i]) + (if Text.TrimSpace(urls[i]) == "" then [] else [Text.TrimSpace(urls[i])])
  {
    assert urls[..i + 1][..i] == urls[..i];
  }

  /** The lines that are subscribed to: every line except the first occurrence of a URL the user
      is already subscribed to. */
  function NewSubscriptions(current: set<string>, lines: seq<string>): seq<string>
  {
    if lines == [] then []
    else
      var init, x := lines[..|lines| - 1], lines[|lines| - 1];
      NewSubscriptions(current, init) + (if x in current && x !in init then [] else [x])
  }

  lemma NewSubscriptionsSnoc(current: set<string>, lines: seq<string>, x: string)
    ensures NewSubscriptions(current, lines + [x])
      == NewSubscriptions(current, lines) + (if x in current && x !in lines then [] else [x])
  {
    assert (lines + [x])[..|lines|] == lines;
  }

  /** A URL is subscribed to once per line that names it, less one when it is already current. */
  lemma {:induction false} NewSubscriptionsCount(current: set<string>, lines: seq<string>, x: string)
    ensures multiset(NewSubscriptions(current, lines))[x]
      == if x in current && x in lines then multiset(lines)[x] - 1 else multiset(lines)[x]
  {
    if lines != [] {
      var init, y := lines[..|lines| - 1], lines[|lines| - 1];
      assert lines == init + [y];
      NewSubscriptionsCount(current, init, x);
      if x == y && x in current && x !in init {
        assert multiset(init)[x] == 0;
      }
    }
  }

  /** The curFeeds map of handleUpdate: every current feed marked true. */
  method MarkCurrent(current: seq<string>) returns (curFeeds: map<string, bool>)
    ensures curFeeds.Keys == Elements(current)
    ensures forall url :: url in curFeeds ==> curFeeds[url]
  {
    curFeeds := map[];
    for i := 0 to |current|
      invariant curFeeds.Keys == Elements(current[..i])
      invariant forall url :: url in curFeeds ==> curFeeds[url]
    {
      assert current[..i + 1] == current[..i] + [current[i]];
      curFeeds := curFeeds[current[i] := true];
    }
    assert current[..|current|] == current;
  }

  /** The subscription diff of handleUpdate: for each trimmed, non-blank submitted line, strikes
      it from the current feeds if it is still there and subscribes to it otherwise; what is
      left of the current feeds is unsubscribed. */
  method UpdateSubscriptions(current: seq<string>, form: string)
    returns (subscribe: seq<string>, unsubscribe: set<string>)
    ensures subscribe == NewSubscriptions(Elements(current), Lines(Text.Split(form)))
    ensures unsubscribe == Elements(current) - Elements(Lines(Text.Split(form)))
  {
    var curFeeds := MarkCurrent(current);
    var urls := Text.Split(form);
    subscribe := [];
    ghost var lines: seq<string> := [];
    for i := 0 to |urls|
      invariant lines == Lines(urls[..i])
      invariant curFeeds.Keys == Elements(current) - Elements(lines)
      invariant forall url :: url in curFeeds ==> curFeeds[url]
      invariant subscribe == NewSubscriptions(Elements(current), lines)
    {
      var url := Text.TrimSpace(urls[i]);
      LinesSnoc(urls, i);
      if |url| == 0 {
        continue;
      }
      ghost var keys := curFeeds.Keys;
      NewSubscriptionsSnoc(Elements(current), lines, url);
      if url in curFeeds && curFeeds[url] {
        curFeeds := curFeeds - {url};
      } else {
        subscribe := subscribe + [url];
      }
      StrikeOut(Elements(current), Elements(lines), keys, curFeeds.Keys, url);
      ElementsSnoc(lines, url);
      lines := lines + [url];
    }
    assert urls[..|urls|] == urls;
    unsubscribe := curFeeds.Keys;
  }

  lemma ElementsSnoc(s: seq<string>, x: string)
    ensures Elements(s + [x]) == Elements(s) + {x}
  {
  }

  /** Striking `url` out of the feeds still pending keeps them the current ones not yet listed. */
  lemma StrikeOut(current: set<string>, listed: set<string>, keys: set<string>, keys': set<string>, url: string)
    requires keys == current - listed
    requires url in keys ==> keys' == keys - {url}
    requires url !in keys ==> keys' == keys
    ensures keys' == current - (listed + {url})
  {
  }
}
