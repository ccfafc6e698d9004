/** The feed reader: dialect dispatch and the RSS and Atom transforms from the decoded
    intermediate record into one Feed with its entries in document order. */
module WebFeed {
  import opened Wrappers
  import opened Bytes
  import opened Markup
  import opened Timestamps

  /** One article of a feed. Summary and Content are repaired HTML fragments. */
  datatype Entry = Entry(title: string, link: string, summary: Bytes, content: Bytes, when: Time)

  /** The normalised feed; Entries are in document order. */
  datatype Feed = Feed(title: string, link: string, updated: Time, entries: seq<Entry>)

  /** Feed{}, returned with a decoding error. */
  const EmptyFeed := Feed("", "", ZeroTime, [])

  // The intermediate record the XML decoder fills, wide enough for either dialect.

  datatype AtomLink = AtomLink(rel: string, href: string)

  /** An Atom <content> element: its type attribute and its inner XML. */
  datatype AtomContent = AtomContent(contentType: string, contents: Bytes)

  datatype AtomEntry = AtomEntry(
    title: string,
    link: AtomLink,
    id: string,
    updated: Time,
    author: seq<string>,
    summary: Bytes,
    content: seq<AtomContent>)

  /** The character data of an item's <content:encoded> extension. */
  datatype RssContent = RssContent(data: Bytes)

  /** An RSS <item>; its pubDate stays a string until rssTime reads it. */
  datatype RssItem = RssItem(
    title: string,
    link: string,
    description: Bytes,
    content: RssContent,
    updated: string)

  /** An RSS <channel>. */
  datatype Rss = Rss(
    title: string,
    link: string,
    description: Bytes,
    items: seq<RssItem>,
    updated: string)

  /** The decoded document: the Atom feed's own fields, and the RSS channel under `rss`. */
  datatype FeedRecord = FeedRecord(
    title: string,
    links: seq<AtomLink>,
    updated: Time,
    author: seq<string>,
    id: string,
    entries: seq<AtomEntry>,
    rss: Rss)

  /** The operations of other packages the reader calls: time.Parse and the HTML library. */
  datatype Libraries = Libraries(parseTime: TimeParser, html: Html)

  /** A link that names the feed's own page: no rel, or rel="alternate" (section 4.2.7.2 of RFC 4287). */
  predicate Alternate(l: AtomLink)
  {
    l.rel == "" || l.rel == "alternate"
  }

  /** The href of the first alternate link, or "" when there is none. */
  function LinkOf(links: seq<AtomLink>): (href: string)
    ensures (forall k :: 0 <= k < |links| ==> !Alternate(links[k])) ==> href == ""
    ensures forall k :: 0 <= k < |links| && Alternate(links[k])
                        && (forall j :: 0 <= j < k ==> !Alternate(links[j]))
                        ==> href == links[k].href
  {
    var k := FirstAlternate(links);
    assert forall k' :: (0 <= k' < |links| && Alternate(links[k'])
                         && (forall j :: 0 <= j < k' ==> !Alternate(links[j]))) ==> k' == k;
    if k < |links| then links[k].href else ""
  }

  /** The position of the first alternate link, or |links| when there is none. */
  function FirstAlternate(links: seq<AtomLink>): (k: nat)
    ensures k <= |links|
    ensures forall j :: 0 <= j < k ==> !Alternate(links[j])
    ensures k < |links| ==> Alternate(links[k])
  {
    if links == [] || Alternate(links[0]) then
      0
    else
      var k := FirstAlternate(links[1..]);
      assert forall j :: 1 <= j <= k ==> links[j] == links[1..][j - 1];
      k + 1
  }

  /** feed.link: scans the links in order and returns on the first alternate one. */
  method Link(f: FeedRecord) returns (href: string)
    ensures href == LinkOf(f.links)
  {
    for k := 0 to |f.links|
      invariant forall j :: 0 <= j < k ==> !Alternate(f.links[j])
    {
      if Alternate(f.links[k]) {
        return f.links[k].href;
      }
    }
    return "";
  }

  /** atomContent.Data: xhtml content is literal markup; any other type is unescaped
      (section 4.1.3.1 of RFC 4287). */
  function Data(h: Html, c: AtomContent): (r: Bytes)
    ensures c.contentType == "xhtml" ==> r == c.contents
    ensures c.contentType != "xhtml" ==> r == h.unescape(c.contents)
  {
    if c.contentType != "xhtml" then h.unescape(c.contents) else c.contents
  }

  // RSS

  /** The date of `s` fails to resolve: it is non-empty and no layout parses it. */
  predicate BadDate(parse: TimeParser, s: string)
  {
    ResolveRssTime(parse, s).1.Some?
  }

  /** The position of the first date of `dates` that fails to resolve, or |dates|. */
  function FirstBad(parse: TimeParser, dates: seq<string>): (k: nat)
    ensures k <= |dates|
    ensures forall j :: 0 <= j < k ==> !BadDate(parse, dates[j])
    ensures k < |dates| ==> BadDate(parse, dates[k])
  {
    if dates == [] || BadDate(parse, dates[0]) then
      0
    else
      var k := FirstBad(parse, dates[1..]);
      assert forall j :: 1 <= j <= k ==> dates[j] == dates[1..][j - 1];
      k + 1
  }

  /** The first date of `dates` that fails to resolve, as ErrBadTime, or None when all resolve. */
  function FirstBadTime(parse: TimeParser, dates: seq<string>): Option<Error>
  {
    var k := FirstBad(parse, dates);
    if k < |dates| then Some(ErrBadTime(dates[k])) else None
  }

  /** FirstBadTime is None exactly when every date resolves, and otherwise names the first
      date, in order, that does not. */
  lemma FirstBadTimeMeaning(parse: TimeParser, dates: seq<string>)
    ensures FirstBadTime(parse, dates).None? <==> forall k :: 0 <= k < |dates| ==> !BadDate(parse, dates[k])
    ensures forall k :: 0 <= k < |dates| && BadDate(parse, dates[k])
                        && (forall j :: 0 <= j < k ==> !BadDate(parse, dates[j]))
                        ==> FirstBadTime(parse, dates) == Some(ErrBadTime(dates[k]))
  {
    var k := FirstBad(parse, dates);
    forall k' | 0 <= k' < |dates| && BadDate(parse, dates[k'])
                && (forall j :: 0 <= j < k' ==> !BadDate(parse, dates[j]))
      ensures k' == k
    {
      assert !(k < k') && !(k' < k);
    }
  }

  /** Keeping the first error: one more date changes the result only when none was bad before. */
  lemma FirstBadTimeSnoc(parse: TimeParser, dates: seq<string>, d: string)
    ensures FirstBadTime(parse, dates + [d]) ==
      if FirstBadTime(parse, dates).Some? then FirstBadTime(parse, dates)
      else ResolveRssTime(parse, d).1
  {
    var ds := dates + [d];
    assert forall j :: 0 <= j < |dates| ==> ds[j] == dates[j];
    var k := FirstBad(parse, dates);
    if k < |dates| {
      assert FirstBad(parse, ds) == k;
    } else {
      assert ds[|dates|] == d;
      if BadDate(parse, d) {
        assert FirstBad(parse, ds) == |dates|;
      }
    }
  }

  function ItemDates(items: seq<RssItem>): (dates: seq<string>)
  {
    seq(|items|, k requires 0 <= k < |items| => items[k].updated)
  }

  /** The entry rssFeed makes of one item. */
  function RssEntry(libs: Libraries, it: RssItem): Entry
  {
    Entry(it.title, it.link, Repair(libs.html, it.description), Repair(libs.html, it.content.data),
          ResolveRssTime(libs.parseTime, it.updated).0)
  }

  /** The error rssFeed reports: the channel's date if it is bad, otherwise the first bad item
      date in item order, and none exactly when every date resolves. */
  function RssError(parse: TimeParser, r: Rss): (err: Option<Error>)
    ensures err.None? <==>
      !BadDate(parse, r.updated) && forall k :: 0 <= k < |r.items| ==> !BadDate(parse, r.items[k].updated)
    ensures BadDate(parse, r.updated) ==> err == Some(ErrBadTime(r.updated))
    ensures forall k :: 0 <= k < |r.items| && !BadDate(parse, r.updated) && BadDate(parse, r.items[k].updated)
                        && (forall j :: 0 <= j < k ==> !BadDate(parse, r.items[j].updated))
                        ==> err == Some(ErrBadTime(r.items[k].updated))
  {
    var dates := ItemDates(r.items);
    assert forall k :: 0 <= k < |r.items| ==> dates[k] == r.items[k].updated;
    FirstBadTimeMeaning(parse, dates);
    if BadDate(parse, r.updated) then Some(ErrBadTime(r.updated)) else FirstBadTime(parse, dates)
  }

  /** The error of the whole channel is the first bad date of the channel date and the item dates. */
  lemma RssErrorIsFirstBadTime(parse: TimeParser, r: Rss)
    ensures RssError(parse, r) == FirstBadTime(parse, [r.updated] + ItemDates(r.items))
  {
    assert ([r.updated] + ItemDates(r.items))[1..] == ItemDates(r.items);
  }

  /** The entries of `items`, one per item and in the same order. */
  function RssEntries(libs: Libraries, items: seq<RssItem>): (es: seq<Entry>)
    ensures |es| == |items|
    ensures forall k :: 0 <= k < |items| ==> es[k] == RssEntry(libs, items[k])
  {
    if items == [] then [] else RssEntries(libs, items[..|items| - 1]) + [RssEntry(libs, items[|items| - 1])]
  }

  /** What rssFeed returns. */
  function RssFeedOf(libs: Libraries, r: Rss): (Feed, Option<Error>)
  {
    (Feed(r.title, r.link, ResolveRssTime(libs.parseTime, r.updated).0, RssEntries(libs, r.items)),
     RssError(libs.parseTime, r))
  }

  /** rssFeed keeps the channel's fields, makes one entry per item in item order, and reports
      the error RssError picks. */
  lemma RssFeedOfMeaning(libs: Libraries, r: Rss)
    ensures var res := RssFeedOf(libs, r);
      && res.0.title == r.title && res.0.link == r.link
      && res.0.updated == ResolveRssTime(libs.parseTime, r.updated).0
      && |res.0.entries| == |r.items|
      && (forall k :: 0 <= k < |r.items| ==>
            var e := res.0.entries[k];
            && e.title == r.items[k].title && e.link == r.items[k].link
            && e.summary == Repair(libs.html, r.items[k].description)
            && e.content == Repair(libs.html, r.items[k].content.data)
            && e.when == ResolveRssTime(libs.parseTime, r.items[k].updated).0)
      && res.1 == RssError(libs.parseTime, r)
  {
  }

  /** An item whose date does not resolve still gets its entry, with the zero instant. */
  lemma BadItemDateIsZero(libs: Libraries, r: Rss, k: nat)
    requires k < |r.items| && BadDate(libs.parseTime, r.items[k].updated)
    ensures RssFeedOf(libs, r).0.entries[k].when == ZeroTime
    ensures RssFeedOf(libs, r).0.entries[k].title == r.items[k].title
    ensures RssFeedOf(libs, r).1.Some?
  {
    RssFeedOfMeaning(libs, r);
  }

  /** One round of rssFeed's item loop: the item's entry is appended, and its date's error is
      kept only when no error was seen before. */
  method AddItem(libs: Libraries, f: Feed, err: Option<Error>, it: RssItem) returns (f': Feed, err': Option<Error>)
    ensures f' == f.(entries := f.entries + [RssEntry(libs, it)])
    ensures err' == if err.Some? then err else ResolveRssTime(libs.parseTime, it.updated).1
  {
    var when, e := RssTime(libs.parseTime, it.updated);
    err' := err;
    if err == None && e != None {
      err' := e;
    }
    var summary := FixHtml(libs.html, it.description);
    var content := FixHtml(libs.html, it.content.data);
    f' := f.(entries := f.entries + [Entry(it.title, it.link, summary, content, when)]);
  }

  /** rssFeed: reads the channel date, then appends one entry per item, keeping the first
      bad date seen in `err`. */
  method RssFeed(libs: Libraries, r: Rss) returns (f: Feed, err: Option<Error>)
    ensures (f, err) == RssFeedOf(libs, r)
  {
    ghost var dates := [r.updated];
    var updated;
    updated, err := RssTime(libs.parseTime, r.updated);
    assert err == FirstBadTime(libs.parseTime, dates);
    f := Feed(r.title, r.link, updated, []);
    for i := 0 to |r.items|
      invariant f == Feed(r.title, r.link, updated, RssEntries(libs, r.items[..i]))
      invariant dates == [r.updated] + ItemDates(r.items[..i])
      invariant err == FirstBadTime(libs.parseTime, dates)
    {
      FirstBadTimeSnoc(libs.parseTime, dates, r.items[i].updated);
      RssItemsSnoc(libs, r.items, i);
      f, err := AddItem(libs, f, err, r.items[i]);
      dates := dates + [r.items[i].updated];
    }
    assert r.items[..|r.items|] == r.items;
    RssErrorIsFirstBadTime(libs.parseTime, r);
  }

  lemma RssItemsSnoc(libs: Libraries, items: seq<RssItem>, i: nat)
    requires i < |items|
    ensures RssEntries(libs, items[..i + 1]) == RssEntries(libs, items[..i]) + [RssEntry(libs, items[i])]
    ensures ItemDates(items[..i + 1]) == ItemDates(items[..i]) + [items[i].updated]
  {
    var pre := items[..i + 1];
    assert pre[..i] == items[..i];
    assert RssEntries(libs, pre) == RssEntries(libs, pre[..i]) + [RssEntry(libs, pre[i])];
    var a, b := ItemDates(pre), ItemDates(items[..i]) + [items[i].updated];
    assert |a| == |b| && forall k :: 0 <= k < |a| ==> a[k] == b[k];
  }

  // Atom

  /** The entry atomFeed makes of one Atom entry: its own link's href, unfiltered by rel, and
      content from the first <content> element only. */
  function AtomEntryOf(h: Html, ent: AtomEntry): Entry
  {
    Entry(ent.title, ent.link.href, Repair(h, ent.summary),
          if |ent.content| > 0 then Repair(h, Data(h, ent.content[0])) else [],
          ent.updated)
  }

  /** The entries of `ents`, one per Atom entry and in the same order. */
  function AtomEntries(h: Html, ents: seq<AtomEntry>): (es: seq<Entry>)
    ensures |es| == |ents|
    ensures forall k :: 0 <= k < |ents| ==> es[k] == AtomEntryOf(h, ents[k])
  {
    if ents == [] then [] else AtomEntries(h, ents[..|ents| - 1]) + [AtomEntryOf(h, ents[|ents| - 1])]
  }

  /** What atomFeed returns. */
  function AtomFeedOf(h: Html, a: FeedRecord): Feed
  {
    Feed(a.title, LinkOf(a.links), a.updated, AtomEntries(h, a.entries))
  }

  /** atomFeed keeps the feed's title, alternate link and update time, and makes one entry per
      Atom entry in document order. */
  lemma AtomFeedOfMeaning(h: Html, a: FeedRecord)
    ensures var f := AtomFeedOf(h, a);
      && f.title == a.title && f.link == LinkOf(a.links) && f.updated == a.updated
      && |f.entries| == |a.entries|
      && forall k :: 0 <= k < |a.entries| ==>
           var e := f.entries[k];
           && e.title == a.entries[k].title && e.link == a.entries[k].link.href
           && e.summary == Repair(h, a.entries[k].summary) && e.when == a.entries[k].updated
           && (a.entries[k].content == [] ==> e.content == [])
           && (a.entries[k].content != [] ==> e.content == Repair(h, Data(h, a.entries[k].content[0])))
  {
  }

  /** One round of atomFeed's entry loop: the entry made of `ent` is appended. */
  method AddAtomEntry(h: Html, f: Feed, ent: AtomEntry) returns (f': Feed)
    ensures f' == f.(entries := f.entries + [AtomEntryOf(h, ent)])
  {
    var summary := FixHtml(h, ent.summary);
    var e := Entry(ent.title, ent.link.href, summary, [], ent.updated);
    if |ent.content| > 0 {
      var content := FixHtml(h, Data(h, ent.content[0]));
      e := e.(content := content);
    }
    f' := f.(entries := f.entries + [e]);
  }

  /** atomFeed: appends one entry per Atom entry; it never reports an error. */
  method AtomFeed(h: Html, a: FeedRecord) returns (f: Feed, err: Option<Error>)
    ensures f == AtomFeedOf(h, a) && err == None
  {
    var link := Link(a);
    f := Feed(a.title, link, a.updated, []);
    for i := 0 to |a.entries|
      invariant f == Feed(a.title, link, a.updated, AtomEntries(h, a.entries[..i]))
    {
      assert a.entries[..i + 1][..i] == a.entries[..i];
      f := AddAtomEntry(h, f, a.entries[i]);
    }
    assert a.entries[..|a.entries|] == a.entries;
    err := None;
  }

  /** Read: `doc` is the decoded record or the decoder's error message. A decoding error comes
      back as DecodeError with Feed{}; otherwise the document is RSS exactly when
      its channel has a title, and Atom when it does not. Only RSS reports an error after a
      successful decode, and then it is the advisory ErrBadTime. */
  method Read(libs: Libraries, doc: Result<FeedRecord, string>) returns (f: Feed, err: Option<Error>)
    ensures doc.Failure? ==> f == EmptyFeed && err == Some(DecodeError(doc.error))
    ensures doc.Success? && doc.value.rss.title != "" ==> (f, err) == RssFeedOf(libs, doc.value.rss)
    ensures doc.Success? && doc.value.rss.title == "" ==> f == AtomFeedOf(libs.html, doc.value) && err == None
    ensures doc.Success? && err.Some? ==> err.value.ErrBadTime?
  {
    if doc.Failure? {
      return EmptyFeed, Some(DecodeError(doc.error));
    }
    var rec := doc.value;
    if rec.rss.title != "" {
      f, err := RssFeed(libs, rec.rss);
      return;
    }
    f, err := AtomFeed(libs.html, rec);
  }
}
