# feedme: feed normalisation and subscription bookkeeping, in Dafny

This project models the core of feedme, a small feed reader. The core is the `webfeed`
package. It turns a decoded RSS 2.0 or Atom document into one `Feed` with its ordered
`Entry` list:

- `Read` dispatches on the dialect.
- `rssFeed` and `rssTime` resolve RSS dates against four layouts. The first date that fails
  to resolve is kept as the advisory `ErrBadTime`.
- `atomFeed`, `feed.link` and `atomContent.Data` handle Atom.
- `fixHtml` repairs entry bodies. It parses, renders and cuts out the `<body>` contents, and
  falls back to the escaped input.

A few pure pieces of the `feedme` application are modelled beside it: the OPML walk, the
error list's text, the feed list's order and swap, and the subscription diff of
`handleUpdate`.

Layout:

- `wrappers.dfy`: `Option` and `Result`.
- `bytes.dfy`: bytes and `bytes.Index`.
- `text.dfy`: the `strings` functions the application uses: `TrimSpace` with Go's white-space
  set, `Split` on newlines, `ToLower`, and Go's string order.
- `markup.dfy`: `fixHtml`. The HTML library is a record of function values.
- `timestamps.dfy`: `ErrBadTime` and `rssTime`. `time.Parse` is a parameter.
- `webfeed.dfy`: the decoded records, `Feed`/`Entry`, `rssFeed`, `atomFeed` and `Read`.
- `feedme.dfy`: `opmlWalk`, `errorList.Error`, `feedList` and the subscription diff.

Each loop of the source is a method. Each method is proved equal to a function that
specifies it, and lemmas state what that function means.

Two details of the code that the model keeps:

- An Atom entry's link is `ent.Link.Href`, the href of its single decoded link, whatever its
  `rel` (webfeed/webfeed.go:111). `AtomEntryOf` does the same.
- The recover in `fixHtml` is installed after `html.Parse` returns, so only a
  `bytes.ErrTooLarge` panic from `html.Render` is caught (webfeed/webfeed.go:203-214).
  `Rendered.ErrTooLarge` is an outcome of `render` only.

## Model

| member | source | states |
|---|---|---|
| Bytes.Index | webfeed/webfeed.go:222 | -1 exactly when the separator occurs nowhere; otherwise the position of its first occurrence |
| Markup.BodyContentsNone | webfeed/webfeed.go:220-232 | no body is found exactly when "<body>" is missing, or when no "</body>" follows the first "<body>" |
| Markup.BodyContentsFramed | webfeed/webfeed.go:220-233 | the body found lies right after the first "<body>", is followed by "</body>", and contains no "</body>" |
| Markup.Repair | webfeed/webfeed.go:202-234 | the escaped input when parsing fails, when rendering fails or runs out of buffer, or when a body marker is missing; otherwise the rendered body contents |
| Markup.FixHtml | webfeed/webfeed.go:202-234 | fixHtml's step-by-step parse, render and slicing returns exactly Repair |
| Timestamps.BadTimeMessage | webfeed/webfeed.go:48-50 | the message is "Unable to parse time: " followed by exactly the bad string |
| Timestamps.BadTimeMessageInjective | webfeed/webfeed.go:45-50 | two ErrBadTime values with the same message carry the same string |
| Timestamps.FirstLayout | webfeed/webfeed.go:92-96 | the position of a layout that parses the string, with no layout before it parsing it; the list length when none parses it |
| Timestamps.ResolveRssTimeMeaning | webfeed/webfeed.go:78-99 | "" gives the zero time and no error; there is an error exactly when the string is non-empty and no layout parses it, and then it is ErrBadTime of that string with the zero time; otherwise the time is that of the first layout in list order that parses it |
| Timestamps.RssTime | webfeed/webfeed.go:87-99 | the loop with early return computes ResolveRssTime |
| WebFeed.FirstAlternate | webfeed/webfeed.go:137-141 | the position of the first link whose rel is "" or "alternate", or the list length |
| WebFeed.LinkOf | webfeed/webfeed.go:136-143 | "" when no link has rel "" or "alternate"; otherwise the href of the first such link |
| WebFeed.Link | webfeed/webfeed.go:136-143 | feed.link's loop returns LinkOf |
| WebFeed.Data | webfeed/webfeed.go:165-171 | xhtml content is returned unchanged; any other type is unescaped |
| WebFeed.FirstBad | webfeed/webfeed.go:60-64 | the position of the first date that does not resolve, with every earlier date resolving |
| WebFeed.FirstBadTimeMeaning | webfeed/webfeed.go:53-64 | no error exactly when every date resolves; otherwise ErrBadTime of the first date that does not |
| WebFeed.FirstBadTimeSnoc | webfeed/webfeed.go:61-64 | a later date changes the accumulated error only when no earlier date failed |
| WebFeed.RssError | webfeed/webfeed.go:52-74 | the channel pubDate's error if it has one, else the first failing item date in item order; none exactly when every date resolves |
| WebFeed.RssErrorIsFirstBadTime | webfeed/webfeed.go:53-64 | the reported error is the first failure among the channel date followed by the item dates |
| WebFeed.RssEntries | webfeed/webfeed.go:60-73 | one entry per item, in item order, each made from its own item |
| WebFeed.RssFeedOfMeaning | webfeed/webfeed.go:52-75 | the channel's title, link and resolved date; one entry per item with its title, link, repaired description and content, and resolved date; the error RssError picks |
| WebFeed.BadItemDateIsZero | webfeed/webfeed.go:60-73 | an item whose date does not resolve still has its entry and title, with the zero time, and the feed reports an error |
| WebFeed.AddItem | webfeed/webfeed.go:61-72 | one round of the item loop appends that item's entry and keeps an earlier error over the item's own |
| WebFeed.RssFeed | webfeed/webfeed.go:52-75 | rssFeed's loop computes RssFeedOf: the entries and the first-error accumulator |
| WebFeed.AtomEntries | webfeed/webfeed.go:108-119 | one entry per Atom entry, in document order |
| WebFeed.AtomFeedOfMeaning | webfeed/webfeed.go:101-121 | the title, the alternate link and the update time; per entry its title, its own link's href, the repaired summary and update time; empty content without a content element, else the repaired Data of the first one |
| WebFeed.AddAtomEntry | webfeed/webfeed.go:109-118 | one round of the entry loop appends that entry |
| WebFeed.AtomFeed | webfeed/webfeed.go:101-121 | atomFeed's loop computes AtomFeedOf and never reports an error |
| WebFeed.Read | webfeed/webfeed.go:34-43 | a decode failure gives Feed{} and DecodeError of the decoder's message; a channel with a title is RSS; otherwise Atom with no error; after a decode only ErrBadTime is reported |
| Text.TrimSpace | feedme/feedme.go:300 | the result is the slice of the line left after its leading and trailing white space, everything cut off being white space; it is empty exactly when the line is all white space, and otherwise neither starts nor ends with white space |
| Text.Split | feedme/feedme.go:298 | at least one piece, none holding a newline, and joined by newlines they give back the input |
| Text.SplitJoin | feedme/feedme.go:298 | splitting newline-free pieces joined by newlines gives them back |
| Text.ToLower | feedme/feedme.go:67 | same length, each character lower-cased |
| Text.ToLowerIdempotent | feedme/feedme.go:67 | lower-casing twice is lower-casing once |
| Text.LessIrreflexive | feedme/feedme.go:67 | no string sorts before itself |
| Text.LessAsymmetric | feedme/feedme.go:67 | two strings never sort before each other |
| Text.LessTransitive | feedme/feedme.go:67 | the string order is transitive |
| Text.LessTotal | feedme/feedme.go:67 | of two different strings one sorts first |
| FeedMe.OpmlWalk | feedme/feedme.go:258-266 | the walk returns the given list followed by the outline's URLs in pre-order |
| FeedMe.NonEmpty | feedme/feedme.go:259-261 | keeps every non-empty string, as often as it occurs, and drops every empty one |
| FeedMe.NonEmptyAppend | feedme/feedme.go:259-263 | filtering a concatenation filters each part and keeps them in order |
| FeedMe.UrlsAreNonEmptyXmlUrls | feedme/feedme.go:258-266 | the walk yields exactly the non-empty xmlUrl attributes of the tree in pre-order |
| FeedMe.WalkCountsNonEmptyNodes | feedme/feedme.go:259-263 | opmlWalk(r, nil) has one element per node with a non-empty xmlUrl, and none of them is empty |
| FeedMe.ErrorListError | feedme/feedme.go:270-276 | the loop gives each message followed by a newline, and "" for an empty list |
| FeedMe.ErrorLinesIsJoin | feedme/feedme.go:270-276 | the text is the messages joined by newlines, with a newline after the last |
| FeedMe.ErrorLinesSplit | feedme/feedme.go:270-276 | splitting the text at newlines gives back the messages and an empty last piece, when no message holds a newline |
| FeedMe.Len | feedme/feedme.go:62-64 | the number of rows |
| FeedMe.Less | feedme/feedme.go:66-68 | row i sorts before row j exactly when its lower-cased title sorts before j's |
| FeedMe.Swap | feedme/feedme.go:70-72 | rows i and j are exchanged, every other row is unchanged, and the multiset of rows is kept |
| FeedMe.TitleLessIrreflexive | feedme/feedme.go:66-68 | no row sorts before itself |
| FeedMe.TitleLessTransitive | feedme/feedme.go:66-68 | the title order is transitive |
| FeedMe.TitleLessIncomparable | feedme/feedme.go:66-68 | two titles are unordered exactly when they are equal ignoring case |
| FeedMe.TitleLessIgnoresCase | feedme/feedme.go:66-68 | lower-casing either title does not change the order |
| FeedMe.Lines | feedme/feedme.go:298-303 | no more lines than submitted, none empty or starting with white space |
| FeedMe.Trimmed | feedme/feedme.go:299-300 | each submitted line trimmed, position by position |
| FeedMe.LinesAreTrimmedNonBlank | feedme/feedme.go:298-303 | the lines acted on are exactly the trimmed submitted lines, in order, with those that trim to nothing dropped |
| FeedMe.MarkCurrent | feedme/feedme.go:291-294 | the curFeeds map holds every current feed, each marked true |
| FeedMe.NewSubscriptionsCount | feedme/feedme.go:299-319 | each URL is subscribed once per line naming it, less one when it is already a current feed |
| FeedMe.UpdateSubscriptions | feedme/feedme.go:291-328 | subscribes every line except the first occurrence of a current feed; unsubscribes exactly the current feeds that no trimmed line names |

## Left out

- XML decoding (`encoding/xml`): `Read` takes the decoded record, or the decode error, as its input.
- `time.Parse`: a parameter of type `TimeParser`, and only the first-match logic over the four layouts is modelled. `Time` is an instant with a zone offset, and no calendar is modelled.
- `html.Parse`, `html.Render`, `html.EscapeString` and `html.UnescapeString`: fields of the `Html` record. The repaired markup is therefore not proved well-formed; only the fallback chain and the `<body>` slicing are.
- Markup.FixHtml: the re-panic of any panic other than `bytes.ErrTooLarge` (webfeed/webfeed.go:211-213) is not modelled, because it is a defect path.
- The `bytes.Buffer` and its initial capacity (webfeed/webfeed.go:215) are left out, because the capacity does not change the result.
- Text.ToLower: lower-cases ASCII letters only, where Go's `strings.ToLower` maps all of Unicode, because no Unicode case tables are modelled.
- `feedListEntry.Fresh`: left out, because it reads the wall clock and `maxCacheDuration` is not part of this model.
- FeedMe.UpdateSubscriptions: the `errs` list, `checkUrl`, `subscribe` and `unsubscribe` are not modelled, because they call the datastore and the network. The method returns what would be subscribed and unsubscribed.
- FeedMe.UpdateSubscriptions: `unsubscribe` is a set, because Go iterates a map in an unspecified order.
- FeedMe.UpdateSubscriptions: the user's feed keys are taken as their `StringID` strings, because the datastore is not modelled.
- The HTTP handlers, templates, redirects, App Engine datastore, task queue and user calls, and `articlesSince` are left out, because they are I/O and foreign services.
- A nil slice and an empty slice are both the empty sequence.
- The decoded fields that no operation reads (`Author`, `Id`, the channel `Description`) are kept in the records but play no part in any result.
