/**
 * The feed document as the XML parser hands it over (single-valued elements are not wrapped in
 * arrays, attributes sit under `$`, text under `_`), the normalisation of its entry list, and the
 * mapping of one entry to a `Review`.
 */
module FeedParsing {
  import opened Wrappers
  import opened JsRuntime
  import opened ReviewTypes

  /** What aborts the processing of a page: the XML parser's rejection, or a property read on a missing value. */
  datatype Failure = XmlRejected | TypeError

  /** Attributes of an element; `None` when the element has none, so its `$` is `undefined`. */
  type Attributes = Option<map<string, string>>

  /** One `<content type="…">` element: its attributes and its text (`_`). */
  datatype ContentItem = ContentItem(attrs: Attributes, text: Option<string>)

  /** `entry.content`: missing, a single element (an object, not an array), or repeated elements. */
  datatype ContentField = NoContent | OneContent(item: ContentItem) | ContentList(items: seq<ContentItem>)

  /** `entry.author`, with its `name` and `uri` children. */
  datatype AuthorBlock = AuthorBlock(name: Option<string>, uri: Option<string>)

  /**
   * `entry.link`: missing, one element whose `href` sits among its attributes, or repeated
   * elements (an array, which has no `$`).
   */
  datatype LinkField = NoLink | Link(attrs: Attributes) | LinkList(items: seq<Attributes>)

  /**
   * One `<entry>` element. The numeric fields are raw text that may be missing; `id`, `title`,
   * `im:version` and `updated` are passed through unchanged.
   */
  datatype Entry = Entry(
    id: string,
    title: string,
    content: ContentField,
    rating: Option<string>,
    version: string,
    author: Option<AuthorBlock>,
    voteSum: Option<string>,
    voteCount: Option<string>,
    updated: string,
    link: LinkField)

  /** An item of the entry list: an empty `<entry/>` comes out as the falsy empty string. */
  datatype EntryItem = Blank | Element(entry: Entry)

  /** `feed.entry`: missing, one element, or an array of elements. */
  datatype EntryField = NoEntry | OneEntry(item: EntryItem) | EntryList(items: seq<EntryItem>)

  datatype Feed = Feed(entry: EntryField)

  /** The entries of an array, falsy items removed, order kept: `.filter(Boolean)`. */
  function Elements(items: seq<EntryItem>): (es: seq<Entry>)
    ensures |es| <= |items|
    ensures forall e :: e in es <==> Element(e) in items
  {
    if items == [] then []
    else (if items[0].Element? then [items[0].entry] else []) + Elements(items[1..])
  }

  /** Filtering distributes over concatenation, so the survivors keep their relative order. */
  lemma {:induction false} ElementsAppend(a: seq<EntryItem>, b: seq<EntryItem>)
    ensures Elements(a + b) == Elements(a) + Elements(b)
  {
    if a == [] {
      assert a + b == b;
    } else {
      assert (a + b)[1..] == a[1..] + b;
      ElementsAppend(a[1..], b);
    }
  }

  /** The entry list of a feed, whatever shape the parser gave it. */
  function NormaliseEntries(f: EntryField): (es: seq<Entry>)
    ensures f.NoEntry? ==> es == []
    ensures f.OneEntry? ==> es == (if f.item.Element? then [f.item.entry] else [])
  {
    match f
    case NoEntry => []
    case OneEntry(x) => Elements([x])
    case EntryList(xs) => Elements(xs)
  }

  /** A lone entry and a one-element array of it normalise alike. */
  lemma ShapeTolerance(x: EntryItem)
    ensures NormaliseEntries(OneEntry(x)) == NormaliseEntries(EntryList([x]))
  {
  }

  predicate Tagged(c: ContentItem, tag: string) {
    c.attrs.Some? && "type" in c.attrs.value && c.attrs.value["type"] == tag
  }

  /**
   * Where `find(c => c.$.type === tag)` stops: at the first item that either has no attributes
   * (reading `$.type` throws there) or carries the tag; `|items|` when it runs off the end.
   */
  function FindStop(items: seq<ContentItem>, tag: string): (k: nat)
    ensures k <= |items|
    ensures forall j :: 0 <= j < k ==> items[j].attrs.Some? && !Tagged(items[j], tag)
    ensures k < |items| ==> items[k].attrs.None? || Tagged(items[k], tag)
  {
    if items == [] then 0
    else if items[0].attrs.None? || Tagged(items[0], tag) then 0
    else 1 + FindStop(items[1..], tag)
  }

  /** `items.find(c => c.$.type === tag)`: the first tagged item, `None` for `undefined`, or a TypeError. */
  function FindTagged(items: seq<ContentItem>, tag: string): (r: Result<Option<ContentItem>, Failure>)
    ensures r.Err? <==> FindStop(items, tag) < |items| && items[FindStop(items, tag)].attrs.None?
    ensures r.Err? ==> r.error == TypeError
    ensures r.Ok? && r.value.Some? ==> r.value.value in items && Tagged(r.value.value, tag)
    ensures r == Ok(None) ==> forall c :: c in items ==> !Tagged(c, tag)
  {
    var k := FindStop(items, tag);
    if k == |items| then Ok(None)
    else if items[k].attrs.None? then Err(TypeError)
    else Ok(Some(items[k]))
  }

  /** `x || null` for a string that may be missing. */
  function NonEmpty(s: Option<string>): Option<string> {
    if s.Some? && s.value != "" then s else None
  }

  /** `entry.content?.find(c => c.$.type === tag)?._ || null`. */
  function ContentText(field: ContentField, tag: string): (r: Result<Option<string>, Failure>)
    ensures field.NoContent? ==> r == Ok(None)
    ensures field.OneContent? ==> r == Err(TypeError)
    ensures field.ContentList? ==> (r.Err? <==> FindStop(field.items, tag) < |field.items|
                                                && field.items[FindStop(field.items, tag)].attrs.None?)
    ensures r.Ok? && r.value.Some? ==> r.value.value != ""
  {
    match field
    case NoContent => Ok(None)
    case OneContent(_) => Err(TypeError)
    case ContentList(items) =>
      match FindTagged(items, tag)
      case Err(e) => Err(e)
      case Ok(None) => Ok(None)
      case Ok(Some(c)) => Ok(NonEmpty(c.text))
  }

  /** `entry.link?.$.href || ''`. */
  function LinkHref(link: LinkField): (r: Result<string, Failure>)
    ensures r.Err? <==> link == Link(None) || link.LinkList?
    ensures r.Err? ==> r.error == TypeError
    ensures link.NoLink? ==> r == Ok("")
  {
    match link
    case NoLink => Ok("")
    case Link(None) => Err(TypeError)
    case Link(Some(attrs)) => Ok(if "href" in attrs then attrs["href"] else "")
    case LinkList(_) => Err(TypeError)
  }

  /** `entry.author?.<field> || ''`. */
  function AuthorField(author: Option<AuthorBlock>, uri: bool): (r: string)
    ensures author.None? ==> r == ""
    ensures r != "" ==> author.Some? && (if uri then author.value.uri else author.value.name) == Some(r)
  {
    match author
    case None => ""
    case Some(b) => (if uri then b.uri else b.name).GetOr("")
  }

  /** `transformEntry`: map one parsed entry to the canonical review, or throw a TypeError. */
  function TransformEntry(e: Entry): (r: Result<Review, Failure>)
    ensures r.Err? ==> r.error == TypeError
    ensures e.content.OneContent? || e.link == Link(None) || e.link.LinkList? ==> r.Err?
    ensures r.Ok? ==> r.value.content.cleanHtml == r.value.content.html
    ensures r.Ok? ==> ContentText(e.content, "text") == Ok(r.value.content.text)
                      && ContentText(e.content, "html") == Ok(r.value.content.html)
    ensures r.Ok? ==> (r.value.id == e.id && r.value.title == e.title
                       && r.value.version == e.version && r.value.updated == e.updated)
  {
    var text :- ContentText(e.content, "text");
    var html :- ContentText(e.content, "html");
    var link :- LinkHref(e.link);
    Ok(Review(
      e.id,
      e.title,
      ReviewContent(text, html, html),
      ParseInt(JsString(e.rating)),
      e.version,
      Author(AuthorField(e.author, false), AuthorField(e.author, true)),
      ParseInt(JsString(e.voteSum)),
      ParseInt(JsString(e.voteCount)),
      e.updated,
      link))
  }

  /**
   * An entry whose shapes are all readable (no content, or content items that all carry
   * attributes, and a single link that carries attributes, or none) always yields a review, and a
   * missing rating or vote field becomes NaN rather than dropping the entry.
   */
  lemma {:induction false} WellShapedEntryTransforms(e: Entry)
    requires e.content.NoContent? || (e.content.ContentList? && forall c :: c in e.content.items ==> c.attrs.Some?)
    requires e.link.NoLink? || e.link.Link?
    requires e.link != Link(None)
    ensures TransformEntry(e).Ok?
    ensures e.rating.None? ==> TransformEntry(e).value.rating.None?
    ensures e.voteSum.None? ==> TransformEntry(e).value.voteSum.None?
    ensures e.voteCount.None? ==> TransformEntry(e).value.voteCount.None?
  {
    ContentReadable(e.content, "text");
    ContentReadable(e.content, "html");
    ReadableEntryTransforms(e);
    ParseIntUndefined();
  }

  lemma ContentReadable(content: ContentField, tag: string)
    requires content.NoContent? || (content.ContentList? && forall c :: c in content.items ==> c.attrs.Some?)
    ensures ContentText(content, tag).Ok?
  {
    if content.ContentList? {
      FindTaggedNeverThrows(content.items, tag);
    }
  }

  /** Once both content reads and the link read succeed, the entry yields a review carrying its parsed numbers. */
  lemma ReadableEntryTransforms(e: Entry)
    requires ContentText(e.content, "text").Ok? && ContentText(e.content, "html").Ok? && LinkHref(e.link).Ok?
    ensures TransformEntry(e).Ok?
    ensures TransformEntry(e).value.rating == ParseInt(JsString(e.rating))
    ensures TransformEntry(e).value.voteSum == ParseInt(JsString(e.voteSum))
    ensures TransformEntry(e).value.voteCount == ParseInt(JsString(e.voteCount))
  {
  }

  /**
   * The author block and the link of a review: empty strings for whatever the entry lacks, the
   * `href` attribute of a single link otherwise.
   */
  lemma TransformedFields(e: Entry)
    requires TransformEntry(e).Ok?
    ensures var r := TransformEntry(e).value;
            (e.author.None? ==> r.author == Author("", ""))
            && (e.author.Some? ==> r.author == Author(e.author.value.name.GetOr(""), e.author.value.uri.GetOr("")))
            && (e.link.NoLink? ==> r.link == "")
            && (e.link.Link? ==> e.link.attrs.Some? && r.link == (if "href" in e.link.attrs.value then e.link.attrs.value["href"] else ""))
  {
  }

  lemma FindTaggedNeverThrows(items: seq<ContentItem>, tag: string)
    requires forall c :: c in items ==> c.attrs.Some?
    ensures FindTagged(items, tag).Ok?
  {
    var k := FindStop(items, tag);
    if k < |items| {
      assert items[k] in items;
    }
  }

  /**
   * The `text` (or `html`) variant is the text of the FIRST item carrying that tag, or `null`
   * when that text is empty: a later non-empty item with the same tag is never consulted.
   */
  lemma {:induction false} FirstTaggedText(items: seq<ContentItem>, tag: string, k: nat)
    requires k < |items| && Tagged(items[k], tag)
    requires forall j :: 0 <= j < k ==> items[j].attrs.Some? && !Tagged(items[j], tag)
    ensures ContentText(ContentList(items), tag) == Ok(NonEmpty(items[k].text))
  {
    FirstStopIsUnique(items, tag, k);
  }

  /** Content items that all carry attributes but none the tag give `null` for that variant. */
  lemma UntaggedContentIsNull(items: seq<ContentItem>, tag: string)
    requires forall c :: c in items ==> c.attrs.Some? && !Tagged(c, tag)
    ensures ContentText(ContentList(items), tag) == Ok(None)
  {
  }

  /** No item before the match is tagged and none lacks attributes, so the scan stops exactly at `k`. */
  lemma {:induction false} FirstStopIsUnique(items: seq<ContentItem>, tag: string, k: nat)
    requires k < |items| && (items[k].attrs.None? || Tagged(items[k], tag))
    requires forall j :: 0 <= j < k ==> items[j].attrs.Some? && !Tagged(items[j], tag)
    ensures FindStop(items, tag) == k
  {
  }

  /** `entries.map(f)` for an `f` that may throw: the first failure aborts, otherwise every value is kept. */
  function MapAll(f: Entry -> Result<Review, Failure>, es: seq<Entry>): (r: Result<seq<Review>, Failure>)
    ensures r.Ok? ==> |r.value| == |es|
    ensures r.Err? ==> exists i :: 0 <= i < |es| && f(es[i]) == Err(r.error)
  {
    if es == [] then Ok([])
    else
      match f(es[0])
      case Err(e) => Err(e)
      case Ok(x) =>
        match MapAll(f, es[1..])
        case Err(e) => assert f(es[1..][0]) == f(es[1]); Err(e)
        case Ok(xs) => Ok([x] + xs)
  }

  /** The map succeeds exactly when `f` does on every entry, and then keeps each value at its place. */
  lemma {:induction false} MapAllPointwise(f: Entry -> Result<Review, Failure>, es: seq<Entry>)
    ensures MapAll(f, es).Ok? <==> forall i :: 0 <= i < |es| ==> f(es[i]).Ok?
    ensures MapAll(f, es).Ok? ==> forall i :: 0 <= i < |es| ==> f(es[i]) == Ok(MapAll(f, es).value[i])
  {
    if es != [] {
      MapAllPointwise(f, es[1..]);
      assert forall i :: 1 <= i < |es| ==> es[i] == es[1..][i - 1];
    }
  }

  /** `entries.map(transformEntry)`: every entry in turn; the first TypeError aborts the page. */
  function TransformAll(es: seq<Entry>): (r: Result<seq<Review>, Failure>)
    ensures r.Err? ==> r.error == TypeError
    ensures r.Ok? ==> |r.value| == |es|
  {
    MapAll(TransformEntry, es)
  }

  /** The page succeeds exactly when every entry does, and then review `i` is entry `i` transformed. */
  lemma TransformAllPointwise(es: seq<Entry>)
    ensures TransformAll(es).Ok? <==> forall i :: 0 <= i < |es| ==> TransformEntry(es[i]).Ok?
    ensures TransformAll(es).Ok? ==> forall i :: 0 <= i < |es| ==> TransformEntry(es[i]) == Ok(TransformAll(es).value[i])
  {
    MapAllPointwise(TransformEntry, es);
  }

  /** The reviews of a parsed feed: one review per surviving entry, in feed order. */
  function FeedReviews(feed: Feed): (r: Result<seq<Review>, Failure>)
    ensures r.Ok? ==> |r.value| == |NormaliseEntries(feed.entry)|
    ensures feed.entry.NoEntry? ==> r == Ok([])
    ensures r.Err? ==> r.error == TypeError
  {
    TransformAll(NormaliseEntries(feed.entry))
  }
}
