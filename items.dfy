/** Item construction: the tag and category splitting done in `process`
    and the element tree `create_item` builds with ElementTree. */
module Items {
  import opened PyStr

  /** The element names of the ingestion format that the converter emits,
      plus `description`, which it never emits. */
  datatype TagName =
    | Mrss | Channel | Item | Action | Type | UserId | Name | Description
    | ContentAssets | Content | UrlContentResource | Tags | Tag | Categories | Category
    | StartDate | EndDate | Media | MediaType

  /** The text of each element name as it appears in the XML. */
  function XmlName(t: TagName): Str
  {
    match t
    case Mrss => "mrss"
    case Channel => "channel"
    case Item => "item"
    case Action => "action"
    case Type => "type"
    case UserId => "userId"
    case Name => "name"
    case Description => "description"
    case ContentAssets => "contentAssets"
    case Content => "content"
    case UrlContentResource => "urlContentResource"
    case Tags => "tags"
    case Tag => "tag"
    case Categories => "categories"
    case Category => "category"
    case StartDate => "startDate"
    case EndDate => "endDate"
    case Media => "media"
    case MediaType => "mediaType"
  }

  /** Distinct element names are spelled differently in the XML. */
  lemma XmlNameInjective(a: TagName, b: TagName)
    requires XmlName(a) == XmlName(b)
    ensures a == b
  {
  }

  /** An ElementTree element: tag, attribute dictionary, text (the empty
      string where ElementTree has none) and children in document order. */
  datatype Element = Element(tag: TagName, attrib: map<Str, Str>, text: Str, children: seq<Element>)

  /** An element with text only. */
  function Leaf(tag: TagName, text: Str): Element
  {
    Element(tag, map[], text, [])
  }

  /** Every one of `children` is a text-only `tag` element. */
  predicate AllLeaves(children: seq<Element>, tag: TagName)
  {
    forall k :: 0 <= k < |children| ==> children[k] == Leaf(tag, children[k].text)
  }

  /** One `tag` element with text `texts[k]` per entry, in order. */
  function Leaves(tag: TagName, texts: seq<Str>): (r: seq<Element>)
    ensures |r| == |texts| && AllLeaves(r, tag) && Texts(r) == texts
  {
    seq(|texts|, k requires 0 <= k < |texts| => Leaf(tag, texts[k]))
  }

  function ChildTags(children: seq<Element>): seq<TagName>
  {
    seq(|children|, k requires 0 <= k < |children| => children[k].tag)
  }

  function Texts(children: seq<Element>): seq<Str>
  {
    seq(|children|, k requires 0 <= k < |children| => children[k].text)
  }

  /** `tag` names `e` or an element anywhere below it. */
  predicate Mentions(e: Element, tag: TagName)
    decreases e
  {
    e.tag == tag || exists k :: 0 <= k < |e.children| && Mentions(e.children[k], tag)
  }

  function StripAll(pieces: seq<Str>): seq<Str>
  {
    seq(|pieces|, k requires 0 <= k < |pieces| => Strip(pieces[k]))
  }

  /** What `process` passes on for a tags or categories cell: the cell itself
      when it is empty (falsy, so no element is emitted), otherwise
      `[t.strip() for t in cell.split(",")]` -- one piece more than there
      are commas, each the stripped text between two commas, in input order.
      Empty pieces are kept. */
  function SplitField(cell: Str): (r: seq<Str>)
    ensures r == [] <==> cell == []
    ensures cell != [] ==> |r| == Count(cell, ',') + 1
    ensures cell != [] ==> forall k :: 0 <= k < |r| ==> r[k] == Strip(SplitOn(cell, ',')[k])
    ensures forall k :: 0 <= k < |r| ==>
      ',' !in r[k] && (r[k] == [] || (!IsSpace(r[k][0]) && !IsSpace(r[k][|r[k]| - 1])))
  {
    if cell == [] then []
    else
      var pieces := SplitOn(cell, ',');
      var r := StripAll(pieces);
      forall k | 0 <= k < |r| ensures ',' !in r[k] {
        StripKeepsOut(pieces[k], ',');
      }
      r
  }

  /** A stripped piece is left alone by `strip()`. */
  lemma StripStripped(t: Str)
    requires t == [] || (!IsSpace(t[0]) && !IsSpace(t[|t| - 1]))
    ensures Strip(t) == t
  {
    if t != [] {
      assert LeadingSpaces(t) == 0;
    }
  }

  /** Tags joined with commas are split back into the same tags, provided
      each holds no comma and is already stripped. */
  lemma SplitFieldJoin(ts: seq<Str>)
    requires |ts| >= 1 && Join(ts, ',') != []
    requires forall k :: 0 <= k < |ts| ==>
      ',' !in ts[k] && (ts[k] == [] || (!IsSpace(ts[k][0]) && !IsSpace(ts[k][|ts[k]| - 1])))
    ensures SplitField(Join(ts, ',')) == ts
  {
    SplitOnJoin(ts, ',');
    forall k | 0 <= k < |ts| ensures Strip(ts[k]) == ts[k] {
      StripStripped(ts[k]);
    }
  }

  /** The order `create_item` emits an item's children in; only `tags`,
      `categories`, `startDate` and `endDate` are optional. */
  const ItemOrder: seq<TagName> :=
    [Action, Type, UserId, Name, ContentAssets, Tags, Categories, StartDate, EndDate, Media]

  function Optional(present: bool, e: Element): seq<Element>
  {
    if present then [e] else []
  }

  function OptionalTag(present: bool, t: TagName): seq<TagName>
  {
    if present then [t] else []
  }

  /** `create_item(name, description, url, user_id, tags, categories,
      start_date, end_date, media_type)`: an `item` element holding the
      fixed children and then the optional ones. */
  function CreateItem(name: Str, description: Str, downloadUrl: Str, userId: Str,
                      tags: seq<Str>, categories: seq<Str>, startDate: Str, endDate: Str,
                      mediaType: Str): Element
  {
    Element(Item, map[], [], ItemHead(name, downloadUrl, userId)
                             + ItemTail(tags, categories, startDate, endDate, mediaType))
  }

  /** The children of the item come in the order of `ItemOrder`, with an
      optional child present exactly when its value is non-empty. */
  lemma CreateItemOrder(name: Str, description: Str, downloadUrl: Str, userId: Str,
                        tags: seq<Str>, categories: seq<Str>, startDate: Str, endDate: Str,
                        mediaType: Str)
    ensures var item := CreateItem(name, description, downloadUrl, userId, tags, categories,
                                   startDate, endDate, mediaType);
      && item.tag == Item
      && ChildTags(item.children) ==
        [Action, Type, UserId, Name, ContentAssets]
        + OptionalTag(tags != [], Tags) + OptionalTag(categories != [], Categories)
        + OptionalTag(startDate != [], StartDate) + OptionalTag(endDate != [], EndDate)
        + [Media]
  {
    var head := ItemHead(name, downloadUrl, userId);
    var tail := ItemTail(tags, categories, startDate, endDate, mediaType);
    ChildTagsConcat(head, tail);
    var f: seq<TagName> := [Action, Type, UserId, Name, ContentAssets];
    assert ChildTags(head) == f;
    ItemTailTags(tags, categories, startDate, endDate, mediaType);
    var a := OptionalTag(tags != [], Tags);
    var b := OptionalTag(categories != [], Categories);
    var c := OptionalTag(startDate != [], StartDate);
    var d := OptionalTag(endDate != [], EndDate);
    var m: seq<TagName> := [Media];
    AppendAssoc(f, a, b + (c + (d + m)));
    AppendAssoc(f + a, b, c + (d + m));
    AppendAssoc(f + a + b, c, d + m);
    AppendAssoc(f + a + b + c, d, m);
  }

  /** An item with every optional value present has exactly the children of
      `ItemOrder`. */
  lemma CreateItemFullOrder(name: Str, description: Str, downloadUrl: Str, userId: Str,
                            tags: seq<Str>, categories: seq<Str>, startDate: Str, endDate: Str,
                            mediaType: Str)
    requires tags != [] && categories != [] && startDate != [] && endDate != []
    ensures ChildTags(CreateItem(name, description, downloadUrl, userId, tags, categories,
                                 startDate, endDate, mediaType).children) == ItemOrder
  {
    CreateItemOrder(name, description, downloadUrl, userId, tags, categories,
                    startDate, endDate, mediaType);
    assert [Action, Type, UserId, Name, ContentAssets] + [Tags] + [Categories]
           + [StartDate] + [EndDate] + [Media] == ItemOrder;
  }

  /** `description` is accepted but never emitted, anywhere in the tree. */
  lemma CreateItemNoDescription(name: Str, description: Str, downloadUrl: Str, userId: Str,
                                tags: seq<Str>, categories: seq<Str>, startDate: Str,
                                endDate: Str, mediaType: Str)
    ensures !Mentions(CreateItem(name, description, downloadUrl, userId, tags, categories,
                                 startDate, endDate, mediaType), Description)
  {
    var head := ItemHead(name, downloadUrl, userId);
    var tail := ItemTail(tags, categories, startDate, endDate, mediaType);
    ItemHeadNoDescription(name, downloadUrl, userId);
    ItemTailNoDescription(tags, categories, startDate, endDate, mediaType);
    NoneMentionsConcat(head, tail, Description);
  }

  /** The children `create_item` always emits first. */
  function ItemHead(name: Str, downloadUrl: Str, userId: Str): seq<Element>
  {
    [ Leaf(Action, "add"),
      Leaf(Type, "1"),
      Leaf(UserId, userId),
      Leaf(Name, name),
      Element(ContentAssets, map[], [],
        [Element(Content, map[], [],
          [Element(UrlContentResource, map["url" := downloadUrl], [], [])])]) ]
  }

  function TagsElement(tags: seq<Str>): Element
  {
    Element(Tags, map[], [], Leaves(Tag, tags))
  }

  function CategoriesElement(categories: seq<Str>): Element
  {
    Element(Categories, map[], [], Leaves(Category, categories))
  }

  function MediaElement(mediaType: Str): Element
  {
    Element(Media, map[], [], [Leaf(MediaType, mediaType)])
  }

  /** The optional children, then `media`. */
  function ItemTail(tags: seq<Str>, categories: seq<Str>, startDate: Str, endDate: Str,
                    mediaType: Str): seq<Element>
  {
    Optional(tags != [], TagsElement(tags))
    + (Optional(categories != [], CategoriesElement(categories))
    + (Optional(startDate != [], Leaf(StartDate, startDate))
    + (Optional(endDate != [], Leaf(EndDate, endDate))
    + [MediaElement(mediaType)])))
  }

  lemma ChildTagsConcat(a: seq<Element>, b: seq<Element>)
    ensures ChildTags(a + b) == ChildTags(a) + ChildTags(b)
  {
  }

  lemma ChildTagsOptional(present: bool, e: Element)
    ensures ChildTags(Optional(present, e)) == OptionalTag(present, e.tag)
  {
  }

  lemma ItemTailTags(tags: seq<Str>, categories: seq<Str>, startDate: Str, endDate: Str,
                     mediaType: Str)
    ensures ChildTags(ItemTail(tags, categories, startDate, endDate, mediaType)) ==
      OptionalTag(tags != [], Tags) + (OptionalTag(categories != [], Categories)
      + (OptionalTag(startDate != [], StartDate) + (OptionalTag(endDate != [], EndDate)
      + [Media])))
  {
    var p1 := Optional(tags != [], TagsElement(tags));
    var p2 := Optional(categories != [], CategoriesElement(categories));
    var p3 := Optional(startDate != [], Leaf(StartDate, startDate));
    var p4 := Optional(endDate != [], Leaf(EndDate, endDate));
    var p5 := [MediaElement(mediaType)];
    ChildTagsOptional(tags != [], TagsElement(tags));
    ChildTagsOptional(categories != [], CategoriesElement(categories));
    ChildTagsOptional(startDate != [], Leaf(StartDate, startDate));
    ChildTagsOptional(endDate != [], Leaf(EndDate, endDate));
    assert ChildTags(p5) == [Media];
    ChildTagsConcat(p4, p5);
    ChildTagsConcat(p3, p4 + p5);
    ChildTagsConcat(p2, p3 + (p4 + p5));
    ChildTagsConcat(p1, p2 + (p3 + (p4 + p5)));
  }

  predicate NoneMentions(children: seq<Element>, tag: TagName)
  {
    forall k :: 0 <= k < |children| ==> !Mentions(children[k], tag)
  }

  lemma NoneMentionsConcat(a: seq<Element>, b: seq<Element>, tag: TagName)
    requires NoneMentions(a, tag) && NoneMentions(b, tag)
    ensures NoneMentions(a + b, tag)
  {
    forall k | 0 <= k < |a + b| ensures !Mentions((a + b)[k], tag) {
      if k >= |a| { assert (a + b)[k] == b[k - |a|]; }
    }
  }

  lemma NoMentionInLeaves(t: TagName, texts: seq<Str>, tag: TagName)
    requires t != tag
    ensures NoneMentions(Leaves(t, texts), tag)
  {
  }

  lemma ItemHeadNoDescription(name: Str, downloadUrl: Str, userId: Str)
    ensures NoneMentions(ItemHead(name, downloadUrl, userId), Description)
  {
    var head := ItemHead(name, downloadUrl, userId);
    assert !Mentions(head[4].children[0].children[0], Description);
    assert !Mentions(head[4].children[0], Description);
  }

  lemma ItemTailNoDescription(tags: seq<Str>, categories: seq<Str>, startDate: Str, endDate: Str,
                              mediaType: Str)
    ensures NoneMentions(ItemTail(tags, categories, startDate, endDate, mediaType), Description)
  {
    var p1 := Optional(tags != [], TagsElement(tags));
    var p2 := Optional(categories != [], CategoriesElement(categories));
    var p3 := Optional(startDate != [], Leaf(StartDate, startDate));
    var p4 := Optional(endDate != [], Leaf(EndDate, endDate));
    var p5 := [MediaElement(mediaType)];
    NoMentionInLeaves(Tag, tags, Description);
    NoMentionInLeaves(Category, categories, Description);
    assert !Mentions(TagsElement(tags), Description);
    assert !Mentions(CategoriesElement(categories), Description);
    assert !Mentions(MediaElement(mediaType).children[0], Description);
    assert NoneMentions(p1, Description) && NoneMentions(p2, Description);
    assert NoneMentions(p3, Description) && NoneMentions(p4, Description);
    assert NoneMentions(p5, Description);
    NoneMentionsConcat(p4, p5, Description);
    NoneMentionsConcat(p3, p4 + p5, Description);
    NoneMentionsConcat(p2, p3 + (p4 + p5), Description);
    NoneMentionsConcat(p1, p2 + (p3 + (p4 + p5)), Description);
  }

  /** The item fields an `item` element carries. */
  datatype MediaItem = MediaItem(
    mediaType: Str, name: Str, downloadUrl: Str, userId: Str,
    tags: seq<Str>, categories: seq<Str>, startDate: Str, endDate: Str)

  /** The fields carried by the five children every item starts with. */
  datatype HeadFields = HeadFields(name: Str, downloadUrl: Str, userId: Str)

  /** The fields carried by `startDate`, `endDate` and `media`. */
  datatype DateFields = DateFields(startDate: Str, endDate: Str, mediaType: Str)

  /** The `url` of `contentAssets/content/urlContentResource`. */
  function ContentUrl(e: Element): Option<Str>
  {
    if && e.tag == ContentAssets && |e.children| == 1
       && e.children[0].tag == Content && |e.children[0].children| == 1
       && e.children[0].children[0].tag == UrlContentResource
       && "url" in e.children[0].children[0].attrib
    then Some(e.children[0].children[0].attrib["url"])
    else None
  }

  /** Takes the first of `children` when it has tag `tag`. */
  function TakeIf(children: seq<Element>, tag: TagName): (Option<Element>, seq<Element>)
  {
    if children != [] && children[0].tag == tag then (Some(children[0]), children[1..])
    else (None, children)
  }

  function TextOf(e: Option<Element>): Str
  {
    if e.Some? then e.value.text else []
  }

  /** The texts of a `tags` or `categories` element, whose children must all
      be text-only `child` elements; an absent element reads as no entries. */
  function ReadList(e: Option<Element>, child: TagName): (r: Option<seq<Str>>)
    ensures r.Some? <==> (e.None? || AllLeaves(e.value.children, child))
    ensures e.None? ==> r == Some([])
    ensures e.Some? && r.Some? ==> e.value.children == Leaves(child, r.value)
  {
    if e.None? then Some([])
    else if AllLeaves(e.value.children, child) then Some(Texts(e.value.children))
    else None
  }

  /** Reads the five fixed children. */
  function ReadHead(cs: seq<Element>): Option<HeadFields>
  {
    if || |cs| != 5
       || cs[0] != Leaf(Action, "add") || cs[1] != Leaf(Type, "1")
       || cs[2].tag != UserId || cs[3].tag != Name || ContentUrl(cs[4]).None?
    then None
    else Some(HeadFields(cs[3].text, ContentUrl(cs[4]).value, cs[2].text))
  }

  /** Reads the optional `startDate` and `endDate` and the closing `media`;
      a missing date reads as empty. */
  function ReadDates(cs: seq<Element>): Option<DateFields>
  {
    var startDate := TakeIf(cs, StartDate);
    var endDate := TakeIf(startDate.1, EndDate);
    var rest := endDate.1;
    if |rest| == 1 && rest[0].tag == Media && |rest[0].children| == 1
       && rest[0].children[0].tag == MediaType
    then Some(DateFields(TextOf(startDate.0), TextOf(endDate.0), rest[0].children[0].text))
    else None
  }

  /** Reads an `item` element back into its fields, following the child
      order the ingestion format fixes; a missing optional child reads as an
      empty value. */
  function ReadItem(e: Element): Option<MediaItem>
  {
    if e.tag != Item || |e.children| < 5 then None
    else
      var tags := TakeIf(e.children[5..], Tags);
      var categories := TakeIf(tags.1, Categories);
      match (ReadHead(e.children[..5]), ReadList(tags.0, Tag),
             ReadList(categories.0, Category), ReadDates(categories.1))
      case (Some(h), Some(ts), Some(cs), Some(d)) =>
        Some(MediaItem(d.mediaType, h.name, h.downloadUrl, h.userId,
                       ts, cs, d.startDate, d.endDate))
      case _ => None
  }

  lemma TakeIfOptional(present: bool, e: Element, rest: seq<Element>)
    requires rest != [] && rest[0].tag != e.tag
    ensures TakeIf(Optional(present, e) + rest, e.tag) == (if present then Some(e) else None, rest)
  {
    if present {
      assert (Optional(present, e) + rest)[1..] == rest;
    } else {
      assert Optional(present, e) + rest == rest;
    }
  }

  lemma ReadItemHead(name: Str, downloadUrl: Str, userId: Str)
    ensures ReadHead(ItemHead(name, downloadUrl, userId)) == Some(HeadFields(name, downloadUrl, userId))
  {
  }

  lemma ReadItemDates(startDate: Str, endDate: Str, mediaType: Str)
    ensures ReadDates(Optional(startDate != [], Leaf(StartDate, startDate))
                      + (Optional(endDate != [], Leaf(EndDate, endDate)) + [MediaElement(mediaType)]))
         == Some(DateFields(startDate, endDate, mediaType))
  {
    var p4 := Optional(endDate != [], Leaf(EndDate, endDate)) + [MediaElement(mediaType)];
    TakeIfOptional(startDate != [], Leaf(StartDate, startDate), p4);
    TakeIfOptional(endDate != [], Leaf(EndDate, endDate), [MediaElement(mediaType)]);
  }

  lemma ReadListOfLeaves(present: bool, tag: TagName, child: TagName, texts: seq<Str>)
    requires present == (texts != [])
    ensures ReadList(if present then Some(Element(tag, map[], [], Leaves(child, texts))) else None,
                     child)
         == Some(texts)
  {
  }

  /** `ReadItem` in terms of the readers of its parts. */
  lemma ReadItemParts(e: Element, h: HeadFields, ts: seq<Str>, cs: seq<Str>, d: DateFields)
    requires e.tag == Item && |e.children| >= 5
    requires ReadHead(e.children[..5]) == Some(h)
    requires ReadList(TakeIf(e.children[5..], Tags).0, Tag) == Some(ts)
    requires ReadList(TakeIf(TakeIf(e.children[5..], Tags).1, Categories).0, Category) == Some(cs)
    requires ReadDates(TakeIf(TakeIf(e.children[5..], Tags).1, Categories).1) == Some(d)
    ensures ReadItem(e) == Some(MediaItem(d.mediaType, h.name, h.downloadUrl, h.userId,
                                          ts, cs, d.startDate, d.endDate))
  {
  }

  /** Every field of the item except the description can be read back from
      the element `create_item` builds: nothing is lost, nothing is
      reordered, and an empty optional value reads back as empty. */
  lemma ReadCreateItem(name: Str, description: Str, downloadUrl: Str, userId: Str,
                       tags: seq<Str>, categories: seq<Str>, startDate: Str, endDate: Str,
                       mediaType: Str)
    ensures ReadItem(CreateItem(name, description, downloadUrl, userId, tags, categories,
                                startDate, endDate, mediaType))
         == Some(MediaItem(mediaType, name, downloadUrl, userId, tags, categories,
                           startDate, endDate))
  {
    var head := ItemHead(name, downloadUrl, userId);
    var dates := Optional(startDate != [], Leaf(StartDate, startDate))
                 + (Optional(endDate != [], Leaf(EndDate, endDate)) + [MediaElement(mediaType)]);
    var lists := Optional(categories != [], CategoriesElement(categories)) + dates;
    var tail := Optional(tags != [], TagsElement(tags)) + lists;
    assert tail == ItemTail(tags, categories, startDate, endDate, mediaType);
    var e := CreateItem(name, description, downloadUrl, userId, tags, categories,
                        startDate, endDate, mediaType);
    assert e.children[5..] == tail;
    assert e.children[..5] == head;
    ReadItemHead(name, downloadUrl, userId);
    ReadItemDates(startDate, endDate, mediaType);
    TakeIfOptional(tags != [], TagsElement(tags), lists);
    TakeIfOptional(categories != [], CategoriesElement(categories), dates);
    ReadListOfLeaves(tags != [], Tags, Tag, tags);
    ReadListOfLeaves(categories != [], Categories, Category, categories);
    ReadItemParts(e, HeadFields(name, downloadUrl, userId), tags, categories,
                  DateFields(startDate, endDate, mediaType));
  }
}
