/**
 The rendered document as XML elements, each indented by its depth
 (`src/lib/rss.ts`). Section 4.6 of XML 1.0 predefines the entities.
 */
module RssMarkup {
  import opened Texts
  import opened Rss

  datatype Element =
    | Leaf(tag: Text, attributes: Text, text: Text)
    | Branch(tag: Text, attributes: Text, children: seq<Element>)

  // ---------------------------------------------------------------------
  // Printing elements
  // ---------------------------------------------------------------------

  function Indent(depth: nat): Text { seq(2 * depth, _ => 0x20) }

  function Opening(tag: Text, attributes: Text): Text { [0x3C] + tag + attributes + [0x3E] }

  function Attribute(name: Text, value: Text): Text { [0x20] + name + [0x3D, 0x22] + value + [0x22] }

  function Closing(tag: Text): Text { [0x3C, 0x2F] + tag + [0x3E] }

  /** A new line with the opening tag. */
  function Start(depth: nat, tag: Text, attributes: Text): Text {
    [0x0A] + Indent(depth) + Opening(tag, attributes)
  }

  /** A new line with the closing tag. */
  function Finish(depth: nat, tag: Text): Text { [0x0A] + Indent(depth) + Closing(tag) }

  /** Elements one below the other, each on its own line. */
  function PrintAll(es: seq<Element>, depth: nat): Text
    decreases es
  {
    if es == [] then []
    else
      Start(depth, es[0].tag, es[0].attributes)
      + ((match es[0]
          case Leaf(tag, _, text) => text + Closing(tag)
          case Branch(tag, _, children) => PrintAll(children, depth + 1) + Finish(depth, tag))
         + PrintAll(es[1..], depth))
  }

  /** Character data, with the five markup units as entities. */
  function XmlText(s: Text): Text {
    if s == [] then []
    else
      (if s[0] == 0x3C then Lit("&lt;")
       else if s[0] == 0x3E then Lit("&gt;")
       else if s[0] == 0x26 then Lit("&amp;")
       else if s[0] == 0x27 then Lit("&apos;")
       else if s[0] == 0x22 then Lit("&quot;")
       else [s[0]])
      + XmlText(s[1..])
  }

  // ---------------------------------------------------------------------
  // The document
  // ---------------------------------------------------------------------

  /** An element for a value that is there and not empty. */
  function Optional(tag: Text, value: Option<Text>): seq<Element> {
    match value
    case None => []
    case Some(v) => if v == [] then [] else [Leaf(tag, [], XmlText(v))]
  }

  function ItemFields(item: Item): seq<Element> {
    [Leaf(Lit("title"), [], XmlText(item.title)),
     Leaf(Lit("link"), [], XmlText(item.link)),
     Leaf(Lit("guid"), Attribute(Lit("isPermaLink"), Lit("false")), XmlText(item.guid)),
     Leaf(Lit("pubDate"), [], item.pubDate)]
    + (Optional(Lit("category"), item.category)
       + (Optional(Lit("dc:creator"), item.creator)
          + Optional(Lit("description"), item.description)))
  }

  function ItemElements(items: seq<Item>): seq<Element> {
    if items == [] then [] else [Branch(Lit("item"), [], ItemFields(items[0]))] + ItemElements(items[1..])
  }

  function ChannelFields(channel: Channel, items: seq<Item>): seq<Element> {
    [Leaf(Lit("title"), [], XmlText(channel.title)),
     Leaf(Lit("link"), [], XmlText(channel.link)),
     Leaf(Lit("description"), [], XmlText(channel.description))]
    + ItemElements(items)
  }

  ghost predicate HasCreators(items: seq<Item>) {
    exists item :: item in items && item.creator.Some? && item.creator.value != []
  }

  /** The attributes of the root: the version, and the namespace if it is used. */
  ghost function RootAttributes(items: seq<Item>): Text {
    Attribute(Lit("version"), Lit("2.0"))
    + if HasCreators(items) then Attribute(Lit("xmlns:dc"), Lit("http://purl.org/dc/elements/1.1/")) else []
  }

  ghost function Root(channel: Channel, items: seq<Item>): Element {
    Branch(Lit("rss"), RootAttributes(items), [Branch(Lit("channel"), [], ChannelFields(channel, items))])
  }

  // ---------------------------------------------------------------------
  // Escaping and the fixed texts
  // ---------------------------------------------------------------------

  lemma {:induction false} EscapeIs(s: Text)
    ensures EscapeXml(s) == XmlText(s)
  {
    if s != [] { EscapeIs(s[1..]); }
  }

  lemma CategoryOpens()
    ensures CATEGORY_OPEN == Start(3, Lit("category"), [])
  {}

  lemma CreatorOpens()
    ensures CREATOR_OPEN == Start(3, Lit("dc:creator"), [])
  {}

  lemma DescriptionOpens()
    ensures DESCRIPTION_OPEN == Start(3, Lit("description"), [])
  {}

  lemma ItemFront()
    ensures |ITEM_TITLE| > 10 && [0x0A] + ITEM_TITLE[..10] == Start(2, Lit("item"), [])
  {}

  lemma ItemBack()
    ensures |ITEM_TITLE| > 10 && ITEM_TITLE[10..] == Start(3, Lit("title"), [])
  {}

  lemma ItemOpens()
    ensures [0x0A] + ITEM_TITLE == Start(2, Lit("item"), []) + Start(3, Lit("title"), [])
  {
    ItemFront();
    ItemBack();
    hide ITEM_TITLE, Lit, Start;
    assert [0x0A] + ITEM_TITLE == [0x0A] + ITEM_TITLE[..10] + ITEM_TITLE[10..];
  }

  lemma LinkFront()
    ensures |ITEM_LINK| > 8 && ITEM_LINK[..8] == Closing(Lit("title"))
  {}

  lemma LinkBack()
    ensures |ITEM_LINK| > 8 && ITEM_LINK[8..] == Start(3, Lit("link"), [])
  {}

  lemma LinkOpens()
    ensures ITEM_LINK == Closing(Lit("title")) + Start(3, Lit("link"), [])
  {
    LinkFront();
    LinkBack();
    hide ITEM_LINK, Lit, Start, Closing;
    assert ITEM_LINK == ITEM_LINK[..8] + ITEM_LINK[8..];
  }

  lemma GuidFront()
    ensures Lit("</link>\n      <guid") == Closing(Lit("link")) + ([0x0A] + Indent(3) + [0x3C] + Lit("guid"))
    ensures Lit(">") == [0x3E]
  {}

  lemma NoPermalinkIs()
    ensures NO_PERMALINK == Attribute(Lit("isPermaLink"), Lit("false"))
  {
    AttributeParts();
    hide Lit;
  }

  lemma AttributeParts()
    ensures Lit(" isPermaLink=\"") == [0x20] + Lit("isPermaLink") + [0x3D, 0x22]
    ensures Lit("\"") == [0x22]
  {}

  lemma VersionIs()
    ensures VERSION == Attribute(Lit("version"), Lit("2.0"))
  {}

  lemma NamespaceIs()
    ensures DUBLIN_CORE == Attribute(Lit("xmlns:dc"), Lit("http://purl.org/dc/elements/1.1/"))
  {
    assert Lit(" xmlns:dc=\"") == [0x20] + Lit("xmlns:dc") + [0x3D, 0x22];
    assert Lit("\"") == [0x22];
    hide Lit;
  }

  lemma GuidOpens()
    ensures ITEM_GUID == Closing(Lit("link")) + Start(3, Lit("guid"), Attribute(Lit("isPermaLink"), Lit("false")))
  {
    GuidFront();
    NoPermalinkIs();
    hide Lit, Indent, Closing, NO_PERMALINK, Attribute;
    var line := [0x0A] + Indent(3) + [0x3C] + Lit("guid");
    assert line + (NO_PERMALINK + [0x3E]) == Start(3, Lit("guid"), NO_PERMALINK);
  }

  lemma DateFront()
    ensures |ITEM_DATE| > 7 && ITEM_DATE[..7] == Closing(Lit("guid"))
  {}

  lemma DateBack()
    ensures |ITEM_DATE| > 7 && ITEM_DATE[7..] == Start(3, Lit("pubDate"), [])
  {}

  lemma DateOpens()
    ensures ITEM_DATE == Closing(Lit("guid")) + Start(3, Lit("pubDate"), [])
  {
    DateFront();
    DateBack();
    hide ITEM_DATE, Lit, Start, Closing;
    assert ITEM_DATE == ITEM_DATE[..7] + ITEM_DATE[7..];
  }

  lemma CategoryCloses()
    ensures CATEGORY_CLOSE == Closing(Lit("category"))
  {}

  lemma CreatorCloses()
    ensures CREATOR_CLOSE == Closing(Lit("dc:creator"))
  {}

  lemma DescriptionCloses()
    ensures DESCRIPTION_CLOSE == Closing(Lit("description"))
  {}

  lemma ItemCloses()
    ensures ITEM_DATE_END == Closing(Lit("pubDate"))
    ensures ITEM_END == Finish(2, Lit("item"))
  {}

  lemma ChannelTop()
    ensures |CHANNEL_TITLE| > 13 && CHANNEL_TITLE[..13] == [0x3E] + Start(1, Lit("channel"), [])
  {}

  lemma ChannelTitle()
    ensures |CHANNEL_TITLE| > 13 && CHANNEL_TITLE[13..] == Start(2, Lit("title"), [])
  {}

  lemma ChannelOpens()
    ensures CHANNEL_TITLE == [0x3E] + (Start(1, Lit("channel"), []) + Start(2, Lit("title"), []))
  {
    ChannelTop();
    ChannelTitle();
    hide CHANNEL_TITLE, Lit, Start;
    assert CHANNEL_TITLE == CHANNEL_TITLE[..13] + CHANNEL_TITLE[13..];
  }

  lemma ChannelLink()
    ensures TITLE_TO_LINK == Closing(Lit("title")) + Start(2, Lit("link"), [])
  {}

  lemma ChannelDescription()
    ensures LINK_TO_DESCRIPTION == Closing(Lit("link")) + Start(2, Lit("description"), [])
  {
    DescriptionFront();
    DescriptionBack();
    hide Lit, Start, Closing;
  }

  lemma DescriptionFront()
    ensures Lit("</link>") == Closing(Lit("link"))
  {}

  lemma DescriptionBack()
    ensures Lit("\n    <description>") == Start(2, Lit("description"), [])
  {}

  lemma DescriptionEnds()
    ensures DESCRIPTION_END == Closing(Lit("description")) + [0x0A]
  {}

  lemma ChannelCloses()
    ensures CHANNEL_END == Finish(1, Lit("channel")) + Finish(0, Lit("rss"))
  {}

  // ---------------------------------------------------------------------
  // The rendered text is the printed document
  // ---------------------------------------------------------------------

  lemma Pair(a: Text, b: Text, c: Text)
    ensures a + b + c == a + (b + c)
  {}

  lemma Nothing(t: Text)
    ensures [] + t == t && t + [] == t
  {}

  lemma PrintNone(depth: nat)
    ensures PrintAll([], depth) == []
  {}

  lemma PrintStep(e: Element, rest: seq<Element>, depth: nat)
    ensures PrintAll([e] + rest, depth)
         == Start(depth, e.tag, e.attributes)
            + ((match e
                case Leaf(tag, _, text) => text + Closing(tag)
                case Branch(tag, _, children) => PrintAll(children, depth + 1) + Finish(depth, tag))
               + PrintAll(rest, depth))
  {
    assert ([e] + rest)[1..] == rest;
    hide Start, Finish, Closing;
  }

  /** A leaf, then the rest, then what stands behind. */
  lemma LeafThen(tag: Text, attributes: Text, text: Text, rest: seq<Element>, depth: nat, after: Text)
    ensures PrintAll([Leaf(tag, attributes, text)] + rest, depth) + after
         == Start(depth, tag, attributes) + (text + (Closing(tag) + (PrintAll(rest, depth) + after)))
  {
    PrintStep(Leaf(tag, attributes, text), rest, depth);
    hide *;
    var start, close, more := Start(depth, tag, attributes), Closing(tag), PrintAll(rest, depth);
    Pair(start, text + close + more, after);
    Pair(text + close, more, after);
    Pair(text, close, more + after);
  }

  lemma {:induction false} PrintBoth(a: seq<Element>, b: seq<Element>, depth: nat)
    ensures PrintAll(a + b, depth) == PrintAll(a, depth) + PrintAll(b, depth)
    decreases |a|
  {
    hide *;
    if a == [] {
      PrintNone(depth);
      assert a + b == b;
      Nothing(PrintAll(b, depth));
    } else {
      var e, more := a[0], a[1..];
      assert a == [e] + more && a + b == [e] + (more + b);
      PrintStep(e, more, depth);
      PrintStep(e, more + b, depth);
      PrintBoth(more, b, depth);
      var start := Start(depth, e.tag, e.attributes);
      var own := match e
        case Leaf(tag, _, text) => text + Closing(tag)
        case Branch(tag, _, children) => PrintAll(children, depth + 1) + Finish(depth, tag);
      Pair(own, PrintAll(more, depth), PrintAll(b, depth));
      Pair(start, own + PrintAll(more, depth), PrintAll(b, depth));
    }
  }

  lemma OptionalPrints(open: Text, close: Text, tag: Text, value: Option<Text>)
    requires open == Start(3, tag, []) && close == Closing(tag)
    ensures RenderOptional(open, close, value) == PrintAll(Optional(tag, value), 3)
  {
    hide Start, Closing, EscapeXml, XmlText, PrintAll;
    PrintNone(3);
    if value.Some? && value.value != [] {
      EscapeIs(value.value);
      var leaf := Leaf(tag, [], XmlText(value.value));
      PrintStep(leaf, [], 3);
      assert [leaf] + [] == [leaf];
      Nothing(XmlText(value.value) + close);
      Pair(open, XmlText(value.value), close);
    }
  }

  function Optionals(item: Item): seq<Element> {
    Optional(Lit("category"), item.category)
    + (Optional(Lit("dc:creator"), item.creator) + Optional(Lit("description"), item.description))
  }

  lemma OptionalsPrint(item: Item)
    ensures RenderOptionals(item) == PrintAll(Optionals(item), 3) + Finish(2, Lit("item"))
  {
    CategoryOpens();
    CategoryCloses();
    CreatorOpens();
    CreatorCloses();
    DescriptionOpens();
    DescriptionCloses();
    ItemCloses();
    hide Lit, Start, Finish, Closing, Optional, RenderOptional, PrintAll;
    hide CATEGORY_OPEN, CATEGORY_CLOSE, CREATOR_OPEN, CREATOR_CLOSE, DESCRIPTION_OPEN, DESCRIPTION_CLOSE, ITEM_END;
    OptionalPrints(CATEGORY_OPEN, CATEGORY_CLOSE, Lit("category"), item.category);
    OptionalPrints(CREATOR_OPEN, CREATOR_CLOSE, Lit("dc:creator"), item.creator);
    OptionalPrints(DESCRIPTION_OPEN, DESCRIPTION_CLOSE, Lit("description"), item.description);
    var a, b := Optional(Lit("category"), item.category), Optional(Lit("dc:creator"), item.creator);
    var c := Optional(Lit("description"), item.description);
    PrintBoth(a, b + c, 3);
    PrintBoth(b, c, 3);
    Pair(PrintAll(a, 3), PrintAll(b + c, 3), ITEM_END);
    Pair(PrintAll(b, 3), PrintAll(c, 3), ITEM_END);
  }

  lemma FieldsAre(item: Item)
    ensures ItemFields(item)
         == [Leaf(Lit("title"), [], XmlText(item.title))]
            + ([Leaf(Lit("link"), [], XmlText(item.link))]
               + ([Leaf(Lit("guid"), Attribute(Lit("isPermaLink"), Lit("false")), XmlText(item.guid))]
                  + ([Leaf(Lit("pubDate"), [], item.pubDate)] + Optionals(item))))
  {
    hide Lit, Attribute, XmlText, Optional;
  }

  lemma RenderItemIs(item: Item)
    ensures RenderItem(item)
         == ITEM_TITLE + (XmlText(item.title)
            + (ITEM_LINK + (XmlText(item.link)
            + (ITEM_GUID + (XmlText(item.guid)
            + (ITEM_DATE + (item.pubDate
            + (ITEM_DATE_END + RenderOptionals(item)))))))))
  {
    EscapeIs(item.title);
    EscapeIs(item.link);
    EscapeIs(item.guid);
    hide Lit, EscapeXml, XmlText, RenderOptionals, ITEM_TITLE, ITEM_LINK, ITEM_GUID, ITEM_DATE, ITEM_DATE_END;
  }

  /** An item on a new line is its element, printed. */
  lemma ItemPrints(item: Item)
    ensures [0x0A] + RenderItem(item)
         == Start(2, Lit("item"), []) + (PrintAll(ItemFields(item), 3) + Finish(2, Lit("item")))
  {
    ItemOpens();
    LinkOpens();
    GuidOpens();
    DateOpens();
    ItemCloses();
    hide *;
    OptionalsPrint(item);
    FieldsAre(item);
    RenderItemIs(item);
    var after, notPerma := Finish(2, Lit("item")), Attribute(Lit("isPermaLink"), Lit("false"));
    var opts := Optionals(item);
    var e4 := [Leaf(Lit("pubDate"), [], item.pubDate)] + opts;
    var e3 := [Leaf(Lit("guid"), notPerma, XmlText(item.guid))] + e4;
    var e2 := [Leaf(Lit("link"), [], XmlText(item.link))] + e3;
    LeafThen(Lit("pubDate"), [], item.pubDate, opts, 3, after);
    LeafThen(Lit("guid"), notPerma, XmlText(item.guid), e4, 3, after);
    LeafThen(Lit("link"), [], XmlText(item.link), e3, 3, after);
    LeafThen(Lit("title"), [], XmlText(item.title), e2, 3, after);
    var r4 := item.pubDate + (ITEM_DATE_END + RenderOptionals(item));
    var r3 := XmlText(item.guid) + (ITEM_DATE + r4);
    var r2 := XmlText(item.link) + (ITEM_GUID + r3);
    var r1 := XmlText(item.title) + (ITEM_LINK + r2);
    Pair(Closing(Lit("guid")), Start(3, Lit("pubDate"), []), r4);
    Pair(Closing(Lit("link")), Start(3, Lit("guid"), notPerma), r3);
    Pair(Closing(Lit("title")), Start(3, Lit("link"), []), r2);
    Pair(Start(2, Lit("item"), []), Start(3, Lit("title"), []), r1);
    Pair([0x0A], ITEM_TITLE, r1);
  }

  lemma ItemElementsStep(items: seq<Item>)
    requires items != []
    ensures ItemElements(items) == [Branch(Lit("item"), [], ItemFields(items[0]))] + ItemElements(items[1..])
  {
    hide ItemFields, Lit;
  }

  lemma ItemsStep(items: seq<Item>)
    requires items != []
    ensures var ts := RenderItems(items);
            && ts == [RenderItem(items[0])] + RenderItems(items[1..])
            && Join(ts, NEWLINE)
               == if |items| == 1 then RenderItem(items[0])
                  else RenderItem(items[0]) + NEWLINE + Join(RenderItems(items[1..]), NEWLINE)
    ensures NEWLINE == [0x0A]
  {
    hide RenderItem;
    var ts := RenderItems(items);
    assert ts[1..] == RenderItems(items[1..]);
  }

  /** The items, each on a new line, are their elements, printed. */
  lemma {:induction false} ItemsPrint(items: seq<Item>)
    requires items != []
    ensures [0x0A] + Join(RenderItems(items), NEWLINE) == PrintAll(ItemElements(items), 2)
    decreases |items|
  {
    hide *;
    ItemsStep(items);
    ItemElementsStep(items);
    var item, more := items[0], items[1..];
    var e := Branch(Lit("item"), [], ItemFields(item));
    PrintStep(e, ItemElements(more), 2);
    ItemPrints(item);
    var start, own := Start(2, Lit("item"), []), PrintAll(ItemFields(item), 3) + Finish(2, Lit("item"));
    if |items| == 1 {
      NoElements();
      PrintNone(2);
      Nothing(own);
    } else {
      ItemsPrint(more);
      Pair([0x0A], RenderItem(item) + [0x0A], Join(RenderItems(more), NEWLINE));
      Pair(RenderItem(item), [0x0A], Join(RenderItems(more), NEWLINE));
      Pair([0x0A], RenderItem(item), [0x0A] + Join(RenderItems(more), NEWLINE));
      Pair(start, own, PrintAll(ItemElements(more), 2));
    }
  }

  lemma NoElements()
    ensures ItemElements([]) == []
  {}

  lemma PrologIs()
    ensures PROLOG == DECLARATION + ([0x0A, 0x3C] + Lit("rss") + VERSION)
  {
    assert Lit("\n<rss") == [0x0A, 0x3C] + Lit("rss");
    hide Lit, DECLARATION, VERSION;
  }

  lemma StartsLine(tag: Text, attributes: Text)
    ensures Start(0, tag, attributes) == [0x0A, 0x3C] + tag + attributes + [0x3E]
  {
    assert Indent(0) == [];
  }

  lemma AttributesAre(items: seq<Item>)
    ensures RootAttributes(items) == VERSION + Namespaces(items)
  {
    VersionIs();
    NamespaceIs();
    SameCreators(items);
    hide Lit, VERSION, DUBLIN_CORE, Attribute, HasCreator, HasCreators;
  }

  lemma FivePieces(d: Text, r: Text, v: Text, n: Text, g: Text, rest: Text)
    ensures d + (r + v) + (n + (g + rest)) == d + (r + (v + n) + g + rest)
  {}

  lemma RootStarts(items: seq<Item>, rest: Text)
    ensures PROLOG + (Namespaces(items) + ([0x3E] + rest))
         == DECLARATION + (Start(0, Lit("rss"), RootAttributes(items)) + rest)
  {
    hide *;
    PrologIs();
    AttributesAre(items);
    StartsLine(Lit("rss"), RootAttributes(items));
    FivePieces(DECLARATION, [0x0A, 0x3C] + Lit("rss"), VERSION, Namespaces(items), [0x3E], rest);
  }

  lemma SameCreators(items: seq<Item>)
    ensures (exists i :: 0 <= i < |items| && HasCreator(items[i])) <==> HasCreators(items)
  {
    if item :| item in items && item.creator.Some? && item.creator.value != [] {
      var i :| 0 <= i < |items| && items[i] == item;
      assert HasCreator(items[i]);
    }
    if i :| 0 <= i < |items| && HasCreator(items[i]) { assert items[i] in items; }
  }

  lemma ChannelIs(channel: Channel, items: seq<Item>)
    ensures RenderRssChannel(channel, items)
         == PROLOG + (Namespaces(items)
            + (CHANNEL_TITLE + (XmlText(channel.title)
            + (TITLE_TO_LINK + (XmlText(channel.link)
            + (LINK_TO_DESCRIPTION + (XmlText(channel.description)
            + (DESCRIPTION_END + (Join(RenderItems(items), NEWLINE) + CHANNEL_END)))))))))
    ensures ChannelFields(channel, items)
         == [Leaf(Lit("title"), [], XmlText(channel.title))]
            + ([Leaf(Lit("link"), [], XmlText(channel.link))]
               + ([Leaf(Lit("description"), [], XmlText(channel.description))] + ItemElements(items)))
  {
    EscapeIs(channel.title);
    EscapeIs(channel.link);
    EscapeIs(channel.description);
    hide Lit, EscapeXml, XmlText, PROLOG, Namespaces, CHANNEL_TITLE, TITLE_TO_LINK, LINK_TO_DESCRIPTION,
        DESCRIPTION_END, CHANNEL_END, Join, RenderItems, ItemElements;
  }

  /** The line that stays empty where there are no items. */
  function Gap(items: seq<Item>): Text { if items == [] then [0x0A] else [] }

  lemma ItemsPart(items: seq<Item>, end: Text)
    ensures [0x0A] + (Join(RenderItems(items), NEWLINE) + end) == PrintAll(ItemElements(items), 2) + (Gap(items) + end)
  {
    if items == [] {
      assert Join(RenderItems(items), NEWLINE) == [];
      NoElements();
      PrintNone(2);
    } else {
      ItemsPrint(items);
      hide Join, RenderItems, PrintAll, ItemElements;
      Pair([0x0A], Join(RenderItems(items), NEWLINE), end);
    }
    hide *;
    Nothing(end);
    Nothing([0x0A] + end);
  }

  /** The end of the document, behind the fields of the channel. */
  function EndOf(items: seq<Item>): Text { Gap(items) + (Finish(1, Lit("channel")) + Finish(0, Lit("rss"))) }

  /** The rendered text is the declaration, then the root, the channel in it and its
      fields, each on its line, with an empty line where there are no items. */
  lemma DocumentPrints(channel: Channel, items: seq<Item>)
    ensures RenderRssChannel(channel, items)
         == Lit("<?xml version=\"1.0\" encoding=\"UTF-8\"?>")
            + (Start(0, Lit("rss"), RootAttributes(items))
               + (Start(1, Lit("channel"), []) + (PrintAll(ChannelFields(channel, items), 2) + EndOf(items))))
  {
    ChannelOpens();
    ChannelLink();
    ChannelDescription();
    DescriptionEnds();
    ChannelCloses();
    DeclarationIs();
    EndIs(items);
    hide *;
    ChannelIs(channel, items);
    var after, elements := EndOf(items), ItemElements(items);
    ItemsPart(items, CHANNEL_END);
    var e3 := [Leaf(Lit("description"), [], XmlText(channel.description))] + elements;
    var e2 := [Leaf(Lit("link"), [], XmlText(channel.link))] + e3;
    LeafThen(Lit("description"), [], XmlText(channel.description), elements, 2, after);
    LeafThen(Lit("link"), [], XmlText(channel.link), e3, 2, after);
    LeafThen(Lit("title"), [], XmlText(channel.title), e2, 2, after);
    var t5 := Join(RenderItems(items), NEWLINE) + CHANNEL_END;
    var r3 := XmlText(channel.description) + (DESCRIPTION_END + t5);
    var r2 := XmlText(channel.link) + (LINK_TO_DESCRIPTION + r3);
    var r1 := XmlText(channel.title) + (TITLE_TO_LINK + r2);
    Pair(Closing(Lit("description")), [0x0A], t5);
    Pair(Closing(Lit("link")), Start(2, Lit("description"), []), r3);
    Pair(Closing(Lit("title")), Start(2, Lit("link"), []), r2);
    Pair([0x3E], Start(1, Lit("channel"), []) + Start(2, Lit("title"), []), r1);
    Pair(Start(1, Lit("channel"), []), Start(2, Lit("title"), []), r1);
    RootStarts(items, Start(1, Lit("channel"), []) + (Start(2, Lit("title"), []) + r1));
  }

  lemma DeclarationIs()
    ensures DECLARATION == Lit("<?xml version=\"1.0\" encoding=\"UTF-8\"?>")
  {
    hide Lit;
  }

  lemma EndIs(items: seq<Item>)
    ensures EndOf(items) == Gap(items) + (Finish(1, Lit("channel")) + Finish(0, Lit("rss")))
  {}

  /** A feed with items is the declaration and its root element, printed. */
  lemma DocumentIsRoot(channel: Channel, items: seq<Item>)
    requires items != []
    ensures RenderRssChannel(channel, items)
         == Lit("<?xml version=\"1.0\" encoding=\"UTF-8\"?>") + PrintAll([Root(channel, items)], 0)
  {
    RootPrints(channel, items);
    hide *;
    DocumentPrints(channel, items);
  }

  lemma RootPrints(channel: Channel, items: seq<Item>)
    requires items != []
    ensures PrintAll([Root(channel, items)], 0)
         == Start(0, Lit("rss"), RootAttributes(items))
            + (Start(1, Lit("channel"), []) + (PrintAll(ChannelFields(channel, items), 2) + EndOf(items)))
  {
    var c := Branch(Lit("channel"), [], ChannelFields(channel, items));
    assert Root(channel, items) == Branch(Lit("rss"), RootAttributes(items), [c]);
    hide PrintAll, ChannelFields, RootAttributes, Start, Finish, Lit;
    PrintStep(Root(channel, items), [], 0);
    PrintStep(c, [], 1);
    assert [Root(channel, items)] + [] == [Root(channel, items)] && [c] + [] == [c];
    PrintNone(0);
    PrintNone(1);
    var start, fields := Start(1, Lit("channel"), []), PrintAll(ChannelFields(channel, items), 2);
    var end1, end0 := Finish(1, Lit("channel")), Finish(0, Lit("rss"));
    Nothing(fields + end1);
    Nothing(start + (fields + end1) + end0);
    Pair(start, fields + end1, end0);
    Pair(fields, end1, end0);
    Nothing(end1 + end0);
  }
}
