/**
 RSS 2.0 rendering, and a reader that recovers every field from the rendered
 document (`src/lib/rss.ts`). Character data and the predefined entities are
 those of sections 2.4 and 4.6 of XML 1.0.
 */
module Rss {
  import opened Texts

  datatype Channel = Channel(title: Text, link: Text, description: Text)

  /** `pubDate` is the date in its UTC string form. */
  datatype Item = Item(
    title: Text,
    link: Text,
    guid: Text,
    pubDate: Text,
    category: Option<Text>,
    creator: Option<Text>,
    description: Option<Text>)

  const LESS: Unit := 0x3C
  const GREATER: Unit := 0x3E
  const AMPERSAND: Unit := 0x26
  const APOSTROPHE: Unit := 0x27
  const QUOTE: Unit := 0x22

  // ---------------------------------------------------------------------
  // Escaping
  // ---------------------------------------------------------------------

  /** `[<>&'"]` */
  predicate IsMarkup(u: Unit) { u == LESS || u == GREATER || u == AMPERSAND || u == APOSTROPHE || u == QUOTE }

  function Entity(u: Unit): (t: Text)
    requires IsMarkup(u)
    ensures |t| >= 4 && t[0] == AMPERSAND
    ensures forall i :: 1 <= i < |t| ==> !IsMarkup(t[i])
  {
    if u == LESS then Lit("&lt;")
    else if u == GREATER then Lit("&gt;")
    else if u == AMPERSAND then Lit("&amp;")
    else if u == APOSTROPHE then Lit("&apos;")
    else Lit("&quot;")
  }

  function EscapeXml(s: Text): Text {
    if s == [] then []
    else (if IsMarkup(s[0]) then Entity(s[0]) else [s[0]]) + EscapeXml(s[1..])
  }

  /** The unit whose entity starts `t`. */
  function EntityAhead(t: Text): (r: Option<Unit>)
    ensures r.Some? ==> IsMarkup(r.value) && Entity(r.value) <= t
  {
    if Entity(LESS) <= t then Some(LESS)
    else if Entity(GREATER) <= t then Some(GREATER)
    else if Entity(AMPERSAND) <= t then Some(AMPERSAND)
    else if Entity(APOSTROPHE) <= t then Some(APOSTROPHE)
    else if Entity(QUOTE) <= t then Some(QUOTE)
    else None
  }

  /** Reading the entities back. */
  function UnescapeXml(t: Text): Text
    decreases |t|
  {
    if t == [] then []
    else
      match EntityAhead(t)
      case Some(u) => [u] + UnescapeXml(t[|Entity(u)|..])
      case None => [t[0]] + UnescapeXml(t[1..])
  }

  lemma EntityIsSeen(u: Unit, rest: Text)
    requires IsMarkup(u)
    ensures EntityAhead(Entity(u) + rest) == Some(u)
  {
    var t := Entity(u) + rest;
    assert forall i :: 0 <= i < |Entity(u)| ==> t[i] == Entity(u)[i];
    assert t[1] == Entity(u)[1] && t[2] == Entity(u)[2];
    assert Entity(LESS)[1] == 0x6C && Entity(GREATER)[1] == 0x67 && Entity(QUOTE)[1] == 0x71;
    assert Entity(AMPERSAND)[1] == 0x61 && Entity(AMPERSAND)[2] == 0x6D;
    assert Entity(APOSTROPHE)[1] == 0x61 && Entity(APOSTROPHE)[2] == 0x70;
  }

  lemma NoEntityAhead(u: Unit, rest: Text)
    requires !IsMarkup(u)
    ensures EntityAhead([u] + rest) == None
  {
    hide Entity;
  }

  /** Escaping loses nothing. */
  lemma {:induction false} EscapeReadsBack(s: Text)
    ensures UnescapeXml(EscapeXml(s)) == s
  {
    hide Entity, EntityAhead;
    if s == [] { return; }
    EscapeReadsBack(s[1..]);
    var rest := EscapeXml(s[1..]);
    if IsMarkup(s[0]) {
      EntityIsSeen(s[0], rest);
      assert (Entity(s[0]) + rest)[|Entity(s[0])|..] == rest;
    } else {
      NoEntityAhead(s[0], rest);
      assert ([s[0]] + rest)[1..] == rest;
    }
    assert s == [s[0]] + s[1..];
  }

  /** Escaping emits no raw markup: no angle bracket, no quote, and an ampersand
      only where an entity starts. */
  lemma {:induction false} EscapeIsInert(s: Text)
    ensures forall u :: u in EscapeXml(s) ==> u == AMPERSAND || !IsMarkup(u)
    ensures forall i :: 0 <= i < |EscapeXml(s)| && EscapeXml(s)[i] == AMPERSAND ==> EntityAhead(EscapeXml(s)[i..]).Some?
  {
    hide Entity, EntityAhead;
    if s == [] { return; }
    EscapeIsInert(s[1..]);
    var rest, t := EscapeXml(s[1..]), EscapeXml(s);
    var head := if IsMarkup(s[0]) then Entity(s[0]) else [s[0]];
    forall u | u in t ensures u == AMPERSAND || !IsMarkup(u) {
      if u !in rest {
        var i :| 0 <= i < |head| && head[i] == u;
      }
    }
    forall i | 0 <= i < |t| && t[i] == AMPERSAND ensures EntityAhead(t[i..]).Some? {
      if i >= |head| {
        assert t[i..] == rest[i - |head|..];
      } else {
        assert t[i..] == t;
        EntityIsSeen(s[0], rest);
      }
    }
  }

  // ---------------------------------------------------------------------
  // Rendering
  // ---------------------------------------------------------------------

  const DECLARATION: Text := Lit("<?xml version=\"1.0\" encoding=\"UTF-8\"?>")
  const VERSION: Text := Lit(" version=\"2.0\"")
  const PROLOG: Text := DECLARATION + (Lit("\n<rss") + VERSION)
  const DUBLIN_CORE: Text := Lit(" xmlns:dc=\"") + (Lit("http://purl.org/dc/elements/1.1/") + Lit("\""))
  const CHANNEL_TITLE: Text := Lit(">\n  <channel>\n    <title>")
  const TITLE_TO_LINK: Text := Lit("</title>\n    <link>")
  const LINK_TO_DESCRIPTION: Text := Lit("</link>") + Lit("\n    <description>")
  const DESCRIPTION_END: Text := Lit("</description>\n")
  const CHANNEL_END: Text := Lit("\n  </channel>\n</rss>")
  const NEWLINE: Text := [0x0A]

  const ITEM_TITLE: Text := Lit("    <item>\n      <title>")
  const ITEM_LINK: Text := Lit("</title>\n      <link>")
  const NO_PERMALINK: Text := Lit(" isPermaLink=\"") + (Lit("false") + Lit("\""))
  const ITEM_GUID: Text := Lit("</link>\n      <guid") + (NO_PERMALINK + Lit(">"))
  const ITEM_DATE: Text := Lit("</guid>\n      <pubDate>")
  const ITEM_DATE_END: Text := Lit("</pubDate>")
  const ITEM_END: Text := Lit("\n    </item>")

  const CATEGORY_OPEN: Text := Lit("\n      <category>")
  const CATEGORY_CLOSE: Text := Lit("</category>")
  const CREATOR_OPEN: Text := Lit("\n      <dc:creator>")
  const CREATOR_CLOSE: Text := Lit("</dc:creator>")
  const DESCRIPTION_OPEN: Text := Lit("\n      <description>")
  const DESCRIPTION_CLOSE: Text := Lit("</description>")

  /** An optional element; nothing for a missing or empty value. */
  function RenderOptional(open: Text, close: Text, value: Option<Text>): Text {
    match value
    case None => []
    case Some(v) => if v == [] then [] else open + EscapeXml(v) + close
  }

  function RenderOptionals(item: Item): Text {
    RenderOptional(CATEGORY_OPEN, CATEGORY_CLOSE, item.category)
    + (RenderOptional(CREATOR_OPEN, CREATOR_CLOSE, item.creator)
       + (RenderOptional(DESCRIPTION_OPEN, DESCRIPTION_CLOSE, item.description) + ITEM_END))
  }

  function RenderItem(item: Item): Text {
    ITEM_TITLE + (EscapeXml(item.title)
    + (ITEM_LINK + (EscapeXml(item.link)
    + (ITEM_GUID + (EscapeXml(item.guid)
    + (ITEM_DATE + (item.pubDate
    + (ITEM_DATE_END + RenderOptionals(item)))))))))
  }

  function RenderItems(items: seq<Item>): (ts: seq<Text>)
    ensures |ts| == |items|
  {
    if items == [] then [] else [RenderItem(items[0])] + RenderItems(items[1..])
  }

  predicate HasCreator(item: Item) { item.creator.Some? && item.creator.value != [] }

  function Namespaces(items: seq<Item>): Text {
    if exists i :: 0 <= i < |items| && HasCreator(items[i]) then DUBLIN_CORE else []
  }

  function RenderRssChannel(channel: Channel, items: seq<Item>): Text {
    PROLOG + (Namespaces(items)
    + (CHANNEL_TITLE + (EscapeXml(channel.title)
    + (TITLE_TO_LINK + (EscapeXml(channel.link)
    + (LINK_TO_DESCRIPTION + (EscapeXml(channel.description)
    + (DESCRIPTION_END + (Join(RenderItems(items), NEWLINE) + CHANNEL_END)))))))))
  }

  // ---------------------------------------------------------------------
  // Reading
  // ---------------------------------------------------------------------

  /** The rest of `t` after a fixed text. */
  function Skip(t: Text, fixed: Text): Option<Text> {
    if fixed <= t then Some(t[|fixed|..]) else None
  }

  /** Character data up to the next `<`, and what follows. */
  function ReadData(t: Text): (Text, Text) {
    var i := IndexOf(t, LESS);
    (t[..i], t[i..])
  }

  function ReadOptional(open: Text, close: Text, t: Text): Option<(Option<Text>, Text)> {
    match Skip(t, open)
    case None => Some((None, t))
    case Some(inside) =>
      var (data, after) := ReadData(inside);
      match Skip(after, close)
      case None => None
      case Some(rest) => Some((Some(UnescapeXml(data)), rest))
  }

  /** A fixed text, then escaped data. */
  function ReadField(fixed: Text, t: Text): Option<(Text, Text)> {
    match Skip(t, fixed)
    case None => None
    case Some(inside) =>
      var (data, after) := ReadData(inside);
      Some((UnescapeXml(data), after))
  }

  function ReadOptionals(title: Text, link: Text, guid: Text, pubDate: Text, t: Text): Option<(Item, Text)> {
    match ReadOptional(CATEGORY_OPEN, CATEGORY_CLOSE, t)
    case None => None
    case Some((category, t1)) =>
      match ReadOptional(CREATOR_OPEN, CREATOR_CLOSE, t1)
      case None => None
      case Some((creator, t2)) =>
        match ReadOptional(DESCRIPTION_OPEN, DESCRIPTION_CLOSE, t2)
        case None => None
        case Some((description, t3)) =>
          match Skip(t3, ITEM_END)
          case None => None
          case Some(rest) => Some((Item(title, link, guid, pubDate, category, creator, description), rest))
  }

  function ReadItem(t: Text): Option<(Item, Text)> {
    match ReadField(ITEM_TITLE, t)
    case None => None
    case Some((title, t1)) =>
      match ReadField(ITEM_LINK, t1)
      case None => None
      case Some((link, t2)) =>
        match ReadField(ITEM_GUID, t2)
        case None => None
        case Some((guid, t3)) =>
          match Skip(t3, ITEM_DATE)
          case None => None
          case Some(t4) =>
            var (pubDate, t5) := ReadData(t4);
            match Skip(t5, ITEM_DATE_END)
            case None => None
            case Some(t6) => ReadOptionals(title, link, guid, pubDate, t6)
  }

  /** The items up to the end of the channel; `fuel` bounds their number. */
  function ReadItems(t: Text, fuel: nat): Option<seq<Item>>
    decreases fuel
  {
    if t == CHANNEL_END then Some([])
    else if fuel == 0 then None
    else
      hide ReadItem;
      match ReadItem(t)
      case None => None
      case Some((item, rest)) =>
        if rest == CHANNEL_END then Some([item])
        else
          match Skip(rest, NEWLINE)
          case None => None
          case Some(next) =>
            match ReadItems(next, fuel - 1)
            case None => None
            case Some(items) => Some([item] + items)
  }

  function ReadRss(t: Text): Option<(Channel, seq<Item>)> {
    match Skip(t, PROLOG)
    case None => None
    case Some(t0) =>
      var t1 := if DUBLIN_CORE <= t0 then t0[|DUBLIN_CORE|..] else t0;
      match ReadField(CHANNEL_TITLE, t1)
      case None => None
      case Some((title, t2)) =>
        match ReadField(TITLE_TO_LINK, t2)
        case None => None
        case Some((link, t3)) =>
          match ReadField(LINK_TO_DESCRIPTION, t3)
          case None => None
          case Some((description, t4)) =>
            match Skip(t4, DESCRIPTION_END)
            case None => None
            case Some(t5) =>
              match ReadItems(t5, |t|)
              case None => None
              case Some(items) => Some((Channel(title, link, description), items))
  }

  // ---------------------------------------------------------------------
  // Nothing is lost
  // ---------------------------------------------------------------------

  /** Missing and empty optional fields read back alike. */
  function Present(value: Option<Text>): Option<Text> {
    if value == Some([]) then None else value
  }

  function Normal(item: Item): Item {
    item.(category := Present(item.category), creator := Present(item.creator),
        description := Present(item.description))
  }

  function NormalAll(items: seq<Item>): (r: seq<Item>)
    ensures |r| == |items|
    ensures forall i :: 0 <= i < |items| ==> r[i] == Normal(items[i])
  {
    if items == [] then [] else [Normal(items[0])] + NormalAll(items[1..])
  }

  ghost predicate PlainDates(items: seq<Item>) {
    forall i :: 0 <= i < |items| ==> LESS !in items[i].pubDate
  }

  lemma SkipsFixed(fixed: Text, rest: Text)
    ensures Skip(fixed + rest, fixed) == Some(rest)
  {}

  lemma ReadsData(data: Text, rest: Text)
    requires LESS !in data && rest != [] && rest[0] == LESS
    ensures ReadData(data + rest) == (data, rest)
  {
    var t := data + rest;
    assert t[..|data|] == data;
    IndexOfUnique(t, LESS, |data|);
  }

  lemma ReadsField(fixed: Text, value: Text, rest: Text)
    requires rest != [] && rest[0] == LESS
    ensures ReadField(fixed, fixed + (EscapeXml(value) + rest)) == Some((value, rest))
  {
    hide EscapeXml, UnescapeXml, ReadData, Skip;
    SkipsFixed(fixed, EscapeXml(value) + rest);
    EscapeIsInert(value);
    ReadsData(EscapeXml(value), rest);
    EscapeReadsBack(value);
  }

  /** A text that differs from `fixed` at `i` does not start with it. */
  lemma SkipsNothing(fixed: Text, t: Text, i: nat)
    requires i < |fixed| && i < |t| && t[i] != fixed[i]
    ensures Skip(t, fixed) == None
  {}

  lemma ReadsOptional(open: Text, close: Text, value: Option<Text>, rest: Text, i: nat)
    requires close != [] && close[0] == LESS
    requires i < |open| && i < |rest| && rest[i] != open[i]
    ensures ReadOptional(open, close, RenderOptional(open, close, value) + rest) == Some((Present(value), rest))
  {
    hide EscapeXml, UnescapeXml, ReadData, Skip;
    if value.None? || value.value == [] {
      assert RenderOptional(open, close, value) + rest == rest;
      SkipsNothing(open, rest, i);
    } else {
      var v := value.value;
      assert RenderOptional(open, close, value) + rest == open + (EscapeXml(v) + (close + rest));
      SkipsFixed(open, EscapeXml(v) + (close + rest));
      EscapeIsInert(v);
      ReadsData(EscapeXml(v), close + rest);
      EscapeReadsBack(v);
      SkipsFixed(close, rest);
    }
  }

  lemma OptionalStart(open: Text, close: Text, value: Option<Text>, rest: Text, i: nat)
    requires i < |open| && i < |rest|
    ensures var t := RenderOptional(open, close, value) + rest;
            i < |t| && (t[i] == open[i] || t[i] == rest[i])
  {
    hide EscapeXml;
  }

  /** The optional elements and the item's end are told apart by one of two units. */
  lemma OptionalLiterals()
    ensures |CATEGORY_OPEN| > 9 && |CREATOR_OPEN| > 9 && |DESCRIPTION_OPEN| > 9 && |ITEM_END| > 9
    ensures CATEGORY_OPEN[8] == 0x63 && CREATOR_OPEN[8] == 0x64 && DESCRIPTION_OPEN[8] == 0x64 && ITEM_END[8] == 0x74
    ensures CREATOR_OPEN[9] == 0x63 && DESCRIPTION_OPEN[9] == 0x65 && ITEM_END[9] == 0x65
    ensures CATEGORY_CLOSE != [] && CREATOR_CLOSE != [] && DESCRIPTION_CLOSE != []
    ensures CATEGORY_CLOSE[0] == CREATOR_CLOSE[0] == DESCRIPTION_CLOSE[0] == LESS
  {}

  lemma ReadsOptionals(item: Item, rest: Text)
    ensures ReadOptionals(item.title, item.link, item.guid, item.pubDate, RenderOptionals(item) + rest)
         == Some((Normal(item), rest))
  {
    hide Lit, RenderOptional, ReadOptional, Skip;
    hide CATEGORY_OPEN, CATEGORY_CLOSE, CREATOR_OPEN, CREATOR_CLOSE, DESCRIPTION_OPEN, DESCRIPTION_CLOSE, ITEM_END;
    OptionalLiterals();
    var t3 := ITEM_END + rest;
    var t2 := RenderOptional(DESCRIPTION_OPEN, DESCRIPTION_CLOSE, item.description) + t3;
    var t1 := RenderOptional(CREATOR_OPEN, CREATOR_CLOSE, item.creator) + t2;
    var t0 := RenderOptional(CATEGORY_OPEN, CATEGORY_CLOSE, item.category) + t1;
    assert RenderOptionals(item) + rest == t0;
    OptionalStart(DESCRIPTION_OPEN, DESCRIPTION_CLOSE, item.description, t3, 8);
    OptionalStart(DESCRIPTION_OPEN, DESCRIPTION_CLOSE, item.description, t3, 9);
    OptionalStart(CREATOR_OPEN, CREATOR_CLOSE, item.creator, t2, 8);
    ReadsOptional(CATEGORY_OPEN, CATEGORY_CLOSE, item.category, t1, 8);
    ReadsOptional(CREATOR_OPEN, CREATOR_CLOSE, item.creator, t2, 9);
    ReadsOptional(DESCRIPTION_OPEN, DESCRIPTION_CLOSE, item.description, t3, 8);
    SkipsFixed(ITEM_END, rest);
  }

  lemma FieldLiterals()
    ensures |ITEM_LINK| > 0 && |ITEM_GUID| > 0 && |ITEM_DATE| > 0 && |ITEM_DATE_END| > 0
    ensures ITEM_LINK[0] == ITEM_GUID[0] == ITEM_DATE[0] == ITEM_DATE_END[0] == LESS
    ensures |TITLE_TO_LINK| > 0 && |LINK_TO_DESCRIPTION| > 0 && |DESCRIPTION_END| > 0
    ensures TITLE_TO_LINK[0] == LINK_TO_DESCRIPTION[0] == DESCRIPTION_END[0] == LESS
  {}

  lemma ReadsItem(item: Item, rest: Text)
    requires LESS !in item.pubDate
    ensures ReadItem(RenderItem(item) + rest) == Some((Normal(item), rest))
  {
    hide Lit, EscapeXml, ReadField, ReadData, Skip, ReadOptionals, RenderOptionals;
    hide ITEM_TITLE, ITEM_LINK, ITEM_GUID, ITEM_DATE, ITEM_DATE_END;
    FieldLiterals();
    var t6 := RenderOptionals(item) + rest;
    var t5 := ITEM_DATE_END + t6;
    var t3 := ITEM_DATE + (item.pubDate + t5);
    var t2 := ITEM_GUID + (EscapeXml(item.guid) + t3);
    var t1 := ITEM_LINK + (EscapeXml(item.link) + t2);
    assert RenderItem(item) + rest == ITEM_TITLE + (EscapeXml(item.title) + t1);
    ReadsField(ITEM_TITLE, item.title, t1);
    ReadsField(ITEM_LINK, item.link, t2);
    ReadsField(ITEM_GUID, item.guid, t3);
    SkipsFixed(ITEM_DATE, item.pubDate + t5);
    ReadsData(item.pubDate, t5);
    SkipsFixed(ITEM_DATE_END, t6);
    ReadsOptionals(item, rest);
  }

  lemma ItemsLiterals()
    ensures |ITEM_TITLE| > 3 && |CHANNEL_END| > 3 && ITEM_TITLE[0] == 0x20 && CHANNEL_END[0] == 0x0A
    ensures ITEM_TITLE[2] == 0x20 && CHANNEL_END[3] == 0x3C
  {}

  lemma ItemStart(item: Item, rest: Text)
    ensures var t := RenderItem(item) + rest; |t| > 3 && t[0] == 0x20 && t[2] == 0x20
  {
    hide Lit, EscapeXml, RenderOptionals, ITEM_TITLE;
    ItemsLiterals();
  }

  lemma {:induction false} ReadsItems(items: seq<Item>, fuel: nat)
    requires PlainDates(items) && fuel >= |items|
    ensures ReadItems(Join(RenderItems(items), NEWLINE) + CHANNEL_END, fuel) == Some(NormalAll(items))
    decreases |items|
  {
    hide ReadItem, RenderItem, Normal, CHANNEL_END;
    ItemsLiterals();
    var ts := RenderItems(items);
    if items == [] {
      assert Join(ts, NEWLINE) + CHANNEL_END == CHANNEL_END;
      return;
    }
    var item, more := items[0], items[1..];
    var next := Join(ts[1..], NEWLINE) + CHANNEL_END;
    var rest := if more == [] then CHANNEL_END else NEWLINE + next;
    assert ts[1..] == RenderItems(more);
    assert Join(ts, NEWLINE) + CHANNEL_END == RenderItem(item) + rest;
    ItemStart(item, rest);
    ReadsItem(item, rest);
    if more == [] {
      assert NormalAll(items) == [Normal(item)];
    } else {
      ReadsItems(more, fuel - 1);
      NextIsItem(more[0], ts[1..]);
      SkipsFixed(NEWLINE, next);
    }
  }

  /** A further item is not mistaken for the end of the channel. */
  lemma NextIsItem(item: Item, ts: seq<Text>)
    requires ts != [] && ts[0] == RenderItem(item)
    ensures NEWLINE + (Join(ts, NEWLINE) + CHANNEL_END) != CHANNEL_END
  {
    hide RenderItem, Lit, CHANNEL_END;
    ItemsLiterals();
    var after := if |ts| == 1 then CHANNEL_END else NEWLINE + Join(ts[1..], NEWLINE) + CHANNEL_END;
    assert Join(ts, NEWLINE) + CHANNEL_END == RenderItem(item) + after;
    ItemStart(item, after);
    assert (NEWLINE + (RenderItem(item) + after))[3] == (RenderItem(item) + after)[2];
  }

  lemma HeadLiterals()
    ensures |DUBLIN_CORE| > 0 && DUBLIN_CORE[0] == 0x20 && |CHANNEL_TITLE| > 0 && CHANNEL_TITLE[0] == GREATER
  {}

  lemma {:induction false} RenderedLength(items: seq<Item>)
    ensures |Join(RenderItems(items), NEWLINE)| >= |items|
  {
    hide RenderItem;
    if items != [] {
      RenderedLength(items[1..]);
      ItemStart(items[0], []);
      assert RenderItem(items[0]) + [] == RenderItem(items[0]);
    }
  }

  /** Printing a document loses nothing: the reader recovers the channel and
      every field of every item, in order. */
  lemma DocumentReadsBack(channel: Channel, items: seq<Item>)
    requires PlainDates(items)
    ensures ReadRss(RenderRssChannel(channel, items)) == Some((channel, NormalAll(items)))
  {
    hide Lit, EscapeXml, ReadField, ReadItems, RenderItems, Skip, NormalAll, Join;
    hide PROLOG, DUBLIN_CORE, CHANNEL_TITLE, TITLE_TO_LINK, LINK_TO_DESCRIPTION, DESCRIPTION_END, CHANNEL_END;
    FieldLiterals();
    HeadLiterals();
    var t := RenderRssChannel(channel, items);
    var t5 := Join(RenderItems(items), NEWLINE) + CHANNEL_END;
    var t4 := DESCRIPTION_END + t5;
    var t3 := LINK_TO_DESCRIPTION + (EscapeXml(channel.description) + t4);
    var t2 := TITLE_TO_LINK + (EscapeXml(channel.link) + t3);
    var t1 := CHANNEL_TITLE + (EscapeXml(channel.title) + t2);
    SkipsFixed(PROLOG, Namespaces(items) + t1);
    NamespacesSkipped(items, t1);
    ReadsField(CHANNEL_TITLE, channel.title, t2);
    ReadsField(TITLE_TO_LINK, channel.link, t3);
    ReadsField(LINK_TO_DESCRIPTION, channel.description, t4);
    SkipsFixed(DESCRIPTION_END, t5);
    RenderedLength(items);
    ReadsItems(items, |t|);
  }

  lemma NamespacesSkipped(items: seq<Item>, t1: Text)
    requires t1 != [] && t1[0] == GREATER
    ensures var t0 := Namespaces(items) + t1;
            t1 == if DUBLIN_CORE <= t0 then t0[|DUBLIN_CORE|..] else t0
  {
    hide DUBLIN_CORE, HasCreator;
    HeadLiterals();
  }

  /** The Dublin Core namespace is declared exactly when some item names a creator. */
  lemma CreatorsDeclared(channel: Channel, items: seq<Item>)
    ensures PROLOG + DUBLIN_CORE <= RenderRssChannel(channel, items)
       <==> exists item :: item in items && item.creator.Some? && item.creator.value != []
  {
    hide Lit, EscapeXml, RenderItems, Join, PROLOG, DUBLIN_CORE, CHANNEL_TITLE, TITLE_TO_LINK, LINK_TO_DESCRIPTION,
        DESCRIPTION_END, CHANNEL_END;
    HeadLiterals();
    var t := RenderRssChannel(channel, items);
    assert t[..|PROLOG|] == PROLOG;
    if i :| 0 <= i < |items| && HasCreator(items[i]) {
      assert items[i] in items;
      assert t[..|PROLOG| + |DUBLIN_CORE|] == PROLOG + DUBLIN_CORE;
    } else {
      assert t[|PROLOG|] == CHANNEL_TITLE[0];
      assert (PROLOG + DUBLIN_CORE)[|PROLOG|] == DUBLIN_CORE[0];
    }
  }

  /** Two documents that render alike are alike, up to empty optional fields. */
  lemma RenderInjective(c1: Channel, items1: seq<Item>, c2: Channel, items2: seq<Item>)
    requires PlainDates(items1) && PlainDates(items2)
    requires RenderRssChannel(c1, items1) == RenderRssChannel(c2, items2)
    ensures c1 == c2 && NormalAll(items1) == NormalAll(items2)
  {
    hide RenderRssChannel, ReadRss, NormalAll;
    DocumentReadsBack(c1, items1);
    DocumentReadsBack(c2, items2);
  }
}
