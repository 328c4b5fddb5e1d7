/** Field extraction from RSS items (src/rss_reader.py).

    An `<item>` element is abstracted as the sequence of its child elements,
    each a tag name and its text, in document order; the XML parsing itself
    is not part of this model. `parse_item` walks the six known tags in a
    fixed order and stores a field for each tag whose first element has
    non-empty text; `rss_parser` applies it to the items of a feed, up to
    the limit BeautifulSoup's `find_all` applies. */
module FeedParser {
  import opened Common
  import opened Items
  import opened Dates

  /** A child element of an item: its tag name and its text. */
  datatype Element = Element(name: string, text: string)

  /** The children of one `<item>`, in document order. */
  type ItemNode = seq<Element>

  /** The tags `parse_item` looks for, in the order it stores them. */
  const Tags: seq<string> := ["title", "author", "pubDate", "link", "category", "description"]

  /** `item.find(tag)`: the first child with that name. */
  function Find(node: ItemNode, tag: string): (r: Option<Element>)
    ensures r.Some? ==> r.value.name == tag
    ensures r.Some? ==> exists i :: 0 <= i < |node| && node[i] == r.value && (forall j :: 0 <= j < i ==> node[j].name != tag)
    ensures r.None? ==> forall i :: 0 <= i < |node| ==> node[i].name != tag
  {
    if node == [] then None
    else if node[0].name == tag then Some(node[0])
    else
      var r := Find(node[1..], tag);
      if r.Some? then
        var i :| 0 <= i < |node[1..]| && node[1..][i] == r.value && (forall j :: 0 <= j < i ==> node[1..][j].name != tag);
        assert node[i + 1] == r.value;
        r
      else r
  }

  /** `[e.text for e in item.find_all(tag)]`: the texts of all children with
      that name, in document order. */
  function AllTexts(node: ItemNode, tag: string): (r: seq<string>)
    ensures |r| <= |node|
  {
    if node == [] then []
    else (if node[0].name == tag then [node[0].text] else []) + AllTexts(node[1..], tag)
  }

  /** `find_all` finds something exactly when `find` does, and its first
      text is the text `find` returns. */
  lemma {:induction false} AllTextsStartWithFind(node: ItemNode, tag: string)
    ensures Find(node, tag).None? <==> AllTexts(node, tag) == []
    ensures Find(node, tag).Some? ==> AllTexts(node, tag)[0] == Find(node, tag).value.text
  {
    if node != [] && node[0].name != tag {
      AllTextsStartWithFind(node[1..], tag);
    }
  }

  /** The texts `find_all` returns are exactly those of the children with
      that name. */
  lemma {:induction false} AllTextsElements(node: ItemNode, tag: string)
    ensures forall x :: x in AllTexts(node, tag) <==> exists i :: 0 <= i < |node| && node[i].name == tag && node[i].text == x
  {
    if node != [] {
      AllTextsElements(node[1..], tag);
      var head := if node[0].name == tag then [node[0].text] else [];
      assert AllTexts(node, tag) == head + AllTexts(node[1..], tag);
      forall x
        ensures x in AllTexts(node, tag) <==> exists i :: 0 <= i < |node| && node[i].name == tag && node[i].text == x
      {
        if x in AllTexts(node[1..], tag) {
          var i :| 0 <= i < |node[1..]| && node[1..][i].name == tag && node[1..][i].text == x;
          assert node[i + 1].name == tag && node[i + 1].text == x;
        }
        if exists i :: 0 <= i < |node| && node[i].name == tag && node[i].text == x {
          var i :| 0 <= i < |node| && node[i].name == tag && node[i].text == x;
          if i > 0 {
            assert node[1..][i - 1] == node[i];
          }
        }
      }
    }
  }

  /** `find_all` keeps one text per matching child, in document order: the
      texts of two runs of children are those of the first run, then those of
      the second. */
  lemma {:induction false} AllTextsAppend(a: ItemNode, b: ItemNode, tag: string)
    ensures AllTexts(a + b, tag) == AllTexts(a, tag) + AllTexts(b, tag)
    decreases |a|
  {
    if a != [] {
      AllTextsAppend(a[1..], b, tag);
      assert (a + b)[0] == a[0] && (a + b)[1..] == a[1..] + b;
    } else {
      assert a + b == b;
    }
  }

  /** Two `<category>News</category>` children give `['News', 'News']`:
      repeated texts are all kept. */
  lemma RepeatedCategory(node: ItemNode)
    requires node == [Element("category", "News"), Element("category", "News")]
    ensures AllTexts(node, "category") == ["News", "News"]
  {
    AllTextsAppend([node[0]], [node[1]], "category");
    assert node == [node[0]] + [node[1]];
  }

  /** The value `parse_item` stores under `tag` (src/rss_reader.py:16-24),
      `None` when it stores nothing. Only the date conversion can fail. */
  function FieldValue(node: ItemNode, tag: string): (r: Result<Option<Value>>)
    ensures r.Err? ==> tag == "pubDate"
    ensures r.Ok? && r.value.Some? <==> r.Ok? && Find(node, tag).Some? && Find(node, tag).value.text != ""
    ensures (tag == "author" || tag == "category") && r.Ok? && r.value.Some? ==>
      r.value.value == Texts(AllTexts(node, tag))
    ensures tag != "author" && tag != "category" && tag != "pubDate" && r.Ok? && r.value.Some? ==>
      r.value.value == Text(Find(node, tag).value.text)
    ensures tag == "pubDate" ==> (r.Err? <==>
      (Find(node, tag).Some? && Find(node, tag).value.text != "" && ComplexToSimpleDate(Find(node, tag).value.text).Err?))
    ensures tag == "pubDate" && r.Ok? && r.value.Some? ==>
      r.value.value == Text(ComplexToSimpleDate(Find(node, tag).value.text).value)
  {
    match Find(node, tag)
    case None => Ok(None)
    case Some(e) =>
      if e.text == "" then Ok(None)
      else if tag == "author" || tag == "category" then Ok(Some(Texts(AllTexts(node, tag))))
      else if tag == "pubDate" then
        match ComplexToSimpleDate(e.text)
        case Err(err) => Err(err)
        case Ok(date) => Ok(Some(Text(date)))
      else Ok(Some(Text(e.text)))
  }

  /** One step of `parse_item`'s loop: the dict after handling `tag`, or
      the exception raised so far. */
  function AddField(acc: Result<Item>, node: ItemNode, tag: string): Result<Item>
  {
    match acc
    case Err(e) => Err(e)
    case Ok(item) =>
      match FieldValue(node, tag)
      case Err(e) => Err(e)
      case Ok(None) => Ok(item)
      case Ok(Some(v)) => Ok(Set(item, tag, v))
  }

  /** The dict `parse_item` has built after visiting `tags` in order, or the
      exception that stopped it. */
  function ItemFields(node: ItemNode, tags: seq<string>): Result<Item>
    decreases |tags|
  {
    if tags == [] then Ok([])
    else AddField(ItemFields(node, tags[..|tags| - 1]), node, tags[|tags| - 1])
  }

  /** Visiting one more tag is one more loop step. */
  lemma ItemFieldsStep(node: ItemNode, tags: seq<string>, k: nat)
    requires k < |tags|
    ensures ItemFields(node, tags[..k + 1]) == AddField(ItemFields(node, tags[..k]), node, tags[k])
  {
    assert tags[..k + 1][..k] == tags[..k];
  }

  /** What `parse_item` returns for an item: only a date that does not
      convert raises. */
  function ItemRecord(node: ItemNode): (r: Result<Item>)
    ensures r.Err? ==> Find(node, "pubDate").Some? && ComplexToSimpleDate(Find(node, "pubDate").value.text).Err?
  {
    ItemFieldsError(node, Tags);
    ItemFields(node, Tags)
  }

  /** `parse_item` (src/rss_reader.py:6-25): visits the six tags in order
      and adds the field of each tag that has one. */
  method ParseItem(node: ItemNode) returns (r: Result<Item>)
    ensures r == ItemRecord(node)
  {
    var item: Item := [];
    for i := 0 to |Tags|
      invariant ItemFields(node, Tags[..i]) == Ok(item)
    {
      var tag := Tags[i];
      ItemFieldsStep(node, Tags, i);
      var field := FieldValue(node, tag);
      match field {
        case Err(e) =>
          ErrorStops(node, Tags, i + 1);
          return Err(e);
        case Ok(None) =>
        case Ok(Some(v)) =>
          item := Set(item, tag, v);
      }
    }
    assert Tags[..|Tags|] == Tags;
    return Ok(item);
  }

  /** Once a tag has raised, the whole walk raises the same exception. */
  lemma {:induction false} ErrorStops(node: ItemNode, tags: seq<string>, k: nat)
    requires k <= |tags| && ItemFields(node, tags[..k]).Err?
    ensures ItemFields(node, tags) == ItemFields(node, tags[..k])
    decreases |tags| - k
  {
    if k < |tags| {
      ItemFieldsStep(node, tags, k);
      ErrorStops(node, tags, k + 1);
    } else {
      assert tags[..k] == tags;
    }
  }

  // ----- properties of parse_item -----

  /** The walk over `tags` raises exactly when one of the tags does. */
  lemma {:induction false} ItemFieldsError(node: ItemNode, tags: seq<string>)
    ensures ItemFields(node, tags).Err? <==> exists i :: 0 <= i < |tags| && FieldValue(node, tags[i]).Err?
    decreases |tags|
  {
    if tags != [] {
      var init := tags[..|tags| - 1];
      var last := |tags| - 1;
      ItemFieldsError(node, init);
      assert forall i :: 0 <= i < |init| ==> tags[i] == init[i];
      if ItemFields(node, init).Ok? && FieldValue(node, tags[last]).Ok? {
        assert ItemFields(node, tags).Ok?;
      }
    }
  }

  /** The walk over `tags` stores, for every tag visited, exactly the value
      that tag yields, and nothing under any other key. */
  lemma {:induction false} ItemFieldsValues(node: ItemNode, tags: seq<string>)
    ensures ItemFields(node, tags).Ok? ==> forall tag :: tag in tags ==>
      FieldValue(node, tag).Ok? && Get(ItemFields(node, tags).value, tag) == FieldValue(node, tag).value
    ensures ItemFields(node, tags).Ok? ==> forall tag :: tag !in tags ==> Get(ItemFields(node, tags).value, tag) == None
    decreases |tags|
  {
    if tags != [] {
      var init := tags[..|tags| - 1];
      var tag := tags[|tags| - 1];
      ItemFieldsValues(node, init);
      assert tags == init + [tag];
      assert forall t :: t in tags <==> t in init || t == tag;
    }
  }

  /** The keys of the walk's dict come in visiting order. */
  lemma {:induction false} ItemFieldsOrder(node: ItemNode, tags: seq<string>)
    ensures ItemFields(node, tags).Ok? ==> IsSubsequence(Keys(ItemFields(node, tags).value), tags)
    decreases |tags|
  {
    if tags != [] {
      var init := tags[..|tags| - 1];
      var tag := tags[|tags| - 1];
      ItemFieldsOrder(node, init);
      ItemFieldsValues(node, init);
      assert tags == init + [tag];
      if ItemFields(node, init).Ok? {
        var item := ItemFields(node, init).value;
        var f := FieldValue(node, tag);
        if f.Ok? && f.value.Some? {
          SetKeys(item, tag, f.value.value);
          if tag in Keys(item) {
            SubsequenceExtend(Keys(item), init, [tag]);
          } else {
            SubsequenceAppend(Keys(item), init, tag);
          }
        } else {
          SubsequenceExtend(Keys(item), init, [tag]);
        }
      }
    }
  }

  /** What the tests of `parse_item` check, for any item: each of the six
      tags is stored exactly when its first element has text, with the
      value its rule gives; the keys come in tag order without repetition;
      and the item fails exactly when its first `pubDate` has text that is
      not a feed date. */
  lemma ItemRecordFields(node: ItemNode)
    ensures ItemRecord(node).Err? <==>
      Find(node, "pubDate").Some? && Find(node, "pubDate").value.text != "" &&
      ComplexToSimpleDate(Find(node, "pubDate").value.text).Err?
    ensures ItemRecord(node).Ok? ==> forall tag :: tag in Tags ==>
      FieldValue(node, tag).Ok? && Get(ItemRecord(node).value, tag) == FieldValue(node, tag).value
    ensures ItemRecord(node).Ok? ==> forall tag :: tag !in Tags ==> Get(ItemRecord(node).value, tag) == None
    ensures ItemRecord(node).Ok? ==> IsSubsequence(Keys(ItemRecord(node).value), Tags)
  {
    ItemFieldsError(node, Tags);
    ItemFieldsValues(node, Tags);
    ItemFieldsOrder(node, Tags);
    if ItemRecord(node).Err? {
      var i :| 0 <= i < |Tags| && FieldValue(node, Tags[i]).Err?;
      assert FieldValue(node, "pubDate").Err?;
    } else {
      assert FieldValue(node, Tags[2]).Ok?;
    }
  }

  /** The date `parse_item` stores is the converted first `pubDate` text. */
  lemma ItemRecordDate(node: ItemNode)
    requires ItemRecord(node).Ok?
    ensures Get(ItemRecord(node).value, "pubDate").Some? <==>
      Find(node, "pubDate").Some? && Find(node, "pubDate").value.text != ""
    ensures Get(ItemRecord(node).value, "pubDate").Some? ==>
      ComplexToSimpleDate(Find(node, "pubDate").value.text).Ok? &&
      Get(ItemRecord(node).value, "pubDate").value == Text(ComplexToSimpleDate(Find(node, "pubDate").value.text).value)
  {
    ItemRecordFields(node);
    assert "pubDate" in Tags;
  }

  /** An item with text under all six tags and a valid date has exactly six
      keys, in tag order. */
  lemma FullItem(node: ItemNode)
    requires Find(node, "title").Some? && Find(node, "title").value.text != ""
    requires Find(node, "author").Some? && Find(node, "author").value.text != ""
    requires Find(node, "pubDate").Some? && Find(node, "pubDate").value.text != ""
    requires Find(node, "link").Some? && Find(node, "link").value.text != ""
    requires Find(node, "category").Some? && Find(node, "category").value.text != ""
    requires Find(node, "description").Some? && Find(node, "description").value.text != ""
    requires ComplexToSimpleDate(Find(node, "pubDate").value.text).Ok?
    ensures ItemRecord(node).Ok? && Keys(ItemRecord(node).value) == Tags
  {
    forall i | 0 <= i < |Tags|
      ensures Find(node, Tags[i]).Some? && Find(node, Tags[i]).value.text != ""
    {
      if i == 0 {} else if i == 1 {} else if i == 2 {} else if i == 3 {} else if i == 4 {} else {}
    }
    EveryTagKept(node);
  }

  /** When every tag yields a field, the keys are the tags in order. */
  lemma EveryTagKept(node: ItemNode)
    requires forall i :: 0 <= i < |Tags| ==> Find(node, Tags[i]).Some? && Find(node, Tags[i]).value.text != ""
    requires Find(node, "pubDate").Some? && ComplexToSimpleDate(Find(node, "pubDate").value.text).Ok?
    ensures ItemRecord(node).Ok? && Keys(ItemRecord(node).value) == Tags
  {
    ItemRecordFields(node);
    var item := ItemRecord(node).value;
    forall i | 0 <= i < |Tags|
      ensures Tags[i] in Keys(item)
    {
      var tag := Tags[i];
      assert tag in Tags;
      assert FieldValue(node, tag).Ok? && FieldValue(node, tag).value.Some?;
      assert Get(item, tag).Some?;
    }
    TagsDistinct();
    SubsequenceOfAll(Keys(item), Tags);
  }

  /** The six tags are different names. */
  lemma TagsDistinct()
    ensures forall i, j :: 0 <= i < j < |Tags| ==> Tags[i] != Tags[j]
  {
  }

  /** A subsequence of `b` that contains every element of `b`, when `b`
      has no repetitions, is `b` itself. */
  lemma {:induction false} SubsequenceOfAll(a: seq<string>, b: seq<string>)
    requires IsSubsequence(a, b)
    requires forall i :: 0 <= i < |b| ==> b[i] in a
    requires forall i, j :: 0 <= i < j < |b| ==> b[i] != b[j]
    ensures a == b
    decreases |b|
  {
    if b != [] {
      assert b[0] in a;
      if a[0] == b[0] && IsSubsequence(a[1..], b[1..]) {
        forall i | 0 <= i < |b| - 1
          ensures b[1..][i] in a[1..]
        {
          assert b[i + 1] in a && b[i + 1] != a[0];
          assert a == [a[0]] + a[1..];
        }
        SubsequenceOfAll(a[1..], b[1..]);
        assert a == [a[0]] + a[1..];
      } else {
        SubsequenceElements(a, b[1..]);
        assert false;
      }
    }
  }

  // ----- rss_parser -----

  /** How many items `find_all('item', limit=limit)` keeps, `None` for all:
      it stops as soon as it has `limit` results and `limit` is truthy, so a
      missing or zero limit keeps everything and a negative one keeps the
      first item only. */
  function Bound(limit: Option<int>): (r: Option<nat>)
    ensures r.Some? ==> r.value >= 1
  {
    if limit.None? || limit.value == 0 then None
    else if limit.value > 0 then Some(limit.value)
    else Some(1)
  }

  /** The items `find_all('item', limit=limit)` returns. */
  function Selected(items: seq<ItemNode>, limit: Option<int>): (r: seq<ItemNode>)
    ensures Bound(limit).None? ==> r == items
    ensures Bound(limit).Some? ==> |r| == if |items| < Bound(limit).value then |items| else Bound(limit).value
    ensures r == items[..|r|]
  {
    match Bound(limit)
    case None => items
    case Some(n) => if |items| <= n then items else items[..n]
  }

  /** `[parse_item(item) for item in items]`: the first exception stops the
      comprehension. */
  function ParseAll(items: seq<ItemNode>): (r: Result<seq<Item>>)
    ensures r.Ok? ==> |r.value| == |items| && forall i :: 0 <= i < |items| ==> ItemRecord(items[i]) == Ok(r.value[i])
    ensures r.Err? ==> (FirstError(Records(items)) < |items| &&
      ItemRecord(items[FirstError(Records(items))]) == Err(r.error) &&
      forall j :: 0 <= j < FirstError(Records(items)) ==> ItemRecord(items[j]).Ok?)
  {
    var rs := Records(items);
    assert forall k :: 0 <= k < |items| ==> rs[k] == ItemRecord(items[k]);
    Collect(rs)
  }

  /** `parse_item` of each item on its own. */
  function Records(items: seq<ItemNode>): seq<Result<Item>>
  {
    seq(|items|, k requires 0 <= k < |items| => ItemRecord(items[k]))
  }

  /** `rss_parser` (src/rss_reader.py:28-39), over the items of an already
      parsed feed. */
  function RssParser(items: seq<ItemNode>, limit: Option<int>): (r: Result<seq<Item>>)
    ensures r.Ok? <==> forall i :: 0 <= i < |Selected(items, limit)| ==> ItemRecord(items[i]).Ok?
    ensures r.Ok? ==> |r.value| == |Selected(items, limit)|
    ensures r.Ok? ==> |r.value| <= |items|
    ensures r.Ok? && Bound(limit).None? ==> |r.value| == |items|
    ensures r.Ok? && Bound(limit).Some? ==> |r.value| <= Bound(limit).value
    ensures r.Ok? ==> forall i :: 0 <= i < |r.value| ==> ItemRecord(items[i]) == Ok(r.value[i])
  {
    var sel := Selected(items, limit);
    assert forall i :: 0 <= i < |sel| ==> sel[i] == items[i];
    ParseAll(sel)
  }

  /** Under a positive limit, `rss_parser` succeeds with `min(items, limit)`
      records once the items up to the limit parse; items past the limit are
      never parsed, so they cannot raise. */
  lemma RssParserPrefix(items: seq<ItemNode>, limit: Option<int>, n: nat)
    requires limit == Some(n) && n > 0
    requires forall i :: 0 <= i < |items| && i < n ==> ItemRecord(items[i]).Ok?
    ensures RssParser(items, limit).Ok?
    ensures |RssParser(items, limit).value| == if |items| < n then |items| else n
  {
    var sel := Selected(items, limit);
    assert forall i :: 0 <= i < |sel| ==> sel[i] == items[i];
  }

  // ----- items like the one of the tests -----

  /** The first child with the tag's name is what `find` returns. */
  lemma {:induction false} FindAt(node: ItemNode, tag: string, i: nat)
    requires i < |node| && node[i].name == tag
    requires forall j :: 0 <= j < i ==> node[j].name != tag
    ensures Find(node, tag) == Some(node[i])
    decreases i
  {
    if i > 0 {
      FindAt(node[1..], tag, i - 1);
    }
  }

  /** A tag carried by one child only gives that child's text alone. */
  lemma {:induction false} AllTextsOnly(node: ItemNode, tag: string, i: nat)
    requires i < |node| && node[i].name == tag
    requires forall j :: 0 <= j < |node| && j != i ==> node[j].name != tag
    ensures AllTexts(node, tag) == [node[i].text]
    decreases i
  {
    if i > 0 {
      AllTextsOnly(node[1..], tag, i - 1);
    } else {
      AllTextsNone(node[1..], tag);
    }
  }

  /** A tag no child carries gives no texts. */
  lemma {:induction false} AllTextsNone(node: ItemNode, tag: string)
    requires forall j :: 0 <= j < |node| ==> node[j].name != tag
    ensures AllTexts(node, tag) == []
    decreases |node|
  {
    if node != [] {
      AllTextsNone(node[1..], tag);
    }
  }

  /** A found, non-empty date that converts is stored converted. */
  lemma PubDateValue(node: ItemNode, date: string, simple: string)
    requires Find(node, "pubDate") == Some(Element("pubDate", date)) && date != ""
    requires ComplexToSimpleDate(date) == Ok(simple)
    ensures FieldValue(node, "pubDate") == Ok(Some(Text(simple)))
  {
  }

  /** `test_parse_item`, for every item of its shape: an item node whose six
      tags are each found with non-empty text, whose author and category
      occur once and whose date converts gives exactly those six fields,
      the date converted and the author and category as one-text lists. */
  lemma RecordOfSingleTags(node: ItemNode, title: string, link: string, description: string,
                           author: string, category: string, date: string, simple: string)
    requires Find(node, "title") == Some(Element("title", title)) && title != ""
    requires Find(node, "link") == Some(Element("link", link)) && link != ""
    requires Find(node, "description") == Some(Element("description", description)) && description != ""
    requires Find(node, "author") == Some(Element("author", author)) && author != ""
    requires Find(node, "category") == Some(Element("category", category)) && category != ""
    requires Find(node, "pubDate") == Some(Element("pubDate", date)) && date != ""
    requires AllTexts(node, "author") == [author] && AllTexts(node, "category") == [category]
    requires ComplexToSimpleDate(date) == Ok(simple)
    ensures ItemRecord(node).Ok? && |Keys(ItemRecord(node).value)| == 6
    ensures Get(ItemRecord(node).value, "title") == Some(Text(title))
    ensures Get(ItemRecord(node).value, "link") == Some(Text(link))
    ensures Get(ItemRecord(node).value, "description") == Some(Text(description))
    ensures Get(ItemRecord(node).value, "author") == Some(Texts([author]))
    ensures Get(ItemRecord(node).value, "category") == Some(Texts([category]))
    ensures Get(ItemRecord(node).value, "pubDate") == Some(Text(simple))
  {
    FullItem(node);
    TextField(node, "title", title);
    TextField(node, "link", link);
    TextField(node, "description", description);
    ListField(node, "author", author);
    ListField(node, "category", category);
    PubDateValue(node, date, simple);
    RecordValue(node, "pubDate");
  }

  /** A text field found once with non-empty text is stored as that text. */
  lemma TextField(node: ItemNode, tag: string, text: string)
    requires ItemRecord(node).Ok? && tag in Tags && tag != "author" && tag != "category" && tag != "pubDate"
    requires Find(node, tag) == Some(Element(tag, text)) && text != ""
    ensures Get(ItemRecord(node).value, tag) == Some(Text(text))
  {
    RecordValue(node, tag);
  }

  /** A list field with a single non-empty element is stored as a one-text list. */
  lemma ListField(node: ItemNode, tag: string, text: string)
    requires ItemRecord(node).Ok? && (tag == "author" || tag == "category")
    requires Find(node, tag) == Some(Element(tag, text)) && text != "" && AllTexts(node, tag) == [text]
    ensures Get(ItemRecord(node).value, tag) == Some(Texts([text]))
  {
    RecordValue(node, tag);
  }

  /** One field of a parsed item. */
  lemma RecordValue(node: ItemNode, tag: string)
    requires ItemRecord(node).Ok? && tag in Tags
    ensures FieldValue(node, tag).Ok? && Get(ItemRecord(node).value, tag) == FieldValue(node, tag).value
  {
    ItemRecordFields(node);
  }

  /** `test_rss_parser`, for every item that parses: a limit of 2 over three
      copies of it keeps two records. */
  lemma LimitTwoOfThree(node: ItemNode, items: seq<ItemNode>)
    requires items == [node, node, node] && ItemRecord(node).Ok?
    ensures RssParser(items, Some(2)).Ok? && |RssParser(items, Some(2)).value| == 2
  {
    RssParserPrefix(items, Some(2), 2);
  }

  /** An item whose date does not convert, placed after the limit, is never
      parsed: the limited call succeeds while the unlimited one raises. */
  lemma BadItemPastLimit(good: ItemNode, bad: ItemNode, items: seq<ItemNode>)
    requires items == [good, good, bad]
    requires ItemRecord(good).Ok? && ItemRecord(bad).Err?
    ensures RssParser(items, Some(2)).Ok? && |RssParser(items, Some(2)).value| == 2
    ensures RssParser(items, None).Err?
  {
    RssParserPrefix(items, Some(2), 2);
    assert ItemRecord(items[2]).Err?;
  }
}
