/** Showing news items (`print_news`, src/main.py:21-53). In concise mode
    each item is first cut down to its title, link and date, in fresh dicts;
    in verbose mode the caller's own dicts are used. Every shown item then
    has its date rewritten from `YYYYMMDD` to `YYYY-MonthName-DD`, in place.
    The items are finally emitted either as one JSON value or as a block of
    `Label: value` lines per item. */
module Presenter {
  import opened Common
  import opened Items
  import opened Dates

  // ----- projection -----

  /** The fields concise mode keeps. */
  const ConciseKeys: seq<string> := ["title", "link", "pubDate"]

  /** The concise form of an item: the fields whose key is one of
      `ConciseKeys`, in the item's own order (src/main.py:34-35). */
  function Concise(item: Item): (r: Item)
    ensures IsSubsequence(r, item)
    ensures forall f :: f in r <==> f in item && f.key in ConciseKeys
    decreases |item|
  {
    if item == [] then []
    else
      var rest := Concise(item[1..]);
      assert forall f :: f in item <==> f == item[0] || f in item[1..];
      if item[0].key in ConciseKeys then
        var r := [item[0]] + rest;
        assert r[1..] == rest;
        r
      else rest
  }

  /** The items that are shown. */
  function Shown(items: seq<Item>, verbose: bool): seq<Item>
  {
    if verbose then items else seq(|items|, i requires 0 <= i < |items| => Concise(items[i]))
  }

  // ----- the date rewrite -----

  /** One pass of the date rewrite (src/main.py:38): the stored date is
      replaced by its readable form. A missing date is read as `""`, which
      does not parse; a list is not a string and is refused. */
  function ReformatOne(item: Item): Result<Item>
  {
    match Get(item, "pubDate")
    case None =>
      (match SimpleToReadableDate("")
       case Err(e) => Err(e)
       case Ok(_) => Err(BadDate("")))
    case Some(Texts(_)) => Err(NotAString)
    case Some(Text(s)) =>
      match SimpleToReadableDate(s)
      case Err(e) => Err(e)
      case Ok(t) => Ok(Set(item, "pubDate", Text(t)))
  }

  /** The rewrite of one item fails exactly when its date is missing, is a
      list or does not parse; otherwise only the date changes, in place, to
      its readable form. */
  lemma ReformatOneSpec(item: Item)
    ensures Get(item, "pubDate").None? ==> ReformatOne(item) == Err(BadDate(""))
    ensures Get(item, "pubDate").Some? && Get(item, "pubDate").value.Texts? ==> ReformatOne(item) == Err(NotAString)
    ensures Get(item, "pubDate").Some? && Get(item, "pubDate").value.Text? ==>
      (ReformatOne(item).Ok? <==> SimpleToReadableDate(Get(item, "pubDate").value.text).Ok?)
    ensures ReformatOne(item).Ok? ==> (Get(item, "pubDate").Some? && Get(item, "pubDate").value.Text? &&
      SimpleToReadableDate(Get(item, "pubDate").value.text).Ok? &&
      Get(ReformatOne(item).value, "pubDate") == Some(Text(SimpleToReadableDate(Get(item, "pubDate").value.text).value)))
    ensures ReformatOne(item).Ok? ==> (Keys(ReformatOne(item).value) == Keys(item) &&
      forall k :: k != "pubDate" ==> Get(ReformatOne(item).value, k) == Get(item, k))
  {
    match Get(item, "pubDate")
    case None =>
    case Some(Texts(_)) =>
    case Some(Text(s)) =>
      if SimpleToReadableDate(s).Ok? {
        SetKeys(item, "pubDate", Text(SimpleToReadableDate(s).value));
      }
  }

  /** The rewrite of each item on its own. */
  function Rewrites(items: seq<Item>): seq<Result<Item>>
  {
    seq(|items|, k requires 0 <= k < |items| => ReformatOne(items[k]))
  }

  /** The number of items the rewrite gets through before the first one
      it refuses; `|items|` when it refuses none. */
  function FirstFailure(items: seq<Item>): (n: nat)
    ensures n <= |items|
    ensures forall k :: 0 <= k < n ==> ReformatOne(items[k]).Ok?
    ensures n < |items| ==> ReformatOne(items[n]).Err?
  {
    var rs := Rewrites(items);
    assert forall k :: 0 <= k < |items| ==> rs[k] == ReformatOne(items[k]);
    FirstError(rs)
  }

  /** The rewrite over all items (src/main.py:37-38): the first refusal is
      the exception raised, otherwise every item rewritten, in order. */
  function ReformatAll(items: seq<Item>): (r: Result<seq<Item>>)
    ensures r.Ok? ==> |r.value| == |items| && forall k :: 0 <= k < |items| ==> ReformatOne(items[k]) == Ok(r.value[k])
    ensures r.Err? ==> FirstFailure(items) < |items| && r.error == ReformatOne(items[FirstFailure(items)]).error
  {
    Collect(Rewrites(items))
  }

  // ----- text layout -----

  /** The label printed for each known field (src/main.py:43-51). */
  const TagsMap: map<string, string> := map[
    "title" := "Title",
    "author" := "Authors",
    "link" := "Link",
    "pubDate" := "Publish Date",
    "description" := "Description",
    "category" := "Categories",
    "source_url" := "Source URL"]

  /** The texts of a list, each in single quotes, separated by `, `. */
  function QuotedList(texts: seq<string>): string
    decreases |texts|
  {
    if texts == [] then ""
    else if |texts| == 1 then "'" + texts[0] + "'"
    else "'" + texts[0] + "', " + QuotedList(texts[1..])
  }

  /** How a value is written by `str`: a text as it is, a list as
      `['a', 'b']`. */
  function ValueText(v: Value): (s: string)
    ensures v.Text? ==> s == v.text
    ensures v.Texts? ==> |s| >= 2 && s[0] == '[' && s[|s| - 1] == ']'
  {
    match v
    case Text(s) => s
    case Texts(ss) => "[" + QuotedList(ss) + "]"
  }

  /** The line of one field: its label, a colon and a space, then its value. */
  function FieldLine(f: Field): string
    requires f.key in TagsMap
  {
    TagsMap[f.key] + ": " + ValueText(f.value)
  }

  /** The lines of an item, one per field in key order; a field without a
      label is a `KeyError` (src/main.py:53). */
  function ItemLines(item: Item): (r: Result<seq<string>>)
    ensures r.Ok? <==> forall i :: 0 <= i < |item| ==> item[i].key in TagsMap
    ensures r.Ok? ==> |r.value| == |item| && forall i :: 0 <= i < |item| ==> r.value[i] == FieldLine(item[i])
    ensures r.Err? ==> exists i :: (0 <= i < |item| && item[i].key !in TagsMap && r.error == UnknownKey(item[i].key) &&
      forall j :: 0 <= j < i ==> item[j].key in TagsMap)
    decreases |item|
  {
    if item == [] then Ok([])
    else if item[0].key !in TagsMap then Err(UnknownKey(item[0].key))
    else match ItemLines(item[1..])
      case Err(e) =>
        UnknownKeyShift(item, e);
        Err(e)
      case Ok(rest) =>
        FieldLinesShift(item, rest);
        Ok([FieldLine(item[0])] + rest)
  }

  /** The first unlabelled key of an item's tail, after a labelled first
      key, is the item's first unlabelled key. */
  lemma UnknownKeyShift(item: Item, e: Error)
    requires item != [] && item[0].key in TagsMap
    requires exists i :: (0 <= i < |item[1..]| && item[1..][i].key !in TagsMap && e == UnknownKey(item[1..][i].key) &&
      forall j :: 0 <= j < i ==> item[1..][j].key in TagsMap)
    ensures exists i :: (0 <= i < |item| && item[i].key !in TagsMap && e == UnknownKey(item[i].key) &&
      forall j :: 0 <= j < i ==> item[j].key in TagsMap)
  {
    var i :| (0 <= i < |item[1..]| && item[1..][i].key !in TagsMap && e == UnknownKey(item[1..][i].key) &&
      forall j :: 0 <= j < i ==> item[1..][j].key in TagsMap);
    assert item[i + 1] == item[1..][i];
    assert forall j :: 1 <= j < i + 1 ==> item[j] == item[1..][j - 1];
  }

  /** The lines of an item's tail, after the first field's line, are one
      line per field of the item. */
  lemma FieldLinesShift(item: Item, rest: seq<string>)
    requires item != [] && item[0].key in TagsMap && |rest| == |item| - 1
    requires forall i :: 0 <= i < |rest| ==> item[1..][i].key in TagsMap && rest[i] == FieldLine(item[1..][i])
    ensures forall i :: 0 <= i < |item| ==> item[i].key in TagsMap
    ensures var r := [FieldLine(item[0])] + rest;
      |r| == |item| && forall i :: 0 <= i < |item| ==> r[i] == FieldLine(item[i])
  {
    var r := [FieldLine(item[0])] + rest;
    forall i | 1 <= i < |item|
      ensures item[i].key in TagsMap && r[i] == FieldLine(item[i])
    {
      assert item[i] == item[1..][i - 1] && r[i] == rest[i - 1];
    }
  }

  /** `sep.join(lines)`. */
  function Join(lines: seq<string>, sep: string): string
    decreases |lines|
  {
    if lines == [] then ""
    else if |lines| == 1 then lines[0]
    else lines[0] + sep + Join(lines[1..], sep)
  }

  /** The block printed for one item: its lines joined by newlines, then a
      blank line (src/main.py:52-53). */
  function RenderItem(item: Item): (r: Result<string>)
    ensures r.Ok? <==> ItemLines(item).Ok?
    ensures r.Err? ==> r.error == ItemLines(item).error
  {
    match ItemLines(item)
    case Err(e) => Err(e)
    case Ok(lines) => Ok(Join(lines, "\n") + "\n\n")
  }

  /** The blocks of all items, one after the other; the first unlabelled
      field stops the output. */
  function RenderAll(items: seq<Item>): (r: Result<string>)
    ensures r.Ok? <==> forall k :: 0 <= k < |items| ==> RenderItem(items[k]).Ok?
    ensures r.Err? ==> exists k :: (0 <= k < |items| && RenderItem(items[k]).Err? &&
      r.error == RenderItem(items[k]).error && forall j :: 0 <= j < k ==> RenderItem(items[j]).Ok?)
    decreases |items|
  {
    if items == [] then Ok("")
    else match RenderItem(items[0])
      case Err(e) => Err(e)
      case Ok(block) =>
        BlocksShift(items);
        match RenderAll(items[1..])
        case Err(e) =>
          FailedBlockShift(items, e);
          Err(e)
        case Ok(rest) => Ok(block + rest)
  }

  /** Every item has a block exactly when the first one and every later one
      have. */
  lemma BlocksShift(items: seq<Item>)
    requires items != []
    ensures (forall k :: 0 <= k < |items| ==> RenderItem(items[k]).Ok?) <==>
      (RenderItem(items[0]).Ok? && forall k :: 0 <= k < |items[1..]| ==> RenderItem(items[1..][k]).Ok?)
  {
    assert forall k :: 1 <= k < |items| ==> items[k] == items[1..][k - 1];
  }

  /** The first item of the tail whose block fails, after a first item that
      renders, is the first item whose block fails. */
  lemma FailedBlockShift(items: seq<Item>, e: Error)
    requires items != [] && RenderItem(items[0]).Ok?
    requires exists k :: (0 <= k < |items[1..]| && RenderItem(items[1..][k]).Err? &&
      e == RenderItem(items[1..][k]).error && forall j :: 0 <= j < k ==> RenderItem(items[1..][j]).Ok?)
    ensures exists k :: (0 <= k < |items| && RenderItem(items[k]).Err? &&
      e == RenderItem(items[k]).error && forall j :: 0 <= j < k ==> RenderItem(items[j]).Ok?)
  {
    var k :| (0 <= k < |items[1..]| && RenderItem(items[1..][k]).Err? &&
      e == RenderItem(items[1..][k]).error && forall j :: 0 <= j < k ==> RenderItem(items[1..][j]).Ok?);
    assert items[k + 1] == items[1..][k];
    forall j | 1 <= j < k + 1
      ensures RenderItem(items[j]).Ok?
    {
      assert items[j] == items[1..][j - 1];
    }
  }

  /** The text of several items is the first one's block, then the text of
      the rest. */
  lemma RenderAllUncons(items: seq<Item>)
    requires items != []
    ensures RenderAll(items).Ok? <==> RenderItem(items[0]).Ok? && RenderAll(items[1..]).Ok?
    ensures RenderAll(items).Ok? ==> RenderAll(items).value == RenderItem(items[0]).value + RenderAll(items[1..]).value
  {
  }

  /** One step of `RenderAllAppend`: putting the first item back in front. */
  lemma RenderAllAppendStep(a: seq<Item>, b: seq<Item>)
    requires a != [] && RenderAll(a).Ok? && RenderAll(b).Ok? && RenderAll(a[1..]).Ok?
    requires RenderAll(a[1..] + b) == Ok(RenderAll(a[1..]).value + RenderAll(b).value)
    ensures RenderAll(a + b) == Ok(RenderAll(a).value + RenderAll(b).value)
  {
    var block, x, y := RenderItem(a[0]).value, RenderAll(a[1..]).value, RenderAll(b).value;
    assert RenderItem(a[0]).Ok? && RenderAll(a).value == block + x by {
      RenderAllUncons(a);
    }
    assert RenderAll(a + b) == Ok(block + (x + y)) by {
      TailAppend(a, b);
      RenderAllUncons(a + b);
    }
    AppendAssociative(block, x, y);
  }

  /** The text of several items is their blocks in item order: rendering
      two runs of items gives the text of the first, then that of the second. */
  lemma {:induction false} RenderAllAppend(a: seq<Item>, b: seq<Item>)
    requires RenderAll(a).Ok? && RenderAll(b).Ok?
    ensures RenderAll(a + b) == Ok(RenderAll(a).value + RenderAll(b).value)
    decreases |a|
  {
    if a != [] {
      RenderAllUncons(a);
      RenderAllAppend(a[1..], b);
      RenderAllAppendStep(a, b);
    } else {
      assert a + b == b && RenderAll(a).value == "";
      assert RenderAll(a).value + RenderAll(b).value == RenderAll(b).value;
    }
  }

  // ----- reading the text back -----

  /** The lines of a text, split at every newline (`text.split('\n')`). */
  function SplitLines(text: string): (r: seq<string>)
    ensures |r| >= 1
    decreases |text|
  {
    if text == [] then [""]
    else if text[0] == '\n' then [""] + SplitLines(text[1..])
    else
      var rest := SplitLines(text[1..]);
      [[text[0]] + rest[0]] + rest[1..]
  }

  predicate NoNewline(s: string)
  {
    forall i :: 0 <= i < |s| ==> s[i] != '\n'
  }

  /** A newline-free prefix is glued to the first line. */
  lemma {:induction false} SplitPrefix(a: string, rest: string)
    requires NoNewline(a)
    ensures SplitLines(a + rest) == [a + SplitLines(rest)[0]] + SplitLines(rest)[1..]
    decreases |a|
  {
    if a == [] {
      assert a + rest == rest && a + SplitLines(rest)[0] == SplitLines(rest)[0];
    } else {
      assert (a + rest)[0] == a[0] && (a + rest)[1..] == a[1..] + rest;
      SplitPrefix(a[1..], rest);
      assert [a[0]] + (a[1..] + SplitLines(rest)[0]) == a + SplitLines(rest)[0];
    }
  }

  /** Splitting newline-joined newline-free lines gives the lines back. */
  lemma {:induction false} SplitJoin(lines: seq<string>)
    requires |lines| >= 1
    requires forall i :: 0 <= i < |lines| ==> NoNewline(lines[i])
    ensures SplitLines(Join(lines, "\n")) == lines
    decreases |lines|
  {
    if |lines| == 1 {
      SplitPrefix(lines[0], "");
      assert lines[0] + "" == lines[0];
    } else {
      var tail := Join(lines[1..], "\n");
      SplitJoin(lines[1..]);
      assert Join(lines, "\n") == lines[0] + ("\n" + tail);
      SplitPrefix(lines[0], "\n" + tail);
      assert ("\n" + tail)[0] == '\n' && ("\n" + tail)[1..] == tail;
      assert SplitLines("\n" + tail) == [""] + lines[1..];
      assert lines[0] + "" == lines[0];
    }
  }

  /** Joining and then adding a blank line is joining with two empty
      lines more. */
  lemma {:induction false} JoinBlankLine(lines: seq<string>)
    requires |lines| >= 1
    ensures Join(lines, "\n") + "\n\n" == Join(lines + ["", ""], "\n")
    decreases |lines|
  {
    if |lines| == 1 {
      assert lines + ["", ""] == [lines[0], "", ""];
      assert Join(["", ""], "\n") == "\n";
    } else {
      JoinBlankLine(lines[1..]);
      assert (lines + ["", ""])[1..] == lines[1..] + ["", ""];
    }
  }

  /** A label holds no newline. */
  lemma LabelNoNewline(key: string)
    requires key in TagsMap
    ensures NoNewline(TagsMap[key] + ": ")
  {
  }

  predicate ValueNoNewline(v: Value)
  {
    match v
    case Text(s) => NoNewline(s)
    case Texts(ss) => forall i :: 0 <= i < |ss| ==> NoNewline(ss[i])
  }

  lemma {:induction false} QuotedListNoNewline(texts: seq<string>)
    requires forall i :: 0 <= i < |texts| ==> NoNewline(texts[i])
    ensures NoNewline(QuotedList(texts))
    decreases |texts|
  {
    if |texts| > 1 {
      QuotedListNoNewline(texts[1..]);
    }
  }

  /** The printed block of a non-empty item whose values hold no newline
      reads back, line by line, as one line per field in key order followed
      by the blank line. */
  lemma RenderedLines(item: Item)
    requires item != [] && RenderItem(item).Ok?
    requires forall i :: 0 <= i < |item| ==> ValueNoNewline(item[i].value)
    ensures SplitLines(RenderItem(item).value) == ItemLines(item).value + ["", ""]
    ensures |SplitLines(RenderItem(item).value)| == |item| + 2
  {
    var lines := ItemLines(item).value;
    forall i | 0 <= i < |lines|
      ensures NoNewline(lines[i])
    {
      LabelNoNewline(item[i].key);
      match item[i].value
      case Text(s) =>
      case Texts(ss) => QuotedListNoNewline(ss);
    }
    JoinBlankLine(lines);
    SplitJoin(lines + ["", ""]);
  }

  // ----- the whole of print_news, on values -----

  /** What `print_news` emits: the JSON value of the shown items, or the
      text of their blocks. */
  datatype Output = Json(items: seq<Item>) | Plain(text: string)

  /** The output for the items to show: all their dates are rewritten
      first, then they are emitted (src/main.py:37-53). */
  function ShowSpec(shown: seq<Item>, toJson: bool): (r: Result<Output>)
    ensures r.Err? <==> ReformatAll(shown).Err? || (!toJson && RenderAll(ReformatAll(shown).value).Err?)
    ensures r.Ok? && toJson ==> r == Ok(Json(ReformatAll(shown).value))
    ensures r.Ok? && !toJson ==> r == Ok(Plain(RenderAll(ReformatAll(shown).value).value))
  {
    match ReformatAll(shown)
    case Err(e) => Err(e)
    case Ok(items) =>
      if toJson then Ok(Json(items))
      else match RenderAll(items)
        case Err(e) => Err(e)
        case Ok(text) => Ok(Plain(text))
  }

  /** `print_news(items, to_json, verbose)` on item values. */
  function PrintNewsSpec(items: seq<Item>, toJson: bool, verbose: bool): (r: Result<Output>)
    ensures r.Ok? ==> ReformatAll(Shown(items, verbose)).Ok?
    ensures r.Ok? && toJson ==> r.value.Json? && |r.value.items| == |items|
    ensures r.Ok? && !toJson ==> r.value.Plain?
  {
    ShowSpec(Shown(items, verbose), toJson)
  }

  /** What is shown of each item: in verbose mode all its fields, in concise
      mode just its title, link and date, in their order; in both, the date
      in readable form. */
  lemma ShownFields(items: seq<Item>, verbose: bool, k: nat)
    requires ReformatAll(Shown(items, verbose)).Ok? && k < |items|
    ensures verbose ==> Keys(ReformatAll(Shown(items, verbose)).value[k]) == Keys(items[k])
    ensures !verbose ==> Keys(ReformatAll(Shown(items, verbose)).value[k]) == Keys(Concise(items[k]))
    ensures forall key :: key != "pubDate" && (verbose || key in ConciseKeys) ==>
      Get(ReformatAll(Shown(items, verbose)).value[k], key) == Get(items[k], key)
    ensures !verbose ==> forall key :: key !in ConciseKeys ==> Get(ReformatAll(Shown(items, verbose)).value[k], key) == None
    ensures Get(items[k], "pubDate").Some? && Get(items[k], "pubDate").value.Text? &&
      SimpleToReadableDate(Get(items[k], "pubDate").value.text).Ok? &&
      Get(ReformatAll(Shown(items, verbose)).value[k], "pubDate") ==
        Some(Text(SimpleToReadableDate(Get(items[k], "pubDate").value.text).value))
  {
    var s := Shown(items, verbose)[k];
    ReformatOneSpec(s);
    if !verbose {
      ConciseGet(items[k]);
    }
  }

  /** Looking a key up in the concise form finds what the item has under a
      concise key, and nothing under any other key. */
  lemma {:induction false} ConciseGet(item: Item)
    ensures forall key :: key in ConciseKeys ==> Get(Concise(item), key) == Get(item, key)
    ensures forall key :: key !in ConciseKeys ==> Get(Concise(item), key) == None
    decreases |item|
  {
    if item != [] {
      ConciseGet(item[1..]);
      if item[0].key in ConciseKeys {
        assert Concise(item)[0] == item[0] && Concise(item)[1..] == Concise(item[1..]);
      }
    }
  }

  /** An item holding concise fields only is its own concise form. */
  lemma {:induction false} ConciseOfConcise(item: Item)
    requires forall i :: 0 <= i < |item| ==> item[i].key in ConciseKeys
    ensures Concise(item) == item
    decreases |item|
  {
    if item != [] {
      ConciseOfConcise(item[1..]);
      assert item == [item[0]] + item[1..];
    }
  }

  /** `print_news` in concise mode on one item with a title, a link and a
      compact date, in that order: the text is the three labelled lines and
      a blank line, and the JSON value is the item with its date made
      readable (tests/test_main.py:91-122). */
  lemma ConciseItemOutput(item: Item, t: string, l: string, d: string, rd: string)
    requires item == [Field("title", Text(t)), Field("link", Text(l)), Field("pubDate", Text(d))]
    requires SimpleToReadableDate(d) == Ok(rd)
    ensures PrintNewsSpec([item], false, false) ==
      Ok(Plain("Title: " + t + "\n" + "Link: " + l + "\n" + "Publish Date: " + rd + "\n\n"))
    ensures PrintNewsSpec([item], true, false) ==
      Ok(Json([[Field("title", Text(t)), Field("link", Text(l)), Field("pubDate", Text(rd))]]))
  {
    var shown := [Field("title", Text(t)), Field("link", Text(l)), Field("pubDate", Text(rd))];
    ConciseRewritten(item, t, l, d, rd);
    assert PrintNewsSpec([item], true, false) == Ok(Json([shown]));
    RenderedConcise(shown, t, l, rd);
  }

  /** The concise form of such an item is itself, and its rewrite replaces
      the date in place. */
  lemma ConciseRewritten(item: Item, t: string, l: string, d: string, rd: string)
    requires item == [Field("title", Text(t)), Field("link", Text(l)), Field("pubDate", Text(d))]
    requires SimpleToReadableDate(d) == Ok(rd)
    ensures ReformatAll(Shown([item], false)) ==
      Ok([[Field("title", Text(t)), Field("link", Text(l)), Field("pubDate", Text(rd))]])
  {
    assert Shown([item], false) == [item] by {
      ConciseOfConcise(item);
    }
    DateRewritten(item, t, l, d, rd);
    ReformatSingle(item, [Field("title", Text(t)), Field("link", Text(l)), Field("pubDate", Text(rd))]);
  }

  /** The rewrite of a title, a link and a compact date replaces the date by
      its readable form and keeps the rest. */
  lemma DateRewritten(item: Item, t: string, l: string, d: string, rd: string)
    requires item == [Field("title", Text(t)), Field("link", Text(l)), Field("pubDate", Text(d))]
    requires SimpleToReadableDate(d) == Ok(rd)
    ensures ReformatOne(item) == Ok([Field("title", Text(t)), Field("link", Text(l)), Field("pubDate", Text(rd))])
  {
    var shown := item[2 := Field("pubDate", Text(rd))];
    GetAt(item, 2, "pubDate");
    SetAt(item, 2, "pubDate", Text(rd));
    var fields := [Field("title", Text(t)), Field("link", Text(l)), Field("pubDate", Text(rd))];
    assert shown == fields by {
      assert |shown| == |fields|;
      assert shown[0] == fields[0] && shown[1] == fields[1] && shown[2] == fields[2];
    }
  }

  /** The rewrite of a single item that succeeds. */
  lemma ReformatSingle(item: Item, shown: Item)
    requires ReformatOne(item) == Ok(shown)
    ensures ReformatAll([item]) == Ok([shown])
  {
    var r := ReformatAll([item]);
    assert [item][0] == item;
    assert FirstFailure([item]) == 1;
    assert r.Ok? && |r.value| == 1;
    assert r.value == [r.value[0]];
  }

  /** The text block of a title, a link and a date. */
  lemma RenderedConcise(shown: Item, t: string, l: string, rd: string)
    requires shown == [Field("title", Text(t)), Field("link", Text(l)), Field("pubDate", Text(rd))]
    ensures RenderAll([shown]) == Ok("Title: " + t + "\n" + "Link: " + l + "\n" + "Publish Date: " + rd + "\n\n")
  {
    var a, b, c := "Title: " + t, "Link: " + l, "Publish Date: " + rd;
    var lines := [a, b, c];
    assert ItemLines(shown) == Ok(lines) by {
      ConciseLines(shown, t, l, rd);
    }
    assert Join(lines, "\n") == a + "\n" + (b + "\n" + c) by {
      assert Join([b, c], "\n") == b + "\n" + c by {
        assert [b, c][1..] == [c];
      }
      assert lines[1..] == [b, c];
    }
    assert [shown][0] == shown && [shown][1..] == [];
    assert RenderAll([shown]) == Ok(Join(lines, "\n") + "\n\n" + "");
    var n, nn := "\n", "\n\n";
    calc {
      a + n + (b + n + c) + nn + "";
    ==
      a + n + (b + n + c) + nn;
    == { assert a + n + (b + n + c) == a + n + (b + n) + c; }
      a + n + (b + n) + c + nn;
    == { assert a + n + (b + n) == a + n + b + n; }
      a + n + b + n + c + nn;
    == { assert a + n + b == a + n + "Link: " + l; }
      a + n + "Link: " + l + n + c + nn;
    == { assert a + n + "Link: " + l + n + c == a + n + "Link: " + l + n + "Publish Date: " + rd; }
      "Title: " + t + n + "Link: " + l + n + "Publish Date: " + rd + nn;
    }
  }

  /** The lines of a title, a link and a date. */
  lemma ConciseLines(shown: Item, t: string, l: string, rd: string)
    requires shown == [Field("title", Text(t)), Field("link", Text(l)), Field("pubDate", Text(rd))]
    ensures ItemLines(shown) == Ok(["Title: " + t, "Link: " + l, "Publish Date: " + rd])
  {
    assert FieldLine(shown[0]) == "Title: " + t by { assert "Title" + ": " == "Title: "; }
    assert FieldLine(shown[1]) == "Link: " + l by { assert "Link" + ": " == "Link: "; }
    assert FieldLine(shown[2]) == "Publish Date: " + rd by { assert "Publish Date" + ": " == "Publish Date: "; }
    assert forall i :: 0 <= i < |shown| ==> shown[i].key in TagsMap;
    var il := ItemLines(shown);
    assert il.Ok? && |il.value| == 3;
    assert il.value == [il.value[0], il.value[1], il.value[2]];
  }

  /** The output `test_print_news_text` expects (tests/test_main.py:113-122),
      and the JSON value of the same item in the form `test_print_news_json`
      expects for each of its items. */
  lemma PrintNewsExample(item: Item)
    requires item == [Field("title", Text("Test Title")), Field("link", Text("http://example.com")),
                      Field("pubDate", Text("20210101"))]
    ensures PrintNewsSpec([item], false, false) ==
      Ok(Plain("Title: " + "Test Title" + "\n" + "Link: " + "http://example.com" + "\n" +
               "Publish Date: " + "2021-January-01" + "\n\n"))
    ensures PrintNewsSpec([item], true, false) ==
      Ok(Json([[Field("title", Text("Test Title")), Field("link", Text("http://example.com")),
                Field("pubDate", Text("2021-January-01"))]]))
  {
    NewYearExample("20210101");
    ConciseItemOutput(item, "Test Title", "http://example.com", "20210101", "2021-January-01");
  }

  // ----- the caller's dicts -----

  /** A mutable news dict, shared between the caller and `print_news`. */
  class NewsDict {
    var entries: Item

    constructor (entries: Item)
      ensures this.entries == entries
    {
      this.entries := entries;
    }

    /** `item["pubDate"] = simple_to_readable_date(item.get("pubDate", ""))`
        (src/main.py:38): on success the dict holds the rewritten item, on
        failure it is left as it was. */
    method RewriteDate() returns (err: Option<Error>)
      modifies this
      ensures err.None? <==> ReformatOne(old(entries)).Ok?
      ensures err.None? ==> entries == ReformatOne(old(entries)).value
      ensures err.Some? ==> err.value == ReformatOne(old(entries)).error && entries == old(entries)
    {
      var r := ReformatOne(entries);
      if r.Err? {
        return Some(r.error);
      }
      entries := r.value;
      return None;
    }
  }

  /** The contents of a list of dicts. */
  function Entries(ds: seq<NewsDict>): (r: seq<Item>)
    reads set d | d in ds
    ensures |r| == |ds| && forall i :: 0 <= i < |ds| ==> r[i] == ds[i].entries
    decreases |ds|
  {
    if ds == [] then [] else [ds[0].entries] + Entries(ds[1..])
  }

  /** No dict occurs twice in the list. */
  predicate Distinct(ds: seq<NewsDict>)
  {
    forall i, j :: 0 <= i < j < |ds| ==> ds[i] != ds[j]
  }

  /** The concise copies of the dicts (src/main.py:33-35): new dicts, one per
      item, the originals untouched. */
  method ConciseCopies(ds: seq<NewsDict>) returns (copies: seq<NewsDict>)
    ensures |copies| == |ds| && Distinct(copies)
    ensures forall i :: 0 <= i < |ds| ==> fresh(copies[i]) && copies[i].entries == Concise(ds[i].entries)
  {
    copies := [];
    for i := 0 to |ds|
      invariant |copies| == i && Distinct(copies)
      invariant forall k :: 0 <= k < i ==> fresh(copies[k]) && copies[k].entries == Concise(ds[k].entries)
    {
      var d := new NewsDict(Concise(ds[i].entries));
      copies := copies + [d];
    }
  }

  /** The first item refused after a run of rewritten ones is where the
      rewrite stops, with that item's error. */
  lemma StopsAt(items: seq<Item>, i: nat)
    requires i < |items| && i <= FirstFailure(items) && ReformatOne(items[i]).Err?
    ensures i == FirstFailure(items)
    ensures ReformatAll(items).Err? && ReformatAll(items).error == ReformatOne(items[i]).error
  {
  }

  /** The items with the first `n` rewritten and the others as they were:
      what the rewrite loop leaves behind when it stops after `n` items. */
  function Progress(items: seq<Item>, n: nat): (r: seq<Item>)
    requires n <= FirstFailure(items)
    ensures |r| == |items|
  {
    seq(|items|, k requires 0 <= k < |items| => if k < n then ReformatOne(items[k]).value else items[k])
  }

  /** One more successful rewrite extends the progress by one position. */
  lemma ProgressStep(items: seq<Item>, n: nat)
    requires n < FirstFailure(items)
    ensures Progress(items, n)[n] == items[n]
    ensures Progress(items, n + 1) == Progress(items, n)[n := ReformatOne(items[n]).value]
  {
    var a, b := Progress(items, n + 1), Progress(items, n)[n := ReformatOne(items[n]).value];
    forall k | 0 <= k < |items|
      ensures a[k] == b[k]
    {
    }
  }

  /** The dicts hold `contents`, position by position. */
  predicate Holds(ds: seq<NewsDict>, contents: seq<Item>)
    reads set d | d in ds
  {
    |contents| == |ds| && forall k :: 0 <= k < |ds| ==> ds[k].entries == contents[k]
  }

  /** The date rewrite on the dicts themselves (src/main.py:37-38). With no
      dict listed twice, the dicts before the first refused one are
      rewritten, the rest keep their contents, and the refusal is the error
      returned. */
  method ReformatPubDates(ds: seq<NewsDict>) returns (err: Option<Error>)
    modifies set d | d in ds
    ensures Distinct(ds) ==> (err.None? <==> ReformatAll(old(Entries(ds))).Ok?)
    ensures Distinct(ds) && err.Some? ==> err.value == ReformatAll(old(Entries(ds))).error
    ensures Distinct(ds) ==> Holds(ds, Progress(old(Entries(ds)), FirstFailure(old(Entries(ds)))))
  {
    ghost var before := Entries(ds);
    ghost var cur := before;
    for i := 0 to |ds|
      invariant |cur| == |ds|
      invariant Distinct(ds) ==> i <= FirstFailure(before) && cur == Progress(before, i) && Holds(ds, cur)
    {
      var e := ds[i].RewriteDate();
      if Distinct(ds) {
        forall k | 0 <= k < |ds| && k != i
          ensures ds[k].entries == cur[k]
        {
          assert ds[k] != ds[i];
        }
      }
      if e.Some? {
        if Distinct(ds) {
          StopsAt(before, i);
        }
        return e;
      }
      if Distinct(ds) {
        assert i != FirstFailure(before);
        ProgressStep(before, i);
      }
      cur := cur[i := ds[i].entries];
    }
    return None;
  }

  /** Rewriting the dates of the dicts to show and emitting them
      (src/main.py:37-53). With no dict listed twice, the output is
      `ShowSpec` of their former contents, and the dicts the rewrite got to
      hold their readable dates afterwards. */
  method ShowItems(ds: seq<NewsDict>, toJson: bool) returns (r: Result<Output>)
    modifies set d | d in ds
    ensures Distinct(ds) ==> r == ShowSpec(old(Entries(ds)), toJson)
    ensures Distinct(ds) ==> Holds(ds, Progress(old(Entries(ds)), FirstFailure(old(Entries(ds)))))
  {
    ghost var before := Entries(ds);
    var err := ReformatPubDates(ds);
    if err.Some? {
      return Err(err.value);
    }
    var after := Entries(ds);
    assert Distinct(ds) ==> after == ReformatAll(before).value;
    if toJson {
      return Ok(Json(after));
    }
    var text := RenderAll(after);
    match text
    case Err(e) => return Err(e);
    case Ok(t) => return Ok(Plain(t));
  }

  /** `print_news` (src/main.py:21-53). The caller's dicts are left alone in
      concise mode; in verbose mode, with no dict listed twice, the output
      is that of `PrintNewsSpec` on their former contents and each dict the
      rewrite got to holds its readable date afterwards. */
  method PrintNews(newsItems: seq<NewsDict>, toJson: bool, verbose: bool) returns (r: Result<Output>)
    modifies set d | d in newsItems
    ensures !verbose ==> forall d :: d in newsItems ==> d.entries == old(d.entries)
    ensures !verbose || Distinct(newsItems) ==> r == PrintNewsSpec(old(Entries(newsItems)), toJson, verbose)
    ensures verbose && Distinct(newsItems) ==>
      Holds(newsItems, Progress(old(Entries(newsItems)), FirstFailure(old(Entries(newsItems)))))
  {
    if verbose {
      r := ShowItems(newsItems, toJson);
    } else {
      var copies := ConciseCopies(newsItems);
      assert Entries(copies) == Shown(Entries(newsItems), false);
      r := ShowItems(copies, toJson);
    }
  }
}
