/** The news cache: a table of rows persisted as a CSV file. Caching appends
    a batch tagged with its source URL and drops every row whose `link`
    already occurred earlier (pandas' `drop_duplicates(subset=['link'])`
    with its default `keep='first'`), so a row already in the cache beats a
    newer row with the same link. Retrieval filters the rows, in stored
    order, by a date substring and optionally by source URL.

    A row is a dict (`Items.Item`); a field the CSV leaves empty (pandas'
    NaN) is an absent key, and two rows without a link share the link key
    `None`, as pandas treats NaN links as equal. */
module Cache {
  import opened Common
  import opened Items

  /** The cache file a manager uses when none is given. */
  const DefaultCacheFile: string := "data/news_cache.csv"

  // ----- links -----

  /** The key rows are deduplicated by. */
  function Link(row: Item): Option<Value>
  {
    Get(row, "link")
  }

  /** The links occurring in `rows`. */
  function LinkSet(rows: seq<Item>): set<Option<Value>>
  {
    if rows == [] then {} else {Link(rows[0])} + LinkSet(rows[1..])
  }

  /** The links of `rows` are exactly the links of its rows. */
  lemma {:induction false} LinkSetMembers(rows: seq<Item>)
    ensures forall i :: 0 <= i < |rows| ==> Link(rows[i]) in LinkSet(rows)
    ensures forall l :: l in LinkSet(rows) ==> exists i :: 0 <= i < |rows| && Link(rows[i]) == l
    decreases |rows|
  {
    if rows != [] {
      LinkSetMembers(rows[1..]);
      assert forall i :: 1 <= i < |rows| ==> rows[i] == rows[1..][i - 1];
    }
  }

  /** No two rows share a link. */
  predicate UniqueLinks(rows: seq<Item>)
  {
    forall i, j :: 0 <= i < j < |rows| ==> Link(rows[i]) != Link(rows[j])
  }

  lemma {:induction false} LinkSetAppend(a: seq<Item>, b: seq<Item>)
    ensures LinkSet(a + b) == LinkSet(a) + LinkSet(b)
    decreases |a|
  {
    if a == [] {
      assert a + b == b;
    } else {
      LinkSetAppend(a[1..], b);
      assert (a + b)[0] == a[0] && (a + b)[1..] == a[1..] + b;
      assert LinkSet(a + b) == {Link(a[0])} + LinkSet(a[1..] + b);
    }
  }

  /** The head of a row sequence with unique links has a link the tail lacks. */
  lemma UniqueCons(rows: seq<Item>)
    requires rows != [] && UniqueLinks(rows)
    ensures UniqueLinks(rows[1..]) && Link(rows[0]) !in LinkSet(rows[1..])
  {
    LinkSetMembers(rows[1..]);
    assert forall i :: 0 <= i < |rows[1..]| ==> rows[1..][i] == rows[i + 1];
  }

  /** With unique links there are as many rows as links. */
  lemma {:induction false} UniqueCount(rows: seq<Item>)
    requires UniqueLinks(rows)
    ensures |LinkSet(rows)| == |rows|
    decreases |rows|
  {
    if rows != [] {
      UniqueCons(rows);
      UniqueCount(rows[1..]);
    }
  }

  // ----- tagging a batch -----

  /** The batch as a table with a `source_url` column holding `url`
      (src/cache_manager.py:35-36). */
  function Tagged(items: seq<Item>, url: string): (r: seq<Item>)
    ensures |r| == |items|
    ensures forall i :: 0 <= i < |items| ==> Get(r[i], "source_url") == Some(Text(url))
    ensures forall i, k :: 0 <= i < |items| && k != "source_url" ==> Get(r[i], k) == Get(items[i], k)
  {
    seq(|items|, i requires 0 <= i < |items| => Set(items[i], "source_url", Text(url)))
  }

  /** Row sequences with the same links position by position have the same
      link set, and one has unique links when the other does. */
  lemma {:induction false} SameLinks(a: seq<Item>, b: seq<Item>)
    requires |a| == |b| && forall i :: 0 <= i < |a| ==> Link(a[i]) == Link(b[i])
    ensures LinkSet(a) == LinkSet(b)
    ensures UniqueLinks(a) ==> UniqueLinks(b)
    decreases |a|
  {
    if a != [] {
      assert forall i :: 0 <= i < |a| - 1 ==> a[1..][i] == a[i + 1] && b[1..][i] == b[i + 1];
      SameLinks(a[1..], b[1..]);
    }
  }

  /** Tagging does not touch links. */
  lemma TaggedLinks(items: seq<Item>, url: string)
    ensures forall i :: 0 <= i < |items| ==> Link(Tagged(items, url)[i]) == Link(items[i])
    ensures LinkSet(Tagged(items, url)) == LinkSet(items)
    ensures UniqueLinks(items) ==> UniqueLinks(Tagged(items, url))
  {
    var t := Tagged(items, url);
    assert forall i :: 0 <= i < |items| ==> Link(t[i]) == Link(items[i]);
    SameLinks(items, t);
  }

  // ----- dropping duplicate links -----

  /** The rows of `rows` whose link is neither in `seen` nor on an earlier
      row, in order: pandas' `drop_duplicates(subset=['link'])` when `seen`
      is empty. */
  function DedupFrom(seen: set<Option<Value>>, rows: seq<Item>): (r: seq<Item>)
    ensures |r| <= |rows|
    decreases |rows|
  {
    if rows == [] then []
    else if Link(rows[0]) in seen then DedupFrom(seen, rows[1..])
    else [rows[0]] + DedupFrom(seen + {Link(rows[0])}, rows[1..])
  }

  /** Deduplication keeps order: the result is a subsequence of the input. */
  lemma {:induction false} DedupSubsequence(seen: set<Option<Value>>, rows: seq<Item>)
    ensures IsSubsequence(DedupFrom(seen, rows), rows)
    decreases |rows|
  {
    if rows != [] {
      var r := DedupFrom(seen, rows);
      if Link(rows[0]) in seen {
        DedupSubsequence(seen, rows[1..]);
      } else {
        DedupSubsequence(seen + {Link(rows[0])}, rows[1..]);
        assert r[1..] == DedupFrom(seen + {Link(rows[0])}, rows[1..]);
      }
    }
  }

  /** Exactly the links not already seen survive, each once. */
  lemma {:induction false} DedupLinks(seen: set<Option<Value>>, rows: seq<Item>)
    ensures LinkSet(DedupFrom(seen, rows)) == LinkSet(rows) - seen
    ensures UniqueLinks(DedupFrom(seen, rows))
    decreases |rows|
  {
    if rows != [] {
      var l := Link(rows[0]);
      if l in seen {
        DedupLinks(seen, rows[1..]);
      } else {
        var rest := DedupFrom(seen + {l}, rows[1..]);
        DedupLinks(seen + {l}, rows[1..]);
        var r := [rows[0]] + rest;
        assert r[1..] == rest;
        LinkSetMembers(rest);
        assert forall j :: 1 <= j < |r| ==> r[j] == rest[j - 1];
        assert forall j :: 1 <= j < |r| ==> Link(r[j]) in LinkSet(rest);
      }
    }
  }

  /** The first row carrying a link not yet seen is the one kept. */
  lemma {:induction false} DedupFirstWins(seen: set<Option<Value>>, rows: seq<Item>, i: nat)
    requires i < |rows| && Link(rows[i]) !in seen
    requires forall j :: 0 <= j < i ==> Link(rows[j]) != Link(rows[i])
    ensures rows[i] in DedupFrom(seen, rows)
    decreases |rows|
  {
    if i > 0 {
      var seen' := if Link(rows[0]) in seen then seen else seen + {Link(rows[0])};
      assert forall j :: 0 <= j < i - 1 ==> rows[1..][j] == rows[j + 1];
      DedupFirstWins(seen', rows[1..], i - 1);
    }
  }

  /** A prefix with unique links and no seen link passes through whole. */
  lemma {:induction false} DedupPrefix(seen: set<Option<Value>>, a: seq<Item>, b: seq<Item>)
    requires UniqueLinks(a) && forall x :: x in a ==> Link(x) !in seen
    ensures DedupFrom(seen, a + b) == a + DedupFrom(seen + LinkSet(a), b)
    decreases |a|
  {
    if a == [] {
      assert a + b == b && seen + LinkSet(a) == seen;
      assert a + DedupFrom(seen, b) == DedupFrom(seen, b);
    } else {
      var l := Link(a[0]);
      UniqueCons(a);
      forall x | x in a[1..]
        ensures Link(x) !in seen + {l}
      {
        assert x in a;
      }
      assert a + b == [a[0]] + (a[1..] + b);
      calc {
        DedupFrom(seen, a + b);
        { DedupCons(seen, a[0], a[1..] + b); }
        [a[0]] + DedupFrom(seen + {l}, a[1..] + b);
        { DedupPrefix(seen + {l}, a[1..], b); }
        [a[0]] + (a[1..] + DedupFrom(seen + {l} + LinkSet(a[1..]), b));
        { assert seen + {l} + LinkSet(a[1..]) == seen + LinkSet(a); }
        [a[0]] + (a[1..] + DedupFrom(seen + LinkSet(a), b));
        { assert a == [a[0]] + a[1..]; }
        a + DedupFrom(seen + LinkSet(a), b);
      }
    }
  }

  /** A row whose link is new is kept, and its link becomes seen. */
  lemma DedupCons(seen: set<Option<Value>>, x: Item, rest: seq<Item>)
    requires Link(x) !in seen
    ensures DedupFrom(seen, [x] + rest) == [x] + DedupFrom(seen + {Link(x)}, rest)
  {
    assert ([x] + rest)[1..] == rest;
  }

  // ----- merging a batch into the table -----

  /** The table `cache_news` writes: the stored rows, then the batch tagged
      with `url`, without later duplicates of a link
      (src/cache_manager.py:35-38). */
  function Merge(cached: seq<Item>, items: seq<Item>, url: string): (r: seq<Item>)
    ensures IsSubsequence(r, cached + Tagged(items, url))
  {
    DedupSubsequence({}, cached + Tagged(items, url));
    DedupFrom({}, cached + Tagged(items, url))
  }

  /** After a merge every link occurs once, and the links are those of the
      stored rows and the batch. */
  lemma MergeUnique(cached: seq<Item>, items: seq<Item>, url: string)
    ensures UniqueLinks(Merge(cached, items, url))
    ensures LinkSet(Merge(cached, items, url)) == LinkSet(cached) + LinkSet(items)
  {
    DedupLinks({}, cached + Tagged(items, url));
    LinkSetAppend(cached, Tagged(items, url));
    TaggedLinks(items, url);
  }

  /** The table after a merge has one row per distinct link. */
  lemma MergeCount(cached: seq<Item>, items: seq<Item>, url: string)
    ensures |Merge(cached, items, url)| == |LinkSet(cached) + LinkSet(items)|
  {
    MergeUnique(cached, items, url);
    UniqueCount(Merge(cached, items, url));
  }

  /** Stored rows with unique links all survive, unchanged and in order, as
      the head of the new table; what follows are rows of the tagged batch,
      in batch order, each with the source URL and a link not stored before. */
  lemma MergeKeepsCached(cached: seq<Item>, items: seq<Item>, url: string)
    requires UniqueLinks(cached)
    ensures |Merge(cached, items, url)| >= |cached|
    ensures Merge(cached, items, url)[..|cached|] == cached
    ensures IsSubsequence(Merge(cached, items, url)[|cached|..], Tagged(items, url))
    ensures forall x :: x in Merge(cached, items, url)[|cached|..] ==>
      Get(x, "source_url") == Some(Text(url)) && Link(x) !in LinkSet(cached)
  {
    var t := Tagged(items, url);
    DedupPrefix({}, cached, t);
    assert {} + LinkSet(cached) == LinkSet(cached);
    var added := DedupFrom(LinkSet(cached), t);
    var m := Merge(cached, items, url);
    assert m == cached + added;
    assert m[..|cached|] == cached;
    assert m[|cached|..] == added;
    DedupSubsequence(LinkSet(cached), t);
    DedupLinks(LinkSet(cached), t);
    SubsequenceElements(added, t);
    LinkSetMembers(added);
    forall x | x in added
      ensures Get(x, "source_url") == Some(Text(url)) && Link(x) !in LinkSet(cached)
    {
      assert Link(x) in LinkSet(added);
    }
  }

  /** On a link collision the earlier row wins: the first row with a given
      link among the stored rows followed by the tagged batch is kept. */
  lemma MergeFirstWins(cached: seq<Item>, items: seq<Item>, url: string, i: nat)
    requires i < |cached| + |items|
    requires forall j :: 0 <= j < i ==>
      Link((cached + Tagged(items, url))[j]) != Link((cached + Tagged(items, url))[i])
    ensures (cached + Tagged(items, url))[i] in Merge(cached, items, url)
  {
    DedupFirstWins({}, cached + Tagged(items, url), i);
  }

  /** Caching the same batch again leaves the table as it was. */
  lemma MergeIdempotent(cached: seq<Item>, items: seq<Item>, url: string)
    ensures Merge(Merge(cached, items, url), items, url) == Merge(cached, items, url)
  {
    var m := Merge(cached, items, url);
    var t := Tagged(items, url);
    MergeUnique(cached, items, url);
    TaggedLinks(items, url);
    DedupPrefix({}, m, t);
    assert {} + LinkSet(m) == LinkSet(m);
    DedupLinks(LinkSet(m), t);
    var d := DedupFrom(LinkSet(m), t);
    assert LinkSet(d) == {};
    assert m + d == m;
  }

  /** A batch with distinct links, cached twice into a missing file, leaves
      exactly one row per item (tests/test_cache_manager.py:51-61). */
  lemma MergeTwiceCount(items: seq<Item>, url: string)
    requires UniqueLinks(items)
    ensures UniqueLinks(Merge(Merge([], items, url), items, url))
    ensures |Merge(Merge([], items, url), items, url)| == |items|
  {
    MergeIdempotent([], items, url);
    MergeUnique([], items, url);
    MergeCount([], items, url);
    UniqueCount(items);
    assert LinkSet([]) + LinkSet(items) == LinkSet(items);
  }

  /** The rows of a table, a missing file read as an empty table
      (src/cache_manager.py:30-33). */
  function Stored(table: Option<seq<Item>>): seq<Item>
  {
    if table.Some? then table.value else []
  }

  // ----- retrieval -----

  /** `text` contains `part` as a contiguous piece. */
  predicate Contains(text: string, part: string)
    ensures Contains(text, part) ==> |part| <= |text|
    decreases |text|
  {
    part <= text || (text != [] && Contains(text[1..], part))
  }

  /** Between texts of equal length, containment is equality. */
  lemma ContainsSameLength(text: string, part: string)
    requires |text| == |part|
    ensures Contains(text, part) <==> text == part
  {
  }

  /** The text of a row's date, when the row has one. */
  function PubDate(row: Item): Option<string>
  {
    match Get(row, "pubDate")
    case Some(Text(s)) => Some(s)
    case _ => None
  }

  /** A row passes the retrieval filter: its date contains `date` and, when
      a non-empty source URL is given, its `source_url` equals it
      (src/cache_manager.py:61-63). */
  predicate Matches(row: Item, date: string, sourceUrl: Option<string>)
    requires PubDate(row).Some?
  {
    Contains(PubDate(row).value, date) &&
    (sourceUrl.None? || sourceUrl.value == "" || Get(row, "source_url") == Some(Text(sourceUrl.value)))
  }

  /** The rows of `rows` that pass the filter, in order. */
  function Filter(rows: seq<Item>, date: string, sourceUrl: Option<string>): (r: seq<Item>)
    requires forall row :: row in rows ==> PubDate(row).Some?
    ensures IsSubsequence(r, rows)
    ensures forall row :: row in r <==> row in rows && Matches(row, date, sourceUrl)
    decreases |rows|
  {
    if rows == [] then []
    else
      var rest := Filter(rows[1..], date, sourceUrl);
      assert forall row :: row in rows <==> row == rows[0] || row in rows[1..];
      if Matches(rows[0], date, sourceUrl) then
        var r := [rows[0]] + rest;
        assert r[1..] == rest;
        r
      else rest
  }

  /** The filter keeps every copy of a matching row: a row comes back as
      many times as the table holds it, or not at all. */
  lemma {:induction false} FilterCount(rows: seq<Item>, date: string, sourceUrl: Option<string>)
    requires forall row :: row in rows ==> PubDate(row).Some?
    ensures forall row :: (multiset(Filter(rows, date, sourceUrl))[row] ==
      if row in rows && Matches(row, date, sourceUrl) then multiset(rows)[row] else 0)
    decreases |rows|
  {
    if rows != [] {
      FilterCount(rows[1..], date, sourceUrl);
      assert rows == [rows[0]] + rows[1..];
      assert multiset(rows) == multiset{rows[0]} + multiset(rows[1..]);
      var rest := Filter(rows[1..], date, sourceUrl);
      if Matches(rows[0], date, sourceUrl) {
        assert multiset(Filter(rows, date, sourceUrl)) == multiset{rows[0]} + multiset(rest);
      }
    }
  }

  /** When every stored date is as long as the query date, as with the
      8-character dates the reader stores, a date filter keeps exactly the
      rows of that date (tests/test_cache_manager.py:64-81). */
  lemma FilterExactDate(rows: seq<Item>, date: string, sourceUrl: Option<string>)
    requires forall row :: row in rows ==> PubDate(row).Some? && |PubDate(row).value| == |date|
    ensures forall row :: row in Filter(rows, date, sourceUrl) ==> PubDate(row) == Some(date)
  {
    forall row | row in Filter(rows, date, sourceUrl)
      ensures PubDate(row) == Some(date)
    {
      ContainsSameLength(PubDate(row).value, date);
    }
  }

  // ----- the manager -----

  /** A cache manager bound to one cache file. `table` is the content of
      that file: `None` while the file does not exist. */
  class CacheManager {
    const cacheFile: string
    var table: Option<seq<Item>>

    /** A manager for `cacheFile`, whose current content is `onDisk`
        (src/cache_manager.py:14-16). */
    constructor (cacheFile: string, onDisk: Option<seq<Item>>)
      ensures this.cacheFile == cacheFile && table == onDisk
    {
      this.cacheFile := cacheFile;
      table := onDisk;
    }

    /** A manager for the default cache file. */
    constructor Default(onDisk: Option<seq<Item>>)
      ensures cacheFile == DefaultCacheFile && table == onDisk
    {
      cacheFile := DefaultCacheFile;
      table := onDisk;
    }

    /** `cache_news` (src/cache_manager.py:18-43): the file then holds the
        stored rows (none if it was missing) and the tagged batch, with every
        later duplicate of a link dropped. The file always exists afterwards
        and its links are distinct. */
    method CacheNews(newsItems: seq<Item>, sourceUrl: string)
      modifies this
      ensures table == Some(Merge(Stored(old(table)), newsItems, sourceUrl))
      ensures UniqueLinks(table.value)
    {
      var combined := Stored(table) + Tagged(newsItems, sourceUrl);
      var kept: seq<Item> := [];
      var seen: set<Option<Value>> := {};
      for i := 0 to |combined|
        invariant kept + DedupFrom(seen, combined[i..]) == DedupFrom({}, combined)
      {
        var row := combined[i];
        assert combined[i..][0] == row && combined[i..][1..] == combined[i + 1..];
        if Link(row) !in seen {
          assert DedupFrom(seen, combined[i..]) == [row] + DedupFrom(seen + {Link(row)}, combined[i + 1..]);
          assert kept + ([row] + DedupFrom(seen + {Link(row)}, combined[i + 1..])) ==
            (kept + [row]) + DedupFrom(seen + {Link(row)}, combined[i + 1..]);
          kept := kept + [row];
          seen := seen + {Link(row)};
        }
      }
      assert DedupFrom(seen, combined[|combined|..]) == [];
      assert kept == DedupFrom({}, combined);
      table := Some(kept);
      MergeUnique(Stored(old(table)), newsItems, sourceUrl);
    }

    /** `retrieve_news_from_cache` (src/cache_manager.py:45-65): no rows when
        the file is missing; otherwise exactly the stored rows, in stored
        order, whose date contains `date` and, when a non-empty source URL is
        given, whose source is that URL. */
    function RetrieveNewsFromCache(date: string, sourceUrl: Option<string>): (r: seq<Item>)
      reads this
      requires table.Some? ==> forall row :: row in table.value ==> PubDate(row).Some?
      ensures table.None? ==> r == []
      ensures table.Some? ==> IsSubsequence(r, table.value)
      ensures table.Some? ==> forall row :: row in r <==>
        row in table.value && Contains(PubDate(row).value, date) &&
        (sourceUrl.None? || sourceUrl.value == "" || Get(row, "source_url") == Some(Text(sourceUrl.value)))
      ensures table.Some? ==> forall row :: (multiset(r)[row] ==
        if row in table.value && Matches(row, date, sourceUrl) then multiset(table.value)[row] else 0)
    {
      match table
      case None => []
      case Some(rows) =>
        FilterCount(rows, date, sourceUrl);
        Filter(rows, date, sourceUrl)
    }
  }
}
