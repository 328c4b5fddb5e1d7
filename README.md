# RSS reader core in Dafny

A model of the core of a command-line RSS reader, with proofs about it. The reader
parses the `<item>` elements of a feed into news dicts (`parse_item`,
`rss_parser`). It converts feed dates such as `Mon, 29 Jun 2020 22:10:00 +0300`
to the compact form `20200629` (`complex_to_simple_date`), and compact dates to
the readable form `2020-June-29` (`simple_to_readable_date`). It keeps a CSV
cache of news rows (`CacheManager`). Caching a batch tags every row with its
source URL, appends the rows to what is stored and drops repeated links, keeping
the first occurrence. Retrieval keeps the rows whose date contains the query
text, optionally narrowed to one source. Finally, it shows news either concise
or verbose, as JSON or as labelled text (`print_news`).

Modules, one per file:

- `Common` (`common.dfy`): `Option`, `Result` and the errors the source can raise.
  It also holds subsequences, and the first-error-stops collection of results
  that a Python list comprehension performs.
- `Items` (`items.dfy`): a news dict, as the sequence of its entries in insertion
  order, with `get` and item assignment.
- `Dates` (`dates.dfy`): the two date conversions of `src/utils.py`, the
  `strptime`/`strftime` formats they use, and the calendar those formats check.
- `FeedParser` (`feed_parser.dfy`): `parse_item` as a method over the children of
  an item, proved equal to a fold over the six tags, and `rss_parser`'s limit.
- `Cache` (`cache_manager.dfy`): the merge and filter on row sequences, and a
  `CacheManager` class whose `table` field stands for the cache file's content.
  `None` means the file does not exist.
- `Presenter` (`presenter.dfy`): `print_news` on mutable `NewsDict` objects,
  specified by functions on item values.

Two behaviours of the code are worth stating plainly:

- On a repeated link the row already cached wins over the new one.
  `drop_duplicates(subset=['link'])` keeps the first occurrence, and the cached
  rows come first in the concatenation, so a cached row beats a new row with
  the same link.
- A negative `limit` keeps one item. `find_all` stops once its result count
  reaches a truthy limit, so any negative limit stops after the first item.

## Model

| member | source | states |
|---|---|---|
| Common.FirstError | src/rss_reader.py:39 | The position of the first failed result: every earlier result succeeded, and the one there failed, unless it is the end. |
| Common.Collect | src/rss_reader.py:39 | All values, position by position, when every result succeeded. Otherwise exactly the error of the first failure. |
| Items.Get | src/main.py:38 | `d.get(key)` finds a value exactly when the key is in the dict, and the value found is stored under that key. |
| Items.Set | src/rss_reader.py:20-24 | After `d[key] = v`, looking up `key` gives `v`, and every other key gives what it gave before. |
| Items.GetAt | src/main.py:38 | `d.get(key)` reads the first entry carrying the key, wherever it is. |
| Items.SetAt | src/main.py:38 | `d[key] = v` on a key already present replaces that entry in place. |
| Items.SetKeys | src/rss_reader.py:20-24 | Assignment keeps the insertion order. An existing key stays where it was, and a new key goes last. |
| Dates.ParseFeedDate | src/utils.py:6 | `strptime` with `%a, %d %b %Y %H:%M:%S %z` succeeds only on text of that layout whose fields form a valid date and time. Weekday and month are matched by abbreviation, ignoring case. Every other field is read from its own position, including the signed offset. |
| Dates.FormatFeedDate | src/utils.py:6 | Any valid timestamp can be written in the feed layout, with each field at the position the parser reads it from. |
| Dates.FeedDateRoundTrip | src/utils.py:6 | Parsing the written form of any valid timestamp gives it back. Any weekday is accepted with any date, and the offset stays apart from the calendar fields. |
| Dates.CompactDate | src/utils.py:6 | `%Y%m%d` gives eight digits holding the year, the month and the day. |
| Dates.ComplexToSimpleDate | src/utils.py:4-6 | Fails exactly when the feed date does not parse. On success the result is eight digits. The year and day are copied from the feed text, and the month is the number of the month name written there. |
| Dates.ParseCompactDate | src/utils.py:11 | `strptime` with `%Y%m%d`, read on the eight-digit spelling: it accepts the eight-digit compact forms of valid dates and gives back the date written. |
| Dates.CompactDateRoundTrip | src/utils.py:6-11 | Reading back a written compact date gives the date. |
| Dates.SimpleToReadableDate | src/utils.py:9-11 | Fails when the text is not the eight-digit compact form of a valid date. Otherwise the result is the year, the English month name and the day, joined by `-`. |
| Dates.ReadableDate | src/utils.py:11 | `strftime('%Y-%B-%d')` writes at least eleven characters: four year digits, a dash, the month name, a dash and two day digits. |
| Dates.ReadableDateParts | src/utils.py:11 | The readable form reads back: its first four characters are the year's digits, the month name sits between the two dashes, and the last two characters are the day's digits. |
| Dates.FeedDateConversions | src/utils.py:4-11 | For every valid timestamp, the compact form of its feed text and the readable form of that depend only on its date, never on its offset. |
| Dates.ComplexThenReadable | src/utils.py:4-11 | Whatever `complex_to_simple_date` accepts, `simple_to_readable_date` accepts its output. The pair gives the readable form of the date written in the feed text. |
| Dates.ComplexToSimpleExample | tests/test_utils.py:4-10 | `Mon, 29 Jun 2020 22:10:00 +0300` converts to `20200629`. |
| Dates.OffsetDoesNotShiftExample | tests/test_rss_reader.py:41 | `Wed, 02 Oct 2002 15:00:00 +0200` converts to `20021002`. |
| Dates.ReadableOffsetExample | tests/test_main.py:18-32 | `20021002` reads as `2002-October-02`. |
| Dates.SimpleToReadableExample | tests/test_utils.py:13-19 | `20200629` reads as `2020-June-29`. |
| Dates.MonthThirteenExample | src/utils.py:11 | Month 13 is refused. |
| Dates.AprilThirtyFirstExample | src/utils.py:11 | 31 April is refused. |
| Dates.CommonYearExample | src/utils.py:11 | 29 February 2021 is refused. |
| Dates.LeapDayExample | src/utils.py:11 | 29 February 2020 reads as `2020-February-29`. |
| Dates.NewYearExample | tests/test_main.py:113-122 | `20210101` reads as `2021-January-01`. |
| FeedParser.Find | src/rss_reader.py:16 | `item.find(tag)` gives the first child with that name, or nothing when no child has it. |
| FeedParser.AllTextsStartWithFind | src/rss_reader.py:16-20 | `find_all` finds something exactly when `find` does, and its first text is the text `find` sees. |
| FeedParser.AllTextsElements | src/rss_reader.py:20 | The texts `find_all` collects are exactly those of the children with the tag's name. |
| FeedParser.AllTexts | src/rss_reader.py:20 | `[cat.text for cat in item.find_all(tag)]` has at most one text per child; `AllTextsElements` states which texts and `AllTextsAppend` their order. |
| FeedParser.AllTextsAppend | src/rss_reader.py:19-20 | One text per matching child, in document order: the texts of two runs of children are those of the first run, then those of the second. |
| FeedParser.RepeatedCategory | src/rss_reader.py:19-20 | Two `<category>News</category>` children give `['News', 'News']`: repeated texts are all kept. |
| FeedParser.FindAt | src/rss_reader.py:16 | `find` returns the first child carrying the name, wherever it is. |
| FeedParser.AllTextsOnly | src/rss_reader.py:20 | A tag carried by one child only gives that child's text alone. |
| FeedParser.AllTextsNone | src/rss_reader.py:20 | A tag no child carries gives no texts. |
| FeedParser.FieldValue | src/rss_reader.py:16-24 | A tag gets a field exactly when `find` finds it with non-empty text. `author` and `category` get the list of all their texts. `pubDate` raises exactly when it is found with non-empty text that does not convert, and otherwise holds the converted date. Only `pubDate` can raise. Every other tag gets its text. |
| FeedParser.ItemFields | src/rss_reader.py:14-24 | The dict after visiting the given tags in order, or the first exception; `ItemFieldsValues`, `ItemFieldsOrder` and `ItemFieldsError` state its contents. |
| FeedParser.ItemFieldsStep | src/rss_reader.py:15-24 | Visiting one more tag is one more step of the loop. |
| FeedParser.ParseItem | src/rss_reader.py:6-25 | The loop over the six tags returns the value of the fold over them, or its first exception. |
| FeedParser.ErrorStops | src/rss_reader.py:15-22 | Once a tag has raised, the walk ends with that same exception. |
| FeedParser.ItemFieldsError | src/rss_reader.py:15-24 | The walk raises exactly when one of its tags raises. |
| FeedParser.ItemFieldsValues | src/rss_reader.py:15-24 | After the walk, every visited tag holds exactly its field value, or nothing, and no other key is present. |
| FeedParser.ItemFieldsOrder | src/rss_reader.py:12-24 | The keys of the dict come in visiting order. |
| FeedParser.ItemRecord | src/rss_reader.py:12-25 | `parse_item` as a value: it raises only when the first `pubDate` is found and its text does not convert. |
| FeedParser.ItemRecordFields | src/rss_reader.py:12-25 | `parse_item` raises exactly when the first `pubDate` has non-empty text that does not convert. Otherwise each of the six tags holds its field value, no other key is present, and keys keep the tag order. |
| FeedParser.ItemRecordDate | src/rss_reader.py:21-22 | The stored date is present exactly when a non-empty `pubDate` is found, and it is that text converted. |
| FeedParser.FullItem | src/rss_reader.py:12-25 | An item with non-empty text under all six tags and a date that converts gives a dict whose keys are the six tags, in order. |
| FeedParser.EveryTagKept | src/rss_reader.py:12-25 | When every tag has non-empty text, the keys are exactly the tags in their order. |
| FeedParser.PubDateValue | src/rss_reader.py:21-22 | A found, non-empty date that converts is stored converted. |
| FeedParser.TextField | src/rss_reader.py:23-24 | A text field found with non-empty text is stored as that text. |
| FeedParser.ListField | src/rss_reader.py:19-20 | A list field whose single element is non-empty is stored as a one-text list. |
| FeedParser.RecordValue | src/rss_reader.py:12-25 | Every tag of a parsed item holds its own field value. |
| FeedParser.RecordOfSingleTags | tests/test_rss_reader.py:26-42 | Take any item whose six tags are found with non-empty text, whose author and category occur once, and whose date converts. It gives exactly six fields: the date converted, author and category as one-text lists, and the others as their texts. |
| FeedParser.Bound | src/rss_reader.py:39 | How many items `find_all('item', limit=...)` keeps is at least one whenever it is bounded. No limit or a limit of 0 keeps all, a positive limit keeps that many, and a negative one keeps one. |
| FeedParser.Selected | src/rss_reader.py:39 | The items kept are the feed's first ones, in order. There are as many as the bound allows, or all of them when unbounded. |
| FeedParser.Records | src/rss_reader.py:39 | Each item's `parse_item` result, position by position; `ParseAll` states what the comprehension makes of them. |
| FeedParser.ParseAll | src/rss_reader.py:39 | The comprehension gives every item's record in order, or the exception of the first item that raises, after items that all parsed. |
| FeedParser.RssParser | src/rss_reader.py:28-39 | `rss_parser` succeeds exactly when every item `find_all` selects parses, and then returns one record per selected item: at most as many as the feed has items and as the bound allows, and all of them when unbounded. Each record is the parse of the item at the same position. |
| FeedParser.RssParserPrefix | src/rss_reader.py:39 | With a positive limit, once the items up to the limit parse, the result has `min(items, limit)` records; items past the limit are never parsed. |
| FeedParser.BadItemPastLimit | src/rss_reader.py:39 | An item with a bad date after the limit cannot raise: a limit of 2 over two good items and a bad one succeeds with two records, while no limit raises. |
| FeedParser.LimitTwoOfThree | tests/test_rss_reader.py:45-54 | A limit of 2 over three items that parse gives two records. |
| Cache.LinkSetMembers | src/cache_manager.py:38 | The link set of a table holds exactly the links of its rows. |
| Cache.LinkSetAppend | src/cache_manager.py:38 | The links of a concatenation are the links of both parts. |
| Cache.UniqueCons | src/cache_manager.py:38 | In a table with unique links, the first row's link is not in the rest. |
| Cache.UniqueCount | src/cache_manager.py:38 | A table with unique links has as many rows as links. |
| Cache.Tagged | src/cache_manager.py:35-36 | Every row of the batch gets `source_url` set to the URL, and every other column is unchanged. |
| Cache.SameLinks | src/cache_manager.py:36-38 | Tables with the same links at each position have the same link set and the same uniqueness. |
| Cache.TaggedLinks | src/cache_manager.py:36 | Tagging does not touch links. |
| Cache.DedupFrom | src/cache_manager.py:38 | `drop_duplicates(subset=['link'])` after the links already seen: it never adds rows. |
| Cache.DedupSubsequence | src/cache_manager.py:38 | `drop_duplicates` keeps rows in their order, as a subsequence. |
| Cache.DedupLinks | src/cache_manager.py:38 | Every link not already seen survives, and each survives exactly once. |
| Cache.DedupFirstWins | src/cache_manager.py:38 | The first row carrying a link is the one kept. |
| Cache.DedupPrefix | src/cache_manager.py:38 | A prefix with unique links and no link seen before passes through whole. |
| Cache.DedupCons | src/cache_manager.py:38 | A row with a new link is kept, and its link counts as seen afterwards. |
| Cache.Merge | src/cache_manager.py:35-38 | The new table is a subsequence of the stored rows followed by the tagged batch. |
| Cache.MergeUnique | src/cache_manager.py:35-38 | After caching, every link occurs once, and the links are those of the stored rows and the batch. |
| Cache.MergeCount | src/cache_manager.py:38 | The cache holds one row per distinct link of the stored rows and the batch. |
| Cache.MergeKeepsCached | src/cache_manager.py:35-38 | Stored rows with unique links all survive, unchanged and in order, as the prefix of the new table. The rest is batch rows in batch order, each tagged with the source URL and carrying a link not stored before. |
| Cache.MergeFirstWins | src/cache_manager.py:38 | On a collision, the first row with a link among the stored rows followed by the tagged batch is kept. |
| Cache.MergeIdempotent | src/cache_manager.py:35-38 | Caching the same batch from the same source again leaves the table as it was. |
| Cache.MergeTwiceCount | tests/test_cache_manager.py:51-61 | A batch with distinct links, cached twice starting from no file, leaves exactly one row per item. |
| Cache.Stored | src/cache_manager.py:30-33 | A missing file reads as an empty table, an existing one as its rows; `CacheManager.CacheNews` and `MergeTwiceCount` state what caching makes of them. |
| Cache.Contains | src/cache_manager.py:61 | `str.contains` on a literal piece: a contained piece is never longer than the text. |
| Cache.ContainsSameLength | src/cache_manager.py:61 | Between texts of equal length, containment is equality. |
| Cache.Filter | src/cache_manager.py:59-65 | The retrieved rows are a subsequence of the table. A row is retrieved exactly when its date contains the query and, when a non-empty source is given, its `source_url` is that source. |
| Cache.FilterCount | src/cache_manager.py:61-65 | The mask keeps every copy of a matching row and no copy of any other row. |
| Cache.FilterExactDate | tests/test_cache_manager.py:64-81 | When every stored date is as long as the query, as with compact dates, only rows of exactly that date are retrieved. |
| Cache.CacheManager.constructor | src/cache_manager.py:14-16 | The manager is bound to the given cache file and sees its current content. |
| Cache.CacheManager.Default | src/cache_manager.py:14 | Without a file name the manager uses `data/news_cache.csv`. |
| Cache.CacheManager.CacheNews | src/cache_manager.py:18-43 | The file then holds the merge of what it held, or of nothing when it was missing, with the tagged batch, and its links are distinct. |
| Cache.CacheManager.RetrieveNewsFromCache | src/cache_manager.py:45-65 | No rows when the file is missing. Otherwise a subsequence of the file's rows, holding exactly the rows whose date contains the query and, when a non-empty source is given, whose source is that URL, with every copy of such a row kept. |
| Presenter.Concise | src/main.py:33-35 | The concise copy holds exactly the item's `title`, `pubDate` and `link` fields, in the item's order. |
| Presenter.ConciseGet | src/main.py:34-35 | Looking up a concise key in the concise copy finds what the item holds, and any other key finds nothing. |
| Presenter.Shown | src/main.py:33-35 | Each item is shown whole in verbose mode and as its concise copy otherwise; `ShownFields` states the fields shown. |
| Presenter.ReformatOne | src/main.py:38 | The rewrite of one dict's date; `ReformatOneSpec` states when it fails and what it changes. |
| Presenter.ReformatOneSpec | src/main.py:38 | Rewriting an item's date fails for a missing date (`simple_to_readable_date('')`), for a list value, and for a text that is not a compact date. On success the date is the readable form, and only that value changes: the keys and every other field stay as they were. |
| Presenter.Rewrites | src/main.py:37-38 | The rewrite of each item on its own, position by position; `FirstFailure` and `ReformatAll` state where the loop stops and what it gives. |
| Presenter.FirstFailure | src/main.py:37-38 | How many items the loop rewrites before the first refusal: all earlier ones succeed, and the one there fails. |
| Presenter.ReformatAll | src/main.py:37-38 | The loop gives every item rewritten, or exactly the error of the first item refused. |
| Presenter.StopsAt | src/main.py:37-38 | The first item refused after a run of rewritten ones is where the loop stops, with that item's error. |
| Presenter.NewsDict.constructor | src/main.py:21 | A dict holding the given entries. |
| Presenter.NewsDict.RewriteDate | src/main.py:38 | The dict's date is rewritten in place when the rewrite succeeds. It is left as it was, and the error returned, when it fails. |
| Presenter.ConciseCopies | src/main.py:33-35 | Concise mode builds new, distinct dicts, each the concise copy of its item. |
| Presenter.ProgressStep | src/main.py:37-38 | One more successful rewrite changes exactly one more dict. |
| Presenter.ReformatPubDates | src/main.py:37-38 | The loop fails exactly when the rewrite of the items does, with the same error. The dicts then hold their items with every date before the first refusal rewritten, and the rest unchanged. |
| Presenter.ValueText | src/main.py:53 | A text value prints as itself, and a list prints between square brackets. |
| Presenter.FieldLine | src/main.py:53 | `f"{tags_map[key]}: {value}"`; `ConciseLines` and `RenderedLines` state the lines it gives. |
| Presenter.ItemLines | src/main.py:52-53 | An item's lines are one per field, in key order, and exist exactly when every key has a label. Otherwise the first unlabelled key raises `KeyError`. |
| Presenter.RenderItem | src/main.py:52-53 | An item's block exists exactly when its lines do, and fails with their error otherwise. |
| Presenter.RenderAll | src/main.py:52-53 | The text output exists exactly when every item's block does. Otherwise the error is that of the first item whose block fails, all earlier blocks existing. |
| Presenter.RenderAllUncons | src/main.py:52-53 | The text of several items is the first one's block, then the text of the rest. |
| Presenter.RenderAllAppend | src/main.py:52-53 | The text of several items is their blocks in item order: rendering two runs of items gives the text of the first, then that of the second. |
| Presenter.Join | src/main.py:53 | `"\n".join(lines)`; `SplitJoin` states that the lines read back. |
| Presenter.SplitLines | src/main.py:53 | Splitting a text at newlines gives at least one line. |
| Presenter.SplitPrefix | src/main.py:53 | A newline-free prefix is glued to the first line. |
| Presenter.SplitJoin | src/main.py:53 | Splitting newline-joined, newline-free lines gives the lines back. |
| Presenter.JoinBlankLine | src/main.py:53 | The lines, joined, followed by a blank line, equal the lines joined with two empty lines added. |
| Presenter.LabelNoNewline | src/main.py:43-51 | A label holds no newline. |
| Presenter.QuotedListNoNewline | src/main.py:53 | A list of newline-free texts prints without a newline. |
| Presenter.RenderedLines | src/main.py:52-53 | The printed block of an item whose values hold no newline is one line per field, followed by a blank line. |
| Presenter.ShowSpec | src/main.py:37-53 | The output of the shown items: every date is rewritten first. The output is then the JSON value of the items, or their text blocks, and it fails exactly when a rewrite or a label lookup does. |
| Presenter.PrintNewsSpec | src/main.py:21-53 | `print_news` on item values succeeds only when every shown item's date rewrites. JSON output holds one item per input item. |
| Presenter.ShownFields | src/main.py:33-38 | Each shown item has all of the item's keys in verbose mode, and only the concise ones otherwise. Every shown field but the date keeps its value, no other key appears, and the date is the readable form of the stored one. |
| Presenter.ConciseOfConcise | src/main.py:33-35 | An item holding only concise keys is its own concise copy. |
| Presenter.ConciseItemOutput | src/main.py:33-53 | In concise mode, one item with a title, a link and a compact date that converts prints `Title: `, `Link: ` and `Publish Date: ` lines with the readable date, then a blank line. As JSON it is the same item with its date made readable. |
| Presenter.ConciseRewritten | src/main.py:33-38 | The concise copy of such an item is itself, and its rewrite replaces only the date. |
| Presenter.DateRewritten | src/main.py:38 | Rewriting the date of such an item replaces the date by its readable form in place. |
| Presenter.ReformatSingle | src/main.py:37-38 | A loop over one item whose rewrite succeeds gives that rewritten item. |
| Presenter.RenderedConcise | src/main.py:52-53 | The block of a title, a link and a date is the three labelled lines joined by newlines, then a blank line. |
| Presenter.ConciseLines | src/main.py:53 | The lines of a title, a link and a date carry the labels `Title`, `Link` and `Publish Date`. |
| Presenter.PrintNewsExample | tests/test_main.py:113-122 | The item `Test Title`, `http://example.com`, `20210101` prints as `Title: Test Title`, `Link: http://example.com`, `Publish Date: 2021-January-01` and a blank line. As JSON it has the date `2021-January-01`. |
| Presenter.ShowItems | src/main.py:37-53 | Rewriting the dicts to show and emitting them gives what `ShowSpec` says of their contents. The dicts are left as the rewrite loop leaves them. |
| Presenter.PrintNews | src/main.py:21-53 | In concise mode the caller's dicts are untouched. The result is what `PrintNewsSpec` says of the dicts' contents. In verbose mode the caller's dicts end as the rewrite loop leaves them. |

## Left out

- The network fetch (`fetch_rss_xml`), argument parsing, `main`, logging
  (`log_verbose`) and the demonstration code under `__main__` are outside this
  model.
- `FeedParser.ParseItem` works on an item's direct children as (name, text)
  pairs. It leaves out XML parsing with BeautifulSoup and lxml, and the search
  of nested descendants by `find`/`find_all`. `.text` of an element with nested
  markup is taken as given.
- `FeedParser.RssParser` takes the items of an already parsed document. Turning
  raw markup into `<item>` elements is not modelled.
- `Dates.ParseFeedDate` reads only the fixed-width spelling with two-digit
  fields, single spaces and a `+HHMM`/`-HHMM` offset. `strptime` also accepts a
  one-digit day, hour, minute or second, a space-padded day, any run of
  whitespace where the format has a space, `Z`, `+HH:MM` and seconds offsets,
  and non-ASCII decimal digits, which its `\d` matches and `int` converts.
  Those inputs are refused by the model. Like `strptime`, the model rejects
  leading whitespace and trailing text. Leap seconds are not accepted, as
  `datetime` refuses them too.
- Dates.ParseCompactDate, Dates.SimpleToReadableDate: variable-width spellings
  that `strptime('%Y%m%d')` accepts, such as `2020629` or a space-padded day
  in `202006 9`, are refused, and so are non-ASCII decimal digits. Only the
  eight-digit ASCII form is read.
- `Dates.CompactDate` and `Dates.ReadableDate` always write the year with four
  digits. The C library's `%Y` may write years below 1000 without padding.
- `Cache.CacheManager.CacheNews` holds the table as rows. The CSV
  representation is not modelled:
  - pandas `NaN` for a missing column;
  - lists written as their `str` form and read back as text;
  - column dtypes.
- `Cache.CacheManager.CacheNews` never fails. Failures of reading or writing the
  file are not modelled, nor is the message printed when an exception is
  caught. `cache_news` catches every exception and does not raise either.
- `Cache.CacheManager.RetrieveNewsFromCache` requires every stored row to have
  a text date. pandas' handling of a missing date in `str.contains` is not
  modelled. The message printed for a missing file is not modelled either.
- `Cache.Filter` treats the query date as a literal piece of text.
  `str.contains` reads it as a regular expression, which differs only for
  queries holding regular-expression syntax.
- `Presenter.ValueText` always writes a list element as its raw characters
  between single quotes. Python's `repr` switches to double quotes or escapes
  for texts holding quotes or backslashes, and writes newline, tab and other
  non-printable characters as escapes (`'a\nb'`). A list element holding a line
  break therefore prints on one line in Python and on two in the model.
- `Presenter.RenderAll` returns the error alone when an item has an unlabelled
  key. `print_news` has by then already printed the blocks of the items before
  it.
- `Presenter.PrintNews`, `Presenter.ShowItems` and
  `Presenter.ReformatPubDates` state nothing about the result, in verbose mode,
  when the same dict object is listed twice. In that case the second rewrite
  sees the already readable date of the first.
- The JSON text that `json.dumps(..., indent=2)` produces, and the printing
  itself, are left out. `Output` holds the items emitted, or the text printed.
