/**
  The book record threaded through every stage of the book-writing agent,
  and the small value-level operations the stages share: truncation of
  context text, the outline-to-chapters map, the previous-chapter excerpt,
  the export file base name and the ascending traversal of the chapters.
 */
module BookModel {
  import opened Wrappers

  // The status tags written by the stages and read by the router.
  const Start := "start"
  const BookInfoCollected := "book_info_collected"
  const OutlineCreated := "outline_created"
  const ChapterWritten := "chapter_written"
  const AllChaptersWritten := "all_chapters_written"
  const Reviewed := "reviewed"
  const Exported := "exported"

  /** One entry of `chapters`: `{title, description, content}`. */
  datatype Chapter = Chapter(title: string, description: string, content: string)

  /** One object of the outline list the model returns. */
  datatype OutlineItem = OutlineItem(chapterNumber: int, chapterTitle: string, chapterDescription: string)

  /** The parsed book-information object; a key the reply lacks is `None`. */
  datatype BookInfo = BookInfo(title: Option<string>, genre: Option<string>, targetAudience: Option<string>)

  /** The value of `export_paths`. */
  datatype ExportPaths = ExportPaths(docx: string, pdf: string)

  /** The whole state dictionary; `exportPaths` is `None` while the key is absent. */
  datatype Book = Book(
    title: string,
    genre: string,
    targetAudience: string,
    outline: seq<OutlineItem>,
    chapters: map<int, Chapter>,
    currentChapter: int,
    status: string,
    feedback: string,
    exportPaths: Option<ExportPaths>)

  /** What the chapter prompt is made of, apart from its wording. */
  datatype ChapterRequest = ChapterRequest(
    bookTitle: string,
    genre: string,
    targetAudience: string,
    number: int,
    chapterTitle: string,
    chapterDescription: string,
    previousTitle: Option<string>,
    previous: Option<string>)

  /** The book's metadata that heads the outline and review prompts. */
  datatype BookHeader = BookHeader(title: string, genre: string, targetAudience: string)

  /** What `export_book` hands to the document writers: the metadata and the chapters in order. */
  datatype Document = Document(title: string, genre: string, targetAudience: string, chapters: seq<(int, Chapter)>)

  /** One chapter line of the summary the review prompt is built from. */
  datatype SummaryLine = SummaryLine(number: int, title: string, description: string)

  /** The exception a stage can raise: indexing `chapters` with a missing key. */
  datatype StageError = KeyError(key: int)

  /** The state `BookState()` creates. */
  function Fresh(): Book {
    Book("", "", "", [], map[], 0, Start, "", None)
  }

  /** The initial state of a run: a fresh state with each non-empty custom value written over it. */
  function Initial(customTitle: string, customGenre: string, customAudience: string): (b: Book)
    ensures b.status == Start && b.currentChapter == 0 && b.outline == [] && b.chapters == map[]
    ensures b.title == customTitle && b.genre == customGenre && b.targetAudience == customAudience
    ensures b.feedback == "" && b.exportPaths == None
  {
    var empty := Fresh();
    empty.(title := if customTitle != "" then customTitle else empty.title,
           genre := if customGenre != "" then customGenre else empty.genre,
           targetAudience := if customAudience != "" then customAudience else empty.targetAudience)
  }

  /** Python's `s[:n]` for `n >= 0`: the longest prefix of `s` of length at most `n`. */
  function Truncate(s: string, n: nat): (r: string)
    ensures |r| <= n && |r| <= |s|
    ensures r == s[..|r|]
    ensures |s| <= n ==> r == s
    ensures n <= |s| ==> |r| == n
  {
    if |s| <= n then s else s[..n]
  }

  /** The chapter a single outline item describes, with nothing written yet. */
  function ChapterOf(item: OutlineItem): Chapter {
    Chapter(item.chapterTitle, item.chapterDescription, "")
  }

  /** The distinct chapter numbers of an outline. */
  function Numbers(items: seq<OutlineItem>): set<int> {
    set i | 0 <= i < |items| :: items[i].chapterNumber
  }

  /**
    The dictionary comprehension `{item["chapter_number"]: {...} for item in items}`:
    items are taken in order, so a later item with the same number replaces an earlier one.
   */
  function ChapterMap(items: seq<OutlineItem>): (m: map<int, Chapter>)
    ensures m.Keys == Numbers(items)
    ensures forall k :: k in m ==> m[k].content == ""
  {
    if items == [] then map[]
    else
      var init := items[..|items| - 1];
      var last := items[|items| - 1];
      assert Numbers(items) == Numbers(init) + {last.chapterNumber} by {
        assert forall i :: 0 <= i < |init| ==> init[i] == items[i];
      }
      ChapterMap(init)[last.chapterNumber := ChapterOf(last)]
  }

  /** `items[i]` is the last outline item numbered `k`. */
  predicate IsLastWith(items: seq<OutlineItem>, i: int, k: int) {
    && 0 <= i < |items|
    && items[i].chapterNumber == k
    && forall j :: i < j < |items| ==> items[j].chapterNumber != k
  }

  /** The chapter stored under a number comes from the LAST outline item carrying that number. */
  lemma {:induction false} ChapterMapLastWins(items: seq<OutlineItem>, i: int, k: int)
    requires IsLastWith(items, i, k)
    ensures k in ChapterMap(items) && ChapterMap(items)[k] == ChapterOf(items[i])
  {
    if i < |items| - 1 {
      var init := items[..|items| - 1];
      assert init[i] == items[i];
      assert forall j :: i < j < |init| ==> init[j] == items[j];
      ChapterMapLastWins(init, i, k);
    }
  }

  /** Every stored chapter is the one of the last outline item with its number. */
  lemma {:induction false} ChapterMapEntry(items: seq<OutlineItem>, k: int)
    requires k in ChapterMap(items)
    ensures exists i :: IsLastWith(items, i, k) && ChapterMap(items)[k] == ChapterOf(items[i])
  {
    var n := |items| - 1;
    if items[n].chapterNumber == k {
      assert ChapterMap(items)[k] == ChapterOf(items[n]);
      assert IsLastWith(items, n, k);
    } else {
      var init := items[..n];
      assert k in ChapterMap(init) && ChapterMap(items)[k] == ChapterMap(init)[k];
      ChapterMapEntry(init, k);
      var i :| IsLastWith(init, i, k) && ChapterMap(init)[k] == ChapterOf(init[i]);
      LastWithExtends(items, i, k);
    }
  }

  /** The last item numbered `k` before the final item stays the last one when the final item has another number. */
  lemma LastWithExtends(items: seq<OutlineItem>, i: int, k: int)
    requires items != [] && items[|items| - 1].chapterNumber != k
    requires IsLastWith(items[..|items| - 1], i, k)
    ensures IsLastWith(items, i, k) && items[i] == items[..|items| - 1][i]
  {
    var init := items[..|items| - 1];
    forall j | i < j < |items| ensures items[j].chapterNumber != k {
      if j < |init| {
        assert items[j] == init[j];
      }
    }
  }

  /**
    The context handed to the chapter prompt: when the previous chapter exists and has
    content, its first 500 characters.
   */
  function PreviousExcerpt(chapters: map<int, Chapter>, current: int): (r: Option<string>)
    ensures r.Some? <==> current > 1 && current - 1 in chapters && chapters[current - 1].content != ""
    ensures r.Some? ==> |r.value| <= 500 && |r.value| <= |chapters[current - 1].content|
    ensures r.Some? ==> r.value == chapters[current - 1].content[..|r.value|]
    ensures r.Some? && |chapters[current - 1].content| <= 500 ==> r.value == chapters[current - 1].content
  {
    if current > 1 && current - 1 in chapters && chapters[current - 1].content != "" then
      Some(Truncate(chapters[current - 1].content, 500))
    else
      None
  }

  /**
    The title of the previous chapter, named in the chapter prompt beside its
    excerpt: present exactly when the excerpt is.
   */
  function PreviousTitle(chapters: map<int, Chapter>, current: int): (r: Option<string>)
    ensures r.Some? <==> PreviousExcerpt(chapters, current).Some?
    ensures r.Some? ==> r.value == chapters[current - 1].title
  {
    if PreviousExcerpt(chapters, current).Some? then Some(chapters[current - 1].title) else None
  }

  /** `title.replace(' ', '_')`, the base name of both export files. */
  function FileBase(title: string): (base: string)
    ensures |base| == |title|
    ensures forall i :: 0 <= i < |title| ==> base[i] == if title[i] == ' ' then '_' else title[i]
  {
    if title == "" then ""
    else [if title[0] == ' ' then '_' else title[0]] + FileBase(title[1..])
  }

  /** The base name has no space in it, and a title without spaces is its own base name. */
  lemma FileBaseHasNoSpace(title: string)
    ensures ' ' !in FileBase(title)
    ensures ' ' !in title ==> FileBase(title) == title
  {
  }

  /** The numbers of a list of chapter entries. */
  function KeySet(items: seq<(int, Chapter)>): set<int> {
    set i | 0 <= i < |items| :: items[i].0
  }

  predicate StrictlyAscending(items: seq<(int, Chapter)>) {
    forall i, j :: 0 <= i < j < |items| ==> items[i].0 < items[j].0
  }

  /** `items` is `sorted(chapters.items())`: every entry once, in ascending order of number. */
  predicate ListsChapters(items: seq<(int, Chapter)>, chapters: map<int, Chapter>) {
    && |items| == |chapters|
    && KeySet(items) == chapters.Keys
    && StrictlyAscending(items)
    && forall i :: 0 <= i < |items| ==> items[i].0 in chapters && chapters[items[i].0] == items[i].1
  }

  lemma KeySetAppend(items: seq<(int, Chapter)>, e: (int, Chapter))
    ensures KeySet(items + [e]) == KeySet(items) + {e.0}
  {
    var next := items + [e];
    assert forall i :: 0 <= i < |items| ==> next[i] == items[i];
    assert next[|items|] == e;
  }

  /** Every non-empty finite set of chapter numbers has a least element. */
  lemma {:induction false} LeastExists(s: set<int>)
    requires s != {}
    ensures exists m :: m in s && forall k :: k in s ==> m <= k
  {
    if forall y :: y !in s {
      assert false;
    }
    var x :| x in s;
    if s != {x} {
      LeastExists(s - {x});
      var m :| m in s - {x} && forall k :: k in s - {x} ==> m <= k;
      var least := if x < m then x else m;
      forall k | k in s ensures least <= k {
        if k != x {
          assert k in s - {x};
        }
      }
    }
  }

  lemma KeySetEmpty(items: seq<(int, Chapter)>)
    ensures KeySet(items) == {} <==> items == []
  {
    if items != [] {
      assert items[0].0 in KeySet(items);
    }
  }

  /** Two strictly ascending entry lists with the same numbers have the same numbers position by position. */
  lemma {:induction false} AscendingKeysUnique(a: seq<(int, Chapter)>, b: seq<(int, Chapter)>)
    requires StrictlyAscending(a) && StrictlyAscending(b)
    requires KeySet(a) == KeySet(b)
    ensures |a| == |b|
    ensures forall i :: 0 <= i < |a| ==> a[i].0 == b[i].0
  {
    KeySetEmpty(a);
    KeySetEmpty(b);
    if a != [] {
      assert a[0].0 in KeySet(b);
      assert b != [] by { assert a[0].0 in KeySet(a); }
      assert b[0].0 in KeySet(a);
      assert a[0].0 == b[0].0 by {
        var i :| 0 <= i < |b| && b[i].0 == a[0].0;
        var j :| 0 <= j < |a| && a[j].0 == b[0].0;
        assert b[0].0 <= a[0].0 && a[0].0 <= b[0].0;
      }
      assert KeySet(a[1..]) == KeySet(a) - {a[0].0} by {
        forall k ensures k in KeySet(a[1..]) <==> k in KeySet(a) && k != a[0].0 {
          if k in KeySet(a) && k != a[0].0 {
            var i :| 0 <= i < |a| && a[i].0 == k;
            assert a[1..][i - 1].0 == k;
          }
        }
      }
      assert KeySet(b[1..]) == KeySet(b) - {b[0].0} by {
        forall k ensures k in KeySet(b[1..]) <==> k in KeySet(b) && k != b[0].0 {
          if k in KeySet(b) && k != b[0].0 {
            var i :| 0 <= i < |b| && b[i].0 == k;
            assert b[1..][i - 1].0 == k;
          }
        }
      }
      AscendingKeysUnique(a[1..], b[1..]);
      forall i | 0 <= i < |a| ensures a[i].0 == b[i].0 {
        if i > 0 {
          assert a[1..][i - 1] == a[i] && b[1..][i - 1] == b[i];
        }
      }
    }
  }

  /** The ascending listing of a chapter map is unique. */
  lemma ListsChaptersUnique(a: seq<(int, Chapter)>, b: seq<(int, Chapter)>, chapters: map<int, Chapter>)
    requires ListsChapters(a, chapters) && ListsChapters(b, chapters)
    ensures a == b
  {
    AscendingKeysUnique(a, b);
  }

  /** The review summary's line for one chapter: its number, its title and the first 100 characters of its description. */
  function LineOf(entry: (int, Chapter)): (line: SummaryLine)
    ensures line.number == entry.0 && line.title == entry.1.title
    ensures |line.description| == if |entry.1.description| <= 100 then |entry.1.description| else 100
    ensures line.description == entry.1.description[..|line.description|]
  {
    SummaryLine(entry.0, entry.1.title, Truncate(entry.1.description, 100))
  }

  /** The review summary's lines for entries taken in the given order. */
  function SummaryOf(items: seq<(int, Chapter)>): seq<SummaryLine> {
    seq(|items|, i requires 0 <= i < |items| => LineOf(items[i]))
  }

  /** The state of the ascending traversal: `items` visited in order, `remaining` still to come, all larger. */
  predicate Traversal(items: seq<(int, Chapter)>, remaining: set<int>, chapters: map<int, Chapter>) {
    && |items| + |remaining| == |chapters|
    && KeySet(items) + remaining == chapters.Keys
    && KeySet(items) !! remaining
    && StrictlyAscending(items)
    && (|items| > 0 ==> forall k :: k in remaining ==> items[|items| - 1].0 < k)
    && forall i :: 0 <= i < |items| ==> items[i].0 in chapters && chapters[items[i].0] == items[i].1
  }

  /** Visiting the least remaining number keeps the traversal in order. */
  lemma TraversalStep(items: seq<(int, Chapter)>, remaining: set<int>, chapters: map<int, Chapter>, m: int)
    requires Traversal(items, remaining, chapters)
    requires m in remaining && forall k :: k in remaining ==> m <= k
    ensures m in chapters
    ensures Traversal(items + [(m, chapters[m])], remaining - {m}, chapters)
  {
    var next := items + [(m, chapters[m])];
    var rest := remaining - {m};
    KeySetAppend(items, (m, chapters[m]));
    MoveOne(KeySet(items), remaining, m);
    assert |next| + |rest| == |chapters|;
    StepKeepsOrder(items, remaining, m, chapters[m]);
    StepKeepsEntries(items, chapters, m);
  }

  /** Moving one number from the unvisited set to the visited set keeps their union and disjointness. */
  lemma MoveOne(visited: set<int>, remaining: set<int>, m: int)
    requires m in remaining && visited !! remaining
    ensures (visited + {m}) + (remaining - {m}) == visited + remaining
    ensures (visited + {m}) !! (remaining - {m})
  {
  }

  lemma StepKeepsOrder(items: seq<(int, Chapter)>, remaining: set<int>, m: int, c: Chapter)
    requires StrictlyAscending(items)
    requires |items| > 0 ==> forall k :: k in remaining ==> items[|items| - 1].0 < k
    requires m in remaining && forall k :: k in remaining ==> m <= k
    ensures StrictlyAscending(items + [(m, c)])
    ensures forall k :: k in remaining - {m} ==> m < k
  {
    var next := items + [(m, c)];
    forall i, j | 0 <= i < j < |next| ensures next[i].0 < next[j].0 {
      if j < |items| {
        assert next[i] == items[i] && next[j] == items[j];
      } else {
        assert next[i] == items[i] && next[j].0 == m;
        assert items[i].0 <= items[|items| - 1].0;
      }
    }
  }

  lemma StepKeepsEntries(items: seq<(int, Chapter)>, chapters: map<int, Chapter>, m: int)
    requires forall i :: 0 <= i < |items| ==> items[i].0 in chapters && chapters[items[i].0] == items[i].1
    requires m in chapters
    ensures forall i :: 0 <= i < |items| + 1 ==>
      (items + [(m, chapters[m])])[i].0 in chapters && chapters[(items + [(m, chapters[m])])[i].0] == (items + [(m, chapters[m])])[i].1
  {
    var next := items + [(m, chapters[m])];
    forall i | 0 <= i < |next| ensures next[i].0 in chapters && chapters[next[i].0] == next[i].1 {
      if i < |items| {
        assert next[i] == items[i];
      }
    }
  }

  /**
    The traversal `for chapter_num, chapter_data in sorted(chapters.items())`:
    each round takes the least number not yet visited.
   */
  method SortedChapters(chapters: map<int, Chapter>) returns (items: seq<(int, Chapter)>)
    ensures ListsChapters(items, chapters)
  {
    var remaining := chapters.Keys;
    items := [];
    while remaining != {}
      invariant Traversal(items, remaining, chapters)
      decreases |remaining|
    {
      LeastExists(remaining);
      var m :| m in remaining && forall k :: k in remaining ==> m <= k;
      TraversalStep(items, remaining, chapters, m);
      items := items + [(m, chapters[m])];
      remaining := remaining - {m};
    }
  }
}
