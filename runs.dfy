/**
  Whole runs of the graph from a `start` record. Whatever the title, the run
  depends only on the chapter numbers the outline stage produces: numbered
  1..n it writes every chapter once and exports after n + 4 stage calls (five
  when the outline is empty); with a gap in the numbering it raises KeyError
  at the first missing number.
 */
module Runs {
  import opened Wrappers
  import opened BookModel
  import Stages
  import opened Workflow

  /** The chapter numbers 1..n. */
  function Range(n: int): (r: set<int>)
    ensures forall k :: k in r <==> 1 <= k <= n
    decreases n
  {
    if n <= 0 then {} else Range(n - 1) + {n}
  }

  /** `k` calls of the same node. */
  function Repeat(name: StageName, k: nat): (calls: seq<StageName>)
    ensures |calls| == k && forall i :: 0 <= i < k ==> calls[i] == name
  {
    seq(k, _ => name)
  }

  /** The chapters with the text of every number in `from..upto - 1` written in. */
  function Filled(chapters: map<int, Chapter>, gen: Replies, from: int, upto: int): (m: map<int, Chapter>)
    ensures m.Keys == chapters.Keys
  {
    map k | k in chapters :: if from <= k < upto then chapters[k].(content := gen.chapterText(k)) else chapters[k]
  }

  /** Chapter `k` with the model's text for it written in; a number that is not a chapter changes nothing. */
  function Write(chapters: map<int, Chapter>, gen: Replies, k: int): map<int, Chapter> {
    if k in chapters then chapters[k := chapters[k].(content := gen.chapterText(k))] else chapters
  }

  /** The chapter loop's writes, one number at a time from `from` up to `upto - 1`. */
  function Fill(chapters: map<int, Chapter>, gen: Replies, from: int, upto: int): map<int, Chapter>
    decreases upto - from
  {
    if from >= upto then chapters else Fill(Write(chapters, gen, from), gen, from + 1, upto)
  }

  /** Writing number `c` and then filling from `c + 1` is filling from `c`. */
  lemma FilledStep(chapters: map<int, Chapter>, gen: Replies, c: int, upto: int)
    requires c < upto
    ensures Filled(Write(chapters, gen, c), gen, c + 1, upto) == Filled(chapters, gen, c, upto)
  {
    var written := Write(chapters, gen, c);
    assert forall k :: k in chapters ==> Filled(written, gen, c + 1, upto)[k] == Filled(chapters, gen, c, upto)[k];
  }

  lemma FillOne(chapters: map<int, Chapter>, written: map<int, Chapter>, gen: Replies, c: int, upto: int)
    requires c < upto && written == Write(chapters, gen, c)
    ensures Fill(written, gen, c + 1, upto) == Fill(chapters, gen, c, upto)
  {
  }

  /** The loop's writes one at a time leave the chapters `Filled` describes. */
  lemma {:induction false} FillIsFilled(chapters: map<int, Chapter>, gen: Replies, from: int, upto: int)
    ensures Fill(chapters, gen, from, upto) == Filled(chapters, gen, from, upto)
    decreases upto - from
  {
    if from >= upto {
      assert Filled(chapters, gen, from, upto) == chapters;
    } else {
      FillIsFilled(Write(chapters, gen, from), gen, from + 1, upto);
      FilledStep(chapters, gen, from, upto);
    }
  }

  lemma {:induction false} RangeSize(n: nat)
    ensures |Range(n)| == n
  {
    if n > 0 {
      var prev := Range(n - 1);
      RangeSize(n - 1);
      assert n !in prev;
      assert Range(n) == prev + {n};
      assert |prev + {n}| == |prev| + 1;
    }
  }

  lemma SubsetOfSameSize(a: set<int>, b: set<int>)
    requires a <= b && |a| == |b|
    ensures a == b
  {
    assert b == a + (b - a);
    assert |b - a| == 0;
  }

  lemma RepeatOneMore(name: StageName, k: nat)
    ensures [name] + Repeat(name, k) == Repeat(name, k + 1)
  {
  }

  /** The calls from the chapter loop on: `k` chapter writes, then review and export. */
  function LoopTrace(k: nat): seq<StageName> {
    if k == 0 then [ReviewAndEdit, ExportBook] else [WriteChapter] + LoopTrace(k - 1)
  }

  lemma {:induction false} LoopTraceShape(k: nat)
    ensures LoopTrace(k) == Repeat(WriteChapter, k) + [ReviewAndEdit, ExportBook]
  {
    if k > 0 {
      LoopTraceShape(k - 1);
      RepeatOneMore(WriteChapter, k - 1);
      assert [WriteChapter] + (Repeat(WriteChapter, k - 1) + [ReviewAndEdit, ExportBook])
        == ([WriteChapter] + Repeat(WriteChapter, k - 1)) + [ReviewAndEdit, ExportBook];
    }
  }

  /** The record after the review and export stages. */
  function Finish(w: Book, gen: Replies): Book {
    Stages.ExportBook(Stages.ReviewAndEdit(w, gen.review))
  }

  /** Once every chapter is written, the run reviews, exports and ends. */
  lemma FinishFromAllWritten(w: Book, gen: Replies)
    requires w.status == AllChaptersWritten
    ensures Run(w, gen) == Finished(Finish(w, gen), LoopTrace(0))
  {
    RunStep(w, gen);
    var reviewed := Stages.ReviewAndEdit(w, gen.review);
    RunStep(reviewed, gen);
    var exported := Stages.ExportBook(reviewed);
    assert Run(exported, gen) == Finished(exported, []);
  }

  /** The record once the chapter loop from the cursor up to chapter n is over. */
  function AfterLoop(w: Book, gen: Replies, n: int): Book {
    w.(chapters := Fill(w.chapters, gen, w.currentChapter, n + 1), currentChapter := n + 1, status := AllChaptersWritten)
  }

  /** One chapter written inside the loop leaves the loop's final record as it was. */
  lemma AfterLoopStep(w: Book, gen: Replies, n: int)
    requires w.currentChapter in w.chapters && w.currentChapter <= |w.chapters| && w.currentChapter <= n
    ensures AfterLoop(Stages.WriteChapter(w, gen.chapterText(w.currentChapter)).value, gen, n) == AfterLoop(w, gen, n)
  {
    var c := w.currentChapter;
    var next := Stages.WriteChapter(w, gen.chapterText(c)).value;
    assert next.chapters == Write(w.chapters, gen, c) && next.currentChapter == c + 1;
    FillOne(w.chapters, next.chapters, gen, c, n + 1);
  }

  /** Writing the last chapter ends the loop: review and export follow. */
  lemma WriteLoopLast(w: Book, gen: Replies, n: nat)
    requires w.chapters.Keys == Range(n)
    requires w.currentChapter == n >= 1
    ensures var next := Stages.WriteChapter(w, gen.chapterText(n)).value;
      Run(next, gen) == Finished(Finish(AfterLoop(next, gen, n), gen), LoopTrace(0))
  {
    var next := Stages.WriteChapter(w, gen.chapterText(n)).value;
    assert next.currentChapter == n + 1 && next.status == AllChaptersWritten by {
      RangeSize(n);
    }
    assert AfterLoop(next, gen, n) == next;
    FinishFromAllWritten(next, gen);
  }

  /** Inside the loop, one chapter write is one more call in front of the rest of the run. */
  lemma WriteLoopStep(w: Book, gen: Replies, n: nat)
    requires w.status == OutlineCreated || w.status == ChapterWritten
    requires w.chapters.Keys == Range(n)
    requires 1 <= w.currentChapter <= n
    ensures var next := Stages.WriteChapter(w, gen.chapterText(w.currentChapter)).value;
      && Run(w, gen) == Prefixed([WriteChapter], Run(next, gen))
      && next.chapters.Keys == Range(n) && next.currentChapter == w.currentChapter + 1
      && (next.currentChapter <= n ==> next.status == ChapterWritten)
  {
    RangeSize(n);
    RunStep(w, gen);
  }

  /** The chapter loop over numbers 1..n writes every chapter from the cursor on, once each. */
  lemma {:induction false} WriteLoop(w: Book, gen: Replies, n: nat)
    requires w.status == OutlineCreated || w.status == ChapterWritten
    requires w.chapters.Keys == Range(n)
    requires 1 <= w.currentChapter <= n
    ensures Run(w, gen) == Finished(Finish(AfterLoop(w, gen, n), gen), LoopTrace(n + 1 - w.currentChapter))
    decreases n - w.currentChapter
  {
    var c := w.currentChapter;
    var next := Stages.WriteChapter(w, gen.chapterText(c)).value;
    var done := Finish(AfterLoop(w, gen, n), gen);
    assert Run(w, gen) == Prefixed([WriteChapter], Run(next, gen)) by {
      WriteLoopStep(w, gen, n);
    }
    assert Run(next, gen) == Finished(done, LoopTrace(n - c)) by {
      WriteLoopStep(w, gen, n);
      RangeSize(n);
      AfterLoopStep(w, gen, n);
      if c == n {
        WriteLoopLast(w, gen, n);
      } else {
        WriteLoop(next, gen, n);
      }
    }
    assert [WriteChapter] + LoopTrace(n - c) == LoopTrace(n + 1 - c);
  }

  /** The chapter node on a cursor that is within the count but not a chapter raises KeyError. */
  lemma CrashAt(w: Book, gen: Replies)
    requires w.status == OutlineCreated || w.status == ChapterWritten
    requires w.currentChapter <= |w.chapters| && w.currentChapter !in w.chapters
    ensures Run(w, gen) == Crashed(KeyError(w.currentChapter), w, [WriteChapter])
  {
    RunStep(w, gen);
  }

  /** Before the gap at `m`, one chapter write is one more call in front of the rest of the run. */
  lemma CrashLoopStep(w: Book, gen: Replies, m: int)
    requires w.status == OutlineCreated || w.status == ChapterWritten
    requires w.currentChapter < m <= |w.chapters| && w.currentChapter in w.chapters
    ensures var next := Stages.WriteChapter(w, gen.chapterText(w.currentChapter)).value;
      && Run(w, gen) == Prefixed([WriteChapter], Run(next, gen))
      && next.status == ChapterWritten && next.currentChapter == w.currentChapter + 1
      && next.chapters == Write(w.chapters, gen, w.currentChapter)
  {
    RunStep(w, gen);
  }

  /** The record when the loop reaches the gap at `m`: chapters before it written, the cursor on it. */
  function BeforeGap(w: Book, gen: Replies, m: int): Book {
    w.(chapters := Fill(w.chapters, gen, w.currentChapter, m), currentChapter := m,
       status := if w.currentChapter == m then w.status else ChapterWritten)
  }

  /** One chapter written before the gap leaves the record at the gap as it was. */
  lemma BeforeGapStep(w: Book, gen: Replies, m: int)
    requires w.status == OutlineCreated || w.status == ChapterWritten
    requires w.currentChapter < m <= |w.chapters| && w.currentChapter in w.chapters
    ensures BeforeGap(Stages.WriteChapter(w, gen.chapterText(w.currentChapter)).value, gen, m) == BeforeGap(w, gen, m)
  {
    var c := w.currentChapter;
    var next := Stages.WriteChapter(w, gen.chapterText(c)).value;
    assert next.chapters == Write(w.chapters, gen, c) && next.currentChapter == c + 1;
    assert next.status == ChapterWritten;
    assert Fill(next.chapters, gen, next.currentChapter, m) == Fill(w.chapters, gen, c, m);
  }

  /** The chapter loop reaches the first missing number and raises KeyError there. */
  lemma {:induction false} CrashLoop(w: Book, gen: Replies, m: int)
    requires w.status == OutlineCreated || w.status == ChapterWritten
    requires 1 <= w.currentChapter <= m <= |w.chapters| && m !in w.chapters
    requires forall k :: w.currentChapter <= k < m ==> k in w.chapters
    ensures Run(w, gen) == Crashed(KeyError(m), BeforeGap(w, gen, m), Repeat(WriteChapter, m + 1 - w.currentChapter))
    decreases m - w.currentChapter
  {
    var c := w.currentChapter;
    if c == m {
      CrashAt(w, gen);
      assert BeforeGap(w, gen, m) == w;
    } else {
      var next := Stages.WriteChapter(w, gen.chapterText(c)).value;
      assert Run(w, gen) == Prefixed([WriteChapter], Run(next, gen)) by {
        CrashLoopStep(w, gen, m);
      }
      assert Run(next, gen) == Crashed(KeyError(m), BeforeGap(w, gen, m), Repeat(WriteChapter, m - c)) by {
        CrashLoopStep(w, gen, m);
        BeforeGapStep(w, gen, m);
        assert next.chapters.Keys == w.chapters.Keys;
        CrashLoop(next, gen, m);
      }
      RepeatOneMore(WriteChapter, m - c);
    }
  }

  /** The record the chapter loop starts from: information collected, outline created. */
  function Outlined(b: Book, gen: Replies): Book {
    Stages.CreateOutline(Stages.GetBookInfo(b, gen.bookInfo), gen.outline)
  }

  /** From `start`, the first two nodes are the information and outline stages. */
  lemma OutlineSteps(b: Book, gen: Replies)
    requires b.status == Start
    ensures Run(b, gen) == Prefixed([GetBookInfo, CreateOutline], Run(Outlined(b, gen), gen))
  {
    var info := Stages.GetBookInfo(b, gen.bookInfo);
    RunStep(b, gen);
    RunStep(info, gen);
    PrefixedTwice([GetBookInfo], [CreateOutline], Run(Outlined(b, gen), gen));
    assert [GetBookInfo] + [CreateOutline] == [GetBookInfo, CreateOutline];
  }

  /** With no chapters, the chapter node runs once, writes nothing, and the loop is over. */
  lemma EmptyLoop(w: Book, gen: Replies)
    requires w.status == OutlineCreated && w.chapters.Keys == {} && w.currentChapter == 1
    ensures Run(w, gen) == Finished(Finish(AfterLoop(w, gen, 0), gen), LoopTrace(1))
  {
    assert |w.chapters| == 0;
    RunStep(w, gen);
    var done := w.(status := AllChaptersWritten);
    assert AfterLoop(w, gen, 0) == done;
    FinishFromAllWritten(done, gen);
    assert [WriteChapter] + LoopTrace(0) == LoopTrace(1);
  }

  /** The whole run from `start` when the outline numbers its chapters 1..n. */
  lemma RunFromStartLoop(b: Book, gen: Replies, n: nat)
    requires b.status == Start
    requires Stages.OutlineChapters(gen.outline).Keys == Range(n)
    ensures Run(b, gen) == Finished(Finish(AfterLoop(Outlined(b, gen), gen, n), gen),
      [GetBookInfo, CreateOutline] + LoopTrace(if n == 0 then 1 else n))
  {
    var outlined := Outlined(b, gen);
    OutlineSteps(b, gen);
    if n == 0 {
      EmptyLoop(outlined, gen);
    } else {
      WriteLoop(outlined, gen, n);
    }
  }

  lemma Concat3(a: seq<StageName>, b: seq<StageName>, c: seq<StageName>)
    ensures a + (b + c) == a + b + c
  {
  }

  /**
    From `start`, with the outline stage producing chapter numbers exactly 1..n,
    the run ends exported after 1 + 1 + n + 1 + 1 stage calls (the chapter node
    runs once, writing nothing, when n is 0).
   */
  lemma RunFromStart(b: Book, gen: Replies, n: nat)
    requires b.status == Start
    requires Stages.OutlineChapters(gen.outline).Keys == Range(n)
    ensures var r := Run(b, gen);
      && r.Finished?
      && r.trace == [GetBookInfo, CreateOutline] + Repeat(WriteChapter, if n == 0 then 1 else n) + [ReviewAndEdit, ExportBook]
      && |r.trace| == (if n == 0 then 5 else n + 4)
      && r.book.status == Exported
      && r.book.currentChapter == n + 1
  {
    RunFromStartLoop(b, gen, n);
    var k := if n == 0 then 1 else n;
    LoopTraceShape(k);
    Concat3([GetBookInfo, CreateOutline], Repeat(WriteChapter, k), [ReviewAndEdit, ExportBook]);
  }

  /** The run from `start` writes the model's text into every chapter 1..n and changes nothing else in them. */
  lemma RunFromStartChapters(b: Book, gen: Replies, n: nat)
    requires b.status == Start
    requires Stages.OutlineChapters(gen.outline).Keys == Range(n)
    ensures var r := Run(b, gen);
      && r.book.chapters == Filled(Stages.OutlineChapters(gen.outline), gen, 1, n + 1)
      && (forall k :: 1 <= k <= n ==> k in r.book.chapters && r.book.chapters[k].content == gen.chapterText(k))
  {
    var outlined := Outlined(b, gen);
    RunFromStartLoop(b, gen, n);
    assert outlined.chapters == Stages.OutlineChapters(gen.outline) && outlined.currentChapter == 1;
    FillIsFilled(outlined.chapters, gen, 1, n + 1);
  }

  /** The run from `start` keeps the collected information and outline, and records the review and the paths. */
  lemma RunFromStartKeeps(b: Book, gen: Replies, n: nat)
    requires b.status == Start
    requires Stages.OutlineChapters(gen.outline).Keys == Range(n)
    ensures var r := Run(b, gen);
      var info := Stages.GetBookInfo(b, gen.bookInfo);
      && r.book.title == info.title && r.book.genre == info.genre && r.book.targetAudience == info.targetAudience
      && r.book.outline == Stages.OutlineOf(gen.outline)
      && r.book.feedback == gen.review
      && r.book.exportPaths == Some(Stages.PathsFor(info.title))
  {
    RunFromStartLoop(b, gen, n);
  }

  /**
    From `start`, with a gap in the chapter numbers at `m` (all of 1..m-1 present,
    `m` at most the number of chapters), the run raises KeyError(m) after writing
    chapters 1..m-1, which keep their text.
   */
  lemma RunFromStartCrashes(b: Book, gen: Replies, m: int)
    requires b.status == Start
    requires 1 <= m <= |Stages.OutlineChapters(gen.outline)| && m !in Stages.OutlineChapters(gen.outline)
    requires forall k :: 1 <= k < m ==> k in Stages.OutlineChapters(gen.outline)
    ensures var r := Run(b, gen);
      && r.Crashed? && r.error == KeyError(m)
      && r.trace == [GetBookInfo, CreateOutline] + Repeat(WriteChapter, m)
      && r.book.chapters == Filled(Stages.OutlineChapters(gen.outline), gen, 1, m)
      && r.book.currentChapter == m
  {
    var outlined := Outlined(b, gen);
    OutlineSteps(b, gen);
    assert outlined.chapters == Stages.OutlineChapters(gen.outline) && outlined.currentChapter == 1;
    assert outlined.status == OutlineCreated;
    CrashLoop(outlined, gen, m);
    FillIsFilled(outlined.chapters, gen, 1, m);
  }

  /** A run from `start` reaches END exactly when the outline numbers its chapters 1..n. */
  lemma RunFromStartFinishes(b: Book, gen: Replies)
    requires b.status == Start
    ensures var chapters := Stages.OutlineChapters(gen.outline);
      Run(b, gen).Finished? <==> chapters.Keys == Range(|chapters|)
  {
    var chapters := Stages.OutlineChapters(gen.outline);
    var n := |chapters|;
    if chapters.Keys == Range(n) {
      RunFromStart(b, gen, n);
    } else {
      var missing := set k | 1 <= k <= n && k !in chapters;
      if missing == {} {
        RangeSize(n);
        assert forall k :: k in Range(n) ==> k in chapters.Keys by {
          forall k | k in Range(n) ensures k in chapters.Keys {
            assert k !in missing;
          }
        }
        SubsetOfSameSize(Range(n), chapters.Keys);
      }
      LeastExists(missing);
      var m :| m in missing && forall k :: k in missing ==> m <= k;
      forall k | 1 <= k < m ensures k in chapters {
        assert k !in missing;
      }
      RunFromStartCrashes(b, gen, m);
    }
  }
}
