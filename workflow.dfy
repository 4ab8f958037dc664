/**
  The graph that wires the stages together: the router, a run as a function of
  the state and the model's replies, and the driver loop that repeats
  "ask the router, run the stage" until the router says END.
 */
module Workflow {
  import opened Wrappers
  import opened BookModel
  import Stages
  import opened Agent

  /** The graph's nodes. */
  datatype StageName = GetBookInfo | CreateOutline | WriteChapter | ReviewAndEdit | ExportBook

  /** What the router answers: a node to run, or END. */
  datatype Next = Stage(name: StageName) | End

  /**
    Everything the model replies during one run. The chapter text is looked up
    by chapter number: within one run the cursor only moves forward, so each
    number is asked for at most once.
   */
  datatype Replies = Replies(
    bookInfo: Option<BookInfo>,
    outline: Option<seq<OutlineItem>>,
    chapterText: int -> string,
    review: string)

  /** The result of a run: the router said END, or a stage raised. */
  datatype RunResult =
    | Finished(book: Book, trace: seq<StageName>)
    | Crashed(error: StageError, book: Book, trace: seq<StageName>)

  /** The statuses for which the router picks a node. */
  const ActiveStatuses := {Start, BookInfoCollected, OutlineCreated, ChapterWritten, AllChaptersWritten, Reviewed}

  /**
    `router`: a fixed table from status to node. `chapter_written` leads back to
    `write_chapter`; `exported` and every status not in the table lead to END.
   */
  function Router(status: string): (next: Next)
    ensures next == End <==> status !in ActiveStatuses
    ensures next == Stage(WriteChapter) <==> status == OutlineCreated || status == ChapterWritten
    ensures next == Stage(GetBookInfo) <==> status == Start
    ensures next == Stage(CreateOutline) <==> status == BookInfoCollected
    ensures next == Stage(ReviewAndEdit) <==> status == AllChaptersWritten
    ensures next == Stage(ExportBook) <==> status == Reviewed
  {
    if status == Start then Stage(GetBookInfo)
    else if status == BookInfoCollected then Stage(CreateOutline)
    else if status == OutlineCreated then Stage(WriteChapter)
    else if status == ChapterWritten then Stage(WriteChapter)
    else if status == AllChaptersWritten then Stage(ReviewAndEdit)
    else if status == Reviewed then Stage(ExportBook)
    else if status == Exported then End
    else End
  }

  /** One node applied to the record, with the model's reply for that node. */
  function Apply(name: StageName, b: Book, gen: Replies): (r: Result<Book, StageError>)
    ensures r.Err? <==> name == WriteChapter && b.currentChapter <= |b.chapters| && b.currentChapter !in b.chapters
    ensures r.Err? ==> r.error == KeyError(b.currentChapter)
  {
    match name
    case GetBookInfo => Ok(Stages.GetBookInfo(b, gen.bookInfo))
    case CreateOutline => Ok(Stages.CreateOutline(b, gen.outline))
    case WriteChapter => Stages.WriteChapter(b, gen.chapterText(b.currentChapter))
    case ReviewAndEdit => Ok(Stages.ReviewAndEdit(b, gen.review))
    case ExportBook => Ok(Stages.ExportBook(b))
  }

  /** How far a status is from the end of the pipeline. */
  function Rank(status: string): nat {
    if status == Start then 5
    else if status == BookInfoCollected then 4
    else if status == OutlineCreated || status == ChapterWritten then 3
    else if status == AllChaptersWritten then 2
    else if status == Reviewed then 1
    else 0
  }

  /** The chapters the cursor still has to pass. */
  function Remaining(b: Book): nat {
    if b.currentChapter <= |b.chapters| + 1 then |b.chapters| + 1 - b.currentChapter else 0
  }

  /**
    Every node the router picks either moves the status further down the
    pipeline, or (the chapter self-loop) keeps it and moves the cursor one
    chapter on.
   */
  lemma StepProgress(b: Book, gen: Replies)
    requires Router(b.status).Stage?
    requires Apply(Router(b.status).name, b, gen).Ok?
    ensures var next := Apply(Router(b.status).name, b, gen).value;
      || Rank(next.status) < Rank(b.status)
      || (Rank(next.status) == Rank(b.status) && Remaining(next) < Remaining(b))
  {
  }

  /** After each node the router picks the next node of the fixed pipeline order. */
  lemma RouterFollowsPipeline(b: Book, gen: Replies)
    requires Router(b.status).Stage?
    requires Apply(Router(b.status).name, b, gen).Ok?
    ensures var name := Router(b.status).name;
      var after := Router(Apply(name, b, gen).value.status);
      && (name == GetBookInfo ==> after == Stage(CreateOutline))
      && (name == CreateOutline ==> after == Stage(WriteChapter))
      && (name == WriteChapter ==> after == Stage(WriteChapter) || after == Stage(ReviewAndEdit))
      && (name == ReviewAndEdit ==> after == Stage(ExportBook))
      && (name == ExportBook ==> after == End)
  {
  }

  /** The cursor never passes one beyond the last chapter. */
  lemma StageKeepsCursorInRange(name: StageName, b: Book, gen: Replies)
    requires b.currentChapter <= |b.chapters| + 1
    requires Apply(name, b, gen).Ok?
    ensures Apply(name, b, gen).value.currentChapter <= |Apply(name, b, gen).value.chapters| + 1
  {
  }

  /** `calls` run before the run `r`. */
  function Prefixed(calls: seq<StageName>, r: RunResult): RunResult {
    r.(trace := calls + r.trace)
  }

  lemma PrefixedTwice(calls: seq<StageName>, more: seq<StageName>, r: RunResult)
    ensures Prefixed(calls + more, r) == Prefixed(calls, Prefixed(more, r))
  {
    assert (calls + more) + r.trace == calls + (more + r.trace);
  }

  /**
    The graph run from record `b`: route, apply, repeat until END or until a
    stage raises. It ends only where the router says END, and only
    `write_chapter` can raise, on a cursor within the count that is not a chapter.
   */
  function Run(b: Book, gen: Replies): (r: RunResult)
    ensures r.Finished? ==> Router(r.book.status) == End
    ensures r.Crashed? ==>
      && r.trace != [] && r.trace[|r.trace| - 1] == WriteChapter
      && r.error == KeyError(r.book.currentChapter)
      && r.book.currentChapter <= |r.book.chapters| && r.book.currentChapter !in r.book.chapters
    decreases Rank(b.status), Remaining(b)
  {
    match Router(b.status)
    case End => Finished(b, [])
    case Stage(name) =>
      match Apply(name, b, gen)
      case Err(e) => Crashed(e, b, [name])
      case Ok(next) =>
        StepProgress(b, gen);
        Prefixed([name], Run(next, gen))
  }

  /** One round of the graph from a record the router does not end on. */
  lemma RunStep(b: Book, gen: Replies)
    requires Router(b.status).Stage?
    ensures var name := Router(b.status).name;
      var step := Apply(name, b, gen);
      && (step.Ok? ==> Run(b, gen) == Prefixed([name], Run(step.value, gen)))
      && (step.Err? ==> Run(b, gen) == Crashed(step.error, b, [name]))
  {
  }

  /** Runs the node `name` on the shared state, as the graph's node for it does. */
  method RunNode(s: BookState, name: StageName, gen: Replies) returns (error: Option<StageError>)
    modifies s
    ensures var step := Apply(name, old(s.Value()), gen);
      && (step.Ok? ==> error == None && s.Value() == step.value)
      && (step.Err? ==> error == Some(step.error) && s.Value() == old(s.Value()))
  {
    error := None;
    match name {
      case GetBookInfo =>
        s.GetBookInfo(gen.bookInfo);
      case CreateOutline =>
        var header := s.CreateOutline(gen.outline);
      case WriteChapter =>
        var request;
        request, error := s.WriteChapter(gen.chapterText(s.currentChapter));
      case ReviewAndEdit =>
        var header, summary := s.ReviewAndEdit(gen.review);
      case ExportBook =>
        var document := s.ExportBook();
    }
  }

  /**
    The driver loop: the LangGraph runtime reduced to "ask the router, run the
    node on the shared state" until END. It computes exactly `Run`.
   */
  method Drive(s: BookState, gen: Replies) returns (result: RunResult)
    modifies s
    ensures result == Run(old(s.Value()), gen)
    ensures s.Value() == result.book
  {
    ghost var start := s.Value();
    var trace: seq<StageName> := [];
    var next := Router(s.status);
    while next != End
      invariant next == Router(s.status)
      invariant Prefixed(trace, Run(s.Value(), gen)) == Run(start, gen)
      decreases Rank(s.status), Remaining(s.Value())
    {
      ghost var before := s.Value();
      var name := next.name;
      RunStep(before, gen);
      var error := RunNode(s, name, gen);
      if error.Some? {
        return Crashed(error.value, s.Value(), trace + [name]);
      }
      StepProgress(before, gen);
      PrefixedTwice(trace, [name], Run(s.Value(), gen));
      trace := trace + [name];
      next := Router(s.status);
    }
    result := Finished(s.Value(), trace);
  }

  /**
    `main` without its input and output: a fresh state, the non-empty custom
    values written over it, then the graph run to the end.
   */
  method Generate(customTitle: string, customGenre: string, customAudience: string, gen: Replies)
    returns (result: RunResult)
    ensures result == Run(Initial(customTitle, customGenre, customAudience), gen)
  {
    var s := new BookState();
    if customTitle != "" {
      s.title := customTitle;
    }
    if customGenre != "" {
      s.genre := customGenre;
    }
    if customAudience != "" {
      s.targetAudience := customAudience;
    }
    assert s.Value() == Initial(customTitle, customGenre, customAudience);
    result := Drive(s, gen);
  }
}
