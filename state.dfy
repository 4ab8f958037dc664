/**
  The state dictionary as an object whose fields the stages update in place,
  as the stage functions of the agent do with `state[...] = ...`.
  Each method is proved to leave exactly the record the matching function of
  `Stages` computes.
 */
module Agent {
  import opened Wrappers
  import opened BookModel
  import Stages

  class BookState {
    var title: string
    var genre: string
    var targetAudience: string
    var outline: seq<OutlineItem>
    var chapters: map<int, Chapter>
    var currentChapter: int
    var status: string
    var feedback: string
    var exportPaths: Option<ExportPaths>

    /** The record the fields hold. */
    function Value(): Book
      reads this
    {
      Book(title, genre, targetAudience, outline, chapters, currentChapter, status, feedback, exportPaths)
    }

    /** `BookState()`: every field empty, the cursor at 0, the status `start`. */
    constructor ()
      ensures title == "" && genre == "" && targetAudience == "" && feedback == ""
      ensures outline == [] && chapters == map[] && currentChapter == 0 && status == Start
      ensures exportPaths == None
      ensures Value() == Fresh()
    {
      title, genre, targetAudience := "", "", "";
      outline, chapters := [], map[];
      currentChapter, status := 0, Start;
      feedback, exportPaths := "", None;
    }

    /** `get_book_info`, given the parsed reply the model would give to the information prompt. */
    method GetBookInfo(reply: Option<BookInfo>)
      modifies this
      ensures Value() == Stages.GetBookInfo(old(Value()), reply)
    {
      if title == "" {
        match reply {
          case Some(info) =>
            title := info.title.GetOr(Stages.DefaultTitle);
            genre := info.genre.GetOr(Stages.DefaultGenre);
            targetAudience := info.targetAudience.GetOr(Stages.DefaultAudience);
          case None =>
            title := Stages.FallbackTitle;
            genre := Stages.FallbackGenre;
            targetAudience := Stages.FallbackAudience;
        }
      }
      status := BookInfoCollected;
    }

    /**
      `create_outline`, given the parsed outline reply. Returns the metadata the
      outline prompt is built from.
     */
    method CreateOutline(reply: Option<seq<OutlineItem>>) returns (header: BookHeader)
      modifies this
      ensures Value() == Stages.CreateOutline(old(Value()), reply)
      ensures header == BookHeader(old(title), old(genre), old(targetAudience))
    {
      header := BookHeader(title, genre, targetAudience);
      match reply {
        case Some(items) =>
          outline := items;
          chapters := ChapterMap(items);
        case None =>
          outline := [Stages.IntroItem];
          chapters := map[1 := Stages.IntroChapter];
      }
      currentChapter := 1;
      status := OutlineCreated;
    }

    /**
      `write_chapter`, given the text the model would write. Returns what the
      chapter prompt is built from (`None` when the model is not asked) and the
      KeyError raised when the cursor is not a chapter number.
     */
    method WriteChapter(response: string) returns (request: Option<ChapterRequest>, error: Option<StageError>)
      modifies this
      ensures match Stages.WriteChapter(old(Value()), response)
        case Ok(b) => error == None && Value() == b
        case Err(e) => error == Some(e) && Value() == old(Value())
      ensures request.Some? <==> old(currentChapter) <= old(|chapters|) && old(currentChapter) in old(chapters)
      ensures request.Some? ==> request.value == ChapterRequest(
        old(title), old(genre), old(targetAudience), old(currentChapter),
        old(chapters)[old(currentChapter)].title, old(chapters)[old(currentChapter)].description,
        PreviousTitle(old(chapters), old(currentChapter)), PreviousExcerpt(old(chapters), old(currentChapter)))
    {
      var current := currentChapter;
      if current > |chapters| {
        status := AllChaptersWritten;
        return None, None;
      }
      if current !in chapters {
        return None, Some(KeyError(current));
      }
      var info := chapters[current];
      var previous := PreviousExcerpt(chapters, current);
      var previousTitle := PreviousTitle(chapters, current);
      request := Some(ChapterRequest(title, genre, targetAudience, current, info.title, info.description, previousTitle, previous));
      chapters := chapters[current := info.(content := response)];
      currentChapter := currentChapter + 1;
      if currentChapter > |chapters| {
        status := AllChaptersWritten;
      } else {
        status := ChapterWritten;
      }
      error := None;
    }

    /**
      `review_and_edit`, given the reviewer's reply. Returns the summary shown to
      the reviewer: the book's metadata, then one line per chapter in ascending
      chapter order.
     */
    method ReviewAndEdit(response: string) returns (header: BookHeader, summary: seq<SummaryLine>)
      modifies this
      ensures Value() == Stages.ReviewAndEdit(old(Value()), response)
      ensures header == BookHeader(old(title), old(genre), old(targetAudience))
      ensures |summary| == |old(chapters)|
      ensures forall items :: ListsChapters(items, old(chapters)) ==> summary == SummaryOf(items)
    {
      header := BookHeader(title, genre, targetAudience);
      var items := SortedChapters(chapters);
      summary := [];
      var i := 0;
      while i < |items|
        invariant 0 <= i <= |items|
        invariant |summary| == i
        invariant forall j :: 0 <= j < i ==> summary[j] == LineOf(items[j])
      {
        summary := summary + [LineOf(items[i])];
        i := i + 1;
      }
      assert summary == SummaryOf(items);
      forall other | ListsChapters(other, chapters)
        ensures summary == SummaryOf(other)
      {
        ListsChaptersUnique(items, other, chapters);
      }
      feedback := response;
      status := Reviewed;
    }

    /**
      `export_book`: the document handed to the writers lists every chapter once,
      in ascending order; both paths come from the title.
     */
    method ExportBook() returns (document: Document)
      modifies this
      ensures Value() == Stages.ExportBook(old(Value()))
      ensures document.title == old(title) && document.genre == old(genre)
      ensures document.targetAudience == old(targetAudience)
      ensures ListsChapters(document.chapters, old(chapters))
    {
      var sections := SortedChapters(chapters);
      document := Document(title, genre, targetAudience, sections);
      var docPath := FileBase(title) + ".docx";
      var pdfPath := FileBase(title) + ".pdf";
      status := Exported;
      exportPaths := Some(ExportPaths(docPath, pdfPath));
    }
  }
}
