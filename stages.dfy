/**
  The five stages of the book-writing agent as functions from the book record
  before the stage to the record after it. Each model call is an opaque input:
  free text as a `string`, the JSON stages as an `Option` of the parsed record
  (`None` when the reply is not valid JSON).
 */
module Stages {
  import opened Wrappers
  import opened BookModel

  // Defaults for keys missing from a parsed book-information reply.
  const DefaultTitle := "Livro sem título"
  const DefaultGenre := "Ficção"
  const DefaultAudience := "Adultos"

  // Values used when the book-information reply is not valid JSON.
  const FallbackTitle := "Meu Novo Livro"
  const FallbackGenre := "Ficção"
  const FallbackAudience := "Geral"

  // The single chapter used when the outline reply is not valid JSON.
  const IntroTitle := "Introdução"
  const IntroDescription := "Capítulo introdutório do livro."
  const IntroItem := OutlineItem(1, IntroTitle, IntroDescription)
  const IntroChapter := Chapter(IntroTitle, IntroDescription, "")

  /**
    `get_book_info`: with no title yet, take title, genre and audience from the
    reply (defaults per missing key, fixed fallbacks for unparseable text); then
    mark the information as collected.
   */
  function GetBookInfo(b: Book, reply: Option<BookInfo>): (r: Book)
    ensures r.status == BookInfoCollected
    ensures b.title != "" ==> r == b.(status := BookInfoCollected)
    ensures b.title == "" && reply.None? ==>
      r.title == FallbackTitle && r.genre == FallbackGenre && r.targetAudience == FallbackAudience
    ensures b.title == "" && reply.Some? ==>
      && r.title == reply.value.title.GetOr(DefaultTitle)
      && r.genre == reply.value.genre.GetOr(DefaultGenre)
      && r.targetAudience == reply.value.targetAudience.GetOr(DefaultAudience)
    ensures r.title == "" <==> b.title == "" && reply.Some? && reply.value.title == Some("")
    ensures r.outline == b.outline && r.chapters == b.chapters && r.currentChapter == b.currentChapter
    ensures r.feedback == b.feedback && r.exportPaths == b.exportPaths
  {
    var collected :=
      if b.title != "" then b
      else match reply
        case None => b.(title := FallbackTitle, genre := FallbackGenre, targetAudience := FallbackAudience)
        case Some(info) =>
          b.(title := info.title.GetOr(DefaultTitle),
             genre := info.genre.GetOr(DefaultGenre),
             targetAudience := info.targetAudience.GetOr(DefaultAudience));
    collected.(status := BookInfoCollected)
  }

  /** The outline `create_outline` stores: the parsed list, or the single introduction item. */
  function OutlineOf(reply: Option<seq<OutlineItem>>): seq<OutlineItem> {
    match reply
    case Some(items) => items
    case None => [IntroItem]
  }

  /** The chapters `create_outline` stores: one empty chapter per distinct number of the outline. */
  function OutlineChapters(reply: Option<seq<OutlineItem>>): (m: map<int, Chapter>)
    ensures m.Keys == Numbers(OutlineOf(reply))
    ensures forall k :: k in m ==> m[k].content == ""
    ensures reply.None? ==> m == map[1 := IntroChapter]
  {
    match reply
    case Some(items) => ChapterMap(items)
    case None =>
      assert Numbers([IntroItem]) == {1} by { assert [IntroItem][0].chapterNumber == 1; }
      map[1 := IntroChapter]
  }

  /**
    `create_outline`: store the outline and a chapter per distinct number with no
    content, point the cursor at chapter 1 and mark the outline as created.
   */
  function CreateOutline(b: Book, reply: Option<seq<OutlineItem>>): (r: Book)
    ensures r.chapters.Keys == Numbers(r.outline)
    ensures forall k :: k in r.chapters ==> r.chapters[k].content == ""
    ensures reply.Some? ==> r.outline == reply.value
    ensures reply.None? ==> r.outline == [IntroItem] && r.chapters == map[1 := IntroChapter]
    ensures r.currentChapter == 1 && r.status == OutlineCreated
    ensures r.title == b.title && r.genre == b.genre && r.targetAudience == b.targetAudience
    ensures r.feedback == b.feedback && r.exportPaths == b.exportPaths
  {
    b.(outline := OutlineOf(reply), chapters := OutlineChapters(reply), currentChapter := 1, status := OutlineCreated)
  }

  /** Every chapter `create_outline` stores is the last outline item with that number. */
  lemma CreateOutlineEntries(b: Book, reply: Option<seq<OutlineItem>>, k: int)
    requires k in CreateOutline(b, reply).chapters
    ensures var r := CreateOutline(b, reply);
      exists i :: IsLastWith(r.outline, i, k) && r.chapters[k] == ChapterOf(r.outline[i])
  {
    var r := CreateOutline(b, reply);
    if reply.Some? {
      ChapterMapEntry(reply.value, k);
    } else {
      assert IsLastWith(r.outline, 0, k);
    }
  }

  /**
    `write_chapter`: past the last chapter, only mark all chapters as written;
    otherwise store the reply as the current chapter's content and advance the
    cursor. Indexing a cursor that is not a chapter number raises KeyError.
   */
  function WriteChapter(b: Book, response: string): (r: Result<Book, StageError>)
    ensures b.currentChapter > |b.chapters| ==> r == Ok(b.(status := AllChaptersWritten))
    ensures b.currentChapter <= |b.chapters| && b.currentChapter !in b.chapters ==>
      r == Err(KeyError(b.currentChapter))
    ensures b.currentChapter <= |b.chapters| && b.currentChapter in b.chapters ==>
      && r.Ok?
      && r.value.chapters.Keys == b.chapters.Keys
      && r.value.chapters[b.currentChapter] == b.chapters[b.currentChapter].(content := response)
      && (forall k :: k in b.chapters && k != b.currentChapter ==> r.value.chapters[k] == b.chapters[k])
      && r.value.currentChapter == b.currentChapter + 1
      && (r.value.status == AllChaptersWritten <==> r.value.currentChapter > |r.value.chapters|)
      && (r.value.status != AllChaptersWritten ==> r.value.status == ChapterWritten)
      && r.value.title == b.title && r.value.genre == b.genre && r.value.targetAudience == b.targetAudience
      && r.value.outline == b.outline && r.value.feedback == b.feedback && r.value.exportPaths == b.exportPaths
  {
    var current := b.currentChapter;
    if current > |b.chapters| then
      Ok(b.(status := AllChaptersWritten))
    else if current !in b.chapters then
      Err(KeyError(current))
    else
      var chapters := b.chapters[current := b.chapters[current].(content := response)];
      var next := current + 1;
      Ok(b.(chapters := chapters,
            currentChapter := next,
            status := if next > |chapters| then AllChaptersWritten else ChapterWritten))
  }

  /** `review_and_edit`: keep the reviewer's reply as feedback and mark the book reviewed. */
  function ReviewAndEdit(b: Book, response: string): (r: Book)
    ensures r.feedback == response && r.status == Reviewed
    ensures r.title == b.title && r.genre == b.genre && r.targetAudience == b.targetAudience
    ensures r.outline == b.outline && r.chapters == b.chapters && r.currentChapter == b.currentChapter
    ensures r.exportPaths == b.exportPaths
  {
    b.(feedback := response, status := Reviewed)
  }

  /**
    The two export file names derived from a title: the title with every space
    turned into an underscore, followed by each extension. Both keep the title's
    length before the extension and contain no space, so the files share their
    base name and differ only in the extension.
   */
  function PathsFor(title: string): (p: ExportPaths)
    ensures |p.docx| == |title| + 5 && |p.pdf| == |title| + 4
    ensures p.docx[..|title|] == p.pdf[..|title|] == FileBase(title)
    ensures p.docx[|title|..] == ".docx" && p.pdf[|title|..] == ".pdf"
    ensures ' ' !in p.docx && ' ' !in p.pdf
    ensures p.docx != p.pdf
  {
    var base := FileBase(title);
    FileBaseHasNoSpace(title);
    ExportPaths(base + ".docx", base + ".pdf")
  }

  /** `export_book`, apart from writing the files: record both paths and mark the book exported. */
  function ExportBook(b: Book): (r: Book)
    ensures r.exportPaths == Some(PathsFor(b.title)) && r.status == Exported
    ensures r.title == b.title && r.genre == b.genre && r.targetAudience == b.targetAudience
    ensures r.outline == b.outline && r.chapters == b.chapters && r.currentChapter == b.currentChapter
    ensures r.feedback == b.feedback
  {
    b.(status := Exported, exportPaths := Some(PathsFor(b.title)))
  }
}
