# Book-writing agent: a Dafny model of its state machine

`app.py` drives a language model through five stages that turn an empty
`BookState` dictionary into a written, reviewed and exported book:
`get_book_info`, `create_outline`, `write_chapter` (repeated once per chapter),
`review_and_edit` and `export_book`. A `router` reads the `status` string after
each stage and picks the next one, or `END`.

This project models that state machine.

- `wrappers.dfy` (`Wrappers`): `Option` and `Result`.
- `book.dfy` (`BookModel`): the state dictionary as the `Book` datatype, the
  status strings, and the value-level pieces the stages share:
  - the `{chapter_number: {...}}` comprehension (`ChapterMap`);
  - the 500-character excerpt of the previous chapter (`PreviousExcerpt`);
  - the file base name `title.replace(' ', '_')` (`FileBase`);
  - the `sorted(chapters.items())` traversal (`SortedChapters`), a loop proved
    to list every chapter once, in ascending order.
- `stages.dfy` (`Stages`): each stage as a function from the record before the
  stage to the record after it. This is the specification the imperative code
  is proved against.
- `state.dfy` (`Agent`): `BookState` as a class whose fields the stage methods
  update in place, as the Python stages do with `state[...] = ...`. Each method
  is proved to leave exactly the record the matching `Stages` function computes.
- `workflow.dfy` (`Workflow`):
  - the router;
  - `Run`, the graph run as a terminating function of the record and the
    model's replies;
  - `Drive`, the explicit "ask the router, run the node" while loop on a
    `BookState`, proved equal to `Run`;
  - `Generate`, the state set-up of `main` followed by `Drive`.
- `runs.dfy` (`Runs`): whole runs from `start`. `RunFromStartFinishes` proves
  that a run ends at `END` exactly when the outline's chapter numbers are 1..n.
  - When they are, every chapter is written once and the book is exported
    after n + 4 stage calls. An empty parsed outline gives 5 calls, because
    the chapter node still runs once.
  - Otherwise `write_chapter` raises `KeyError` at the first missing number.

  These statements describe runs in which every foreign call returns (see
  "## Left out").

The model's replies are inputs (`Workflow.Replies`):

- the book-information reply, as `Option<BookInfo>`;
- the outline reply, as `Option<seq<OutlineItem>>`;
- the chapter text, as a function of the chapter number;
- the reviewer's text.

`None` stands for a reply that `json.loads` rejects. A key missing from the
book-information object is a `None` field; it gets the `.get` default. The
cursor only moves forward, so each chapter number is asked for at most once
per run. Giving the chapter text per number therefore describes any sequence
of replies.

An `int` cursor that is not a key of `chapters`, with `current <= len(chapters)`,
makes `state["chapters"][current]` raise. The model represents this as
`Err(KeyError(current))`, and the run result is `Crashed`.

## Model

| member | source | states |
|---|---|---|
| Agent.BookState.constructor | app.py:35-46 | empty title, genre, audience and feedback; empty outline and chapters; cursor 0; status `start`; no export paths |
| BookModel.Initial | app.py:290-296 | the initial state of a run: status `start`, cursor 0, nothing outlined; title, genre and audience are the custom values (an empty custom value leaves the empty field) |
| Stages.GetBookInfo | app.py:49-71 | if the title is non-empty, only the status changes. Otherwise an unparseable reply gives exactly ("Meu Novo Livro", "Ficção", "Geral"), and a parsed one takes each key or its default ("Livro sem título", "Ficção", "Adultos"). The status ends `book_info_collected`. The title ends empty iff it was empty and the reply's title is the empty string. Outline, chapters, cursor, feedback and paths are unchanged |
| Agent.BookState.GetBookInfo | app.py:49-71 | updates the fields to exactly the record `Stages.GetBookInfo` computes |
| BookModel.ChapterMap | app.py:92-95 | the keys are exactly the distinct chapter numbers of the outline, and every content is empty |
| BookModel.ChapterMapLastWins | app.py:92-95 | the chapter stored under a number is the one from the last outline item with that number |
| BookModel.ChapterMapEntry | app.py:92-95 | every stored chapter comes from some outline item that is the last one with its number |
| Stages.OutlineChapters | app.py:88-102 | the chapters `create_outline` stores: one empty chapter per distinct number; on a parse failure exactly `{1: Introdução}` |
| Stages.CreateOutline | app.py:73-106 | the keys are the outline's distinct numbers, with empty contents. A parsed reply is stored as the outline; a parse failure stores exactly one "Introdução" item and chapter, keyed 1. The cursor becomes 1 and the status `outline_created`. Title, genre, audience, feedback and paths are unchanged |
| Stages.CreateOutlineEntries | app.py:88-95 | each stored chapter is the title and description of the last outline item with its number |
| Agent.BookState.CreateOutline | app.py:73-106 | updates the fields to exactly the record `Stages.CreateOutline` computes, and returns the title, genre and audience the outline prompt is built from, as they stood before the stage |
| BookModel.Truncate | app.py:124 | `s[:n]`: a prefix of `s`, at most `n` long, all of `s` when it is short enough, exactly `n` long otherwise |
| BookModel.PreviousExcerpt | app.py:117-125 | an excerpt exists iff `current > 1` and chapter `current - 1` exists with non-empty content. It is a prefix of that content, at most 500 characters long, and the whole content when that is at most 500 characters |
| BookModel.PreviousTitle | app.py:120-123 | the previous chapter's title, named in the prompt beside the excerpt: present exactly when the excerpt is, and then the title of chapter `current - 1` |
| Stages.WriteChapter | app.py:108-154 | past the last chapter, only the status changes, to `all_chapters_written`. A cursor within the count that is not a key raises `KeyError`. Otherwise: only the current chapter's content changes, to the reply; the keys and other chapters stay the same; the cursor goes up by one; the status is `all_chapters_written` iff the new cursor exceeds the count, else `chapter_written`; the remaining fields are unchanged |
| Agent.BookState.WriteChapter | app.py:108-154 | updates the fields to the record `Stages.WriteChapter` computes, or leaves them unchanged when it raises. It returns the raised error, and the prompt's inputs exactly when the model is asked: book title, genre and audience, the chapter's number, title and description, and the previous chapter's title (`PreviousTitle`) and excerpt (`PreviousExcerpt`). The previous chapter's number is `number - 1` |
| BookModel.FileBase | app.py:200 | `title.replace(' ', '_')`: the same length as the title, each space turned into `_` and every other character kept |
| BookModel.FileBaseHasNoSpace | app.py:200 | the base name has no space, and a title without spaces is its own base name |
| Stages.ReviewAndEdit | app.py:179-181 | the feedback becomes the reply and the status `reviewed`; chapters, cursor and everything else are unchanged |
| BookModel.LineOf | app.py:168 | one summary line: the chapter's number and title, and a prefix of its description of length `min(100, len(description))` |
| Agent.BookState.ReviewAndEdit | app.py:156-182 | updates the fields to exactly the record `Stages.ReviewAndEdit` computes. It returns the summary's header (title, genre, audience before the stage) and one summary line per chapter gathered in `sorted(...)` order (number, title, first 100 characters of the description), equal to the lines of any ascending listing of the chapters |
| BookModel.SortedChapters | app.py:195-197 | `sorted(chapters.items())`: every chapter exactly once, with its own entry, in strictly ascending order of number |
| BookModel.ListsChaptersUnique | app.py:195 | there is only one such ascending listing of a chapter map |
| BookModel.AscendingKeysUnique | app.py:195 | two strictly ascending entry lists with the same numbers agree position by position |
| Stages.PathsFor | app.py:200-227 | both paths start with the base name `FileBase(title)`, which has the title's length. They end in `.docx` and `.pdf`, contain no space, and differ |
| Stages.ExportBook | app.py:230-231 | records both paths and sets the status to `exported`; all other fields are unchanged |
| Agent.BookState.ExportBook | app.py:184-232 | updates the fields to exactly the record `Stages.ExportBook` computes. The document handed to the writers has the book's metadata and lists every chapter once, in ascending order |
| Workflow.Router | app.py:235-252 | the routing table, with each node chosen iff the status is one of its statuses: `start` goes to the information stage, `book_info_collected` to the outline, `outline_created` and `chapter_written` to the chapter node, `all_chapters_written` to review, `reviewed` to export. END is chosen iff the status is none of these, so `exported` and every unknown string go to END |
| Workflow.StepProgress | app.py:104-152 | each routed node moves the status down the pipeline, or, on the chapter self-loop, keeps its rank and moves the cursor one chapter closer to the end |
| Workflow.RouterFollowsPipeline | app.py:235-252 | after each node the router picks the next node of the fixed order: info, outline, chapter (repeated), review, export, END |
| Workflow.StageKeepsCursorInRange | app.py:104-152 | no stage moves the cursor beyond one past the last chapter |
| Workflow.Run | app.py:255-276 | a run ends only where the router says END. Since every foreign call is taken to return, it can only crash in the chapter node, on a cursor within the count that is not a chapter |
| Workflow.RunStep | app.py:268-273 | one round of the graph: the routed node's result, followed by the run from there, or the node's exception |
| Workflow.Apply | app.py:261-265 | the nodes as functions of the record: only the chapter node can raise, and it raises `KeyError(current)` exactly when the cursor is within the count and is not a chapter |
| Workflow.RunNode | app.py:261-265 | running a node on the shared state leaves the record that node's stage function computes, or reports its exception and leaves the state unchanged |
| Workflow.Drive | app.py:255-276 | the driver loop returns exactly `Run` of the initial record and leaves the state holding the final record |
| Workflow.Generate | app.py:279-302 | a fresh state with the custom values set, driven to the end, gives `Run(Initial(...))` |
| Runs.FillIsFilled | app.py:143-146 | writing the chapters one at a time from the cursor gives every chapter in the range its reply text and leaves the others unchanged |
| Runs.FinishFromAllWritten | app.py:245-250 | from `all_chapters_written`, the run reviews, exports and ends |
| Runs.WriteLoop | app.py:108-154 | with chapter keys exactly 1..n and the cursor c in range, the chapter node runs n + 1 - c times, writing every chapter from c on, then review and export follow |
| Runs.CrashLoop | app.py:110-116 | before a gap at m, the loop writes chapters c..m-1 and then raises `KeyError(m)` |
| Runs.OutlineSteps | app.py:237-240 | from `start`, the first two nodes are the information and outline stages |
| Runs.EmptyLoop | app.py:112-114 | with no chapters, the chapter node runs once, writes nothing, and the loop is over |
| Runs.RunFromStartLoop | app.py:235-273 | the whole run from `start` when the outline numbers its chapters 1..n |
| Runs.RunFromStart | app.py:235-273 | keys 1..n: the run reaches END, its trace is info, outline, n chapter calls (one when n = 0), review, export, so n + 4 calls (5 when n = 0); the status ends `exported` and the cursor at n + 1 |
| Runs.RunFromStartChapters | app.py:143-146 | keys 1..n: at the end every chapter 1..n holds the model's text for it, and nothing else in the chapters changed |
| Runs.RunFromStartKeeps | app.py:49-106 | keys 1..n: the run keeps the collected title, genre, audience and outline, and records the review and both paths |
| Runs.RunFromStartCrashes | app.py:112-116 | a gap at m, with 1..m-1 present and m within the count: the run raises `KeyError(m)` after m chapter calls; chapters 1..m-1 are written and the cursor stays at m |
| Runs.RunFromStartFinishes | app.py:235-273 | a run from `start` reaches END iff the outline's chapter numbers are exactly 1..len(chapters) |

## Left out

- Vertex AI initialisation and `model.generate_content` are foreign network calls. Their replies are the `Replies` inputs, and the model's actual text is not modelled.
- `json.loads` is modelled by its outcome: a parsed record, with `None` for a reply it rejects.
  - Some parsed values of the wrong shape raise an uncaught exception: a list where an object is expected, a missing outline key, or a non-string title (`.replace` at app.py:200).
  - Other wrong shapes, such as a non-string genre, audience or chapter title, are only interpolated into the prompts and the document, and never raise.
  - The model has neither case, because every field is a `string`.
  - Chapter numbers are modelled as integers. A number that arrives as a JSON string would make every lookup fail, and that case is not modelled.
- Prompt wording and string templating. The values each prompt interpolates are kept:
  - the outline prompt's `BookHeader`;
  - the chapter prompt's `ChapterRequest`, including the previous chapter's title and 500-character excerpt;
  - the review summary's `BookHeader` and its lines with the 100-character cut.

  The fixed text around them, and the literal `...` and `(resumido)` markers, are not modelled. The information prompt (app.py:52-56) interpolates nothing.
- Every foreign call returns.
  - An exception from `generate_content` or `response.text` (app.py:58-60, 87, 142, 179), or from `doc.save` or `pdf.output` (app.py:201, 228), would end the run inside that node. A title containing `/`, for example, makes `doc.save` fail.
  - The `except` at app.py:64 catches only `json.JSONDecodeError`.
  - `Run`, `Apply` and `RunFromStartFinishes` describe runs in which none of these calls raises. The chapter node's `KeyError` is the only exception the model has.
- Writing the `.docx` and `.pdf` files through `python-docx` and `FPDF`, including the `"\n\n"` paragraph split. The model stops at the `Document` value handed to the writers and the two paths.
- The LangGraph `StateGraph`, its compilation and `stream`, and `MemorySaver`. `Drive` replaces them with an explicit loop that starts by routing on the initial status. The source's `add_conditional_edges("", router)` wiring of the entry, and that runtime's own handling of the state dictionary, are not modelled.
- `Drive` has no step cap. The LangGraph runtime stops a run with `GraphRecursionError` after its default limit of 25 steps, that is, for an outline of more than about 21 chapters. `Runs.RunFromStart` proves END for every n, because this limit is not modelled.
- `memory.get_checkpoint()`. The final state is the `RunResult` of `Drive` instead.
- Console printing, `argparse` and `main.py`, the Streamlit front-end. These are input and output only.
- The source has no theme field, no feedback-export stage, no padding of the outline to five chapters and no stripping of characters from file names. The model follows the code and has none of these either.

## Findings

No source defect is claimed. The proved behaviour on gaps is how `app.py` behaves as written: `RunFromStartCrashes` shows that an outline whose numbers do not run 1..n crashes the run with `KeyError`.
