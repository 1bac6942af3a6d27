# Smart AI Insight: the query-to-analysis pipeline, modelled in Dafny

The app is a single Streamlit script, `app.py`. A user uploads files and types a question. Each
pass through the script's main block then does the following, in order:

1. It checks that there are uploads and a non-empty question.
2. It appends a `{time, prompt, files}` entry to the session history.
3. It turns every upload with a recognised suffix into a pandas table. The file-name suffix picks the reader: CSV, Excel,
   or the page text of a PDF. An unknown suffix gives no table.
4. It builds a data sample from the first five rows of every table that loaded.
5. It fills a fixed prompt template with the question and the sample.
6. It sends the prompt to a code-generating model and shows the code it returns.
7. It runs that code with `df1`, `pd` and `px` bound, and `df2` when there is a second upload.
8. It shows whatever the code bound to `fig` (a chart) and to `result` (a table, plus a
   `result.csv` download). An ordinary exception (an `Exception`) inside the `try` shows an
   error box.

The sidebar lists the five most recent history entries, newest first.

The model has one module per part of the pipeline:

- `Base`: `Option`, `Result`, `byte`.
- `Text`: Python's `endswith`, `split`, `join`, string accumulation and UTF-8 encoding, written out.
- `Tables`: the table value and `head`.
- `Normalizer`: `load_file` and `extract_text_from_pdf`.
- `Sample`: the data sample.
- `Prompt`: the prompt template.
- `Sandbox`: the bindings, extraction, `to_csv` and what is displayed.
- `History`: the session history, as a class.
- `App`: one pass of the main block and of the whole script.

Calls into code the model cannot see are parameters:

- the pandas readers and `to_csv`;
- PyMuPDF's page texts;
- the model client;
- `exec`;
- the clock.

Apart from the assumptions listed under "## Left out", the model makes none about them. The
exceptions it models are explicit error paths (`Result`), not preconditions:

- a reader raising;
- the model client raising;
- `exec` raising;
- `to_csv` raising on a value that is not a frame.

Behaviour of the code a reader may not expect:

- An unsupported suffix yields no table (`None`), not a table. The pipeline goes on. That
  upload's slot is bound to `None` (`df1` for the first upload, `df2` for the second), and the
  upload adds nothing to the sample.
- An exception in a pandas reader or in PyMuPDF is not caught: the comprehension on line 69 sits
  outside the `try`. So a failing reader ends the pass (`Crashed`) after the history entry was
  written. A failing model call does the same.
- `result.to_csv` sits inside the same `try` as `exec`. If `result` is not something pandas can
  write (`None`, a module, an arbitrary object), the error box appears after the chart and the
  result table were already shown. The "no outputs on failure" rule holds only for errors raised
  by `exec` itself.
- The sidebar is drawn (lines 21-24) before the main block appends (line 62). A pass therefore
  lists the history as it was before that pass's own entry (`App.ScriptPass`). Before the first
  pass has created the history key, the sidebar lists nothing.
- Nothing limits the uploads to two. Every table that loads goes into the sample. Only the first
  two uploads are bound, as `df1` and `df2`, whether or not they loaded.
- The suffix test is case-sensitive, so `report.CSV` (or any upper-case suffix) yields no table.
- The temporary PDF file is written with `delete=False` and is never removed.

## Model

| member | source | states |
|---|---|---|
| `Normalizer.KindOf` | app.py:42-47 | the if/elif chain on the name's suffix; no reader is chosen exactly when the name ends in none of `.csv`, `.xlsx`, `.xls` and `.pdf` (the order-independence is `KindBySuffix`) |
| `Normalizer.KindBySuffix` | app.py:41-48 | the chosen reader is CSV iff the name ends in `.csv`, Excel iff it ends in `.xlsx` or `.xls`, and PDF iff it ends in `.pdf`; the suffixes exclude one another, so the order of the checks never matters |
| `Normalizer.UpperCaseSuffixUnsupported` | app.py:42-48 | the suffix test is case-sensitive: every name ending in `.CSV`, `.XLSX`, `.XLS` or `.PDF` gets no reader |
| `Normalizer.LoadFile` | app.py:41-48 | an unsupported name gives `None` and never an error; `None` is given only for an unsupported name |
| `Normalizer.Lift` | app.py:43-45 | a pandas reader's table is returned as the load result, and its exception propagates unchanged; `LoadFileDispatch` states which reader is used |
| `Normalizer.LoadFileDispatch` | app.py:41-48 | each suffix reaches exactly its own reader (CSV reader, Excel reader, PDF page extraction), with that reader's result or exception; any other name gives `None` |
| `Normalizer.LinesTable` | app.py:57 | `pd.DataFrame({'PDF_Text': text.split("\n")})`: one `PDF_Text` column and one single-cell row per split piece; its shape is `PdfTableShape` |
| `Normalizer.PdfTable` | app.py:54-57 | the table of the page texts accumulated in page order; its shape is `PdfTableShape`, and the loop computing it is `ExtractTextFromPdf` |
| `Normalizer.ExtractTextFromPdf` | app.py:50-57 | the page loop accumulates the page texts in page order, and its result is the one-column table of that text split on newlines |
| `Normalizer.PdfTableShape` | app.py:54-57 | the PDF table has the single column `PDF_Text`; it has one row more than the text has newlines; each row is one line without a newline; joining the lines with `"\n"` gives back the concatenated page text |
| `Normalizer.EmptyPdfOneRow` | app.py:54-57 | a PDF with no pages, or with pages without text, still gives exactly one row, the empty line |
| `Normalizer.LoadAll` | app.py:69 | on success there is one entry per upload, in upload order, each that upload's `load_file` result; on failure the error is that of the first upload whose reader raised, and every earlier upload loaded |
| `Normalizer.LoadAllSucceeds` | app.py:69 | if every upload's reader succeeds, loading as a whole succeeds |
| `Normalizer.LoadAllUnsupported` | app.py:48 | uploads that are all unsupported load without error, each to `None` |
| `Text.Split` | app.py:57 | `str.split("\n")`: every newline ends a piece, empty pieces are kept, and at least one piece is returned; its properties are `SplitCount`, `SplitPiecesFree`, `JoinSplit` and `SplitJoin` |
| `Text.SplitCount` | app.py:57 | `split("\n")` gives one piece more than there are newlines |
| `Text.SplitPiecesFree` | app.py:57 | no piece of the split contains the separator |
| `Text.EndsWith` | app.py:42-46 | `str.endswith`, case-sensitive; which suffix picks which reader is `Normalizer.KindBySuffix` |
| `Text.Join` | app.py:70 | `sep.join(parts)`; `JoinSplit` and `SplitJoin` make it the inverse of `Split`, and `Sample.SampleSplits` joins two groups' excerpts with it |
| `Text.Concat` | app.py:54-56 | the `text +=` accumulation as a value; it distributes over runs of pages (`ConcatAppend`) and is the invariant of the loop in `Normalizer.ExtractTextFromPdf` |
| `Text.JoinSplit` | app.py:57 | joining the pieces with the separator restores the text |
| `Text.SplitJoin` | app.py:57 | conversely, for a non-empty list of pieces free of the separator, splitting their join gives exactly those pieces, so the split is the unique such decomposition |
| `Text.ConcatAppend` | app.py:54-56 | the text accumulated from two runs of pages is the first run's text followed by the second's |
| `Text.EncodeChar` | app.py:104 | one character encodes to 1 to 4 bytes; it takes one byte, equal to its code, iff it is ASCII; a multi-byte encoding starts with a lead byte at least `0xC0`, and all later bytes are continuation bytes (`0x80`-`0xBF`) |
| `Text.Utf8` | app.py:104 | `encode('utf-8')` yields between one and four bytes per character |
| `Text.Utf8Append` | app.py:104 | encoding two strings one after the other equals encoding them separately and concatenating the bytes |
| `Text.Utf8Ascii` | app.py:104 | an ASCII CSV encodes byte-for-byte to its character codes |
| `Tables.Head` | app.py:70 | `head(n)` keeps the columns and exactly the first min(n, row count) rows |
| `Sample.Loaded` | app.py:70 | the `isinstance` filter: there are no more tables than uploads (which tables are kept, and in what order, is `LoadedInOrder`) |
| `Sample.Excerpts` | app.py:70 | `df.head(5).to_csv(index=False)` for each loaded table, in order; its contents are `ExcerptRows` |
| `Sample.SampleData` | app.py:70 | the excerpts of the loaded tables joined with `"\n\n"`; empty when no table loaded, and exactly the one excerpt when one table loaded |
| `Sample.PositionsFrom` | app.py:70 | the positions, from a given one on, of the uploads whose reader gave a table: each such position once, in strictly increasing order, and no other |
| `Sample.LoadedInOrder` | app.py:70 | only tables that loaded contribute, in upload order: the k-th contribution is the table of the k-th upload that loaded, and positions are strictly increasing and cover every loaded upload |
| `Sample.LoadedEmpty` | app.py:70 | no table contributes iff every upload gave `None` |
| `Sample.ExcerptRows` | app.py:70 | there is one excerpt per loaded table, in order; the k-th is `to_csv` of the k-th loaded table's head, made of its columns and its first min(5, row count) rows |
| `Sample.SampleEmptyWhenNothingLoaded` | app.py:70 | when no table loaded, the sample is the empty string |
| `Sample.SampleSplits` | app.py:70 | the sample of two groups of uploads, each with a loaded table, is the first group's sample, a blank line (`"\n\n"`), then the second group's |
| `Prompt.BuildPrompt` | app.py:72-78 | the f-string template: the prompt is exactly as long as the template text plus the intent and the sample (its layout is `PromptLayout`) |
| `Prompt.PromptLayout` | app.py:72-78 | the prompt begins with the fixed opening, followed by the intent verbatim, the fixed "Data Sample" heading, the sample verbatim and the fixed closing instruction, each at its offset, in that order |
| `Prompt.PromptDeterminesInputs` | app.py:72-78 | for intents of equal length, equal prompts mean equal intents and equal samples |
| `Prompt.PromptAmbiguous` | app.py:72-78 | for all strings a, b, c: the intent a + heading + b with sample c gives the same prompt as the intent a with sample b + heading + c, so the prompt alone does not determine its inputs |
| `Sandbox.ValueOf` | app.py:90-92 | an upload's load result as the generated code sees it: its frame, or Python's `None` for an unsupported upload (used by `Seed` and `SeedContents`) |
| `Sandbox.SeedNames` | app.py:90-92 | the names defined before `exec`: `df1`, `pd`, `px`, and `df2` when there is more than one upload; `Seed` states that its keys are exactly these |
| `Sandbox.Seed` | app.py:90-92 | the seeded bindings as a value: the names are exactly `df1`, `pd`, `px`, plus `df2` when there is more than one upload, and `df1` is the first upload's table or `None` |
| `Sandbox.SeedBindings` | app.py:90-92 | the dictionary built in place by the two assignments equals `Seed` |
| `Sandbox.SeedContents` | app.py:90-92 | `df2` is bound iff there is more than one upload; `df1` and `df2` are the first and second uploads' tables, `None` when they did not load; `pd` and `px` are the two library modules; `fig` and `result` are not bound |
| `Sandbox.ErrorText` | app.py:108 | the error box text: the fixed prefix followed by the exception's message; `App.ExecutionFailureShowsOnlyError` states when it is shown |
| `Sandbox.Extract` | app.py:96-99 | a figure is extracted iff `fig` is bound, and a result iff `result` is bound, each with the bound value |
| `Sandbox.ToCsv` | app.py:104 | `result.to_csv(index=False)`: a frame gives pandas' CSV; `None` and the modules raise (no `to_csv` attribute); any other object behaves as the library does |
| `Sandbox.Present` | app.py:96-105 | the elements shown after a successful execution: nothing when neither name is bound; the chart first when `fig` is bound; the caption and the table just before the last element when `result` is bound; at most four elements (the iff statements are `PresentOutputs`) |
| `Sandbox.ExtractIndependent` | app.py:96-98 | rebinding or removing any other name changes neither extracted output, so the two checks are independent |
| `Sandbox.ExtractOnlyReadsReserved` | app.py:96-98 | bindings that agree on `fig` and `result` give the same extraction |
| `Sandbox.PresentOutputs` | app.py:96-108 | after a successful execution: a chart is shown iff `fig` is bound; a result table is shown iff `result` is bound; a download is offered iff `result` is bound and its CSV could be written, and it is named `result.csv` (`text/csv`) and holds the UTF-8 bytes of that CSV; an error box appears iff writing the CSV raised |
| `Sandbox.FrameResultDownloads` | app.py:98-105 | a result that is a data frame always yields the download of its pandas CSV |
| `History.Reverse` | app.py:23 | the `[::-1]` slice, as a value; its contents are `ReverseAt` |
| `History.ReverseAt` | app.py:23 | `[::-1]` keeps the length, and entry i of the reversed list is entry n-1-i of the original |
| `History.RecentOf` | app.py:23 | the view has min(5, n) entries, and entry i is `history[n-1-i]` (most recent first) |
| `History.RecentAfterAppend` | app.py:23 | after one append, the view is the new entry followed by the previous view, dropping its oldest entry once five were shown |
| `History.SessionHistory.constructor` | app.py:33 | a fresh session has no history key and no entries |
| `History.SessionHistory.Initialize` | app.py:33-34 | afterwards the key exists, and an existing history is kept unchanged |
| `History.SessionHistory.Append` | app.py:62-66 | exactly one entry is added at the end, and the earlier entries are unchanged |
| `History.SessionHistory.Recent` | app.py:23 | the sidebar list is the recent view of the current entries: min(5, n) entries, most recent first |
| `History.SessionHistory.Sidebar` | app.py:21-23 | the list is shown only when the key exists and the history is non-empty, and is then the non-empty recent view |
| `App.ShouldRun` | app.py:60 | the truthiness guard: at least one upload and a non-empty intent; `App.Run` states that a pass appends and processes exactly when it holds |
| `App.Names` | app.py:64 | the recorded file names are the upload names, one per upload, in order |
| `App.PromptOf` | app.py:70-78 | the prompt sent to the model: the template filled with the intent and the sample of the loaded tables; `App.OnlyThePromptReachesTheModel` states that only this reaches the model |
| `App.Executed` | app.py:89-108 | the `try` block after the code: if execution raises, one error box and nothing else; in every case at most four elements (what each element depends on is `ExecutionFailureShowsOnlyError` and `ExecutionSuccessOutputs`) |
| `App.Process` | app.py:68-108 | the steps after the history append: load, sample, prompt, generate, execute, extract; never `Skipped`, and whenever something is shown, the generated code comes first (the cases are `ProcessCrashes` and the lemmas below) |
| `App.Run` | app.py:60-108 | a pass runs iff there are uploads and a non-empty intent; a run appends exactly one entry (time, intent, file names), whatever happens later, and otherwise leaves the history alone; its outcome is the load-sample-prompt-generate-execute-extract pipeline |
| `App.ScriptPass` | app.py:21-108 | the sidebar lists the recent view of the history as it was before this pass (empty before the history exists), then the history is created if it is missing, then the main block runs as `Run` states |
| `App.ProcessCrashes` | app.py:69-86 | a pass crashes iff a reader or the model client raised; a reader failure is reported with the reader's error; otherwise the generated code is the first thing shown |
| `App.GenerationFailureSkipsExecution` | app.py:80-94 | when the model client fails, the outcome is that failure, no code is shown, and the executor is never consulted |
| `App.OnlyThePromptReachesTheModel` | app.py:72-86 | the model is consulted only on the template filled with the intent and the sample, so two clients that agree on that prompt give the same outcome |
| `App.ExecutionFailureShowsOnlyError` | app.py:94-108 | if execution raises, exactly one error box with the source's message prefix follows the code; no chart, table or download is shown, even if the code bound `fig` before it raised |
| `App.ExecutionSuccessOutputs` | app.py:94-105 | after a successful execution, the chart, table, download and error box follow the new bindings' `fig` and `result` as `PresentOutputs` states |
| `App.OnlyUnsupportedUploads` | app.py:41-92 | uploads that are all unsupported load without error, the prompt's sample is empty, and `df1` is bound to `None` |
| `App.NextSidebarShowsNewEntry` | app.py:23 | once an entry is recorded, the next pass's sidebar lists it first |

## Left out

- `Sandbox.ToCsv`: pandas' `to_csv` of a frame is taken to be total, both for the sample
  (line 70, outside the `try`, so a raise there would end the pass) and for the result
  (line 104). Only non-frame values can fail.
- Exceptions outside `Exception` (`SystemExit` from `exit()` in the generated code,
  `KeyboardInterrupt`) escape the handler of line 107. The model treats every failure of
  `exec` as an ordinary exception that shows the error box.
- Streamlit presentation (page config, sidebar markdown and formatting, widgets, `st.code`,
  `st.dataframe`, `st.plotly_chart`, the download widget itself): the model records what is
  shown, as a sequence of elements. It assumes that drawing a chart or a table does not raise.
- Streamlit's re-execution of the whole script on every interaction: the model covers one pass
  (`App.ScriptPass`). Repeated passes with the same inputs append one entry each and call the
  model each time.
- The OpenAI client (lines 80-86) is a parameter returning code text or an exception. The model
  name, temperature and API key (line 30) are not modelled.
- `exec` (line 94) is a parameter returning the new bindings or an exception. The model does not
  capture sharing between the bindings and the loaded tables: the generated code receives the
  frames themselves and may change them.
- `execute` changes only the bindings. The generated code runs with Python's builtins, so it
  could draw Streamlit elements itself, edit `st.session_state['history']` or touch files; none
  of that is modelled. The display contracts (`App.ExecutionFailureShowsOnlyError`,
  `Sandbox.PresentOutputs`) and the history clause of `App.Run` cover what app.py itself shows
  and appends.
- The pandas readers, PyMuPDF's text extraction and `to_csv` are uninterpreted parameters. Cell
  values other than PDF text are uninterpreted data.
- The temporary file of `extract_text_from_pdf` (file I/O): only the page texts are modelled.
- `pd.Timestamp.now().strftime(...)` (line 65): the time string is an input.
- `Text.Utf8`: assumes strings of Unicode scalar values. Python strings may also hold lone
  surrogates, which make `encode('utf-8')` raise; that error is not modelled.
