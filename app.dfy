/** One pass of the main block of app.py (lines 60-108) and of the whole script (lines 21-24,
    33-34, 60-108): guard, history, load, sample, prompt, generate, execute, extract. */
module App {
  import opened Base
  import opened Text
  import opened Tables
  import opened Normalizer
  import opened Sample
  import opened Prompt
  import opened Sandbox
  import opened History

  /** The library behaviour the run depends on: the readers, pandas' CSV writer for frames and
      the `to_csv` of any other object the generated code may bind to `result`. */
  datatype Library = Library(
    readers: Readers,
    tableToCsv: Table -> string,
    objectToCsv: int -> Result<string>)

  /** How a pass of the main block ends.
      `Skipped`: the guard of line 60 failed. `Crashed`: an exception escaped the main block
      (a reader in `load_file`, or the model client) before any code was shown. `Shown`: the
      generated code was shown and then whatever the `try` block produced. */
  datatype Outcome = Skipped | Crashed(error: string) | Shown(elements: seq<Element>)

  /** Line 60: `if uploaded_files and user_prompt`. */
  predicate ShouldRun(uploads: seq<Upload>, intent: string) {
    |uploads| > 0 && |intent| > 0
  }

  /** `[f.name for f in uploaded_files]`. */
  function Names(uploads: seq<Upload>): (names: seq<string>)
    ensures |names| == |uploads|
    ensures forall i :: 0 <= i < |uploads| ==> names[i] == uploads[i].name
  {
    seq(|uploads|, i requires 0 <= i < |uploads| => uploads[i].name)
  }

  /** The prompt sent to the model, once every file loaded. */
  function PromptOf(dfs: seq<Option<Table>>, intent: string, lib: Library): string {
    BuildPrompt(intent, SampleData(dfs, lib.tableToCsv))
  }

  /** What the `try` block (lines 89-108) shows after the code. */
  function Executed(code: string, dfs: seq<Option<Table>>, lib: Library,
                    execute: (string, Bindings) -> Result<Bindings>): (shown: seq<Element>)
    requires |dfs| >= 1
    ensures execute(code, Seed(dfs)).Failure? ==> |shown| == 1 && shown[0].ErrorBox?
    ensures |shown| <= 4
  {
    match execute(code, Seed(dfs))
    case Failure(e) => [ErrorBox(ErrorText(e))]
    case Success(post) => Present(Extract(post), lib.tableToCsv, lib.objectToCsv)
  }

  /** The steps after the history append (lines 68-108), as a value. */
  function Process(uploads: seq<Upload>, intent: string, lib: Library,
                   generate: string -> Result<string>,
                   execute: (string, Bindings) -> Result<Bindings>): (o: Outcome)
    requires |uploads| >= 1
    ensures !o.Skipped?
    ensures o.Shown? ==> |o.elements| >= 1 && o.elements[0].Code?
  {
    match LoadAll(uploads, lib.readers)
    case Failure(e) => Crashed(e)
    case Success(dfs) =>
      match generate(PromptOf(dfs, intent, lib))
      case Failure(e) => Crashed(e)
      case Success(code) => Shown([Code(code)] + Executed(code, dfs, lib, execute))
  }

  /** The main block. The entry is appended before anything can fail, so an attempted run is
      recorded whatever happens after. */
  method Run(h: SessionHistory, uploads: seq<Upload>, intent: string, now: string, lib: Library,
             generate: string -> Result<string>, execute: (string, Bindings) -> Result<Bindings>)
    returns (outcome: Outcome)
    requires h.Valid() && h.present
    modifies h
    ensures h.Valid() && h.present
    ensures ShouldRun(uploads, intent) ==> h.entries == old(h.entries) + [Entry(now, intent, Names(uploads))]
    ensures !ShouldRun(uploads, intent) ==> h.entries == old(h.entries)
    ensures outcome.Skipped? <==> !ShouldRun(uploads, intent)
    ensures ShouldRun(uploads, intent) ==> outcome == Process(uploads, intent, lib, generate, execute)
  {
    if !ShouldRun(uploads, intent) {
      return Skipped;
    }
    h.Append(Entry(now, intent, Names(uploads)));
    var loaded := LoadAll(uploads, lib.readers);
    if loaded.Failure? {
      return Crashed(loaded.error);
    }
    var dfs := loaded.value;
    var sample := SampleData(dfs, lib.tableToCsv);
    var prompt := BuildPrompt(intent, sample);
    var reply := generate(prompt);
    if reply.Failure? {
      return Crashed(reply.error);
    }
    var code := reply.value;
    var shown := [Code(code)];
    var vars := SeedBindings(dfs);
    var executed := execute(code, vars);
    if executed.Failure? {
      shown := shown + [ErrorBox(ErrorText(executed.error))];
    } else {
      var post := executed.value;
      shown := shown + Present(Extract(post), lib.tableToCsv, lib.objectToCsv);
    }
    outcome := Shown(shown);
  }

  /** One execution of the whole script: the sidebar is drawn from the history as it stands,
      then the history is created if missing, then the main block runs. */
  method ScriptPass(h: SessionHistory, uploads: seq<Upload>, intent: string, now: string, lib: Library,
                    generate: string -> Result<string>, execute: (string, Bindings) -> Result<Bindings>)
    returns (sidebar: seq<Entry>, outcome: Outcome)
    requires h.Valid()
    modifies h
    ensures sidebar == (if old(h.present) && old(h.entries) != [] then RecentOf(old(h.entries)) else [])
    ensures h.Valid() && h.present
    ensures ShouldRun(uploads, intent) ==> h.entries == old(h.entries) + [Entry(now, intent, Names(uploads))]
    ensures !ShouldRun(uploads, intent) ==> h.entries == old(h.entries)
    ensures outcome.Skipped? <==> !ShouldRun(uploads, intent)
    ensures ShouldRun(uploads, intent) ==> outcome == Process(uploads, intent, lib, generate, execute)
  {
    sidebar := h.Sidebar();
    h.Initialize();
    outcome := Run(h, uploads, intent, now, lib, generate, execute);
  }

  /** A pass ends in a crash exactly when a reader or the model client raised, and then with
      that exception; otherwise the generated code is the first thing shown. */
  lemma ProcessCrashes(uploads: seq<Upload>, intent: string, lib: Library,
                       generate: string -> Result<string>, execute: (string, Bindings) -> Result<Bindings>)
    requires |uploads| >= 1
    ensures var o := Process(uploads, intent, lib, generate, execute);
      o.Crashed? <==>
        LoadAll(uploads, lib.readers).Failure? ||
        generate(PromptOf(LoadAll(uploads, lib.readers).value, intent, lib)).Failure?
    ensures var o := Process(uploads, intent, lib, generate, execute);
      LoadAll(uploads, lib.readers).Failure? ==> o == Crashed(LoadAll(uploads, lib.readers).error)
    ensures var o := Process(uploads, intent, lib, generate, execute);
      o.Shown? ==> (|o.elements| >= 1 &&
        o.elements[0] == Code(generate(PromptOf(LoadAll(uploads, lib.readers).value, intent, lib)).value))
  {
  }

  /** When generation fails nothing is shown and nothing is executed: the outcome does not
      depend on the executor at all. */
  lemma GenerationFailureSkipsExecution(uploads: seq<Upload>, intent: string, lib: Library,
                                        generate: string -> Result<string>,
                                        exec1: (string, Bindings) -> Result<Bindings>,
                                        exec2: (string, Bindings) -> Result<Bindings>)
    requires |uploads| >= 1
    requires LoadAll(uploads, lib.readers).Success?
    requires generate(PromptOf(LoadAll(uploads, lib.readers).value, intent, lib)).Failure?
    ensures Process(uploads, intent, lib, generate, exec1) == Process(uploads, intent, lib, generate, exec2)
    ensures Process(uploads, intent, lib, generate, exec1) ==
      Crashed(generate(PromptOf(LoadAll(uploads, lib.readers).value, intent, lib)).error)
  {
  }

  /** The model client is consulted on one prompt only, the template filled with the intent
      and the sample: two clients that answer that prompt alike give the same outcome. */
  lemma OnlyThePromptReachesTheModel(uploads: seq<Upload>, intent: string, lib: Library,
                                     gen1: string -> Result<string>, gen2: string -> Result<string>,
                                     execute: (string, Bindings) -> Result<Bindings>)
    requires |uploads| >= 1
    requires LoadAll(uploads, lib.readers).Success?
    requires var p := BuildPrompt(intent, SampleData(LoadAll(uploads, lib.readers).value, lib.tableToCsv));
      gen1(p) == gen2(p)
    ensures Process(uploads, intent, lib, gen1, execute) == Process(uploads, intent, lib, gen2, execute)
  {
  }

  /** An execution failure shows the code and the error box and nothing else: no chart and no
      table, whatever the code bound before it raised. */
  lemma ExecutionFailureShowsOnlyError(code: string, dfs: seq<Option<Table>>, lib: Library,
                                       execute: (string, Bindings) -> Result<Bindings>)
    requires |dfs| >= 1
    requires execute(code, Seed(dfs)).Failure?
    ensures Executed(code, dfs, lib, execute) == [ErrorBox(ErrorText(execute(code, Seed(dfs)).error))]
    ensures !ShowsChart(Executed(code, dfs, lib, execute)) && !ShowsTable(Executed(code, dfs, lib, execute))
    ensures !ShowsDownload(Executed(code, dfs, lib, execute))
  {
    var shown := Executed(code, dfs, lib, execute);
    assert |shown| == 1 && shown[0].ErrorBox?;
  }

  /** After a successful execution the outputs follow the reserved names of the new bindings. */
  lemma ExecutionSuccessOutputs(code: string, dfs: seq<Option<Table>>, lib: Library,
                                execute: (string, Bindings) -> Result<Bindings>)
    requires |dfs| >= 1
    requires execute(code, Seed(dfs)).Success?
    ensures var post := execute(code, Seed(dfs)).value;
      var shown := Executed(code, dfs, lib, execute);
      && (ShowsChart(shown) <==> "fig" in post)
      && (ShowsTable(shown) <==> "result" in post)
      && (ShowsDownload(shown) <==> "result" in post && ToCsv(post["result"], lib.tableToCsv, lib.objectToCsv).Success?)
      && (ShowsError(shown) <==> "result" in post && ToCsv(post["result"], lib.tableToCsv, lib.objectToCsv).Failure?)
  {
    PresentOutputs(execute(code, Seed(dfs)).value, lib.tableToCsv, lib.objectToCsv);
  }

  /** Only unsupported uploads: nothing is loaded, nothing crashes while loading, the sample in
      the prompt is empty and `df1` is bound to `None`. */
  lemma OnlyUnsupportedUploads(uploads: seq<Upload>, intent: string, rd: Readers, toCsv: Table -> string)
    requires |uploads| >= 1
    requires forall i :: 0 <= i < |uploads| ==> KindOf(uploads[i].name) == Unsupported
    ensures LoadAll(uploads, rd).Success?
    ensures BuildPrompt(intent, SampleData(LoadAll(uploads, rd).value, toCsv)) == BuildPrompt(intent, "")
    ensures Seed(LoadAll(uploads, rd).value)["df1"] == PyNone
  {
    LoadAllUnsupported(uploads, rd);
    SampleEmptyWhenNothingLoaded(LoadAll(uploads, rd).value, toCsv);
  }

  /** The sidebar of the next pass lists the entry just recorded first. */
  lemma NextSidebarShowsNewEntry(history: seq<Entry>, e: Entry)
    ensures RecentOf(history + [e]) != [] && RecentOf(history + [e])[0] == e
  {
    RecentAfterAppend(history, e);
  }
}
