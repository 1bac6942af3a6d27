/** Execution bindings and result extraction (app.py lines 89-108). */
module Sandbox {
  import opened Base
  import opened Text
  import opened Tables

  /** A runtime value a binding can hold. `Object` stands for any other value the generated code
      creates (a chart, a Series, a number, ...), told apart by an uninterpreted tag. */
  datatype Value = PyNone | Frame(table: Table) | Module(name: string) | Object(tag: int)

  type Bindings = map<string, Value>

  /** What the core shows on the page, in order. */
  datatype Element =
    | Code(text: string)
    | Chart(figure: Value)
    | Caption(text: string)
    | DataView(table: Value)
    | DownloadButton(title: string, data: seq<byte>, fileName: string, mime: string)
    | ErrorBox(text: string)

  const ResultCaption: string := "\U{1F9FE} Result Table:"
  const DownloadLabel: string := "\U{2B07}\U{FE0F} Download Results"
  const DownloadName: string := "result.csv"
  const DownloadMime: string := "text/csv"
  const ErrorPrefix: string := "\U{26A0}\U{FE0F} Error executing AI-generated code: "

  /** The error box for an exception caught by the `try` of line 89. */
  function ErrorText(message: string): string {
    ErrorPrefix + message
  }

  /** `dfs[i]` as the generated code sees it: a frame or Python's `None`. */
  function ValueOf(df: Option<Table>): Value {
    match df
    case Some(t) => Frame(t)
    case None => PyNone
  }

  /** The names seeded before execution. */
  function SeedNames(uploadCount: nat): set<string> {
    {"df1", "pd", "px"} + (if uploadCount > 1 then {"df2"} else {})
  }

  /** The bindings seeded before execution, as a value. */
  function Seed(dfs: seq<Option<Table>>): (vars: Bindings)
    requires |dfs| >= 1
    ensures vars.Keys == SeedNames(|dfs|)
    ensures vars["df1"] == ValueOf(dfs[0])
  {
    var base := map["df1" := ValueOf(dfs[0]), "pd" := Module("pandas"), "px" := Module("plotly.express")];
    if |dfs| > 1 then base["df2" := ValueOf(dfs[1])] else base
  }

  /** `local_vars = {"df1": dfs[0], "pd": pd, "px": px}` and, with more than one upload,
      `local_vars["df2"] = dfs[1]`, built in place as the source does. */
  method SeedBindings(dfs: seq<Option<Table>>) returns (vars: Bindings)
    requires |dfs| >= 1
    ensures vars == Seed(dfs)
  {
    vars := map["df1" := ValueOf(dfs[0]), "pd" := Module("pandas"), "px" := Module("plotly.express")];
    if |dfs| > 1 {
      vars := vars["df2" := ValueOf(dfs[1])];
    }
  }

  /** The seeded bindings hold `df2` iff a second file was uploaded; `df1` is the first
      upload's table and `df2` the second's, `None` when it did not load; `pd` and `px` are the
      two library modules; neither output name is bound beforehand. */
  lemma SeedContents(dfs: seq<Option<Table>>)
    requires |dfs| >= 1
    ensures "df2" in Seed(dfs) <==> |dfs| > 1
    ensures dfs[0].None? ==> Seed(dfs)["df1"] == PyNone
    ensures |dfs| > 1 ==> Seed(dfs)["df2"] == ValueOf(dfs[1])
    ensures |dfs| > 1 && dfs[1].None? ==> Seed(dfs)["df2"] == PyNone
    ensures Seed(dfs)["pd"] == Module("pandas") && Seed(dfs)["px"] == Module("plotly.express")
    ensures "fig" !in Seed(dfs) && "result" !in Seed(dfs)
  {
  }

  /** The two outputs looked up under the reserved names. */
  datatype Extraction = Extraction(figure: Option<Value>, result: Option<Value>)

  /** `"fig" in local_vars` and `"result" in local_vars`, checked independently. */
  function Extract(vars: Bindings): (x: Extraction)
    ensures x.figure.Some? <==> "fig" in vars
    ensures x.result.Some? <==> "result" in vars
    ensures x.figure.Some? ==> x.figure.value == vars["fig"]
    ensures x.result.Some? ==> x.result.value == vars["result"]
  {
    Extraction(
      if "fig" in vars then Some(vars["fig"]) else None,
      if "result" in vars then Some(vars["result"]) else None)
  }

  /** Each output depends only on its own name: rebinding or removing any other name leaves it
      as it was. */
  lemma ExtractIndependent(vars: Bindings, name: string, v: Value)
    ensures name != "fig" ==> Extract(vars[name := v]).figure == Extract(vars).figure
    ensures name != "fig" ==> Extract(vars - {name}).figure == Extract(vars).figure
    ensures name != "result" ==> Extract(vars[name := v]).result == Extract(vars).result
    ensures name != "result" ==> Extract(vars - {name}).result == Extract(vars).result
  {
  }

  /** Bindings that agree on the two reserved names extract alike, whatever else they hold. */
  lemma ExtractOnlyReadsReserved(a: Bindings, b: Bindings)
    requires ("fig" in a <==> "fig" in b) && ("fig" in a ==> a["fig"] == b["fig"])
    requires ("result" in a <==> "result" in b) && ("result" in a ==> a["result"] == b["result"])
    ensures Extract(a) == Extract(b)
  {
  }

  /** `result.to_csv(index=False)`: a frame goes through pandas' writer; `None` and the two
      modules have no `to_csv` attribute; any other object's behaviour is the library's. */
  function ToCsv(v: Value, tableToCsv: Table -> string, objectToCsv: int -> Result<string>): (r: Result<string>)
    ensures v.Frame? ==> r == Success(tableToCsv(v.table))
    ensures v.PyNone? || v.Module? ==> r.Failure?
    ensures v.Object? ==> r == objectToCsv(v.tag)
  {
    match v
    case Frame(t) => Success(tableToCsv(t))
    case PyNone => Failure("'NoneType' object has no attribute 'to_csv'")
    case Module(name) => Failure("module '" + name + "' has no attribute 'to_csv'")
    case Object(tag) => objectToCsv(tag)
  }

  /** Lines 96-105: the chart, then the table with its caption, then the download of its
      UTF-8 CSV; if writing the CSV raises, the `except` adds an error box after what was
      already shown. */
  function Present(x: Extraction, tableToCsv: Table -> string, objectToCsv: int -> Result<string>): (shown: seq<Element>)
    ensures x.figure.None? && x.result.None? ==> shown == []
    ensures x.figure.Some? ==> |shown| >= 1 && shown[0] == Chart(x.figure.value)
    ensures x.result.Some? ==>
      (|shown| >= 3 && shown[|shown| - 2] == DataView(x.result.value) && shown[|shown| - 3] == Caption(ResultCaption))
    ensures |shown| <= 4
  {
    (if x.figure.Some? then [Chart(x.figure.value)] else []) +
    (match x.result
     case None => []
     case Some(r) =>
       [Caption(ResultCaption), DataView(r)] +
       (match ToCsv(r, tableToCsv, objectToCsv)
        case Success(csv) => [DownloadButton(DownloadLabel, Utf8(csv), DownloadName, DownloadMime)]
        case Failure(e) => [ErrorBox(ErrorText(e))]))
  }

  predicate ShowsChart(shown: seq<Element>) { exists i :: 0 <= i < |shown| && shown[i].Chart? }
  predicate ShowsTable(shown: seq<Element>) { exists i :: 0 <= i < |shown| && shown[i].DataView? }
  predicate ShowsDownload(shown: seq<Element>) { exists i :: 0 <= i < |shown| && shown[i].DownloadButton? }
  predicate ShowsError(shown: seq<Element>) { exists i :: 0 <= i < |shown| && shown[i].ErrorBox? }

  /** After a successful execution: a chart appears iff `fig` is bound, and it is that value; a
      table appears iff `result` is bound, and it is that value; a download appears iff `result`
      is bound and its CSV could be written, and it is named `result.csv` and holds the UTF-8
      bytes of that CSV; an error appears iff writing the CSV raised. */
  lemma {:induction false} PresentOutputs(vars: Bindings, tableToCsv: Table -> string, objectToCsv: int -> Result<string>)
    ensures ShowsChart(Present(Extract(vars), tableToCsv, objectToCsv)) <==> "fig" in vars
    ensures forall e :: e in Present(Extract(vars), tableToCsv, objectToCsv) && e.Chart? ==> e.figure == vars["fig"]
    ensures ShowsTable(Present(Extract(vars), tableToCsv, objectToCsv)) <==> "result" in vars
    ensures forall e :: e in Present(Extract(vars), tableToCsv, objectToCsv) && e.DataView? ==> e.table == vars["result"]
    ensures ShowsDownload(Present(Extract(vars), tableToCsv, objectToCsv)) <==>
      "result" in vars && ToCsv(vars["result"], tableToCsv, objectToCsv).Success?
    ensures forall e :: e in Present(Extract(vars), tableToCsv, objectToCsv) && e.DownloadButton? ==>
      e.fileName == DownloadName && e.mime == DownloadMime &&
      e.data == Utf8(ToCsv(vars["result"], tableToCsv, objectToCsv).value)
    ensures ShowsError(Present(Extract(vars), tableToCsv, objectToCsv)) <==>
      "result" in vars && ToCsv(vars["result"], tableToCsv, objectToCsv).Failure?
  {
    var shown := Present(Extract(vars), tableToCsv, objectToCsv);
    var chart := if "fig" in vars then [Chart(vars["fig"])] else [];
    if "fig" in vars { assert shown[0].Chart?; }
    if "result" in vars {
      var r := vars["result"];
      assert shown[|chart| + 1] == DataView(r);
      match ToCsv(r, tableToCsv, objectToCsv)
      case Success(csv) => assert shown[|chart| + 2].DownloadButton?;
      case Failure(e) => assert shown[|chart| + 2].ErrorBox?;
    }
  }

  /** A result frame always yields a download of its pandas CSV. */
  lemma FrameResultDownloads(vars: Bindings, t: Table, tableToCsv: Table -> string, objectToCsv: int -> Result<string>)
    requires "result" in vars && vars["result"] == Frame(t)
    ensures DownloadButton(DownloadLabel, Utf8(tableToCsv(t)), DownloadName, DownloadMime)
      in Present(Extract(vars), tableToCsv, objectToCsv)
  {
  }
}
