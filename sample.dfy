/** The data sample placed in the prompt (app.py line 70):
    `"\n\n".join([df.head(5).to_csv(index=False) for df in dfs if isinstance(df, pd.DataFrame)])`. */
module Sample {
  import opened Base
  import opened Text
  import opened Tables

  /** Rows of each table shown to the model. */
  const SampleRows: nat := 5
  /** The separator between two tables' excerpts: a blank line. */
  const Separator: string := "\n\n"

  /** The tables that loaded, in upload order (the `isinstance` filter). */
  function Loaded(dfs: seq<Option<Table>>): (tables: seq<Table>)
    ensures |tables| <= |dfs|
  {
    if dfs == [] then []
    else (if dfs[0].Some? then [dfs[0].value] else []) + Loaded(dfs[1..])
  }

  /** The positions, from `from` on, of the uploads that loaded, in increasing order. */
  function PositionsFrom(dfs: seq<Option<Table>>, from: nat): (ix: seq<nat>)
    requires from <= |dfs|
    ensures forall k :: 0 <= k < |ix| ==> from <= ix[k] < |dfs| && dfs[ix[k]].Some?
    ensures forall k, l :: 0 <= k < l < |ix| ==> ix[k] < ix[l]
    ensures forall i :: from <= i < |dfs| && dfs[i].Some? ==> i in ix
    decreases |dfs| - from
  {
    if from == |dfs| then []
    else (if dfs[from].Some? then [from] else []) + PositionsFrom(dfs, from + 1)
  }

  /** The positions of all uploads that loaded. */
  function LoadedPositions(dfs: seq<Option<Table>>): seq<nat> {
    PositionsFrom(dfs, 0)
  }

  /** One step of `Loaded` and `PositionsFrom` at position `from`. */
  lemma LoadedStep(dfs: seq<Option<Table>>, from: nat)
    requires from < |dfs|
    ensures Loaded(dfs[from..])
      == (if dfs[from].Some? then [dfs[from].value] else []) + Loaded(dfs[from + 1..])
    ensures PositionsFrom(dfs, from)
      == (if dfs[from].Some? then [from] else []) + PositionsFrom(dfs, from + 1)
  {
    assert dfs[from..][1..] == dfs[from + 1..];
  }

  lemma {:induction false} LoadedFrom(dfs: seq<Option<Table>>, from: nat)
    requires from <= |dfs|
    ensures |Loaded(dfs[from..])| == |PositionsFrom(dfs, from)|
    ensures forall k :: 0 <= k < |Loaded(dfs[from..])| ==>
      Loaded(dfs[from..])[k] == dfs[PositionsFrom(dfs, from)[k]].value
    decreases |dfs| - from
  {
    if from < |dfs| {
      LoadedFrom(dfs, from + 1);
      LoadedStep(dfs, from);
      var rest, restIx := Loaded(dfs[from + 1..]), PositionsFrom(dfs, from + 1);
      if dfs[from].Some? {
        var tables, ix := [dfs[from].value] + rest, [from] + restIx;
        forall k | 0 <= k < |tables| ensures tables[k] == dfs[ix[k]].value {
          if k > 0 {
            assert tables[k] == rest[k - 1] && ix[k] == restIx[k - 1];
          }
        }
      }
    }
  }

  /** Only loaded tables contribute, and they contribute in upload order: the k-th contribution
      comes from the k-th upload that loaded. */
  lemma LoadedInOrder(dfs: seq<Option<Table>>)
    ensures |Loaded(dfs)| == |LoadedPositions(dfs)|
    ensures forall k :: 0 <= k < |Loaded(dfs)| ==> Loaded(dfs)[k] == dfs[LoadedPositions(dfs)[k]].value
  {
    assert dfs[0..] == dfs;
    LoadedFrom(dfs, 0);
  }

  /** No table loaded exactly when every upload gave `None`. */
  lemma {:induction false} LoadedEmpty(dfs: seq<Option<Table>>)
    ensures Loaded(dfs) == [] <==> forall i :: 0 <= i < |dfs| ==> dfs[i].None?
  {
    if dfs != [] {
      LoadedEmpty(dfs[1..]);
      assert forall i :: 1 <= i < |dfs| ==> dfs[1..][i - 1] == dfs[i];
    }
  }

  /** One excerpt per loaded table: its first five rows rendered by `to_csv`. */
  function Excerpts(tables: seq<Table>, toCsv: Table -> string): seq<string> {
    seq(|tables|, k requires 0 <= k < |tables| => toCsv(Head(tables[k], SampleRows)))
  }

  /** The sample text. */
  function SampleData(dfs: seq<Option<Table>>, toCsv: Table -> string): (sample: string)
    ensures Loaded(dfs) == [] ==> sample == ""
    ensures |Loaded(dfs)| == 1 ==> sample == toCsv(Head(Loaded(dfs)[0], SampleRows))
  {
    Join(Excerpts(Loaded(dfs), toCsv), Separator)
  }

  /** What each loaded table contributes: one excerpt per loaded table, in order, rendered from
      its columns and its first min(5, row count) rows. */
  lemma ExcerptRows(dfs: seq<Option<Table>>, toCsv: Table -> string)
    ensures |Excerpts(Loaded(dfs), toCsv)| == |Loaded(dfs)|
    ensures forall k :: 0 <= k < |Loaded(dfs)| ==>
      var h := Head(Loaded(dfs)[k], SampleRows);
      && Excerpts(Loaded(dfs), toCsv)[k] == toCsv(h)
      && h.columns == Loaded(dfs)[k].columns
      && h.rows == Loaded(dfs)[k].rows[..Min(5, |Loaded(dfs)[k].rows|)]
  {
  }

  /** When nothing loaded, the sample is empty. */
  lemma SampleEmptyWhenNothingLoaded(dfs: seq<Option<Table>>, toCsv: Table -> string)
    requires forall i :: 0 <= i < |dfs| ==> dfs[i].None?
    ensures SampleData(dfs, toCsv) == ""
  {
    LoadedEmpty(dfs);
  }

  /** The sample of tables `a` followed by `b` is their samples separated by a blank line
      (each side non-empty). */
  lemma {:induction false} SampleSplits(a: seq<Option<Table>>, b: seq<Option<Table>>, toCsv: Table -> string)
    requires Loaded(a) != [] && Loaded(b) != []
    ensures SampleData(a + b, toCsv) == SampleData(a, toCsv) + Separator + SampleData(b, toCsv)
  {
    LoadedAppend(a, b);
    var xa, xb := Excerpts(Loaded(a), toCsv), Excerpts(Loaded(b), toCsv);
    assert Excerpts(Loaded(a + b), toCsv) == xa + xb;
    JoinAppend(xa, xb, Separator);
  }

  lemma {:induction false} LoadedAppend(a: seq<Option<Table>>, b: seq<Option<Table>>)
    ensures Loaded(a + b) == Loaded(a) + Loaded(b)
  {
    if a == [] {
      assert a + b == b;
    } else {
      assert (a + b)[0] == a[0];
      assert (a + b)[1..] == a[1..] + b;
      LoadedAppend(a[1..], b);
    }
  }

  lemma {:induction false} JoinAppend(xs: seq<string>, ys: seq<string>, sep: string)
    requires xs != [] && ys != []
    ensures Join(xs + ys, sep) == Join(xs, sep) + sep + Join(ys, sep)
    decreases |xs|
  {
    if |xs| == 1 {
      assert (xs + ys)[1..] == ys;
    } else {
      assert (xs + ys)[1..] == xs[1..] + ys;
      JoinAppend(xs[1..], ys, sep);
    }
  }
}
