/** The query history kept in the session state (app.py lines 21-24, 32-34, 62-66). */
module History {
  import opened Base

  /** One history record: `{'prompt': ..., 'files': [...], 'time': 'YYYY-MM-DD HH:MM:SS'}`. */
  datatype Entry = Entry(time: string, prompt: string, files: seq<string>)

  /** How many entries the sidebar shows. */
  const Shown: nat := 5

  /** `s[::-1]`. */
  function Reverse<T>(s: seq<T>): seq<T> {
    if s == [] then [] else [s[|s| - 1]] + Reverse(s[..|s| - 1])
  }

  lemma {:induction false} ReverseAt<T>(s: seq<T>)
    ensures |Reverse(s)| == |s|
    ensures forall i :: 0 <= i < |s| ==> Reverse(s)[i] == s[|s| - 1 - i]
  {
    if s != [] {
      ReverseAt(s[..|s| - 1]);
    }
  }

  /** `history[-5:][::-1]`: the last five entries, most recent first. */
  function RecentOf(history: seq<Entry>): (r: seq<Entry>)
    ensures |r| == Min(Shown, |history|)
    ensures forall i :: 0 <= i < |r| ==> r[i] == history[|history| - 1 - i]
  {
    ReverseAt(history[|history| - Min(Shown, |history|)..]);
    Reverse(history[|history| - Min(Shown, |history|)..])
  }

  /** After an append the new entry heads the view, followed by what the view showed before,
      less its oldest entry once five are shown. */
  lemma RecentAfterAppend(history: seq<Entry>, e: Entry)
    ensures RecentOf(history + [e]) == [e] + RecentOf(history)[..Min(Shown - 1, |history|)]
  {
    var before, after := RecentOf(history), RecentOf(history + [e]);
    assert |after| == 1 + Min(Shown - 1, |history|);
    forall i | 1 <= i < |after|
      ensures after[i] == before[i - 1]
    {
    }
  }

  /** The `history` entry of `st.session_state`. `present` says whether the key exists; a fresh
      session has none. */
  class SessionHistory {
    var present: bool
    var entries: seq<Entry>

    ghost predicate Valid()
      reads this
    {
      !present ==> entries == []
    }

    /** A new session, before line 33 has run. */
    constructor ()
      ensures Valid() && !present && entries == []
    {
      present := false;
      entries := [];
    }

    /** Lines 33-34: create the empty list unless it exists. */
    method Initialize()
      requires Valid()
      modifies this
      ensures Valid() && present
      ensures entries == old(entries)
    {
      if !present {
        present := true;
        entries := [];
      }
    }

    /** Line 62: one entry at the end; the earlier entries stay as they were. */
    method Append(e: Entry)
      requires Valid() && present
      modifies this
      ensures Valid() && present
      ensures entries == old(entries) + [e]
      ensures |entries| == |old(entries)| + 1 && entries[..|old(entries)|] == old(entries)
    {
      entries := entries + [e];
    }

    /** Line 23: the entries the sidebar lists. */
    function Recent(): (r: seq<Entry>)
      reads this
      ensures r == RecentOf(entries)
      ensures |r| == Min(Shown, |entries|)
      ensures forall i :: 0 <= i < |r| ==> r[i] == entries[|entries| - 1 - i]
    {
      RecentOf(entries)
    }

    /** Line 21: the sidebar shows the history heading and list only when the key exists and
        the list is non-empty; otherwise the list shown is empty. */
    function Sidebar(): (r: seq<Entry>)
      reads this
      ensures present && entries != [] ==> r == Recent() && r != []
      ensures !(present && entries != []) ==> r == []
    {
      if present && entries != [] then Recent() else []
    }
  }
}
