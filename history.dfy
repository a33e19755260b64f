/** The undo history of the editor (script.js:594-619, 651-662): a list of
    entries and a cursor on the entry that is on screen. Recording cuts
    off every entry after the cursor (the redo branch), appends, and keeps
    only the newest `Capacity` entries. */
module History {

  /** At most this many entries are kept. */
  const Capacity := 50

  /** An empty history has cursor -1; otherwise the cursor is on an entry. */
  predicate WellFormed<E>(entries: seq<E>, cursor: int) {
    if entries == [] then cursor == -1 else 0 <= cursor < |entries|
  }

  /** The newest `Capacity` elements of `s` (`s.slice(-Capacity)`). */
  function Newest<E>(s: seq<E>): (r: seq<E>)
    ensures |r| <= Capacity
    ensures |s| <= Capacity ==> r == s
    ensures |s| > Capacity ==> |r| == Capacity && r == s[|s| - Capacity..]
  {
    if |s| <= Capacity then s else s[|s| - Capacity..]
  }

  /** `saveToHistory`: the new entries and the new cursor. */
  function Record<E>(entries: seq<E>, cursor: int, e: E): (r: (seq<E>, int))
    requires WellFormed(entries, cursor)
    ensures WellFormed(r.0, r.1) && 0 < |r.0| <= Capacity
    ensures r.1 == |r.0| - 1 && r.0[r.1] == e
    ensures |r.0| == if cursor + 2 <= Capacity then cursor + 2 else Capacity
    ensures r.0[..r.1] == entries[cursor + 2 - |r.0|..cursor + 1]
  {
    var kept := if cursor < |entries| - 1 then entries[..cursor + 1] else entries;
    assert kept == entries[..cursor + 1];
    var pushed := kept + [e];
    assert pushed[..cursor + 1] == kept;
    if |pushed| > Capacity then
      var r := pushed[|pushed| - Capacity..];
      assert r[..Capacity - 1] == kept[cursor + 2 - Capacity..];
      (r, Capacity - 1)
    else
      (pushed, |pushed| - 1)
  }

  /** Recording is: cut the redo branch, append, keep the newest entries. */
  lemma RecordIsNewestOfBranch<E>(entries: seq<E>, cursor: int, e: E)
    requires WellFormed(entries, cursor)
    ensures Record(entries, cursor, e).0 == Newest(entries[..cursor + 1] + [e])
  {
    var r := Record(entries, cursor, e);
    var s := entries[..cursor + 1] + [e];
    var n := Newest(s);
    assert |n| == |r.0|;
    forall k | 0 <= k < |r.0|
      ensures r.0[k] == n[k]
    {
      if k < r.1 {
        assert r.0[k] == r.0[..r.1][k];
      }
    }
  }

  /** The first recording into the empty history of a new editor leaves
      that one entry, under the cursor. */
  lemma RecordFirst<E>(e: E)
    ensures Record([], -1, e) == ([e], 0)
  {
    var r := Record([], -1, e);
    assert r.0 == [e];
  }

  /** Undo after recording goes back to the entry the cursor was on. */
  lemma UndoAfterRecord<E>(entries: seq<E>, cursor: int, e: E)
    requires WellFormed(entries, cursor) && entries != []
    ensures var r := Record(entries, cursor, e);
            r.1 >= 1 && r.0[r.1 - 1] == entries[cursor]
  {
    var r := Record(entries, cursor, e);
    assert r.0[r.1 - 1] == r.0[..r.1][r.1 - 1];
  }

  /** Recording several entries one after another. */
  function RecordAll<E>(entries: seq<E>, cursor: int, es: seq<E>): (r: (seq<E>, int))
    requires WellFormed(entries, cursor)
    ensures WellFormed(r.0, r.1)
    decreases |es|
  {
    if es == [] then (entries, cursor)
    else
      var r := Record(entries, cursor, es[0]);
      RecordAll(r.0, r.1, es[1..])
  }

  /** Keeping the newest entries before or after appending more makes no
      difference. */
  lemma NewestAppend<E>(a: seq<E>, b: seq<E>)
    ensures Newest(Newest(a) + b) == Newest(a + b)
  {
    var n := Newest(a);
    var x, y := Newest(n + b), Newest(a + b);
    assert |x| == |y|;
    forall k | 0 <= k < |x|
      ensures x[k] == y[k]
    {
      var ix, iy := |n + b| - |x| + k, |a + b| - |y| + k;
      assert x[k] == (n + b)[ix] && y[k] == (a + b)[iy];
      if ix >= |n| {
        assert iy - |a| == ix - |n|;
      }
    }
  }

  /** One recording followed by more: the branch grows by the first. */
  lemma RecordThenMore<E>(branch: seq<E>, e: E, rest: seq<E>, r: seq<E>)
    requires r == Newest(branch + [e])
    ensures Newest(r + rest) == Newest(branch + ([e] + rest))
  {
    NewestAppend(branch + [e], rest);
    assert branch + [e] + rest == branch + ([e] + rest);
  }

  /** Any run of recordings leaves exactly the newest `Capacity` states of
      the branch that ended at the cursor followed by the recorded ones,
      with the cursor on the last of them: nothing recorded within the
      last `Capacity` recordings is lost, and the redo branch is gone. */
  lemma {:induction false} RecordAllKeepsNewest<E>(entries: seq<E>, cursor: int, es: seq<E>)
    requires WellFormed(entries, cursor) && es != []
    ensures var r := RecordAll(entries, cursor, es);
            r.0 == Newest(entries[..cursor + 1] + es) && r.1 == |r.0| - 1
    decreases |es|
  {
    var r := Record(entries, cursor, es[0]);
    var branch := entries[..cursor + 1];
    assert r.0 == Newest(branch + [es[0]]) by {
      RecordIsNewestOfBranch(entries, cursor, es[0]);
    }
    if |es| == 1 {
      assert es == [es[0]];
    } else {
      var rest := es[1..];
      var after := RecordAll(r.0, r.1, rest);
      assert after.0 == Newest(r.0[..r.1 + 1] + rest) && after.1 == |after.0| - 1 by {
        RecordAllKeepsNewest(r.0, r.1, rest);
      }
      assert r.0[..r.1 + 1] == r.0;
      assert es == [es[0]] + rest;
      RecordThenMore(branch, es[0], rest, r.0);
    }
  }
}
