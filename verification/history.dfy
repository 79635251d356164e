/** The undo/redo history: `history` (past snapshots, oldest first, at most
    twenty) and `future` (snapshots undone, next redo first). Snapshots are
    whole values, so a deep copy is the value itself. */
module History {

  /** `saveToHistory` keeps the newest this many snapshots. */
  const Cap: nat := 20

  /** The two snapshot stacks: `history` and `future`. */
  datatype Stacks<T> = Stacks(past: seq<T>, future: seq<T>)

  /** The bound undo and redo keep once `saveToHistory` established it. */
  predicate Bounded<T>(h: Stacks<T>) {
    |h.past| + |h.future| <= Cap
  }

  /** `a` is what remains of `b` after dropping some of its oldest entries. */
  ghost predicate IsSuffix<T>(a: seq<T>, b: seq<T>) {
    |a| <= |b| && a == b[|b| - |a|..]
  }

  /** `saveToHistory`: the current value becomes the newest snapshot, only
      the newest `Cap` snapshots are kept, and redo is no longer possible. */
  function Save<T>(h: Stacks<T>, current: T): (r: Stacks<T>)
    ensures |r.past| == if |h.past| < Cap then |h.past| + 1 else Cap
    ensures |h.past| < Cap ==> r.past[..|h.past|] == h.past
    ensures r.past[|r.past| - 1] == current
    ensures r.future == []
    ensures Bounded(r)
  {
    Stacks(Newest(h.past + [current]), [])
  }

  /** Only the oldest snapshots are ever dropped, and order is kept. */
  lemma SaveDropsOldest<T>(h: Stacks<T>, current: T)
    ensures IsSuffix(Save(h, current).past, h.past + [current])
  {
  }

  /** `handleUndo`: with no past nothing changes; otherwise the newest
      snapshot becomes current and the value it replaces is the next redo. */
  function Undo<T>(h: Stacks<T>, current: T): (r: (T, Stacks<T>))
    ensures |h.past| == 0 ==> r == (current, h)
    ensures |h.past| > 0 ==>
      && |r.1.past| == |h.past| - 1
      && h.past == r.1.past + [r.0]
      && r.1.future == [current] + h.future
    ensures Bounded(h) ==> Bounded(r.1)
  {
    if |h.past| == 0 then (current, h)
    else
      var n := |h.past| - 1;
      (h.past[n], Stacks(h.past[..n], [current] + h.future))
  }

  /** `handleRedo`: with no future nothing changes; otherwise the next redo
      becomes current and the value it replaces is the newest snapshot. */
  function Redo<T>(h: Stacks<T>, current: T): (r: (T, Stacks<T>))
    ensures |h.future| == 0 ==> r == (current, h)
    ensures |h.future| > 0 ==>
      && r.1.past == h.past + [current]
      && h.future == [r.0] + r.1.future
    ensures Bounded(h) ==> Bounded(r.1)
  {
    if |h.future| == 0 then (current, h)
    else (h.future[0], Stacks(h.past + [current], h.future[1..]))
  }

  /** Redo undoes an undo: value, past and future all come back. */
  lemma RedoAfterUndo<T>(h: Stacks<T>, current: T)
    requires |h.past| > 0
    ensures var (c, h') := Undo(h, current); Redo(h', c) == (current, h)
  {
    var (c, h') := Undo(h, current);
    assert h'.future[1..] == h.future;
  }

  /** Undo undoes a redo. */
  lemma UndoAfterRedo<T>(h: Stacks<T>, current: T)
    requires |h.future| > 0
    ensures var (c, h') := Redo(h, current); Undo(h', c) == (current, h)
  {
    var (c, h') := Redo(h, current);
    assert h'.past[..|h'.past| - 1] == h.past;
  }

  /** An action that snapshots `before` and produces `after` is undone by one
      undo, and redone by the redo after it. */
  lemma UndoAfterSave<T>(h: Stacks<T>, before: T, after: T)
    ensures var h1 := Save(h, before);
            var (c2, h2) := Undo(h1, after);
            && c2 == before
            && h2.future == [after]
            && Redo(h2, c2) == (after, h1)
  {
    var h1 := Save(h, before);
    var (c2, h2) := Undo(h1, after);
    assert h2.past + [c2] == h1.past;
  }

  /** The history after a run of `saveToHistory` calls. */
  function SaveAll<T>(h: Stacks<T>, cs: seq<T>): Stacks<T>
    decreases |cs|
  {
    if |cs| == 0 then h else Save(SaveAll(h, cs[..|cs| - 1]), cs[|cs| - 1])
  }

  /** The newest `Cap` entries of `s`, oldest first. */
  function Newest<T>(s: seq<T>): seq<T> {
    if |s| > Cap then s[|s| - Cap..] else s
  }

  /** Trimming before or after appending one entry gives the same result. */
  lemma NewestAppend<T>(s: seq<T>, c: T)
    ensures Newest(Newest(s) + [c]) == Newest(s + [c])
  {
    if |s| > Cap {
      assert (s[|s| - Cap..] + [c])[1..] == (s + [c])[|s| + 1 - Cap..];
    }
  }

  /** A run of saves leaves exactly the newest `Cap` of all snapshots taken. */
  lemma {:induction false} SaveAllPast<T>(h: Stacks<T>, cs: seq<T>)
    requires |h.past| <= Cap
    ensures SaveAll(h, cs).past == Newest(h.past + cs)
    decreases |cs|
  {
    if |cs| == 0 {
      assert h.past + cs == h.past;
    } else {
      var n := |cs| - 1;
      var s0 := h.past + cs[..n];
      assert SaveAll(h, cs).past == Newest(Newest(s0) + [cs[n]]) by {
        SaveAllPast(h, cs[..n]);
      }
      NewestAppend(s0, cs[n]);
      assert s0 + [cs[n]] == h.past + cs by {
        assert cs == cs[..n] + [cs[n]];
      }
    }
  }

  /** After any run of at least `Cap` mutations the past holds exactly the
      `Cap` most recent snapshots, oldest first, and nothing can be redone. */
  lemma SaveAllKeepsNewest<T>(h: Stacks<T>, cs: seq<T>)
    requires |h.past| <= Cap && |cs| >= Cap
    ensures SaveAll(h, cs).past == cs[|cs| - Cap..]
    ensures SaveAll(h, cs).future == []
  {
    SaveAllPast(h, cs);
    var s := h.past + cs;
    assert s[|s| - Cap..] == cs[|cs| - Cap..];
  }
}
