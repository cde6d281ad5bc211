/** The undo/redo log: a list of saved states and a cursor on the one shown. A new change cuts
    off everything after the cursor before it is appended; undo and redo only move the cursor. */
module History {

  datatype Timeline<T> = Timeline(entries: seq<T>, cursor: int)

  /** The log of a freshly built abacus: nothing saved, cursor before the first entry. */
  function Empty<T>(): (t: Timeline<T>)
    ensures Inv(t) && t.entries == []
  {
    Timeline([], -1)
  }

  /** The cursor is on an entry, or the log is empty and the cursor is -1. */
  predicate Inv<T>(t: Timeline<T>) {
    -1 <= t.cursor < |t.entries| && (t.cursor == -1 ==> t.entries == [])
  }

  /** The undo control is enabled; on a valid log that needs at least two saved states. */
  predicate CanUndo<T>(t: Timeline<T>)
    ensures CanUndo(t) && Inv(t) ==> |t.entries| >= 2
  {
    t.cursor > 0
  }

  /** The redo control is enabled; on a valid log that too needs at least two saved states. */
  predicate CanRedo<T>(t: Timeline<T>)
    ensures CanRedo(t) && Inv(t) ==> |t.entries| >= 2
  {
    t.cursor < |t.entries| - 1
  }

  /** The entry under the cursor. */
  function Current<T>(t: Timeline<T>): T
    requires Inv(t) && t.entries != []
  {
    t.entries[t.cursor]
  }

  /** Saving a new state: entries after the cursor are dropped, the state is appended and the
      cursor moves onto it. */
  function Commit<T>(t: Timeline<T>, x: T): (r: Timeline<T>)
    requires Inv(t)
    ensures Inv(r) && r.entries != [] && Current(r) == x
    ensures r.cursor == t.cursor + 1
    ensures r.entries[..r.cursor] == t.entries[..t.cursor + 1]
    ensures !CanRedo(r)
    ensures CanUndo(r) <==> t.cursor >= 0
  {
    var kept := t.entries[..t.cursor + 1];
    Timeline(kept + [x], t.cursor + 1)
  }

  /** Undo: a step back, or nothing when the cursor is on the first entry or the log is empty. */
  function Undo<T>(t: Timeline<T>): (r: Timeline<T>)
    requires Inv(t)
    ensures Inv(r) && r.entries == t.entries
    ensures CanUndo(t) ==> r.cursor == t.cursor - 1
    ensures !CanUndo(t) ==> r == t
  {
    if t.cursor > 0 then t.(cursor := t.cursor - 1) else t
  }

  /** Redo: a step forward, or nothing when the cursor is on the last entry. */
  function Redo<T>(t: Timeline<T>): (r: Timeline<T>)
    requires Inv(t)
    ensures Inv(r) && r.entries == t.entries
    ensures CanRedo(t) ==> r.cursor == t.cursor + 1
    ensures !CanRedo(t) ==> r == t
  {
    if t.cursor < |t.entries| - 1 then t.(cursor := t.cursor + 1) else t
  }

  // ---------------------------------------------------------------------------------------

  /** The undo control is enabled exactly when undo does something; likewise redo. */
  lemma ControlsMatchMoves<T>(t: Timeline<T>)
    requires Inv(t)
    ensures CanUndo(t) <==> Undo(t) != t
    ensures CanRedo(t) <==> Redo(t) != t
  {
  }

  /** Undo followed by redo returns to the same place. */
  lemma RedoUndoesUndo<T>(t: Timeline<T>)
    requires Inv(t) && CanUndo(t)
    ensures CanRedo(Undo(t)) && Redo(Undo(t)) == t
  {
  }

  /** Redo followed by undo returns to the same place. */
  lemma UndoUndoesRedo<T>(t: Timeline<T>)
    requires Inv(t) && CanRedo(t)
    ensures CanUndo(Redo(t)) && Undo(Redo(t)) == t
  {
  }

  /** Committing after an undo destroys the redo branch: commit A, commit B, undo, commit C
      leaves [A, C] with redo disabled. */
  lemma CommitAfterUndoDropsRedo<T>(a: T, b: T, c: T)
    ensures var t := Commit(Undo(Commit(Commit(Empty(), a), b)), c);
            t.entries == [a, c] && t.cursor == 1 && !CanRedo(t)
  {
  }

  /** Commit three states, undo twice: the first is current; redo: the second is current. */
  lemma UndoTwiceRedoOnce<T>(a: T, b: T, c: T)
    ensures var t := Undo(Undo(Commit(Commit(Commit(Empty(), a), b), c)));
            Current(t) == a && !CanUndo(t) && Current(Redo(t)) == b
  {
  }

  /** The first commit cannot be undone: no state before it was ever saved. */
  lemma FirstCommitStays<T>(x: T)
    ensures !CanUndo(Commit(Empty(), x)) && Undo(Commit(Empty(), x)) == Commit(Empty(), x)
  {
  }

  /** The operations on the log, as the controls of the abacus trigger them. */
  datatype Op<T> = Save(x: T) | Back | Forward

  function Step<T>(t: Timeline<T>, op: Op<T>): (r: Timeline<T>)
    requires Inv(t)
    ensures Inv(r)
  {
    match op
    case Save(x) => Commit(t, x)
    case Back => Undo(t)
    case Forward => Redo(t)
  }

  function Run<T>(t: Timeline<T>, ops: seq<Op<T>>): (r: Timeline<T>)
    requires Inv(t)
    ensures Inv(r)
    decreases |ops|
  {
    if ops == [] then t else Run(Step(t, ops[0]), ops[1..])
  }

  /** Once something is saved, no sequence of undo, redo and new commits ever moves the
      cursor back before the first entry or changes that entry. */
  lemma {:induction false} FirstEntryIsPermanent<T>(t: Timeline<T>, ops: seq<Op<T>>)
    requires Inv(t) && t.entries != []
    ensures Run(t, ops).entries != []
    ensures Run(t, ops).cursor >= 0
    ensures Run(t, ops).entries[0] == t.entries[0]
    decreases |ops|
  {
    if ops != [] {
      var u := Step(t, ops[0]);
      assert u.entries != [] && u.entries[0] == t.entries[0] by {
        if ops[0].Save? {
          assert u.entries[..u.cursor] == t.entries[..t.cursor + 1];
        }
      }
      FirstEntryIsPermanent(u, ops[1..]);
    }
  }
}
