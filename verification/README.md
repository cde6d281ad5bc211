# Soroban calculator — a Dafny model

This project models the core of a browser soroban (Japanese abacus). The abacus has 13 rods, with
place values 10^0 to 10^12. Each rod has 2 heaven beads worth 5 and 5 earth beads worth 1.
A click on a bead toggles it by the abacus rules. A shift-click clears the bead's rod. A reset
control clears every rod. Each of these changes saves a copy of every bead flag in a linear
undo/redo log.

The original keeps its state as `active` CSS classes on DOM nodes. Here that state is two
boolean grids, `earth[rod, bead]` and `heaven[rod, bead]`. Each rod also gets a stored place
value, a list of saved snapshots and a cursor `currentStep`.

Modules, leaf to root:

- `Beads` (beads.dfy) holds the dimensions and the state of one rod as two rows of flags. It
  also holds the snapshot type and the toggle rules as functions on rows. The earth-bead rule
  is stated there: active earth beads form a contiguous prefix.
- `Valuation` (valuation.dfy) defines the exact power of ten and the value of a snapshot. It
  also proves that value's bounds and how it changes when one rod changes.
- `History` (history.dfy) is the undo/redo log as a value: entries plus a cursor. It covers
  commit, undo, redo and the two enable predicates. Its lemmas cover the cursor invariant, the
  redo branch dropped by a commit, and the first entry, which can never be undone.
- `Dispatch` (dispatch.dfy) turns a click into an `Action`. `Toggle` is an unmodified click
  and `ResetRod` is a shift-click. This module also gives the effect of an action on a snapshot.
- `Calculator` (calculator.dfy) is the `AbacusCalculator` class. It has array fields, methods
  with loops that update the flags in place, and `Snapshot()`, which reads the flags into a
  value. Every method is proved against the functions above.

Rods are numbered by their position among the children of the rod container. Each new rod
is inserted in front of the previous ones, so position 0 holds place value 10^12 and position 12 holds 10^0. The
constructor stores `place[12 - i] = 10^i`. The value reads the stored place value, so the
total does not depend on the order.

Behaviour of the code that the model keeps as written:

- An out-of-range rod or bead index is a precondition. The code has no range check; it would
  dereference an undefined element.
- Earth toggling keeps the contiguous-prefix rule only on a row that already obeys it. On a row
  with a gap, activating a bead below the gap leaves the gap in place. The model keeps the
  rule as a separate invariant, `AllPhysical`, that every operation preserves, and does not
  put it in `Valid`.
- Both heaven beads may be active at once, so a rod can show up to 15.
- No snapshot is saved at start-up. The first change therefore cannot be undone.

## Model

| member | source | states |
|---|---|---|
| `Beads.FlipHeaven` | script.js:115-117 | a heaven click flips the clicked bead and leaves every other heaven bead as it was |
| `Beads.ToggledEarth` | script.js:119-127 | an earth click flips the clicked bead; if it was inactive, every bead up to it becomes active and the later ones keep their state; if it was active, it and every later bead become inactive and the earlier ones keep their state |
| `Beads.ToggleRod` | script.js:111-129 | a click changes only the row of the clicked kind, by the heaven or earth rule |
| `Beads.ToggleAt` | script.js:111-129 | a click changes only the clicked rod; every other rod is unchanged |
| `Beads.ClearedRod` | script.js:201-204 | clearing a rod deactivates every earth and heaven bead and keeps the bead counts |
| `Beads.ClearRodAt` | script.js:201-204 | clearing rod p clears that rod and leaves every other rod unchanged |
| `Beads.ClearAll` | script.js:193-196 | a reset clears every rod |
| `Beads.ContiguousIsPrefix` | script.js:119-127 | a row that obeys the earth rule is exactly "the first n beads active", where n is its active count |
| `Beads.ActivateEarth` | script.js:120-123 | activating inactive earth bead k on a contiguous row leaves exactly beads 0..k active, so k+1 beads |
| `Beads.DeactivateEarth` | script.js:120-126 | deactivating active earth bead k on a contiguous row leaves exactly beads 0..k-1 active, so k beads |
| `Beads.ToggledEarthContiguous` | script.js:119-127 | an earth click keeps a contiguous row contiguous |
| `Beads.FlipHeavenTwice` | script.js:115-117 | clicking the same heaven bead twice restores the row |
| `Beads.ToggleAtPhysical` | script.js:111-129 | a click keeps the snapshot's shape, and keeps the earth rule on every rod if it held before |
| `Beads.ClearRodAtPhysical` | script.js:201-204 | clearing a rod keeps the shape and the earth rule |
| `Beads.ClearAllPhysical` | script.js:193-196 | after a reset every rod obeys the earth rule, whatever the state before |
| `Beads.CountTrue` | script.js:133-134 | the number of active beads in a row (the `.length` of the active-bead query), the definition the counting rows refer to; it never exceeds the row length |
| `Beads.Digit` | script.js:133-135 | a rod's digit is its active earth count plus 5 times its active heaven count, the definition the value rows refer to |
| `Valuation.Value` | script.js:131-136 | the total is the sum over rods of digit times place value 10^(n−1−p) for child position p, the reference definition `CalculateValue` is proved against |
| `Valuation.Pow10` | script.js:22 | the stored place value 10^i is a positive integer |
| `Valuation.DigitAtMost15` | script.js:133-135 | a rod shows at most 15 |
| `Valuation.FullRodShows15` | script.js:134 | the heaven count is not capped: with all seven beads active a rod shows 15 |
| `Valuation.ClearedRodShowsZero` | script.js:133-135 | a cleared rod shows 0 |
| `Valuation.ValueOfClearAll` | script.js:131-136 | with every rod cleared the total is 0 |
| `Valuation.ValueBound` | script.js:131-136 | each rod adds at most 15 times its place value, so 9 times the total is at most 15·(10^n − 1) |
| `Valuation.DecimalValueBound` | script.js:131-136 | if every rod shows at most 9, the total is below 10^n |
| `Valuation.ValueUpdate` | script.js:131-136 | replacing one rod changes the total by exactly the change in that rod's digit times its place value |
| `Valuation.ValueSplit` | script.js:132-136 | the total of the rods from position p on is rod p's digit times its place value plus the total of the rest |
| `History.CanUndo` | script.js:210 | the undo control is enabled when the cursor is above 0, the definition the undo rows refer to; on a valid log this needs at least two saved states |
| `History.CanRedo` | script.js:211 | the redo control is enabled when the cursor is before the last entry, the definition the redo rows refer to; on a valid log this needs at least two saved states |
| `History.Empty` | script.js:6-7 | the log starts empty with the cursor at -1, which satisfies the cursor invariant |
| `History.Commit` | script.js:152-155 | a commit keeps the entries up to the cursor, puts the new state under the cursor one step on, disables redo, and enables undo exactly when something was saved before |
| `History.Undo` | script.js:177-183 | undo moves the cursor back one step when it is past the first entry and otherwise does nothing; the entries never change |
| `History.Redo` | script.js:185-191 | redo moves the cursor forward one step when it is before the last entry and otherwise does nothing; the entries never change |
| `History.ControlsMatchMoves` | script.js:209-211 | the undo (redo) control is enabled exactly when undo (redo) would change something |
| `History.RedoUndoesUndo` | script.js:177-191 | when undo is enabled, undo followed by redo returns to the same log |
| `History.UndoUndoesRedo` | script.js:177-191 | when redo is enabled, redo followed by undo returns to the same log |
| `History.CommitAfterUndoDropsRedo` | script.js:152-155 | commit A, commit B, undo, commit C leaves [A, C] with the cursor on C and redo disabled |
| `History.UndoTwiceRedoOnce` | script.js:153-155 | after three commits, two undos show the first state with undo disabled, and one redo shows the second |
| `History.FirstCommitStays` | script.js:177-183 | the first commit on an empty log cannot be undone |
| `History.Step` | script.js:153-191 | every commit, undo and redo keeps the cursor invariant |
| `History.FirstEntryIsPermanent` | script.js:153-191 | once something is saved, no sequence of commits, undos and redos empties the log, moves the cursor below 0 or changes the first entry |
| `Dispatch.Resolve` | script.js:77-84 | a click resolves to a rod reset exactly when shift is held, and otherwise to a toggle of the clicked bead, on the clicked rod either way |
| `Dispatch.Apply` | script.js:77-84 | an action keeps the snapshot well formed, keeps the earth rule, and touches only its own rod |
| `Dispatch.ResetRodValue` | script.js:201-204 | a shift-click lowers the total by exactly that rod's digit times its place value |
| `Dispatch.EarthClickValue` | script.js:119-136 | an earth click sets the rod's earth count to k (deactivation) or k+1 (activation), and the total changes by the change in that rod's contribution |
| `Dispatch.PositionOf` | script.js:19-36 | the rod made i-th, with place value 10^i, sits at child position 12 − i, and what it adds to the total of any 13-rod snapshot is its digit times 10^i |
| `Dispatch.Blank` | script.js:18-37 | the freshly built abacus, with every bead inactive, is well formed and obeys the earth rule |
| `Dispatch.BlankShowsZero` | script.js:131-136 | the abacus with every bead inactive, as built and as left by a reset, shows 0 |
| `Dispatch.UnitsRodScenario` | script.js:111-136 | on a blank abacus the units rod goes to 3 after activating earth bead 2, to 8 after also activating heaven bead 0, and to 5 after deactivating earth bead 0 |
| `Calculator.AbacusCalculator.constructor` | script.js:2-37 | a new calculator has every bead inactive, place values 10^(12−p) stored in child order, and an empty log with cursor -1 |
| `Calculator.AbacusCalculator.Snapshot` | script.js:145-150 | the snapshot holds a value copy of every earth and heaven flag, rod by rod in child order |
| `Calculator.AbacusCalculator.PlaceValueOf` | script.js:19-36 | on a valid calculator the rod at `PositionOf(i)` stores place value 10^i |
| `Calculator.AbacusCalculator.ToggleBeads` | script.js:111-129 | the in-place loop leaves the flags equal to `ToggleAt` of the old snapshot, keeps the log, and keeps the earth rule |
| `Calculator.AbacusCalculator.RestoreState` | script.js:161-172 | after a restore every flag equals the snapshot's, so restoring a snapshot of the current state changes nothing |
| `Calculator.AbacusCalculator.SaveState` | script.js:144-159 | the log becomes `Commit` of the old log with the current snapshot; the flags are unchanged |
| `Calculator.AbacusCalculator.Undo` | script.js:177-183 | the log becomes `Undo` of the old log; if undo was enabled the flags become the entry under the new cursor, otherwise nothing changes |
| `Calculator.AbacusCalculator.Redo` | script.js:185-191 | the log becomes `Redo` of the old log; if redo was enabled the flags become the entry under the new cursor, otherwise nothing changes |
| `Calculator.AbacusCalculator.ClearBeads` | script.js:202-204 | the loops leave the flags equal to `ClearRodAt` of the old snapshot |
| `Calculator.AbacusCalculator.Reset` | script.js:193-199 | every bead becomes inactive (the `Blank` snapshot, which shows 0 by `BlankShowsZero`) and exactly one entry is committed |
| `Calculator.AbacusCalculator.ResetRod` | script.js:201-207 | only that rod's beads become inactive and exactly one entry is committed |
| `Calculator.AbacusCalculator.HandleBeadClick` | script.js:69-85 | a click changes the flags as `Apply` of the resolved action and commits exactly one entry |
| `Calculator.AbacusCalculator.CalculateValue` | script.js:131-137 | the reduce over rods, with counted active beads and stored place values, equals `Value` of the snapshot |
| `Calculator.AbacusCalculator.UpdateControlButtons` | script.js:209-212 | undo is disabled exactly when the cursor is at most 0, and redo exactly when the cursor is on the last entry |
| `Calculator.CountActive` | script.js:133-134 | counting the active beads of a row gives the row's active count |

## Left out

- DOM construction and bead pixel offsets (`initializeDOM`, element creation in `createRods`, `createBead`, script.js:12-53) are presentation only. Only the stored place values and the rod order are kept.
- Event wiring, touch hit-testing and keyboard handling (`setupEventListeners`, `handleBeadTouch`, `handleKeyboard`, script.js:55-67, 87-109) are left out. They belong to the host event loop and browser APIs. The check that the click target is a bead (script.js:70) is part of this. Only the decision between shift and no shift is kept.
- A rod is named by its position among the container's children, not by its DOM element.
- `updateDisplay` and its locale formatting (script.js:139-142) are left out. This covers the calls to it after clicks, resets and restores. The model exposes the number through `CalculateValue`.
- The `disabled` writes to the undo and redo buttons (script.js:210-211) are left out. `UpdateControlButtons` returns the two flags instead.
- `Math.pow` in floating point and the `parseInt` of the stored value (script.js:22, 135) are replaced by the exact integer `Pow10`. For exponents up to 12 the two agree.
- The `DOMContentLoaded` start-up (script.js:216-218) is left out.
- `Valuation.Pow10`: its contract states only that a place value is positive. The exact value is its definition, `10 * Pow10(i - 1)`.
