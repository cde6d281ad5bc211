/** The calculator object: the bead flags of every rod, the place value stored on every rod,
    and the undo/redo log with its cursor. Rods are numbered by their position among the
    children of the rod container, most significant first, because each new rod is inserted in
    front of the previous ones. */
module Calculator {
  import opened Beads
  import opened Valuation
  import opened Dispatch
  import History

  class AbacusCalculator {
    /** earth[p, i]: earth bead i of the rod at child position p is active. */
    const earth: array2<bool>
    /** heaven[p, i]: heaven bead i of the rod at child position p is active. */
    const heaven: array2<bool>
    /** The place value stored on the rod at child position p. */
    const place: array<nat>
    /** Saved states, oldest first. */
    var history: seq<Snapshot>
    /** Index in history of the state shown, -1 before anything is saved. */
    var currentStep: int

    /** The arrays have the abacus's dimensions and the two bead grids are distinct. */
    predicate Dimensioned() {
      earth.Length0 == RodCount && earth.Length1 == EarthBeads &&
      heaven.Length0 == RodCount && heaven.Length1 == HeavenBeads &&
      place.Length == RodCount && earth != heaven
    }

    ghost predicate Valid()
      reads this, place
    {
      Dimensioned() &&
      (forall p :: 0 <= p < RodCount ==> place[p] == Pow10(RodCount - 1 - p)) &&
      History.Inv(Timeline()) &&
      (forall h :: h in history ==> WellFormed(h))
    }

    /** The log as a value. */
    function Timeline(): History.Timeline<Snapshot>
      reads this
    {
      History.Timeline(history, currentStep)
    }

    /** A value copy of every bead flag, rod by rod in child order. */
    function Snapshot(): (s: Snapshot)
      requires Dimensioned()
      reads earth, heaven
      ensures WellFormed(s)
      ensures forall p, i :: 0 <= p < RodCount && 0 <= i < EarthBeads ==> s[p].earth[i] == earth[p, i]
      ensures forall p, i :: 0 <= p < RodCount && 0 <= i < HeavenBeads ==> s[p].heaven[i] == heaven[p, i]
    {
      seq(RodCount, p requires 0 <= p < RodCount reads earth, heaven =>
        RodState(
          seq(EarthBeads, i requires 0 <= i < EarthBeads reads earth => earth[p, i]),
          seq(HeavenBeads, i requires 0 <= i < HeavenBeads reads heaven => heaven[p, i])))
    }

    /** The shown state and every saved state obey the earth-bead rule. */
    ghost predicate AllPhysical()
      requires Dimensioned()
      reads this, earth, heaven
    {
      Physical(Snapshot()) && forall h :: h in history ==> Physical(h)
    }

    constructor ()
      ensures Valid() && fresh(earth) && fresh(heaven) && fresh(place)
      ensures Snapshot() == Blank()
      ensures Timeline() == History.Empty()
      ensures AllPhysical()
    {
      earth := new bool[RodCount, EarthBeads]((_, _) => false);
      heaven := new bool[RodCount, HeavenBeads]((_, _) => false);
      var values := new nat[RodCount];
      // Rod i gets place value 10^i and goes in front of the rods made before it.
      for i := 0 to RodCount
        modifies values
        invariant forall j :: 0 <= j < i ==> values[RodCount - 1 - j] == Pow10(j)
      {
        values[RodCount - 1 - i] := Pow10(i);
      }
      place := values;
      history := [];
      currentStep := -1;
      new;
      forall p | 0 <= p < RodCount ensures place[p] == Pow10(RodCount - 1 - p) {
        var j := RodCount - 1 - p;
        assert place[RodCount - 1 - j] == Pow10(j);
      }
      assert forall q, i :: 0 <= q < RodCount && 0 <= i < EarthBeads ==> !earth[q, i];
      assert forall q, i :: 0 <= q < RodCount && 0 <= i < HeavenBeads ==> !heaven[q, i];
      SameFlags(Snapshot(), Blank());
    }

    /** A click on bead k of the given kind on rod p, without the shift key. */
    method ToggleBeads(p: nat, kind: Kind, k: nat)
      requires Valid() && p < RodCount && k < BeadCount(kind)
      modifies earth, heaven
      ensures Valid()
      ensures Snapshot() == ToggleAt(old(Snapshot()), p, kind, k)
      ensures old(AllPhysical()) ==> AllPhysical()
    {
      ghost var s0 := Snapshot();
      if kind == Heaven {
        heaven[p, k] := !heaven[p, k];
      } else {
        var shouldActivate := !earth[p, k];
        for i := 0 to EarthBeads
          modifies earth
          invariant forall q, j :: 0 <= q < RodCount && 0 <= j < EarthBeads ==>
            earth[q, j] == if q == p && j < i then ToggledEarth(s0[p].earth, k)[j] else s0[q].earth[j]
        {
          if shouldActivate && i <= k {
            earth[p, i] := true;
          } else if !shouldActivate && i >= k {
            earth[p, i] := false;
          }
        }
      }
      SameFlags(Snapshot(), ToggleAt(s0, p, kind, k));
      ToggleAtPhysical(s0, p, kind, k);
    }

    /** The rod with place value 10^i stores 10^i. */
    lemma PlaceValueOf(i: nat)
      requires Valid() && i < RodCount
      ensures place[PositionOf(i)] == Pow10(i)
    {
    }

    /** Writes every flag of s back onto the beads. */
    method RestoreState(s: Snapshot)
      requires Valid() && WellFormed(s)
      modifies earth, heaven
      ensures Valid()
      ensures Snapshot() == s
    {
      for p := 0 to RodCount
        invariant forall q, j :: 0 <= q < p && 0 <= j < EarthBeads ==> earth[q, j] == s[q].earth[j]
        invariant forall q, j :: 0 <= q < p && 0 <= j < HeavenBeads ==> heaven[q, j] == s[q].heaven[j]
      {
        var rodState := s[p];
        for i := 0 to EarthBeads
          modifies earth
          invariant forall q, j :: 0 <= q < p && 0 <= j < EarthBeads ==> earth[q, j] == s[q].earth[j]
          invariant forall j :: 0 <= j < i ==> earth[p, j] == rodState.earth[j]
        {
          earth[p, i] := rodState.earth[i];
        }
        for i := 0 to HeavenBeads
          modifies heaven
          invariant forall q, j :: 0 <= q < p && 0 <= j < HeavenBeads ==> heaven[q, j] == s[q].heaven[j]
          invariant forall j :: 0 <= j < i ==> heaven[p, j] == rodState.heaven[j]
        {
          heaven[p, i] := rodState.heaven[i];
        }
      }
      SameFlags(Snapshot(), s);
    }

    /** Records the shown state: drops the entries after the cursor, appends, moves the cursor. */
    method SaveState()
      requires Valid()
      modifies this
      ensures Valid()
      ensures Timeline() == History.Commit(old(Timeline()), Snapshot())
      ensures old(AllPhysical()) ==> AllPhysical()
    {
      var state := Snapshot();
      history := history[..currentStep + 1] + [state];
      currentStep := currentStep + 1;
    }

    /** Steps back one saved state, unless the cursor is on the first one. */
    method Undo()
      requires Valid()
      modifies this, earth, heaven
      ensures Valid()
      ensures Timeline() == History.Undo(old(Timeline()))
      ensures History.CanUndo(old(Timeline())) ==> Snapshot() == History.Current(Timeline())
      ensures !History.CanUndo(old(Timeline())) ==> Snapshot() == old(Snapshot())
      ensures old(AllPhysical()) ==> AllPhysical()
    {
      if currentStep > 0 {
        currentStep := currentStep - 1;
        RestoreState(history[currentStep]);
      }
    }

    /** Steps forward one saved state, unless the cursor is on the last one. */
    method Redo()
      requires Valid()
      modifies this, earth, heaven
      ensures Valid()
      ensures Timeline() == History.Redo(old(Timeline()))
      ensures History.CanRedo(old(Timeline())) ==> Snapshot() == History.Current(Timeline())
      ensures !History.CanRedo(old(Timeline())) ==> Snapshot() == old(Snapshot())
      ensures old(AllPhysical()) ==> AllPhysical()
    {
      if currentStep < |history| - 1 {
        currentStep := currentStep + 1;
        RestoreState(history[currentStep]);
      }
    }

    /** Deactivates every bead of rod p. */
    method ClearBeads(p: nat)
      requires Valid() && p < RodCount
      modifies earth, heaven
      ensures Valid()
      ensures Snapshot() == ClearRodAt(old(Snapshot()), p)
    {
      ghost var s0 := Snapshot();
      for i := 0 to EarthBeads
        modifies earth
        invariant forall q, j :: 0 <= q < RodCount && 0 <= j < EarthBeads ==>
          earth[q, j] == if q == p && j < i then false else s0[q].earth[j]
      {
        earth[p, i] := false;
      }
      for i := 0 to HeavenBeads
        modifies heaven
        invariant forall q, j :: 0 <= q < RodCount && 0 <= j < HeavenBeads ==>
          heaven[q, j] == if q == p && j < i then false else s0[q].heaven[j]
      {
        heaven[p, i] := false;
      }
      SameFlags(Snapshot(), ClearRodAt(s0, p));
    }

    /** The reset control: every bead inactive, then the state is saved. */
    method Reset()
      requires Valid()
      modifies this, earth, heaven
      ensures Valid()
      ensures Snapshot() == Blank()
      ensures Timeline() == History.Commit(old(Timeline()), Snapshot())
      ensures old(AllPhysical()) ==> AllPhysical()
    {
      ghost var s0 := Snapshot();
      for p := 0 to RodCount
        invariant Valid() && Timeline() == old(Timeline())
        invariant forall q :: 0 <= q < RodCount ==>
          Snapshot()[q] == if q < p then ClearedRod(s0[q]) else s0[q]
      {
        ClearBeads(p);
      }
      SameFlags(Snapshot(), Blank());
      SaveState();
    }

    /** A shift-click on rod p: that rod's beads inactive, then the state is saved. */
    method ResetRod(p: nat)
      requires Valid() && p < RodCount
      modifies this, earth, heaven
      ensures Valid()
      ensures Snapshot() == ClearRodAt(old(Snapshot()), p)
      ensures Timeline() == History.Commit(old(Timeline()), Snapshot())
      ensures old(AllPhysical()) ==> AllPhysical()
    {
      ghost var s0 := Snapshot();
      ClearBeads(p);
      ClearRodAtPhysical(s0, p);
      SaveState();
    }

    /** A click on a bead: with shift the rod is cleared, otherwise the bead is toggled; either
        way the new state is saved. */
    method HandleBeadClick(p: nat, kind: Kind, k: nat, shift: bool)
      requires Valid() && Applicable(Resolve(p, kind, k, shift))
      modifies this, earth, heaven
      ensures Valid()
      ensures Snapshot() == Apply(old(Snapshot()), Resolve(p, kind, k, shift))
      ensures Timeline() == History.Commit(old(Timeline()), Snapshot())
      ensures old(AllPhysical()) ==> AllPhysical()
    {
      if shift {
        ResetRod(p);
        return;
      }
      ToggleBeads(p, kind, k);
      SaveState();
    }

    /** The number shown: for every rod, active earth beads plus five per active heaven bead,
        times the place value stored on the rod. */
    method CalculateValue() returns (total: nat)
      requires Valid()
      ensures total == Value(Snapshot())
    {
      ghost var s := Snapshot();
      total := 0;
      for p := 0 to RodCount
        invariant total + Value(s[p..]) == Value(s)
      {
        var earthCount := CountActive(earth, p, s[p].earth);
        var heavenCount := CountActive(heaven, p, s[p].heaven);
        assert earthCount + heavenCount * 5 == Digit(s[p]);
        assert place[p] == Pow10(|s| - 1 - p);
        ValueSplit(s, p);
        total := total + (earthCount + heavenCount * 5) * place[p];
      }
      assert s[RodCount..] == [];
    }

    /** The disabled states of the undo and redo controls. */
    method UpdateControlButtons() returns (undoDisabled: bool, redoDisabled: bool)
      requires Valid()
      ensures undoDisabled <==> !History.CanUndo(Timeline())
      ensures redoDisabled <==> !History.CanRedo(Timeline())
    {
      undoDisabled := currentStep <= 0;
      redoDisabled := currentStep >= |history| - 1;
    }
  }

  /** Counts the active flags in row p of a bead grid. */
  method CountActive(a: array2<bool>, p: nat, ghost row: seq<bool>) returns (n: nat)
    requires p < a.Length0 && |row| == a.Length1
    requires forall i :: 0 <= i < |row| ==> a[p, i] == row[i]
    ensures n == CountTrue(row)
  {
    n := 0;
    for i := 0 to a.Length1
      invariant n == CountTrue(row[..i])
    {
      assert row[..i + 1][..i] == row[..i];
      if a[p, i] {
        n := n + 1;
      }
    }
    assert row[..a.Length1] == row;
  }

  /** Two well-formed snapshots with the same flags are the same snapshot. */
  lemma SameFlags(s: Snapshot, t: Snapshot)
    requires WellFormed(s) && WellFormed(t)
    requires forall p, i :: 0 <= p < RodCount && 0 <= i < EarthBeads ==> s[p].earth[i] == t[p].earth[i]
    requires forall p, i :: 0 <= p < RodCount && 0 <= i < HeavenBeads ==> s[p].heaven[i] == t[p].heaven[i]
    ensures s == t
  {
    forall p | 0 <= p < RodCount ensures s[p] == t[p] {
      assert s[p].earth == t[p].earth;
      assert s[p].heaven == t[p].heaven;
    }
  }
}
