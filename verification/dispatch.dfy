/** What a click on a bead asks for: with the shift key held the whole rod is cleared,
    otherwise the bead is toggled. */
module Dispatch {
  import opened Beads
  import opened Valuation

  datatype Action = Toggle(rod: nat, kind: Kind, index: nat) | ResetRod(rod: nat)

  /** The action for a click on bead `index` of the given kind on rod `rod`. */
  function Resolve(rod: nat, kind: Kind, index: nat, shift: bool): (a: Action)
    ensures a.rod == rod
    ensures a.ResetRod? <==> shift
    ensures a.Toggle? ==> a.kind == kind && a.index == index
  {
    if shift then ResetRod(rod) else Toggle(rod, kind, index)
  }

  /** The rod exists and, for a toggle, so does the bead. */
  predicate Applicable(a: Action) {
    a.rod < RodCount && (a.Toggle? ==> a.index < BeadCount(a.kind))
  }

  /** The state after an action. */
  function Apply(s: Snapshot, a: Action): (t: Snapshot)
    requires WellFormed(s) && Applicable(a)
    ensures WellFormed(t)
    ensures Physical(s) ==> Physical(t)
    ensures forall q :: 0 <= q < |s| && q != a.rod ==> t[q] == s[q]
  {
    match a
    case Toggle(p, kind, k) =>
      ToggleAtPhysical(s, p, kind, k);
      ToggleAt(s, p, kind, k)
    case ResetRod(p) =>
      ClearRodAtPhysical(s, p);
      ClearRodAt(s, p)
  }

  /** A shift-click takes exactly that rod's contribution off the total. */
  lemma ResetRodValue(s: Snapshot, p: nat)
    requires WellFormed(s) && p < RodCount
    ensures Value(Apply(s, ResetRod(p))) + Contribution(s, p) == Value(s)
  {
    ClearedRodShowsZero(s[p]);
    ValueUpdate(s, p, ClearedRod(s[p]));
  }

  /** A click on an earth bead of a physical rod sets that rod's earth count to the clicked
      position plus one (activation) or to the clicked position (deactivation), and moves the
      total by the change in that rod's contribution. */
  lemma EarthClickValue(s: Snapshot, p: nat, k: nat)
    requires WellFormed(s) && Physical(s) && p < RodCount && k < EarthBeads
    ensures var t := Apply(s, Toggle(p, Earth, k));
            CountTrue(t[p].earth) == (if s[p].earth[k] then k else k + 1) &&
            Value(t) + Contribution(s, p) == Value(s) + Contribution(t, p)
  {
    var t := Apply(s, Toggle(p, Earth, k));
    if s[p].earth[k] {
      DeactivateEarth(s[p].earth, k);
    } else {
      ActivateEarth(s[p].earth, k);
    }
    ValueUpdate(s, p, t[p]);
    assert t == s[p := t[p]];
  }

  /** The rod with place value 10^i: each rod is inserted before the rods made earlier, so it
      sits at child position RodCount - 1 - i, and what it adds to the total of any full
      snapshot is its digit times 10^i. */
  function PositionOf(i: nat): (p: nat)
    requires i < RodCount
    ensures p < RodCount
    ensures forall s: Snapshot :: |s| == RodCount ==> Contribution(s, p) == Digit(s[p]) * Pow10(i)
  {
    RodCount - 1 - i
  }

  /** The fresh abacus: every bead of every rod inactive. */
  function Blank(): (s: Snapshot)
    ensures WellFormed(s) && Physical(s)
  {
    seq(RodCount, _ => RodState(Prefix(EarthBeads, 0), Prefix(HeavenBeads, 0)))
  }

  /** The freshly built abacus shows 0. */
  lemma BlankShowsZero()
    ensures Value(Blank()) == 0
  {
    assert Blank() == ClearAll(Blank());
    ValueOfClearAll(Blank());
  }

  /** The worked examples: on a blank abacus, activating earth bead 2 of the units rod (the last
      child, PositionOf(0)) shows 3;
      then activating heaven bead 0 shows 8; then deactivating earth bead 0 shows 5. */
  lemma UnitsRodScenario()
    ensures var u := RodCount - 1;
            var s1 := Apply(Blank(), Toggle(u, Earth, 2));
            var s2 := Apply(s1, Toggle(u, Heaven, 0));
            var s3 := Apply(s2, Toggle(u, Earth, 0));
            Value(Blank()) == 0 && Value(s1) == 3 && Value(s2) == 8 && Value(s3) == 5
  {
    var u := RodCount - 1;
    var s0 := Blank();
    BlankShowsZero();
    var s1 := Apply(s0, Toggle(u, Earth, 2));
    ClearedRodShowsZero(s0[u]);
    ActivateEarth(s0[u].earth, 2);
    ValueUpdate(s0, u, s1[u]);
    assert s1 == s0[u := s1[u]];
    assert Value(s1) == 3;
    var s2 := Apply(s1, Toggle(u, Heaven, 0));
    assert s2[u].heaven == Prefix(HeavenBeads, 1);
    CountPrefix(HeavenBeads, 1);
    ValueUpdate(s1, u, s2[u]);
    assert s2 == s1[u := s2[u]];
    assert Value(s2) == 8;
    var s3 := Apply(s2, Toggle(u, Earth, 0));
    DeactivateEarth(s2[u].earth, 0);
    ValueUpdate(s2, u, s3[u]);
    assert s3 == s2[u := s3[u]];
  }
}
