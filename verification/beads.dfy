/** Rods and beads of the soroban: the fixed dimensions, the state of one rod as two rows of
    flags, and the toggle rules that a click applies to one row. */
module Beads {

  /** Thirteen rods, place values 10^0 .. 10^12. */
  const RodCount: nat := 13
  /** Earth beads per rod, each worth 1 when active. */
  const EarthBeads: nat := 5
  /** Heaven beads per rod, each worth 5 when active. */
  const HeavenBeads: nat := 2

  datatype Kind = Heaven | Earth

  /** Number of beads of one kind on a rod. */
  function BeadCount(kind: Kind): nat {
    match kind
    case Heaven => HeavenBeads
    case Earth => EarthBeads
  }

  /** The saved state of one rod: the active flag of every earth and every heaven bead, in
      bead order. */
  datatype RodState = RodState(earth: seq<bool>, heaven: seq<bool>) {
    function Row(kind: Kind): seq<bool> {
      match kind
      case Heaven => heaven
      case Earth => earth
    }
  }

  /** A snapshot of the whole abacus: one rod state per rod, in the child order of the rod
      container (most significant first). */
  type Snapshot = seq<RodState>

  predicate Shaped(r: RodState) {
    |r.earth| == EarthBeads && |r.heaven| == HeavenBeads
  }

  /** A snapshot of the right dimensions. */
  predicate WellFormed(s: Snapshot) {
    |s| == RodCount && forall p :: 0 <= p < |s| ==> Shaped(s[p])
  }

  /** The earth beads of a row form a contiguous prefix: an active bead has only active beads
      before it. */
  predicate Contiguous(e: seq<bool>) {
    forall i, j :: 0 <= i < j < |e| && e[j] ==> e[i]
  }

  /** Every rod of the snapshot obeys the earth-bead rule. */
  predicate Physical(s: Snapshot) {
    forall p :: 0 <= p < |s| ==> Contiguous(s[p].earth)
  }

  /** Number of active beads in a row, never more than the row holds. */
  function CountTrue(row: seq<bool>): (n: nat)
    ensures n <= |row|
  {
    if row == [] then 0 else CountTrue(row[..|row| - 1]) + (if row[|row| - 1] then 1 else 0)
  }

  /** The row of length n whose first m beads are active and the rest inactive. */
  function Prefix(n: nat, m: nat): (row: seq<bool>)
    ensures |row| == n
  {
    seq(n, i => i < m)
  }

  /** Clicking heaven bead k flips that bead only. */
  function FlipHeaven(h: seq<bool>, k: nat): (r: seq<bool>)
    requires k < |h|
    ensures |r| == |h| && r[k] == !h[k]
    ensures forall j :: 0 <= j < |h| && j != k ==> r[j] == h[j]
  {
    h[k := !h[k]]
  }

  /** Clicking earth bead k: when it was inactive, beads 0..k become active and the rest are
      left alone; when it was active, beads k.. become inactive and the rest are left alone. */
  function ToggledEarth(e: seq<bool>, k: nat): (r: seq<bool>)
    requires k < |e|
    ensures |r| == |e| && r[k] == !e[k]
    ensures !e[k] ==> forall j :: 0 <= j < |e| ==> r[j] == (j <= k || e[j])
    ensures e[k] ==> forall j :: 0 <= j < |e| ==> r[j] == (j < k && e[j])
  {
    var shouldActivate := !e[k];
    seq(|e|, i requires 0 <= i < |e| =>
      if shouldActivate && i <= k then true
      else if !shouldActivate && i >= k then false
      else e[i])
  }

  /** Clicking bead k of the given kind on a rod; the other row is untouched. */
  function ToggleRod(r: RodState, kind: Kind, k: nat): (t: RodState)
    requires k < |r.Row(kind)|
    ensures t.Row(kind) == (if kind == Heaven then FlipHeaven(r.heaven, k) else ToggledEarth(r.earth, k))
    ensures kind == Heaven ==> t.earth == r.earth
    ensures kind == Earth ==> t.heaven == r.heaven
  {
    match kind
    case Heaven => r.(heaven := FlipHeaven(r.heaven, k))
    case Earth => r.(earth := ToggledEarth(r.earth, k))
  }

  /** A rod with every bead inactive and the same number of beads. */
  function ClearedRod(r: RodState): (c: RodState)
    ensures |c.earth| == |r.earth| && |c.heaven| == |r.heaven|
    ensures forall i :: 0 <= i < |c.earth| ==> !c.earth[i]
    ensures forall i :: 0 <= i < |c.heaven| ==> !c.heaven[i]
  {
    RodState(Prefix(|r.earth|, 0), Prefix(|r.heaven|, 0))
  }

  /** The digit a rod shows: its active earth beads plus five per active heaven bead. The
      heaven count is not capped at one. */
  function Digit(r: RodState): nat {
    CountTrue(r.earth) + 5 * CountTrue(r.heaven)
  }

  /** The snapshot after clicking bead k of the given kind on rod p. */
  function ToggleAt(s: Snapshot, p: nat, kind: Kind, k: nat): (t: Snapshot)
    requires p < |s| && k < |s[p].Row(kind)|
    ensures |t| == |s| && t[p] == ToggleRod(s[p], kind, k)
    ensures forall q :: 0 <= q < |s| && q != p ==> t[q] == s[q]
  {
    s[p := ToggleRod(s[p], kind, k)]
  }

  /** The snapshot after clearing rod p. */
  function ClearRodAt(s: Snapshot, p: nat): (t: Snapshot)
    requires p < |s|
    ensures |t| == |s| && t[p] == ClearedRod(s[p])
    ensures forall q :: 0 <= q < |s| && q != p ==> t[q] == s[q]
  {
    s[p := ClearedRod(s[p])]
  }

  /** The snapshot after clearing every rod. */
  function ClearAll(s: Snapshot): (t: Snapshot)
    ensures |t| == |s|
    ensures forall p :: 0 <= p < |s| ==> t[p] == ClearedRod(s[p])
  {
    seq(|s|, p requires 0 <= p < |s| => ClearedRod(s[p]))
  }

  // ---------------------------------------------------------------------------------------
  // Counting

  /** A prefix row with m of its n beads active has m active beads. */
  lemma {:induction false} CountPrefix(n: nat, m: nat)
    requires m <= n
    ensures CountTrue(Prefix(n, m)) == m
  {
    if n > 0 {
      var row := Prefix(n, m);
      assert row[..n - 1] == Prefix(n - 1, if m == n then n - 1 else m);
      CountPrefix(n - 1, if m == n then n - 1 else m);
    }
  }

  /** Every row of all-active beads counts its length. */
  lemma CountAll(n: nat)
    ensures CountTrue(Prefix(n, n)) == n
  {
    CountPrefix(n, n);
  }

  /** A contiguous row is determined by how many of its beads are active. */
  lemma {:induction false} ContiguousIsPrefix(e: seq<bool>)
    requires Contiguous(e)
    ensures e == Prefix(|e|, CountTrue(e))
  {
    if e != [] {
      var n := |e|;
      var init := e[..n - 1];
      assert Contiguous(init);
      ContiguousIsPrefix(init);
      if e[n - 1] {
        assert forall i :: 0 <= i < n - 1 ==> init[i];
        CountPrefix(n - 1, n - 1);
        assert init == Prefix(n - 1, n - 1);
      }
    }
  }

  /** Every prefix row is contiguous; with ContiguousIsPrefix, the contiguous rows are exactly
      the prefix rows. */
  lemma PrefixContiguous(n: nat, m: nat)
    ensures Contiguous(Prefix(n, m))
  {
  }

  // ---------------------------------------------------------------------------------------
  // The toggle rules

  /** Activating inactive earth bead k on a contiguous row leaves exactly beads 0..k active. */
  lemma ActivateEarth(e: seq<bool>, k: nat)
    requires Contiguous(e) && k < |e| && !e[k]
    ensures ToggledEarth(e, k) == Prefix(|e|, k + 1)
    ensures CountTrue(ToggledEarth(e, k)) == k + 1
  {
    var r := ToggledEarth(e, k);
    forall j | 0 <= j < |e| ensures r[j] == (j < k + 1) {
    }
    CountPrefix(|e|, k + 1);
  }

  /** Deactivating active earth bead k on a contiguous row leaves exactly beads 0..k-1 active. */
  lemma DeactivateEarth(e: seq<bool>, k: nat)
    requires Contiguous(e) && k < |e| && e[k]
    ensures ToggledEarth(e, k) == Prefix(|e|, k)
    ensures CountTrue(ToggledEarth(e, k)) == k
  {
    var r := ToggledEarth(e, k);
    forall j | 0 <= j < |e| ensures r[j] == (j < k) {
    }
    CountPrefix(|e|, k);
  }

  /** Either way, an earth click keeps a contiguous row contiguous. */
  lemma ToggledEarthContiguous(e: seq<bool>, k: nat)
    requires Contiguous(e) && k < |e|
    ensures Contiguous(ToggledEarth(e, k))
  {
    if e[k] {
      DeactivateEarth(e, k);
    } else {
      ActivateEarth(e, k);
    }
  }

  /** Clicking a heaven bead twice restores the row. */
  lemma FlipHeavenTwice(h: seq<bool>, k: nat)
    requires k < |h|
    ensures FlipHeaven(FlipHeaven(h, k), k) == h
  {
  }

  /** A click keeps every rod of a physical snapshot physical, and keeps the shape. */
  lemma ToggleAtPhysical(s: Snapshot, p: nat, kind: Kind, k: nat)
    requires p < |s| && k < |s[p].Row(kind)|
    ensures Physical(s) ==> Physical(ToggleAt(s, p, kind, k))
    ensures WellFormed(s) ==> WellFormed(ToggleAt(s, p, kind, k))
  {
    if kind == Earth && Physical(s) {
      ToggledEarthContiguous(s[p].earth, k);
    }
  }

  /** Clearing a rod keeps the shape and the earth-bead rule. */
  lemma ClearRodAtPhysical(s: Snapshot, p: nat)
    requires p < |s|
    ensures Physical(s) ==> Physical(ClearRodAt(s, p))
    ensures WellFormed(s) ==> WellFormed(ClearRodAt(s, p))
  {
  }

  /** Clearing every rod yields a well-formed physical snapshot whatever the state before. */
  lemma ClearAllPhysical(s: Snapshot)
    ensures Physical(ClearAll(s))
    ensures WellFormed(s) ==> WellFormed(ClearAll(s))
  {
  }
}
