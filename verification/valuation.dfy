/** The number an abacus shows: every rod's digit times the place value of that rod. */
module Valuation {
  import opened Beads

  /** Exact 10^i; the place value of the rod at position i from the right. */
  function Pow10(i: nat): (r: nat)
    ensures r >= 1
  {
    if i == 0 then 1 else 10 * Pow10(i - 1)
  }

  /** The total of a snapshot read left to right: rod p of n has place value 10^(n-1-p). */
  function Value(s: Snapshot): nat
    decreases |s|
  {
    if s == [] then 0 else Digit(s[0]) * Pow10(|s| - 1) + Value(s[1..])
  }

  /** The rod at child position p has place value 10^(|s|-1-p); its contribution to the total. */
  function Contribution(s: Snapshot, p: nat): nat
    requires p < |s|
  {
    Digit(s[p]) * Pow10(|s| - 1 - p)
  }

  // ---------------------------------------------------------------------------------------

  /** A rod with the usual dimensions shows a digit of at most 15 (both heaven beads and all
      earth beads active). */
  lemma DigitAtMost15(r: RodState)
    requires Shaped(r)
    ensures Digit(r) <= 15
  {
  }

  /** The heaven count is not capped: a fully active rod shows 15, not 9. */
  lemma FullRodShows15()
    ensures Digit(RodState(Prefix(EarthBeads, EarthBeads), Prefix(HeavenBeads, HeavenBeads))) == 15
  {
    CountAll(EarthBeads);
    CountAll(HeavenBeads);
  }

  /** A cleared rod shows 0. */
  lemma ClearedRodShowsZero(r: RodState)
    ensures Digit(ClearedRod(r)) == 0
  {
    CountPrefix(|r.earth|, 0);
    CountPrefix(|r.heaven|, 0);
  }

  /** With every rod cleared the abacus shows 0. */
  lemma {:induction false} ValueOfClearAll(s: Snapshot)
    ensures Value(ClearAll(s)) == 0
    decreases |s|
  {
    if s != [] {
      ClearedRodShowsZero(s[0]);
      assert ClearAll(s)[1..] == ClearAll(s[1..]);
      ValueOfClearAll(s[1..]);
    }
  }

  /** Each rod contributes at most 15 times its place value, so nine times the total is at most
      15 * (10^n - 1). */
  lemma {:induction false} ValueBound(s: Snapshot)
    requires forall p :: 0 <= p < |s| ==> Shaped(s[p])
    ensures 9 * Value(s) <= 15 * (Pow10(|s|) - 1)
    decreases |s|
  {
    if s != [] {
      var n := |s|;
      DigitAtMost15(s[0]);
      ValueBound(s[1..]);
      var d, w := Digit(s[0]), Pow10(n - 1);
      assert d * w <= 15 * w by {
        MulMono(d, 15, w);
      }
    }
  }

  /** When every rod shows a proper decimal digit (at most 9), the total is below 10^n, the
      usual positional reading. */
  lemma {:induction false} DecimalValueBound(s: Snapshot)
    requires forall p :: 0 <= p < |s| ==> Digit(s[p]) <= 9
    ensures Value(s) < Pow10(|s|)
    decreases |s|
  {
    if s != [] {
      var n := |s|;
      DecimalValueBound(s[1..]);
      var d, w := Digit(s[0]), Pow10(n - 1);
      assert d * w <= 9 * w by {
        MulMono(d, 9, w);
      }
    }
  }

  /** Replacing rod p changes the total by exactly the change in that rod's contribution. */
  lemma {:induction false} ValueUpdate(s: Snapshot, p: nat, r: RodState)
    requires p < |s|
    ensures Value(s[p := r]) + Contribution(s, p) == Value(s) + Digit(r) * Pow10(|s| - 1 - p)
    decreases |s|
  {
    if p > 0 {
      assert s[p := r][1..] == s[1..][p - 1 := r];
      ValueUpdate(s[1..], p - 1, r);
    } else {
      assert s[p := r][1..] == s[1..];
    }
  }

  /** The rods from position p on total the contribution of rod p plus the rods after it. */
  lemma {:induction false} ValueSplit(s: Snapshot, p: nat)
    requires p < |s|
    ensures Value(s[p..]) == Contribution(s, p) + Value(s[p + 1..])
  {
    assert s[p..][1..] == s[p + 1..];
  }

  lemma MulMono(a: nat, b: nat, c: nat)
    requires a <= b
    ensures a * c <= b * c
  {
  }
}
