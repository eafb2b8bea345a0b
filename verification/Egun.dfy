/** Electron-gun calibration (src/core/egun_cli.cpp:135-140, 163-198, 290-418): a table of
    energies with hardware errors and default deflections, two searches in it, and linear fits. */
module Egun {
  import opened Basics

  datatype Row = Row(energy: real, shift: real, xdefl: real, ydefl: real, vfocus: real)

  /** `linearfit`. */
  function LinearFit(x1: real, x2: real, y1: real, y2: real, x: real): real
    requires x1 != x2
  {
    y1 + (y2 - y1) / (x2 - x1) * (x - x1)
  }

  datatype Found = Segment(i: nat) | TooSmall | TooLarge

  // ----- the searches -----

  /** The first search from row i on: the last energy itself is still allowed. */
  function SearchRequest(table: seq<Row>, i: nat, x: real): Found
    decreases |table| - i
  {
    if i >= |table| then TooLarge
    else if x >= table[i].energy && (i < |table| - 1 || x > table[|table| - 1].energy) then SearchRequest(table, i + 1, x)
    else if i == 0 then TooSmall
    else Segment(i)
  }

  /** The second search, on the corrected energy: `TooLarge` stands for leaving the loop without a
      hit, which is not reported. */
  function SearchCorrected(table: seq<Row>, i: nat, e: real): Found
    decreases |table| - i
  {
    if i >= |table| then TooLarge
    else if e < table[i].energy then (if i == 0 then TooSmall else Segment(i))
    else SearchCorrected(table, i + 1, e)
  }

  ghost predicate IncreasingEnergies(table: seq<Row>) {
    && |table| >= 2
    && forall i, j :: 0 <= i < j < |table| ==> table[i].energy < table[j].energy
  }

  lemma {:induction false} RequestSegment(table: seq<Row>, i: nat, x: real)
    requires IncreasingEnergies(table) && i < |table|
    requires forall j :: 0 <= j < i ==> table[j].energy <= x
    ensures match SearchRequest(table, i, x)
      case TooSmall => i == 0 && x < table[0].energy
      case TooLarge => x > table[|table| - 1].energy
      case Segment(s) => (1 <= s < |table| && i <= s && table[s - 1].energy <= x <= table[s].energy
                          && (x < table[s].energy || s == |table| - 1))
    decreases |table| - i
  {
    if x >= table[i].energy && (i < |table| - 1 || x > table[|table| - 1].energy) {
      if i + 1 < |table| {
        RequestSegment(table, i + 1, x);
      }
    } else if i > 0 {
      assert table[i - 1].energy <= x;
    }
  }

  lemma EnergyOrder(table: seq<Row>, i: int, j: int)
    requires IncreasingEnergies(table)
    ensures 0 <= i <= j < |table| ==> table[i].energy <= table[j].energy
    ensures 0 <= i < j < |table| ==> table[i].energy < table[j].energy
  {
  }

  /** The first search succeeds exactly on the closed range of the table, with the bracketing pair
      of rows; the two failures say on which side the request lies. */
  lemma RequestBracketed(table: seq<Row>, x: real)
    requires IncreasingEnergies(table)
    ensures SearchRequest(table, 0, x).Segment? <==> table[0].energy <= x <= table[|table| - 1].energy
    ensures SearchRequest(table, 0, x).TooSmall? <==> x < table[0].energy
    ensures SearchRequest(table, 0, x).Segment? ==> var s := SearchRequest(table, 0, x).i;
      1 <= s < |table| && table[s - 1].energy <= x <= table[s].energy && (x < table[s].energy || s == |table| - 1)
  {
    RequestSegment(table, 0, x);
    EnergyOrder(table, 0, |table| - 1);
    match SearchRequest(table, 0, x)
    case Segment(s) => EnergyOrder(table, 0, s - 1); EnergyOrder(table, s, |table| - 1);
    case TooSmall =>
    case TooLarge =>
  }

  lemma {:induction false} CorrectedSegment(table: seq<Row>, i: nat, e: real)
    requires IncreasingEnergies(table) && i < |table|
    requires forall j :: 0 <= j < i ==> table[j].energy <= e
    ensures match SearchCorrected(table, i, e)
      case TooSmall => i == 0 && e < table[0].energy
      case TooLarge => e >= table[|table| - 1].energy
      case Segment(s) => 1 <= s < |table| && i <= s && table[s - 1].energy <= e < table[s].energy
    decreases |table| - i
  {
    if e >= table[i].energy {
      if i + 1 < |table| {
        CorrectedSegment(table, i + 1, e);
      }
    } else if i > 0 {
      assert table[i - 1].energy <= e;
    }
  }

  // ----- the correction -----

  /** Calibrated: at least two rows, increasing energies, shift slopes between 0 and k < 1. */
  ghost predicate Calibrated(table: seq<Row>, k: real) {
    && IncreasingEnergies(table) && 0.0 <= k < 1.0
    && forall i :: 1 <= i < |table| ==> GentleStep(table[i - 1], table[i], k)
  }

  predicate GentleStep(a: Row, b: Row, k: real) {
    0.0 <= b.shift - a.shift <= k * (b.energy - a.energy)
  }

  /** The energy sent for a request x in segment i. */
  function SegmentCorrection(table: seq<Row>, i: nat, x: real): real
    requires 1 <= i < |table| && table[i - 1].energy != table[i].energy
  {
    x - LinearFit(table[i - 1].energy, table[i].energy, table[i - 1].shift, table[i].shift, x)
  }

  function Corrected(table: seq<Row>, x: real): real
    requires IncreasingEnergies(table) && table[0].energy <= x <= table[|table| - 1].energy
  {
    RequestBracketed(table, x);
    SegmentCorrection(table, SearchRequest(table, 0, x).i, x)
  }

  lemma Scale(a: real, b: real, c: real)
    requires a <= b && c >= 0.0
    ensures a * c <= b * c
  {
  }

  lemma SlopeBounds(dy: real, dx: real, k: real)
    requires dx > 0.0 && 0.0 <= dy <= k * dx
    ensures 0.0 <= dy / dx <= k
  {
    var s := dy / dx;
    assert s * dx == dy;
    if s < 0.0 {
      ProductStrict(s, 0.0, dx);
    }
    if k < s {
      ProductStrict(k, s, dx);
    }
  }

  lemma FitEndpoints(x1: real, x2: real, y1: real, y2: real)
    requires x1 != x2
    ensures LinearFit(x1, x2, y1, y2, x1) == y1 && LinearFit(x1, x2, y1, y2, x2) == y2
  {
    var dx := x2 - x1;
    assert (y2 - y1) / dx * dx == y2 - y1;
  }

  lemma FitDifference(x1: real, x2: real, y1: real, y2: real, a: real, b: real)
    requires x1 != x2
    ensures LinearFit(x1, x2, y1, y2, b) - LinearFit(x1, x2, y1, y2, a) == (y2 - y1) / (x2 - x1) * (b - a)
  {
    var s := (y2 - y1) / (x2 - x1);
    assert s * (b - x1) - s * (a - x1) == s * (b - a);
  }

  /** Inside one segment the correction stretches distances by a factor in [1 - k, 1]. */
  lemma SegmentStretch(table: seq<Row>, k: real, i: nat, a: real, b: real)
    requires Calibrated(table, k) && 1 <= i < |table| && a <= b
    ensures (1.0 - k) * (b - a) <= SegmentCorrection(table, i, b) - SegmentCorrection(table, i, a) <= b - a
  {
    var p, q := table[i - 1], table[i];
    assert GentleStep(p, q, k);
    var s := (q.shift - p.shift) / (q.energy - p.energy);
    SlopeBounds(q.shift - p.shift, q.energy - p.energy, k);
    FitDifference(p.energy, q.energy, p.shift, q.shift, a, b);
    StretchBounds(s, k, b - a);
  }

  lemma StretchBounds(s: real, k: real, d: real)
    requires 0.0 <= s <= k && d >= 0.0
    ensures (1.0 - k) * d <= d - s * d <= d
  {
    Scale(0.0, s, d);
    Scale(s, k, d);
    assert (1.0 - k) * d == d - k * d;
  }

  /** Neighbouring segments meet at their common row. */
  lemma SegmentsMeet(table: seq<Row>, i: nat)
    requires IncreasingEnergies(table) && 1 <= i && i + 1 < |table|
    ensures SegmentCorrection(table, i, table[i].energy) == table[i].energy - table[i].shift
    ensures SegmentCorrection(table, i + 1, table[i].energy) == table[i].energy - table[i].shift
  {
    FitEndpoints(table[i - 1].energy, table[i].energy, table[i - 1].shift, table[i].shift);
    FitEndpoints(table[i].energy, table[i + 1].energy, table[i].shift, table[i + 1].shift);
  }

  lemma {:induction false} StretchAcross(table: seq<Row>, k: real, i: nat, j: nat, a: real, b: real)
    requires Calibrated(table, k) && 1 <= i <= j < |table|
    requires a <= b && a <= table[i].energy && table[j - 1].energy <= b
    ensures (1.0 - k) * (b - a) <= SegmentCorrection(table, j, b) - SegmentCorrection(table, i, a) <= b - a
    decreases j
  {
    if i == j {
      SegmentStretch(table, k, i, a, b);
    } else {
      var m := table[j - 1].energy;
      assert table[i].energy <= m;
      SegmentStretch(table, k, j, m, b);
      SegmentsMeet(table, j - 1);
      StretchAcross(table, k, i, j - 1, a, m);
      assert (1.0 - k) * (b - m) + (1.0 - k) * (m - a) == (1.0 - k) * (b - a);
    }
  }

  /** The correction over the whole range of any calibrated table: two requests stay apart by at
      least (1 - k) times their distance and at most their distance. So it is continuous and
      strictly increasing, across segments as well as inside them. */
  lemma CorrectionStretch(table: seq<Row>, k: real, a: real, b: real)
    requires Calibrated(table, k) && table[0].energy <= a <= b <= table[|table| - 1].energy
    ensures (1.0 - k) * (b - a) <= Corrected(table, b) - Corrected(table, a) <= b - a
    ensures a < b ==> Corrected(table, a) < Corrected(table, b)
  {
    RequestBracketed(table, a);
    RequestBracketed(table, b);
    hide SegmentCorrection, SearchRequest;
    var i, j := SearchRequest(table, 0, a).i, SearchRequest(table, 0, b).i;
    RequestOrder(table, a, b);
    StretchAcross(table, k, i, j, a, b);
    PositiveStretch(k, b - a, Corrected(table, b) - Corrected(table, a));
  }

  lemma PositiveStretch(k: real, d: real, g: real)
    requires k < 1.0 && d >= 0.0 && (1.0 - k) * d <= g
    ensures g >= 0.0 && (d > 0.0 ==> g > 0.0)
  {
    if d > 0.0 {
      ProductStrict(0.0, 1.0 - k, d);
      assert 0.0 * d == 0.0;
    } else {
      assert (1.0 - k) * d == 0.0;
    }
  }

  lemma RequestOrder(table: seq<Row>, a: real, b: real)
    requires IncreasingEnergies(table) && table[0].energy <= a <= b <= table[|table| - 1].energy
    ensures SearchRequest(table, 0, a).Segment? && SearchRequest(table, 0, b).Segment?
    ensures SearchRequest(table, 0, a).i <= SearchRequest(table, 0, b).i
  {
    RequestBracketed(table, a);
    RequestBracketed(table, b);
    hide SearchRequest;
    var i, j := SearchRequest(table, 0, a).i, SearchRequest(table, 0, b).i;
    EnergyOrder(table, j, i - 1);
  }

  /** The integer sent to the gun never decreases when the requested energy grows. */
  lemma SentEnergyMonotone(table: seq<Row>, k: real, a: real, b: real)
    requires Calibrated(table, k) && table[0].energy <= a <= b <= table[|table| - 1].energy
    ensures Trunc(Corrected(table, a) * 10.0) <= Trunc(Corrected(table, b) * 10.0)
  {
    if a < b {
      CorrectionStretch(table, k, a, b);
    }
    TruncMonotone(Corrected(table, a) * 10.0, Corrected(table, b) * 10.0);
  }

  // ----- the second search -----

  /** Every shift is positive and no larger than the step down to the previous row. */
  ghost predicate ModestShifts(table: seq<Row>) {
    && (forall i :: 0 <= i < |table| ==> table[i].shift > 0.0)
    && (forall i :: 1 <= i < |table| ==> table[i].shift <= table[i].energy - table[i - 1].energy)
  }

  lemma CorrectedBelow(table: seq<Row>, k: real, i: nat, x: real)
    requires Calibrated(table, k) && ModestShifts(table) && 1 <= i < |table| && x >= table[i - 1].energy
    ensures SegmentCorrection(table, i, x) < x
    ensures SegmentCorrection(table, i, x) >= table[i - 1].energy - table[i - 1].shift
  {
    var p, q := table[i - 1], table[i];
    FitEndpoints(p.energy, q.energy, p.shift, q.shift);
    SegmentStretch(table, k, i, p.energy, x);
    var here, there := SegmentCorrection(table, i, x), SegmentCorrection(table, i, p.energy);
    assert there == p.energy - p.shift;
    PositiveStretch(k, x - p.energy, here - there);
  }

  /** With modest shifts the second search, on the corrected energy, hits the same segment as the
      first or the one before it, and fails exactly when the corrected energy is below the table. */
  lemma SecondSearch(table: seq<Row>, k: real, x: real)
    requires Calibrated(table, k) && ModestShifts(table)
    requires table[0].energy <= x <= table[|table| - 1].energy
    ensures var first, second := SearchRequest(table, 0, x), SearchCorrected(table, 0, Corrected(table, x));
      && first.Segment?
      && (second.TooSmall? <==> Corrected(table, x) < table[0].energy)
      && (!second.TooSmall? ==> second == first || (first.i >= 2 && second == Segment(first.i - 1)))
  {
    RequestBracketed(table, x);
    var i := SearchRequest(table, 0, x).i;
    var e := Corrected(table, x);
    CorrectedBelow(table, k, i, x);
    CorrectedSegment(table, 0, e);
    hide SearchRequest, SearchCorrected, SegmentCorrection, Calibrated;
    EnergyOrder(table, 0, i - 1);
    EnergyOrder(table, i, |table| - 1);
    if SearchCorrected(table, 0, e).Segment? {
      SegmentsNear(table, i, SearchCorrected(table, 0, e).i, e, x);
    }
  }

  lemma SegmentsNear(table: seq<Row>, i: nat, s: nat, e: real, x: real)
    requires IncreasingEnergies(table) && ModestShifts(table)
    requires 1 <= i < |table| && 1 <= s < |table|
    requires e < x <= table[i].energy && e >= table[i - 1].energy - table[i - 1].shift
    requires table[s - 1].energy <= e < table[s].energy
    ensures s == i || (i >= 2 && s == i - 1)
  {
    EnergyOrder(table, i, s - 1);
    EnergyOrder(table, s, i - 2);
  }

  // ----- the energy command -----

  /** A `po:` command: controller parameter index and the integer sent to it. */
  datatype Power = Power(index: nat, value: int)

  const ENERGY := 0
  const FOCUS := 4
  const XDEFLECTION := 6
  const YDEFLECTION := 7

  /** Default deflections and focus for a corrected energy, fitted in its segment. */
  function DefaultsFor(a: Row, b: Row, e: real): seq<Power>
    requires a.energy != b.energy
  {
    [Power(XDEFLECTION, Trunc(LinearFit(a.energy, b.energy, a.xdefl, b.xdefl, e) * 100.0)),
     Power(YDEFLECTION, Trunc(LinearFit(a.energy, b.energy, a.ydefl, b.ydefl, e) * 100.0)),
     Power(FOCUS, Trunc(LinearFit(a.energy, b.energy, a.vfocus, b.vfocus, e) * 10.0))]
  }

  function Times(t: real, d: real): real {
    t * d
  }

  /** The fraction t of the way from p to q. */
  function Between(p: real, q: real, t: real): real {
    p + Times(t, q - p)
  }

  /** The values on the way from row a to row b, the fraction t of it done: each column by itself, scaled
      as the gun wants it and truncated, under the index of its own parameter. */
  ghost predicate OnTheWay(sent: seq<Power>, a: Row, b: Row, t: real) {
    && |sent| == 3
    && sent[0] == Power(6, Trunc(Between(a.xdefl, b.xdefl, t) * 100.0))
    && sent[1] == Power(7, Trunc(Between(a.ydefl, b.ydefl, t) * 100.0))
    && sent[2] == Power(4, Trunc(Between(a.vfocus, b.vfocus, t) * 10.0))
  }

  lemma FitBetween(x1: real, x2: real, y1: real, y2: real, t: real)
    requires x1 != x2
    ensures LinearFit(x1, x2, y1, y2, Between(x1, x2, t)) == Between(y1, y2, t)
  {
    var dx, dy := x2 - x1, y2 - y1;
    assert Between(x1, x2, t) - x1 == Times(t, dx);
    SameSlope(dy, dx, t);
  }

  lemma SameSlope(dy: real, dx: real, t: real)
    requires dx != 0.0
    ensures dy / dx * Times(t, dx) == Times(t, dy)
  {
    var s := dy / dx;
    assert s * dx == dy;
    assert s * (t * dx) == t * (s * dx);
  }

  lemma TimesStrict(a: real, b: real, d: real)
    requires d > 0.0
    ensures a < b ==> Times(a, d) < Times(b, d)
    ensures Times(0.0, d) == 0.0 && Times(1.0, d) == d
  {
    if a < b {
      ProductStrict(a, b, d);
    }
  }

  /** A proper fraction of a positive distance. */
  lemma ProperFraction(t: real, d: real)
    requires d > 0.0
    ensures 0.0 <= Times(t, d) < d <==> 0.0 <= t < 1.0
    ensures Times(t, d) == 0.0 <==> t == 0.0
  {
    TimesStrict(t, 1.0, d);
    TimesStrict(1.0, t, d);
    TimesStrict(t, 0.0, d);
    TimesStrict(0.0, t, d);
    hide Times;
  }

  /** The same fraction t of the energy step decides all three defaults. */
  lemma DefaultsOnTheWay(a: Row, b: Row, t: real)
    requires a.energy != b.energy
    ensures OnTheWay(DefaultsFor(a, b, Between(a.energy, b.energy, t)), a, b, t)
  {
    FitBetween(a.energy, b.energy, a.xdefl, b.xdefl, t);
    FitBetween(a.energy, b.energy, a.ydefl, b.ydefl, t);
    FitBetween(a.energy, b.energy, a.vfocus, b.vfocus, t);
    hide LinearFit, Trunc, Between;
  }

  /** At the energy of a row the defaults are that row's own, whichever segment is fitted. */
  lemma DefaultsAtRows(a: Row, b: Row)
    requires a.energy != b.energy
    ensures DefaultsFor(a, b, a.energy) ==
      [Power(6, Trunc(a.xdefl * 100.0)), Power(7, Trunc(a.ydefl * 100.0)), Power(4, Trunc(a.vfocus * 10.0))]
    ensures DefaultsFor(a, b, b.energy) ==
      [Power(6, Trunc(b.xdefl * 100.0)), Power(7, Trunc(b.ydefl * 100.0)), Power(4, Trunc(b.vfocus * 10.0))]
  {
    FitEndpoints(a.energy, b.energy, a.xdefl, b.xdefl);
    FitEndpoints(a.energy, b.energy, a.ydefl, b.ydefl);
    FitEndpoints(a.energy, b.energy, a.vfocus, b.vfocus);
    hide LinearFit, Trunc;
  }

  /** Energy e lies in the step from row a to row b, the fraction t of it done. */
  ghost predicate Placed(a: Row, b: Row, e: real, t: real) {
    0.0 <= t < 1.0 && a.energy < b.energy && e == Between(a.energy, b.energy, t)
  }

  lemma QuotientIsProper(n: real, d: real)
    requires 0.0 <= n < d
    ensures Times(n / d, d) == n && 0.0 <= n / d < 1.0
  {
    ProperFraction(n / d, d);
  }

  lemma BetweenFraction(p: real, q: real, e: real)
    requires p <= e < q
    ensures exists t :: 0.0 <= t < 1.0 && Between(p, q, t) == e
  {
    QuotientIsProper(e - p, q - p);
    hide Times;
    assert Between(p, q, (e - p) / (q - p)) == e;
  }

  lemma BetweenBounds(p: real, q: real, t: real)
    requires 0.0 <= t < 1.0 && p < q
    ensures p <= Between(p, q, t) < q && (Between(p, q, t) == p ==> t == 0.0)
  {
    ProperFraction(t, q - p);
    hide Times;
  }

  lemma BetweenStart(p: real, q: real)
    ensures Between(p, q, 0.0) == p
  {
    TimesZero(q - p);
    hide Times;
  }

  lemma TimesZero(d: real)
    ensures Times(0.0, d) == 0.0
  {
  }

  /** Placed in a segment of the table, with the defaults that belong there. */
  ghost predicate Interpolated(table: seq<Row>, s: int, e: real, t: real, sent: seq<Power>) {
    1 <= s < |table| && Placed(table[s - 1], table[s], e, t) && OnTheWay(sent, table[s - 1], table[s], t)
  }

  lemma DefaultsInside(table: seq<Row>, s: nat, e: real)
    requires 1 <= s < |table| && table[s - 1].energy <= e < table[s].energy
    ensures var sent := DefaultsFor(table[s - 1], table[s], e); exists t :: Interpolated(table, s, e, t, sent)
  {
    var a, b := table[s - 1], table[s];
    BetweenFraction(a.energy, b.energy, e);
    var t :| 0.0 <= t < 1.0 && Between(a.energy, b.energy, t) == e;
    DefaultsOnTheWay(a, b, t);
    hide OnTheWay, DefaultsFor, Between;
    assert Interpolated(table, s, e, t, DefaultsFor(a, b, e));
  }

  /** The first search as a loop. */
  method FindRequest(table: seq<Row>, x: real) returns (r: Found)
    ensures r == SearchRequest(table, 0, x)
  {
    var i := 0;
    while i < |table|
      invariant 0 <= i <= |table|
      invariant SearchRequest(table, 0, x) == SearchRequest(table, i, x)
    {
      if !(x >= table[i].energy && (i < |table| - 1 || x > table[|table| - 1].energy)) {
        return if i == 0 then TooSmall else Segment(i);
      }
      i := i + 1;
    }
    return TooLarge;
  }

  /** The second search as a loop. */
  method FindCorrected(table: seq<Row>, e: real) returns (r: Found)
    ensures r == SearchCorrected(table, 0, e)
  {
    var i := 0;
    while i < |table|
      invariant 0 <= i <= |table|
      invariant SearchCorrected(table, 0, e) == SearchCorrected(table, i, e)
    {
      if e < table[i].energy {
        return if i == 0 then TooSmall else Segment(i);
      }
      i := i + 1;
    }
    return TooLarge;
  }

  /** `Energy=x`: correct the request, send it, then send the defaults for the corrected energy.
      Whatever goes wrong, `sent` is what already left for the gun. */
  method SetEnergy(table: seq<Row>, x: real) returns (sent: seq<Power>, ok: bool)
    requires IncreasingEnergies(table)
    ensures !(table[0].energy <= x <= table[|table| - 1].energy) ==> sent == [] && !ok
    ensures table[0].energy <= x <= table[|table| - 1].energy ==>
      var e := Corrected(table, x);
      var energy := Power(ENERGY, Trunc(e * 10.0));
      && (ok <==> e >= table[0].energy)
      && (e < table[0].energy || e >= table[|table| - 1].energy ==> sent == [energy])
      && (table[0].energy <= e < table[|table| - 1].energy ==>
            && |sent| == 4 && sent[0] == energy
            && exists s, t :: Interpolated(table, s, e, t, sent[1..]))
  {
    sent, ok := [], false;
    RequestBracketed(table, x);
    var first := FindRequest(table, x);
    if !first.Segment? {
      return;
    }
    var a, b := table[first.i - 1], table[first.i];
    var eval := x - LinearFit(a.energy, b.energy, a.shift, b.shift, x);
    assert eval == Corrected(table, x);
    hide LinearFit, SearchRequest, SearchCorrected, Corrected, DefaultsFor, Interpolated;
    sent := [Power(ENERGY, Trunc(eval * 10.0))];
    CorrectedSegment(table, 0, eval);
    EnergyOrder(table, 0, |table| - 1);
    var second := FindCorrected(table, eval);
    if second.TooSmall? {
      return;
    }
    if second.Segment? {
      EnergyOrder(table, second.i, |table| - 1);
      EnergyOrder(table, 0, second.i - 1);
      DefaultsInside(table, second.i, eval);
      sent := sent + DefaultsFor(table[second.i - 1], table[second.i], eval);
      assert sent[1..] == DefaultsFor(table[second.i - 1], table[second.i], eval);
    }
    ok := true;
  }

  // ----- the shipped table -----

  const SHIPPED: seq<Row> := [
    Row(10.0, 0.4, 0.12, 0.0, 13.9), Row(20.0, 0.4, -0.36, 0.0, 9.8), Row(30.0, 0.4, -0.74, 0.0, 9.1),
    Row(40.0, 0.4, -0.90, 0.0, 9.2), Row(50.0, 0.5, -1.0, 0.0, 10.0), Row(100.0, 0.7, -3.0, 0.0, 15.0),
    Row(200.0, 1.0, -7.0, 0.0, 36.0), Row(300.0, 1.3, -11.0, 0.0, 52.0), Row(400.0, 1.7, -12.0, -1.0, 69.0),
    Row(500.0, 2.0, -13.0, -5.0, 98.0), Row(600.0, 2.4, -15.0, -1.0, 136.6), Row(700.0, 2.7, -14.0, -3.0, 192.0),
    Row(800.0, 3.0, -15.0, -2.0, 292.0), Row(900.0, 3.4, -15.0, -3.0, 309.0), Row(1000.0, 3.7, -15.0, -1.0, 339.0),
    Row(1100.0, 4.1, -22.0, -4.0, 357.0), Row(1200.0, 4.4, -26.0, -2.0, 390.0), Row(1300.0, 4.8, -27.0, -5.0, 400.0),
    Row(1400.0, 5.1, -22.0, -7.0, 441.0), Row(1500.0, 5.4, -24.0, -10.0, 468.0), Row(1600.0, 5.7, -27.0, -10.0, 499.0)]

  /** What a pair of neighbouring rows must satisfy. */
  predicate GoodPair(a: Row, b: Row, k: real) {
    a.energy < b.energy && GentleStep(a, b, k) && 0.0 < b.shift <= b.energy - a.energy
  }

  ghost predicate GoodPairs(table: seq<Row>, k: real) {
    forall i :: 1 <= i < |table| ==> GoodPair(table[i - 1], table[i], k)
  }

  lemma {:induction false} GoodPairsOrder(table: seq<Row>, k: real, i: nat, j: nat)
    requires GoodPairs(table, k) && i < j < |table|
    ensures table[i].energy < table[j].energy
    decreases j
  {
    assert GoodPair(table[j - 1], table[j], k);
    if i < j - 1 {
      GoodPairsOrder(table, k, i, j - 1);
    }
  }

  /** Checking neighbours is enough for the whole table. */
  lemma GoodTable(table: seq<Row>, k: real)
    requires |table| >= 2 && GoodPairs(table, k) && 0.0 <= k < 1.0 && table[0].shift > 0.0
    ensures Calibrated(table, k) && ModestShifts(table)
  {
    forall i, j | 0 <= i < j < |table| ensures table[i].energy < table[j].energy {
      GoodPairsOrder(table, k, i, j);
    }
    forall i | 1 <= i < |table|
      ensures GentleStep(table[i - 1], table[i], k) && 0.0 < table[i].shift <= table[i].energy - table[i - 1].energy
    {
      assert GoodPair(table[i - 1], table[i], k);
    }
  }

  /** The shipped table is calibrated with slope bound 0.01 and has modest shifts. */
  lemma ShippedCalibrated()
    ensures Calibrated(SHIPPED, 0.01) && ModestShifts(SHIPPED)
    ensures |SHIPPED| == 21 && SHIPPED[0].energy == 10.0 && SHIPPED[20].energy == 1600.0
  {
    forall i | 1 <= i < |SHIPPED| ensures GoodPair(SHIPPED[i - 1], SHIPPED[i], 0.01) {
      if i <= 7 {
        assert i == 1 || i == 2 || i == 3 || i == 4 || i == 5 || i == 6 || i == 7;
      } else if i <= 14 {
        assert i == 8 || i == 9 || i == 10 || i == 11 || i == 12 || i == 13 || i == 14;
      } else {
        assert i == 15 || i == 16 || i == 17 || i == 18 || i == 19 || i == 20;
      }
    }
    GoodTable(SHIPPED, 0.01);
  }

  lemma BelowTop(table: seq<Row>, k: real, x: real)
    requires Calibrated(table, k) && ModestShifts(table)
    requires table[0].energy <= x <= table[|table| - 1].energy
    ensures Corrected(table, x) < x
  {
    RequestBracketed(table, x);
    hide SegmentCorrection, SearchRequest;
    CorrectedBelow(table, k, SearchRequest(table, 0, x).i, x);
  }

  /** If some request t is corrected to exactly the lowest energy, then the requests whose second
      search fails are exactly those below t; and no corrected energy reaches the last one. */
  lemma Threshold(table: seq<Row>, k: real, t: real, x: real)
    requires Calibrated(table, k) && ModestShifts(table)
    requires table[0].energy <= t <= table[|table| - 1].energy && Corrected(table, t) == table[0].energy
    requires table[0].energy <= x <= table[|table| - 1].energy
    ensures Corrected(table, x) < table[0].energy <==> x < t
    ensures Corrected(table, x) < table[|table| - 1].energy
  {
    BelowTop(table, k, x);
    hide Corrected, Calibrated, ModestShifts;
    if x < t {
      CorrectionStretch(table, k, x, t);
    } else {
      CorrectionStretch(table, k, t, x);
      PositiveStretch(k, x - t, Corrected(table, x) - Corrected(table, t));
    }
  }

  /** In the shipped table that request is 10.4 eV. */
  lemma ShippedThreshold(x: real)
    requires 10.0 <= x <= 1600.0
    ensures IncreasingEnergies(SHIPPED) && |SHIPPED| == 21 && SHIPPED[0].energy == 10.0 && SHIPPED[20].energy == 1600.0
    ensures Corrected(SHIPPED, x) < 10.0 <==> x < 10.4
    ensures Corrected(SHIPPED, x) < 1600.0
  {
    ShippedCalibrated();
    FirstSegmentFlat();
    hide SegmentCorrection, SearchRequest, Corrected, Calibrated, ModestShifts;
    Threshold(SHIPPED, 0.01, 10.4, x);
  }

  lemma FirstSegmentFlat()
    ensures IncreasingEnergies(SHIPPED) && SHIPPED[20].energy == 1600.0 && Corrected(SHIPPED, 10.4) == 10.0
  {
    ShippedCalibrated();
    assert SearchRequest(SHIPPED, 0, 10.4) == SearchRequest(SHIPPED, 1, 10.4) == Segment(1);
    assert (0.4 - 0.4) / 10.0 == 0.0;
  }

  lemma PlacedBounds(a: Row, b: Row, e: real, t: real)
    requires Placed(a, b, e, t)
    ensures a.energy <= e < b.energy && (e == a.energy ==> t == 0.0)
  {
    BetweenBounds(a.energy, b.energy, t);
    hide Between;
  }

  /** A row's own energy is reached at its own end of a step only. */
  lemma PlacedAtRow(table: seq<Row>, s: nat, r: nat, t: real)
    requires IncreasingEnergies(table) && 1 <= s < |table| && r < |table|
    requires Placed(table[s - 1], table[s], table[r].energy, t)
    ensures s == r + 1 && t == 0.0
  {
    PlacedBounds(table[s - 1], table[s], table[r].energy, t);
    hide Placed;
    EnergyOrder(table, r, s - 1);
    EnergyOrder(table, s, r);
  }

  /** Asked for 10.4 eV, the shipped table sends the defaults of its first row. */
  lemma FirstRowSent(sent: seq<Power>)
    requires |sent| == 4 && exists s, t :: Interpolated(SHIPPED, s, 10.0, t, sent[1..])
    ensures sent == [sent[0], Power(6, 12), Power(7, 0), Power(4, 139)]
  {
    var s, t :| Interpolated(SHIPPED, s, 10.0, t, sent[1..]);
    hide SHIPPED;
    FirstRowAt(sent[1..], s, t);
  }

  lemma FirstRowAt(sent: seq<Power>, s: int, t: real)
    requires Interpolated(SHIPPED, s, 10.0, t, sent)
    ensures sent == [Power(6, 12), Power(7, 0), Power(4, 139)]
  {
    ShippedCalibrated();
    assert SHIPPED[0] == Row(10.0, 0.4, 0.12, 0.0, 13.9);
    hide SHIPPED, Placed, OnTheWay, Calibrated, ModestShifts;
    PlacedAtRow(SHIPPED, s, 0, t);
    FirstRowValues(SHIPPED[1], sent, t);
  }

  lemma FirstRowValues(b: Row, sent: seq<Power>, t: real)
    requires t == 0.0 && OnTheWay(sent, Row(10.0, 0.4, 0.12, 0.0, 13.9), b, t)
    ensures sent == [Power(6, 12), Power(7, 0), Power(4, 139)]
  {
    BetweenStart(0.12, b.xdefl);
    BetweenStart(0.0, b.ydefl);
    BetweenStart(13.9, b.vfocus);
    hide Between;
  }

  lemma IndicesSent(table: seq<Row>, e: real, sent: seq<Power>)
    requires |sent| == 4 && exists s, t :: Interpolated(table, s, e, t, sent[1..])
    ensures sent[1].index == XDEFLECTION && sent[2].index == YDEFLECTION && sent[3].index == FOCUS
  {
    hide Between, Placed;
    var s, t :| Interpolated(table, s, e, t, sent[1..]);
    assert sent[1] == sent[1..][0] && sent[2] == sent[1..][1] && sent[3] == sent[1..][2];
  }

  lemma ShippedRange()
    ensures IncreasingEnergies(SHIPPED) && |SHIPPED| == 21 && SHIPPED[0].energy == 10.0 && SHIPPED[20].energy == 1600.0
    ensures Trunc(10.0 * 10.0) == 100 && ENERGY == 0 && XDEFLECTION == 6 && YDEFLECTION == 7 && FOCUS == 4
  {
    ShippedCalibrated();
  }

  /** `Energy=x` on the shipped table: outside [10, 1600] eV nothing is sent; in [10, 10.4) the
      energy command has left for the gun although the request then fails; from 10.4 eV on the
      energy and its three defaults are sent, in this order. */
  method SetShippedEnergy(x: real) returns (sent: seq<Power>, ok: bool)
    ensures ok <==> 10.4 <= x <= 1600.0
    ensures x < 10.0 || x > 1600.0 ==> sent == []
    ensures 10.0 <= x < 10.4 ==> |sent| == 1 && sent[0].index == ENERGY
    ensures ok ==> (|sent| == 4 && sent[0].index == ENERGY && sent[1].index == XDEFLECTION
                    && sent[2].index == YDEFLECTION && sent[3].index == FOCUS)
    ensures x == 10.4 ==> sent == [Power(0, 100), Power(6, 12), Power(7, 0), Power(4, 139)]
  {
    hide *;
    ShippedRange();
    sent, ok := SetEnergy(SHIPPED, x);
    if x < 10.0 || x > 1600.0 {
      return;
    }
    ShippedThreshold(x);
    if x < 10.4 {
      return;
    }
    IndicesSent(SHIPPED, Corrected(SHIPPED, x), sent);
    if x == 10.4 {
      FirstSegmentFlat();
      FirstRowSent(sent);
    }
  }
}
