/** The `1QP` position report: the pattern walk of `get_cur_position`
    (src/core/IAPBoard.cpp:531-567) and the reports a controller may send. */
module Report {
  import opened Basics
  import opened Decimal

  datatype Reading = Reading(id: nat, value: int)

  // ----- the pattern walk -----

  /** Length of the match of `\d = [-]?\d+` at the start of `s`; 0 when there is none. */
  function MatchLen(s: string): (n: nat)
    ensures n <= |s|
    ensures n > 0 ==> n > 4 && IsDigit(s[0])
  {
    if |s| >= 5 && IsDigit(s[0]) && s[1..4] == " = " && IntPrefix(s[4..]) > 0
    then 4 + IntPrefix(s[4..]) else 0
  }

  /** The reading a match stands for: its first character is the id, the rest after `=` the value. */
  function MatchReading(s: string): Reading
    requires MatchLen(s) > 0
  {
    IntPrefixTight(s[4..]);
    Reading(DigitValue(s[0]), IntValue(s[4..][..IntPrefix(s[4..])]))
  }

  /** All leftmost, non-overlapping matches, as `sregex_token_iterator` yields them. */
  function Scan(s: string): seq<Reading>
    decreases |s|
  {
    if s == [] then []
    else if MatchLen(s) > 0 then [MatchReading(s)] + Scan(s[MatchLen(s)..])
    else Scan(s[1..])
  }

  lemma ScanStep(line: string, i: nat)
    requires i < |line|
    ensures MatchLen(line[i..]) > 0 ==>
      Scan(line[i..]) == [MatchReading(line[i..])] + Scan(line[i + MatchLen(line[i..])..])
    ensures MatchLen(line[i..]) == 0 ==> Scan(line[i..]) == Scan(line[i + 1..])
  {
    var here := line[i..];
    assert here[1..] == line[i + 1..];
    assert here[MatchLen(here)..] == line[i + MatchLen(here)..];
  }

  lemma AppendFirst<T>(front: seq<T>, x: T, back: seq<T>)
    ensures front + ([x] + back) == (front + [x]) + back
  {
  }

  /** The walk as the source writes it: one pass over the line. */
  method WalkReport(line: string) returns (rs: seq<Reading>)
    ensures rs == Scan(line)
  {
    rs := [];
    var i := 0;
    while i < |line|
      invariant 0 <= i <= |line|
      invariant rs + Scan(line[i..]) == Scan(line)
    {
      ghost var seen, here := rs, Scan(line[i..]);
      ScanStep(line, i);
      var n := MatchLen(line[i..]);
      if n > 0 {
        rs := rs + [MatchReading(line[i..])];
        i := i + n;
        AppendFirst(seen, rs[|rs| - 1], Scan(line[i..]));
      } else {
        i := i + 1;
      }
      assert rs + Scan(line[i..]) == seen + here;
    }
    assert line[i..] == [] && rs + [] == rs;
  }

  // ----- the reports -----

  /** One `id = value` item of a report, with the text that precedes it. */
  datatype Entry = Entry(filler: string, id: nat, value: int)

  function EntryText(e: Entry): string {
    e.filler + NatText(e.id) + " = " + IntText(e.value)
  }

  function Render(es: seq<Entry>, tail: string): string {
    if es == [] then tail else EntryText(es[0]) + Render(es[1..], tail)
  }

  /** Text in which no digit is followed by " = ". */
  ghost predicate Quiet(f: string) {
    forall i :: 0 <= i && i + 4 <= |f| && IsDigit(f[i]) ==> f[i + 1..i + 4] != " = "
  }

  predicate StartsWithDigit(s: string) {
    s != [] && IsDigit(s[0])
  }

  /** Filler text that forms no match of its own and does not run into a neighbouring number. */
  ghost predicate WellSpaced(es: seq<Entry>, tail: string) {
    && Quiet(tail) && (es != [] ==> !StartsWithDigit(tail))
    && (forall k :: 0 <= k < |es| ==> Quiet(es[k].filler))
    && (forall k :: 1 <= k < |es| ==> es[k].filler != [] && !StartsWithDigit(es[k].filler))
  }

  /** What the sender of the report meant. */
  function Intended(es: seq<Entry>): seq<Reading> {
    seq(|es|, i requires 0 <= i < |es| => Reading(es[i].id, es[i].value))
  }

  /** What the walk can see: the pattern takes one digit, the last one of the id. */
  function Visible(es: seq<Entry>): seq<Reading> {
    seq(|es|, i requires 0 <= i < |es| => Reading(es[i].id % 10, es[i].value))
  }

  lemma NoMatchInFiller(f: string, rest: string)
    requires f != [] && Quiet(f) && (rest == [] || IsDigit(rest[0]))
    ensures MatchLen(f + rest) == 0
  {
    var s := f + rest;
    if |s| >= 5 && IsDigit(f[0]) {
      if |f| >= 4 {
        assert s[1..4] == f[1..4];
        assert f[0 + 1..0 + 4] != " = ";
      } else {
        assert s[1..4][|f| - 1] == rest[0];
        assert " = "[0] == ' ' && " = "[1] == '=' && " = "[2] == ' ';
        assert s[1..4] != " = ";
      }
    }
  }

  lemma {:induction false} SkipFiller(f: string, rest: string)
    requires Quiet(f) && (rest == [] || IsDigit(rest[0]))
    ensures Scan(f + rest) == Scan(rest)
    decreases |f|
  {
    if f == [] {
      assert f + rest == rest;
    } else {
      NoMatchInFiller(f, rest);
      assert (f + rest)[1..] == f[1..] + rest;
      assert Quiet(f[1..]) by {
        forall i | 0 <= i && i + 4 <= |f[1..]| && IsDigit(f[1..][i]) ensures f[1..][i + 1..i + 4] != " = " {
          assert f[1..][i + 1..i + 4] == f[i + 2..i + 5];
          assert f[(i + 1) + 1..(i + 1) + 4] != " = ";
        }
      }
      SkipFiller(f[1..], rest);
    }
  }

  lemma QuietWithDigits(f: string, d: string)
    requires Quiet(f) && AllDigits(d)
    ensures Quiet(f + d)
  {
    var g := f + d;
    forall i | 0 <= i && i + 4 <= |g| && IsDigit(g[i]) ensures g[i + 1..i + 4] != " = " {
      assert " = "[0] == ' ' && " = "[1] == '=' && " = "[2] == ' ';
      if i + 4 <= |f| {
        assert g[i + 1..i + 4] == f[i + 1..i + 4];
      } else {
        assert g[i + 1..i + 4][2] == g[i + 3] == d[i + 3 - |f|];
      }
    }
  }

  lemma MatchOf(s: string, c: char, text: string, rest: string)
    requires s == [c] + " = " + text + rest
    requires IsDigit(c) && IntPrefix(text + rest) == |text| > 0
    ensures MatchLen(s) == 4 + |text|
    ensures s[4..][..IntPrefix(s[4..])] == text && s[4 + |text|..] == rest
  {
    assert s[1..4] == " = ";
    assert s[4..] == text + rest;
  }

  lemma ScanItem(c: char, value: int, rest: string)
    requires IsDigit(c) && !StartsWithDigit(rest)
    ensures Scan([c] + " = " + IntText(value) + rest) == [Reading(DigitValue(c), value)] + Scan(rest)
  {
    var text := IntText(value);
    var item := [c] + " = " + text + rest;
    IntTextReads(value, rest);
    MatchOf(item, c, text, rest);
    assert MatchReading(item) == Reading(DigitValue(c), value);
  }

  lemma ScanEntry(e: Entry, rest: string)
    requires Quiet(e.filler) && !StartsWithDigit(rest)
    ensures Scan(EntryText(e) + rest) == [Reading(e.id % 10, e.value)] + Scan(rest)
  {
    var digits := NatText(e.id);
    var front, last := digits[..|digits| - 1], digits[|digits| - 1];
    var item := [last] + " = " + IntText(e.value) + rest;
    QuietWithDigits(e.filler, front);
    SkipFiller(e.filler + front, item);
    assert digits == front + [last];
    Regroup(e.filler, front, [last], " = ", IntText(e.value), rest);
    ScanItem(last, e.value, rest);
  }

  lemma Regroup(a: string, b: string, c: string, d: string, e: string, f: string)
    ensures (a + (b + c) + d + e) + f == (a + b) + (c + d + e + f)
  {
  }

  /** Scanning a report yields its items in order, every id reduced to its last digit: no match
      is missed and none is made up, whatever the order of the items and the filler. */
  lemma {:induction false} ScanRender(es: seq<Entry>, tail: string)
    requires WellSpaced(es, tail)
    ensures Scan(Render(es, tail)) == Visible(es)
    decreases |es|
  {
    if es == [] {
      SkipFiller(tail, []);
      assert tail + [] == tail;
      assert Visible(es) == [];
    } else {
      RestWellSpaced(es, tail);
      ScanEntry(es[0], Render(es[1..], tail));
      ScanRender(es[1..], tail);
      VisibleCons(es);
    }
  }

  lemma VisibleCons(es: seq<Entry>)
    requires es != []
    ensures Visible(es) == [Reading(es[0].id % 10, es[0].value)] + Visible(es[1..])
  {
  }

  lemma RestWellSpaced(es: seq<Entry>, tail: string)
    requires es != [] && WellSpaced(es, tail)
    ensures WellSpaced(es[1..], tail)
    ensures !StartsWithDigit(Render(es[1..], tail))
  {
    var rest := es[1..];
    assert forall k :: 0 <= k < |rest| ==> rest[k] == es[k + 1];
    if rest != [] {
      var filler := rest[0].filler;
      assert filler == es[1].filler;
      assert Render(rest, tail)[0] == filler[0];
    }
  }

  /** The walk reads a report as its sender meant it exactly when every id is a single digit. */
  lemma ReportReadFaithfully(es: seq<Entry>, tail: string)
    requires WellSpaced(es, tail)
    ensures Scan(Render(es, tail)) == Intended(es) <==> forall k :: 0 <= k < |es| ==> es[k].id < 10
  {
    ScanRender(es, tail);
    SingleDigitsVisible(es);
  }

  lemma SingleDigitsVisible(es: seq<Entry>)
    ensures Visible(es) == Intended(es) <==> forall k :: 0 <= k < |es| ==> es[k].id < 10
  {
    if forall k :: 0 <= k < |es| ==> es[k].id < 10 {
      assert Visible(es) == Intended(es);
    } else {
      var k :| 0 <= k < |es| && es[k].id >= 10;
      assert Visible(es)[k].id != Intended(es)[k].id;
    }
  }

  // ----- storing the readings -----

  /** `SetCoordinate` for every reading whose id is registered, in the order of the report. */
  function Merge(bp: map<nat, int>, rs: seq<Reading>, registered: set<nat>): map<nat, int>
    decreases |rs|
  {
    if rs == [] then bp
    else Merge(if rs[0].id in registered then bp[rs[0].id := rs[0].value] else bp, rs[1..], registered)
  }

  /** A reading that no later one repeats. */
  predicate LastFor(rs: seq<Reading>, k: int, x: nat) {
    0 <= k < |rs| && rs[k].id == x && forall j :: k < j < |rs| ==> rs[j].id != x
  }

  /** A registered id ends with the value of its last reading. */
  lemma {:induction false} MergeStores(bp: map<nat, int>, rs: seq<Reading>, registered: set<nat>, k: nat, x: nat)
    requires x in registered && LastFor(rs, k, x)
    ensures x in Merge(bp, rs, registered) && Merge(bp, rs, registered)[x] == rs[k].value
    decreases |rs|
  {
    var bp' := if rs[0].id in registered then bp[rs[0].id := rs[0].value] else bp;
    if k == 0 {
      MergeKeeps(bp', rs[1..], registered, x);
    } else {
      MergeStores(bp', rs[1..], registered, k - 1, x);
    }
  }

  /** An id that is not registered, or not reported, keeps what it had. */
  lemma {:induction false} MergeKeeps(bp: map<nat, int>, rs: seq<Reading>, registered: set<nat>, x: nat)
    requires x !in registered || forall k :: 0 <= k < |rs| ==> rs[k].id != x
    ensures x in Merge(bp, rs, registered) <==> x in bp
    ensures x in bp ==> Merge(bp, rs, registered)[x] == bp[x]
    decreases |rs|
  {
    if rs != [] {
      var bp' := if rs[0].id in registered then bp[rs[0].id := rs[0].value] else bp;
      MergeKeeps(bp', rs[1..], registered, x);
    }
  }

  /** Readings that agree with `truth` and cover the registered ids store exactly `truth` there. */
  lemma {:induction false} MergeTruth(bp: map<nat, int>, rs: seq<Reading>, registered: set<nat>, truth: nat -> int, x: nat)
    requires forall k :: 0 <= k < |rs| && rs[k].id in registered ==> rs[k].value == truth(rs[k].id)
    ensures x in registered && (exists k :: 0 <= k < |rs| && rs[k].id == x)
      ==> x in Merge(bp, rs, registered) && Merge(bp, rs, registered)[x] == truth(x)
    decreases |rs|
  {
    if rs != [] {
      var bp' := if rs[0].id in registered then bp[rs[0].id := rs[0].value] else bp;
      MergeTruth(bp', rs[1..], registered, truth, x);
      if exists k :: 0 <= k < |rs| && rs[k].id == x {
        if exists k :: 1 <= k < |rs| && rs[k].id == x {
          var k :| 1 <= k < |rs| && rs[k].id == x;
          assert rs[1..][k - 1].id == x;
        } else {
          MergeKeeps(bp', rs[1..], registered, x);
        }
      }
    }
  }
}
