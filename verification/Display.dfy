/** The text the server prints for positions and axes (include/position.hpp:117-128,
    src/core/IAP_server.cpp:171-183) and what the GUI makes of it
    (src/gui/pm301.cpp:501-570), which numbers coordinates from 1 instead of reading ids. */
module Display {
  import opened Basics
  import opened Decimal
  import opened Texts

  const NEWLINE := '\n'
  const COLON := ':'

  // ----- printing -----

  function PositionLine<T>(id: nat, pos: map<nat, T>, tag: nat -> string, show: T -> string): string
    requires id in pos
  {
    tag(id) + ": " + show(pos[id])
  }

  /** `GetPositionString`; its three overloads differ in the tag of a line only. */
  function PositionText<T>(ids: seq<nat>, pos: map<nat, T>, tag: nat -> string, show: T -> string): string
    requires AllIn(ids, pos)
  {
    if ids == [] then "" else PositionLine(ids[0], pos, tag, show) + [NEWLINE] + PositionText(ids[1..], pos, tag, show)
  }

  lemma PositionTextStep<T>(ids: seq<nat>, k: nat, pos: map<nat, T>, tag: nat -> string, show: T -> string, front: string)
    requires k < |ids| && AllIn(ids, pos)
    ensures front + PositionText(ids[k..], pos, tag, show) ==
      front + PositionLine(ids[k], pos, tag, show) + [NEWLINE] + PositionText(ids[k + 1..], pos, tag, show)
  {
    assert ids[k..][0] == ids[k] && ids[k..][1..] == ids[k + 1..];
    hide PositionLine;
    var line, rest := PositionLine(ids[k], pos, tag, show), PositionText(ids[k + 1..], pos, tag, show);
    assert front + (line + [NEWLINE] + rest) == front + line + [NEWLINE] + rest;
  }

  function AxisLine(id: nat, name: nat -> string, unit: nat -> string): string {
    NatText(id) + [COLON] + name(id) + [COLON] + unit(id)
  }

  /** The reply to `ga`. */
  function AxesText(ids: seq<nat>, name: nat -> string, unit: nat -> string): string {
    if ids == [] then "" else AxisLine(ids[0], name, unit) + [NEWLINE] + AxesText(ids[1..], name, unit)
  }

  // ----- the GUI's tokenizers -----

  /** `wxStringTokenizer` on white-space delimiters: empty tokens are skipped. */
  function NonEmpty(pieces: seq<string>): (r: seq<string>)
    ensures forall k :: 0 <= k < |r| ==> r[k] != ""
  {
    if pieces == [] then []
    else if pieces[0] == "" then NonEmpty(pieces[1..])
    else [pieces[0]] + NonEmpty(pieces[1..])
  }

  function Lines(text: string): seq<string> {
    NonEmpty(Split(text, NEWLINE))
  }

  /** The k-th `GetNextToken` on other delimiters: empty tokens count, and past the end it is
      empty. */
  function Token(line: string, k: nat): string {
    if k < |Split(line, COLON)| then Split(line, COLON)[k] else ""
  }

  /** `initaxes`: names and units in the order of the lines; the ids are not kept. */
  method InitAxes(text: string) returns (coords: seq<string>, units: seq<string>)
    ensures coords == GuiNames(text) && units == GuiUnits(text)
  {
    hide Token, Lines;
    coords, units := [], [];
    var lines := Lines(text);
    for i := 0 to |lines|
      invariant coords == GuiNames(text)[..i] && units == GuiUnits(text)[..i]
    {
      coords := coords + [Token(lines[i], 1)];
      units := units + [Token(lines[i], 2)];
    }
  }

  function GuiNames(text: string): (r: seq<string>)
    ensures |r| == |Lines(text)|
  {
    seq(|Lines(text)|, i requires 0 <= i < |Lines(text)| => Token(Lines(text)[i], 1))
  }

  function GuiUnits(text: string): (r: seq<string>)
    ensures |r| == |Lines(text)|
  {
    seq(|Lines(text)|, i requires 0 <= i < |Lines(text)| => Token(Lines(text)[i], 2))
  }

  /** `getcurpos`: a vector first, then coordinates 1, 2, ... */
  method GetCurPos<T>(text: string, read: string -> T) returns (p: map<nat, T>)
    ensures p == GuiPosition(text, read)
  {
    hide AfterFirst, Lines;
    var vec: seq<T> := [];
    var lines := Lines(text);
    for i := 0 to |lines|
      invariant |vec| == i && forall k :: 0 <= k < i ==> vec[k] == read(AfterFirst(lines[k], COLON))
    {
      vec := vec + [read(AfterFirst(lines[i], COLON))];
    }
    p := map[];
    for i := 0 to |vec|
      invariant p.Keys == Numbers(i)
      invariant forall k :: k in p ==> 1 <= k <= i && p[k] == vec[k - 1]
    {
      p := p[i + 1 := vec[i]];
    }
  }

  /** 1 .. n. */
  function Numbers(n: nat): (r: set<nat>)
    ensures forall k :: k in r <==> 1 <= k <= n
  {
    if n == 0 then {} else Numbers(n - 1) + {n}
  }

  function GuiPosition<T>(text: string, read: string -> T): map<nat, T> {
    map k | k in Numbers(|Lines(text)|) :: read(AfterFirst(Lines(text)[k - 1], COLON))
  }

  // ----- what survives -----

  /** No newline: the text stays on its line. */
  predicate OneLine(s: string) {
    NEWLINE !in s
  }

  function Terminated(lines: seq<string>): string {
    if lines == [] then "" else lines[0] + [NEWLINE] + Terminated(lines[1..])
  }

  /** Non-empty lines come back as they were. */
  lemma {:induction false} LinesOf(lines: seq<string>)
    requires forall k :: 0 <= k < |lines| ==> OneLine(lines[k]) && lines[k] != ""
    ensures Lines(Terminated(lines)) == lines
    decreases |lines|
  {
    if lines == [] {
      assert Split("", NEWLINE) == [""] && [""][1..] == [];
    } else {
      hide Lines, OneLine;
      var rest := Terminated(lines[1..]);
      LinesOf(lines[1..]);
      LinesStep(lines[0], rest);
      assert lines == [lines[0]] + lines[1..];
    }
  }

  lemma LinesStep(line: string, rest: string)
    requires OneLine(line) && line != ""
    ensures Lines(line + [NEWLINE] + rest) == [line] + Lines(rest)
  {
    SplitStep(line, NEWLINE, rest);
    var pieces := Split(rest, NEWLINE);
    hide Split;
    assert ([line] + pieces)[1..] == pieces;
  }

  function PositionLines<T>(ids: seq<nat>, pos: map<nat, T>, tag: nat -> string, show: T -> string): seq<string>
    requires AllIn(ids, pos)
  {
    seq(|ids|, i requires 0 <= i < |ids| => PositionLine(ids[i], pos, tag, show))
  }

  lemma {:induction false} PositionTextLines<T>(ids: seq<nat>, pos: map<nat, T>, tag: nat -> string, show: T -> string)
    requires AllIn(ids, pos)
    ensures PositionText(ids, pos, tag, show) == Terminated(PositionLines(ids, pos, tag, show))
    decreases |ids|
  {
    if ids != [] {
      PositionTextLines(ids[1..], pos, tag, show);
      assert PositionLines(ids, pos, tag, show)[1..] == PositionLines(ids[1..], pos, tag, show);
    }
  }

  function AxisLines(ids: seq<nat>, name: nat -> string, unit: nat -> string): seq<string> {
    seq(|ids|, i requires 0 <= i < |ids| => AxisLine(ids[i], name, unit))
  }

  lemma {:induction false} AxesTextLines(ids: seq<nat>, name: nat -> string, unit: nat -> string)
    ensures AxesText(ids, name, unit) == Terminated(AxisLines(ids, name, unit))
    decreases |ids|
  {
    if ids != [] {
      AxesTextLines(ids[1..], name, unit);
      assert AxisLines(ids, name, unit)[1..] == AxisLines(ids[1..], name, unit);
    }
  }

  /** Descriptors and units that the GUI can tell apart from its separators. */
  ghost predicate Clean(ids: seq<nat>, word: nat -> string) {
    forall k :: 0 <= k < |ids| ==> OneLine(word(ids[k])) && COLON !in word(ids[k])
  }

  lemma AxisLineTokens(id: nat, name: nat -> string, unit: nat -> string)
    requires OneLine(name(id)) && COLON !in name(id) && OneLine(unit(id)) && COLON !in unit(id)
    ensures var line := AxisLine(id, name, unit);
      OneLine(line) && line != "" && Token(line, 1) == name(id) && Token(line, 2) == unit(id)
  {
    hide Token, IndexOf, NatText;
    var n, rest := NatText(id), name(id) + [COLON] + unit(id);
    NoSeparators(id);
    assert AxisLine(id, name, unit) == n + [COLON] + rest;
    TokenStep(n, rest, 0);
    TokenStep(n, rest, 1);
    TokenStep(name(id), unit(id), 0);
  }

  lemma NoSeparators(id: nat)
    ensures COLON !in NatText(id) && OneLine(NatText(id)) && NatText(id) != ""
  {
    var n := NatText(id);
    assert forall k :: 0 <= k < |n| ==> IsDigit(n[k]);
  }

  lemma TokenStep(a: string, b: string, k: nat)
    requires COLON !in a
    ensures Token(a + [COLON] + b, 0) == a
    ensures Token(a + [COLON] + b, k + 1) == Token(b, k)
    ensures COLON !in b ==> Token(b, 0) == b
  {
    SplitStep(a, COLON, b);
  }

  /** The axis table in id order is what the GUI shows, whatever the ids are. */
  lemma GuiReadsAxes(ids: seq<nat>, name: nat -> string, unit: nat -> string, i: nat)
    requires Clean(ids, name) && Clean(ids, unit)
    ensures |GuiNames(AxesText(ids, name, unit))| == |GuiUnits(AxesText(ids, name, unit))| == |ids|
    ensures i < |ids| ==>
      GuiNames(AxesText(ids, name, unit))[i] == name(ids[i]) && GuiUnits(AxesText(ids, name, unit))[i] == unit(ids[i])
  {
    var lines := AxisLines(ids, name, unit);
    forall k | 0 <= k < |ids|
      ensures OneLine(lines[k]) && lines[k] != ""
      ensures Token(lines[k], 1) == name(ids[k]) && Token(lines[k], 2) == unit(ids[k])
    {
      AxisLineTokens(ids[k], name, unit);
    }
    hide AxisLine, Token, Lines, Terminated, AxesText, OneLine;
    AxesTextLines(ids, name, unit);
    LinesOf(lines);
  }

  lemma PositionLineValue<T>(id: nat, pos: map<nat, T>, tag: nat -> string, show: T -> string)
    requires id in pos && OneLine(tag(id)) && COLON !in tag(id) && OneLine(show(pos[id]))
    ensures var line := PositionLine(id, pos, tag, show);
      OneLine(line) && line != "" && AfterFirst(line, COLON) == " " + show(pos[id])
  {
    assert PositionLine(id, pos, tag, show) == tag(id) + [COLON] + (" " + show(pos[id]));
    FirstParts(tag(id), COLON, " " + show(pos[id]));
  }

  /** Values that stay on their line and are read back, after the blank that follows the colon. */
  ghost predicate Legible<T>(pos: map<nat, T>, show: T -> string, read: string -> T) {
    forall id :: id in pos ==> OneLine(show(pos[id])) && read(" " + show(pos[id])) == pos[id]
  }

  /** Whole-numbered positions are legible. */
  lemma WholeNumbersLegible(pos: map<nat, real>)
    requires forall id :: id in pos ==> IsWhole(pos[id])
    ensures Legible(pos, ShowWhole, ReadWhole)
  {
    forall id | id in pos ensures OneLine(ShowWhole(pos[id])) && ReadWhole(" " + ShowWhole(pos[id])) == pos[id] {
      IntTextShape(pos[id].Floor);
      ReadIntText(pos[id].Floor);
    }
  }

  lemma GuiReadsLines<T>(lines: seq<string>, read: string -> T)
    requires forall k :: 0 <= k < |lines| ==> OneLine(lines[k]) && lines[k] != ""
    ensures GuiPosition(Terminated(lines), read).Keys == Numbers(|lines|)
    ensures forall k :: 0 <= k < |lines| ==>
      (k + 1 in Numbers(|lines|) && GuiPosition(Terminated(lines), read)[k + 1] == read(AfterFirst(lines[k], COLON)))
  {
    hide Lines, Terminated, AfterFirst, OneLine, Numbers;
    LinesOf(lines);
  }

  lemma GuiReadsPosition<T>(ids: seq<nat>, pos: map<nat, T>, tag: nat -> string, show: T -> string, read: string -> T)
    requires AllIn(ids, pos) && Clean(ids, tag) && Legible(pos, show, read)
    ensures GuiPosition(PositionText(ids, pos, tag, show), read).Keys == Numbers(|ids|)
    ensures forall k :: 0 <= k < |ids| ==>
      (k + 1 in Numbers(|ids|) && GuiPosition(PositionText(ids, pos, tag, show), read)[k + 1] == pos[ids[k]])
  {
    var lines := PositionLines(ids, pos, tag, show);
    forall k | 0 <= k < |ids|
      ensures OneLine(lines[k]) && lines[k] != "" && read(AfterFirst(lines[k], COLON)) == pos[ids[k]]
    {
      PositionLineValue(ids[k], pos, tag, show);
    }
    assert |lines| == |ids|;
    hide *;
    GuiReadsLines(lines, read);
    PositionTextLines(ids, pos, tag, show);
  }

  /** Increasing ids that fill 1 .. n are 1, 2, ..., n. */
  lemma {:induction false} CountedIds(ids: seq<nat>, k: nat)
    requires Increasing(ids) && k < |ids|
    requires forall x :: x in ids <==> 1 <= x <= |ids|
    ensures ids[k] == k + 1
  {
    CountFrom(ids, k);
    CountDown(ids, k);
  }

  lemma {:induction false} CountDown(ids: seq<nat>, k: nat)
    requires Increasing(ids) && k < |ids| && (forall x :: x in ids ==> x <= |ids|)
    ensures ids[k] <= k + 1
    decreases |ids| - k
  {
    if k + 1 < |ids| {
      CountDown(ids, k + 1);
    } else {
      assert ids[k] in ids;
    }
  }

  lemma {:induction false} CountFrom(ids: seq<nat>, k: nat)
    requires Increasing(ids) && k < |ids| && (forall x :: x in ids ==> x >= 1)
    ensures ids[k] >= k + 1
    decreases k
  {
    if k > 0 {
      CountFrom(ids, k - 1);
    } else {
      assert ids[0] in ids;
    }
  }

  /** The GUI's position is the server's exactly when the ids are 1 .. n. */
  lemma GuiPositionExact<T>(ids: seq<nat>, pos: map<nat, T>, tag: nat -> string, show: T -> string, read: string -> T)
    requires AllIn(ids, pos) && Increasing(ids) && |ids| == |pos| && (forall x :: x in pos <==> x in ids)
    requires Clean(ids, tag) && Legible(pos, show, read)
    ensures GuiPosition(PositionText(ids, pos, tag, show), read) == pos <==> pos.Keys == Numbers(|pos|)
  {
    hide *;
    GuiReadsPosition(ids, pos, tag, show, read);
    var gui := GuiPosition(PositionText(ids, pos, tag, show), read);
    if pos.Keys == Numbers(|pos|) {
      forall k | 0 <= k < |ids| ensures ids[k] == k + 1 && gui[k + 1] == pos[k + 1] {
        CountedIds(ids, k);
      }
      forall x | x in pos ensures gui[x] == pos[x] {
        assert ids[x - 1] == x;
      }
      assert gui == pos;
    }
  }
}
