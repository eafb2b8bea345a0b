/** What a client of the server can rely on: from the text of a move request to the position read
    back (src/core/IAP_server.cpp:311-361, src/core/IAPBoard.cpp:345-378, 465-574), and from the
    board to the GUI's display (src/gui/pm301.cpp:501-570). */
module ServerLaws {
  import opened Basics
  import opened Units
  import opened Report
  import opened Controller
  import opened Config
  import opened BoardSpec
  import opened MoveLaws
  import opened ReadLaws
  import opened InvariantLaws
  import opened MirrorLaws
  import opened RunLaws
  import opened Decimal
  import opened Texts
  import opened Display
  import P = Parser
  import opened Server

  // ----- a move, seen on the display -----

  /** The step count of a channel after an accepted move. */
  function MovedTo(c: PM381, bp: map<nat, int>, relative: bool, id: nat): int {
    if id !in bp then PositionOf(c, id) else if relative then PositionOf(c, id) + bp[id] else bp[id]
  }

  lemma DisplacedPosition(c: PM381, c': PM381, bp: map<nat, int>, relative: bool, id: nat)
    requires c'.channels == Displaced(c, KeysInOrder(bp), bp, relative)
    ensures PositionOf(c', id) == MovedTo(c, bp, relative, id)
  {
    hide KeysInOrder;
    var ids := KeysInOrder(bp);
    assert id in ids <==> id in bp;
  }

  /** What an accepted move leaves: the same axes, and every channel where the map update puts it. */
  lemma MovedPositions(s: State, pos: map<nat, real>, relative: bool, id: nat)
    requires Valid(s) && AllRegistered(s.axes, pos)
    requires AllAccepted(MoveUser(s, pos, relative).0.link, |s.link.log|)
    ensures MoveUser(s, pos, relative).1 == 0
    ensures MoveUser(s, pos, relative).0.axes == s.axes
    ensures PositionOf(MoveUser(s, pos, relative).0.link.ctrl, id) == MovedTo(s.link.ctrl, Steps(s.axes, pos), relative, id)
  {
    hide MoveBare, ToBare, Steps, KeysInOrder, Displaced, PositionOf, MovedTo;
    ToBareIsSteps(s.axes, pos);
    var bp := Steps(s.axes, pos);
    AcceptedMove(s, bp, relative);
    DisplacedPosition(s.link.ctrl, MoveBare(s, bp, relative).0.link.ctrl, bp, relative, id);
  }

  function Conv(axes: seq<Axis>, id: nat): UnitConversion
    requires Registered(axes, id)
  {
    FindAxis(axes, id).conv
  }

  /** The position shown after an accepted move in user units. */
  lemma ShownAfterMove(s: State, pos: map<nat, real>, relative: bool, id: nat)
    requires Valid(s) && AllRegistered(s.axes, pos) && Registered(s.axes, id)
    requires AllAccepted(MoveUser(s, pos, relative).0.link, |s.link.log|)
    requires FaithfulAnswer(MoveUser(s, pos, relative).0)
    ensures var conv := Conv(s.axes, id);
      && id in ReadUser(MoveUser(s, pos, relative).0).1 && id in Displayed(s) && conv.factor != 0.0
      && ReadUser(MoveUser(s, pos, relative).0).1[id] ==
           ToUnits(MovedTo(s.link.ctrl, Steps(s.axes, pos), relative, id), conv.factor, conv.offset)
      && Displayed(s)[id] == ToUnits(PositionOf(s.link.ctrl, id), conv.factor, conv.offset)
  {
    hide MoveUser, Steps, PositionOf, MovedTo, ReadUser, FaithfulAnswer, ToUnits;
    MovedPositions(s, pos, relative, id);
    ReadUserTruth(MoveUser(s, pos, relative).0);
    assert FindAxis(s.axes, id) in s.axes;
  }

  lemma StepsAt(axes: seq<Axis>, pos: map<nat, real>, id: nat)
    requires SoundFactors(axes) && AllRegistered(axes, pos)
    ensures id in pos <==> id in Steps(axes, pos)
    ensures id in pos ==> Steps(axes, pos)[id] == ToSteps(pos[id], Conv(axes, id).factor, Conv(axes, id).offset)
  {
  }

  /** An accepted absolute move shows each named axis strictly within one step's worth of the
      request, and every other axis as before. */
  lemma AbsoluteMoveShown(s: State, pos: map<nat, real>, id: nat)
    requires Valid(s) && AllRegistered(s.axes, pos) && Registered(s.axes, id)
    requires AllAccepted(MoveUser(s, pos, false).0.link, |s.link.log|)
    requires FaithfulAnswer(MoveUser(s, pos, false).0)
    ensures id in ReadUser(MoveUser(s, pos, false).0).1 && id in Displayed(s)
    ensures id in pos ==> Abs(ReadUser(MoveUser(s, pos, false).0).1[id] - pos[id]) < Abs(Conv(s.axes, id).factor)
    ensures id !in pos ==> ReadUser(MoveUser(s, pos, false).0).1[id] == Displayed(s)[id]
  {
    hide MoveUser, Steps, PositionOf, ReadUser, FaithfulAnswer, ToUnits, ToSteps, Abs;
    ShownAfterMove(s, pos, false, id);
    StepsAt(s.axes, pos, id);
    if id in pos {
      UnitsRoundTrip(pos[id], Conv(s.axes, id).factor, Conv(s.axes, id).offset);
    }
  }

  /** An accepted relative move shifts the display of each named axis by its converted distance,
      offset included, times the factor, and shows every other axis as before. */
  lemma RelativeMoveShown(s: State, pos: map<nat, real>, id: nat)
    requires Valid(s) && AllRegistered(s.axes, pos) && Registered(s.axes, id)
    requires AllAccepted(MoveUser(s, pos, true).0.link, |s.link.log|)
    requires FaithfulAnswer(MoveUser(s, pos, true).0)
    ensures id in ReadUser(MoveUser(s, pos, true).0).1 && id in Displayed(s) && Conv(s.axes, id).factor != 0.0
    ensures ReadUser(MoveUser(s, pos, true).0).1[id] == Displayed(s)[id] +
      (if id in pos
       then ToSteps(pos[id], Conv(s.axes, id).factor, Conv(s.axes, id).offset) as real * Conv(s.axes, id).factor
       else 0.0)
  {
    hide MoveUser, Steps, PositionOf, ReadUser, FaithfulAnswer, ToSteps, ToUnits, Displayed, AllRegistered;
    ShownAfterMove(s, pos, true, id);
    StepsAt(s.axes, pos, id);
    if id in pos {
      UnitsAdd(PositionOf(s.link.ctrl, id), Steps(s.axes, pos)[id], Conv(s.axes, id).factor, Conv(s.axes, id).offset);
    }
  }

  lemma UnitsAdd(a: int, d: int, factor: real, offset: int)
    ensures ToUnits(a + d, factor, offset) == ToUnits(a, factor, offset) + d as real * factor
  {
    var x, y := (a - offset) as real, d as real;
    assert (a + d - offset) as real == x + y;
    assert (x + y) * factor == x * factor + y * factor;
  }

  // ----- requests as text -----

  function RequestText(relative: bool, text: string): string {
    (if relative then "mr " else "ma ") + text
  }

  /** No plain word starts like a command. */
  lemma NoWord(data: string)
    requires |data| >= 3
    requires data[0] == 'm' || (data[0] == 's' && (data[1] == 'e' || IsDigit(data[2])))
    ensures ClassifyWord(data).None?
  {
  }

  lemma MoveText(data: string)
    ensures Starts(data, "ma ") || Starts(data, "mr ") ==> Classify(data) == AskMove(data[3..], data[1] != 'a')
    ensures Classify(data).AskMove? ==> Starts(data, "ma ") || Starts(data, "mr ")
  {
    hide PassThrough, ClassifyWord;
    WordsAreNoMoves(data);
    if Starts(data, "ma ") || Starts(data, "mr ") {
      assert data[0] == data[..3][0] == 'm' && data[2] == data[..3][2] == ' ' && data[1] == data[..3][1];
      NoWord(data);
      assert SelectedAxis(data).None?;
    }
  }

  lemma WordsAreNoMoves(data: string)
    ensures ClassifyWord(data).Some? ==> !ClassifyWord(data).value.AskMove?
  {
  }

  /** A request text is answered by the branch that it takes. */
  lemma Taken(s: State, data: string, fmt: Format)
    requires Valid(s)
    ensures Handle(s, data, fmt) == Respond(s, Classify(data), fmt)
  {
    hide Classify, Respond;
  }

  lemma MoveBranch(s: State, text: string, relative: bool, fmt: Format)
    requires Valid(s)
    ensures Respond(s, AskMove(text, relative), fmt) == Move(s, text, relative, fmt.read)
  {
    hide Move;
  }

  lemma MoveClassified(relative: bool, text: string)
    ensures Classify(RequestText(relative, text)) == AskMove(text, relative)
  {
    var data := RequestText(relative, text);
    assert data[1] == (if relative then 'r' else 'a') && data[3..] == text;
    assert data[..3] == (if relative then "mr " else "ma ");
    MoveText(data);
    hide Classify;
  }

  lemma Dispatch(s: State, relative: bool, text: string, fmt: Format)
    requires Valid(s)
    ensures Handle(s, RequestText(relative, text), fmt) == Move(s, text, relative, fmt.read)
  {
    hide *;
    Taken(s, RequestText(relative, text), fmt);
    MoveClassified(relative, text);
    MoveBranch(s, text, relative, fmt);
  }

  /** The text has no broken escape and all its tokens their delimiter. */
  predicate WellFormed(text: string) {
    P.DELIM in text && !P.Broken(text) && P.AllDelimited(P.FieldsOf(text, false))
  }

  /** All the names in it are descriptors. */
  predicate KnownNames(axes: seq<Axis>, text: string) {
    forall k :: 0 <= k < |P.FieldsOf(text, false)| ==> P.NameOf(P.FieldsOf(text, false)[k]) in Descriptors(axes)
  }

  lemma NamesParsed(axes: seq<Axis>, text: string, read: string -> real)
    requires P.ParseMultiplett(read, text).Parsed?
    ensures P.ParseMultiplett(read, text).values.Keys <= Descriptors(axes) <==> KnownNames(axes, text)
  {
    var fields, r := P.FieldsOf(text, false), P.ParseMultiplett(read, text).values;
    P.ParseExactly(read, text);
    hide P.ParseMultiplett, P.ParseFields, P.FieldsOf, P.NameOf, P.ValueOf, Descriptors;
    forall name ensures name in r <==> exists k :: P.FirstWithName(fields, k, name) {
      P.FieldsMeaning(read, fields, map[], name);
    }
    if KnownNames(axes, text) {
      forall name | name in r ensures name in Descriptors(axes) {
        var k :| P.FirstWithName(fields, k, name);
      }
    }
    if r.Keys <= Descriptors(axes) {
      forall k | 0 <= k < |fields| ensures P.NameOf(fields[k]) in Descriptors(axes) {
        P.FirstExists(fields, k, P.NameOf(fields[k]));
      }
    }
  }

  /** What the names and values of a text are, in the map that the parser fills. */
  function ValuesOf(text: string, read: string -> real): map<string, real> {
    match P.ParseMultiplett(read, text)
    case Parsed(values) => values
    case _ => map[]
  }

  lemma RequestedNonEmpty(axes: seq<Axis>, m: map<string, real>)
    requires m != map[] && m.Keys <= Descriptors(axes)
    ensures |Requested(axes, m)| > 0
  {
    var names := NamesInOrder(m);
    var name :| name in m;
    assert name in names;
    hide IdNamed, Descriptors, NamesInOrder;
    var id := IdNamed(axes, names[0]);
    RequestedGrows(axes, names[1..], m, map[id := m[names[0]]], id);
    assert RequestedFrom(axes, names, m, map[]) == RequestedFrom(axes, names[1..], m, map[id := m[names[0]]]);
    assert id in Requested(axes, m);
  }

  /** Every well-formed request over known names reaches the board as the position its names stand
      for. */
  lemma RequestReachesBoard(s: State, relative: bool, text: string, fmt: Format)
    requires Valid(s) && WellFormed(text) && KnownNames(s.axes, text)
    ensures ValuesOf(text, fmt.read).Keys <= Descriptors(s.axes)
    ensures var pos := Requested(s.axes, ValuesOf(text, fmt.read));
      && AllRegistered(s.axes, pos)
      && Handle(s, RequestText(relative, text), fmt) ==
           (MoveUser(s, pos, relative).0,
            if MoveUser(s, pos, relative).1 < 0 then Failure("Controller Error: " + MoveUser(s, pos, relative).0.err)
            else SUCCESS)
  {
    hide MoveUser, Handle, P.ParseMultiplett, P.ParseFields, P.FieldsOf, P.Broken, P.AllDelimited, Requested, Descriptors, KnownNames, RequestText;
    Dispatch(s, relative, text, fmt);
    P.ParseExactly(fmt.read, text);
    P.ParsedNonEmpty(fmt.read, text);
    NamesParsed(s.axes, text, fmt.read);
    RequestedNonEmpty(s.axes, ValuesOf(text, fmt.read));
    RequestedRegistered(s.axes, ValuesOf(text, fmt.read));
  }

  lemma RequestedRegistered(axes: seq<Axis>, m: map<string, real>)
    requires m.Keys <= Descriptors(axes)
    ensures AllRegistered(axes, Requested(axes, m))
  {
    RequestedGrows(axes, NamesInOrder(m), m, map[], 0);
  }

  lemma RequestedAt(axes: seq<Axis>, m: map<string, real>, j: nat)
    requires DistinctIds(axes) && j < |axes| && m.Keys <= Descriptors(axes)
    ensures Registered(axes, axes[j].id)
    ensures axes[j].id in Requested(axes, m) <==> axes[j].desc in m && IdOfDesc(axes, j) == axes[j].id
    ensures axes[j].id in Requested(axes, m) ==> Requested(axes, m)[axes[j].id] == m[axes[j].desc]
    ensures Conv(axes, axes[j].id) == axes[j].conv
  {
    FindByIndex(axes, j);
    NamedSelf(axes, j);
    hide IdNamed, Requested, FindAxis, Descriptors;
    RequestedWhere(axes, m, axes[j].id);
    if name :| name in m && IdNamed(axes, name) == axes[j].id {
      DescOfNamed(axes, name);
    }
  }

  lemma NamedSelf(axes: seq<Axis>, j: nat)
    requires j < |axes|
    ensures axes[j].desc in Descriptors(axes)
  {
  }

  /** The axis that the j-th descriptor leads to: the first one with this descriptor. */
  function IdOfDesc(axes: seq<Axis>, j: nat): nat
    requires j < |axes|
  {
    NamedSelf(axes, j);
    IdNamed(axes, axes[j].desc)
  }

  /** Is axis j named by the request? */
  predicate NamedBy(axes: seq<Axis>, m: map<string, real>, j: nat)
    requires j < |axes|
  {
    axes[j].desc in m && IdOfDesc(axes, j) == axes[j].id
  }

  // ----- main results -----

  /** Within one step's worth of the request where axis j is named, as before where it is not. */
  ghost predicate ShownAsRequested(s: State, shown: map<nat, real>, m: map<string, real>, j: nat)
    requires j < |s.axes|
  {
    var id := s.axes[j].id;
    && id in shown && id in Displayed(s)
    && (if NamedBy(s.axes, m, j) then Abs(shown[id] - m[s.axes[j].desc]) < Abs(s.axes[j].conv.factor)
        else shown[id] == Displayed(s)[id])
  }

  /** Shifted by the distance plus the zero offset, truncated to steps, where axis j is named. */
  ghost predicate ShownShifted(s: State, shown: map<nat, real>, m: map<string, real>, j: nat)
    requires j < |s.axes|
  {
    var id, conv := s.axes[j].id, s.axes[j].conv;
    && id in shown && id in Displayed(s) && conv.factor != 0.0
    && shown[id] == Displayed(s)[id] +
         (if NamedBy(s.axes, m, j) then ToSteps(m[s.axes[j].desc], conv.factor, conv.offset) as real * conv.factor else 0.0)
  }

  lemma NamedAbsolute(s: State, shown: map<nat, real>, m: map<string, real>, j: nat)
    requires DistinctIds(s.axes) && m.Keys <= Descriptors(s.axes) && j < |s.axes| && Registered(s.axes, s.axes[j].id)
    requires s.axes[j].id in shown && s.axes[j].id in Displayed(s)
    requires var pos, id := Requested(s.axes, m), s.axes[j].id;
      && (id in pos ==> Abs(shown[id] - pos[id]) < Abs(Conv(s.axes, id).factor))
      && (id !in pos ==> shown[id] == Displayed(s)[id])
    ensures ShownAsRequested(s, shown, m, j)
  {
    hide Requested, Displayed, Abs, Conv, IdOfDesc;
    RequestedAt(s.axes, m, j);
  }

  lemma NamedRelative(s: State, shown: map<nat, real>, m: map<string, real>, j: nat)
    requires DistinctIds(s.axes) && m.Keys <= Descriptors(s.axes) && j < |s.axes| && Registered(s.axes, s.axes[j].id)
    requires s.axes[j].id in shown && s.axes[j].id in Displayed(s) && Conv(s.axes, s.axes[j].id).factor != 0.0
    requires var pos, id, conv := Requested(s.axes, m), s.axes[j].id, Conv(s.axes, s.axes[j].id);
      shown[id] == Displayed(s)[id] + (if id in pos then ToSteps(pos[id], conv.factor, conv.offset) as real * conv.factor else 0.0)
    ensures ShownShifted(s, shown, m, j)
  {
    hide Requested, Displayed, ToSteps, Conv, IdOfDesc;
    RequestedAt(s.axes, m, j);
  }

  lemma AbsoluteBoard(s: State, pos: map<nat, real>, r: State, ret: int, m: map<string, real>, j: nat)
    requires Valid(s) && DistinctIds(s.axes) && j < |s.axes| && m.Keys <= Descriptors(s.axes)
    requires pos == Requested(s.axes, m) && AllRegistered(s.axes, pos) && (r, ret) == MoveUser(s, pos, false)
    requires AllAccepted(r.link, |s.link.log|) && FaithfulAnswer(r)
    ensures ret == 0 && ShownAsRequested(s, ReadUser(r).1, m, j)
  {
    hide *;
    RequestedAt(s.axes, m, j);
    AbsoluteMoveShown(s, pos, s.axes[j].id);
    MovedPositions(s, pos, false, s.axes[j].id);
    NamedAbsolute(s, ReadUser(r).1, m, j);
  }

  lemma RelativeBoard(s: State, pos: map<nat, real>, r: State, ret: int, m: map<string, real>, j: nat)
    requires Valid(s) && DistinctIds(s.axes) && j < |s.axes| && m.Keys <= Descriptors(s.axes)
    requires pos == Requested(s.axes, m) && AllRegistered(s.axes, pos) && (r, ret) == MoveUser(s, pos, true)
    requires AllAccepted(r.link, |s.link.log|) && FaithfulAnswer(r)
    ensures ret == 0 && ShownShifted(s, ReadUser(r).1, m, j)
  {
    hide *;
    RequestedAt(s.axes, m, j);
    RelativeMoveShown(s, pos, s.axes[j].id);
    MovedPositions(s, pos, true, s.axes[j].id);
    NamedRelative(s, ReadUser(r).1, m, j);
  }

  /** End to end, for every text that the parser accepts and whose names are all known: an accepted `ma`
      request is answered with success; the position then read back differs from the request by less
      than one step's worth on every named axis and is unchanged on every other axis. */
  lemma AbsoluteRequest(s: State, text: string, fmt: Format, j: nat)
    requires Valid(s) && DistinctIds(s.axes) && WellFormed(text) && KnownNames(s.axes, text) && j < |s.axes|
    requires AllAccepted(Handle(s, RequestText(false, text), fmt).0.link, |s.link.log|)
    requires FaithfulAnswer(Handle(s, RequestText(false, text), fmt).0)
    ensures Handle(s, RequestText(false, text), fmt).1 == SUCCESS
    ensures ShownAsRequested(s, ReadUser(Handle(s, RequestText(false, text), fmt).0).1, ValuesOf(text, fmt.read), j)
  {
    hide *;
    RequestReachesBoard(s, false, text, fmt);
    ValidParts(s);
    var pos := Requested(s.axes, ValuesOf(text, fmt.read));
    var (r, ret) := MoveUser(s, pos, false);
    AbsoluteBoard(s, pos, r, ret, ValuesOf(text, fmt.read), j);
  }

  /** Likewise an accepted `mr` request shifts each named axis by its distance plus the offset,
      truncated to steps. */
  lemma RelativeRequest(s: State, text: string, fmt: Format, j: nat)
    requires Valid(s) && DistinctIds(s.axes) && WellFormed(text) && KnownNames(s.axes, text) && j < |s.axes|
    requires AllAccepted(Handle(s, RequestText(true, text), fmt).0.link, |s.link.log|)
    requires FaithfulAnswer(Handle(s, RequestText(true, text), fmt).0)
    ensures Handle(s, RequestText(true, text), fmt).1 == SUCCESS
    ensures ShownShifted(s, ReadUser(Handle(s, RequestText(true, text), fmt).0).1, ValuesOf(text, fmt.read), j)
  {
    hide *;
    RequestReachesBoard(s, true, text, fmt);
    ValidParts(s);
    var pos := Requested(s.axes, ValuesOf(text, fmt.read));
    var (r, ret) := MoveUser(s, pos, true);
    RelativeBoard(s, pos, r, ret, ValuesOf(text, fmt.read), j);
  }

  /** Names typed by a client: registered descriptors that survive the text format. */
  ghost predicate GoodRequest(axes: seq<Axis>, fmt: Format, es: seq<(string, real)>, m: map<string, real>) {
    es != [] && P.Lists(es, m) && P.Typeable(fmt.read, fmt.show, es) && m.Keys <= Descriptors(axes)
  }

  /** In particular the printed form of any map over registered descriptors is such a text, and stands
      for that map. */
  lemma PrintedRequest(axes: seq<Axis>, fmt: Format, es: seq<(string, real)>, m: map<string, real>)
    requires GoodRequest(axes, fmt, es, m)
    ensures var text := P.Printed(P.Tokens(fmt.show, es));
      WellFormed(text) && KnownNames(axes, text) && ValuesOf(text, fmt.read) == m
  {
    var text := P.Printed(P.Tokens(fmt.show, es));
    P.PrintParse(fmt.read, fmt.show, es, m);
    P.ParseExactly(fmt.read, text);
    NamesParsed(axes, text, fmt.read);
    hide P.ParseMultiplett, P.ParseFields, P.FieldsOf, P.Broken, P.AllDelimited, P.Printed, P.Tokens, Descriptors, KnownNames, P.Lists, P.Typeable;
  }

  /** Any list of names and values, typed with blanks around them, is such a text; its names are known
      exactly when all of them are descriptors. */
  lemma TypedRequest(axes: seq<Axis>, ts: seq<P.Typed>, read: string -> real)
    requires ts != [] && forall k :: 0 <= k < |ts| ==> P.Neat(ts[k])
    ensures P.TypedTexts(ts) != [] && WellFormed(P.Printed(P.TypedTexts(ts)))
    ensures KnownNames(axes, P.Printed(P.TypedTexts(ts))) <==> forall k :: 0 <= k < |ts| ==> ts[k].name in Descriptors(axes)
  {
    assert |P.TypedTexts(ts)| == |ts|;
    var text := P.Printed(P.TypedTexts(ts));
    P.TypedMeaning(read, ts, "");
    P.ParseExactly(read, text);
    NamesParsed(axes, text, read);
    hide *;
    var r := P.ParseMultiplett(read, text).values;
    forall name ensures name in r <==> exists k :: 0 <= k < |ts| && ts[k].name == name {
      P.TypedMeaning(read, ts, name);
    }
    assert r.Keys <= Descriptors(axes) <==> forall k :: 0 <= k < |ts| ==> ts[k].name in Descriptors(axes);
    InOrder(text);
  }

  lemma InOrder(text: string)
    ensures WellFormed(text) <==> P.DELIM in text && !P.Broken(text) && P.AllDelimited(P.FieldsOf(text, false))
  {
  }

  /** Blanks never change what a move request does: two texts with the same names and values leave the
      same board and get the same reply. */
  lemma SpacingIrrelevant(s: State, relative: bool, ts: seq<P.Typed>, us: seq<P.Typed>, fmt: Format)
    requires Valid(s) && ts != [] && P.SameEntries(ts, us) && forall k :: 0 <= k < |ts| ==> P.Neat(ts[k]) && P.Neat(us[k])
    ensures P.TypedTexts(ts) != [] && P.TypedTexts(us) != []
    ensures Handle(s, RequestText(relative, P.Printed(P.TypedTexts(ts))), fmt) ==
      Handle(s, RequestText(relative, P.Printed(P.TypedTexts(us))), fmt)
  {
    assert |P.TypedTexts(ts)| == |P.TypedTexts(us)| == |ts|;
    P.BlanksIrrelevant(fmt.read, ts, us);
    var t, u := P.Printed(P.TypedTexts(ts)), P.Printed(P.TypedTexts(us));
    Dispatch(s, relative, t, fmt);
    Dispatch(s, relative, u, fmt);
    hide Handle, RequestText, MoveUser, Requested, P.ParseMultiplett, P.Printed, P.TypedTexts, P.Neat, P.SameEntries;
  }

  /** For example `x = 1 , y = 2 ` asks for x at 1 and y at 2. */
  lemma BlanksAllowed(axes: seq<Axis>, read: string -> real)
    requires "x" in Descriptors(axes) && "y" in Descriptors(axes)
    ensures WellFormed("x = 1 , y = 2 ") && KnownNames(axes, "x = 1 , y = 2 ")
    ensures ValuesOf("x = 1 , y = 2 ", read) == map["x" := read("1"), "y" := read("2")]
  {
    P.SpacedPair(read);
    P.ParseExactly(read, "x = 1 , y = 2 ");
    NamesParsed(axes, "x = 1 , y = 2 ", read);
    hide P.ParseMultiplett, P.ParseFields, P.FieldsOf, P.Broken, P.AllDelimited, Descriptors, KnownNames;
  }

  /** A move sends at least the select that restores the channel. */
  lemma MoveSends(s: State, pos: map<nat, real>, relative: bool)
    requires Valid(s)
    ensures |MoveUser(s, pos, relative).0.link.log| > |s.link.log|
  {
    hide RunMoves, ToBare, KeysInOrder, MovedCount;
    var bp := ToBare(s.axes, KeysInOrder(pos), pos, map[]);
    MoveShape(SaveEnvironment(s), KeysInOrder(bp), bp, relative);
    RestoreLog(RunMoves(SaveEnvironment(s), KeysInOrder(bp), bp, relative).0);
  }

  /** A move request is refused, with nothing sent to the controller and the board as before, exactly
      when its text is malformed or names something that is no axis; it is then never answered with
      success. */
  lemma RefusedRequest(s: State, text: string, relative: bool, read: string -> real)
    requires Valid(s)
    ensures Move(s, text, relative, read).0.link.log == s.link.log <==> !(WellFormed(text) && KnownNames(s.axes, text))
    ensures !(WellFormed(text) && KnownNames(s.axes, text)) ==>
      Move(s, text, relative, read).0 == s && Move(s, text, relative, read).1 != SUCCESS
  {
    P.ParseExactly(read, text);
    P.ParsedNonEmpty(read, text);
    hide MoveUser, Requested, P.ParseMultiplett, P.FieldsOf, P.Broken, P.ParseFields, KnownNames, Descriptors;
    if P.ParseMultiplett(read, text).Parsed? {
      var values := P.ParseMultiplett(read, text).values;
      NamesParsed(s.axes, text, read);
      if values.Keys <= Descriptors(s.axes) {
        RequestedNonEmpty(s.axes, values);
        MoveSends(s, Requested(s.axes, values), relative);
      }
    }
  }

  // ----- requests that end the server -----

  /** A move request with a delimiter, a broken escape, and a delimiter in every token that ends before
      the broken escape. */
  predicate EndsServer(data: string) {
    && (Starts(data, "ma ") || Starts(data, "mr "))
    && P.DELIM in data[3..] && P.Broken(data[3..])
    && P.AllDelimited(P.Ended(P.FieldsOf(data[3..], false)))
  }

  lemma OnlyMovesStop(s: State, request: Request, fmt: Format)
    requires Valid(s)
    ensures Respond(s, request, fmt).1.Stops? <==>
      request.AskMove? && P.ParseMultiplett(fmt.read, request.text).Thrown?
  {
    hide SetInitialZero, SetZero, SetAxisNum, Send, ReadUser, ReadBare, SaveXml, SavedText, AxesText, LimitsText,
      PositionText, MoveUser, Requested, P.ParseMultiplett, Descriptors;
  }

  /** Exactly these requests end the server, whatever the board's state. */
  lemma StopsExactly(s: State, data: string, fmt: Format)
    requires Valid(s)
    ensures Handle(s, data, fmt).1.Stops? <==> EndsServer(data)
  {
    OnlyMovesStop(s, Classify(data), fmt);
    MoveText(data);
    hide Classify, Respond, P.ParseMultiplett, P.FieldsOf, P.Broken, P.AllDelimited;
    if Classify(data).AskMove? {
      P.ParseExactly(fmt.read, data[3..]);
    }
  }

  /** For example `ma x=\`. */
  lemma TrailingEscapeStops(s: State, fmt: Format)
    requires Valid(s)
    ensures Handle(s, "ma x=\\", fmt) == (s, Stops)
  {
    assert RequestText(false, "x=\\") == "ma x=\\";
    Dispatch(s, false, "x=\\", fmt);
    P.TrailingEscapeThrows(fmt.read);
    hide Handle, P.ParseMultiplett;
  }

  // ----- requests as operations -----

  function MoveOperation(axes: seq<Axis>, text: string, relative: bool, read: string -> real): Option<Op> {
    match P.ParseMultiplett(read, text)
    case Parsed(values) =>
      if !(values.Keys <= Descriptors(axes)) || |Requested(axes, values)| == 0 then None
      else Some(if relative then MoveBy(Requested(axes, values)) else MoveTo(Requested(axes, values)))
    case _ => None
  }

  /** What a request does to the board; None when it only looks. */
  function Operation(axes: seq<Axis>, request: Request, read: string -> real): Option<Op> {
    match request
    case AskInitialZero => Some(InitialZero)
    case AskBare => Some(ShowSteps)
    case AskPositions => Some(Show)
    case AskSave => Some(SaveFile)
    case AskSelect(id) => Some(SelectAxis(id))
    case AskSet(what) => if what == "jog" then Some(Jog(true)) else if what == "zero" then Some(Zero) else None
    case AskUnset(what) => if what == "jog" then Some(Jog(false)) else None
    case AskMove(text, relative) => MoveOperation(axes, text, relative, read)
    case _ => None
  }

  function Operate(s: State, op: Option<Op>): State
    requires Valid(s)
  {
    if op.Some? then Exec(s, op.value) else s
  }

  lemma MoveIsOperation(s: State, text: string, relative: bool, read: string -> real)
    requires Valid(s)
    ensures Move(s, text, relative, read).0 == Operate(s, MoveOperation(s.axes, text, relative, read))
  {
    hide MoveUser, Requested, Descriptors, P.ParseMultiplett;
  }

  /** Apart from commands that are passed through, every request is one of the operations that the run
      laws are about, or leaves the board alone. */
  lemma RequestIsOperation(s: State, request: Request, fmt: Format)
    requires Valid(s) && !request.AskForward?
    ensures Respond(s, request, fmt).0 == Operate(s, Operation(s.axes, request, fmt.read))
  {
    hide Move, SetAxisNum, SetZero, Send, MoveOperation, ReadUser, ReadBare, SaveXml, SavedText, AxesText, PositionText,
      LimitsText, SetInitialZero, MoveUser, AxesReply, SoftLimitsReply, CommandOutcome, KeysInOrder, DefaultBare, Forward;
    match request
    case AskMove(text, relative) => MoveIsOperation(s, text, relative, fmt.read);
    case AskInitialZero => RefusedInitialZero(s);
    case _ =>
  }

  /** No request, passed through or not, changes which axes there are or makes the configuration
      unusable. */
  lemma RequestKeepsShape(s: State, data: string, fmt: Format)
    requires Valid(s)
    ensures SameShape(s, Handle(s, data, fmt).0) && Valid(Handle(s, data, fmt).0)
  {
    var request := Classify(data);
    hide Classify, SameShape, Send, Valid, Exec, Operation;
    if request.AskForward? {
      SendShape(s, Raw(request.command));
    } else {
      RequestIsOperation(s, request, fmt);
      hide Respond;
      if Operation(s.axes, request, fmt.read).Some? {
        ExecShape(s, Operation(s.axes, request, fmt.read).value);
      } else {
        SameShapeSelf(s);
      }
    }
  }

  lemma SameShapeSelf(s: State)
    ensures SameShape(s, s)
  {
  }

  /** The board after a list of requests. */
  function After(s: State, requests: seq<string>, fmt: Format): (r: State)
    requires Valid(s)
    ensures Valid(r)
  {
    if requests == [] then s
    else
      var before := After(s, requests[..|requests| - 1], fmt);
      RequestKeepsShape(before, requests[|requests| - 1], fmt);
      Handle(before, requests[|requests| - 1], fmt).0
  }

  /** The operations they amount to. */
  function Operations(s: State, requests: seq<string>, fmt: Format): seq<Op>
    requires Valid(s)
  {
    if requests == [] then []
    else
      var front := requests[..|requests| - 1];
      var op := Operation(After(s, front, fmt).axes, Classify(requests[|requests| - 1]), fmt.read);
      Operations(s, front, fmt) + (if op.Some? then [op.value] else [])
  }

  /** Any list of requests without passed-through commands is a run: the run laws hold for it. */
  lemma {:induction false} RequestsAreRun(s: State, requests: seq<string>, fmt: Format)
    requires Valid(s) && forall k :: 0 <= k < |requests| ==> !Classify(requests[k]).AskForward?
    ensures After(s, requests, fmt) == Run(s, Operations(s, requests, fmt))
    decreases |requests|
  {
    if requests != [] {
      hide Classify, Respond, Operation, Exec;
      var front, last := requests[..|requests| - 1], requests[|requests| - 1];
      RequestsAreRun(s, front, fmt);
      var before, ops := After(s, front, fmt), Operations(s, front, fmt);
      RequestIsOperation(before, Classify(last), fmt);
      var op := Operation(before.axes, Classify(last), fmt.read);
      if op.Some? {
        assert (ops + [op.value])[..|ops|] == ops;
      } else {
        assert ops + [] == ops;
      }
    }
  }

  /** The mirror invariant over lists of requests. */
  lemma RequestsAgree(s: State, requests: seq<string>, fmt: Format)
    requires Agreed(s) && forall k :: 0 <= k < |requests| ==> !Classify(requests[k]).AskForward?
    requires InitialisationsAccepted(s, Operations(s, requests, fmt))
    ensures Agreed(After(s, requests, fmt))
  {
    hide After, Operations, Run, InitialisationsAccepted, Classify, Agreed;
    assert Valid(s) by { AgreedParts(s); }
    RequestsAreRun(s, requests, fmt);
    RunAgrees(s, Operations(s, requests, fmt));
  }

  // ----- soft limits -----

  /** A limit shown by `psl`: the controller's own one, scaled, and in the coordinates of `pp` exactly
      when the axis's zero offset is 0. */
  ghost predicate LimitShown(shown: real, limit: int, conv: UnitConversion) {
    && shown == InUnits(limit, conv.factor)
    && (shown == ToUnits(limit, conv.factor, conv.offset) <==> conv.offset == 0)
  }

  /** In an agreed state `psl` shows every axis both limits of the controller in this way. */
  lemma LimitsShown(s: State, j: nat)
    requires Agreed(s) && j < |s.axes|
    ensures var id, conv := s.axes[j].id, s.axes[j].conv;
      && id in UserLimits(s, UpperLimitElement) && id in UserLimits(s, LowerLimitElement)
      && LimitShown(UserLimits(s, UpperLimitElement)[id], Channel(s.link.ctrl, id).upperLimit, conv)
      && LimitShown(UserLimits(s, LowerLimitElement)[id], Channel(s.link.ctrl, id).lowerLimit, conv)
  {
    AgreedParts(s);
    LimitsMirrored(s, j);
    assert s.axes[j].conv.factor != 0.0 by { ValidParts(s); }
    var conv, c := s.axes[j].conv, Channel(s.link.ctrl, s.axes[j].id);
    hide Agreed, Mirror, ChipMirror, Channel, Limit, Valid, ToUnits, InUnits, LimitsUpTo;
    LimitsOfAxis(s, UpperLimitElement, |s.axes|, j);
    LimitsOfAxis(s, LowerLimitElement, |s.axes|, j);
    OffsetShift(c.upperLimit, conv.factor, conv.offset);
    OffsetShift(c.lowerLimit, conv.factor, conv.offset);
  }

  lemma LimitsMirrored(s: State, j: nat)
    requires Valid(s) && Distinct(s) && Mirror(s) && ChipMirror(s) && j < |s.axes|
    ensures Limit(s.nodes, s.axes[j].id, UpperLimitElement) == Channel(s.link.ctrl, s.axes[j].id).upperLimit
    ensures Limit(s.nodes, s.axes[j].id, LowerLimitElement) == Channel(s.link.ctrl, s.axes[j].id).lowerLimit
  {
    hide GetLast, FirstNode, Channel, Valid;
    assert MirrorsTree(s, j) && MirrorsChip(s, j);
    GettersAgree(s.nodes, s.axes[j].id, (n: Node) => Get(n, UpperLimitElement), 0);
    GettersAgree(s.nodes, s.axes[j].id, (n: Node) => Get(n, LowerLimitElement), 0);
  }

  lemma OffsetShift(limit: int, factor: real, offset: int)
    requires factor != 0.0
    ensures InUnits(limit, factor) == ToUnits(limit, factor, offset) <==> offset == 0
  {
    var x, o := limit as real, offset as real;
    assert (limit - offset) as real == x - o;
    assert (x - o) * factor == x * factor - o * factor;
    if o * factor == 0.0 {
      assert o == 0.0;
    }
  }

  // ----- the GUI -----

  lemma MergeRegistered(bp: map<nat, int>, rs: seq<Reading>, registered: set<nat>)
    requires bp.Keys == registered
    ensures Merge(bp, rs, registered).Keys == registered
    decreases |rs|
  {
    if rs != [] {
      MergeRegistered(if rs[0].id in registered then bp[rs[0].id := rs[0].value] else bp, rs[1..], registered);
    }
  }

  /** `pp` lists exactly the registered axes, whatever the controller reports. */
  lemma ShownAxes(s: State)
    ensures ReadUser(s).1.Keys == RegisteredIds(s.axes)
  {
    hide Merge, Scan, ToUser, KeysInOrder, UserUnits;
    MergeRegistered(DefaultBare(s.axes), Scan(BufferText(Answer(s.link))), RegisteredIds(s.axes));
    var bp := ReadBare(s, DefaultBare(s.axes)).1;
    ToUserIsUserUnits(s.axes, bp, DefaultUser(s.axes));
    UserUnitsKeys(s.axes, bp);
  }

  lemma UserUnitsKeys(axes: seq<Axis>, bp: map<nat, int>)
    requires AllRegistered(axes, bp)
    ensures UserUnits(axes, bp).Keys == bp.Keys
  {
  }

  /** The GUI's position is the one the board reads, under its own ids, exactly when the ids are
      1 .. n. */
  lemma GuiShowsBoard(s: State, fmt: Format, readGui: string -> real)
    requires Valid(s)
    requires Clean(SortedIds(RegisteredIds(s.axes)), NameAndUnit(s.axes)) && Legible(ReadUser(s).1, fmt.show, readGui)
    ensures Handle(s, "pp", fmt).1.Replied?
    ensures GuiPosition(Handle(s, "pp", fmt).1.body, readGui) == ReadUser(s).1 <==>
      RegisteredIds(s.axes) == Numbers(|RegisteredIds(s.axes)|)
  {
    hide *;
    var p := ReadUser(s).1;
    ShownAxes(s);
    PositionsReplied(s, fmt);
    OrderOf(p, RegisteredIds(s.axes));
    GuiPositionExact(KeysInOrder(p), p, NameAndUnit(s.axes), fmt.show, readGui);
    SameSize(p, RegisteredIds(s.axes));
  }

  lemma PositionsReplied(s: State, fmt: Format)
    requires Valid(s)
    ensures Handle(s, "pp", fmt).1 ==
      Text(PositionText(KeysInOrder(ReadUser(s).1), ReadUser(s).1, NameAndUnit(s.axes), fmt.show))
    ensures Text(PositionText(KeysInOrder(ReadUser(s).1), ReadUser(s).1, NameAndUnit(s.axes), fmt.show)).Replied?
    ensures Text(PositionText(KeysInOrder(ReadUser(s).1), ReadUser(s).1, NameAndUnit(s.axes), fmt.show)).body ==
      PositionText(KeysInOrder(ReadUser(s).1), ReadUser(s).1, NameAndUnit(s.axes), fmt.show)
  {
    hide ReadUser, PositionText, KeysInOrder, NameAndUnit;
  }

  lemma OrderOf<T>(p: map<nat, T>, ids: set<nat>)
    requires p.Keys == ids
    ensures KeysInOrder(p) == SortedIds(ids)
    ensures AllIn(KeysInOrder(p), p)
  {
  }

  lemma SameSize<T>(p: map<nat, T>, ids: set<nat>)
    requires p.Keys == ids
    ensures |p| == |ids|
  {
  }

  lemma AxesReplied(s: State, fmt: Format)
    requires Valid(s)
    ensures Handle(s, "ga", fmt) == (s, AxesReply(s))
  {
    hide AxesReply;
  }

  ghost predicate CleanTable(axes: seq<Axis>) {
    Clean(SortedIds(RegisteredIds(axes)), NameOf(axes)) && Clean(SortedIds(RegisteredIds(axes)), UnitOf(axes))
  }

  /** From the reply to `ga` the GUI shows the whole axis table in id order. */
  lemma GuiListsAxes(s: State, fmt: Format, i: nat)
    requires Valid(s) && i < |RegisteredIds(s.axes)| && CleanTable(s.axes)
    ensures Handle(s, "ga", fmt).0 == s && Handle(s, "ga", fmt).1.Replied?
    ensures var ids, text := SortedIds(RegisteredIds(s.axes)), Handle(s, "ga", fmt).1.body;
      && |GuiNames(text)| == |GuiUnits(text)| == |ids| == |RegisteredIds(s.axes)|
      && Registered(s.axes, ids[i])
      && GuiNames(text)[i] == FindAxis(s.axes, ids[i]).desc
      && GuiUnits(text)[i] == FindAxis(s.axes, ids[i]).conv.unitName
  {
    AxesReplied(s, fmt);
    hide Handle;
    ListedAxes(s, i);
  }

  lemma ListedAxes(s: State, i: nat)
    requires i < |RegisteredIds(s.axes)| && CleanTable(s.axes)
    ensures var ids, text := SortedIds(RegisteredIds(s.axes)), AxesReply(s).body;
      && |GuiNames(text)| == |GuiUnits(text)| == |ids| == |RegisteredIds(s.axes)|
      && Registered(s.axes, ids[i])
      && GuiNames(text)[i] == FindAxis(s.axes, ids[i]).desc
      && GuiUnits(text)[i] == FindAxis(s.axes, ids[i]).conv.unitName
  {
    var ids := SortedIds(RegisteredIds(s.axes));
    SortedIdsSpec(RegisteredIds(s.axes));
    hide AxesText, GuiNames, GuiUnits, SortedIds, FindAxis, Clean;
    assert ids[i] in ids;
    GuiReadsAxes(ids, NameOf(s.axes), UnitOf(s.axes), i);
  }

  /** What the GUI sends to select the axis in its row i (src/gui/pm301.cpp:438, 463). */
  function SelectText(i: nat): string {
    "sa" + NatText(i + 1)
  }

  function SetAxisText(i: nat): string {
    "set axis " + NatText(i + 1)
  }

  /** The server takes these as selects up to the ninth row, and refuses them from the tenth on. */
  lemma SelectTexts(s: State, fmt: Format, i: nat)
    requires Valid(s)
    ensures i < 9 ==>
      (Handle(s, SelectText(i), fmt) == (SetAxisNum(s, i + 1), CommandOutcome(Answer(s.link), REJECTED))
       && Handle(s, SetAxisText(i), fmt) == (SetAxisNum(s, i + 1), CommandOutcome(Answer(s.link), REJECTED)))
    ensures i >= 9 ==>
      (Handle(s, SelectText(i), fmt) == (s, Failure("invalid command (check syntax)"))
       && Handle(s, SetAxisText(i), fmt) == (s, Failure("invalid set command (check syntax)")))
  {
    SelectTextRead(i);
    SetAxisTextRead(i);
    hide Classify, SelectText, SetAxisText, SetAxisNum, CommandOutcome, NatText;
    if i >= 9 {
      assert ("axis " + NatText(i + 1))[0] == 'a';
    }
  }

  lemma OneDigit(n: nat)
    ensures n < 10 ==> |NatText(n)| == 1 && IsDigit(NatText(n)[0]) && DigitValue(NatText(n)[0]) == n
    ensures n >= 10 ==> |NatText(n)| >= 2
    ensures IsDigit(NatText(n)[0])
  {
  }

  lemma NoDigitCommand(data: string)
    ensures data != "" && !IsDigit(data[0]) ==> !PassThrough(data)
  {
  }

  lemma NotStarts(data: string, prefix: string, k: nat)
    requires k < |prefix| && k < |data| && data[k] != prefix[k]
    ensures !Starts(data, prefix)
  {
  }

  lemma SelectTextRead(i: nat)
    ensures Classify(SelectText(i)) == if i < 9 then AskSelect(i + 1) else Unknown
  {
    OneDigit(i + 1);
    hide NatText, ClassifyWord, PassThrough;
    var data, digits := SelectText(i), NatText(i + 1);
    assert data[0] == 's' && data[1] == 'a' && data[2] == digits[0] && |data| == 2 + |digits| && data[..2] == "sa";
    assert "set axis "[1] == 'e';
    assert |data| == 10 ==> data[..9][1] == 'a';
    assert SelectedAxis(data) == if i < 9 then Some(i + 1) else None;
    NoWord(data);
    NoDigitCommand(data);
    NotStarts(data, "set ", 1);
    NotStarts(data, "unset ", 0);
    NotStarts(data, "ma ", 0);
    NotStarts(data, "mr ", 0);
  }

  lemma Fronted(a: string, b: string)
    ensures Starts(a + b, a) && (a + b)[|a|..] == b
  {
  }

  lemma SetAxisSelects(digits: string)
    requires digits != "" && IsDigit(digits[0])
    ensures SelectedAxis("set axis " + digits) == if |digits| == 1 then Some(DigitValue(digits[0])) else None
  {
    var data := "set axis " + digits;
    Fronted("set axis ", digits);
    assert data[9] == digits[0];
  }

  lemma SetAxisTextRead(i: nat)
    ensures Classify(SetAxisText(i)) == if i < 9 then AskSelect(i + 1) else AskSet("axis " + NatText(i + 1))
  {
    OneDigit(i + 1);
    var data, digits := SetAxisText(i), NatText(i + 1);
    assert data == "set axis " + digits == "set " + ("axis " + digits);
    Fronted("set ", "axis " + digits);
    hide *;
    SetAxisSelects(digits);
    SetClassified(data);
  }

  lemma SetClassified(data: string)
    requires Starts(data, "set ")
    ensures Classify(data) == if SelectedAxis(data).Some? then AskSelect(SelectedAxis(data).value) else AskSet(data[4..])
  {
    hide PassThrough, SelectedAxis;
    assert data[0] == data[..4][0] && data[1] == data[..4][1];
    NoWord(data);
  }

  lemma SelectsDiffer(s: State, a: nat, b: nat)
    ensures SetAxisNum(s, a) == SetAxisNum(s, b) ==> a == b
    ensures SetAxisNum(s, a) != s
  {
    assert SetAxisNum(s, a).link.log[|s.link.log|].cmd == Select(a);
    assert SetAxisNum(s, b).link.log[|s.link.log|].cmd == Select(b);
  }

  lemma OrderIsNumbers(ids: set<nat>)
    ensures (forall i :: 0 <= i < |SortedIds(ids)| ==> SortedIds(ids)[i] == i + 1) <==> ids == Numbers(|ids|)
    ensures |SortedIds(ids)| == |ids|
  {
    var order := SortedIds(ids);
    SortedIdsSpec(ids);
    hide SortedIds, Numbers;
    if ids == Numbers(|ids|) {
      forall i | 0 <= i < |order| ensures order[i] == i + 1 {
        CountedIds(order, i);
      }
    }
    if forall i :: 0 <= i < |order| ==> order[i] == i + 1 {
      forall x ensures x in ids <==> 1 <= x <= |ids| {
        if 1 <= x <= |ids| {
          assert order[x - 1] in order;
        }
      }
      assert ids == Numbers(|ids|);
    }
  }

  /** Selecting row i of the GUI selects the axis that the row shows. */
  ghost predicate RowSelects(s: State, fmt: Format, i: nat)
    requires Valid(s) && i < |SortedIds(RegisteredIds(s.axes))|
  {
    var shown := SortedIds(RegisteredIds(s.axes))[i];
    Handle(s, SelectText(i), fmt).0 == SetAxisNum(s, shown) && Handle(s, SetAxisText(i), fmt).0 == SetAxisNum(s, shown)
  }

  lemma RowSelectsExactly(s: State, fmt: Format, i: nat)
    requires Valid(s) && i < |SortedIds(RegisteredIds(s.axes))|
    ensures RowSelects(s, fmt, i) <==> i < 9 && SortedIds(RegisteredIds(s.axes))[i] == i + 1
  {
    SelectTexts(s, fmt, i);
    SelectsDiffer(s, i + 1, SortedIds(RegisteredIds(s.axes))[i]);
    SelectsDiffer(s, SortedIds(RegisteredIds(s.axes))[i], i + 1);
    hide Handle, SetAxisNum, SortedIds, SelectText, SetAxisText, CommandOutcome;
  }

  lemma NineRows(s: State, fmt: Format)
    requires Valid(s) && forall i: nat :: i < |SortedIds(RegisteredIds(s.axes))| ==> RowSelects(s, fmt, i)
    ensures |SortedIds(RegisteredIds(s.axes))| <= 9
  {
    hide RowSelects, SortedIds;
    if |SortedIds(RegisteredIds(s.axes))| > 9 {
      RowSelectsExactly(s, fmt, 9);
    }
  }

  /** Every row of the GUI selects the axis it shows exactly when the ids are 1 .. n and n is at most 9:
      the server's pattern takes a single digit. */
  lemma GuiAddressesAxes(s: State, fmt: Format)
    requires Valid(s)
    ensures (forall i: nat :: i < |SortedIds(RegisteredIds(s.axes))| ==> RowSelects(s, fmt, i)) <==>
      RegisteredIds(s.axes) == Numbers(|RegisteredIds(s.axes)|) && |RegisteredIds(s.axes)| <= 9
  {
    var ids := RegisteredIds(s.axes);
    var order := SortedIds(ids);
    OrderIsNumbers(ids);
    hide RowSelects, SortedIds, Numbers, Valid;
    forall i: nat | i < |order| ensures RowSelects(s, fmt, i) <==> i < 9 && order[i] == i + 1 {
      RowSelectsExactly(s, fmt, i);
    }
    if forall i: nat :: i < |order| ==> RowSelects(s, fmt, i) {
      NineRows(s, fmt);
    }
  }

  /** With ten axes numbered 1 .. 10 the tenth row shows axis 10, and both its requests are refused. */
  lemma TenthAxis(s: State, fmt: Format)
    requires Valid(s) && RegisteredIds(s.axes) == Numbers(10) && |RegisteredIds(s.axes)| == 10
    ensures |SortedIds(RegisteredIds(s.axes))| == 10 && SortedIds(RegisteredIds(s.axes))[9] == 10
    ensures Handle(s, "sa10", fmt) == (s, Failure("invalid command (check syntax)"))
    ensures Handle(s, "set axis 10", fmt) == (s, Failure("invalid set command (check syntax)"))
  {
    OrderIsNumbers(RegisteredIds(s.axes));
    hide Handle, SortedIds, Numbers, SetAxisNum, CommandOutcome;
    SelectTexts(s, fmt, 9);
    TenTexts();
  }

  lemma TenTexts()
    ensures SelectText(9) == "sa10" && SetAxisText(9) == "set axis 10"
  {
    TenText();
  }

  lemma TenText()
    ensures NatText(10) == "10"
  {
    assert NatText(1) == "1";
    assert NatText(10) == NatText(10 / 10) + [DigitChar(10 % 10)];
  }
}
