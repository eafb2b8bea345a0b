/** The main results about whole runs: the mirror invariant, the zeroing law, and initialisation
    (src/core/IAPBoard.cpp:43-59, 82-103, 171-197, 345-378, 395-416, 603-660). */
module InvariantLaws {
  import opened Basics
  import opened Units
  import opened Report
  import opened Controller
  import opened Config
  import opened BoardSpec
  import opened MoveLaws
  import opened ReadLaws
  import opened MirrorLaws
  import opened RunLaws

  // ----- the mirror invariant -----

  lemma MovedBoard(s: State, p: map<nat, real>, relative: bool)
    requires Valid(s)
    ensures var r := MoveUser(s, p, relative).0;
      r.axes == s.axes && r.nodes == s.nodes && r.init == s.init
  {
    hide RunMoves, ToBare;
    MoveLog(s, ToBare(s.axes, KeysInOrder(p), p, map[]), relative);
  }

  lemma ZeroMirror(s: State, j: nat)
    requires Valid(s) && Distinct(s) && Mirror(s) && j < |s.axes|
    ensures AllListed(SetZero(s).nodes, SetZero(s).axes) && |SetZero(s).axes| == |s.axes|
    ensures MirrorsTree(SetZero(s), j)
    ensures SetZero(s).axes[j].settings == s.axes[j].settings && SetZero(s).axes[j].id == s.axes[j].id
    ensures SetZero(s).link == Send(s, QueryPositions).link
  {
    DefaultCovers(s);
    hide Merge, Scan, ZeroAxes, FirstNode;
    var (s1, bp) := ReadBare(s, DefaultBare(s.axes));
    assert Distinct(s1) && Valid(s1);
    ZeroEffect(s1, 0, bp, j);
    ZeroShape(s1, 0, bp);
    assert MirrorsTree(s, j);
  }

  lemma SaveMirror(s: State, j: nat)
    requires Valid(s) && Distinct(s) && Mirror(s) && j < |s.axes|
    ensures AllListed(SaveXml(s).nodes, s.axes) && SaveXml(s).axes == s.axes
    ensures MirrorsTree(SaveXml(s), j)
  {
    hide Merge, Scan, SavePositions, FirstNode;
    var (s1, bp) := ReadBare(s, map[]);
    SaveShape(s1.nodes, KeysInOrder(bp), bp);
    ListedKept(s.nodes, SaveXml(s).nodes, s.axes, s.axes);
    SaveEffect(s1.nodes, KeysInOrder(bp), bp, s.axes[j].id);
    assert MirrorsTree(s, j);
  }

  lemma InitialMirror(s: State, j: nat)
    requires Valid(s) && Distinct(s) && s.init && j < |s.axes|
    requires SelectsAccepted(SetInitialZero(s).0.link, |s.link.log|)
    ensures AllListed(SetInitialZero(s).0.nodes, SetInitialZero(s).0.axes) && |SetInitialZero(s).0.axes| == |s.axes|
    ensures MirrorsTree(SetInitialZero(s).0, j)
  {
    hide ConfigureAxes, FirstNode;
    var s1 := Send(s, QueryPositions);
    assert Distinct(s1);
    ConfigureRecords(s1, 0, Final, j);
  }

  lemma InitialChip(s: State, j: nat)
    requires Valid(s) && Distinct(s) && s.init && j < |s.axes|
    requires AllAccepted(SetInitialZero(s).0.link, |s.link.log|)
    ensures AllListed(SetInitialZero(s).0.nodes, SetInitialZero(s).0.axes) && |SetInitialZero(s).0.axes| == |s.axes|
    ensures Settled(SetInitialZero(s).0, j)
    ensures FirstNode(SetInitialZero(s).0.nodes, s.axes[j].id) == FinalNode(FirstNode(s.nodes, s.axes[j].id))
    ensures SetInitialZero(s).0.axes[j].id == s.axes[j].id
  {
    hide ConfigureAxes, FirstNode, FinalNode;
    var s1 := Send(s, QueryPositions);
    assert Distinct(s1);
    LaterAccepted(ConfigureAxes(s1, 0, Final).link, |s.link.log|, |s1.link.log|);
    ConfigureSettles(s1, Final, j);
    ConfigureRecords(s1, 0, Final, j);
  }

  /** One operation keeps axis objects and tree in agreement. Only initialisation can break it, by
      a rejected select. */
  lemma ExecMirror(s: State, op: Op)
    requires Valid(s) && Distinct(s) && Mirror(s)
    requires op.InitialZero? ==> SelectsAccepted(Exec(s, op).link, |s.link.log|)
    ensures Mirror(Exec(s, op))
  {
    hide FirstNode, RunMoves, MoveUser, ReadUser, SetZero, SetInitialZero, SaveXml;
    ExecShape(s, op);
    ShapeKeepsDistinct(s, Exec(s, op));
    var r := Exec(s, op);
    forall j | 0 <= j < |r.axes| ensures MirrorsTree(r, j) {
      match op
      case MoveTo(p) => MovedBoard(s, p, false); SameRecords(s, r, j);
      case MoveBy(p) => MovedBoard(s, p, true); SameRecords(s, r, j);
      case Zero => ZeroMirror(s, j);
      case SaveFile => SaveMirror(s, j);
      case SelectAxis(id) => SameRecords(s, r, j);
      case Jog(on) => SameRecords(s, r, j);
      case Show => QueryIsHarmless(s); SameRecords(s, r, j);
      case ShowSteps => QueryIsHarmless(s); SameRecords(s, r, j);
      case InitialZero =>
        RefusedInitialZero(s);
        if s.init {
          InitialMirror(s, j);
        } else {
          SameRecords(s, r, j);
        }
    }
  }

  lemma SameRecords(s: State, r: State, j: nat)
    requires Mirror(s) && r.axes == s.axes && r.nodes == s.nodes && j < |s.axes|
    ensures MirrorsTree(r, j)
  {
    assert MirrorsTree(s, j);
  }

  lemma RefusedInitialZero(s: State)
    requires Valid(s)
    ensures !s.init ==> SetInitialZero(s) == (s, -1)
    ensures !SetInitialZero(s).0.init
  {
  }

  /** One operation keeps the chip's parameters in agreement with the axis objects; moves and
      queries may be rejected, initialisation may not. */
  lemma ExecChip(s: State, op: Op)
    requires Valid(s) && Distinct(s) && Mirror(s) && ChipMirror(s)
    requires op.InitialZero? ==> AllAccepted(Exec(s, op).link, |s.link.log|)
    ensures ChipMirror(Exec(s, op))
  {
    hide FirstNode, RunMoves, MoveUser, ReadUser, SetZero, SetInitialZero, SaveXml, Channel, Parameters;
    ExecShape(s, op);
    var r := Exec(s, op);
    forall j | 0 <= j < |s.axes| ensures MirrorsChip(r, j) {
      assert MirrorsChip(s, j);
      match op
      case MoveTo(p) => MovedBoard(s, p, false); MoveUserKeepsParameters(s, p, false, s.axes[j].id);
      case MoveBy(p) => MovedBoard(s, p, true); MoveUserKeepsParameters(s, p, true, s.axes[j].id);
      case Zero => ZeroMirror(s, j);
      case SaveFile => SavedChip(s);
      case SelectAxis(id) => SelectKeepsChannels(s, id, s.axes[j].id);
      case Jog(on) => JogHarmless(s, on);
      case Show => QueryIsHarmless(s);
      case ShowSteps => QueryIsHarmless(s);
      case InitialZero =>
        RefusedInitialZero(s);
        if s.init {
          InitialChip(s, j);
        }
    }
  }

  lemma JogHarmless(s: State, on: bool)
    ensures Send(s, if on then JogOn else JogOff).link.ctrl == s.link.ctrl
  {
  }

  lemma SavedChip(s: State)
    ensures SaveXml(s).link.ctrl == s.link.ctrl && SaveXml(s).axes == s.axes
  {
    hide Merge, Scan, SavePositions;
  }

  ghost predicate Agreed(s: State) {
    Valid(s) && Distinct(s) && Mirror(s) && ChipMirror(s)
  }

  /** In every initialisation of the run all commands were accepted; every other command of the run
      may be rejected or lost. */
  ghost predicate InitialisationsAccepted(s: State, ops: seq<Op>)
    requires Valid(s)
    decreases |ops|
  {
    ops != [] ==>
      && InitialisationsAccepted(s, ops[..|ops| - 1])
      && (ops[|ops| - 1].InitialZero? ==> AllAccepted(Run(s, ops).link, |Run(s, ops[..|ops| - 1]).link.log|))
  }

  /** The same for the selects alone. */
  ghost predicate InitialisationsSelected(s: State, ops: seq<Op>)
    requires Valid(s)
    decreases |ops|
  {
    ops != [] ==>
      && InitialisationsSelected(s, ops[..|ops| - 1])
      && (ops[|ops| - 1].InitialZero? ==> SelectsAccepted(Run(s, ops).link, |Run(s, ops[..|ops| - 1]).link.log|))
  }

  lemma AcceptedPrefix(s: State, ops: seq<Op>)
    requires ops != [] && Valid(s) && InitialisationsAccepted(s, ops)
    ensures InitialisationsAccepted(s, ops[..|ops| - 1])
    ensures ops[|ops| - 1].InitialZero? ==>
      AllAccepted(Run(s, ops).link, |Run(s, ops[..|ops| - 1]).link.log|)
  {
    hide Run, AllAccepted;
  }

  lemma SelectedPrefix(s: State, ops: seq<Op>)
    requires ops != [] && Valid(s) && InitialisationsSelected(s, ops)
    ensures InitialisationsSelected(s, ops[..|ops| - 1])
    ensures ops[|ops| - 1].InitialZero? ==>
      SelectsAccepted(Run(s, ops).link, |Run(s, ops[..|ops| - 1]).link.log|)
  {
    hide Run, SelectsAccepted;
  }

  /** The mirror invariant over whole runs: from an agreed state, after any sequence of operations,
      axis objects, configuration tree and controller still agree, whatever moves, selects and
      queries were rejected; only initialisations have to be accepted. */
  lemma {:induction false} RunAgrees(s: State, ops: seq<Op>)
    requires Agreed(s) && InitialisationsAccepted(s, ops)
    ensures Agreed(Run(s, ops))
    decreases |ops|
  {
    if ops != [] {
      AgreesStep(s, ops);
    }
  }

  lemma {:induction false} AgreesStep(s: State, ops: seq<Op>)
    requires ops != [] && Agreed(s) && InitialisationsAccepted(s, ops)
    ensures Agreed(Run(s, ops))
    decreases |ops|, 0
  {
    var front, op := ops[..|ops| - 1], ops[|ops| - 1];
    AgreedParts(s);
    hide *;
    AcceptedPrefix(s, ops);
    RunAgrees(s, front);
    RunLast(s, ops);
    AgreedParts(Run(s, front));
    AgreedKept(Run(s, front), op, Run(s, ops));
  }

  lemma AgreedParts(s: State)
    requires Agreed(s)
    ensures Valid(s) && Distinct(s) && Mirror(s) && ChipMirror(s)
  {
  }

  lemma AgreedKept(s: State, op: Op, r: State)
    requires Agreed(s) && r == Exec(s, op)
    requires op.InitialZero? ==> AllAccepted(r.link, |s.link.log|)
    ensures Agreed(r)
  {
    hide Exec, Mirror, ChipMirror, SameShape;
    if op.InitialZero? {
      AcceptedKinds(r.link, |s.link.log|);
    }
    ExecMirror(s, op);
    ExecChip(s, op);
    ExecShape(s, op);
    ShapeKeepsDistinct(s, r);
  }

  /** An accepted `initAxes` establishes the agreement, in either mode. */
  lemma InitAxesAgrees(s: State)
    requires Valid(s) && Distinct(s)
    requires AllAccepted(InitAxes(s).link, |s.link.log|)
    ensures Agreed(InitAxes(s))
  {
    hide ConfigureAxes, FirstNode, Channel;
    var phase := if s.init then Preliminary else AsIs;
    var r := InitAxes(s);
    ConfigureShape(s, 0, phase);
    ShapeKeepsDistinct(s, r);
    forall j | 0 <= j < |s.axes| ensures MirrorsTree(r, j) && MirrorsChip(r, j) {
      ConfigureSettles(s, phase, j);
    }
  }

  // ----- connecting -----

  lemma ConnectSteps(s: State)
    requires Valid(s) && Distinct(s) && s.axes != []
    ensures var s1 := Send(Send(s, Identify), ChannelCount(MaxId(s.axes)));
      && Valid(s1) && Distinct(s1) && s1.axes == s.axes && s1.init == s.init
      && |s1.link.log| == |s.link.log| + 2
      && Extends(InitAxes(s1).link, Connect(s).link)
      && Connect(s).link.log[|InitAxes(s1).link.log|] == Event(Select(1), Answer(InitAxes(s1).link), InitAxes(s1).link.ctrl)
      && |Connect(s).link.log| == |InitAxes(s1).link.log| + 2
      && Connect(s).axes == InitAxes(s1).axes && Connect(s).nodes == InitAxes(s1).nodes && Connect(s).cur == InitAxes(s1).cur
      && (Answer(InitAxes(s1).link).Accepted? ==>
            Connect(s).link.ctrl == InitAxes(s1).link.ctrl.(selected := 1))
  {
    hide ConfigureAxes, InitAxes;
    var s1 := Send(Send(s, Identify), ChannelCount(MaxId(s.axes)));
    var r := InitAxes(s1);
    var c := Send(r, Select(1));
    assert Connect(s) == Send(c, JogOff).(connected := true);
  }

  /** After an accepted `connect` axis objects, tree and chip agree; but the board's current axis
      is the last one configured while the controller stands on channel 1, so the two agree
      exactly when the last axis is axis 1. */
  lemma ConnectAgrees(s: State)
    requires Valid(s) && Distinct(s) && s.axes != []
    requires AllAccepted(Connect(s).link, |s.link.log|)
    ensures Agreed(Connect(s))
    ensures Connect(s).link.ctrl.selected == 1
    ensures Connect(s).cur == Some(Connect(s).link.ctrl.selected) <==> s.axes[|s.axes| - 1].id == 1
  {
    ConnectSteps(s);
    var s1 := Send(Send(s, Identify), ChannelCount(MaxId(s.axes)));
    hide *;
    var i, r := InitAxes(s1), Connect(s);
    ConnectTail(s, s1, i, r);
  }

  lemma ConnectTail(s: State, s1: State, i: State, r: State)
    requires Valid(s1) && Distinct(s1) && s1.axes == s.axes && s.axes != []
    requires |s1.link.log| == |s.link.log| + 2
    requires i == InitAxes(s1) && Extends(i.link, r.link) && |r.link.log| == |i.link.log| + 2
    requires r.link.log[|i.link.log|] == Event(Select(1), Answer(i.link), i.link.ctrl)
    requires r.axes == i.axes && r.nodes == i.nodes && r.cur == i.cur
    requires Answer(i.link).Accepted? ==> r.link.ctrl == i.link.ctrl.(selected := 1)
    requires AllAccepted(r.link, |s.link.log|)
    ensures Agreed(r) && r.link.ctrl.selected == 1
    ensures r.cur == Some(r.link.ctrl.selected) <==> s.axes[|s.axes| - 1].id == 1
  {
    assert r.link.log[|i.link.log|].reply.Accepted? by { InitLonger(s1); }
    AcceptedEarlier(i.link, r.link, |s.link.log|);
    LaterAccepted(i.link, |s.link.log|, |s1.link.log|);
    InitAxesAgrees(s1);
    ConfigureChip(s1, 0, if s1.init then Preliminary else AsIs, 0);
    hide ConfigureAxes, FirstNode, Channel;
    forall j | 0 <= j < |r.axes| ensures MirrorsTree(r, j) && MirrorsChip(r, j) {
      assert MirrorsTree(i, j) && MirrorsChip(i, j);
      SameChannels(i.link.ctrl, r.link.ctrl, r.axes[j].id);
    }
  }

  lemma SameChannels(c: PM381, d: PM381, x: nat)
    requires d == c.(selected := 1)
    ensures Channel(d, x) == Channel(c, x)
  {
  }

  lemma InitLonger(s: State)
    requires Valid(s) && Distinct(s)
    ensures |InitAxes(s).link.log| >= |s.link.log|
  {
    ConfigureExtends(s, 0, if s.init then Preliminary else AsIs);
  }

  // ----- current axis and selected channel -----

  /** The board's current axis is the channel the controller stands on. */
  ghost predicate Aligned(s: State) {
    s.cur == Some(s.link.ctrl.selected)
  }

  lemma MoveAligned(s: State, p: map<nat, real>, relative: bool)
    requires Valid(s) && AllAccepted(MoveUser(s, p, relative).0.link, |s.link.log|)
    ensures Aligned(MoveUser(s, p, relative).0) <==> s.cur.Some?
  {
    hide ToBare, MoveBare, KeysInOrder;
    AcceptedMove(s, ToBare(s.axes, KeysInOrder(p), p, map[]), relative);
  }

  lemma ZeroAligned(s: State)
    requires Valid(s)
    ensures Aligned(SetZero(s)) <==> Aligned(s)
  {
    DefaultCovers(s);
    hide Merge, Scan, ZeroAxes;
    ZeroShape(ReadBare(s, DefaultBare(s.axes)).0, 0, ReadBare(s, DefaultBare(s.axes)).1);
  }

  lemma InitialAligned(s: State)
    requires Valid(s) && Distinct(s) && AllAccepted(SetInitialZero(s).0.link, |s.link.log|)
    ensures Aligned(SetInitialZero(s).0) <==> (s.init && s.axes != []) || Aligned(s)
  {
    var s1 := Send(s, QueryPositions);
    ConfigureAxesEnd(s1, Final);
    hide ConfigureAxes;
    if s.init && s.axes != [] {
      LaterAccepted(ConfigureAxes(s1, 0, Final).link, |s.link.log|, |s1.link.log|);
      assert Distinct(s1);
      ConfigureChip(s1, 0, Final, 0);
    }
  }

  lemma SelectAligned(s: State, id: nat)
    requires AllAccepted(SetAxisNum(s, id).link, |s.link.log|)
    ensures Aligned(SetAxisNum(s, id)) <==> Registered(s.axes, id)
  {
    assert SetAxisNum(s, id).link.log[|s.link.log|].reply == Answer(s.link);
  }

  /** An accepted select of an id that is no axis moves the channel there and leaves the board without a
      current axis. */
  lemma UnknownSelected(s: State, id: nat)
    requires !Registered(s.axes, id) && Answer(s.link).Accepted?
    ensures SetAxisNum(s, id).cur == None && SetAxisNum(s, id).link.ctrl.selected == id
  {
  }

  /** When an accepted operation leaves current axis and channel in agreement: a select does so for
      registered ids only; a move does so whenever there is a current axis, even if they disagreed
      before; initialisation always does; everything else leaves matters as they were. */
  lemma ExecAligned(s: State, op: Op)
    requires Valid(s) && Distinct(s) && AllAccepted(Exec(s, op).link, |s.link.log|)
    ensures Aligned(Exec(s, op)) <==>
      match op
      case MoveTo(_) => s.cur.Some?
      case MoveBy(_) => s.cur.Some?
      case SelectAxis(id) => Registered(s.axes, id)
      case InitialZero => (s.init && s.axes != []) || Aligned(s)
      case _ => Aligned(s)
  {
    match op
    case MoveTo(p) => MoveAligned(s, p, false);
    case MoveBy(p) => MoveAligned(s, p, true);
    case SelectAxis(id) => SelectAligned(s, id);
    case InitialZero => InitialAligned(s);
    case Zero => ZeroAligned(s);
    case SaveFile => SavedChip(s);
    case Jog(on) => JogHarmless(s, on);
    case Show => QueryIsHarmless(s);
    case ShowSteps => QueryIsHarmless(s);
  }

  // ----- zeroing -----

  /** The offset the latest zeroing fixed for an axis: its step count at the last `set zero`, 0 if
      an effective `initialzero` came later, the configured one without either. */
  function LatestOffset(s: State, ops: seq<Op>, j: nat): int
    requires Valid(s) && j < |s.axes|
    decreases |ops|
  {
    if ops == [] then s.axes[j].conv.offset
    else
      var before := Run(s, ops[..|ops| - 1]);
      match ops[|ops| - 1]
      case Zero => PositionOf(before.link.ctrl, s.axes[j].id)
      case InitialZero => if before.init then 0 else LatestOffset(s, ops[..|ops| - 1], j)
      case _ => LatestOffset(s, ops[..|ops| - 1], j)
  }

  lemma ZeroOffset(s: State, j: nat)
    requires Valid(s) && Distinct(s) && j < |s.axes| && FaithfulAnswer(s)
    ensures |SetZero(s).axes| == |s.axes|
    ensures SetZero(s).axes[j] == s.axes[j].(conv := s.axes[j].conv.(offset := PositionOf(s.link.ctrl, s.axes[j].id)))
  {
    DefaultCovers(s);
    ReadBareTruth(s, DefaultBare(s.axes));
    hide Merge, Scan, ZeroAxes, FirstNode, PositionOf;
    var (s1, bp) := ReadBare(s, DefaultBare(s.axes));
    assert Registered(s.axes, s.axes[j].id);
    assert Distinct(s1);
    ZeroEffect(s1, 0, bp, j);
  }

  lemma InitialOffset(s: State, j: nat)
    requires Valid(s) && Distinct(s) && Mirror(s) && s.init && j < |s.axes|
    requires SelectsAccepted(SetInitialZero(s).0.link, |s.link.log|)
    ensures |SetInitialZero(s).0.axes| == |s.axes|
    ensures SetInitialZero(s).0.axes[j].conv == s.axes[j].conv.(offset := 0)
  {
    hide ConfigureAxes, FirstNode;
    var s1 := Send(s, QueryPositions);
    assert Distinct(s1);
    ConfigureRecords(s1, 0, Final, j);
    assert MirrorsTree(s, j);
  }

  /** One step of the zeroing law. */
  lemma ExecOffset(s: State, op: Op, j: nat)
    requires Valid(s) && Distinct(s) && Mirror(s) && j < |s.axes|
    requires op.InitialZero? ==> SelectsAccepted(Exec(s, op).link, |s.link.log|)
    requires op.Zero? ==> FaithfulAnswer(s)
    ensures |Exec(s, op).axes| == |s.axes|
    ensures Exec(s, op).axes[j].conv == s.axes[j].conv.(offset :=
      match op
      case Zero => PositionOf(s.link.ctrl, s.axes[j].id)
      case InitialZero => if s.init then 0 else s.axes[j].conv.offset
      case _ => s.axes[j].conv.offset)
  {
    hide FirstNode, RunMoves, MoveUser, ReadUser, SetZero, SetInitialZero, SaveXml, PositionOf;
    match op
    case MoveTo(p) => MovedBoard(s, p, false);
    case MoveBy(p) => MovedBoard(s, p, true);
    case Zero => ZeroOffset(s, j);
    case SaveFile => SavedChip(s);
    case SelectAxis(id) =>
    case Jog(_) =>
    case Show => QueryIsHarmless(s);
    case ShowSteps =>
    case InitialZero =>
      RefusedInitialZero(s);
      if s.init {
        InitialOffset(s, j);
      }
  }

  /** Every `set zero` of the run got a faithful report. */
  ghost predicate ZeroesFaithful(s: State, ops: seq<Op>)
    requires Valid(s)
    decreases |ops|
  {
    ops != [] ==>
      && ZeroesFaithful(s, ops[..|ops| - 1])
      && (ops[|ops| - 1].Zero? ==> FaithfulAnswer(Run(s, ops[..|ops| - 1])))
  }

  lemma FaithfulPrefix(s: State, ops: seq<Op>)
    requires ops != [] && Valid(s) && ZeroesFaithful(s, ops)
    ensures ZeroesFaithful(s, ops[..|ops| - 1])
    ensures ops[|ops| - 1].Zero? ==> FaithfulAnswer(Run(s, ops[..|ops| - 1]))
  {
    hide Run, FaithfulAnswer;
  }

  /** What a run keeps of axis j. */
  ghost predicate OffsetKept(s: State, ops: seq<Op>, r: State, j: nat)
    requires Valid(s) && j < |s.axes|
  {
    && |r.axes| == |s.axes| && r.axes[j].id == s.axes[j].id
    && r.axes[j].conv == s.axes[j].conv.(offset := LatestOffset(s, ops, j))
    && Mirror(r) && Distinct(r)
  }

  /** What a run keeps of axis j's unit conversion: the factor always, the offset up to zeroings.
      Moves, axis selection, saving and reading may be rejected. */
  lemma {:induction false} OffsetLaw(s: State, ops: seq<Op>, j: nat)
    requires Valid(s) && Distinct(s) && Mirror(s) && j < |s.axes|
    requires InitialisationsSelected(s, ops) && ZeroesFaithful(s, ops)
    ensures OffsetKept(s, ops, Run(s, ops), j)
    decreases |ops|
  {
    if ops != [] {
      OffsetStep(s, ops, j);
    }
  }

  lemma {:induction false} OffsetStep(s: State, ops: seq<Op>, j: nat)
    requires ops != [] && Valid(s) && Distinct(s) && Mirror(s) && j < |s.axes|
    requires InitialisationsSelected(s, ops) && ZeroesFaithful(s, ops)
    ensures OffsetKept(s, ops, Run(s, ops), j)
    decreases |ops|, 0
  {
    hide *;
    var front, op := ops[..|ops| - 1], ops[|ops| - 1];
    SelectedPrefix(s, ops);
    FaithfulPrefix(s, ops);
    OffsetLaw(s, front, j);
    RunLast(s, ops);
    OffsetNext(s, ops, Run(s, front), Run(s, ops), j);
  }

  lemma OffsetNext(s: State, ops: seq<Op>, before: State, r: State, j: nat)
    requires ops != [] && Valid(s) && j < |s.axes|
    requires Valid(before) && before == Run(s, ops[..|ops| - 1]) && r == Exec(before, ops[|ops| - 1])
    requires OffsetKept(s, ops[..|ops| - 1], before, j)
    requires ops[|ops| - 1].InitialZero? ==> SelectsAccepted(r.link, |before.link.log|)
    requires ops[|ops| - 1].Zero? ==> FaithfulAnswer(before)
    ensures OffsetKept(s, ops, r, j)
  {
    hide Run, Exec, Mirror, SelectsAccepted, FaithfulAnswer, PositionOf;
    var op := ops[|ops| - 1];
    ExecOffset(before, op, j);
    ExecMirror(before, op);
    ExecShape(before, op);
    ShapeKeepsDistinct(before, r);
  }

  /** The zeroing law: after any run the display shows, for every axis, steps minus the offset its
      latest zeroing fixed, times its factor. */
  lemma DisplayLaw(s: State, ops: seq<Op>, j: nat)
    requires Valid(s) && Distinct(s) && Mirror(s) && j < |s.axes|
    requires InitialisationsSelected(s, ops) && ZeroesFaithful(s, ops)
    requires FaithfulAnswer(Run(s, ops))
    ensures s.axes[j].id in ReadUser(Run(s, ops)).1
    ensures ReadUser(Run(s, ops)).1[s.axes[j].id] ==
      ToUnits(PositionOf(Run(s, ops).link.ctrl, s.axes[j].id), s.axes[j].conv.factor, LatestOffset(s, ops, j))
  {
    OffsetLaw(s, ops, j);
    hide *;
    ReadUserTruth(Run(s, ops));
    ShownOffset(s, ops, Run(s, ops), j);
  }

  lemma ShownOffset(s: State, ops: seq<Op>, r: State, j: nat)
    requires Valid(s) && j < |s.axes| && OffsetKept(s, ops, r, j)
    ensures s.axes[j].id in Displayed(r)
    ensures Displayed(r)[s.axes[j].id] ==
      ToUnits(PositionOf(r.link.ctrl, s.axes[j].id), s.axes[j].conv.factor, LatestOffset(s, ops, j))
  {
    hide PositionOf, LatestOffset, ToUnits, Mirror, Valid, Run;
    FindByIndex(r.axes, j);
  }

  /** Right after `set zero` every axis shows exactly 0. */
  lemma ZeroShowsZero(s: State, j: nat)
    requires Valid(s) && Distinct(s) && j < |s.axes|
    requires FaithfulAnswer(s) && FaithfulAnswer(SetZero(s))
    ensures s.axes[j].id in ReadUser(SetZero(s)).1
    ensures ReadUser(SetZero(s)).1[s.axes[j].id] == 0.0
  {
    var z, id := SetZero(s), s.axes[j].id;
    ZeroFacts(s, j);
    hide *;
    ReadUserTruth(z);
    DisplayedAt(z, j);
  }

  /** Right after `set zero` every axis that an absolute move sends to 0, alone or among others, targets
      its current step count. */
  lemma ZeroTargetsHere(s: State, pos: map<nat, real>, j: nat)
    requires Valid(s) && Distinct(s) && j < |s.axes| && FaithfulAnswer(s)
    requires AllRegistered(s.axes, pos) && s.axes[j].id in pos && pos[s.axes[j].id] == 0.0
    ensures SoundFactors(SetZero(s).axes)
    ensures var bp := ToBare(SetZero(s).axes, KeysInOrder(pos), pos, map[]);
      s.axes[j].id in bp && bp[s.axes[j].id] == PositionOf(s.link.ctrl, s.axes[j].id)
  {
    ZeroFacts(s, j);
    SameRegistered(s.axes, SetZero(s).axes);
    hide SetZero, FaithfulAnswer, PositionOf, ToBare, KeysInOrder, RegisteredIds;
    var axes, id := SetZero(s).axes, s.axes[j].id;
    ToBareIsSteps(axes, pos);
    FindByIndex(axes, j);
    ZeroTargetsOffset(axes[j].conv.factor, axes[j].conv.offset);
  }

  lemma SameRegistered(a: seq<Axis>, b: seq<Axis>)
    requires SameAxisIds(a, b)
    ensures forall id :: Registered(a, id) <==> Registered(b, id)
  {
    forall id ensures Registered(a, id) <==> Registered(b, id) {
      if i :| 0 <= i < |a| && a[i].id == id {
        assert b[i].id == id;
      }
      if i :| 0 <= i < |b| && b[i].id == id {
        assert a[i].id == id;
      }
    }
  }

  lemma ZeroFacts(s: State, j: nat)
    requires Valid(s) && Distinct(s) && j < |s.axes| && FaithfulAnswer(s)
    ensures Valid(SetZero(s)) && SoundFactors(SetZero(s).axes) && DistinctIds(SetZero(s).axes)
    ensures |SetZero(s).axes| == |s.axes| && SetZero(s).axes[j].id == s.axes[j].id
    ensures SameAxisIds(s.axes, SetZero(s).axes)
    ensures SetZero(s).axes[j].conv.offset == PositionOf(s.link.ctrl, s.axes[j].id)
    ensures PositionOf(SetZero(s).link.ctrl, s.axes[j].id) == PositionOf(s.link.ctrl, s.axes[j].id)
  {
    ZeroOffset(s, j);
    ExecShape(s, Zero);
    ShapeKeepsDistinct(s, SetZero(s));
    ZeroKeepsLink(s);
  }

  lemma DisplayedAt(z: State, j: nat)
    requires DistinctIds(z.axes) && j < |z.axes|
    ensures z.axes[j].id in Displayed(z)
    ensures z.axes[j].conv.offset == PositionOf(z.link.ctrl, z.axes[j].id) ==> Displayed(z)[z.axes[j].id] == 0.0
  {
    FindByIndex(z.axes, j);
  }

  lemma ZeroKeepsLink(s: State)
    requires Valid(s)
    ensures SetZero(s).link.ctrl == s.link.ctrl
  {
    DefaultCovers(s);
    hide Merge, Scan, ZeroAxes;
    ZeroShape(ReadBare(s, DefaultBare(s.axes)).0, 0, ReadBare(s, DefaultBare(s.axes)).1);
  }

  lemma ZeroOffsetStored(s: State, j: nat)
    requires Valid(s) && Distinct(s) && j < |s.axes|
    ensures var bp := ReadBare(s, DefaultBare(s.axes)).1;
      && s.axes[j].id in bp && |SetZero(s).axes| == |s.axes|
      && SetZero(s).axes[j] == s.axes[j].(conv := s.axes[j].conv.(offset := bp[s.axes[j].id]))
  {
    DefaultCovers(s);
    hide Scan, ZeroAxes, FirstNode, Merge;
    var (s1, bp) := ReadBare(s, DefaultBare(s.axes));
    assert Distinct(s1);
    ZeroEffect(s1, 0, bp, j);
  }

  /** The offset `SetZero` gives an axis, whatever the buffer holds: the value of the last reading that
      names the axis, or 0 when none does. */
  lemma ZeroOffsetRead(s: State, j: nat)
    requires Valid(s) && Distinct(s) && j < |s.axes|
    ensures |SetZero(s).axes| == |s.axes|
    ensures var rs, id := Scan(BufferText(Answer(s.link))), s.axes[j].id;
      && (forall k :: LastFor(rs, k, id) ==> SetZero(s).axes[j] == s.axes[j].(conv := s.axes[j].conv.(offset := rs[k].value)))
      && ((forall k :: 0 <= k < |rs| ==> rs[k].id != id) ==>
            SetZero(s).axes[j] == s.axes[j].(conv := s.axes[j].conv.(offset := 0)))
  {
    ZeroOffsetStored(s, j);
    assert Registered(s.axes, s.axes[j].id);
    hide SetZero, Scan, Merge;
    var rs, ids, id := Scan(BufferText(Answer(s.link))), RegisteredIds(s.axes), s.axes[j].id;
    var bp := ReadBare(s, DefaultBare(s.axes)).1;
    assert bp == Merge(DefaultBare(s.axes), rs, ids);
    if forall k :: 0 <= k < |rs| ==> rs[k].id != id {
      MergeKeeps(DefaultBare(s.axes), rs, ids, id);
    }
    forall k | LastFor(rs, k, id) ensures bp[id] == rs[k].value {
      MergeStores(DefaultBare(s.axes), rs, ids, k, id);
    }
  }

  lemma {:induction false} SomeLast(rs: seq<Reading>, k: nat, x: nat)
    requires k < |rs| && rs[k].id == x
    ensures exists i :: LastFor(rs, i, x)
    decreases |rs| - k
  {
    if i :| k < i < |rs| && rs[i].id == x {
      SomeLast(rs, i, x);
    } else {
      assert LastFor(rs, k, x);
    }
  }

  /** The last reading that names the axis has its true step count, or no reading names it and its
      true step count is 0. */
  ghost predicate Reported(rs: seq<Reading>, c: PM381, id: nat) {
    || (exists k :: LastFor(rs, k, id) && rs[k].value == PositionOf(c, id))
    || ((forall k :: 0 <= k < |rs| ==> rs[k].id != id) && PositionOf(c, id) == 0)
  }

  /** `SetZero` does not check whether the positions could be read. It gives an axis its true step
      count as offset exactly when the buffer reports that axis truthfully, or leaves it out while it
      stands at 0. */
  lemma ZeroOffsetExactly(s: State, j: nat)
    requires Valid(s) && Distinct(s) && j < |s.axes|
    ensures |SetZero(s).axes| == |s.axes|
    ensures SetZero(s).axes[j].conv.offset == PositionOf(s.link.ctrl, s.axes[j].id) <==>
      Reported(Scan(BufferText(Answer(s.link))), s.link.ctrl, s.axes[j].id)
  {
    ZeroOffsetRead(s, j);
    hide SetZero, Scan, PositionOf;
    var rs, id := Scan(BufferText(Answer(s.link))), s.axes[j].id;
    if k :| 0 <= k < |rs| && rs[k].id == id {
      SomeLast(rs, k, id);
      var i :| LastFor(rs, i, id);
      OnlyLast(rs, i, id);
    }
  }

  lemma OnlyLast(rs: seq<Reading>, i: nat, x: nat)
    requires LastFor(rs, i, x)
    ensures forall k :: LastFor(rs, k, x) ==> k == i
  {
  }

  /** In particular, when the buffer holds no reading at all, every axis gets the offset 0. */
  lemma ZeroWithoutReport(s: State, j: nat)
    requires Valid(s) && Distinct(s) && j < |s.axes|
    requires Scan(BufferText(Answer(s.link))) == []
    ensures |SetZero(s).axes| == |s.axes|
    ensures SetZero(s).axes[j] == s.axes[j].(conv := s.axes[j].conv.(offset := 0))
  {
    ZeroOffsetRead(s, j);
    hide SetZero, Scan;
  }

  // ----- initialisation -----

  ghost predicate NonNegative(p: InitParameters) {
    p.rangeFac >= 0.0 && p.constForwardSoftLimit >= 0.0 && p.constBackwardSoftLimit >= 0.0
  }

  /** Two limits u and -u are the given part of an axis of so many half turns, 200 steps each, to within
      one step on either side. */
  ghost predicate SpansRange(lower: int, upper: int, rangeFac: real, halfTurns: nat) {
    && lower == -upper
    && (2 * upper) as real <= rangeFac * halfTurns as real * 200.0 < (2 * upper + 2) as real
  }

  /** An integer obtained by dropping the fraction. */
  ghost predicate Truncates(i: int, r: real) {
    Abs(i as real - r) < 1.0 && Abs(i as real) <= Abs(r)
  }

  /** The final limits of an axis: the range factor decides, and without one the two constants, forward
      for the upper and backward for the lower limit. */
  ghost predicate FinalRange(v: Settings, p: InitParameters) {
    if p.rangeFac != 0.0 then SpansRange(v.lowerLimit, v.upperLimit, p.rangeFac, p.halfAxisTurns)
    else Truncates(v.upperLimit, p.constForwardSoftLimit) && Truncates(v.lowerLimit, -p.constBackwardSoftLimit)
  }

  lemma SoftLimitSpans(rangeFac: real, halfTurns: nat)
    ensures SpansRange(-SoftLimit(rangeFac, halfTurns), SoftLimit(rangeFac, halfTurns), rangeFac, halfTurns)
    ensures rangeFac >= 0.0 ==> SoftLimit(rangeFac, halfTurns) >= 0
  {
    var u, t := SoftLimit(rangeFac, halfTurns), halfTurns as real;
    assert rangeFac / 2.0 * t * 2.0 == rangeFac * t;
    assert rangeFac / 2.0 * t * 200.0 * 2.0 == rangeFac * t * 200.0;
  }

  /** Only position, zero offset and the two limits of a node differ from before. */
  ghost predicate OnlyReset(before: Node, after: Node) {
    && after.settings == before.settings.(position := 0, lowerLimit := after.settings.lowerLimit, upperLimit := after.settings.upperLimit)
    && after == before.(settings := after.settings, conv := before.conv.(offset := 0))
  }

  /** Final soft limits are those of the configured range or constants; they enclose 0, and are symmetric
      exactly when a range factor is given or the two constants have the same integer part. */
  lemma FinalLimits(n: Node)
    ensures OnlyReset(n, FinalNode(n)) && FinalRange(FinalNode(n).settings, n.init)
    ensures NonNegative(n.init) ==> FinalNode(n).settings.lowerLimit <= 0 <= FinalNode(n).settings.upperLimit
    ensures FinalNode(n).settings.lowerLimit == -FinalNode(n).settings.upperLimit <==>
      n.init.rangeFac != 0.0 || Trunc(n.init.constForwardSoftLimit) == Trunc(n.init.constBackwardSoftLimit)
  {
    hide SoftLimit, SpansRange;
    SoftLimitSpans(n.init.rangeFac, n.init.halfAxisTurns);
    TruncWithinOne(n.init.constForwardSoftLimit);
    TruncWithinOne(-n.init.constBackwardSoftLimit);
  }

  /** Preliminary soft limits are the preliminary part of the range. */
  lemma PreliminaryLimits(n: Node)
    ensures OnlyReset(n, PreliminaryNode(n))
    ensures SpansRange(PreliminaryNode(n).settings.lowerLimit, PreliminaryNode(n).settings.upperLimit,
                       n.init.preRangeFac, n.init.halfAxisTurns)
  {
    hide SoftLimit, SpansRange;
    SoftLimitSpans(n.init.preRangeFac, n.init.halfAxisTurns);
  }

  /** After an accepted `SetInitialZero` every axis, its tree node and its channel agree, the channel's
      position register is 0, its limits are those of the configured range or constants and enclose 0,
      and 0 steps show as 0 units. */
  lemma InitialisationDone(s: State, j: nat)
    requires Valid(s) && Distinct(s) && s.init && j < |s.axes|
    requires AllAccepted(SetInitialZero(s).0.link, |s.link.log|)
    ensures var r, n, c := SetInitialZero(s).0, FirstNode(s.nodes, s.axes[j].id), Channel(SetInitialZero(s).0.link.ctrl, s.axes[j].id);
      && SetInitialZero(s).1 == 0 && !r.init && |r.axes| == |s.axes| && r.axes[j].id == s.axes[j].id
      && AllListed(r.nodes, r.axes) && Settled(r, j) && OnlyReset(n, FirstNode(r.nodes, s.axes[j].id))
      && c.position == 0 && FinalRange(c, n.init) && (NonNegative(n.init) ==> c.lowerLimit <= 0 <= c.upperLimit)
      && r.axes[j].conv.offset == 0
  {
    InitialChip(s, j);
    FinalLimits(FirstNode(s.nodes, s.axes[j].id));
    hide ConfigureAxes, FirstNode, FinalNode, Channel, FinalRange, NonNegative;
  }

  /** The board is in initialisation mode exactly as long as it started in it and no
      `initialzero` was issued; it can never be entered again. */
  lemma {:induction false} InitModeOnce(s: State, ops: seq<Op>)
    requires Valid(s)
    ensures Run(s, ops).init <==> s.init && InitialZero !in ops
    decreases |ops|
  {
    if ops != [] {
      InitModeStep(s, ops);
    }
  }

  lemma {:induction false} InitModeStep(s: State, ops: seq<Op>)
    requires Valid(s) && ops != []
    ensures Run(s, ops).init <==> s.init && InitialZero !in ops
    decreases |ops|, 0
  {
    hide *;
    var front, op := ops[..|ops| - 1], ops[|ops| - 1];
    RunLast(s, ops);
    InitModeOnce(s, front);
    ExecInit(Run(s, front), op);
    assert ops == front + [op];
  }

  lemma RunLast(s: State, ops: seq<Op>)
    requires Valid(s) && ops != []
    ensures Run(s, ops) == Exec(Run(s, ops[..|ops| - 1]), ops[|ops| - 1])
  {
    hide Exec;
  }

  lemma ExecInit(s: State, op: Op)
    requires Valid(s)
    ensures Exec(s, op).init <==> s.init && op != InitialZero
  {
    hide FirstNode, RunMoves, MoveUser, ReadUser, ZeroAxes, ConfigureAxes, SavePositions, Merge, Scan;
    match op
    case MoveTo(p) => MovedBoard(s, p, false);
    case MoveBy(p) => MovedBoard(s, p, true);
    case Zero =>
      DefaultCovers(s);
      ZeroShape(ReadBare(s, DefaultBare(s.axes)).0, 0, ReadBare(s, DefaultBare(s.axes)).1);
    case SaveFile =>
    case SelectAxis(id) =>
    case Jog(_) =>
    case Show => QueryIsHarmless(s);
    case ShowSteps =>
    case InitialZero =>
  }
}
