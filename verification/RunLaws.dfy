/** Whole runs of board operations: which agreements every step keeps, what the display shows after
    any number of zeroings, and what initialisation leaves behind. */
module RunLaws {
  import opened Basics
  import opened Units
  import opened Report
  import opened Controller
  import opened Config
  import opened BoardSpec
  import opened MoveLaws
  import opened ReadLaws
  import opened MirrorLaws

  /** The operations the server offers on a connected board; commands passed through to the controller
      are the only ones missing. */
  datatype Op =
    | MoveTo(target: map<nat, real>)
    | MoveBy(delta: map<nat, real>)
    | Zero
    | InitialZero
    | SaveFile
    | SelectAxis(id: nat)
    | Jog(on: bool)
    | Show
    | ShowSteps

  function Exec(s: State, op: Op): (r: State)
    requires Valid(s)
  {
    match op
    case MoveTo(p) => MoveUser(s, p, false).0
    case MoveBy(p) => MoveUser(s, p, true).0
    case Zero => SetZero(s)
    case InitialZero => SetInitialZero(s).0
    case SaveFile => SaveXml(s)
    case SelectAxis(id) => SetAxisNum(s, id)
    case Jog(on) => Send(s, if on then JogOn else JogOff)
    case Show => ReadUser(s).0
    case ShowSteps => ReadBare(s, DefaultBare(s.axes)).0
  }

  // ----- the configuration stays usable -----

  /** Same axes, same tree shape, same unit factors in the tree. */
  ghost predicate SameShape(s: State, r: State) {
    && SameAxisIds(s.axes, r.axes)
    && |r.nodes| == |s.nodes|
    && (forall i :: 0 <= i < |s.nodes| ==> r.nodes[i].id == s.nodes[i].id)
    && (forall i :: 0 <= i < |s.nodes| ==> r.nodes[i].conv.factor == s.nodes[i].conv.factor)
  }

  lemma ShapeKeepsDistinct(s: State, r: State)
    requires SameShape(s, r)
    ensures AllListed(s.nodes, s.axes) ==> AllListed(r.nodes, r.axes)
    ensures Distinct(s) ==> Distinct(r)
  {
    if AllListed(s.nodes, s.axes) {
      ListedKept(s.nodes, r.nodes, s.axes, r.axes);
    }
  }

  lemma PreparedShape(nodes: seq<Node>, id: nat, phase: Phase)
    ensures forall i :: 0 <= i < |nodes| ==> Prepared(nodes, id, phase)[i].conv.factor == nodes[i].conv.factor
  {
    hide GetLast, SoftLimit, UpperSoftLimit, LowerSoftLimit;
  }

  lemma UpdateShape(s: State, i: nat)
    requires i < |s.axes| && Valid(s)
    ensures SameShape(s, UpdateConfiguration(s, i)) && Valid(UpdateConfiguration(s, i))
  {
    UpdateRecords(s, i);
    var r := UpdateConfiguration(s, i);
    ListedKept(s.nodes, r.nodes, s.axes, r.axes);
    var n := FirstNode(s.nodes, s.axes[i].id);
    assert n in s.nodes;
  }

  lemma RoundShape(s: State, i: nat, phase: Phase)
    requires i < |s.axes| && Valid(s)
    ensures SameShape(s, ConfigureAxis(s, i, phase)) && Valid(ConfigureAxis(s, i, phase))
  {
    var s1 := s.(nodes := Prepared(s.nodes, s.axes[i].id, phase));
    PreparedShape(s.nodes, s.axes[i].id, phase);
    ListedKept(s.nodes, s1.nodes, s.axes, s.axes);
    UpdateShape(s1, i);
  }

  lemma ShapeTransitive(a: State, b: State, c: State)
    requires SameShape(a, b) && SameShape(b, c)
    ensures SameShape(a, c)
  {
  }

  lemma {:induction false} ConfigureShape(s: State, i: nat, phase: Phase)
    requires i <= |s.axes| && Valid(s)
    ensures SameShape(s, ConfigureAxes(s, i, phase)) && Valid(ConfigureAxes(s, i, phase))
    decreases |s.axes| - i, 1
  {
    if i < |s.axes| {
      ShapeFrom(s, i, phase);
    }
  }

  lemma ValidParts(s: State)
    requires Valid(s)
    ensures SoundFactors(s.axes) && AllListed(s.nodes, s.axes)
  {
  }

  lemma {:induction false} ShapeFrom(s: State, i: nat, phase: Phase)
    requires i < |s.axes| && Valid(s)
    ensures AllListed(s.nodes, s.axes)
    ensures SameShape(s, ConfigureAxes(s, i, phase)) && Valid(ConfigureAxes(s, i, phase))
    decreases |s.axes| - i, 0
  {
    hide *;
    ValidParts(s);
    ConfigureAxesStep(s, i, phase);
    var t := ConfigureAxis(s, i, phase);
    RoundShape(s, i, phase);
    ConfigureShape(t, i + 1, phase);
    ShapeTransitive(s, t, ConfigureAxes(t, i + 1, phase));
  }

  lemma ZeroRoundShape(s: State, i: nat, bp: map<nat, int>)
    requires i < |s.axes| && Valid(s) && Covers(s.axes, bp)
    ensures SameShape(s, ZeroAxis(s, i, bp)) && Valid(ZeroAxis(s, i, bp))
  {
    var t := ZeroAxis(s, i, bp);
    ListedKept(s.nodes, t.nodes, s.axes, t.axes);
  }

  lemma {:induction false} ZeroShape(s: State, i: nat, bp: map<nat, int>)
    requires i <= |s.axes| && Valid(s) && Covers(s.axes, bp)
    ensures SameShape(s, ZeroAxes(s, i, bp)) && Valid(ZeroAxes(s, i, bp))
    ensures ZeroAxes(s, i, bp).link == s.link && ZeroAxes(s, i, bp).init == s.init && ZeroAxes(s, i, bp).cur == s.cur
    decreases |s.axes| - i
  {
    if i < |s.axes| {
      var t := ZeroAxis(s, i, bp);
      ZeroRoundShape(s, i, bp);
      ZeroShape(t, i + 1, bp);
      ShapeTransitive(s, t, ZeroAxes(t, i + 1, bp));
    }
  }

  lemma {:induction false} SaveShape(nodes: seq<Node>, ids: seq<nat>, bp: map<nat, int>)
    requires AllIn(ids, bp)
    ensures var r := SavePositions(nodes, ids, bp);
      |r| == |nodes| && forall i :: 0 <= i < |nodes| ==> r[i].id == nodes[i].id && r[i].conv == nodes[i].conv
    decreases |ids|
  {
    if ids != [] {
      SaveShape(PutAll(nodes, ids[0], PositionElement, bp[ids[0]]), ids[1..], bp);
    }
  }

  lemma SendShape(s: State, cmd: Command)
    ensures SameShape(s, Send(s, cmd))
    ensures Valid(s) ==> Valid(Send(s, cmd))
  {
  }

  /** No operation changes which axes there are, the shape of the tree or a unit factor in it. */
  lemma ExecShape(s: State, op: Op)
    requires Valid(s)
    ensures SameShape(s, Exec(s, op)) && Valid(Exec(s, op))
  {
    SendShape(s, QueryPositions);
    match op
    case MoveTo(p) => MoveShapeKept(s, p, false);
    case MoveBy(p) => MoveShapeKept(s, p, true);
    case Zero =>
      var (s1, bp) := ReadBare(s, DefaultBare(s.axes));
      DefaultCovers(s);
      ZeroShape(s1, 0, bp);
      ShapeTransitive(s, s1, SetZero(s));
    case InitialZero =>
      if s.init {
        var s1 := Send(s, QueryPositions);
        ConfigureShape(s1, 0, Final);
        ShapeTransitive(s, s1, ConfigureAxes(s1, 0, Final));
      }
    case SaveFile =>
      var (s1, bp) := ReadBare(s, map[]);
      SaveShape(s1.nodes, KeysInOrder(bp), bp);
      ListedKept(s.nodes, SaveXml(s).nodes, s.axes, s.axes);
    case SelectAxis(id) => SendShape(s, Select(id));
    case Jog(on) => SendShape(s, if on then JogOn else JogOff);
    case Show =>
    case ShowSteps =>
  }

  lemma MoveShapeKept(s: State, p: map<nat, real>, relative: bool)
    requires Valid(s)
    ensures SameShape(s, MoveUser(s, p, relative).0) && Valid(MoveUser(s, p, relative).0)
  {
    hide RunMoves, ToBare;
    MoveLog(s, ToBare(s.axes, KeysInOrder(p), p, map[]), relative);
  }

  // ----- runs -----

  function Run(s: State, ops: seq<Op>): (r: State)
    requires Valid(s)
    ensures Valid(r)
  {
    if ops == [] then s
    else
      var before := Run(s, ops[..|ops| - 1]);
      ExecShape(before, ops[|ops| - 1]);
      Exec(before, ops[|ops| - 1])
  }

  // ----- what each operation does to the agreement -----

  /** Zeroing gives every axis from i on its read position as offset, in object and tree alike. */
  ghost predicate Zeroed(s: State, r: State, i: nat, bp: map<nat, int>, j: nat)
    requires j < |s.axes| && Distinct(s) && Covers(s.axes, bp)
  {
    var id := s.axes[j].id;
    && Distinct(r) && SameAxisIds(s.axes, r.axes)
    && r.axes[j] == (if j >= i then s.axes[j].(conv := s.axes[j].conv.(offset := bp[id])) else s.axes[j])
    && FirstNode(r.nodes, id) ==
         (if j >= i then Put(FirstNode(s.nodes, id), OffsetElement, bp[id]) else FirstNode(s.nodes, id))
  }

  /** One round, seen from axis j. */
  ghost predicate ZeroRounded(s: State, t: State, i: nat, bp: map<nat, int>, j: nat)
    requires j < |s.axes| && Distinct(s) && Covers(s.axes, bp)
  {
    var id := s.axes[j].id;
    && Distinct(t) && SameAxisIds(s.axes, t.axes) && Covers(t.axes, bp)
    && t.axes[j] == (if j == i then s.axes[j].(conv := s.axes[j].conv.(offset := bp[id])) else s.axes[j])
    && FirstNode(t.nodes, id) == (if j == i then Put(FirstNode(s.nodes, id), OffsetElement, bp[id]) else FirstNode(s.nodes, id))
  }

  lemma ZeroRound(s: State, i: nat, bp: map<nat, int>, j: nat)
    requires i < |s.axes| && j < |s.axes| && Distinct(s) && Covers(s.axes, bp)
    ensures ZeroRounded(s, ZeroAxis(s, i, bp), i, bp, j)
  {
    hide FirstNode;
    var t := ZeroAxis(s, i, bp);
    ListedKept(s.nodes, t.nodes, s.axes, t.axes);
    DistinctKept(s.nodes, t.nodes);
    PutThenFirst(s.nodes, s.axes[i].id, OffsetElement, bp[s.axes[i].id], s.axes[j].id);
  }

  lemma ZeroedAfterRound(s: State, t: State, r: State, i: nat, bp: map<nat, int>, j: nat)
    requires j < |s.axes| && Distinct(s) && Covers(s.axes, bp) && ZeroRounded(s, t, i, bp, j)
    requires Zeroed(t, r, i + 1, bp, j)
    ensures Zeroed(s, r, i, bp, j)
  {
    hide FirstNode, Put;
  }

  lemma ZeroRoundBasics(s: State, t: State, i: nat, bp: map<nat, int>, j: nat)
    requires j < |s.axes| && Distinct(s) && Covers(s.axes, bp) && ZeroRounded(s, t, i, bp, j)
    ensures Distinct(t) && |t.axes| == |s.axes| && Covers(t.axes, bp)
  {
  }

  lemma {:induction false} ZeroEffect(s: State, i: nat, bp: map<nat, int>, j: nat)
    requires i <= |s.axes| && j < |s.axes| && Distinct(s) && Covers(s.axes, bp)
    ensures Zeroed(s, ZeroAxes(s, i, bp), i, bp, j)
    decreases |s.axes| - i, 1
  {
    if i < |s.axes| {
      ZeroEffectFrom(s, i, bp, j);
    }
  }

  lemma {:induction false} ZeroEffectFrom(s: State, i: nat, bp: map<nat, int>, j: nat)
    requires i < |s.axes| && j < |s.axes| && Distinct(s) && Covers(s.axes, bp)
    ensures Zeroed(s, ZeroAxes(s, i, bp), i, bp, j)
    decreases |s.axes| - i, 0
  {
    hide *;
    ZeroAxesStep(s, i, bp);
    var t := ZeroAxis(s, i, bp);
    ZeroRound(s, i, bp, j);
    ZeroRoundBasics(s, t, i, bp, j);
    ZeroEffect(t, i + 1, bp, j);
    ZeroedAfterRound(s, t, ZeroAxes(t, i + 1, bp), i, bp, j);
  }

  /** `savexml` stores the reported positions and nothing else. */
  lemma {:induction false} SaveEffect(nodes: seq<Node>, ids: seq<nat>, bp: map<nat, int>, x: nat)
    requires Increasing(ids) && AllIn(ids, bp) && Listed(nodes, x)
    ensures Listed(SavePositions(nodes, ids, bp), x)
    ensures x in ids ==> x in bp
    ensures FirstNode(SavePositions(nodes, ids, bp), x) ==
      if x in ids then Put(FirstNode(nodes, x), PositionElement, bp[x]) else FirstNode(nodes, x)
    decreases |ids|
  {
    if ids != [] {
      PutThenFirst(nodes, ids[0], PositionElement, bp[ids[0]], x);
      SaveEffect(PutAll(nodes, ids[0], PositionElement, bp[ids[0]]), ids[1..], bp, x);
      assert x in ids <==> x == ids[0] || x in ids[1..];
      assert ids[0] !in ids[1..];
    }
  }

  /** A move, accepted or not, never touches a parameter register. */
  lemma {:induction false} MovesKeepParameters(s: State, ids: seq<nat>, bp: map<nat, int>, relative: bool, x: nat)
    requires AllIn(ids, bp)
    ensures Parameters(Channel(RunMoves(s, ids, bp, relative).0.link.ctrl, x)) == Parameters(Channel(s.link.ctrl, x))
    decreases |ids|
  {
    if ids != [] {
      FirstMoveLog(s, ids, bp, relative);
      var t := FirstMove(s, ids, bp, relative);
      SelectKeepsChannels(s, ids[0], x);
      MoveKeepsParameters(SaveSetAxisNum(s, ids[0]), MoveCommand(relative, bp[ids[0]]), x);
      MovesKeepParameters(t, ids[1..], bp, relative, x);
    }
  }

  lemma SelectKeepsChannels(s: State, id: nat, x: nat)
    ensures Channel(SaveSetAxisNum(s, id).link.ctrl, x) == Channel(s.link.ctrl, x)
    ensures Channel(SetAxisNum(s, id).link.ctrl, x) == Channel(s.link.ctrl, x)
  {
  }

  lemma MoveKeepsParameters(s: State, cmd: Command, x: nat)
    requires cmd.MoveAbs? || cmd.MoveRel?
    ensures Parameters(Channel(Send(s, cmd).link.ctrl, x)) == Parameters(Channel(s.link.ctrl, x))
  {
  }

  lemma MoveUserKeepsParameters(s: State, p: map<nat, real>, relative: bool, x: nat)
    requires Valid(s)
    ensures Parameters(Channel(MoveUser(s, p, relative).0.link.ctrl, x)) == Parameters(Channel(s.link.ctrl, x))
  {
    hide RunMoves, ToBare, Parameters, Channel;
    var bp := ToBare(s.axes, KeysInOrder(p), p, map[]);
    MovesKeepParameters(SaveEnvironment(s), KeysInOrder(bp), bp, relative, x);
    var t := RunMoves(SaveEnvironment(s), KeysInOrder(bp), bp, relative).0;
    SelectKeepsChannels(t, t.env, x);
  }
}
