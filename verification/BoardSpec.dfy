/** The board software as functions on its state: the specification the methods of `IAPBoard`
    are proved against (src/core/IAPBoard.cpp). */
module BoardSpec {
  import opened Basics
  import opened Report
  import opened Controller
  import opened Config
  import opened Units

  datatype Axis = Axis(id: nat, desc: string, settings: Settings, conv: UnitConversion)

  /** `cur` is the id behind `curaxis`, `saved` the one behind `save_curaxis`, `env` is
      `envion.axis_id`. */
  datatype State = State(
    init: bool, connected: bool, link: Link, nodes: seq<Node>, axes: seq<Axis>,
    cur: Option<nat>, saved: Option<nat>, env: nat, err: string)

  // ----- axes -----

  ghost predicate Registered(axes: seq<Axis>, id: nat) {
    exists i :: 0 <= i < |axes| && axes[i].id == id
  }

  function RegisteredIds(axes: seq<Axis>): (ids: set<nat>)
    ensures forall id :: id in ids <==> Registered(axes, id)
  {
    set i | 0 <= i < |axes| :: axes[i].id
  }

  /** `getAxis`: the first axis with this id. */
  function FindAxis(axes: seq<Axis>, id: nat): (a: Axis)
    requires Registered(axes, id)
    ensures a in axes && a.id == id
  {
    if axes[0].id == id then axes[0] else FindAxis(axes[1..], id)
  }

  ghost predicate SoundFactors(axes: seq<Axis>) {
    forall i :: 0 <= i < |axes| ==> axes[i].conv.factor != 0.0
  }

  /** What the configuration file must provide: a node for every axis, and factors that can be
      divided by. */
  ghost predicate Valid(s: State) {
    && SoundFactors(s.axes)
    && (forall i :: 0 <= i < |s.nodes| ==> s.nodes[i].conv.factor != 0.0)
    && AllListed(s.nodes, s.axes)
  }

  ghost predicate DistinctIds(axes: seq<Axis>) {
    forall i, j :: 0 <= i < j < |axes| ==> axes[i].id != axes[j].id
  }

  lemma {:induction false} FindByIndex(axes: seq<Axis>, j: nat)
    requires DistinctIds(axes) && j < |axes|
    ensures Registered(axes, axes[j].id) && FindAxis(axes, axes[j].id) == axes[j]
    decreases |axes|
  {
    if j > 0 {
      assert axes[1..][j - 1] == axes[j];
      FindByIndex(axes[1..], j - 1);
    }
  }

  /** With repeated ids the first axis decides. */
  lemma {:induction false} FindFirst(axes: seq<Axis>, j: nat)
    requires j < |axes| && forall k :: 0 <= k < j ==> axes[k].id != axes[j].id
    ensures Registered(axes, axes[j].id) && FindAxis(axes, axes[j].id) == axes[j]
    decreases |axes|
  {
    if j > 0 {
      assert axes[1..][j - 1] == axes[j];
      FindFirst(axes[1..], j - 1);
    }
  }

  /** `Axis::parse_vars`: every field but the id and the descriptor is read from the tree. */
  function Parsed(a: Axis, n: Node): Axis {
    a.(settings := n.settings, conv := n.conv)
  }

  // ----- a new board -----

  /** The axes the constructor builds: one per node, each parsed from the first node with its id. */
  function AxesOf(nodes: seq<Node>): (axes: seq<Axis>)
    ensures |axes| == |nodes|
  {
    seq(|nodes|, i requires 0 <= i < |nodes| =>
      assert Listed(nodes, nodes[i].id);
      var n := FirstNode(nodes, nodes[i].id);
      Axis(nodes[i].id, nodes[i].desc, n.settings, n.conv))
  }

  function Fresh(nodes: seq<Node>, link: Link, initialize: bool): State {
    State(initialize, false, link, nodes, AxesOf(nodes), None, None, 0, "")
  }

  // ----- commands -----

  /** `send_command`: an error reply is remembered, anything else is not. */
  function Send(s: State, cmd: Command): State {
    var r := Answer(s.link);
    s.(link := Transmit(s.link, cmd), err := if r.Rejected? then r.text else s.err)
  }

  function KnownAxis(axes: seq<Axis>, id: nat): Option<nat> {
    if id in RegisteredIds(axes) then Some(id) else None
  }

  /** `setaxisnum`: an unknown id is reported on the console only; the command is sent anyway. */
  function SetAxisNum(s: State, id: nat): State {
    var s' := Send(s, Select(id));
    if Answer(s.link).Accepted? then s'.(cur := KnownAxis(s.axes, id)) else s'
  }

  function SaveSetAxisNum(s: State, id: nat): State {
    var s' := Send(s, Select(id));
    if Answer(s.link).Accepted? then s'.(saved := KnownAxis(s.axes, id)) else s'
  }

  function SaveEnvironment(s: State): State {
    if s.cur.Some? then s.(env := s.cur.value) else s
  }

  function RestoreEnvironment(s: State): State {
    SaveSetAxisNum(s, s.env)
  }

  function MoveCommand(relative: bool, v: int): Command {
    if relative then MoveRel(v) else MoveAbs(v)
  }

  // ----- moves -----

  /** The ids of a position in the order its iterators visit them. */
  function KeysInOrder<T>(m: map<nat, T>): (ids: seq<nat>)
    ensures Increasing(ids) && (forall x :: x in ids <==> x in m) && |ids| == |m|
    ensures AllIn(ids, m)
  {
    SortedIdsSpec(m.Keys);
    var ids := SortedIds(m.Keys);
    assert forall k :: 0 <= k < |ids| ==> ids[k] in ids;
    ids
  }

  /** The body of both move loops over a position map, in increasing id order. */
  function RunMoves(s: State, ids: seq<nat>, bp: map<nat, int>, relative: bool): (State, int)
    requires AllIn(ids, bp)
    decreases |ids|
  {
    if ids == [] then (s, 0)
    else
      var s1 := SaveSetAxisNum(s, ids[0]);
      var s2 := Send(s1, MoveCommand(relative, bp[ids[0]]));
      var ret := Code(Answer(s1.link));
      if ret < 0 then (s2, ret) else RunMoves(s2, ids[1..], bp, relative)
  }

  function MoveBare(s: State, bp: map<nat, int>, relative: bool): (State, int) {
    var (s', ret) := RunMoves(SaveEnvironment(s), KeysInOrder(bp), bp, relative);
    (RestoreEnvironment(s'), ret)
  }

  // ----- unit conversion of whole positions -----

  /** `conv2bareposition`: gives up at the first id that is not registered. */
  function ToBare(axes: seq<Axis>, ids: seq<nat>, pos: map<nat, real>, ret: map<nat, int>): map<nat, int>
    requires SoundFactors(axes)
    requires AllIn(ids, pos)
    decreases |ids|
  {
    if ids == [] || ids[0] !in RegisteredIds(axes) then ret
    else
      var conv := FindAxis(axes, ids[0]).conv;
      ToBare(axes, ids[1..], pos, ret[ids[0] := ToSteps(pos[ids[0]], conv.factor, conv.offset)])
  }

  /** `conv2postion`. */
  function ToUser(axes: seq<Axis>, ids: seq<nat>, bpos: map<nat, int>, ret: map<nat, real>): map<nat, real>
    requires AllIn(ids, bpos)
    decreases |ids|
  {
    if ids == [] || ids[0] !in RegisteredIds(axes) then ret
    else
      var conv := FindAxis(axes, ids[0]).conv;
      ToUser(axes, ids[1..], bpos, ret[ids[0] := ToUnits(bpos[ids[0]], conv.factor, conv.offset)])
  }

  /** `move_to` / `move_rel` in user units: the relative form converts its distances with the very
      same function. */
  function MoveUser(s: State, pos: map<nat, real>, relative: bool): (State, int)
    requires SoundFactors(s.axes)
  {
    MoveBare(s, ToBare(s.axes, KeysInOrder(pos), pos, map[]), relative)
  }

  // ----- reading positions -----

  function ReadBare(s: State, bp: map<nat, int>): (State, map<nat, int>) {
    (Send(s, QueryPositions), Merge(bp, Scan(BufferText(Answer(s.link))), RegisteredIds(s.axes)))
  }

  /** `createBarePosition`: all registered axes at 0. */
  function DefaultBare(axes: seq<Axis>): map<nat, int> {
    map id | id in RegisteredIds(axes) :: 0
  }

  function DefaultUser(axes: seq<Axis>): map<nat, real> {
    map id | id in RegisteredIds(axes) :: 0.0
  }

  function ReadUser(s: State): (State, map<nat, real>) {
    var (s', bp) := ReadBare(s, DefaultBare(s.axes));
    (s', ToUser(s.axes, KeysInOrder(bp), bp, DefaultUser(s.axes)))
  }

  // ----- soft limits -----

  function Limit(nodes: seq<Node>, id: nat, e: Element): int {
    GetLast(nodes, id, (n: Node) => Get(n, e), 0)
  }

  function InUnits(limit: int, factor: real): real {
    limit as real * factor
  }

  /** The first i rounds of `get_upper_softlimits` or `get_lower_softlimits`, on a position from
      `createPosition`: a limit of the tree times the unit factor; the zero offset plays no part. */
  function LimitsUpTo(s: State, e: Element, i: nat): map<nat, real>
    requires i <= |s.axes|
  {
    if i == 0 then DefaultUser(s.axes)
    else
      var a := s.axes[i - 1];
      LimitsUpTo(s, e, i - 1)[a.id := InUnits(Limit(s.nodes, a.id, e), a.conv.factor)]
  }

  function UserLimits(s: State, e: Element): map<nat, real> {
    LimitsUpTo(s, e, |s.axes|)
  }

  /** With distinct ids every axis shows its own limit. */
  lemma {:induction false} LimitsOfAxis(s: State, e: Element, i: nat, j: nat)
    requires DistinctIds(s.axes) && j < i <= |s.axes|
    ensures s.axes[j].id in LimitsUpTo(s, e, i)
    ensures LimitsUpTo(s, e, i)[s.axes[j].id] == InUnits(Limit(s.nodes, s.axes[j].id, e), s.axes[j].conv.factor)
    decreases i
  {
    hide InUnits, Limit;
    if j < i - 1 {
      LimitsOfAxis(s, e, i - 1, j);
    }
  }

  // ----- configuration -----

  /** `Axis::UpdateConfiguration`'s register writes; their results are ignored. */
  function WriteRegisters(s: State, regs: seq<Register>, v: Settings): (r: State)
    ensures r == s.(link := r.link, err := r.err)
  {
    if regs == [] then s
    else
      var last := regs[|regs| - 1];
      Send(WriteRegisters(s, regs[..|regs| - 1], v), Write(last, RegisterOf(v, last)))
  }

  /** `Axis::UpdateConfiguration`: without the channel nothing is refreshed. */
  function UpdateConfiguration(s: State, i: nat): (r: State)
    requires i < |s.axes| && Listed(s.nodes, s.axes[i].id)
    ensures r.nodes == s.nodes && SameAxisIds(s.axes, r.axes) && r.init == s.init
  {
    var s1 := SetAxisNum(s, s.axes[i].id);
    if !Answer(s.link).Accepted? then s1
    else
      var n := FirstNode(s.nodes, s.axes[i].id);
      WriteRegisters(s1.(axes := s.axes[i := Parsed(s.axes[i], n)]), ALL_REGISTERS, n.settings)
  }

  ghost predicate SameAxisIds(a: seq<Axis>, b: seq<Axis>) {
    |a| == |b| && forall i :: 0 <= i < |a| ==> b[i].id == a[i].id && b[i].desc == a[i].desc
  }

  function SoftLimit(rangeFac: real, halfTurns: nat): int {
    (rangeFac / 2.0 * halfTurns as real * 200.0).Floor
  }

  /** Position and zero offset reset in the tree. */
  function Cleared(nodes: seq<Node>, id: nat): seq<Node> {
    PutAll(PutAll(nodes, id, PositionElement, 0), id, OffsetElement, 0)
  }

  function UpperSoftLimit(rangeFac: real, halfTurns: nat, forward: real): int {
    if rangeFac == 0.0 then Trunc(forward) else SoftLimit(rangeFac, halfTurns)
  }

  function LowerSoftLimit(rangeFac: real, halfTurns: nat, backward: real): int {
    if rangeFac == 0.0 then Trunc(-backward) else -SoftLimit(rangeFac, halfTurns)
  }

  /** What happens to the tree before an axis is refreshed from it. */
  datatype Phase = AsIs | Preliminary | Final

  /** Lower and upper soft limit: symmetric ones from the preliminary range factor in `initAxes`;
      in `SetInitialZero` from a non-zero range factor, and the two constants otherwise. */
  function Limits(nodes: seq<Node>, id: nat, phase: Phase): (int, int)
    requires phase != AsIs
  {
    var turns := GetLast(nodes, id, (n: Node) => n.init.halfAxisTurns, 0);
    if phase == Preliminary then
      var upper := SoftLimit(GetLast(nodes, id, (n: Node) => n.init.preRangeFac, 0.0), turns);
      (-upper, upper)
    else
      var range := GetLast(nodes, id, (n: Node) => n.init.rangeFac, 0.0);
      (LowerSoftLimit(range, turns, GetLast(nodes, id, (n: Node) => n.init.constBackwardSoftLimit, 0.0)),
       UpperSoftLimit(range, turns, GetLast(nodes, id, (n: Node) => n.init.constForwardSoftLimit, 0.0)))
  }

  /** The tree updates of `initAxes` in initialisation mode. */
  function PreInit(nodes: seq<Node>, id: nat): seq<Node> {
    var n1 := Cleared(nodes, id);
    var (lower, upper) := Limits(n1, id, Preliminary);
    PutAll(PutAll(n1, id, LowerLimitElement, lower), id, UpperLimitElement, upper)
  }

  /** The tree updates of `SetInitialZero`. */
  function FinalInit(nodes: seq<Node>, id: nat): seq<Node> {
    var n1 := Cleared(nodes, id);
    var (lower, upper) := Limits(n1, id, Final);
    PutAll(PutAll(n1, id, UpperLimitElement, upper), id, LowerLimitElement, lower)
  }

  function Prepared(nodes: seq<Node>, id: nat, phase: Phase): (r: seq<Node>)
    ensures |r| == |nodes| && forall i :: 0 <= i < |nodes| ==> r[i].id == nodes[i].id
  {
    match phase
    case AsIs => nodes
    case Preliminary => PreInit(nodes, id)
    case Final => FinalInit(nodes, id)
  }

  ghost predicate AllListed(nodes: seq<Node>, axes: seq<Axis>) {
    forall i :: 0 <= i < |axes| ==> Listed(nodes, axes[i].id)
  }

  lemma ListedKept(nodes: seq<Node>, nodes': seq<Node>, axes: seq<Axis>, axes': seq<Axis>)
    requires AllListed(nodes, axes) && SameAxisIds(axes, axes')
    requires |nodes'| == |nodes| && forall i :: 0 <= i < |nodes| ==> nodes'[i].id == nodes[i].id
    ensures AllListed(nodes', axes')
  {
    forall i | 0 <= i < |axes'| ensures Listed(nodes', axes'[i].id) {
      assert Listed(nodes, axes[i].id);
      var k :| 0 <= k < |nodes| && nodes[k].id == axes[i].id;
      assert nodes'[k].id == axes'[i].id;
    }
  }

  /** One round of the loops in `initAxes` and `SetInitialZero`. */
  function ConfigureAxis(s: State, i: nat, phase: Phase): (r: State)
    requires i < |s.axes| && AllListed(s.nodes, s.axes)
    ensures SameAxisIds(s.axes, r.axes) && AllListed(r.nodes, r.axes)
  {
    var s1 := s.(nodes := Prepared(s.nodes, s.axes[i].id, phase));
    ListedKept(s.nodes, s1.nodes, s.axes, s.axes);
    var r := UpdateConfiguration(s1, i);
    ListedKept(s.nodes, r.nodes, s.axes, r.axes);
    r
  }

  function ConfigureAxes(s: State, i: nat, phase: Phase): (r: State)
    requires i <= |s.axes| && AllListed(s.nodes, s.axes)
    ensures SameAxisIds(s.axes, r.axes) && AllListed(r.nodes, r.axes)
    decreases |s.axes| - i
  {
    if i == |s.axes| then s else ConfigureAxes(ConfigureAxis(s, i, phase), i + 1, phase)
  }

  lemma ConfigureAxesStep(s: State, i: nat, phase: Phase)
    requires i < |s.axes| && AllListed(s.nodes, s.axes)
    ensures ConfigureAxes(s, i, phase) == ConfigureAxes(ConfigureAxis(s, i, phase), i + 1, phase)
    ensures |ConfigureAxis(s, i, phase).axes| == |s.axes|
  {
  }

  lemma ConfigureAxesEnd(s: State, phase: Phase)
    requires AllListed(s.nodes, s.axes)
    ensures ConfigureAxes(s, |s.axes|, phase) == s
  {
  }

  function InitAxes(s: State): State
    requires AllListed(s.nodes, s.axes)
  {
    ConfigureAxes(s, 0, if s.init then Preliminary else AsIs)
  }

  /** Largest axis id, which the controller is told as its channel count. */
  function MaxId(axes: seq<Axis>): nat
    requires axes != []
  {
    if |axes| == 1 then axes[0].id
    else
      var m := MaxId(axes[..|axes| - 1]);
      if m < axes[|axes| - 1].id then axes[|axes| - 1].id else m
  }

  /** `connect`: the final `1CH1` bypasses `setaxisnum`, so the current axis is not updated. */
  function Connect(s: State): State
    requires AllListed(s.nodes, s.axes) && s.axes != []
  {
    var s1 := Send(Send(s, Identify), ChannelCount(MaxId(s.axes)));
    Send(Send(InitAxes(s1), Select(1)), JogOff).(connected := true)
  }

  // ----- zeroing and saving -----

  ghost predicate Covers(axes: seq<Axis>, bp: map<nat, int>) {
    forall k :: 0 <= k < |axes| ==> axes[k].id in bp
  }

  /** One round of `SetZero`: axis object and tree get the same offset. */
  function ZeroAxis(s: State, i: nat, bp: map<nat, int>): (r: State)
    requires i < |s.axes| && Covers(s.axes, bp)
    ensures SameAxisIds(s.axes, r.axes) && Covers(r.axes, bp)
  {
    var a := s.axes[i];
    s.(axes := s.axes[i := a.(conv := a.conv.(offset := bp[a.id]))],
       nodes := PutAll(s.nodes, a.id, OffsetElement, bp[a.id]))
  }

  function ZeroAxes(s: State, i: nat, bp: map<nat, int>): State
    requires i <= |s.axes| && Covers(s.axes, bp)
    decreases |s.axes| - i
  {
    if i == |s.axes| then s else ZeroAxes(ZeroAxis(s, i, bp), i + 1, bp)
  }

  lemma ZeroAxesStep(s: State, i: nat, bp: map<nat, int>)
    requires i < |s.axes| && Covers(s.axes, bp)
    ensures |ZeroAxis(s, i, bp).axes| == |s.axes|
    ensures ZeroAxes(s, i, bp) == ZeroAxes(ZeroAxis(s, i, bp), i + 1, bp)
  {
  }

  lemma DefaultCovers(s: State)
    ensures Covers(s.axes, ReadBare(s, DefaultBare(s.axes)).1)
  {
    forall k | 0 <= k < |s.axes| ensures s.axes[k].id in ReadBare(s, DefaultBare(s.axes)).1 {
      assert Registered(s.axes, s.axes[k].id);
      MergeCovers(DefaultBare(s.axes), Scan(BufferText(Answer(s.link))), RegisteredIds(s.axes), s.axes[k].id);
    }
  }

  lemma {:induction false} MergeCovers(bp: map<nat, int>, rs: seq<Reading>, registered: set<nat>, x: nat)
    requires x in bp
    ensures x in Merge(bp, rs, registered)
    decreases |rs|
  {
    if rs != [] {
      MergeCovers(if rs[0].id in registered then bp[rs[0].id := rs[0].value] else bp, rs[1..], registered, x);
    }
  }

  function SetZero(s: State): State {
    DefaultCovers(s);
    var (s1, bp) := ReadBare(s, DefaultBare(s.axes));
    ZeroAxes(s1, 0, bp)
  }

  /** `SetInitialZero`: refused outside initialisation mode; the positions it reads are not used. */
  function SetInitialZero(s: State): (State, int)
    requires AllListed(s.nodes, s.axes)
  {
    if !s.init then (s, -1)
    else (ConfigureAxes(Send(s, QueryPositions), 0, Final).(init := false), 0)
  }

  function SavePositions(nodes: seq<Node>, ids: seq<nat>, bp: map<nat, int>): seq<Node>
    requires AllIn(ids, bp)
    decreases |ids|
  {
    if ids == [] then nodes
    else SavePositions(PutAll(nodes, ids[0], PositionElement, bp[ids[0]]), ids[1..], bp)
  }

  /** `savexml`: only the axes that were reported are written. */
  function SaveXml(s: State): State {
    var (s1, bp) := ReadBare(s, map[]);
    s1.(nodes := SavePositions(s1.nodes, KeysInOrder(bp), bp))
  }
}
