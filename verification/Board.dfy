/** `DummyPosition` and `IAPBoard` as the objects they are (include/position.hpp:89-178,
    include/IAPBoard.hpp:183-297, src/core/IAPBoard.cpp). Every method is proved against the
    functions of BoardSpec; the laws about those functions are in the *Laws modules. */
module Board {
  import opened Basics
  import opened Units
  import opened Report
  import opened Controller
  import opened Config
  import opened Display
  import opened Serial
  import S = BoardSpec
  import opened MirrorLaws

  class DummyPosition<T> {
    var coordinates: map<nat, T>

    constructor ()
      ensures coordinates == map[]
    {
      coordinates := map[];
    }

    method SetCoordinate(id: nat, val: T)
      modifies this
      ensures coordinates == old(coordinates)[id := val]
    {
      coordinates := coordinates[id := val];
    }

    /** One line per coordinate, in id order; the tag is the descriptor, with or without unit. */
    method GetPositionString(tag: nat -> string, show: T -> string) returns (text: string)
      ensures text == PositionText(S.KeysInOrder(coordinates), coordinates, tag, show)
    {
      text := "";
      var ids := S.KeysInOrder(coordinates);
      var k := 0;
      while k < |ids|
        invariant 0 <= k <= |ids|
        invariant PositionText(ids, coordinates, tag, show) == text + PositionText(ids[k..], coordinates, tag, show)
      {
        hide *;
        PositionTextStep(ids, k, coordinates, tag, show, text);
        text := text + PositionLine(ids[k], coordinates, tag, show) + [NEWLINE];
        k := k + 1;
      }
      assert ids[k..] == [];
    }
  }

  type Axis = S.Axis
  type State = S.State

  /** A new board repeats its configuration file: an axis for every node, with its id and descriptor. It is
      not connected, has no current axis and no error, and its mode is the one asked for. */
  lemma FreshMirrors(nodes: seq<Node>, link: Link, initialize: bool)
    requires forall i :: 0 <= i < |nodes| ==> nodes[i].conv.factor != 0.0
    ensures S.Valid(S.Fresh(nodes, link, initialize)) && Mirror(S.Fresh(nodes, link, initialize))
    ensures var s := S.Fresh(nodes, link, initialize);
      && s.nodes == nodes && s.link == link && s.init == initialize && !s.connected && s.cur == None && s.err == ""
      && |s.axes| == |nodes| && forall i :: 0 <= i < |nodes| ==> s.axes[i].id == nodes[i].id && s.axes[i].desc == nodes[i].desc
  {
    var s := S.Fresh(nodes, link, initialize);
    forall i | 0 <= i < |nodes| ensures Listed(s.nodes, s.axes[i].id) && s.axes[i].conv.factor != 0.0 {
      assert nodes[i].id == s.axes[i].id;
      assert FirstNode(nodes, nodes[i].id) in nodes;
    }
  }

  class IAPBoard {
    var init_: bool
    var connected_: bool
    var serial: Link
    const config: IAPConfig
    var axes: seq<Axis>
    var curaxis: Option<nat>
    var save_curaxis: Option<nat>
    var envAxisId: nat
    var latestError: string

    ghost function Abs(): State
      reads this, config
    {
      S.State(init_, connected_, serial, config.nodes, axes, curaxis, save_curaxis, envAxisId, latestError)
    }

    constructor (conf: IAPConfig, link: Link, initialize: bool)
      ensures config == conf
      ensures Abs() == S.Fresh(conf.nodes, link, initialize)
    {
      init_, connected_, serial, config := initialize, false, link, conf;
      axes, curaxis, save_curaxis, envAxisId, latestError := [], None, None, 0, "";
      new;
      var i := 0;
      while i < |conf.nodes|
        invariant 0 <= i <= |conf.nodes| && axes == S.AxesOf(conf.nodes)[..i]
        invariant Abs() == S.Fresh(conf.nodes, link, initialize).(axes := axes)
      {
        assert Listed(conf.nodes, conf.nodes[i].id);
        var n := conf.GetAxisPt(conf.nodes[i].id);
        axes := axes + [S.Axis(conf.nodes[i].id, conf.nodes[i].desc, n.value.settings, n.value.conv)];
        i := i + 1;
      }
    }

    // ----- commands -----

    method SendCommand(cmd: Command) returns (ret: int, text: string)
      modifies this`serial, this`latestError
      ensures Abs() == S.Send(old(Abs()), cmd)
      ensures ret == Code(Answer(old(serial))) && text == BufferText(Answer(old(serial)))
    {
      var r := Answer(serial);
      serial := Transmit(serial, cmd);
      if r.Rejected? {
        latestError := r.text;
      }
      ret, text := Code(r), BufferText(r);
    }

    /** `send_command` in full: the reply is read from the port in pieces, judged, and stripped. `stale` is
        what the caller's buffer held before. */
    method SendOverLine(cmd: Command, buffer: array<char>, polls: seq<string>, stale: string) returns (ret: int, text: string)
      requires buffer.Length == BUFFER_SIZE && BurstEnds(polls) && |Flatten(FirstBurst(polls))| < BUFFER_SIZE
      requires forall k :: 0 <= k < |polls| ==> NulFree(polls[k])
      requires ReplyOf(Flatten(FirstBurst(polls)), stale) == Some(Answer(serial))
      modifies this`serial, this`latestError, buffer
      ensures Abs() == S.Send(old(Abs()), cmd)
      ensures ret == Code(Answer(old(serial))) && text == BufferText(Answer(old(serial)))
    {
      var reply := ReadReply(buffer, polls);
      serial := Transmit(serial, cmd);
      if |reply.value| < 5 {
        return -2, stale;
      }
      var stripped := StripCtrlJunk(reply.value);
      text := stripped.value;
      if reply.value[3] == '!' {
        latestError := text;
        return -1, text;
      }
      ret := 0;
    }

    /** `getAxis`: a linear search for the first axis with this id. */
    method GetAxis(id: nat) returns (a: Option<Axis>)
      ensures a.Some? <==> S.Registered(axes, id)
      ensures a.Some? ==> a.value == S.FindAxis(axes, id)
    {
      var i := 0;
      while i < |axes|
        invariant 0 <= i <= |axes|
        invariant S.Registered(axes, id) <==> S.Registered(axes[i..], id)
        invariant S.Registered(axes, id) ==> S.FindAxis(axes, id) == S.FindAxis(axes[i..], id)
      {
        if axes[i].id == id {
          assert axes[i..][0] == axes[i];
          return Some(axes[i]);
        }
        SkipAxis(axes[i..], id);
        assert axes[i..][1..] == axes[i + 1..];
        i := i + 1;
      }
      return None;
    }

    method SetAxisNum(id: nat) returns (ret: int)
      modifies this`serial, this`latestError, this`curaxis
      ensures Abs() == S.SetAxisNum(old(Abs()), id) && ret == Code(Answer(old(serial)))
    {
      var a := GetAxis(id);
      var text;
      ret, text := SendCommand(Select(id));
      if ret >= 0 {
        curaxis := if a.Some? then Some(a.value.id) else None;
      }
    }

    method SaveSetAxisNum(id: nat) returns (ret: int)
      modifies this`serial, this`latestError, this`save_curaxis
      ensures Abs() == S.SaveSetAxisNum(old(Abs()), id) && ret == Code(Answer(old(serial)))
    {
      var a := GetAxis(id);
      var text;
      ret, text := SendCommand(Select(id));
      if ret >= 0 {
        save_curaxis := if a.Some? then Some(a.value.id) else None;
      }
    }

    method SaveEnvironment()
      modifies this`envAxisId
      ensures Abs() == S.SaveEnvironment(old(Abs()))
    {
      if curaxis.Some? {
        envAxisId := curaxis.value;
      }
    }

    method RestoreEnvironment()
      modifies this`serial, this`latestError, this`save_curaxis
      ensures Abs() == S.RestoreEnvironment(old(Abs()))
    {
      var ret := SaveSetAxisNum(envAxisId);
    }

    // ----- moves -----

    /** One round of a move loop: the result of the select is ignored. */
    method MoveAxis(id: nat, amount: int, relative: bool) returns (ret: int)
      requires S.Registered(axes, id)
      modifies this`serial, this`latestError, this`save_curaxis
      ensures Abs() == S.Send(S.SaveSetAxisNum(old(Abs()), id), S.MoveCommand(relative, amount))
      ensures ret == Code(Answer(S.SaveSetAxisNum(old(Abs()), id).link))
    {
      var sel := SaveSetAxisNum(id);
      var axis := GetAxis(id);
      var text;
      ret, text := SendCommand(S.MoveCommand(relative, amount));
    }

    /** Both move loops over a bare position; they differ in the command only. */
    method MoveBare(bp: DummyPosition<int>, relative: bool) returns (ret: int)
      requires forall id :: id in bp.coordinates ==> S.Registered(axes, id)
      modifies this`serial, this`latestError, this`save_curaxis, this`envAxisId
      ensures (Abs(), ret) == S.MoveBare(old(Abs()), bp.coordinates, relative)
    {
      SaveEnvironment();
      ret := MoveLoop(S.KeysInOrder(bp.coordinates), bp.coordinates, relative);
      RestoreEnvironment();
    }

    method MoveLoop(ids: seq<nat>, bp: map<nat, int>, relative: bool) returns (ret: int)
      requires AllIn(ids, bp) && forall k :: 0 <= k < |ids| ==> S.Registered(axes, ids[k])
      modifies this`serial, this`latestError, this`save_curaxis
      ensures (Abs(), ret) == S.RunMoves(old(Abs()), ids, bp, relative)
    {
      hide S.RunMoves, S.SaveSetAxisNum, S.Send, S.MoveCommand, S.Registered, Code, Answer;
      ret := 0;
      ghost var start := Abs();
      MoveStep(start, ids, 0, bp, relative);
      var k := 0;
      while k < |ids|
        invariant 0 <= k <= |ids| && ret == 0
        invariant S.RunMoves(start, ids, bp, relative) == S.RunMoves(Abs(), ids[k..], bp, relative)
      {
        MoveStep(Abs(), ids, k, bp, relative);
        ret := MoveAxis(ids[k], bp[ids[k]], relative);
        if ret < 0 {
          return;
        }
        k := k + 1;
      }
      MoveStep(Abs(), ids, k, bp, relative);
    }

    /** `conv2bareposition`. */
    method Conv2BarePosition(ret: DummyPosition<int>, pos: DummyPosition<real>)
      requires S.SoundFactors(axes)
      modifies ret
      ensures ret.coordinates == S.ToBare(axes, S.KeysInOrder(pos.coordinates), pos.coordinates, old(ret.coordinates))
    {
      hide ToSteps, S.FindAxis;
      var ids := S.KeysInOrder(pos.coordinates);
      var k := 0;
      while k < |ids|
        invariant 0 <= k <= |ids|
        invariant S.ToBare(axes, ids, pos.coordinates, old(ret.coordinates)) ==
          S.ToBare(axes, ids[k..], pos.coordinates, ret.coordinates)
      {
        assert ids[k..][0] == ids[k] && ids[k..][1..] == ids[k + 1..];
        var axis := GetAxis(ids[k]);
        if axis.None? {
          return;
        }
        assert axis.value in axes;
        ret.SetCoordinate(ids[k], ToSteps(pos.coordinates[ids[k]], axis.value.conv.factor, axis.value.conv.offset));
        k := k + 1;
      }
    }

    /** `conv2postion`. */
    method Conv2Position(ret: DummyPosition<real>, bpos: DummyPosition<int>)
      modifies ret
      ensures ret.coordinates == S.ToUser(axes, S.KeysInOrder(bpos.coordinates), bpos.coordinates, old(ret.coordinates))
    {
      hide ToUnits, S.FindAxis;
      var ids := S.KeysInOrder(bpos.coordinates);
      var k := 0;
      while k < |ids|
        invariant 0 <= k <= |ids|
        invariant S.ToUser(axes, ids, bpos.coordinates, old(ret.coordinates)) ==
          S.ToUser(axes, ids[k..], bpos.coordinates, ret.coordinates)
      {
        assert ids[k..][0] == ids[k] && ids[k..][1..] == ids[k + 1..];
        var axis := GetAxis(ids[k]);
        if axis.None? {
          return;
        }
        ret.SetCoordinate(ids[k], ToUnits(bpos.coordinates[ids[k]], axis.value.conv.factor, axis.value.conv.offset));
        k := k + 1;
      }
    }

    /** `move_to` and `move_rel` in user units. */
    method MoveUser(pos: DummyPosition<real>, relative: bool) returns (ret: int)
      requires S.SoundFactors(axes)
      modifies this`serial, this`latestError, this`save_curaxis, this`envAxisId
      ensures (Abs(), ret) == S.MoveUser(old(Abs()), pos.coordinates, relative)
    {
      var bp := new DummyPosition<int>();
      Conv2BarePosition(bp, pos);
      OnlyRegistered(axes, S.KeysInOrder(pos.coordinates), pos.coordinates, map[]);
      ret := MoveBare(bp, relative);
    }

    // ----- reading positions -----

    /** `get_cur_position` in steps: whatever text the buffer holds is scanned. */
    method GetCurBare(ret: DummyPosition<int>)
      modifies this`serial, this`latestError, ret
      ensures (Abs(), ret.coordinates) == S.ReadBare(old(Abs()), old(ret.coordinates))
    {
      var code, line := SendCommand(QueryPositions);
      var rs := WalkReport(line);
      var registered := S.RegisteredIds(axes);
      ghost var asked := Abs();
      var k := 0;
      while k < |rs|
        invariant 0 <= k <= |rs| && Abs() == asked
        invariant Merge(old(ret.coordinates), rs, registered) == Merge(ret.coordinates, rs[k..], registered)
      {
        assert rs[k..][0] == rs[k] && rs[k..][1..] == rs[k + 1..];
        if rs[k].id in registered {
          ret.SetCoordinate(rs[k].id, rs[k].value);
        }
        k := k + 1;
      }
      assert rs[k..] == [];
    }

    /** `createBarePosition` and `createPosition`: every registered axis at 0. */
    method CreateBare() returns (bp: DummyPosition<int>)
      ensures fresh(bp) && bp.coordinates == S.DefaultBare(axes)
    {
      bp := new DummyPosition<int>();
      bp.coordinates := S.DefaultBare(axes);
    }

    method CreatePosition() returns (p: DummyPosition<real>)
      ensures fresh(p) && p.coordinates == S.DefaultUser(axes)
    {
      p := new DummyPosition<real>();
      p.coordinates := S.DefaultUser(axes);
    }

    /** `get_cur_position` in user units, on a position from `createPosition`. */
    method GetCurPosition(ret: DummyPosition<real>)
      requires ret.coordinates == S.DefaultUser(axes)
      modifies this`serial, this`latestError, ret
      ensures (Abs(), ret.coordinates) == S.ReadUser(old(Abs()))
    {
      var bp := CreateBare();
      GetCurBare(bp);
      Conv2Position(ret, bp);
    }

    /** `get_upper_softlimits` and `get_lower_softlimits`, on a position from `createPosition`. */
    method GetSoftLimits(ret: DummyPosition<real>, e: Element)
      requires ret.coordinates == S.DefaultUser(axes)
      modifies ret
      ensures ret.coordinates == S.UserLimits(Abs(), e)
    {
      hide S.Limit, S.InUnits, GetLast, Get, S.DefaultUser;
      var i := 0;
      while i < |axes|
        invariant 0 <= i <= |axes|
        invariant ret.coordinates == S.LimitsUpTo(Abs(), e, i)
      {
        LimitRead(config.nodes, axes[i].id, e);
        var limit := config.GetAxisElement(axes[i].id, (n: Node) => Get(n, e), 0);
        ret.SetCoordinate(axes[i].id, S.InUnits(limit, axes[i].conv.factor));
        i := i + 1;
      }
    }

    // ----- configuration -----

    /** `Axis::UpdateConfiguration` of axis i. */
    method UpdateConfiguration(i: nat) returns (ret: int)
      requires i < |axes| && Listed(config.nodes, axes[i].id)
      modifies this`serial, this`latestError, this`curaxis, this`axes
      ensures Abs() == S.UpdateConfiguration(old(Abs()), i)
      ensures ret == if Answer(old(serial)).Accepted? then 0 else -1
    {
      var sel := SetAxisNum(axes[i].id);
      if sel < 0 {
        return -1;
      }
      var n := config.GetAxisPt(axes[i].id);
      axes := axes[i := S.Parsed(axes[i], n.value)];
      WriteRegisters(axes[i].settings);
      return 0;
    }

    /** Its nine register writes, whose results are ignored. */
    method WriteRegisters(v: Settings)
      modifies this`serial, this`latestError
      ensures Abs() == S.WriteRegisters(old(Abs()), ALL_REGISTERS, v)
    {
      var k := 0;
      assert ALL_REGISTERS[..0] == [];
      while k < |ALL_REGISTERS|
        invariant 0 <= k <= |ALL_REGISTERS|
        invariant Abs() == S.WriteRegisters(old(Abs()), ALL_REGISTERS[..k], v)
      {
        assert ALL_REGISTERS[..k + 1][..k] == ALL_REGISTERS[..k];
        var ret, text := SendCommand(Write(ALL_REGISTERS[k], RegisterOf(v, ALL_REGISTERS[k])));
        k := k + 1;
      }
      assert ALL_REGISTERS[..k] == ALL_REGISTERS;
    }

    /** Soft limits of an axis from its `init` parameters, for the given phase. */
    method SoftLimits(id: nat, phase: S.Phase) returns (lower: int, upper: int)
      requires phase != S.AsIs
      ensures S.Limits(config.nodes, id, phase) == (lower, upper)
    {
      var turns := config.GetAxisElement(id, (n: Node) => n.init.halfAxisTurns, 0);
      if phase == S.Preliminary {
        var range := config.GetAxisElement(id, (n: Node) => n.init.preRangeFac, 0.0);
        upper := S.SoftLimit(range, turns);
        lower := -upper;
      } else {
        var range := config.GetAxisElement(id, (n: Node) => n.init.rangeFac, 0.0);
        if range == 0.0 {
          var forward := config.GetAxisElement(id, (n: Node) => n.init.constForwardSoftLimit, 0.0);
          var backward := config.GetAxisElement(id, (n: Node) => n.init.constBackwardSoftLimit, 0.0);
          upper, lower := Trunc(forward), Trunc(-backward);
        } else {
          upper := S.SoftLimit(range, turns);
          lower := -upper;
        }
      }
    }

    /** The tree updates of one axis before it is refreshed. */
    method Prepare(id: nat, phase: S.Phase)
      modifies config
      ensures config.nodes == S.Prepared(old(config.nodes), id, phase)
    {
      if phase == S.AsIs {
        return;
      }
      hide S.Limits, PutAll;
      config.SetAxisElement(id, PositionElement, 0);
      config.SetAxisElement(id, OffsetElement, 0);
      var lower, upper := SoftLimits(id, phase);
      if phase == S.Preliminary {
        config.SetAxisElement(id, LowerLimitElement, lower);
        config.SetAxisElement(id, UpperLimitElement, upper);
      } else {
        config.SetAxisElement(id, UpperLimitElement, upper);
        config.SetAxisElement(id, LowerLimitElement, lower);
      }
    }

    /** One round of the loops in `initAxes` and `SetInitialZero`. */
    method ConfigureAxis(i: nat, phase: S.Phase)
      requires i < |axes| && S.AllListed(config.nodes, axes)
      modifies this`serial, this`latestError, this`curaxis, this`axes, config
      ensures Abs() == S.ConfigureAxis(old(Abs()), i, phase)
    {
      Prepare(axes[i].id, phase);
      S.ListedKept(old(config.nodes), config.nodes, axes, axes);
      var ret := UpdateConfiguration(i);
    }

    method ConfigureAxes(phase: S.Phase)
      requires S.AllListed(config.nodes, axes)
      modifies this`serial, this`latestError, this`curaxis, this`axes, config
      ensures Abs() == S.ConfigureAxes(old(Abs()), 0, phase)
    {
      hide S.ConfigureAxes, S.ConfigureAxis, S.AllListed, S.SameAxisIds;
      var i := 0;
      while i < |axes|
        invariant 0 <= i <= |axes| && S.AllListed(config.nodes, axes)
        invariant S.ConfigureAxes(Abs(), i, phase) == S.ConfigureAxes(old(Abs()), 0, phase)
      {
        S.ConfigureAxesStep(Abs(), i, phase);
        ConfigureAxis(i, phase);
        i := i + 1;
      }
      S.ConfigureAxesEnd(Abs(), phase);
    }

    method InitAxes()
      requires S.AllListed(config.nodes, axes)
      modifies this`serial, this`latestError, this`curaxis, this`axes, config
      ensures Abs() == S.InitAxes(old(Abs()))
    {
      ConfigureAxes(if init_ then S.Preliminary else S.AsIs);
    }

    /** `std::max_element` over the axis ids. */
    method LargestId() returns (m: nat)
      requires axes != []
      ensures m == S.MaxId(axes)
    {
      m := axes[0].id;
      var i := 1;
      assert axes[..1][0] == axes[0];
      while i < |axes|
        invariant 1 <= i <= |axes| && m == S.MaxId(axes[..i])
      {
        assert axes[..i + 1][..i] == axes[..i];
        if m < axes[i].id {
          m := axes[i].id;
        }
        i := i + 1;
      }
      assert axes[..i] == axes;
    }

    method Connect()
      requires S.AllListed(config.nodes, axes) && axes != []
      modifies this`serial, this`latestError, this`curaxis, this`axes, this`connected_, config
      ensures Abs() == S.Connect(old(Abs()))
    {
      var ret, text := SendCommand(Identify);
      var m := LargestId();
      ret, text := SendCommand(ChannelCount(m));
      InitAxes();
      ret, text := SendCommand(Select(1));
      ret, text := SendCommand(JogOff);
      connected_ := true;
    }

    // ----- zeroing and saving -----

    method SetZero() returns (ret: int)
      modifies this`serial, this`latestError, this`axes, config
      ensures Abs() == S.SetZero(old(Abs())) && ret == 0
    {
      S.DefaultCovers(Abs());
      var bp := CreateBare();
      GetCurBare(bp);
      ghost var read := Abs();
      var i := 0;
      while i < |axes|
        invariant 0 <= i <= |axes| && S.Covers(axes, bp.coordinates)
        invariant (read, bp.coordinates) == S.ReadBare(old(Abs()), S.DefaultBare(old(axes)))
        invariant S.ZeroAxes(Abs(), i, bp.coordinates) == S.ZeroAxes(read, 0, bp.coordinates)
      {
        ZeroAxis(i, bp.coordinates);
        i := i + 1;
      }
      ret := 0;
    }

    /** One round of `SetZero`. */
    method ZeroAxis(i: nat, bp: map<nat, int>)
      requires i < |axes| && S.Covers(axes, bp)
      modifies this`axes, config
      ensures Abs() == S.ZeroAxis(old(Abs()), i, bp)
    {
      var offset := bp[axes[i].id];
      axes := axes[i := axes[i].(conv := axes[i].conv.(offset := offset))];
      config.SetAxisElement(axes[i].id, OffsetElement, offset);
    }

    method SetInitialZero() returns (ret: int)
      requires S.AllListed(config.nodes, axes)
      modifies this`serial, this`latestError, this`curaxis, this`axes, this`init_, config
      ensures (Abs(), ret) == S.SetInitialZero(old(Abs()))
    {
      if !init_ {
        return -1;
      }
      var bp := CreateBare();
      GetCurBare(bp);
      ConfigureAxes(S.Final);
      init_ := false;
      ret := 0;
    }

    /** The board's part of the server's `savexml`: only reported axes are written to the tree. */
    method SaveXml() returns (reported: map<nat, int>)
      modifies this`serial, this`latestError, config
      ensures Abs() == S.SaveXml(old(Abs())) && reported == S.ReadBare(old(Abs()), map[]).1
    {
      var bp := new DummyPosition<int>();
      GetCurBare(bp);
      StorePositions(bp.coordinates);
      reported := bp.coordinates;
    }

    method StorePositions(bp: map<nat, int>)
      modifies config
      ensures config.nodes == S.SavePositions(old(config.nodes), S.KeysInOrder(bp), bp)
    {
      var ids := S.KeysInOrder(bp);
      var k := 0;
      while k < |ids|
        invariant 0 <= k <= |ids|
        invariant S.SavePositions(config.nodes, ids[k..], bp) == S.SavePositions(old(config.nodes), ids, bp)
      {
        assert ids[k..][0] == ids[k] && ids[k..][1..] == ids[k + 1..];
        config.SetAxisElement(ids[k], PositionElement, bp[ids[k]]);
        k := k + 1;
      }
    }
  }

  lemma LimitRead(nodes: seq<Node>, id: nat, e: Element)
    ensures GetLast(nodes, id, (n: Node) => Get(n, e), 0) == S.Limit(nodes, id, e)
  {
  }

  /** The conversion produces registered ids only, so the move loops never look up a missing axis. */
  lemma {:induction false} OnlyRegistered(axes: seq<Axis>, ids: seq<nat>, pos: map<nat, real>, ret: map<nat, int>)
    requires S.SoundFactors(axes) && AllIn(ids, pos)
    requires forall id :: id in ret ==> S.Registered(axes, id)
    ensures forall id :: id in S.ToBare(axes, ids, pos, ret) ==> S.Registered(axes, id)
    decreases |ids|
  {
    if ids != [] && ids[0] in S.RegisteredIds(axes) {
      var conv := S.FindAxis(axes, ids[0]).conv;
      OnlyRegistered(axes, ids[1..], pos, ret[ids[0] := ToSteps(pos[ids[0]], conv.factor, conv.offset)]);
    }
  }

  lemma MoveStep(s: State, ids: seq<nat>, k: nat, bp: map<nat, int>, relative: bool)
    requires k <= |ids| && AllIn(ids, bp)
    ensures ids[0..] == ids && (k < |ids| ==> ids[k] in bp)
    ensures k < |ids| ==> Code(Answer(S.SaveSetAxisNum(s, ids[k]).link)) <= 0
    ensures k == |ids| ==> S.RunMoves(s, ids[k..], bp, relative) == (s, 0)
    ensures k < |ids| ==>
      var s1 := S.SaveSetAxisNum(s, ids[k]);
      var s2 := S.Send(s1, S.MoveCommand(relative, bp[ids[k]]));
      S.RunMoves(s, ids[k..], bp, relative) ==
        (if Code(Answer(s1.link)) < 0 then (s2, Code(Answer(s1.link))) else S.RunMoves(s2, ids[k + 1..], bp, relative))
  {
    if k < |ids| {
      assert ids[k..][0] == ids[k] && ids[k..][1..] == ids[k + 1..];
    }
  }

  lemma SkipAxis(axes: seq<Axis>, id: nat)
    requires axes != [] && axes[0].id != id
    ensures S.Registered(axes, id) <==> S.Registered(axes[1..], id)
    ensures S.Registered(axes, id) ==> S.FindAxis(axes, id) == S.FindAxis(axes[1..], id)
  {
    if i :| 0 <= i < |axes| && axes[i].id == id {
      assert axes[1..][i - 1].id == id;
    }
    if i :| 0 <= i < |axes[1..]| && axes[1..][i].id == id {
      assert axes[i + 1].id == id;
    }
  }
}
