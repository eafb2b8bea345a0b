/** What goes over the line, as text, and which of the controller's errors the board remembers
    (src/core/IAPBoard.cpp:82-117, 172-197, 281-299, 465-574). */
module ScriptLaws {
  import opened Basics
  import opened Decimal
  import opened Report
  import opened Controller
  import opened Config
  import opened BoardSpec
  import opened MoveLaws
  import opened MirrorLaws
  import opened RunLaws
  import opened InvariantLaws

  /** The text of the k-th command. */
  function Sent(l: Link, k: nat): string
    requires k < |l.log|
  {
    CommandText(l.log[k].cmd)
  }

  // ----- connecting and refreshing -----

  /** The nine register writes of a refresh, in their order. */
  function RegisterTexts(v: Settings): seq<string> {
    ["1sb" + IntText(v.baseSpeed), "1sv" + IntText(v.slewSpeed), "1sj" + IntText(v.slowJogSpeed),
     "1sf" + IntText(v.fastJogSpeed), "1cr" + IntText(v.creepSteps), "1sa" + IntText(v.accel),
     "1ll" + IntText(v.lowerLimit), "1ul" + IntText(v.upperLimit), "1sp" + IntText(v.position)]
  }

  lemma RegisterText(v: Settings, k: nat)
    requires k < 9
    ensures RegisterTexts(v)[k] == CommandText(Write(ALL_REGISTERS[k], RegisterOf(v, ALL_REGISTERS[k])))
  {
    hide IntText;
    if k < 4 {
      assert k == 0 || k == 1 || k == 2 || k == 3;
    } else {
      assert k == 4 || k == 5 || k == 6 || k == 7 || k == 8;
    }
  }

  /** They follow the command at place n. */
  ghost predicate WrittenAfter(l: Link, n: nat, v: Settings) {
    n + 10 <= |l.log| && forall k :: 0 <= k < 9 ==> Sent(l, n + 1 + k) == RegisterTexts(v)[k]
  }

  lemma {:induction false} WritesScript(s: State, regs: seq<Register>, v: Settings, k: nat)
    requires k < |regs|
    ensures |WriteRegisters(s, regs, v).link.log| == |s.link.log| + |regs|
    ensures WriteRegisters(s, regs, v).link.log[|s.link.log| + k].cmd == Write(regs[k], RegisterOf(v, regs[k]))
    decreases |regs|
  {
    var front := regs[..|regs| - 1];
    if front != [] {
      WritesScript(s, front, v, if k < |front| then k else 0);
    }
    hide RegisterOf;
  }

  /** A refresh selects its axis, and then, if it may, writes the nine registers from the tree. */
  lemma UpdateScript(s: State, i: nat)
    requires i < |s.axes| && Listed(s.nodes, s.axes[i].id)
    ensures var n, l := |s.link.log|, UpdateConfiguration(s, i).link;
      && |l.log| == n + (if Answer(s.link).Accepted? then 10 else 1)
      && Sent(l, n) == "1CH" + NatText(s.axes[i].id)
      && (Answer(s.link).Accepted? ==> WrittenAfter(l, n, FirstNode(s.nodes, s.axes[i].id).settings))
  {
    UpdateRecords(s, i);
    if Answer(s.link).Accepted? {
      RefreshWrites(s, i);
    }
    hide NatText, RegisterTexts, FirstNode;
  }

  lemma RefreshWrites(s: State, i: nat)
    requires i < |s.axes| && Listed(s.nodes, s.axes[i].id) && Answer(s.link).Accepted?
    ensures |UpdateConfiguration(s, i).link.log| == |s.link.log| + 10
    ensures WrittenAfter(UpdateConfiguration(s, i).link, |s.link.log|, FirstNode(s.nodes, s.axes[i].id).settings)
  {
    var n := FirstNode(s.nodes, s.axes[i].id);
    var t := SetAxisNum(s, s.axes[i].id).(axes := s.axes[i := Parsed(s.axes[i], n)]);
    var r := WriteRegisters(t, ALL_REGISTERS, n.settings);
    assert r == UpdateConfiguration(s, i);
    assert |t.link.log| == |s.link.log| + 1;
    hide FirstNode, WriteRegisters;
    forall k | 0 <= k < 9
      ensures |r.link.log| == |t.link.log| + 9
      ensures r.link.log[|t.link.log| + k].cmd == Write(ALL_REGISTERS[k], RegisterOf(n.settings, ALL_REGISTERS[k]))
    {
      WritesScript(t, ALL_REGISTERS, n.settings, k);
    }
    WritesAsText(r.link, |s.link.log|, n.settings);
  }

  lemma WritesAsText(l: Link, n: nat, v: Settings)
    requires n + 10 <= |l.log|
    requires forall k :: 0 <= k < 9 ==> l.log[n + 1 + k].cmd == Write(ALL_REGISTERS[k], RegisterOf(v, ALL_REGISTERS[k]))
    ensures WrittenAfter(l, n, v)
  {
    assert |RegisterTexts(v)| == 9 && |ALL_REGISTERS| == 9;
    hide RegisterTexts, CommandText, RegisterOf, ALL_REGISTERS;
    forall k | 0 <= k < 9 ensures Sent(l, n + 1 + k) == RegisterTexts(v)[k] {
      RegisterText(v, k);
    }
  }

  /** The largest id is one of the ids. */
  lemma {:induction false} LargestId(axes: seq<Axis>)
    requires axes != []
    ensures Registered(axes, MaxId(axes))
    ensures forall k :: 0 <= k < |axes| ==> axes[k].id <= MaxId(axes)
    decreases |axes|
  {
    var last := |axes| - 1;
    assert axes[last].id == axes[last].id;
    if last > 0 {
      LargestId(axes[..last]);
      var i :| 0 <= i < last && axes[..last][i].id == MaxId(axes[..last]);
      assert axes[i].id == MaxId(axes[..last]);
      assert forall k :: 0 <= k < last ==> axes[k].id == axes[..last][k].id;
    }
  }

  lemma LargestIndex(axes: seq<Axis>)
    requires axes != []
    ensures exists j :: 0 <= j < |axes| && axes[j].id == MaxId(axes) && forall k :: 0 <= k < |axes| ==> axes[k].id <= axes[j].id
  {
    LargestId(axes);
    hide MaxId;
  }

  /** `connect` asks for the firmware, announces as many channels as the largest id of an axis, and at the
      end selects channel 1 and switches jog mode off. The board then counts as connected. */
  lemma ConnectScript(s: State)
    requires Valid(s) && Distinct(s) && s.axes != []
    ensures Connect(s).connected
    ensures var n, l := |s.link.log|, Connect(s).link;
      && Extends(s.link, l) && |l.log| >= n + 4
      && Sent(l, n) == "1ID" && Sent(l, |l.log| - 2) == "1CH1" && Sent(l, |l.log| - 1) == "1IR"
      && exists j :: 0 <= j < |s.axes| && Sent(l, n + 1) == "1NC" + NatText(s.axes[j].id)
           && forall k :: 0 <= k < |s.axes| ==> s.axes[k].id <= s.axes[j].id
  {
    hide *;
    ConnectParts(s);
    LargestIndex(s.axes);
    var s1 := Send(Send(s, Identify), ChannelCount(MaxId(s.axes)));
    StartScript(s, MaxId(s.axes));
    InitExtends(s1);
    EndScript(InitAxes(s1));
    Framed(s.link, s1.link, InitAxes(s1).link, Connect(s).link);
  }

  lemma ConnectParts(s: State)
    requires Valid(s) && Distinct(s) && s.axes != []
    ensures AllListed(s.nodes, s.axes)
    ensures var s1 := Send(Send(s, Identify), ChannelCount(MaxId(s.axes)));
      Valid(s1) && Distinct(s1) && AllListed(s1.nodes, s1.axes)
      && Connect(s).link == Send(Send(InitAxes(s1), Select(1)), JogOff).link && Connect(s).connected
  {
    ConnectSteps(s);
    hide InitAxes, Send, MaxId;
  }

  lemma StartScript(s: State, m: nat)
    ensures var l := Send(Send(s, Identify), ChannelCount(m)).link;
      && Extends(s.link, l) && |l.log| == |s.link.log| + 2
      && Sent(l, |s.link.log|) == "1ID" && Sent(l, |s.link.log| + 1) == "1NC" + NatText(m)
  {
    hide NatText;
  }

  lemma EndScript(i: State)
    ensures var l := Send(Send(i, Select(1)), JogOff).link;
      && Extends(i.link, l) && |l.log| == |i.link.log| + 2
      && Sent(l, |i.link.log|) == "1CH1" && Sent(l, |i.link.log| + 1) == "1IR"
  {
    assert NatText(1) == "1";
    hide NatText;
  }

  /** What was sent stays in the log. */
  lemma Framed(a: Link, b: Link, c: Link, d: Link)
    requires Extends(a, b) && Extends(b, c) && Extends(c, d)
    ensures Extends(a, d) && |d.log| >= |c.log| >= |b.log|
    ensures forall k :: 0 <= k < |b.log| ==> Sent(d, k) == Sent(b, k)
  {
    ExtendsTransitive(a, b, c);
    ExtendsTransitive(a, c, d);
    hide CommandText;
    forall k | 0 <= k < |b.log| ensures d.log[k] == b.log[k] {
      EventKept(b, c, k);
      EventKept(c, d, k);
    }
  }

  lemma InitExtends(s: State)
    requires Valid(s) && Distinct(s)
    ensures Extends(s.link, InitAxes(s).link)
  {
    ConfigureExtends(s, 0, if s.init then Preliminary else AsIs);
  }

  // ----- moving and reading -----

  /** The k-th attempted pair of a move selects the k-th named axis and sends it its own value: absolute or
      relative, as was asked for. */
  lemma MoveTexts(s: State, ids: seq<nat>, bp: map<nat, int>, relative: bool, k: nat)
    requires AllIn(ids, bp) && k < Attempted(MovedCount(s.link.replies, |s.link.log|, |ids|), |ids|)
    ensures var l, n := RunMoves(s, ids, bp, relative).0.link, |s.link.log| + 2 * k;
      && n + 1 < |l.log| && k < |ids|
      && Sent(l, n) == "1CH" + NatText(ids[k])
      && (relative ==> Sent(l, n + 1) == "1MR" + IntText(bp[ids[k]]))
      && (!relative ==> Sent(l, n + 1) == "1MA" + IntText(bp[ids[k]]))
  {
    hide RunMoves, MovedCount, ChannelAt;
    MoveScript(s, ids, bp, relative, k);
    hide *;
    PairTexts(RunMoves(s, ids, bp, relative).0.link, s.link.replies, |s.link.log|, k, ids[k], bp[ids[k]], relative,
              ChannelAt(s.link.replies, |s.link.log|, ids, s.link.ctrl.selected, k));
  }

  lemma PairTexts(l: Link, replies: nat -> Reply, base: nat, k: nat, id: nat, v: int, relative: bool, channel: nat)
    requires MovePair(l.log, replies, base, k, id, MoveCommand(relative, v), channel)
    ensures base + 2 * k + 1 < |l.log|
    ensures Sent(l, base + 2 * k) == "1CH" + NatText(id)
    ensures Sent(l, base + 2 * k + 1) == (if relative then "1MR" else "1MA") + IntText(v)
  {
    hide IntText, NatText;
  }

  /** Reading positions is one query. */
  lemma QueryScript(s: State, bp: map<nat, int>)
    ensures var l := ReadBare(s, bp).0.link;
      && l.log == s.link.log + [Event(QueryPositions, Answer(s.link), s.link.ctrl)]
      && Sent(l, |s.link.log|) == "1QP" && l.ctrl == s.link.ctrl
  {
    hide Merge;
  }

  // ----- the remembered error -----

  /** Event k is the latest error reply at or after place `from`. */
  ghost predicate LatestError(log: seq<Event>, from: nat, k: int) {
    from <= k < |log| && log[k].reply.Rejected? && forall i :: k < i < |log| ==> !log[i].reply.Rejected?
  }

  ghost predicate NoError(log: seq<Event>, from: nat) {
    forall k :: from <= k < |log| ==> !log[k].reply.Rejected?
  }

  /** Since state s the board has remembered the text of the latest error reply, if there was one. */
  ghost predicate Remembers(s: State, r: State) {
    && Extends(s.link, r.link)
    && (NoError(r.link.log, |s.link.log|) ==> r.err == s.err)
    && forall k :: LatestError(r.link.log, |s.link.log|, k) ==> r.err == r.link.log[k].reply.text
  }

  /** The latest error of a longer log is the latest of its new part, or there is none there and it is the
      latest of the old part. */
  lemma LatestSplit(front: seq<Event>, log: seq<Event>, from: nat, k: int)
    requires from <= |front| <= |log| && log[..|front|] == front && LatestError(log, from, k)
    ensures if k >= |front| then LatestError(log, |front|, k) else NoError(log, |front|) && LatestError(front, from, k)
    ensures k < |front| ==> front[k] == log[k]
  {
    assert forall i :: 0 <= i < |front| ==> front[i] == log[i];
  }

  lemma NoneSplit(front: seq<Event>, log: seq<Event>, from: nat)
    requires from <= |front| <= |log| && log[..|front|] == front && NoError(log, from)
    ensures NoError(log, |front|) && NoError(front, from)
  {
    assert forall i :: 0 <= i < |front| ==> front[i] == log[i];
  }

  lemma RemembersNext(a: State, b: State, c: State)
    requires Remembers(a, b) && Remembers(b, c)
    ensures Remembers(a, c)
  {
    ExtendsTransitive(a.link, b.link, c.link);
    hide LatestError, NoError;
    forall k | LatestError(c.link.log, |a.link.log|, k) ensures 0 <= k < |c.link.log| && c.err == c.link.log[k].reply.text {
      LatestSplit(b.link.log, c.link.log, |a.link.log|, k);
    }
    if NoError(c.link.log, |a.link.log|) {
      NoneSplit(b.link.log, c.link.log, |a.link.log|);
    }
  }

  lemma RemembersSelf(s: State, r: State)
    requires r.link == s.link && r.err == s.err
    ensures Remembers(s, r)
  {
  }

  lemma SendRemembers(s: State, cmd: Command, r: State)
    requires r.link == Send(s, cmd).link && r.err == Send(s, cmd).err
    ensures Remembers(s, r)
  {
    var log := r.link.log;
    assert log[|s.link.log|] == Event(cmd, Answer(s.link), s.link.ctrl);
    forall k | LatestError(log, |s.link.log|, k) ensures r.err == log[k].reply.text {
      assert k == |s.link.log|;
    }
  }

  lemma {:induction false} WritesRemember(s: State, regs: seq<Register>, v: Settings)
    ensures Remembers(s, WriteRegisters(s, regs, v))
    decreases |regs|
  {
    hide Remembers, Send;
    if regs == [] {
      RemembersSelf(s, s);
    } else {
      var front, last := regs[..|regs| - 1], regs[|regs| - 1];
      WritesRemember(s, front, v);
      var t := WriteRegisters(s, front, v);
      SendRemembers(t, Write(last, RegisterOf(v, last)), WriteRegisters(s, regs, v));
      RemembersNext(s, t, WriteRegisters(s, regs, v));
    }
  }

  lemma UpdateRemembers(s: State, i: nat)
    requires i < |s.axes| && Listed(s.nodes, s.axes[i].id)
    ensures Remembers(s, UpdateConfiguration(s, i))
  {
    hide Remembers, FirstNode, WriteRegisters;
    var id := s.axes[i].id;
    SendRemembers(s, Select(id), SetAxisNum(s, id));
    if Answer(s.link).Accepted? {
      var n := FirstNode(s.nodes, id);
      var t := SetAxisNum(s, id).(axes := s.axes[i := Parsed(s.axes[i], n)]);
      SendRemembers(s, Select(id), t);
      WritesRemember(t, ALL_REGISTERS, n.settings);
      RemembersNext(s, t, UpdateConfiguration(s, i));
    }
  }

  lemma RoundRemembers(s: State, i: nat, phase: Phase)
    requires i < |s.axes| && AllListed(s.nodes, s.axes)
    ensures Remembers(s, ConfigureAxis(s, i, phase))
  {
    var s1 := s.(nodes := Prepared(s.nodes, s.axes[i].id, phase));
    ListedKept(s.nodes, s1.nodes, s.axes, s.axes);
    hide Remembers, Prepared, UpdateConfiguration;
    UpdateRemembers(s1, i);
    RemembersSelf(s, s1);
    RemembersNext(s, s1, ConfigureAxis(s, i, phase));
  }

  lemma {:induction false} ConfigureRemembers(s: State, i: nat, phase: Phase)
    requires i <= |s.axes| && AllListed(s.nodes, s.axes)
    ensures Remembers(s, ConfigureAxes(s, i, phase))
    decreases |s.axes| - i
  {
    hide Remembers, ConfigureAxis;
    if i == |s.axes| {
      RemembersSelf(s, s);
    } else {
      ConfigureAxesStep(s, i, phase);
      var t := ConfigureAxis(s, i, phase);
      RoundRemembers(s, i, phase);
      ConfigureRemembers(t, i + 1, phase);
      RemembersNext(s, t, ConfigureAxes(s, i, phase));
    }
  }

  lemma {:induction false} LoopRemembers(s: State, ids: seq<nat>, bp: map<nat, int>, relative: bool)
    requires AllIn(ids, bp)
    ensures Remembers(s, RunMoves(s, ids, bp, relative).0)
    decreases |ids|
  {
    hide Remembers;
    if ids == [] {
      RemembersSelf(s, s);
    } else {
      var s1 := SaveSetAxisNum(s, ids[0]);
      var s2 := Send(s1, MoveCommand(relative, bp[ids[0]]));
      SendRemembers(s, Select(ids[0]), s1);
      SendRemembers(s1, MoveCommand(relative, bp[ids[0]]), s2);
      RemembersNext(s, s1, s2);
      hide SaveSetAxisNum, Send;
      if Code(Answer(s1.link)) >= 0 {
        LoopRemembers(s2, ids[1..], bp, relative);
        RemembersNext(s, s2, RunMoves(s2, ids[1..], bp, relative).0);
      }
    }
  }

  lemma MoveRemembers(s: State, pos: map<nat, real>, relative: bool)
    requires SoundFactors(s.axes)
    ensures Remembers(s, MoveUser(s, pos, relative).0)
  {
    hide Remembers, RunMoves, ToBare;
    var bp := ToBare(s.axes, KeysInOrder(pos), pos, map[]);
    var e := SaveEnvironment(s);
    var t := RunMoves(e, KeysInOrder(bp), bp, relative).0;
    RemembersSelf(s, e);
    LoopRemembers(e, KeysInOrder(bp), bp, relative);
    RemembersNext(s, e, t);
    SendRemembers(t, Select(t.env), RestoreEnvironment(t));
    RemembersNext(s, t, RestoreEnvironment(t));
  }

  lemma {:induction false} ZeroKeepsError(s: State, i: nat, bp: map<nat, int>)
    requires i <= |s.axes| && Covers(s.axes, bp)
    ensures ZeroAxes(s, i, bp).link == s.link && ZeroAxes(s, i, bp).err == s.err
    decreases |s.axes| - i
  {
    if i < |s.axes| {
      ZeroAxesStep(s, i, bp);
      ZeroKeepsError(ZeroAxis(s, i, bp), i + 1, bp);
    }
  }

  lemma ZeroRemembers(s: State)
    ensures Remembers(s, SetZero(s))
  {
    DefaultCovers(s);
    hide Remembers, Merge, ZeroAxes;
    var (s1, bp) := ReadBare(s, DefaultBare(s.axes));
    ZeroKeepsError(s1, 0, bp);
    SendRemembers(s, QueryPositions, SetZero(s));
  }

  lemma InitialRemembers(s: State)
    requires Valid(s)
    ensures Remembers(s, SetInitialZero(s).0)
  {
    hide Remembers, ConfigureAxes;
    if s.init {
      var s1 := Send(s, QueryPositions);
      var t := ConfigureAxes(s1, 0, Final);
      SendRemembers(s, QueryPositions, s1);
      ConfigureRemembers(s1, 0, Final);
      RemembersNext(s, s1, t);
      RemembersSelf(t, SetInitialZero(s).0);
      RemembersNext(s, t, SetInitialZero(s).0);
    } else {
      RemembersSelf(s, s);
    }
  }

  /** Whatever an operation does, the board remembers the text of the latest error reply. */
  lemma ExecRemembers(s: State, op: Op)
    requires Valid(s)
    ensures Remembers(s, Exec(s, op))
  {
    hide Remembers, MoveUser, SetZero, SetInitialZero, SavePositions, Merge, ToUser;
    match op
    case MoveTo(p) => MoveRemembers(s, p, false);
    case MoveBy(p) => MoveRemembers(s, p, true);
    case Zero => ZeroRemembers(s);
    case InitialZero => InitialRemembers(s);
    case SaveFile => SendRemembers(s, QueryPositions, SaveXml(s));
    case SelectAxis(id) => SendRemembers(s, Select(id), SetAxisNum(s, id));
    case Jog(on) => SendRemembers(s, if on then JogOn else JogOff, Exec(s, op));
    case Show => SendRemembers(s, QueryPositions, Exec(s, op));
    case ShowSteps => SendRemembers(s, QueryPositions, Exec(s, op));
  }

  /** So it is after any run. */
  lemma {:induction false} RunRemembers(s: State, ops: seq<Op>)
    requires Valid(s)
    ensures Remembers(s, Run(s, ops))
    decreases |ops|
  {
    hide Remembers, Exec;
    if ops == [] {
      RemembersSelf(s, s);
    } else {
      RunRemembers(s, ops[..|ops| - 1]);
      RunLast(s, ops);
      ExecRemembers(Run(s, ops[..|ops| - 1]), ops[|ops| - 1]);
      RemembersNext(s, Run(s, ops[..|ops| - 1]), Run(s, ops));
    }
  }
}
