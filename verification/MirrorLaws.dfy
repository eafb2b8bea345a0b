/** Axis objects, configuration tree and controller registers kept in agreement
    (src/core/IAPBoard.cpp:43-59, 82-103, 395-416, 603-660). */
module MirrorLaws {
  import opened Basics
  import opened Controller
  import opened Config
  import opened BoardSpec
  import opened MoveLaws

  // ----- agreement -----

  /** Everything but the position, which moves change on the chip and `savexml` in the file. */
  function Parameters(v: Settings): Settings {
    v.(position := 0)
  }

  /** Axis object i repeats its node of the tree, but for the stored position. */
  ghost predicate MirrorsTree(s: State, i: nat)
    requires i < |s.axes| && AllListed(s.nodes, s.axes)
  {
    var n := FirstNode(s.nodes, s.axes[i].id);
    s.axes[i].conv == n.conv && Parameters(s.axes[i].settings) == Parameters(n.settings)
  }

  ghost predicate MirrorsChip(s: State, i: nat)
    requires i < |s.axes|
  {
    Parameters(Channel(s.link.ctrl, s.axes[i].id)) == Parameters(s.axes[i].settings)
  }

  ghost predicate Mirror(s: State) {
    AllListed(s.nodes, s.axes) && forall i :: 0 <= i < |s.axes| ==> MirrorsTree(s, i)
  }

  ghost predicate ChipMirror(s: State) {
    forall i :: 0 <= i < |s.axes| ==> MirrorsChip(s, i)
  }

  /** The axis, its node and its channel agree on everything, position included. */
  ghost predicate Settled(s: State, i: nat)
    requires i < |s.axes| && AllListed(s.nodes, s.axes)
  {
    var n := FirstNode(s.nodes, s.axes[i].id);
    s.axes[i].conv == n.conv && s.axes[i].settings == n.settings && Channel(s.link.ctrl, s.axes[i].id) == n.settings
  }

  // ----- register writes -----

  lemma AcceptedEarlier(l: Link, later: Link, from: nat)
    requires Extends(l, later) && AllAccepted(later, from)
    ensures AllAccepted(l, from)
  {
    forall k | from <= k < |l.log| ensures l.log[k].reply.Accepted? {
      EventKept(l, later, k);
    }
  }

  lemma SendExtends(s: State, cmd: Command)
    ensures Extends(s.link, Send(s, cmd).link)
    ensures |Send(s, cmd).link.log| == |s.link.log| + 1
    ensures Send(s, cmd).link.log[|s.link.log|] == Event(cmd, Answer(s.link), s.link.ctrl)
  {
  }

  lemma {:induction false} WritesExtend(s: State, regs: seq<Register>, v: Settings)
    ensures Extends(s.link, WriteRegisters(s, regs, v).link)
    ensures WriteRegisters(s, regs, v).link.ctrl.selected == s.link.ctrl.selected
    decreases |regs|
  {
    if regs != [] {
      var front, last := regs[..|regs| - 1], regs[|regs| - 1];
      WritesExtend(s, front, v);
      var t := WriteRegisters(s, front, v);
      SendExtends(t, Write(last, RegisterOf(v, last)));
      ExtendsTransitive(s.link, t.link, WriteRegisters(s, regs, v).link);
    }
  }

  lemma OneWrite(s: State, reg: Register, v: int)
    requires Answer(s.link).Accepted?
    ensures var c, c' := s.link.ctrl, Send(s, Write(reg, v)).link.ctrl;
      && (forall x :: x != c.selected ==> Channel(c', x) == Channel(c, x))
      && Channel(c', c.selected) == WithRegister(Channel(c, c.selected), reg, v)
  {
  }

  lemma WithRegisterReads(st: Settings, reg: Register, v: int, other: Register)
    ensures RegisterOf(WithRegister(st, reg, v), other) == if other == reg then v else RegisterOf(st, other)
  {
  }

  /** Accepted writes reach the selected channel only, each in its own register. */
  lemma {:induction false} WritesEffect(s: State, regs: seq<Register>, v: Settings, x: nat, reg: Register)
    requires AllAccepted(WriteRegisters(s, regs, v).link, |s.link.log|)
    ensures var c, c' := s.link.ctrl, WriteRegisters(s, regs, v).link.ctrl;
      && (x != c.selected ==> Channel(c', x) == Channel(c, x))
      && RegisterOf(Channel(c', c.selected), reg) ==
           if reg in regs then RegisterOf(v, reg) else RegisterOf(Channel(c, c.selected), reg)
    decreases |regs|
  {
    if regs != [] {
      var front, last := regs[..|regs| - 1], regs[|regs| - 1];
      var t := WriteRegisters(s, front, v);
      WritesExtend(s, front, v);
      SendExtends(t, Write(last, RegisterOf(v, last)));
      AcceptedEarlier(t.link, WriteRegisters(s, regs, v).link, |s.link.log|);
      WritesEffect(s, front, v, x, reg);
      OneWrite(t, last, RegisterOf(v, last));
      WithRegisterReads(Channel(t.link.ctrl, s.link.ctrl.selected), last, RegisterOf(v, last), reg);
      assert regs == front + [last];
    }
  }

  /** All nine writes together copy the settings onto the selected channel. */
  lemma AllWritesEffect(s: State, v: Settings, x: nat)
    requires AllAccepted(WriteRegisters(s, ALL_REGISTERS, v).link, |s.link.log|)
    ensures Channel(WriteRegisters(s, ALL_REGISTERS, v).link.ctrl, x) ==
      if x == s.link.ctrl.selected then v else Channel(s.link.ctrl, x)
  {
    hide WriteRegisters;
    var c' := WriteRegisters(s, ALL_REGISTERS, v).link.ctrl;
    WritesEffect(s, ALL_REGISTERS, v, x, Position);
    forall reg | reg in ALL_REGISTERS
      ensures RegisterOf(Channel(c', s.link.ctrl.selected), reg) == RegisterOf(v, reg)
    {
      WritesEffect(s, ALL_REGISTERS, v, x, reg);
    }
    SameRegisters(Channel(c', s.link.ctrl.selected), v);
  }

  // ----- refreshing one axis -----

  /** Whatever is accepted: the tree stays, other axis objects stay, and axis i is parsed again
      exactly when its select is accepted. */
  lemma UpdateRecords(s: State, i: nat)
    requires i < |s.axes| && Listed(s.nodes, s.axes[i].id)
    ensures Extends(s.link, UpdateConfiguration(s, i).link)
    ensures |UpdateConfiguration(s, i).link.log| > |s.link.log|
    ensures UpdateConfiguration(s, i).link.log[|s.link.log|] ==
      Event(Select(s.axes[i].id), Answer(s.link), s.link.ctrl)
    ensures UpdateConfiguration(s, i).axes ==
      if Answer(s.link).Accepted? then s.axes[i := Parsed(s.axes[i], FirstNode(s.nodes, s.axes[i].id))] else s.axes
  {
    SendExtends(s, Select(s.axes[i].id));
    if Answer(s.link).Accepted? {
      var n := FirstNode(s.nodes, s.axes[i].id);
      var t := SetAxisNum(s, s.axes[i].id).(axes := s.axes[i := Parsed(s.axes[i], n)]);
      WritesExtend(t, ALL_REGISTERS, n.settings);
      ExtendsTransitive(s.link, t.link, UpdateConfiguration(s, i).link);
      EventKept(t.link, UpdateConfiguration(s, i).link, |s.link.log|);
    }
  }

  /** After a refresh the axis object repeats the tree exactly when the select was accepted or it
      did so before: a rejected select leaves the object stale. */
  lemma UpdateMirrorsExactly(s: State, i: nat)
    requires i < |s.axes| && AllListed(s.nodes, s.axes)
    ensures AllListed(UpdateConfiguration(s, i).nodes, UpdateConfiguration(s, i).axes)
    ensures MirrorsTree(UpdateConfiguration(s, i), i) <==> Answer(s.link).Accepted? || MirrorsTree(s, i)
  {
    UpdateRecords(s, i);
    ListedKept(s.nodes, s.nodes, s.axes, UpdateConfiguration(s, i).axes);
  }

  /** With everything accepted the axis's own channel, and no other, carries the settings of the
      tree, and that axis is the current one. */
  lemma UpdateEffect(s: State, i: nat, x: nat)
    requires i < |s.axes| && Listed(s.nodes, s.axes[i].id)
    requires AllAccepted(UpdateConfiguration(s, i).link, |s.link.log|)
    ensures Channel(UpdateConfiguration(s, i).link.ctrl, x) ==
      if x == s.axes[i].id then FirstNode(s.nodes, x).settings else Channel(s.link.ctrl, x)
    ensures UpdateConfiguration(s, i).link.ctrl.selected == s.axes[i].id
    ensures UpdateConfiguration(s, i).cur == Some(s.axes[i].id)
  {
    UpdateRecords(s, i);
    assert UpdateConfiguration(s, i).link.log[|s.link.log|].reply.Accepted?;
    var n := FirstNode(s.nodes, s.axes[i].id);
    var t := SetAxisNum(s, s.axes[i].id).(axes := s.axes[i := Parsed(s.axes[i], n)]);
    assert Registered(s.axes, s.axes[i].id);
    WritesExtend(t, ALL_REGISTERS, n.settings);
    AllWritesEffect(t, n.settings, x);
  }

  // ----- the tree updates of one axis -----

  function PreliminaryNode(n: Node): Node {
    var upper := SoftLimit(n.init.preRangeFac, n.init.halfAxisTurns);
    n.(settings := n.settings.(position := 0, lowerLimit := -upper, upperLimit := upper), conv := n.conv.(offset := 0))
  }

  function FinalNode(n: Node): Node {
    var lower := LowerSoftLimit(n.init.rangeFac, n.init.halfAxisTurns, n.init.constBackwardSoftLimit);
    var upper := UpperSoftLimit(n.init.rangeFac, n.init.halfAxisTurns, n.init.constForwardSoftLimit);
    n.(settings := n.settings.(position := 0, lowerLimit := lower, upperLimit := upper), conv := n.conv.(offset := 0))
  }

  function PreparedNode(n: Node, phase: Phase): Node {
    match phase
    case AsIs => n
    case Preliminary => PreliminaryNode(n)
    case Final => FinalNode(n)
  }

  lemma FourPuts(nodes: seq<Node>, id: nat, e1: Element, v1: int, e2: Element, v2: int, x: nat)
    requires Listed(nodes, x)
    ensures var after := PutAll(PutAll(nodes, id, e1, v1), id, e2, v2);
      && Listed(after, x)
      && FirstNode(after, x) == if x == id then Put(Put(FirstNode(nodes, x), e1, v1), e2, v2) else FirstNode(nodes, x)
  {
    PutThenFirst(nodes, id, e1, v1, x);
    PutThenFirst(PutAll(nodes, id, e1, v1), id, e2, v2, x);
  }

  lemma DistinctKept(nodes: seq<Node>, after: seq<Node>)
    requires DistinctNodes(nodes)
    requires |after| == |nodes| && forall i :: 0 <= i < |nodes| ==> after[i].id == nodes[i].id
    ensures DistinctNodes(after)
  {
  }

  function ClearedNode(n: Node): Node {
    n.(settings := n.settings.(position := 0), conv := n.conv.(offset := 0))
  }

  lemma ClearedNodes(nodes: seq<Node>, id: nat, x: nat)
    requires DistinctNodes(nodes) && Listed(nodes, x)
    ensures DistinctNodes(Cleared(nodes, id)) && Listed(Cleared(nodes, id), x)
    ensures FirstNode(Cleared(nodes, id), x) == if x == id then ClearedNode(FirstNode(nodes, x)) else FirstNode(nodes, x)
  {
    FourPuts(nodes, id, PositionElement, 0, OffsetElement, 0, x);
    DistinctKept(nodes, Cleared(nodes, id));
  }

  lemma FinalInitNode(nodes: seq<Node>, id: nat, x: nat)
    requires DistinctNodes(nodes) && Listed(nodes, id) && Listed(nodes, x)
    ensures Listed(FinalInit(nodes, id), x)
    ensures FirstNode(FinalInit(nodes, id), x) == if x == id then FinalNode(FirstNode(nodes, id)) else FirstNode(nodes, x)
  {
    hide PutAll, FirstNode, GetLast, Cleared, UpperSoftLimit, LowerSoftLimit;
    var n1 := Cleared(nodes, id);
    ClearedNodes(nodes, id, id);
    ClearedNodes(nodes, id, x);
    GettersAgree(n1, id, (n: Node) => n.init.rangeFac, 0.0);
    GettersAgree(n1, id, (n: Node) => n.init.halfAxisTurns, 0);
    GettersAgree(n1, id, (n: Node) => n.init.constForwardSoftLimit, 0.0);
    GettersAgree(n1, id, (n: Node) => n.init.constBackwardSoftLimit, 0.0);
    var init := FirstNode(nodes, id).init;
    FourPuts(n1, id, UpperLimitElement, UpperSoftLimit(init.rangeFac, init.halfAxisTurns, init.constForwardSoftLimit),
             LowerLimitElement, LowerSoftLimit(init.rangeFac, init.halfAxisTurns, init.constBackwardSoftLimit), x);
  }

  lemma PreInitNode(nodes: seq<Node>, id: nat, x: nat)
    requires DistinctNodes(nodes) && Listed(nodes, id) && Listed(nodes, x)
    ensures Listed(PreInit(nodes, id), x)
    ensures FirstNode(PreInit(nodes, id), x) == if x == id then PreliminaryNode(FirstNode(nodes, id)) else FirstNode(nodes, x)
  {
    hide PutAll, FirstNode, GetLast, Cleared, SoftLimit;
    var n1 := Cleared(nodes, id);
    ClearedNodes(nodes, id, id);
    ClearedNodes(nodes, id, x);
    GettersAgree(n1, id, (n: Node) => n.init.preRangeFac, 0.0);
    GettersAgree(n1, id, (n: Node) => n.init.halfAxisTurns, 0);
    var init := FirstNode(nodes, id).init;
    var upper := SoftLimit(init.preRangeFac, init.halfAxisTurns);
    FourPuts(n1, id, LowerLimitElement, -upper, UpperLimitElement, upper, x);
  }

  lemma PreparedNodes(nodes: seq<Node>, id: nat, phase: Phase, x: nat)
    requires DistinctNodes(nodes) && Listed(nodes, id) && Listed(nodes, x)
    ensures DistinctNodes(Prepared(nodes, id, phase)) && Listed(Prepared(nodes, id, phase), x)
    ensures FirstNode(Prepared(nodes, id, phase), x) ==
      if x == id then PreparedNode(FirstNode(nodes, id), phase) else FirstNode(nodes, x)
  {
    DistinctKept(nodes, Prepared(nodes, id, phase));
    match phase
    case AsIs =>
    case Preliminary => PreInitNode(nodes, id, x);
    case Final => FinalInitNode(nodes, id, x);
  }

  // ----- refreshing all axes -----

  ghost predicate Distinct(s: State) {
    DistinctIds(s.axes) && DistinctNodes(s.nodes) && AllListed(s.nodes, s.axes)
  }

  /** One round of the loop, seen from axis j: its own node and object change, others do not. */
  ghost predicate Round(s: State, r: State, i: nat, phase: Phase, j: nat)
    requires i < |s.axes| && j < |s.axes| && Distinct(s)
  {
    && Distinct(r) && SameAxisIds(s.axes, r.axes) && Extends(s.link, r.link)
    && |r.link.log| > |s.link.log|
    && r.link.log[|s.link.log|] == Event(Select(s.axes[i].id), Answer(s.link), s.link.ctrl)
    && FirstNode(r.nodes, s.axes[j].id) ==
         (if j == i then PreparedNode(FirstNode(s.nodes, s.axes[j].id), phase) else FirstNode(s.nodes, s.axes[j].id))
    && r.axes[j] ==
         (if j == i && Answer(s.link).Accepted? then Parsed(s.axes[j], FirstNode(r.nodes, s.axes[j].id)) else s.axes[j])
  }

  lemma ConfigureRound(s: State, i: nat, phase: Phase, j: nat)
    requires i < |s.axes| && j < |s.axes| && Distinct(s)
    ensures Round(s, ConfigureAxis(s, i, phase), i, phase, j)
  {
    hide Prepared, FirstNode, PreparedNode;
    var s1 := s.(nodes := Prepared(s.nodes, s.axes[i].id, phase));
    PreparedNodes(s.nodes, s.axes[i].id, phase, s.axes[j].id);
    ListedKept(s.nodes, s1.nodes, s.axes, s.axes);
    UpdateRecords(s1, i);
    DistinctKept(s.nodes, s1.nodes);
  }

  lemma {:induction false} ConfigureExtends(s: State, i: nat, phase: Phase)
    requires i <= |s.axes| && Distinct(s)
    ensures Extends(s.link, ConfigureAxes(s, i, phase).link)
    decreases |s.axes| - i, 1
  {
    if i < |s.axes| {
      ExtendsFrom(s, i, phase);
    }
  }

  lemma {:induction false} ExtendsFrom(s: State, i: nat, phase: Phase)
    requires i < |s.axes| && Distinct(s)
    ensures AllListed(s.nodes, s.axes)
    ensures Extends(s.link, ConfigureAxes(s, i, phase).link)
    decreases |s.axes| - i, 0
  {
    hide *;
    DistinctParts(s);
    ConfigureAxesStep(s, i, phase);
    var t := ConfigureAxis(s, i, phase);
    ConfigureRound(s, i, phase, i);
    RoundBasics(s, t, i, phase, i);
    ConfigureExtends(t, i + 1, phase);
    ExtendsTransitive(s.link, t.link, ConfigureAxes(s, i, phase).link);
  }

  /** What the loop from axis i on leaves of axis j. */
  ghost predicate Configured(s: State, r: State, i: nat, phase: Phase, j: nat)
    requires j < |s.axes| && Distinct(s)
  {
    && Distinct(r) && SameAxisIds(s.axes, r.axes)
    && FirstNode(r.nodes, s.axes[j].id) ==
         (if j >= i then PreparedNode(FirstNode(s.nodes, s.axes[j].id), phase) else FirstNode(s.nodes, s.axes[j].id))
    && r.axes[j] == (if j >= i then Parsed(s.axes[j], FirstNode(r.nodes, s.axes[j].id)) else s.axes[j])
  }

  lemma ConfiguredAfterRound(s: State, t: State, r: State, i: nat, phase: Phase, j: nat)
    requires i < |s.axes| && j < |s.axes| && Distinct(s)
    requires Round(s, t, i, phase, j) && Answer(s.link).Accepted?
    requires Configured(t, r, i + 1, phase, j)
    ensures Configured(s, r, i, phase, j)
  {
    hide FirstNode, PreparedNode;
  }

  lemma FirstSelectAccepted(s: State, t: State, l: Link, i: nat, phase: Phase, j: nat)
    requires i < |s.axes| && j < |s.axes| && Distinct(s)
    requires Round(s, t, i, phase, j) && Extends(t.link, l) && SelectsAccepted(l, |s.link.log|)
    ensures Answer(s.link).Accepted? && SelectsAccepted(l, |t.link.log|)
  {
    EventKept(t.link, l, |s.link.log|);
  }

  /** With accepted selects, the loop gives every axis from i on the tree values prepared for it
      and parses its object from them; earlier axes are left alone. */
  lemma {:induction false} ConfigureRecords(s: State, i: nat, phase: Phase, j: nat)
    requires i <= |s.axes| && j < |s.axes| && Distinct(s)
    requires SelectsAccepted(ConfigureAxes(s, i, phase).link, |s.link.log|)
    ensures Configured(s, ConfigureAxes(s, i, phase), i, phase, j)
    decreases |s.axes| - i, 1
  {
    if i < |s.axes| {
      ConfigureRound(s, i, phase, j);
      LaterRecords(s, ConfigureAxis(s, i, phase), i, phase, j);
    }
  }

  lemma {:induction false} LaterRecords(s: State, t: State, i: nat, phase: Phase, j: nat)
    requires i < |s.axes| && j < |s.axes| && Distinct(s) && Round(s, t, i, phase, j)
    requires SelectsAccepted(ConfigureAxes(t, i + 1, phase).link, |s.link.log|)
    ensures Configured(s, ConfigureAxes(t, i + 1, phase), i, phase, j)
    decreases |s.axes| - i, 0
  {
    hide *;
    RoundBasics(s, t, i, phase, j);
    ConfigureExtends(t, i + 1, phase);
    FirstSelectAccepted(s, t, ConfigureAxes(t, i + 1, phase).link, i, phase, j);
    ConfigureRecords(t, i + 1, phase, j);
    ConfiguredAfterRound(s, t, ConfigureAxes(t, i + 1, phase), i, phase, j);
  }

  lemma RoundBasics(s: State, t: State, i: nat, phase: Phase, j: nat)
    requires i < |s.axes| && j < |s.axes| && Distinct(s) && Round(s, t, i, phase, j)
    ensures AllListed(s.nodes, s.axes) && AllListed(t.nodes, t.axes) && AllListed(t.nodes, s.axes)
    ensures |t.axes| == |s.axes| && SameAxisIds(s.axes, t.axes)
    ensures Distinct(t) && Extends(s.link, t.link) && |t.link.log| > |s.link.log|
    ensures t.axes[j].id == s.axes[j].id && t.axes[|s.axes| - 1].id == s.axes[|s.axes| - 1].id
  {
  }

  lemma RoundOnChip(s: State, i: nat, phase: Phase, j: nat)
    requires i < |s.axes| && j < |s.axes| && Distinct(s)
    requires AllAccepted(ConfigureAxis(s, i, phase).link, |s.link.log|)
    ensures ChipRound(s, ConfigureAxis(s, i, phase), i, j)
  {
    hide Prepared, FirstNode, WriteRegisters;
    var s1 := s.(nodes := Prepared(s.nodes, s.axes[i].id, phase));
    ListedKept(s.nodes, s1.nodes, s.axes, s.axes);
    UpdateEffect(s1, i, s.axes[j].id);
  }

  /** The chip's side of the loop from axis i on, seen from axis j. */
  ghost predicate ChipConfigured(s: State, r: State, i: nat, j: nat)
    requires j < |s.axes|
  {
    && AllListed(r.nodes, s.axes)
    && Channel(r.link.ctrl, s.axes[j].id) ==
         (if j >= i then FirstNode(r.nodes, s.axes[j].id).settings else Channel(s.link.ctrl, s.axes[j].id))
    && r.link.ctrl.selected == (if i < |s.axes| then s.axes[|s.axes| - 1].id else s.link.ctrl.selected)
    && r.cur == (if i < |s.axes| then Some(s.axes[|s.axes| - 1].id) else s.cur)
  }

  /** With everything accepted, every channel from i on carries the settings of the tree, and the
      last axis ends up current and selected. */
  lemma {:induction false} ConfigureChip(s: State, i: nat, phase: Phase, j: nat)
    requires i <= |s.axes| && j < |s.axes| && Distinct(s)
    requires AllAccepted(ConfigureAxes(s, i, phase).link, |s.link.log|)
    ensures ChipConfigured(s, ConfigureAxes(s, i, phase), i, j)
    decreases |s.axes| - i, 2
  {
    if i < |s.axes| {
      ChipFrom(s, i, phase, j);
    }
  }

  lemma {:induction false} ChipFrom(s: State, i: nat, phase: Phase, j: nat)
    requires i < |s.axes| && j < |s.axes| && Distinct(s)
    requires AllAccepted(ConfigureAxes(s, i, phase).link, |s.link.log|)
    ensures ChipConfigured(s, ConfigureAxes(s, i, phase), i, j)
    decreases |s.axes| - i, 1
  {
    hide *;
    assert AllListed(s.nodes, s.axes) by { DistinctParts(s); }
    ConfigureAxesStep(s, i, phase);
    var t := ConfigureAxis(s, i, phase);
    ConfigureRound(s, i, phase, j);
    RoundBasics(s, t, i, phase, j);
    ConfigureExtends(t, i + 1, phase);
    AcceptedEarlier(t.link, ConfigureAxes(t, i + 1, phase).link, |s.link.log|);
    RoundOnChip(s, i, phase, j);
    LaterChip(s, t, i, phase, j);
  }

  lemma DistinctParts(s: State)
    requires Distinct(s)
    ensures DistinctIds(s.axes) && DistinctNodes(s.nodes) && AllListed(s.nodes, s.axes)
  {
  }

  lemma {:induction false} LaterChip(s: State, t: State, i: nat, phase: Phase, j: nat)
    requires i < |s.axes| && j < |s.axes| && Distinct(s) && Round(s, t, i, phase, j)
    requires ChipRound(s, t, i, j)
    requires AllAccepted(ConfigureAxes(t, i + 1, phase).link, |s.link.log|)
    ensures ChipConfigured(s, ConfigureAxes(t, i + 1, phase), i, j)
    decreases |s.axes| - i, 0
  {
    hide *;
    RoundBasics(s, t, i, phase, j);
    var r := ConfigureAxes(t, i + 1, phase);
    LaterAccepted(r.link, |s.link.log|, |t.link.log|);
    ConfigureChip(t, i + 1, phase, j);
    ConfigureRecords(t, i + 1, phase, j);
    ConfiguredKeeps(t, r, i + 1, phase, j);
    ChipAfterRound(s, t, r, i, j);
  }

  lemma ChipAfterRound(s: State, t: State, r: State, i: nat, j: nat)
    requires i < |s.axes| && j < |s.axes| && |t.axes| == |s.axes|
    requires t.axes[j].id == s.axes[j].id && t.axes[|s.axes| - 1].id == s.axes[|s.axes| - 1].id
    requires ChipRound(s, t, i, j) && ChipConfigured(t, r, i + 1, j)
    requires SameAxisIds(s.axes, t.axes) && AllListed(t.nodes, t.axes) && AllListed(r.nodes, t.axes)
    requires j <= i ==> FirstNode(r.nodes, t.axes[j].id) == FirstNode(t.nodes, t.axes[j].id)
    ensures ChipConfigured(s, r, i, j)
  {
    ListedKept(r.nodes, r.nodes, t.axes, s.axes);
    hide FirstNode, AllListed, Channel, SameAxisIds;
  }

  ghost predicate ChipRound(s: State, t: State, i: nat, j: nat)
    requires i < |s.axes| && j < |s.axes|
  {
    && AllListed(t.nodes, s.axes)
    && Channel(t.link.ctrl, s.axes[j].id) ==
         (if j == i then FirstNode(t.nodes, s.axes[j].id).settings else Channel(s.link.ctrl, s.axes[j].id))
    && t.link.ctrl.selected == s.axes[i].id && t.cur == Some(s.axes[i].id)
  }

  lemma ConfiguredKeeps(s: State, r: State, i: nat, phase: Phase, j: nat)
    requires j < |s.axes| && Distinct(s) && Configured(s, r, i, phase, j)
    ensures AllListed(s.nodes, s.axes) && AllListed(r.nodes, s.axes)
    ensures j < i ==> FirstNode(r.nodes, s.axes[j].id) == FirstNode(s.nodes, s.axes[j].id)
  {
  }

  lemma LaterAccepted(l: Link, from: nat, later: nat)
    requires AllAccepted(l, from) && from <= later
    ensures AllAccepted(l, later) && SelectsAccepted(l, later)
  {
  }

  /** After accepted `initAxes` every axis object, its tree node and its channel agree fully. */
  lemma ConfigureSettles(s: State, phase: Phase, j: nat)
    requires j < |s.axes| && Distinct(s)
    requires AllAccepted(ConfigureAxes(s, 0, phase).link, |s.link.log|)
    ensures Settled(ConfigureAxes(s, 0, phase), j)
  {
    AcceptedKinds(ConfigureAxes(s, 0, phase).link, |s.link.log|);
    ConfigureRecords(s, 0, phase, j);
    ConfigureChip(s, 0, phase, j);
  }
}
