/** Saving the positions and starting the program again (src/core/IAP_server.cpp:184-205,
    src/core/IAPBoard.cpp:120-197): what the user saw before is what the user sees afterwards. */
module RestartLaws {
  import opened Basics
  import opened Units
  import opened Report
  import opened Controller
  import opened Config
  import opened BoardSpec
  import opened MoveLaws
  import opened ReadLaws
  import opened MirrorLaws
  import opened RunLaws
  import opened InvariantLaws
  import opened Board

  /** With a faithful report `savexml` stores the true position of every axis, and nothing else. */
  lemma SavedTruth(s: State, j: nat)
    requires Valid(s) && Distinct(s) && FaithfulAnswer(s) && j < |s.axes|
    ensures Listed(SaveXml(s).nodes, s.axes[j].id) && Listed(s.nodes, s.axes[j].id)
    ensures FirstNode(SaveXml(s).nodes, s.axes[j].id) ==
      Put(FirstNode(s.nodes, s.axes[j].id), PositionElement, PositionOf(s.link.ctrl, s.axes[j].id))
  {
    ReadBareTruth(s, map[]);
    hide ReadBare, SavePositions, FirstNode, PositionOf, FaithfulAnswer;
    var bp := ReadBare(s, map[]).1;
    assert Registered(s.axes, s.axes[j].id);
    SaveEffect(s.nodes, KeysInOrder(bp), bp, s.axes[j].id);
    SavedNodes(s);
  }

  lemma SavedNodes(s: State)
    ensures SaveXml(s).nodes == SavePositions(s.nodes, KeysInOrder(ReadBare(s, map[]).1), ReadBare(s, map[]).1)
  {
    hide Merge, Scan, SavePositions, KeysInOrder;
  }

  function ConnectPhase(s: State): Phase {
    if s.init then Preliminary else AsIs
  }

  /** An accepted `connect` leaves every axis, node and channel in full agreement; outside initialisation
      mode the tree is as it was. */
  lemma ConnectSettles(s: State, j: nat)
    requires Valid(s) && Distinct(s) && j < |s.axes|
    requires AllAccepted(Connect(s).link, |s.link.log|)
    ensures Distinct(Connect(s)) && SameAxisIds(s.axes, Connect(s).axes)
    ensures Settled(Connect(s), j)
    ensures FirstNode(Connect(s).nodes, s.axes[j].id) == PreparedNode(FirstNode(s.nodes, s.axes[j].id), ConnectPhase(s))
    ensures !s.init ==> FirstNode(Connect(s).nodes, s.axes[j].id) == FirstNode(s.nodes, s.axes[j].id)
  {
    ConnectSteps(s);
    var s1 := Send(Send(s, Identify), ChannelCount(MaxId(s.axes)));
    assert s1.nodes == s.nodes && s1.init == s.init;
    hide *;
    SettledTail(s, s1, InitAxes(s1), Connect(s), j);
    Unprepared(FirstNode(s.nodes, s.axes[j].id), s);
  }

  lemma Unprepared(n: Node, s: State)
    ensures !s.init ==> PreparedNode(n, ConnectPhase(s)) == n
  {
  }

  /** In initialisation mode an accepted `connect` gives every axis position 0, zero offset 0 and the
      limits of its preliminary range, in the tree and on the chip. */
  lemma ConnectInitialises(s: State, j: nat)
    requires Valid(s) && Distinct(s) && j < |s.axes| && s.init
    requires AllAccepted(Connect(s).link, |s.link.log|)
    ensures Distinct(Connect(s)) && |Connect(s).axes| == |s.axes| && Settled(Connect(s), j)
    ensures var n, c := FirstNode(s.nodes, s.axes[j].id), Channel(Connect(s).link.ctrl, s.axes[j].id);
      && OnlyReset(n, FirstNode(Connect(s).nodes, s.axes[j].id))
      && c.position == 0 && SpansRange(c.lowerLimit, c.upperLimit, n.init.preRangeFac, n.init.halfAxisTurns)
      && Connect(s).axes[j].conv.offset == 0
  {
    ConnectSettles(s, j);
    PreliminaryLimits(FirstNode(s.nodes, s.axes[j].id));
    hide Connect, FirstNode, PreliminaryNode, Channel, SpansRange;
  }

  lemma SettledTail(s: State, s1: State, i: State, r: State, j: nat)
    requires Valid(s1) && Distinct(s1) && s1.axes == s.axes && s1.nodes == s.nodes && j < |s.axes| && s1.init == s.init
    requires |s1.link.log| == |s.link.log| + 2 && AllListed(s.nodes, s.axes)
    requires i == InitAxes(s1) && Extends(i.link, r.link) && |r.link.log| == |i.link.log| + 2
    requires r.link.log[|i.link.log|] == Event(Select(1), Answer(i.link), i.link.ctrl)
    requires r.axes == i.axes && r.nodes == i.nodes
    requires Answer(i.link).Accepted? ==> r.link.ctrl == i.link.ctrl.(selected := 1)
    requires AllAccepted(r.link, |s.link.log|)
    ensures Distinct(r) && SameAxisIds(s.axes, r.axes) && Settled(r, j)
    ensures FirstNode(r.nodes, s.axes[j].id) == PreparedNode(FirstNode(s.nodes, s.axes[j].id), ConnectPhase(s))
  {
    assert r.link.log[|i.link.log|].reply.Accepted? by { InitLonger(s1); }
    AcceptedEarlier(i.link, r.link, |s.link.log|);
    LaterAccepted(i.link, |s.link.log|, |s1.link.log|);
    hide ConfigureAxes, FirstNode, Channel, PreparedNode;
    ConfigureSettles(s1, ConnectPhase(s), j);
    ConfigureRecords(s1, 0, ConnectPhase(s), j);
    SameChannels(i.link.ctrl, r.link.ctrl, r.axes[j].id);
  }

  /** Saving changes stored positions only, so the saved tree still makes a valid board. */
  lemma SavedTree(s: State)
    requires Valid(s) && Distinct(s)
    ensures DistinctNodes(SaveXml(s).nodes)
    ensures forall i :: 0 <= i < |SaveXml(s).nodes| ==> SaveXml(s).nodes[i].conv.factor != 0.0
  {
    var bp := ReadBare(s, map[]).1;
    SavedNodes(s);
    SaveShape(s.nodes, KeysInOrder(bp), bp);
    DistinctKept(s.nodes, SaveXml(s).nodes);
    hide SavePositions, ReadBare, SaveXml;
  }

  lemma FreshDistinct(nodes: seq<Node>, link: Link, initialize: bool)
    requires DistinctNodes(nodes)
    requires forall i :: 0 <= i < |nodes| ==> nodes[i].conv.factor != 0.0
    ensures Valid(Fresh(nodes, link, initialize)) && Distinct(Fresh(nodes, link, initialize))
  {
    FreshMirrors(nodes, link, initialize);
  }

  /** Every one of these axes has its id among the built ones. */
  ghost predicate Rebuilt(axes: seq<Axis>, built: seq<Axis>) {
    && (axes != [] ==> built != [])
    && forall j :: 0 <= j < |axes| ==> Registered(built, axes[j].id)
  }

  /** The board of the next program start, built from the saved tree. */
  function Restarted(s: State, link: Link): (f: State)
    requires Valid(s) && Distinct(s)
    ensures Valid(f) && Distinct(f) && f.link == link && f.nodes == SaveXml(s).nodes && !f.init
    ensures Rebuilt(s.axes, f.axes)
  {
    SavedTree(s);
    FreshDistinct(SaveXml(s).nodes, link, false);
    FreshAxes(s, link);
    Fresh(SaveXml(s).nodes, link, false)
  }

  lemma FreshAxes(s: State, link: Link)
    requires Valid(s) && Distinct(s)
    ensures Rebuilt(s.axes, Fresh(SaveXml(s).nodes, link, false).axes)
  {
    var bp, nodes := ReadBare(s, map[]).1, SaveXml(s).nodes;
    SavedNodes(s);
    SaveShape(s.nodes, KeysInOrder(bp), bp);
    ValidParts(s);
    hide *;
    FreshIds(nodes, link);
    SameIds(s.nodes, nodes, Fresh(nodes, link, false).axes, s.axes);
  }

  lemma FreshIds(nodes: seq<Node>, link: Link)
    ensures |Fresh(nodes, link, false).axes| == |nodes|
    ensures forall i :: 0 <= i < |nodes| ==> Fresh(nodes, link, false).axes[i].id == nodes[i].id
  {
  }

  lemma SameIds(nodes: seq<Node>, after: seq<Node>, built: seq<Axis>, axes: seq<Axis>)
    requires |built| == |after| == |nodes|
    requires forall i :: 0 <= i < |nodes| ==> after[i].id == nodes[i].id
    requires forall i :: 0 <= i < |nodes| ==> built[i].id == after[i].id
    requires AllListed(nodes, axes)
    ensures Rebuilt(axes, built)
  {
    forall j | 0 <= j < |axes| ensures Registered(built, axes[j].id) {
      assert Listed(nodes, axes[j].id);
      var i :| 0 <= i < |nodes| && nodes[i].id == axes[j].id;
      assert built[i].id == axes[j].id;
    }
    if axes != [] {
      assert Registered(built, axes[0].id);
    }
  }

  /** Power cycle: positions saved with a faithful report, a new board built from the saved tree and
      connected to any controller, all commands accepted. Then every axis stands at its old step
      count and shows its old user position. */
  lemma RestartKeepsPositions(s: State, link: Link, j: nat)
    requires Valid(s) && Distinct(s) && Mirror(s) && FaithfulAnswer(s) && j < |s.axes|
    requires AllAccepted(Connect(Restarted(s, link)).link, |link.log|)
    ensures var r, id := Connect(Restarted(s, link)), s.axes[j].id;
      && PositionOf(r.link.ctrl, id) == PositionOf(s.link.ctrl, id)
      && id in Displayed(r) && id in Displayed(s) && Displayed(r)[id] == Displayed(s)[id]
  {
    SavedTruth(s, j);
    assert MirrorsTree(s, j);
    hide Connect, FirstNode, SaveXml, Displayed, PositionOf, FaithfulAnswer, Restarted;
    var f := Restarted(s, link);
    assert Registered(f.axes, s.axes[j].id);
    var i :| 0 <= i < |f.axes| && f.axes[i].id == s.axes[j].id;
    ConnectSettles(f, i);
    SettledPosition(Connect(f), i);
    Shown(s, Connect(f), j, i);
  }

  lemma SettledPosition(r: State, i: nat)
    requires AllListed(r.nodes, r.axes) && i < |r.axes| && Settled(r, i)
    ensures PositionOf(r.link.ctrl, r.axes[i].id) == FirstNode(r.nodes, r.axes[i].id).settings.position
    ensures r.axes[i].conv == FirstNode(r.nodes, r.axes[i].id).conv
  {
  }

  lemma Shown(s: State, r: State, j: nat, i: nat)
    requires Distinct(s) && Distinct(r) && j < |s.axes| && i < |r.axes| && r.axes[i].id == s.axes[j].id
    requires r.axes[i].conv == s.axes[j].conv
    requires PositionOf(r.link.ctrl, r.axes[i].id) == PositionOf(s.link.ctrl, s.axes[j].id)
    ensures s.axes[j].id in Displayed(s) && s.axes[j].id in Displayed(r)
    ensures Displayed(r)[s.axes[j].id] == Displayed(s)[s.axes[j].id]
  {
    FindByIndex(s.axes, j);
    FindByIndex(r.axes, i);
    hide FindAxis, PositionOf;
  }
}
