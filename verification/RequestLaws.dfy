/** Every request by its text: what it does to the board and to the controller, and the very text of its
    reply (src/core/IAP_server.cpp:106-376). */
module RequestLaws {
  import opened Basics
  import opened Decimal
  import opened Units
  import opened Report
  import opened Controller
  import opened Config
  import opened BoardSpec
  import opened MoveLaws
  import opened ReadLaws
  import opened MirrorLaws
  import opened RunLaws
  import opened InvariantLaws
  import opened RestartLaws
  import opened ScriptLaws
  import opened Message
  import opened Texts
  import opened Display
  import opened Server
  import opened ServerLaws
  import P = Parser

  // ----- replies line by line -----

  /** One text for each id. */
  function Each(ids: seq<nat>, line: nat -> string): seq<string> {
    seq(|ids|, i requires 0 <= i < |ids| => line(ids[i]))
  }

  function Concat(parts: seq<string>): string {
    if parts == [] then "" else parts[0] + Concat(parts[1..])
  }

  /** The registered ids, in the order of the reply. */
  function Ids(axes: seq<Axis>): seq<nat> {
    SortedIds(RegisteredIds(axes))
  }

  lemma IdsRegistered(axes: seq<Axis>)
    ensures Increasing(Ids(axes)) && forall k :: 0 <= k < |Ids(axes)| ==> Registered(axes, Ids(axes)[k])
    ensures forall id :: Registered(axes, id) ==> id in Ids(axes)
  {
    SortedIdsSpec(RegisteredIds(axes));
    hide SortedIds;
    forall k | 0 <= k < |Ids(axes)| ensures Registered(axes, Ids(axes)[k]) {
      assert Ids(axes)[k] in Ids(axes);
    }
  }

  lemma PositionTextIs<T>(ids: seq<nat>, pos: map<nat, T>, tag: nat -> string, show: T -> string, line: nat -> string)
    requires AllIn(ids, pos)
    requires forall k :: 0 <= k < |ids| ==> line(ids[k]) == tag(ids[k]) + ": " + show(pos[ids[k]])
    ensures PositionText(ids, pos, tag, show) == Terminated(Each(ids, line))
  {
    PositionTextLines(ids, pos, tag, show);
    hide PositionText, Terminated;
    assert PositionLines(ids, pos, tag, show) == Each(ids, line);
  }

  // ----- what was read -----

  /** The readings in the reply to a query. */
  function Readings(s: State): seq<Reading> {
    Scan(BufferText(Answer(s.link)))
  }

  /** The last reading of this id has this value. */
  ghost predicate ReadsAs(rs: seq<Reading>, id: nat, v: int) {
    exists k :: LastFor(rs, k, id) && rs[k].value == v
  }

  ghost predicate Unread(rs: seq<Reading>, id: nat) {
    forall k :: 0 <= k < |rs| ==> rs[k].id != id
  }

  /** What a query tells of the axes: the last reading that names them, and 0 without one. */
  ghost predicate Tells(s: State, value: nat -> int) {
    forall id :: Registered(s.axes, id) ==>
      ReadsAs(Readings(s), id, value(id)) || (Unread(Readings(s), id) && value(id) == 0)
  }

  lemma ReadOrUnread(rs: seq<Reading>, id: nat)
    ensures Unread(rs, id) || exists k :: LastFor(rs, k, id)
  {
    if k :| 0 <= k < |rs| && rs[k].id == id {
      SomeLast(rs, k, id);
    }
  }

  /** A reading is stored, and an axis without one keeps what it had. */
  lemma StoredReading(s: State, bp: map<nat, int>, id: nat)
    requires Registered(s.axes, id)
    ensures forall v :: ReadsAs(Readings(s), id, v) ==> id in ReadBare(s, bp).1 && ReadBare(s, bp).1[id] == v
    ensures Unread(Readings(s), id) ==> (id in ReadBare(s, bp).1 <==> id in bp) && (id in bp ==> ReadBare(s, bp).1[id] == bp[id])
  {
    var rs, ids := Readings(s), RegisteredIds(s.axes);
    assert ReadBare(s, bp).1 == Merge(bp, rs, ids);
    hide Merge, Scan, ReadBare, Readings;
    if Unread(rs, id) {
      MergeKeeps(bp, rs, ids, id);
    }
    forall k | LastFor(rs, k, id) ensures id in Merge(bp, rs, ids) && Merge(bp, rs, ids)[id] == rs[k].value {
      MergeStores(bp, rs, ids, k, id);
    }
  }

  /** A faithful report tells the true positions, and leaves no axis out. */
  lemma FaithfulTells(s: State)
    requires FaithfulAnswer(s)
    ensures Tells(s, (id: nat) => PositionOf(s.link.ctrl, id))
    ensures forall id :: Registered(s.axes, id) ==> ReadsAs(Readings(s), id, PositionOf(s.link.ctrl, id))
  {
    forall id | Registered(s.axes, id) ensures ReadsAs(Readings(s), id, PositionOf(s.link.ctrl, id)) {
      FaithfulReads(s, id);
    }
  }

  lemma FaithfulReads(s: State, id: nat)
    requires FaithfulAnswer(s) && Registered(s.axes, id)
    ensures ReadsAs(Readings(s), id, PositionOf(s.link.ctrl, id))
  {
    ReadBareTruth(s, map[]);
    StoredReading(s, map[], id);
    ReadOrUnread(Readings(s), id);
    hide Readings, ReadBare, FaithfulAnswer, PositionOf;
    assert id in TruePositions(s);
    if k :| LastFor(Readings(s), k, id) {
      assert ReadsAs(Readings(s), id, Readings(s)[k].value);
    }
  }

  /** `desc: steps` */
  ghost function StepLine(s: State, value: nat -> int): nat -> string {
    (id: nat) => if id in RegisteredIds(s.axes) then FindAxis(s.axes, id).desc + ": " + IntText(value(id)) else ""
  }

  /** `desc[unit]: value` */
  ghost function UnitLine(s: State, value: nat -> real, show: real -> string): nat -> string {
    (id: nat) =>
      if id in RegisteredIds(s.axes)
      then FindAxis(s.axes, id).desc + "[" + FindAxis(s.axes, id).conv.unitName + "]" + ": " + show(value(id))
      else ""
  }

  /** `pbp` lists the step count that was read for every axis, in id order. */
  lemma BarePositionsReply(s: State, fmt: Format, value: nat -> int)
    requires Valid(s) && Tells(s, value)
    ensures Handle(s, "pbp", fmt).0.link.ctrl == s.link.ctrl
    ensures Handle(s, "pbp", fmt).1 == Replied(MSG_REPLY, Terminated(Each(Ids(s.axes), StepLine(s, value))))
  {
    hide *;
    BareBody(s, value);
    TakesBare(s, fmt);
  }

  lemma BareBody(s: State, value: nat -> int)
    requires Tells(s, value)
    ensures BarePositions(s).0.link.ctrl == s.link.ctrl
    ensures BarePositions(s).1 == Replied(MSG_REPLY, Terminated(Each(Ids(s.axes), StepLine(s, value))))
  {
    QueryScript(s, DefaultBare(s.axes));
    ToldPosition(s, value);
    hide ReadBare, PositionText, Terminated, KeysInOrder, StepLine, Tells, DefaultBare;
    StepTextIs(s, ReadBare(s, DefaultBare(s.axes)).1, value);
  }

  /** What is stored in a fresh position. */
  lemma ToldPosition(s: State, value: nat -> int)
    requires Tells(s, value)
    ensures ReadBare(s, DefaultBare(s.axes)).1.Keys == RegisteredIds(s.axes)
    ensures forall id :: id in ReadBare(s, DefaultBare(s.axes)).1 ==> ReadBare(s, DefaultBare(s.axes)).1[id] == value(id)
  {
    DefaultKeys(s);
    hide ReadBare, Readings;
    forall id | Registered(s.axes, id) ensures ReadBare(s, DefaultBare(s.axes)).1[id] == value(id) {
      StoredReading(s, DefaultBare(s.axes), id);
    }
  }

  lemma DefaultKeys(s: State)
    ensures ReadBare(s, DefaultBare(s.axes)).1.Keys == RegisteredIds(s.axes)
  {
    MergeRegistered(DefaultBare(s.axes), Readings(s), RegisteredIds(s.axes));
    hide Merge, Scan;
  }

  lemma StepTextIs(s: State, p: map<nat, int>, value: nat -> int)
    requires p.Keys == RegisteredIds(s.axes) && forall id :: id in p ==> value(id) == p[id]
    ensures PositionText(KeysInOrder(p), p, NameOf(s.axes), IntText) == Terminated(Each(Ids(s.axes), StepLine(s, value)))
  {
    OrderOf(p, RegisteredIds(s.axes));
    IdsRegistered(s.axes);
    hide PositionText, Terminated, KeysInOrder, FindAxis, IntText;
    PositionTextIs(KeysInOrder(p), p, NameOf(s.axes), IntText, StepLine(s, value));
  }

  lemma TakesBare(s: State, fmt: Format)
    requires Valid(s)
    ensures Handle(s, "pbp", fmt) == BarePositions(s)
  {
    hide BarePositions;
  }

  /** Steps in the user units of each axis. */
  ghost function Scaled(s: State, value: nat -> int): nat -> real {
    (id: nat) =>
      if id in RegisteredIds(s.axes)
      then ToUnits(value(id), FindAxis(s.axes, id).conv.factor, FindAxis(s.axes, id).conv.offset)
      else 0.0
  }

  /** `pp` lists what was read for every axis in its user units, in id order. */
  lemma PositionsReply(s: State, fmt: Format, value: nat -> int)
    requires Valid(s) && Tells(s, value)
    ensures Handle(s, "pp", fmt).0.link.ctrl == s.link.ctrl
    ensures Handle(s, "pp", fmt).1 ==
      Replied(MSG_REPLY, Terminated(Each(Ids(s.axes), UnitLine(s, Scaled(s, value), fmt.show))))
  {
    hide *;
    PositionsBody(s, fmt.show, value);
    TakesPositions(s, fmt);
  }

  lemma PositionsBody(s: State, show: real -> string, value: nat -> int)
    requires Tells(s, value)
    ensures Positions(s, show).0.link.ctrl == s.link.ctrl
    ensures Positions(s, show).1 == Replied(MSG_REPLY, Terminated(Each(Ids(s.axes), UnitLine(s, Scaled(s, value), show))))
  {
    QueryIsHarmless(s);
    ToldUnits(s, value);
    hide ReadUser, PositionText, Terminated, KeysInOrder, UnitLine, Ids, Each, NameAndUnit, Scaled, Tells;
    UnitTextIs(s, ReadUser(s).1, Scaled(s, value), show);
  }

  lemma ToldUnits(s: State, value: nat -> int)
    requires Tells(s, value)
    ensures ReadUser(s).1.Keys == RegisteredIds(s.axes)
    ensures forall id :: id in ReadUser(s).1 ==> ReadUser(s).1[id] == Scaled(s, value)(id)
  {
    ToldPosition(s, value);
    ReadInUnits(s);
    hide ReadBare, ReadUser, Tells, DefaultBare, FindAxis, ToUnits;
  }

  lemma ReadInUnits(s: State)
    ensures AllRegistered(s.axes, ReadBare(s, DefaultBare(s.axes)).1)
    ensures ReadUser(s).1 == UserUnits(s.axes, ReadBare(s, DefaultBare(s.axes)).1)
  {
    DefaultKeys(s);
    hide ReadBare, ToUser, KeysInOrder, UserUnits;
    ToUserIsUserUnits(s.axes, ReadBare(s, DefaultBare(s.axes)).1, DefaultUser(s.axes));
  }

  lemma UnitTextIs(s: State, p: map<nat, real>, value: nat -> real, show: real -> string)
    requires p.Keys == RegisteredIds(s.axes) && forall id :: id in p ==> value(id) == p[id]
    ensures PositionText(KeysInOrder(p), p, NameAndUnit(s.axes), show) ==
      Terminated(Each(Ids(s.axes), UnitLine(s, value, show)))
  {
    OrderOf(p, RegisteredIds(s.axes));
    IdsRegistered(s.axes);
    hide PositionText, Terminated, KeysInOrder, UnitLine, NameAndUnit;
    forall k | 0 <= k < |Ids(s.axes)|
      ensures UnitLine(s, value, show)(Ids(s.axes)[k]) == NameAndUnit(s.axes)(Ids(s.axes)[k]) + ": " + show(p[Ids(s.axes)[k]])
    {
      UnitLineIs(s, value, show, Ids(s.axes)[k]);
    }
    PositionTextIs(KeysInOrder(p), p, NameAndUnit(s.axes), show, UnitLine(s, value, show));
  }

  lemma UnitLineIs(s: State, value: nat -> real, show: real -> string, id: nat)
    requires Registered(s.axes, id)
    ensures UnitLine(s, value, show)(id) == NameAndUnit(s.axes)(id) + ": " + show(value(id))
  {
    hide FindAxis;
    assert id in RegisteredIds(s.axes);
    assert NameOf(s.axes)(id) == FindAxis(s.axes, id).desc && UnitOf(s.axes)(id) == FindAxis(s.axes, id).conv.unitName;
    assert NameAndUnit(s.axes)(id) == FindAxis(s.axes, id).desc + "[" + FindAxis(s.axes, id).conv.unitName + "]";
  }

  lemma TakesPositions(s: State, fmt: Format)
    requires Valid(s)
    ensures Handle(s, "pp", fmt) == Positions(s, fmt.show)
  {
    hide Positions;
  }

  // ----- soft limits -----

  lemma {:induction false} LimitsKeys(s: State, e: Element, i: nat)
    requires i <= |s.axes|
    ensures LimitsUpTo(s, e, i).Keys == RegisteredIds(s.axes)
    decreases i
  {
    if i > 0 {
      LimitsKeys(s, e, i - 1);
      assert Registered(s.axes, s.axes[i - 1].id);
      hide Limit, InUnits;
    }
  }

  /** The limit of an axis's node times its unit factor. */
  ghost function LimitValue(s: State, limit: Node -> int): nat -> real {
    (id: nat) =>
      if id in RegisteredIds(s.axes) && Listed(s.nodes, id)
      then InUnits(limit(FirstNode(s.nodes, id)), FindAxis(s.axes, id).conv.factor)
      else 0.0
  }

  lemma LimitOf(s: State, e: Element, id: nat)
    requires Distinct(s) && Registered(s.axes, id)
    ensures Listed(s.nodes, id) && id in UserLimits(s, e)
    ensures UserLimits(s, e)[id] == InUnits(Get(FirstNode(s.nodes, id), e), FindAxis(s.axes, id).conv.factor)
  {
    var j :| 0 <= j < |s.axes| && s.axes[j].id == id;
    ListedAxis(s, j);
    UserLimitsAre(s, e);
    hide *;
    FindByIndex(s.axes, j);
    LimitsOfAxis(s, e, |s.axes|, j);
    NodeLimit(s.nodes, id, e);
  }

  lemma ListedAxis(s: State, j: nat)
    requires Distinct(s) && j < |s.axes|
    ensures DistinctIds(s.axes) && DistinctNodes(s.nodes) && Listed(s.nodes, s.axes[j].id)
  {
  }

  lemma UserLimitsAre(s: State, e: Element)
    ensures UserLimits(s, e) == LimitsUpTo(s, e, |s.axes|)
  {
  }

  lemma NodeLimit(nodes: seq<Node>, id: nat, e: Element)
    requires DistinctNodes(nodes) && Listed(nodes, id)
    ensures Limit(nodes, id, e) == Get(FirstNode(nodes, id), e)
  {
    hide GetLast, FirstNode, Get;
    GettersAgree(nodes, id, (n: Node) => Get(n, e), 0);
  }

  lemma LimitsTextIs(s: State, e: Element, limit: Node -> int, show: real -> string)
    requires Distinct(s) && forall n: Node :: limit(n) == Get(n, e)
    ensures LimitsText(s, e, show) == Terminated(Each(Ids(s.axes), UnitLine(s, LimitValue(s, limit), show)))
  {
    hide *;
    LimitValues(s, e, limit);
    LimitsTextOf(s, e, show);
    UnitTextIs(s, UserLimits(s, e), LimitValue(s, limit), show);
  }

  lemma LimitValues(s: State, e: Element, limit: Node -> int)
    requires Distinct(s) && forall n: Node :: limit(n) == Get(n, e)
    ensures UserLimits(s, e).Keys == RegisteredIds(s.axes)
    ensures forall id :: id in UserLimits(s, e) ==> LimitValue(s, limit)(id) == UserLimits(s, e)[id]
  {
    UserLimitsAre(s, e);
    LimitsKeys(s, e, |s.axes|);
    hide LimitsUpTo, UserLimits, FindAxis, FirstNode, Get, Distinct, LimitValue, InUnits;
    forall id | id in UserLimits(s, e) ensures LimitValue(s, limit)(id) == UserLimits(s, e)[id] {
      LimitOf(s, e, id);
      LimitValueIs(s, limit, id);
    }
  }

  lemma LimitValueIs(s: State, limit: Node -> int, id: nat)
    requires Registered(s.axes, id) && Listed(s.nodes, id)
    ensures LimitValue(s, limit)(id) == InUnits(limit(FirstNode(s.nodes, id)), FindAxis(s.axes, id).conv.factor)
  {
    hide FindAxis, FirstNode, InUnits;
  }

  lemma LimitsTextOf(s: State, e: Element, show: real -> string)
    ensures LimitsText(s, e, show) ==
      PositionText(KeysInOrder(UserLimits(s, e)), UserLimits(s, e), NameAndUnit(s.axes), show)
  {
  }

  /** `psl` lists the upper limits of the tree, then the lower ones, in user units. */
  lemma SoftLimitsText(s: State, fmt: Format)
    requires Valid(s) && Distinct(s)
    ensures Handle(s, "psl", fmt) == (s, Replied(MSG_REPLY,
      "upper softlimits:\n"
      + Terminated(Each(Ids(s.axes), UnitLine(s, LimitValue(s, (n: Node) => n.settings.upperLimit), fmt.show)))
      + "\nlower softlimits:\n"
      + Terminated(Each(Ids(s.axes), UnitLine(s, LimitValue(s, (n: Node) => n.settings.lowerLimit), fmt.show)))))
  {
    TakesLimits(s, fmt);
    hide Handle, LimitsText, Terminated, Valid, Distinct;
    LimitsTextIs(s, UpperLimitElement, (n: Node) => n.settings.upperLimit, fmt.show);
    LimitsTextIs(s, LowerLimitElement, (n: Node) => n.settings.lowerLimit, fmt.show);
  }

  lemma TakesLimits(s: State, fmt: Format)
    requires Valid(s)
    ensures Handle(s, "psl", fmt) == (s, SoftLimitsReply(s, fmt.show))
  {
    hide SoftLimitsReply;
  }

  // ----- saving -----

  /** The ids that were read, in order. */
  ghost function ReadIds(s: State): seq<nat> {
    SortedIds(set id | id in RegisteredIds(s.axes) && !Unread(Readings(s), id))
  }

  /** The three lines of an axis in the reply to `savexml`. */
  ghost function SavedBlock(s: State, value: nat -> int): nat -> string {
    (id: nat) =>
      if id in RegisteredIds(s.axes) && Listed(s.nodes, id)
      then "\t'" + FindAxis(s.axes, id).desc + "'=" + IntText(value(id)) + "\n"
           + "\tul=" + IntText(FirstNode(s.nodes, id).settings.upperLimit) + "\n"
           + "\tll=" + IntText(FirstNode(s.nodes, id).settings.lowerLimit) + "\n"
      else ""
  }

  lemma {:induction false} SavedTextIs(axes: seq<Axis>, nodes: seq<Node>, ids: seq<nat>, bp: map<nat, int>, block: nat -> string)
    requires AllIn(ids, bp)
    requires forall k :: 0 <= k < |ids| ==> (block(ids[k]) ==
      SavedLine(axes, ids[k], bp[ids[k]], Limit(nodes, ids[k], UpperLimitElement), Limit(nodes, ids[k], LowerLimitElement)))
    ensures SavedText(axes, nodes, ids, bp) == Concat(Each(ids, block))
    decreases |ids|
  {
    hide SavedLine, Limit;
    if ids != [] {
      SavedTextIs(axes, nodes, ids[1..], bp, block);
      assert Each(ids, block)[1..] == Each(ids[1..], block);
    }
  }

  /** Storing positions leaves the limits in the tree alone. */
  lemma SavedLimit(s: State, e: Element, id: nat)
    requires Valid(s) && Distinct(s) && Registered(s.axes, id) && !e.PositionElement?
    ensures Listed(s.nodes, id) && Limit(SaveXml(s).nodes, id, e) == Get(FirstNode(s.nodes, id), e)
  {
    var j :| 0 <= j < |s.axes| && s.axes[j].id == id;
    assert Listed(s.nodes, id);
    SavedTree(s);
    SavedNodes(s);
    hide SaveXml, Limit, FirstNode, Valid, SavePositions, ReadBare, KeysInOrder;
    SaveEffect(s.nodes, KeysInOrder(ReadBare(s, map[]).1), ReadBare(s, map[]).1, id);
    NodeLimit(SaveXml(s).nodes, id, e);
  }

  /** The reply to `savexml` lists the positions that were read, each with the limits of the tree. */
  lemma SaveReply(s: State, fmt: Format, value: nat -> int)
    requires Valid(s) && Distinct(s) && Tells(s, value)
    ensures Handle(s, "savexml", fmt).1 == Replied(MSG_REPLY,
      "saving current pos (bare) of all axes to xml file\n" + Concat(Each(ReadIds(s), SavedBlock(s, value))))
  {
    hide *;
    TakesSave(s, fmt);
    SaveBody(s);
    SavedIds(s, value);
    var bp := ReadBare(s, map[]).1;
    forall k | 0 <= k < |KeysInOrder(bp)|
      ensures var id := KeysInOrder(bp)[k];
        SavedBlock(s, value)(id) == SavedLine(s.axes, id, bp[id], Limit(SaveXml(s).nodes, id, UpperLimitElement),
                                              Limit(SaveXml(s).nodes, id, LowerLimitElement))
    {
      SavedBlockIs(s, value, KeysInOrder(bp)[k]);
    }
    SavedTextIs(s.axes, SaveXml(s).nodes, KeysInOrder(bp), bp, SavedBlock(s, value));
  }

  /** What is stored in an empty position. */
  lemma SavedIds(s: State, value: nat -> int)
    requires Tells(s, value)
    ensures var bp := ReadBare(s, map[]).1;
      && KeysInOrder(bp) == ReadIds(s)
      && forall k :: 0 <= k < |KeysInOrder(bp)| ==>
           Registered(s.axes, KeysInOrder(bp)[k]) && bp[KeysInOrder(bp)[k]] == value(KeysInOrder(bp)[k])
  {
    var bp := ReadBare(s, map[]).1;
    SavedKeys(s);
    forall id | id in bp ensures bp[id] == value(id) {
      StoredReading(s, map[], id);
    }
    hide ReadBare, Readings, Unread, Tells;
    OrderOf(bp, set id | id in RegisteredIds(s.axes) && !Unread(Readings(s), id));
  }

  lemma SavedKeys(s: State)
    ensures forall id :: id in ReadBare(s, map[]).1 <==> Registered(s.axes, id) && !Unread(Readings(s), id)
  {
    hide Merge, Scan;
    forall id ensures id in ReadBare(s, map[]).1 <==> Registered(s.axes, id) && !Unread(Readings(s), id) {
      if Registered(s.axes, id) {
        StoredReading(s, map[], id);
        ReadOrUnread(Readings(s), id);
        if k :| LastFor(Readings(s), k, id) {
          assert ReadsAs(Readings(s), id, Readings(s)[k].value);
        }
      } else {
        MergeKeeps(map[], Readings(s), RegisteredIds(s.axes), id);
      }
    }
  }

  lemma SavedBlockIs(s: State, value: nat -> int, id: nat)
    requires Valid(s) && Distinct(s) && Registered(s.axes, id)
    ensures SavedBlock(s, value)(id) == SavedLine(s.axes, id, value(id), Limit(SaveXml(s).nodes, id, UpperLimitElement),
                                                  Limit(SaveXml(s).nodes, id, LowerLimitElement))
  {
    hide Valid, Distinct, SaveXml, Limit, FirstNode, FindAxis, IntText;
    SavedLimit(s, UpperLimitElement, id);
    SavedLimit(s, LowerLimitElement, id);
  }

  lemma SaveBody(s: State)
    ensures Save(s).1 == Replied(MSG_REPLY,
      "saving current pos (bare) of all axes to xml file\n"
      + SavedText(s.axes, SaveXml(s).nodes, KeysInOrder(ReadBare(s, map[]).1), ReadBare(s, map[]).1))
  {
    hide ReadBare, SaveXml, KeysInOrder, SavedText;
  }

  lemma TakesSave(s: State, fmt: Format)
    requires Valid(s)
    ensures Handle(s, "savexml", fmt) == Save(s)
  {
    hide Save;
  }

  /** What `savexml` leaves: an axis that was read has that position in its node, with a faithful report the
      controller's true one; everything else in the nodes, other nodes, axes, channels and mode are as
      before. */
  lemma SaveStores(s: State, fmt: Format, x: nat)
    requires Valid(s) && Distinct(s) && Listed(s.nodes, x)
    ensures var r, n := Handle(s, "savexml", fmt).0, FirstNode(s.nodes, x);
      && Listed(r.nodes, x) && |r.nodes| == |s.nodes|
      && (forall v :: Registered(s.axes, x) && ReadsAs(Readings(s), x, v) ==>
            FirstNode(r.nodes, x) == n.(settings := n.settings.(position := v)))
      && (!Registered(s.axes, x) || Unread(Readings(s), x) ==> FirstNode(r.nodes, x) == n)
      && (FaithfulAnswer(s) && Registered(s.axes, x) ==>
            FirstNode(r.nodes, x) == n.(settings := n.settings.(position := PositionOf(s.link.ctrl, x))))
      && r.axes == s.axes && r.init == s.init && r.cur == s.cur && r.link.ctrl == s.link.ctrl
      && r.link.log == s.link.log + [Event(QueryPositions, Answer(s.link), s.link.ctrl)]
  {
    TakesSave(s, fmt);
    QueryScript(s, map[]);
    SavedBoard(s);
    SavedNode(s, x);
    hide Handle, SaveXml, FirstNode, PositionOf, FaithfulAnswer, SavedText, KeysInOrder, ReadBare, Valid, Readings;
    if FaithfulAnswer(s) && Registered(s.axes, x) {
      FaithfulReads(s, x);
    }
  }

  lemma SavedNode(s: State, x: nat)
    requires Valid(s) && Distinct(s) && Listed(s.nodes, x)
    ensures Listed(SaveXml(s).nodes, x) && |SaveXml(s).nodes| == |s.nodes|
    ensures forall v :: Registered(s.axes, x) && ReadsAs(Readings(s), x, v) ==>
      FirstNode(SaveXml(s).nodes, x) == Put(FirstNode(s.nodes, x), PositionElement, v)
    ensures !Registered(s.axes, x) || Unread(Readings(s), x) ==> FirstNode(SaveXml(s).nodes, x) == FirstNode(s.nodes, x)
  {
    SavedNodes(s);
    SavedKeys(s);
    hide SaveXml, SavePositions, FirstNode, KeysInOrder, ReadBare, Valid, Readings, Put;
    var bp := ReadBare(s, map[]).1;
    SaveEffect(s.nodes, KeysInOrder(bp), bp, x);
    SaveShape(s.nodes, KeysInOrder(bp), bp);
    assert x in KeysInOrder(bp) <==> x in bp;
    if Registered(s.axes, x) {
      StoredReading(s, map[], x);
    }
  }

  lemma SavedBoard(s: State)
    ensures var r, q := SaveXml(s), ReadBare(s, map[]).0;
      r.axes == s.axes && r.init == s.init && r.cur == s.cur && r.link == q.link
  {
    hide SavePositions, Merge, Scan;
  }

  // ----- the axis table -----

  /** `id:desc:unit` */
  ghost function TableLine(s: State): nat -> string {
    (id: nat) =>
      if id in RegisteredIds(s.axes)
      then NatText(id) + ":" + FindAxis(s.axes, id).desc + ":" + FindAxis(s.axes, id).conv.unitName
      else ""
  }

  /** `ga` lists id, descriptor and unit of every axis, in id order. */
  lemma AxesTable(s: State, fmt: Format)
    requires Valid(s)
    ensures Handle(s, "ga", fmt) == (s, Replied(MSG_REPLY, Terminated(Each(Ids(s.axes), TableLine(s)))))
  {
    hide *;
    AxesReplied(s, fmt);
    AxesBody(s);
  }

  lemma AxesBody(s: State)
    ensures AxesReply(s) == Replied(MSG_REPLY, Terminated(Each(Ids(s.axes), TableLine(s))))
  {
    IdsRegistered(s.axes);
    hide AxesText, Terminated, FindAxis, NatText;
    var ids := Ids(s.axes);
    AxesTextLines(ids, NameOf(s.axes), UnitOf(s.axes));
    forall k | 0 <= k < |ids| ensures AxisLine(ids[k], NameOf(s.axes), UnitOf(s.axes)) == TableLine(s)(ids[k]) {
      assert ids[k] in RegisteredIds(s.axes);
    }
    assert AxisLines(ids, NameOf(s.axes), UnitOf(s.axes)) == Each(ids, TableLine(s));
  }

  // ----- zeroing and initialisation -----

  lemma CommandWords()
    ensures Classify("set zero") == AskSet("zero") && Classify("set jog") == AskSet("jog")
    ensures Classify("unset jog") == AskUnset("jog")
  {
    assert "set zero"[..4] == "set " && "set zero"[4..] == "zero";
    assert "set jog"[..4] == "set " && "set jog"[4..] == "jog";
    assert "unset jog"[..6] == "unset " && "unset jog"[6..] == "jog";
    NotStarts("unset jog", "set ", 0);
  }

  lemma TakesZero(s: State, fmt: Format)
    requires Valid(s)
    ensures Handle(s, "set zero", fmt) == (SetZero(s), Replied(MSG_SUCCESS, ""))
  {
    CommandWords();
    hide Classify, SetZero;
  }

  /** `set zero` always succeeds. With a faithful report every axis object and its node get the true step
      count as zero offset, and nothing else of either changes. */
  lemma ZeroRequest(s: State, fmt: Format, j: nat)
    requires Valid(s) && Distinct(s) && j < |s.axes|
    ensures Handle(s, "set zero", fmt).1 == Replied(MSG_SUCCESS, "")
    ensures var r, a := Handle(s, "set zero", fmt).0, s.axes[j];
      && |r.axes| == |s.axes| && Listed(s.nodes, a.id) && Listed(r.nodes, a.id) && r.link.ctrl == s.link.ctrl
      && (FaithfulAnswer(s) ==>
            && r.axes[j] == a.(conv := a.conv.(offset := PositionOf(s.link.ctrl, a.id)))
            && FirstNode(r.nodes, a.id) == FirstNode(s.nodes, a.id).(conv :=
                 FirstNode(s.nodes, a.id).conv.(offset := PositionOf(s.link.ctrl, a.id))))
  {
    TakesZero(s, fmt);
    ZeroKeepsLink(s);
    hide Handle, SetZero;
    ZeroNodes(s, j);
  }

  lemma ZeroNodes(s: State, j: nat)
    requires Valid(s) && Distinct(s) && j < |s.axes|
    ensures var r, a := SetZero(s), s.axes[j];
      && |r.axes| == |s.axes| && Listed(s.nodes, a.id) && Listed(r.nodes, a.id)
      && (FaithfulAnswer(s) ==>
            && r.axes[j] == a.(conv := a.conv.(offset := PositionOf(s.link.ctrl, a.id)))
            && FirstNode(r.nodes, a.id) == FirstNode(s.nodes, a.id).(conv :=
                 FirstNode(s.nodes, a.id).conv.(offset := PositionOf(s.link.ctrl, a.id))))
  {
    ZeroSteps(s);
    if FaithfulAnswer(s) {
      ReadBareTruth(s, DefaultBare(s.axes));
    }
    hide ReadBare, ZeroAxes, FirstNode, PositionOf, FaithfulAnswer, SetZero, DefaultBare, Zeroed;
    var (s1, bp) := ReadBare(s, DefaultBare(s.axes));
    assert Registered(s.axes, s.axes[j].id) && Distinct(s1);
    ZeroEffect(s1, 0, bp, j);
    ZeroedAxis(s1, SetZero(s), bp, j);
  }

  lemma ZeroSteps(s: State)
    ensures var (s1, bp) := ReadBare(s, DefaultBare(s.axes));
      s1.axes == s.axes && s1.nodes == s.nodes && Covers(s.axes, bp) && SetZero(s) == ZeroAxes(s1, 0, bp)
  {
    DefaultCovers(s);
    hide Merge, Scan, ZeroAxes;
  }

  lemma ZeroedAxis(s: State, r: State, bp: map<nat, int>, j: nat)
    requires j < |s.axes| && Distinct(s) && Covers(s.axes, bp) && Zeroed(s, r, 0, bp, j)
    ensures var a := s.axes[j];
      && |r.axes| == |s.axes| && Listed(s.nodes, a.id) && Listed(r.nodes, a.id)
      && r.axes[j] == a.(conv := a.conv.(offset := bp[a.id]))
      && FirstNode(r.nodes, a.id) == FirstNode(s.nodes, a.id).(conv := FirstNode(s.nodes, a.id).conv.(offset := bp[a.id]))
  {
    hide FirstNode;
  }

  lemma TakesInitialZero(s: State, fmt: Format)
    requires Valid(s)
    ensures Handle(s, "initialzero", fmt) == InitialZeroCommand(s)
  {
    hide InitialZeroCommand;
  }

  /** Outside initialisation mode `initialzero` is refused and changes nothing. In it, it always succeeds and
      ends the mode. With all commands accepted every axis, its node and its channel agree; its position and
      offset are 0, and its limits those of the configured range or constants. */
  lemma InitialZeroRequest(s: State, fmt: Format, j: nat)
    requires Valid(s) && Distinct(s) && j < |s.axes|
    ensures !s.init ==> Handle(s, "initialzero", fmt) == (s, Replied(MSG_ERROR, "initialzero not allowed in normal mode"))
    ensures s.init ==> Handle(s, "initialzero", fmt).1 == Replied(MSG_SUCCESS, "") && !Handle(s, "initialzero", fmt).0.init
    ensures s.init && AllAccepted(Handle(s, "initialzero", fmt).0.link, |s.link.log|) ==>
      InitialisedAxis(s, Handle(s, "initialzero", fmt).0, j)
  {
    TakesInitialZero(s, fmt);
    RefusedInitialZero(s);
    hide Handle, SetInitialZero, FinalRange, Channel, FirstNode, Valid, Distinct, OnlyReset, AllAccepted;
    if s.init && AllAccepted(SetInitialZero(s).0.link, |s.link.log|) {
      InitialisationDone(s, j);
    }
  }

  /** Axis j as initialisation leaves it. */
  ghost predicate InitialisedAxis(s: State, r: State, j: nat)
    requires j < |s.axes| && AllListed(s.nodes, s.axes)
  {
    var id := s.axes[j].id;
    var n, c := FirstNode(s.nodes, id), Channel(r.link.ctrl, id);
    && |r.axes| == |s.axes| && r.axes[j].id == id && AllListed(r.nodes, r.axes) && Settled(r, j)
    && OnlyReset(n, FirstNode(r.nodes, id)) && FinalRange(c, n.init) && c.position == 0 && r.axes[j].conv.offset == 0
  }

  /** `state` tells the mode, `close` and `help` have their texts; none of them touches the board. */
  lemma StateReply(s: State, fmt: Format)
    requires Valid(s)
    ensures Handle(s, "state", fmt) == (s, Replied(MSG_REPLY, if s.init then "initialize" else "normal"))
    ensures Handle(s, "close", fmt) == (s, Replied(MSG_REPLY, "stopping current session"))
    ensures Handle(s, "help", fmt) == (s, Replied(MSG_REPLY, fmt.help))
  {
  }

  // ----- single commands -----

  /** One command has gone over the line, and of the board only the remembered error may differ. */
  ghost predicate OneCommand(s: State, r: State, text: string) {
    && Extends(s.link, r.link) && |r.link.log| == |s.link.log| + 1 && Sent(r.link, |s.link.log|) == text
    && r == s.(link := r.link, err := r.err)
    && r.err == (if Answer(s.link).Rejected? then Answer(s.link).text else s.err)
  }

  lemma SendIsOneCommand(s: State, cmd: Command)
    ensures OneCommand(s, Send(s, cmd), CommandText(cmd))
  {
    hide CommandText;
  }

  /** `set jog` sends `1AR`, `unset jog` sends `1IR`; the reply is the controller's. */
  lemma JogRequests(s: State, fmt: Format)
    requires Valid(s)
    ensures OneCommand(s, Handle(s, "set jog", fmt).0, "1AR") && OneCommand(s, Handle(s, "unset jog", fmt).0, "1IR")
    ensures Handle(s, "set jog", fmt).0.link.ctrl == s.link.ctrl && Handle(s, "unset jog", fmt).0.link.ctrl == s.link.ctrl
    ensures Handle(s, "set jog", fmt).1 == Handle(s, "unset jog", fmt).1
    ensures match Answer(s.link)
      case Accepted(_) => Handle(s, "set jog", fmt).1 == Replied(MSG_SUCCESS, "")
      case Rejected(t) => Handle(s, "set jog", fmt).1 == Replied(MSG_ERROR, t)
      case Short(_) => Handle(s, "set jog", fmt).1 == Replied(MSG_ERROR, "size of reply from stepper card was too short")
  {
    CommandWords();
    SendIsOneCommand(s, JogOn);
    SendIsOneCommand(s, JogOff);
    assert CommandText(JogOn) == "1AR" && CommandText(JogOff) == "1IR";
    hide Classify, OneCommand;
  }

  /** A select by a digit, in either spelling: `1CH` and the digit go over the line, and an accepted one makes
      the axis with that id, if there is one, the current one. */
  lemma SelectRequests(s: State, fmt: Format, c: char)
    requires Valid(s) && IsDigit(c)
    ensures Handle(s, "sa" + [c], fmt) == Handle(s, "set axis " + [c], fmt)
    ensures var (r, out) := Handle(s, "sa" + [c], fmt);
      && OneCommand(s.(cur := r.cur), r, "1CH" + [c])
      && (match Answer(s.link)
          case Accepted(_) =>
            && out == Replied(MSG_SUCCESS, "")
            && r.link.ctrl == s.link.ctrl.(selected := DigitValue(c))
            && r.cur == (if DigitValue(c) in RegisteredIds(s.axes) then Some(DigitValue(c)) else None)
          case Rejected(_) => out == Replied(MSG_ERROR, "PM381 returned error message") && r.cur == s.cur
          case Short(_) => out == Replied(MSG_ERROR, "size of reply from stepper card was too short") && r.cur == s.cur)
  {
    SelectWords(c);
    var id := DigitValue(c);
    SelectIs(s, id, fmt, "sa" + [c]);
    SelectIs(s, id, fmt, "set axis " + [c]);
    hide Classify, Handle;
    SendIsOneCommand(s.(cur := SetAxisNum(s, id).cur), Select(id));
    DigitText(c);
    hide NatText, RegisteredIds;
  }

  lemma SelectIs(s: State, id: nat, fmt: Format, data: string)
    requires Valid(s) && Classify(data) == AskSelect(id)
    ensures Handle(s, data, fmt) == (SetAxisNum(s, id), CommandOutcome(Answer(s.link), REJECTED))
  {
    hide Classify, SetAxisNum, CommandOutcome;
  }

  lemma DigitText(c: char)
    requires IsDigit(c)
    ensures NatText(DigitValue(c)) == [c]
  {
    OneDigit(DigitValue(c));
    hide NatText;
    assert NatText(DigitValue(c)) == [NatText(DigitValue(c))[0]];
  }

  lemma SelectWords(c: char)
    requires IsDigit(c)
    ensures Classify("sa" + [c]) == AskSelect(DigitValue(c)) && Classify("set axis " + [c]) == AskSelect(DigitValue(c))
  {
    hide ClassifyWord, PassThrough;
    var a, b := "sa" + [c], "set axis " + [c];
    assert a[2] == c && a[..2] == "sa";
    SetAxisSelects([c]);
    NoWord(a);
    assert b[0] == 's' && b[1] == 'e';
    NoWord(b);
  }

  /** A command as clients may pass it through: a digit, letters, and an optional number. */
  ghost predicate CommandParts(data: string, letters: string, sign: string, digits: string) {
    && data != "" && IsDigit(data[0]) && data[1..] == letters + sign + digits
    && letters != "" && (forall k :: 0 <= k < |letters| ==> IsLetter(letters[k]))
    && (sign == "" || sign == "-") && AllDigits(digits)
  }

  lemma {:induction false} LettersReach(letters: string, rest: string)
    requires forall k :: 0 <= k < |letters| ==> IsLetter(letters[k])
    requires rest == "" || !IsLetter(rest[0])
    ensures LetterPrefix(letters + rest) == |letters|
    decreases |letters|
  {
    if letters == "" {
      assert letters + rest == rest;
    } else {
      assert (letters + rest)[0] == letters[0] && (letters + rest)[1..] == letters[1..] + rest;
      LettersReach(letters[1..], rest);
    }
  }

  lemma {:induction false} PrefixLetters(s: string)
    ensures forall k :: 0 <= k < LetterPrefix(s) ==> IsLetter(s[k])
    decreases |s|
  {
    if s != "" && IsLetter(s[0]) {
      PrefixLetters(s[1..]);
      assert forall k :: 1 <= k < LetterPrefix(s) ==> s[k] == s[1..][k - 1];
    }
  }

  /** The pattern of commands that are passed through matches exactly these texts. */
  lemma PassThroughExactly(data: string)
    ensures PassThrough(data) <==> exists letters, sign, digits :: CommandParts(data, letters, sign, digits)
  {
    if PassThrough(data) {
      PassThroughParts(data);
    }
    if letters, sign, digits :| CommandParts(data, letters, sign, digits) {
      PartsPassThrough(data, letters, sign, digits);
    }
  }

  lemma PassThroughParts(data: string)
    requires PassThrough(data)
    ensures exists letters, sign, digits :: CommandParts(data, letters, sign, digits)
  {
    var tail := data[1..];
    PrefixLetters(tail);
    var n := LetterPrefix(tail);
    var letters, rest := tail[..n], tail[n..];
    assert rest == data[1 + n..] && tail == letters + rest;
    hide LetterPrefix;
    var sign, digits := SignParts(rest);
    PartsHold(data, letters, rest, sign, digits);
  }

  lemma SignParts(rest: string) returns (sign: string, digits: string)
    ensures rest == sign + digits && (sign == "" || sign == "-")
    ensures digits == if rest != "" && rest[0] == '-' then rest[1..] else rest
  {
    if rest != "" && rest[0] == '-' {
      sign, digits := "-", rest[1..];
    } else {
      sign, digits := "", rest;
    }
  }

  lemma PartsHold(data: string, letters: string, rest: string, sign: string, digits: string)
    requires data != "" && IsDigit(data[0]) && data[1..] == letters + rest && rest == sign + digits
    requires letters != "" && (forall k :: 0 <= k < |letters| ==> IsLetter(letters[k]))
    requires (sign == "" || sign == "-") && AllDigits(digits)
    ensures CommandParts(data, letters, sign, digits)
  {
    assert letters + (sign + digits) == letters + sign + digits;
  }

  lemma PartsPassThrough(data: string, letters: string, sign: string, digits: string)
    requires CommandParts(data, letters, sign, digits)
    ensures PassThrough(data)
  {
    var rest := sign + digits;
    assert data[1..] == letters + rest;
    LettersReach(letters, rest);
    assert data[1 + |letters|..] == data[1..][|letters|..] == rest;
    if sign == "-" {
      assert rest[1..] == digits;
    } else {
      assert rest == digits;
    }
  }

  lemma SelectShape(data: string)
    ensures SelectedAxis(data).Some? ==> Starts(data, "sa") || Starts(data, "set ")
  {
    if |data| == 10 && data[..9] == "set axis " {
      assert data[..4] == data[..9][..4];
    }
  }

  lemma FirstLetter(data: string, prefix: string)
    requires prefix != ""
    ensures Starts(data, prefix) ==> data != "" && data[0] == prefix[0]
  {
    assert Starts(data, prefix) ==> data[..|prefix|][0] == data[0];
  }

  lemma DigitCommand(data: string)
    requires data != "" && IsDigit(data[0])
    ensures Classify(data) == if PassThrough(data) then AskForward(data) else Unknown
  {
    SelectShape(data);
    FirstLetter(data, "sa");
    FirstLetter(data, "set ");
    FirstLetter(data, "unset ");
    FirstLetter(data, "ma ");
    FirstLetter(data, "mr ");
    assert ClassifyWord(data).None?;
    hide PassThrough, SelectedAxis, Starts;
  }

  /** A command of that pattern goes over the line as it is, and its reply comes back; after a short reply an
      older error is reported. */
  lemma ForwardedRequest(s: State, data: string, fmt: Format)
    requires Valid(s) && PassThrough(data)
    ensures OneCommand(s, Handle(s, data, fmt).0, data)
    ensures match Answer(s.link)
      case Accepted(t) => Handle(s, data, fmt).1 == Replied(MSG_REPLY, t)
      case Rejected(t) => Handle(s, data, fmt).1 == Replied(MSG_ERROR, t)
      case Short(_) => Handle(s, data, fmt).1 == Replied(MSG_ERROR, s.err)
  {
    assert data != "" && IsDigit(data[0]);
    hide *;
    DigitCommand(data);
    Taken(s, data, fmt);
    ForwardBranch(s, data, fmt);
  }

  lemma ForwardBranch(s: State, data: string, fmt: Format)
    requires Valid(s)
    ensures var (r, out) := Respond(s, AskForward(data), fmt);
      OneCommand(s, r, data) && out ==
        match Answer(s.link)
        case Accepted(t) => Replied(MSG_REPLY, t)
        case Rejected(t) => Replied(MSG_ERROR, t)
        case Short(_) => Replied(MSG_ERROR, s.err)
  {
    SendIsOneCommand(s, Raw(data));
    hide OneCommand;
  }

  /** No word of the server, and nothing that starts like one of its commands. */
  ghost predicate Foreign(data: string) {
    && data !in ["help", "close", "state", "initialzero", "pbp", "pp", "ga", "savexml", "psl"] && !PassThrough(data)
    && !Starts(data, "sa") && !Starts(data, "set ") && !Starts(data, "unset ") && !Starts(data, "ma ") && !Starts(data, "mr ")
  }

  /** Everything else is refused, and so are unknown things to set or unset. */
  lemma UnknownRefused(s: State, data: string, fmt: Format)
    requires Valid(s)
    ensures Foreign(data) ==> Handle(s, data, fmt) == (s, Replied(MSG_ERROR, "invalid command (check syntax)"))
    ensures Starts(data, "set ") && SelectedAxis(data).None? && data[4..] != "jog" && data[4..] != "zero" ==>
      Handle(s, data, fmt) == (s, Replied(MSG_ERROR, "invalid set command (check syntax)"))
    ensures Starts(data, "unset ") && data[6..] != "jog" ==>
      Handle(s, data, fmt) == (s, Replied(MSG_ERROR, "invalid unset command (check syntax)"))
  {
    Taken(s, data, fmt);
    if |data| >= 4 {
      UnknownBranches(s, data[4..], fmt);
    }
    if |data| >= 6 {
      UnknownBranches(s, data[6..], fmt);
    }
    UnknownBranches(s, "", fmt);
    ForeignUnknown(data);
    SetUnknown(data);
    hide Classify, Foreign, SelectedAxis, Respond, Handle;
  }

  lemma UnknownBranches(s: State, what: string, fmt: Format)
    requires Valid(s)
    ensures Respond(s, Unknown, fmt) == (s, Replied(MSG_ERROR, "invalid command (check syntax)"))
    ensures what != "jog" && what != "zero" ==>
      Respond(s, AskSet(what), fmt) == (s, Replied(MSG_ERROR, "invalid set command (check syntax)"))
    ensures what != "jog" ==> Respond(s, AskUnset(what), fmt) == (s, Replied(MSG_ERROR, "invalid unset command (check syntax)"))
  {
  }

  lemma ForeignUnknown(data: string)
    ensures Foreign(data) ==> Classify(data) == Unknown
  {
    SelectShape(data);
    PlainWords(data);
    hide PassThrough, ClassifyWord, SelectedAxis, Starts;
  }

  lemma PlainWords(data: string)
    ensures ClassifyWord(data).Some? <==>
      data in ["help", "close", "state", "initialzero", "pbp", "pp", "ga", "savexml", "psl"]
  {
  }

  lemma SetUnknown(data: string)
    ensures Starts(data, "set ") && SelectedAxis(data).None? ==> Classify(data) == AskSet(data[4..])
    ensures Starts(data, "unset ") ==> Classify(data) == AskUnset(data[6..])
  {
    if Starts(data, "set ") {
      SetClassified(data);
    }
    SelectShape(data);
    FirstLetter(data, "unset ");
    FirstLetter(data, "sa");
    FirstLetter(data, "set ");
    assert data != "" && data[0] == 'u' ==> ClassifyWord(data).None?;
    hide PassThrough, ClassifyWord, SelectedAxis, Starts;
  }

  // ----- moves -----

  /** Which error text a move request is answered with: malformed texts and unknown names are refused before
      anything is sent; otherwise the request succeeds exactly when every move command was accepted, and
      fails with the latest error that the board remembers. */
  lemma MoveReplyTexts(s: State, relative: bool, text: string, fmt: Format)
    requires Valid(s) && Handle(s, RequestText(relative, text), fmt).1.Replied?
    ensures var (r, out) := Handle(s, RequestText(relative, text), fmt);
      && (!WellFormed(text) ==> r == s && out == Replied(MSG_ERROR, "parse_multiplett_failure"))
      && (WellFormed(text) && !KnownNames(s.axes, text) ==>
            r == s && out == Replied(MSG_ERROR, "entered position has an invalid axis descriptor"))
      && (WellFormed(text) && KnownNames(s.axes, text) ==>
            && Remembers(s, r)
            && out == if MovesAccepted(r.link, |s.link.log|) then Replied(MSG_SUCCESS, "")
                      else Replied(MSG_ERROR, "Controller Error: " + r.err))
  {
    if WellFormed(text) && KnownNames(s.axes, text) {
      MoveOutcome(s, relative, text, fmt);
    } else {
      RefusedOutcome(s, relative, text, fmt);
    }
  }

  lemma MoveOutcome(s: State, relative: bool, text: string, fmt: Format)
    requires Valid(s) && WellFormed(text) && KnownNames(s.axes, text)
    ensures var (r, out) := Handle(s, RequestText(relative, text), fmt);
      && Remembers(s, r)
      && out == if MovesAccepted(r.link, |s.link.log|) then Replied(MSG_SUCCESS, "")
                else Replied(MSG_ERROR, "Controller Error: " + r.err)
  {
    RequestReachesBoard(s, relative, text, fmt);
    ValidParts(s);
    hide Handle, MoveBare, Requested, Remembers, MovesAccepted, ToBare, KeysInOrder, Valid, WellFormed, KnownNames, Descriptors;
    var pos := Requested(s.axes, ValuesOf(text, fmt.read));
    MoveResult(s, ToBare(s.axes, KeysInOrder(pos), pos, map[]), relative);
    MoveRemembers(s, pos, relative);
  }

  lemma RefusedOutcome(s: State, relative: bool, text: string, fmt: Format)
    requires Valid(s) && Handle(s, RequestText(relative, text), fmt).1.Replied?
    requires !(WellFormed(text) && KnownNames(s.axes, text))
    ensures Handle(s, RequestText(relative, text), fmt) ==
      (s, Replied(MSG_ERROR, if !WellFormed(text) then "parse_multiplett_failure"
                             else "entered position has an invalid axis descriptor"))
  {
    Dispatch(s, relative, text, fmt);
    P.ParseExactly(fmt.read, text);
    hide Handle, MoveUser, Requested, P.ParseMultiplett, P.FieldsOf, P.Broken, P.ParseFields, KnownNames, Descriptors, Valid,
      P.AllDelimited, RequestText;
    if P.ParseMultiplett(fmt.read, text).Parsed? {
      NamesParsed(s.axes, text, fmt.read);
    }
  }
}
