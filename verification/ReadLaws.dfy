/** Unit conversion over whole positions, and what a read-back shows
    (src/core/IAPBoard.cpp:345-378, 531-574). */
module ReadLaws {
  import opened Basics
  import opened Units
  import opened Report
  import opened Controller
  import opened Config
  import opened BoardSpec

  ghost predicate AllRegistered<T>(axes: seq<Axis>, pos: map<nat, T>) {
    forall id :: id in pos ==> Registered(axes, id)
  }

  /** How many ids come before the first one that is not registered. */
  function RegisteredPrefix(axes: seq<Axis>, ids: seq<nat>): (n: nat)
    ensures n <= |ids| && (forall k :: 0 <= k < n ==> Registered(axes, ids[k]))
    ensures n < |ids| ==> !Registered(axes, ids[n])
  {
    if ids == [] || ids[0] !in RegisteredIds(axes) then 0
    else
      var n := RegisteredPrefix(axes, ids[1..]);
      assert forall k :: 1 <= k < n + 1 ==> ids[k] == ids[1..][k - 1];
      n + 1
  }

  /** The conversion to steps covers exactly the ids before the first unregistered one, each by its
      own axis's factor and offset. */
  lemma {:induction false} ToBareContents(axes: seq<Axis>, ids: seq<nat>, pos: map<nat, real>, ret: map<nat, int>, x: nat)
    requires SoundFactors(axes) && Increasing(ids)
    requires AllIn(ids, pos)
    ensures var done := ids[..RegisteredPrefix(axes, ids)];
      && (x in ToBare(axes, ids, pos, ret) <==> x in ret || x in done)
      && (x in done ==> (Registered(axes, x) && x in pos && ToBare(axes, ids, pos, ret)[x] ==
            ToSteps(pos[x], FindAxis(axes, x).conv.factor, FindAxis(axes, x).conv.offset)))
      && (x in ret && x !in done ==> ToBare(axes, ids, pos, ret)[x] == ret[x])
    decreases |ids|
  {
    if ids != [] && ids[0] in RegisteredIds(axes) {
      var conv := FindAxis(axes, ids[0]).conv;
      var rest := ids[1..];
      var n := RegisteredPrefix(axes, rest);
      var ret' := ret[ids[0] := ToSteps(pos[ids[0]], conv.factor, conv.offset)];
      ToBareContents(axes, rest, pos, ret', x);
      PrefixMember(ids, n, x);
    }
  }

  lemma PrefixMember(ids: seq<nat>, n: nat, x: nat)
    requires Increasing(ids) && n < |ids|
    ensures x in ids[..n + 1] <==> x == ids[0] || x in ids[1..][..n]
    ensures ids[0] !in ids[1..][..n]
  {
    assert ids[..n + 1] == [ids[0]] + ids[1..][..n];
  }

  /** For registered axes the conversion is one map over the whole position. */
  function Steps(axes: seq<Axis>, pos: map<nat, real>): map<nat, int>
    requires SoundFactors(axes) && AllRegistered(axes, pos)
  {
    map id | id in pos :: ToSteps(pos[id], FindAxis(axes, id).conv.factor, FindAxis(axes, id).conv.offset)
  }

  function UserUnits(axes: seq<Axis>, bpos: map<nat, int>): map<nat, real>
    requires AllRegistered(axes, bpos)
  {
    map id | id in bpos :: ToUnits(bpos[id], FindAxis(axes, id).conv.factor, FindAxis(axes, id).conv.offset)
  }

  lemma AllCovered<T>(axes: seq<Axis>, pos: map<nat, T>)
    requires AllRegistered(axes, pos)
    ensures RegisteredPrefix(axes, KeysInOrder(pos)) == |KeysInOrder(pos)|
  {
  }

  lemma ToBareIsSteps(axes: seq<Axis>, pos: map<nat, real>)
    requires SoundFactors(axes) && AllRegistered(axes, pos)
    ensures ToBare(axes, KeysInOrder(pos), pos, map[]) == Steps(axes, pos)
  {
    var ids := KeysInOrder(pos);
    AllCovered(axes, pos);
    assert ids[..|ids|] == ids;
    hide ToBare, KeysInOrder, ToSteps, RegisteredPrefix;
    forall x ensures x in ToBare(axes, ids, pos, map[]) <==> x in pos
      ensures x in pos ==> ToBare(axes, ids, pos, map[])[x] == Steps(axes, pos)[x]
    {
      ToBareContents(axes, ids, pos, map[], x);
    }
  }

  lemma {:induction false} ToUserContents(axes: seq<Axis>, ids: seq<nat>, bpos: map<nat, int>, ret: map<nat, real>, x: nat)
    requires Increasing(ids)
    requires AllIn(ids, bpos) && forall k :: 0 <= k < |ids| ==> Registered(axes, ids[k])
    ensures x in ToUser(axes, ids, bpos, ret) <==> x in ret || x in ids
    ensures x in ids ==> (Registered(axes, x) && x in bpos && ToUser(axes, ids, bpos, ret)[x] ==
      ToUnits(bpos[x], FindAxis(axes, x).conv.factor, FindAxis(axes, x).conv.offset))
    ensures x in ret && x !in ids ==> ToUser(axes, ids, bpos, ret)[x] == ret[x]
    decreases |ids|
  {
    if ids != [] {
      var conv := FindAxis(axes, ids[0]).conv;
      var ret' := ret[ids[0] := ToUnits(bpos[ids[0]], conv.factor, conv.offset)];
      ToUserContents(axes, ids[1..], bpos, ret', x);
      assert x in ids <==> x == ids[0] || x in ids[1..];
      assert ids[0] !in ids[1..];
    }
  }

  lemma ToUserIsUserUnits(axes: seq<Axis>, bpos: map<nat, int>, ret: map<nat, real>)
    requires AllRegistered(axes, bpos) && ret.Keys <= bpos.Keys
    ensures ToUser(axes, KeysInOrder(bpos), bpos, ret) == UserUnits(axes, bpos)
  {
    hide ToUser, KeysInOrder, ToUnits;
    var ids := KeysInOrder(bpos);
    forall x ensures x in ToUser(axes, ids, bpos, ret) <==> x in bpos
      ensures x in bpos ==> ToUser(axes, ids, bpos, ret)[x] == UserUnits(axes, bpos)[x]
    {
      ToUserContents(axes, ids, bpos, ret, x);
    }
  }

  /** Over a whole position of registered axes: steps to user units to steps is the identity. */
  lemma StepsSurvive(axes: seq<Axis>, bpos: map<nat, int>)
    requires SoundFactors(axes) && AllRegistered(axes, bpos)
    ensures ToBare(axes, KeysInOrder(UserUnits(axes, bpos)), UserUnits(axes, bpos), map[]) == bpos
  {
    hide ToBare, KeysInOrder, ToSteps, ToUnits;
    ToBareIsSteps(axes, UserUnits(axes, bpos));
    forall id | id in bpos ensures Steps(axes, UserUnits(axes, bpos))[id] == bpos[id] {
      StepsRoundTrip(bpos[id], FindAxis(axes, id).conv.factor, FindAxis(axes, id).conv.offset);
    }
  }

  /** The pair `conv2bareposition` then `conv2postion`. */
  function ThereAndBack(axes: seq<Axis>, pos: map<nat, real>): map<nat, real>
    requires SoundFactors(axes)
  {
    var bpos := ToBare(axes, KeysInOrder(pos), pos, map[]);
    ToUser(axes, KeysInOrder(bpos), bpos, map[])
  }

  lemma BackInUnits(axes: seq<Axis>, pos: map<nat, real>)
    requires SoundFactors(axes) && AllRegistered(axes, pos)
    ensures ThereAndBack(axes, pos) == UserUnits(axes, Steps(axes, pos))
  {
    ToBareIsSteps(axes, pos);
    hide ToBare, ToUser, KeysInOrder, ToSteps, ToUnits, Steps, UserUnits;
    ToUserIsUserUnits(axes, Steps(axes, pos), map[]);
  }

  lemma UnitNearlySurvives(axes: seq<Axis>, pos: map<nat, real>, id: nat)
    requires SoundFactors(axes) && AllRegistered(axes, pos) && id in pos
    ensures Abs(UserUnits(axes, Steps(axes, pos))[id] - pos[id]) < Abs(FindAxis(axes, id).conv.factor)
  {
    hide ToSteps, ToUnits, Abs;
    UnitsRoundTrip(pos[id], FindAxis(axes, id).conv.factor, FindAxis(axes, id).conv.offset);
  }

  /** Over a whole position of registered axes: user units to steps to user units names the same
      axes and is off by strictly less than one step's worth on each. */
  lemma UnitsNearlySurvive(axes: seq<Axis>, pos: map<nat, real>, id: nat)
    requires SoundFactors(axes) && AllRegistered(axes, pos)
    ensures ThereAndBack(axes, pos).Keys == pos.Keys
    ensures id in pos ==> Abs(ThereAndBack(axes, pos)[id] - pos[id]) < Abs(FindAxis(axes, id).conv.factor)
  {
    hide *;
    BackInUnits(axes, pos);
    SameNames(axes, pos);
    if id in pos {
      UnitNearlySurvives(axes, pos, id);
    }
  }

  lemma SameNames(axes: seq<Axis>, pos: map<nat, real>)
    requires SoundFactors(axes) && AllRegistered(axes, pos)
    ensures AllRegistered(axes, Steps(axes, pos))
    ensures Steps(axes, pos).Keys == UserUnits(axes, Steps(axes, pos)).Keys == pos.Keys
  {
    hide ToSteps, ToUnits;
  }

  // ----- reading back -----

  /** What a position display ought to show: steps minus the zero offset, times the factor. */
  function Displayed(s: State): map<nat, real> {
    map id | id in RegisteredIds(s.axes) ::
      ToUnits(PositionOf(s.link.ctrl, id), FindAxis(s.axes, id).conv.factor, FindAxis(s.axes, id).conv.offset)
  }

  function TruePositions(s: State): map<nat, int> {
    map id | id in RegisteredIds(s.axes) :: PositionOf(s.link.ctrl, id)
  }

  ghost predicate FaithfulAnswer(s: State) {
    Answer(s.link).Accepted? && FaithfulReport(Answer(s.link).text, s.link.ctrl, RegisteredIds(s.axes))
  }

  /** A faithful report, once scanned, stores the true position of every registered axis. */
  lemma ReadBareTruth(s: State, bp: map<nat, int>)
    requires FaithfulAnswer(s) && bp.Keys <= RegisteredIds(s.axes)
    ensures ReadBare(s, bp).1 == TruePositions(s)
  {
    var ids := RegisteredIds(s.axes);
    var r := ReadBare(s, bp).1;
    forall x ensures x in r <==> x in TruePositions(s)
      ensures x in r ==> r[x] == TruePositions(s)[x]
    {
      FaithfulReading(Answer(s.link).text, s.link.ctrl, ids, bp, x);
    }
  }

  /** With a faithful report the position printed by `pp` is the displayed one. */
  lemma ReadUserTruth(s: State)
    requires FaithfulAnswer(s)
    ensures ReadUser(s).1 == Displayed(s)
  {
    hide ReadBare, ToUser, KeysInOrder, ToUnits;
    ReadBareTruth(s, DefaultBare(s.axes));
    ToUserIsUserUnits(s.axes, TruePositions(s), DefaultUser(s.axes));
    TruePositionsShown(s);
  }

  lemma TruePositionsShown(s: State)
    ensures AllRegistered(s.axes, TruePositions(s))
    ensures UserUnits(s.axes, TruePositions(s)) == Displayed(s)
  {
    hide ToUnits, PositionOf, FindAxis;
    assert UserUnits(s.axes, TruePositions(s)).Keys == Displayed(s).Keys;
  }

  lemma QueryIsHarmless(s: State)
    ensures ReadUser(s).0 == Send(s, QueryPositions)
    ensures ReadUser(s).0.link.ctrl == s.link.ctrl
    ensures Displayed(ReadUser(s).0) == Displayed(s)
  {
    hide Merge, Scan, ToUser, KeysInOrder, ToUnits, RegisteredIds;
  }
}
