/** What a multi-axis move does to the controller, for every pattern of accepted and rejected
    commands (src/core/IAPBoard.cpp:381-393, 465-528). */
module MoveLaws {
  import opened Basics
  import opened Controller
  import opened Config
  import opened BoardSpec

  // ----- one command -----

  lemma ExtendsTransitive(a: Link, b: Link, c: Link)
    requires Extends(a, b) && Extends(b, c)
    ensures Extends(a, c)
  {
    assert c.log[..|a.log|] == c.log[..|b.log|][..|a.log|];
  }

  lemma EventKept(l: Link, later: Link, k: nat)
    requires Extends(l, later) && k < |l.log|
    ensures later.log[k] == l.log[k]
  {
    assert later.log[..|l.log|][k] == l.log[k];
  }

  /** Everything a move loop leaves alone. */
  ghost predicate SameBoard(s: State, t: State) {
    t.init == s.init && t.connected == s.connected && t.nodes == s.nodes && t.axes == s.axes
    && t.cur == s.cur && t.env == s.env && t.link.replies == s.link.replies
  }

  // ----- the script on the line -----

  /** The replies to the k-th select and the k-th move of a loop whose first command is number
      `base`. */
  function SelectReply(replies: nat -> Reply, base: nat, k: nat): Reply {
    replies(base + 2 * k)
  }

  function MoveReply(replies: nat -> Reply, base: nat, k: nat): Reply {
    replies(base + 2 * k + 1)
  }

  /** How many of `n` moves go through before the first rejected one. */
  function MovedCount(replies: nat -> Reply, base: nat, n: nat): (m: nat)
    ensures m <= n
    ensures forall k :: 0 <= k < m ==> MoveReply(replies, base, k).Accepted?
    ensures m < n ==> !MoveReply(replies, base, m).Accepted?
    decreases n
  {
    if n == 0 || !MoveReply(replies, base, 0).Accepted? then 0
    else
      var m := MovedCount(replies, base + 2, n - 1);
      assert forall k :: 1 <= k < m + 1 ==> MoveReply(replies, base, k) == MoveReply(replies, base + 2, k - 1);
      assert MoveReply(replies, base, m + 1) == MoveReply(replies, base + 2, m);
      m + 1
  }

  /** How many moves were sent: the rejected one is the last. */
  function Attempted(m: nat, n: nat): nat {
    if m < n then m + 1 else n
  }

  /** The first two commands of a non-empty loop. */
  function FirstMove(s: State, ids: seq<nat>, bp: map<nat, int>, relative: bool): State
    requires ids != [] && AllIn(ids, bp)
  {
    Send(SaveSetAxisNum(s, ids[0]), MoveCommand(relative, bp[ids[0]]))
  }

  lemma FirstMoveLog(s: State, ids: seq<nat>, bp: map<nat, int>, relative: bool)
    requires ids != [] && AllIn(ids, bp)
    ensures var t := FirstMove(s, ids, bp, relative);
      && SameBoard(s, t) && Extends(s.link, t.link) && |t.link.log| == |s.link.log| + 2
      && MovePair(t.link.log, s.link.replies, |s.link.log|, 0, ids[0], MoveCommand(relative, bp[ids[0]]), t.link.ctrl.selected)
      && t.link.ctrl.selected ==
           (if SelectReply(s.link.replies, |s.link.log|, 0).Accepted? then ids[0] else s.link.ctrl.selected)
    ensures RunMoves(s, ids, bp, relative) ==
      (if MoveReply(s.link.replies, |s.link.log|, 0).Accepted?
       then RunMoves(FirstMove(s, ids, bp, relative), ids[1..], bp, relative)
       else (FirstMove(s, ids, bp, relative), Code(MoveReply(s.link.replies, |s.link.log|, 0))))
  {
  }

  lemma MovedCountStep(replies: nat -> Reply, base: nat, n: nat)
    requires n > 0
    ensures MoveReply(replies, base, 0).Accepted? ==>
      && MovedCount(replies, base, n) == 1 + MovedCount(replies, base + 2, n - 1)
      && MoveReply(replies, base, MovedCount(replies, base, n)) ==
           MoveReply(replies, base + 2, MovedCount(replies, base + 2, n - 1))
    ensures !MoveReply(replies, base, 0).Accepted? ==> MovedCount(replies, base, n) == 0
  {
  }

  /** A move loop leaves the board as it was, sends two commands per attempted move, and returns
      the code of the first rejected move, or 0. */
  lemma {:induction false} MoveShape(s: State, ids: seq<nat>, bp: map<nat, int>, relative: bool)
    requires AllIn(ids, bp)
    ensures SameBoard(s, RunMoves(s, ids, bp, relative).0)
    ensures Extends(s.link, RunMoves(s, ids, bp, relative).0.link)
    ensures |RunMoves(s, ids, bp, relative).0.link.log| ==
      |s.link.log| + 2 * Attempted(MovedCount(s.link.replies, |s.link.log|, |ids|), |ids|)
    ensures var m := MovedCount(s.link.replies, |s.link.log|, |ids|);
      RunMoves(s, ids, bp, relative).1 ==
        (if m < |ids| then Code(MoveReply(s.link.replies, |s.link.log|, m)) else 0)
    ensures RunMoves(s, ids, bp, relative).1 <= 0
    ensures RunMoves(s, ids, bp, relative).1 < 0 <==>
      MovedCount(s.link.replies, |s.link.log|, |ids|) < |ids|
    decreases |ids|, 1
  {
    if ids != [] {
      FirstMoveLog(s, ids, bp, relative);
      var base := |s.link.log|;
      MovedCountStep(s.link.replies, base, |ids|);
      hide RunMoves, MovedCount, FirstMove, MovePair;
      if MoveReply(s.link.replies, base, 0).Accepted? {
        MoveShapeLater(s, FirstMove(s, ids, bp, relative), ids, bp, relative);
      }
    }
  }

  lemma {:induction false} MoveShapeLater(s: State, t: State, ids: seq<nat>, bp: map<nat, int>, relative: bool)
    requires ids != [] && AllIn(ids, bp)
    requires SameBoard(s, t) && Extends(s.link, t.link) && |t.link.log| == |s.link.log| + 2
    ensures SameBoard(s, RunMoves(t, ids[1..], bp, relative).0)
    ensures Extends(s.link, RunMoves(t, ids[1..], bp, relative).0.link)
    ensures var m := MovedCount(s.link.replies, |s.link.log| + 2, |ids| - 1);
      && |RunMoves(t, ids[1..], bp, relative).0.link.log| == |s.link.log| + 2 + 2 * Attempted(m, |ids| - 1)
      && RunMoves(t, ids[1..], bp, relative).1 ==
           (if m < |ids| - 1 then Code(MoveReply(s.link.replies, |s.link.log| + 2, m)) else 0)
    ensures RunMoves(t, ids[1..], bp, relative).1 <= 0
    ensures RunMoves(t, ids[1..], bp, relative).1 < 0 <==>
      MovedCount(s.link.replies, |s.link.log| + 2, |ids| - 1) < |ids| - 1
    decreases |ids|, 0
  {
    hide RunMoves, MovedCount;
    MoveShape(t, ids[1..], bp, relative);
    ExtendsTransitive(s.link, t.link, RunMoves(t, ids[1..], bp, relative).0.link);
  }

  /** The log entries a move loop owes to its k-th axis. */
  ghost predicate MovePair(log: seq<Event>, replies: nat -> Reply, base: nat, k: nat, id: nat, move: Command, channel: nat) {
    && base + 2 * k + 1 < |log|
    && log[base + 2 * k].cmd == Select(id) && log[base + 2 * k].reply == SelectReply(replies, base, k)
    && log[base + 2 * k + 1].cmd == move && log[base + 2 * k + 1].reply == MoveReply(replies, base, k)
    && log[base + 2 * k + 1].before.selected == channel
  }

  lemma MovePairLater(log: seq<Event>, replies: nat -> Reply, base: nat, k: nat, id: nat, move: Command, channel: nat)
    requires k > 0 && MovePair(log, replies, base + 2, k - 1, id, move, channel)
    ensures MovePair(log, replies, base, k, id, move, channel)
  {
    assert SelectReply(replies, base + 2, k - 1) == SelectReply(replies, base, k);
    assert MoveReply(replies, base + 2, k - 1) == MoveReply(replies, base, k);
  }

  lemma MovePairFirst(t: Link, later: Link, replies: nat -> Reply, base: nat, id: nat, move: Command, channel: nat)
    requires |t.log| == base + 2 && Extends(t, later)
    requires MovePair(t.log, replies, base, 0, id, move, channel)
    ensures MovePair(later.log, replies, base, 0, id, move, channel)
  {
    EventKept(t, later, base);
    EventKept(t, later, base + 1);
  }

  /** The script: the k-th attempted pair selects the k-th named axis, sends it its own value, and
      the value goes to whatever channel is then selected. */
  lemma {:induction false} MoveScript(s: State, ids: seq<nat>, bp: map<nat, int>, relative: bool, k: nat)
    requires AllIn(ids, bp)
    requires k < Attempted(MovedCount(s.link.replies, |s.link.log|, |ids|), |ids|)
    ensures MovePair(RunMoves(s, ids, bp, relative).0.link.log, s.link.replies, |s.link.log|, k, ids[k],
                     MoveCommand(relative, bp[ids[k]]),
                     ChannelAt(s.link.replies, |s.link.log|, ids, s.link.ctrl.selected, k))
    decreases |ids|
  {
    var base, replies, initial := |s.link.log|, s.link.replies, s.link.ctrl.selected;
    FirstMoveLog(s, ids, bp, relative);
    var t := FirstMove(s, ids, bp, relative);
    var move, channel := MoveCommand(relative, bp[ids[k]]), ChannelAt(replies, base, ids, initial, k);
    MovedCountStep(replies, base, |ids|);
    hide MovePair, RunMoves, FirstMove, MovedCount, MoveReply, MoveCommand, Extends;
    if k == 0 {
      assert MovePair(t.link.log, replies, base, 0, ids[0], move, channel);
      if MoveReply(replies, base, 0).Accepted? {
        MoveShape(t, ids[1..], bp, relative);
        MovePairFirst(t.link, RunMoves(t, ids[1..], bp, relative).0.link, replies, base, ids[0], move, channel);
      }
    } else {
      MoveScript(t, ids[1..], bp, relative, k - 1);
      ChannelShift(replies, base, ids, initial, k);
      MovePairLater(RunMoves(t, ids[1..], bp, relative).0.link.log, replies, base, k, ids[k], move, channel);
    }
  }

  /** The channel that is selected when the k-th move is sent: a rejected select leaves the one
      before, and nothing checks it. */
  function ChannelAt(replies: nat -> Reply, base: nat, ids: seq<nat>, initial: nat, k: nat): nat
    requires k < |ids|
  {
    if SelectReply(replies, base, k).Accepted? then ids[k]
    else if k == 0 then initial
    else ChannelAt(replies, base, ids, initial, k - 1)
  }

  lemma {:induction false} ChannelShift(replies: nat -> Reply, base: nat, ids: seq<nat>, initial: nat, k: nat)
    requires 1 <= k < |ids|
    ensures ChannelAt(replies, base, ids, initial, k) ==
      ChannelAt(replies, base + 2, ids[1..], if SelectReply(replies, base, 0).Accepted? then ids[0] else initial, k - 1)
    decreases k
  {
    assert SelectReply(replies, base + 2, k - 1) == SelectReply(replies, base, k);
    if k > 1 {
      ChannelShift(replies, base, ids, initial, k - 1);
    }
  }

  /** Every move acts on its own axis exactly when its select is accepted, or when no select has
      been accepted so far and the controller happened to stand on that axis already. */
  lemma {:induction false} MoveOnTarget(replies: nat -> Reply, base: nat, ids: seq<nat>, initial: nat, k: nat)
    requires Increasing(ids) && k < |ids|
    ensures ChannelAt(replies, base, ids, initial, k) == ids[k] <==>
      SelectReply(replies, base, k).Accepted?
      || (initial == ids[k] && forall j :: 0 <= j < k ==> !SelectReply(replies, base, j).Accepted?)
  {
    ChannelOrigin(replies, base, ids, initial, k);
  }

  lemma {:induction false} ChannelOrigin(replies: nat -> Reply, base: nat, ids: seq<nat>, initial: nat, k: nat)
    requires Increasing(ids) && k < |ids|
    ensures if forall j :: 0 <= j <= k ==> !SelectReply(replies, base, j).Accepted?
      then ChannelAt(replies, base, ids, initial, k) == initial
      else exists j :: 0 <= j <= k && SelectReply(replies, base, j).Accepted? && ChannelAt(replies, base, ids, initial, k) == ids[j]
    ensures !SelectReply(replies, base, k).Accepted? && (exists j :: 0 <= j < k && SelectReply(replies, base, j).Accepted?)
      ==> ChannelAt(replies, base, ids, initial, k) < ids[k]
    decreases k
  {
    if !SelectReply(replies, base, k).Accepted? && k > 0 {
      ChannelOrigin(replies, base, ids, initial, k - 1);
    }
  }

  // ----- the effect on the controller -----

  function Displace(st: Settings, amount: int, relative: bool): Settings {
    st.(position := if relative then st.position + amount else amount)
  }

  /** One map update: the listed channels are set, or incremented, by their own value, and no other
      channel is touched. */
  function Displaced(c: PM381, ids: seq<nat>, bp: map<nat, int>, relative: bool): map<nat, Settings>
    requires AllIn(ids, bp)
  {
    map id | id in c.channels.Keys + (set x | x in ids) ::
      if id in ids then (assert AllIn(ids, bp); Displace(Channel(c, id), bp[id], relative)) else c.channels[id]
  }

  lemma DisplacedStep(c: PM381, c': PM381, id: nat, rest: seq<nat>, bp: map<nat, int>, relative: bool)
    requires id in bp && AllIn(rest, bp) && id !in rest
    requires c'.channels == c.channels[id := Displace(Channel(c, id), bp[id], relative)]
    ensures AllIn([id] + rest, bp)
    ensures Displaced(c', rest, bp, relative) == Displaced(c, [id] + rest, bp, relative)
  {
    var ids := [id] + rest;
    assert forall x :: x in ids <==> x == id || x in rest;
    assert Displaced(c', rest, bp, relative).Keys == Displaced(c, ids, bp, relative).Keys;
  }

  lemma DisplacedPrefix(c: PM381, c': PM381, ids: seq<nat>, m: nat, bp: map<nat, int>, relative: bool)
    requires AllIn(ids, bp) && Increasing(ids) && 1 <= m <= |ids|
    requires c'.channels == c.channels[ids[0] := Displace(Channel(c, ids[0]), bp[ids[0]], relative)]
    ensures Displaced(c', ids[1..][..m - 1], bp, relative) == Displaced(c, ids[..m], bp, relative)
  {
    var rest := ids[1..][..m - 1];
    assert [ids[0]] + rest == ids[..m];
    DisplacedStep(c, c', ids[0], rest, bp, relative);
  }

  lemma DisplacedNothing(c: PM381, bp: map<nat, int>, relative: bool)
    ensures Displaced(c, [], bp, relative) == c.channels
  {
  }

  lemma FirstMoveEffect(s: State, ids: seq<nat>, bp: map<nat, int>, relative: bool)
    requires ids != [] && AllIn(ids, bp)
    requires SelectReply(s.link.replies, |s.link.log|, 0).Accepted?
    ensures FirstMove(s, ids, bp, relative).link.ctrl.channels ==
      if MoveReply(s.link.replies, |s.link.log|, 0).Accepted?
      then s.link.ctrl.channels[ids[0] := Displace(Channel(s.link.ctrl, ids[0]), bp[ids[0]], relative)]
      else s.link.ctrl.channels
  {
  }

  ghost predicate SelectsGranted(replies: nat -> Reply, base: nat, n: nat) {
    forall k :: 0 <= k < n ==> SelectReply(replies, base, k).Accepted?
  }

  /** With accepted selects, a move loop changes exactly the axes before the first rejected move. */
  lemma {:induction false} MoveEffect(s: State, ids: seq<nat>, bp: map<nat, int>, relative: bool)
    requires AllIn(ids, bp) && Increasing(ids)
    requires SelectsGranted(s.link.replies, |s.link.log|, Attempted(MovedCount(s.link.replies, |s.link.log|, |ids|), |ids|))
    ensures RunMoves(s, ids, bp, relative).0.link.ctrl.channels ==
      Displaced(s.link.ctrl, ids[..MovedCount(s.link.replies, |s.link.log|, |ids|)], bp, relative)
    decreases |ids|, 1
  {
    if ids == [] {
      DisplacedNothing(s.link.ctrl, bp, relative);
      return;
    }
    var base, replies := |s.link.log|, s.link.replies;
    var m := MovedCount(replies, base, |ids|);
    var t := FirstMove(s, ids, bp, relative);
    FirstMoveLog(s, ids, bp, relative);
    FirstMoveEffect(s, ids, bp, relative);
    MovedCountStep(replies, base, |ids|);
    hide RunMoves, FirstMove, Displaced, MovedCount;
    if MoveReply(replies, base, 0).Accepted? {
      GrantedLater(replies, base, Attempted(m, |ids|));
      LaterMoves(s, t, ids, bp, relative, m);
    } else {
      DisplacedNothing(s.link.ctrl, bp, relative);
      assert ids[..m] == [];
    }
  }

  lemma {:induction false} LaterMoves(s: State, t: State, ids: seq<nat>, bp: map<nat, int>, relative: bool, m: nat)
    requires AllIn(ids, bp) && Increasing(ids) && 1 <= m <= |ids|
    requires m == 1 + MovedCount(t.link.replies, |t.link.log|, |ids| - 1)
    requires SelectsGranted(t.link.replies, |t.link.log|, Attempted(m, |ids|) - 1)
    requires t.link.ctrl.channels ==
      s.link.ctrl.channels[ids[0] := Displace(Channel(s.link.ctrl, ids[0]), bp[ids[0]], relative)]
    ensures RunMoves(t, ids[1..], bp, relative).0.link.ctrl.channels == Displaced(s.link.ctrl, ids[..m], bp, relative)
    decreases |ids|, 0
  {
    hide RunMoves, Displaced;
    MoveEffect(t, ids[1..], bp, relative);
    DisplacedPrefix(s.link.ctrl, t.link.ctrl, ids, m, bp, relative);
  }

  lemma GrantedLater(replies: nat -> Reply, base: nat, n: nat)
    requires n > 0 && SelectsGranted(replies, base, n)
    ensures SelectsGranted(replies, base + 2, n - 1)
  {
    var later := base + 2;
    forall k | 0 <= k < n - 1 ensures SelectReply(replies, later, k).Accepted? {
      assert SelectReply(replies, later, k) == SelectReply(replies, base, k + 1);
    }
  }

  /** What `n` moves leave on the channels: each acts on the channel that is selected when it is sent,
      whosever that is. */
  function Driven(c: map<nat, Settings>, replies: nat -> Reply, base: nat, ids: seq<nat>, bp: map<nat, int>,
                  relative: bool, initial: nat, n: nat): map<nat, Settings>
    requires AllIn(ids, bp) && n <= |ids|
  {
    if n == 0 then c
    else
      var before := Driven(c, replies, base, ids, bp, relative, initial, n - 1);
      var channel := ChannelAt(replies, base, ids, initial, n - 1);
      before[channel := Displace(Channel(PM381(initial, before), channel), bp[ids[n - 1]], relative)]
  }

  lemma {:induction false} DrivenShift(c: map<nat, Settings>, replies: nat -> Reply, base: nat, ids: seq<nat>, bp: map<nat, int>,
                                       relative: bool, initial: nat, n: nat)
    requires AllIn(ids, bp) && 1 <= n <= |ids|
    ensures var first := if SelectReply(replies, base, 0).Accepted? then ids[0] else initial;
      AllIn(ids[1..], bp) &&
      Driven(c, replies, base, ids, bp, relative, initial, n) ==
        Driven(c[first := Displace(Channel(PM381(initial, c), first), bp[ids[0]], relative)],
               replies, base + 2, ids[1..], bp, relative, first, n - 1)
    decreases n
  {
    hide Displace;
    var first := if SelectReply(replies, base, 0).Accepted? then ids[0] else initial;
    assert ChannelAt(replies, base, ids, initial, 0) == first;
    assert Driven(c, replies, base, ids, bp, relative, initial, 0) == c;
    if n > 1 {
      DrivenShift(c, replies, base, ids, bp, relative, initial, n - 1);
      ChannelShift(replies, base, ids, initial, n - 1);
      assert ids[1..][n - 2] == ids[n - 1];
    }
  }

  lemma FirstMoveDrives(s: State, ids: seq<nat>, bp: map<nat, int>, relative: bool)
    requires ids != [] && AllIn(ids, bp)
    ensures var t := FirstMove(s, ids, bp, relative);
      var first := if SelectReply(s.link.replies, |s.link.log|, 0).Accepted? then ids[0] else s.link.ctrl.selected;
      && t.link.ctrl.selected == first
      && t.link.ctrl.channels ==
           (if MoveReply(s.link.replies, |s.link.log|, 0).Accepted?
            then s.link.ctrl.channels[first :=
              Displace(Channel(PM381(s.link.ctrl.selected, s.link.ctrl.channels), first), bp[ids[0]], relative)]
            else s.link.ctrl.channels)
  {
  }

  /** For every pattern of replies: the accepted moves before the first rejected one, and only those,
      act, each by its own value on the channel it met. */
  lemma {:induction false} MoveDrives(s: State, ids: seq<nat>, bp: map<nat, int>, relative: bool)
    requires AllIn(ids, bp)
    ensures RunMoves(s, ids, bp, relative).0.link.ctrl.channels ==
      Driven(s.link.ctrl.channels, s.link.replies, |s.link.log|, ids, bp, relative, s.link.ctrl.selected,
             MovedCount(s.link.replies, |s.link.log|, |ids|))
    decreases |ids|
  {
    if ids != [] {
      var base, replies := |s.link.log|, s.link.replies;
      var m := MovedCount(replies, base, |ids|);
      FirstMoveLog(s, ids, bp, relative);
      FirstMoveDrives(s, ids, bp, relative);
      MovedCountStep(replies, base, |ids|);
      hide RunMoves, FirstMove, MovedCount, MovePair, Displace, Channel;
      if MoveReply(replies, base, 0).Accepted? {
        var t := FirstMove(s, ids, bp, relative);
        MoveDrives(t, ids[1..], bp, relative);
        DrivenShift(s.link.ctrl.channels, replies, base, ids, bp, relative, s.link.ctrl.selected, m);
      }
    }
  }

  // ----- the whole move: save, loop, restore -----

  lemma RestoreLog(t: State)
    ensures SameBoard(t, RestoreEnvironment(t)) && Extends(t.link, RestoreEnvironment(t).link)
    ensures |RestoreEnvironment(t).link.log| == |t.link.log| + 1
    ensures RestoreEnvironment(t).link.log[|t.link.log|].cmd == Select(t.env)
    ensures RestoreEnvironment(t).link.ctrl.channels == t.link.ctrl.channels
    ensures RestoreEnvironment(t).link.log[|t.link.log|].reply.Accepted? ==>
      RestoreEnvironment(t).link.ctrl.selected == t.env
  {
  }

  /** A move as a whole only adds to the log and never changes the board's own records. */
  lemma MoveLog(s: State, bp: map<nat, int>, relative: bool)
    ensures var t := RunMoves(SaveEnvironment(s), KeysInOrder(bp), bp, relative);
      MoveBare(s, bp, relative) == (RestoreEnvironment(t.0), t.1)
    ensures SameBoard(SaveEnvironment(s), MoveBare(s, bp, relative).0)
    ensures Extends(s.link, MoveBare(s, bp, relative).0.link)
  {
    hide RunMoves;
    var t, r := RunMoves(SaveEnvironment(s), KeysInOrder(bp), bp, relative).0, MoveBare(s, bp, relative).0;
    MoveShape(SaveEnvironment(s), KeysInOrder(bp), bp, relative);
    RestoreLog(t);
    ExtendsTransitive(s.link, t.link, r.link);
  }

  /** The same for the whole move: restoring the channel drives nothing. */
  lemma MoveBareDrives(s: State, bp: map<nat, int>, relative: bool)
    ensures MoveBare(s, bp, relative).0.link.ctrl.channels ==
      Driven(s.link.ctrl.channels, s.link.replies, |s.link.log|, KeysInOrder(bp), bp, relative, s.link.ctrl.selected,
             MovedCount(s.link.replies, |s.link.log|, |KeysInOrder(bp)|))
  {
    hide RunMoves, Driven, MovedCount, KeysInOrder;
    var e := SaveEnvironment(s);
    MoveDrives(e, KeysInOrder(bp), bp, relative);
    RestoreLog(RunMoves(e, KeysInOrder(bp), bp, relative).0);
  }

  lemma LoopEvent(s: State, ids: seq<nat>, bp: map<nat, int>, relative: bool, k: nat)
    requires AllIn(ids, bp)
    requires MovedCount(s.link.replies, |s.link.log|, |ids|) == |ids|
    requires |s.link.log| <= k < |RunMoves(s, ids, bp, relative).0.link.log|
    ensures var e := RunMoves(s, ids, bp, relative).0.link.log[k];
      e.cmd.Select? || e.reply.Accepted?
  {
    hide RunMoves;
    var base := |s.link.log|;
    var j := (k - base) / 2;
    MoveShape(s, ids, bp, relative);
    MoveScript(s, ids, bp, relative, j);
    assert MoveReply(s.link.replies, base, j).Accepted?;
    assert k == base + 2 * j || k == base + 2 * j + 1;
  }

  lemma LoopResult(s: State, ids: seq<nat>, bp: map<nat, int>, relative: bool)
    requires AllIn(ids, bp)
    ensures RunMoves(s, ids, bp, relative).1 < 0 <==> !MovesAccepted(RunMoves(s, ids, bp, relative).0.link, |s.link.log|)
  {
    hide RunMoves;
    var base, l := |s.link.log|, RunMoves(s, ids, bp, relative).0.link;
    var m := MovedCount(s.link.replies, base, |ids|);
    MoveShape(s, ids, bp, relative);
    if m < |ids| {
      MoveScript(s, ids, bp, relative, m);
      RejectedMove(l, base, base + 2 * m + 1);
    } else {
      forall k | base <= k < |l.log| ensures l.log[k].cmd.Select? || l.log[k].reply.Accepted? {
        LoopEvent(s, ids, bp, relative, k);
      }
    }
  }

  lemma RejectedMove(l: Link, from: nat, k: nat)
    requires from <= k < |l.log| && (l.log[k].cmd.MoveAbs? || l.log[k].cmd.MoveRel?) && !l.log[k].reply.Accepted?
    ensures !MovesAccepted(l, from)
  {
  }

  lemma SelectAppended(l: Link, later: Link, from: nat)
    requires Extends(l, later) && |later.log| == |l.log| + 1 && later.log[|l.log|].cmd.Select?
    ensures MovesAccepted(later, from) <==> MovesAccepted(l, from)
  {
    forall k | 0 <= k < |l.log| ensures later.log[k] == l.log[k] {
      EventKept(l, later, k);
    }
  }

  /** A move returns a negative code exactly when one of its move commands was rejected. */
  lemma MoveResult(s: State, bp: map<nat, int>, relative: bool)
    ensures MoveBare(s, bp, relative).1 < 0 <==> !MovesAccepted(MoveBare(s, bp, relative).0.link, |s.link.log|)
    ensures MoveBare(s, bp, relative).1 <= 0
  {
    MoveShape(SaveEnvironment(s), KeysInOrder(bp), bp, relative);
    var t, r := RunMoves(SaveEnvironment(s), KeysInOrder(bp), bp, relative).0, MoveBare(s, bp, relative).0;
    hide RunMoves;
    LoopResult(SaveEnvironment(s), KeysInOrder(bp), bp, relative);
    MoveLog(s, bp, relative);
    RestoreLog(t);
    SelectAppended(t.link, r.link, |s.link.log|);
  }

  lemma SelectsInLog(s: State, bp: map<nat, int>, relative: bool)
    requires SelectsAccepted(MoveBare(s, bp, relative).0.link, |s.link.log|)
    ensures SelectsGranted(s.link.replies, |s.link.log|,
      Attempted(MovedCount(s.link.replies, |s.link.log|, |KeysInOrder(bp)|), |KeysInOrder(bp)|))
  {
    var e, ids := SaveEnvironment(s), KeysInOrder(bp);
    var base, replies := |s.link.log|, s.link.replies;
    var t, r := RunMoves(e, ids, bp, relative).0, MoveBare(s, bp, relative).0;
    hide RunMoves;
    MoveLog(s, bp, relative);
    RestoreLog(t);
    forall k | 0 <= k < Attempted(MovedCount(replies, base, |ids|), |ids|)
      ensures SelectReply(replies, base, k).Accepted?
    {
      MoveScript(e, ids, bp, relative, k);
      EventKept(t.link, r.link, base + 2 * k);
    }
  }

  /** With accepted selects the axes moved are exactly those before the first rejected move, in
      increasing id order, each by its own value, and the saved channel is selected afterwards
      whether or not a move was rejected. */
  lemma PartialMove(s: State, bp: map<nat, int>, relative: bool)
    requires SelectsAccepted(MoveBare(s, bp, relative).0.link, |s.link.log|)
    ensures MoveBare(s, bp, relative).0.link.ctrl.channels ==
      Displaced(s.link.ctrl, KeysInOrder(bp)[..MovedCount(s.link.replies, |s.link.log|, |bp|)], bp, relative)
    ensures MoveBare(s, bp, relative).1 < 0 <==> MovedCount(s.link.replies, |s.link.log|, |bp|) < |bp|
    ensures MoveBare(s, bp, relative).0.link.ctrl.selected == SaveEnvironment(s).env
  {
    var e, ids := SaveEnvironment(s), KeysInOrder(bp);
    var t, r := RunMoves(e, ids, bp, relative).0, MoveBare(s, bp, relative).0;
    MoveShape(e, ids, bp, relative);
    hide RunMoves;
    MoveLog(s, bp, relative);
    SelectsInLog(s, bp, relative);
    MoveEffect(e, ids, bp, relative);
    RestoreLog(t);
  }

  /** An accepted move is one map update of the controller's positions. If the board's current
      axis agreed with the selected channel before, channel and agreement are as before. */
  lemma AcceptedMove(s: State, bp: map<nat, int>, relative: bool)
    requires AllAccepted(MoveBare(s, bp, relative).0.link, |s.link.log|)
    ensures MoveBare(s, bp, relative).1 == 0
    ensures MoveBare(s, bp, relative).0.link.ctrl ==
      PM381(SaveEnvironment(s).env, Displaced(s.link.ctrl, KeysInOrder(bp), bp, relative))
    ensures SameBoard(SaveEnvironment(s), MoveBare(s, bp, relative).0)
    ensures s.cur == Some(s.link.ctrl.selected) ==>
      MoveBare(s, bp, relative).0.link.ctrl.selected == s.link.ctrl.selected
  {
    hide RunMoves, MoveBare, RestoreEnvironment, MovedCount, Displaced;
    var ids := KeysInOrder(bp);
    AcceptedKinds(MoveBare(s, bp, relative).0.link, |s.link.log|);
    MoveLog(s, bp, relative);
    AcceptedCount(s, bp, relative);
    PartialMove(s, bp, relative);
    assert ids[..|ids|] == ids;
  }

  lemma AcceptedCount(s: State, bp: map<nat, int>, relative: bool)
    requires SelectsAccepted(MoveBare(s, bp, relative).0.link, |s.link.log|)
    requires MovesAccepted(MoveBare(s, bp, relative).0.link, |s.link.log|)
    ensures MoveBare(s, bp, relative).1 == 0
    ensures MovedCount(s.link.replies, |s.link.log|, |bp|) == |bp|
  {
    hide RunMoves, MoveBare, Displaced;
    MoveResult(s, bp, relative);
    PartialMove(s, bp, relative);
  }

  lemma AcceptedKinds(l: Link, from: nat)
    requires AllAccepted(l, from)
    ensures SelectsAccepted(l, from) && MovesAccepted(l, from)
  {
  }

  // ----- what an unchecked select can do -----

  /** The first command is rejected, everything after it is accepted. */
  const LOST_SELECT: nat -> Reply := (k: nat) => if k == 0 then Rejected("busy") else Accepted("OK")

  const AXIS_ONE := Node(1, "x", POWER_ON, UnitConversion("mm", 1.0, 0), InitParameters(0, 0.0, 0.0, 0.0, 0.0))
  const AXIS_TWO := AXIS_ONE.(id := 2, desc := "y")

  /** A board of two axes that stands on the first one, as the controller does. */
  const ON_AXIS_ONE :=
    Fresh([AXIS_ONE, AXIS_TWO], Link(LOST_SELECT, (c: PM381, text: string) => c, PM381(1, map[]), []), false).(cur := Some(1))

  /** The loops ignore the result of the select: here an absolute move of axis 2 to step 5 reports
      success although axis 2 stays where it was and axis 1 is driven to step 5. */
  lemma MisdirectedMove()
    ensures Valid(ON_AXIS_ONE) && DistinctIds(ON_AXIS_ONE.axes) && Registered(ON_AXIS_ONE.axes, 1) && Registered(ON_AXIS_ONE.axes, 2)
    ensures MoveBare(ON_AXIS_ONE, map[2 := 5], false).1 == 0
    ensures PositionOf(MoveBare(ON_AXIS_ONE, map[2 := 5], false).0.link.ctrl, 2) == 0
    ensures PositionOf(MoveBare(ON_AXIS_ONE, map[2 := 5], false).0.link.ctrl, 1) == 5
  {
    TwoAxes();
    MisdirectedFrom(ON_AXIS_ONE);
  }

  lemma TwoAxes()
    ensures Valid(ON_AXIS_ONE) && DistinctIds(ON_AXIS_ONE.axes) && Registered(ON_AXIS_ONE.axes, 1) && Registered(ON_AXIS_ONE.axes, 2)
  {
    var nodes, axes := [AXIS_ONE, AXIS_TWO], ON_AXIS_ONE.axes;
    assert nodes[0].id == 1 && nodes[1].id == 2;
    assert Listed(nodes, 1) && Listed(nodes, 2);
    assert axes[0].id == 1 && axes[1].id == 2;
    assert FirstNode(nodes, 1) in nodes && FirstNode(nodes, 2) in nodes;
  }

  lemma MisdirectedFrom(s: State)
    requires s.link.replies == LOST_SELECT && s.link.ctrl == PM381(1, map[]) && s.link.log == [] && s.cur == Some(1)
    ensures MoveBare(s, map[2 := 5], false).1 == 0
    ensures PositionOf(MoveBare(s, map[2 := 5], false).0.link.ctrl, 2) == 0
    ensures PositionOf(MoveBare(s, map[2 := 5], false).0.link.ctrl, 1) == 5
  {
    var bp: map<nat, int> := map[2 := 5];
    var ids := KeysInOrder(bp);
    assert |bp| == 1 && bp.Keys == {2};
    assert ids == [2] by {
      assert ids[0] in ids;
    }
    var e := SaveEnvironment(s);
    var s2 := FirstMove(e, ids, bp, false);
    assert RunMoves(s2, ids[1..], bp, false) == (s2, 0);
  }

  /** Without a current axis nothing is saved, so the channel selected afterwards is the stale
      saved one. An accepted move puts the channel back exactly when the current axis, or else the
      stale one, is the selected channel. */
  lemma ChannelPutBack(s: State, bp: map<nat, int>, relative: bool)
    requires AllAccepted(MoveBare(s, bp, relative).0.link, |s.link.log|)
    ensures MoveBare(s, bp, relative).0.link.ctrl.selected == s.link.ctrl.selected <==>
      (if s.cur.Some? then s.cur.value else s.env) == s.link.ctrl.selected
  {
    hide MoveBare;
    AcceptedMove(s, bp, relative);
  }
}
