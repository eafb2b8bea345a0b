/** The whole system: any number of connections with any number of client threads each, the server's
    sessions and the board they share (src/gui/pm301.cpp:389-427, include/IAP_server.hpp:66-110,
    src/core/IAP_server.cpp:70-376). The protocol's process is here the server's own dispatcher. */
module SystemLaws {
  import opened Basics
  import opened Controller
  import opened BoardSpec
  import opened ReadLaws
  import opened MirrorLaws
  import opened RunLaws
  import opened Message
  import N = Protocol
  import C = Connections
  import opened Server
  import opened ServerLaws
  import opened ScriptLaws
  import opened RequestLaws
  import opened InvariantLaws
  import opened RestartLaws
  import opened Config
  import opened Display

  /** The site of a server with board `s`, after any schedule. */
  ghost function System(s: State, fmt: Format, acts: seq<C.Act>): C.Site<State> {
    C.Course(Serve(fmt), C.Listening(s), acts)
  }

  /** The board when the k-th request that reached the server is processed. */
  ghost function BoardAt(s: State, fmt: Format, requests: seq<string>, k: nat): State
    requires k <= |requests|
  {
    N.Sequentially(Serve(fmt), s, requests[..k]).0
  }

  /** The reply exists and fits the message. */
  ghost predicate Answerable(s: State, q: string, fmt: Format)
    requires Valid(s)
  {
    Handle(s, q, fmt).1.Replied? && |Handle(s, q, fmt).1.body| <= MAX_BODY_LENGTH
  }

  /** The server survives a request exactly when it is none of those that end it and the reply fits. */
  lemma SurvivedExactly(s: State, q: string, fmt: Format)
    requires Valid(s)
    ensures N.Lives(Serve(fmt)(s, q)) <==> Answerable(s, q, fmt)
    ensures Answerable(s, q, fmt) <==>
      !EndsServer(q) && (Handle(s, q, fmt).1.Replied? ==> |Handle(s, q, fmt).1.body| <= MAX_BODY_LENGTH)
    ensures Answerable(s, q, fmt) ==>
      Serve(fmt)(s, q) ==
        N.Answered(Handle(s, q, fmt).0, Handle(s, q, fmt).1.tp, Handle(s, q, fmt).1.body)
  {
    hide Handle, Serve, EndsServer, Valid;
    StopsExactly(s, q, fmt);
    Replies(s, q, fmt);
    ServeIs(s, q, fmt);
  }

  lemma ServedShape(s: State, q: string, fmt: Format)
    requires Valid(s) && N.Lives(Serve(fmt)(s, q))
    ensures var r := Serve(fmt)(s, q).state;
      Valid(r) && (Distinct(s) ==> Distinct(r)) && SameAxisIds(s.axes, r.axes) && r == Handle(s, q, fmt).0
  {
    hide Handle, Serve, N.Lives, Answerable, Valid, EndsServer;
    SurvivedExactly(s, q, fmt);
    RequestKeepsShape(s, q, fmt);
    ShapeKeepsDistinct(s, Handle(s, q, fmt).0);
  }

  /** Whatever the clients send, the board stays usable and keeps its axes. */
  lemma {:induction false} BoardKept(s: State, requests: seq<string>, fmt: Format)
    requires Valid(s)
    ensures var r := N.Sequentially(Serve(fmt), s, requests).0;
      Valid(r) && (Distinct(s) ==> Distinct(r)) && SameAxisIds(s.axes, r.axes)
    decreases |requests|
  {
    hide Serve, Handle, Valid, N.Lives, Distinct;
    if requests != [] {
      var front, q := requests[..|requests| - 1], requests[|requests| - 1];
      BoardKept(s, front, fmt);
      var before := N.Sequentially(Serve(fmt), s, front).0;
      if N.Lives(Serve(fmt)(before, q)) {
        ServedShape(before, q, fmt);
      }
    }
  }

  lemma SameDescriptors(a: seq<Axis>, b: seq<Axis>)
    requires SameAxisIds(a, b)
    ensures Descriptors(a) == Descriptors(b)
  {
    forall d ensures d in Descriptors(a) <==> d in Descriptors(b) {
      if d in Descriptors(a) {
        var i :| 0 <= i < |a| && a[i].desc == d;
        assert b[i].desc == d;
      }
      if d in Descriptors(b) {
        var i :| 0 <= i < |b| && b[i].desc == d;
        assert a[i].desc == d;
      }
    }
  }

  /** The i-th finished call on connection c, and its place among all processed requests. */
  ghost predicate Finished(m: C.Site<State>, c: nat, i: nat, p: nat) {
    c in m.conns && i < |m.conns[c].done| && i < |C.Own(m.log, c)| && p == C.Place(m.log, c, i)
  }

  /** With any number of connections and threads, under every interleaving, each finished call returned
      the dispatcher's reply to its own request, on the board that everything processed before it had
      left. */
  lemma InterleavedCall(s: State, fmt: Format, acts: seq<C.Act>, c: nat, i: nat)
    requires Valid(s)
    requires c in System(s, fmt, acts).conns && i < |System(s, fmt, acts).conns[c].done|
    ensures i < |C.Own(System(s, fmt, acts).log, c)|
    ensures Answered(s, fmt, System(s, fmt, acts), System(s, fmt, acts).conns[c].done[i], C.Place(System(s, fmt, acts).log, c, i))
  {
    hide Serve, Handle, Valid, Distinct, N.Lives, C.Course, EndsServer, N.Sequentially, C.Own, C.Place;
    var m := System(s, fmt, acts);
    C.EveryCallAnswered(Serve(fmt), s, acts, c, i);
    var p := C.Place(m.log, c, i);
    BoardKept(s, C.Texts(m.log)[..p], fmt);
    var before := BoardAt(s, fmt, C.Texts(m.log), p);
    SurvivedExactly(before, C.Texts(m.log)[p], fmt);
    ServedShape(before, C.Texts(m.log)[p], fmt);
    BoardNext(s, fmt, C.Texts(m.log), p);
  }

  /** The call at place p was answered by the dispatcher, on the board of that moment, which it left
      to the next request. */
  ghost predicate Answered(s: State, fmt: Format, m: C.Site<State>, call: N.Call, p: nat) {
    var requests := C.Texts(m.log);
    && p < |requests| && call.request == requests[p]
    && var before := BoardAt(s, fmt, requests, p);
       && Valid(before) && (Distinct(s) ==> Distinct(before)) && SameAxisIds(s.axes, before.axes)
       && var (after, outcome) := Handle(before, call.request, fmt);
          && outcome.Replied? && call.result == (if outcome.tp == MSG_SUCCESS then "OK" else outcome.body)
          && BoardAt(s, fmt, requests, p + 1) == after
  }

  lemma BoardNext(s: State, fmt: Format, requests: seq<string>, p: nat)
    requires p < |requests| && N.Lives(N.AnswerAt(Serve(fmt), s, requests, p))
    ensures BoardAt(s, fmt, requests, p + 1) == N.AnswerAt(Serve(fmt), s, requests, p).state
  {
    hide Serve, N.Lives;
    assert requests[..p + 1][..p] == requests[..p];
  }

  /** A `ma` request that was processed on board `before`: text in order, commands accepted, and a
      faithful report to come. */
  ghost predicate Obeyed(before: State, text: string, fmt: Format) {
    && Valid(before) && WellFormed(text)
    && AllAccepted(Handle(before, RequestText(false, text), fmt).0.link, |before.link.log|)
    && FaithfulAnswer(Handle(before, RequestText(false, text), fmt).0)
  }

  /** From an interleaved `ma` call to what is read back, for every well-formed text over known names:
      if its commands were accepted and a faithful report follows, the call returned OK, and the
      position then read differs from the request by less than one step's worth on every named axis and
      is unchanged on every other axis. */
  lemma InterleavedMove(s: State, fmt: Format, acts: seq<C.Act>, c: nat, i: nat, p: nat, text: string, j: nat)
    requires Valid(s) && Distinct(s) && KnownNames(s.axes, text) && j < |s.axes|
    requires Finished(System(s, fmt, acts), c, i, p)
    requires System(s, fmt, acts).conns[c].done[i].request == RequestText(false, text)
    requires Obeyed(BoardAt(s, fmt, C.Texts(System(s, fmt, acts).log), p), text, fmt)
    ensures System(s, fmt, acts).conns[c].done[i].result == "OK"
    ensures |BoardAt(s, fmt, C.Texts(System(s, fmt, acts).log), p).axes| == |s.axes|
    ensures var requests := C.Texts(System(s, fmt, acts).log);
      p < |requests| &&
      ShownAsRequested(BoardAt(s, fmt, requests, p), ReadUser(BoardAt(s, fmt, requests, p + 1)).1, ValuesOf(text, fmt.read), j)
  {
    hide C.Course, Serve, Handle, Valid, Distinct, C.Own, C.Place, ShownAsRequested, Obeyed, BoardAt, ReadUser, WellFormed, KnownNames, RequestText;
    var m := System(s, fmt, acts);
    InterleavedCall(s, fmt, acts, c, i);
    MoveAnswered(s, BoardAt(s, fmt, C.Texts(m.log), p), fmt, text, j);
  }

  /** What an interleaved `ma` or `mr` call returned, for every text: a refused one its own error text, with the
      board as before; any other one "OK" exactly when all its move commands were accepted, and else the
      latest error that the board remembers. */
  lemma InterleavedMoveResult(s: State, fmt: Format, acts: seq<C.Act>, c: nat, i: nat, p: nat, relative: bool, text: string)
    requires Valid(s) && Finished(System(s, fmt, acts), c, i, p)
    requires System(s, fmt, acts).conns[c].done[i].request == RequestText(relative, text)
    ensures p < |C.Texts(System(s, fmt, acts).log)|
    ensures var requests := C.Texts(System(s, fmt, acts).log);
      MoveResultFor(s.axes, BoardAt(s, fmt, requests, p), BoardAt(s, fmt, requests, p + 1), text,
                    System(s, fmt, acts).conns[c].done[i].result)
  {
    hide C.Course, Serve, Handle, Valid, Distinct, C.Own, C.Place, BoardAt, WellFormed, KnownNames, RequestText, MoveResultFor;
    var m := System(s, fmt, acts);
    InterleavedCall(s, fmt, acts, c, i);
    MoveResultOf(s, BoardAt(s, fmt, C.Texts(m.log), p), fmt, relative, text);
  }

  /** The result of a move call between two boards. */
  ghost predicate MoveResultFor(axes: seq<Axis>, before: State, after: State, text: string, result: string) {
    && (result == "OK" <==> WellFormed(text) && KnownNames(axes, text) && MovesAccepted(after.link, |before.link.log|))
    && (if !WellFormed(text) then after == before && result == "parse_multiplett_failure"
        else if !KnownNames(axes, text) then after == before && result == "entered position has an invalid axis descriptor"
        else Remembers(before, after) && (result == "OK" || result == "Controller Error: " + after.err))
  }

  lemma MoveResultOf(s: State, before: State, fmt: Format, relative: bool, text: string)
    requires Valid(before) && SameAxisIds(s.axes, before.axes) && Handle(before, RequestText(relative, text), fmt).1.Replied?
    ensures var (after, outcome) := Handle(before, RequestText(relative, text), fmt);
      MoveResultFor(s.axes, before, after, text, if outcome.tp == MSG_SUCCESS then "OK" else outcome.body)
  {
    hide Handle, Valid, WellFormed, Descriptors, RequestText, Remembers, MovesAccepted, SameAxisIds;
    SameDescriptors(s.axes, before.axes);
    assert KnownNames(s.axes, text) <==> KnownNames(before.axes, text);
    MoveReplyTexts(before, relative, text, fmt);
    hide KnownNames;
    var after := Handle(before, RequestText(relative, text), fmt).0;
    assert ("Controller Error: " + after.err)[0] == 'C';
  }

  lemma MoveAnswered(s: State, before: State, fmt: Format, text: string, j: nat)
    requires KnownNames(s.axes, text) && j < |s.axes|
    requires Obeyed(before, text, fmt) && Distinct(before) && SameAxisIds(s.axes, before.axes)
    ensures |before.axes| == |s.axes| && Valid(before)
    ensures ShownAsRequested(before, ReadUser(Handle(before, RequestText(false, text), fmt).0).1, ValuesOf(text, fmt.read), j)
    ensures Handle(before, RequestText(false, text), fmt).1 == SUCCESS
    ensures SUCCESS.Replied? && SUCCESS.tp == MSG_SUCCESS
  {
    hide Handle, Serve, Valid, ShownAsRequested, AllAccepted, FaithfulAnswer, ReadUser, RequestText, WellFormed;
    SameDescriptors(s.axes, before.axes);
    assert KnownNames(before.axes, text);
    AbsoluteRequest(before, text, fmt, j);
  }

  /** The next request that the server processes, from whichever connection, is a `pp`: the GUI that
      sent it shows each named axis within one step's worth of the move, and every other axis as before,
      under its own id. */
  lemma InterleavedDisplay(s: State, fmt: Format, acts: seq<C.Act>, c: nat, i: nat, d: nat, k: nat, p: nat, text: string,
                           readGui: string -> real, j: nat)
    requires Valid(s) && Distinct(s) && KnownNames(s.axes, text) && j < |s.axes|
    requires Finished(System(s, fmt, acts), c, i, p) && Finished(System(s, fmt, acts), d, k, p + 1)
    requires System(s, fmt, acts).conns[c].done[i].request == RequestText(false, text)
    requires System(s, fmt, acts).conns[d].done[k].request == "pp"
    requires Obeyed(BoardAt(s, fmt, C.Texts(System(s, fmt, acts).log), p), text, fmt)
    requires RegisteredIds(s.axes) == Numbers(|RegisteredIds(s.axes)|)
    requires p + 1 < |System(s, fmt, acts).log| && Readable(BoardAt(s, fmt, C.Texts(System(s, fmt, acts).log), p + 1), fmt, readGui)
    ensures var requests := C.Texts(System(s, fmt, acts).log);
      p < |requests| && |BoardAt(s, fmt, requests, p).axes| == |s.axes| &&
      ShownAsRequested(BoardAt(s, fmt, requests, p), GuiPosition(System(s, fmt, acts).conns[d].done[k].result, readGui),
                       ValuesOf(text, fmt.read), j)
  {
    hide C.Course, Serve, Handle, Valid, Distinct, C.Own, C.Place, ShownAsRequested, Obeyed, BoardAt, ReadUser, WellFormed, KnownNames, RequestText, GuiPosition, Readable, Numbers;
    var m := System(s, fmt, acts);
    InterleavedMove(s, fmt, acts, c, i, p, text, j);
    InterleavedCall(s, fmt, acts, d, k);
    var after := BoardAt(s, fmt, C.Texts(m.log), p + 1);
    SameIds(s.axes, after.axes);
    GuiReads(after, fmt, readGui);
  }

  /** Names, units and the position shown survive printing and the GUI's parser. */
  ghost predicate Readable(s: State, fmt: Format, readGui: string -> real) {
    Clean(SortedIds(RegisteredIds(s.axes)), NameAndUnit(s.axes)) && Legible(ReadUser(s).1, fmt.show, readGui)
  }

  lemma SameIds(a: seq<Axis>, b: seq<Axis>)
    requires SameAxisIds(a, b)
    ensures RegisteredIds(a) == RegisteredIds(b)
  {
    SameRegistered(a, b);
  }

  lemma GuiReads(s: State, fmt: Format, readGui: string -> real)
    requires Valid(s) && Readable(s, fmt, readGui) && RegisteredIds(s.axes) == Numbers(|RegisteredIds(s.axes)|)
    ensures Handle(s, "pp", fmt).1.Replied? && Handle(s, "pp", fmt).1.tp != MSG_SUCCESS
    ensures GuiPosition(Handle(s, "pp", fmt).1.body, readGui) == ReadUser(s).1
  {
    GuiShowsBoard(s, fmt, readGui);
    PositionsReplied(s, fmt);
    hide Handle, GuiPosition, ReadUser, Numbers, PositionText, Valid, Readable;
  }

  /** The server ends exactly when some request, from whatever connection, ends it, or has a reply too
      long for the message. */
  lemma SystemClosedExactly(s: State, fmt: Format, acts: seq<C.Act>)
    requires Valid(s)
    ensures var m := System(s, fmt, acts);
      m.fatal.Some? <==>
        exists k :: 0 <= k < |C.Handled(m)| && Fatal(BoardAt(s, fmt, C.Handled(m), k), C.Handled(m)[k], fmt)
  {
    var m := System(s, fmt, acts);
    var requests := C.Handled(m);
    hide Serve, Handle, Valid, Distinct, N.Lives, C.Course, C.Handled, N.Sequentially, Fatal;
    C.EndedExactly(Serve(fmt), s, acts);
    forall k | 0 <= k < |requests|
      ensures N.Lives(N.AnswerAt(Serve(fmt), s, requests, k)) <==> !Fatal(BoardAt(s, fmt, requests, k), requests[k], fmt)
    {
      BoardKept(s, requests[..k], fmt);
      FatalExactly(BoardAt(s, fmt, requests, k), requests[k], fmt);
    }
  }

  /** The request ends the server, or its reply overruns the message. */
  ghost predicate Fatal(s: State, q: string, fmt: Format) {
    EndsServer(q) || (Valid(s) && Handle(s, q, fmt).1.Replied? && |Handle(s, q, fmt).1.body| > MAX_BODY_LENGTH)
  }

  lemma FatalExactly(s: State, q: string, fmt: Format)
    requires Valid(s)
    ensures N.Lives(Serve(fmt)(s, q)) <==> !Fatal(s, q, fmt)
  {
    SurvivedExactly(s, q, fmt);
    hide Handle, Serve, EndsServer, N.Lives;
  }

  /** While the server is there, the caller that holds the lock of a connection can finish its call, by
      steps of its own connection, exactly when the call is answered already or not fatal to the board
      as it is. */
  lemma SystemCallCanFinish(s: State, fmt: Format, acts: seq<C.Act>, c: nat)
    requires Valid(s) && System(s, fmt, acts).fatal.None?
    requires c in System(s, fmt, acts).conns && System(s, fmt, acts).conns[c].holder.Some?
    ensures var m := System(s, fmt, acts);
      var conn := m.conns[c];
      C.FinishesAlone(Serve(fmt), m, c, 7) <==>
        (|conn.served| == |conn.done| ==> !Fatal(m.app, conn.holder.value.request, fmt))
  {
    hide Serve, Handle, Valid, Distinct, N.Lives, C.Course, N.Sequentially, Fatal, C.FinishesAlone, N.Exchange, N.Delivered, N.Survives, C.Own;
    var m := System(s, fmt, acts);
    C.CourseInv(Serve(fmt), s, acts);
    C.EveryCallCanFinish(Serve(fmt), s, acts, c);
    C.StillOpen(m.conns[c]);
    BoardKept(s, C.Texts(m.log), fmt);
    FatalExactly(m.app, m.conns[c].holder.value.request, fmt);
  }

  // ----- the start of the program -----

  /** A board built from the configuration file and connected. */
  function Started(nodes: seq<Node>, link: Link, initialize: bool): (r: State)
    requires DistinctNodes(nodes) && nodes != []
    requires forall i :: 0 <= i < |nodes| ==> nodes[i].conv.factor != 0.0
  {
    FreshDistinct(nodes, link, initialize);
    Connect(Fresh(nodes, link, initialize))
  }

  /** From the start of the program: built from any file with distinct ids, connected with all commands
      accepted, and after any list of requests, the axis objects, the tree and the controller agree,
      whatever was rejected outside initialisations. */
  lemma ProgramAgrees(nodes: seq<Node>, link: Link, initialize: bool, requests: seq<string>, fmt: Format)
    requires DistinctNodes(nodes) && nodes != []
    requires forall i :: 0 <= i < |nodes| ==> nodes[i].conv.factor != 0.0
    requires AllAccepted(Started(nodes, link, initialize).link, |link.log|)
    requires forall k :: 0 <= k < |requests| ==> !Classify(requests[k]).AskForward?
    requires Valid(Started(nodes, link, initialize)) ==>
      InitialisationsAccepted(Started(nodes, link, initialize), Operations(Started(nodes, link, initialize), requests, fmt))
    ensures Valid(Started(nodes, link, initialize))
    ensures Agreed(After(Started(nodes, link, initialize), requests, fmt))
  {
    var f := Fresh(nodes, link, initialize);
    FreshDistinct(nodes, link, initialize);
    hide Connect, Agreed, Classify, After, Operations, InitialisationsAccepted, AllAccepted;
    ConnectAgrees(f);
    AgreedParts(Started(nodes, link, initialize));
    RequestsAgree(Started(nodes, link, initialize), requests, fmt);
  }
}
