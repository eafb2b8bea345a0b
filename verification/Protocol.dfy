/** Any number of GUI threads share one connection to the server (src/gui/pm301.cpp:389-427,
    include/IAP_server.hpp:41-110). Every step below is atomic; everything else interleaves. Writes
    may reach the other side in pieces of any size; reads wait until enough bytes are there. */
module Protocol {
  import opened Basics
  import opened Message

  /** What `process_msg` makes of a request: the next server state and the reply, or an exception that
      nobody catches, which ends the whole server. */
  datatype Answer<S> = Answered(state: S, tp: MsgType, body: string) | Dies

  type Process<!S> = (S, string) -> Answer<S>

  /** The server survives the request. A reply that overruns the message buffer counts as its end, too:
      nothing is promised after that. */
  predicate Lives<S>(a: Answer<S>) {
    a.Answered? && Sendable(Frame(a.tp, a.body))
  }

  /** `Closed`: the session has deleted itself, or the server has ended. */
  datatype Server =
    | ReadingHeader
    | ReadingBody(tp: MsgType, len: nat)
    | Writing(rest: string)
    | Closed

  datatype Phase =
    | Sending(rest: string)
    | AwaitingHeader
    | AwaitingBody(tp: MsgType, len: nat)

  /** The thread inside `SendandReceive`, that is the owner of the mutex. */
  datatype Holder = Holder(tid: nat, request: string, phase: Phase)

  datatype Served = Served(request: string, tp: MsgType, body: string)

  /** A finished call of `SendandReceive` and what it returned. */
  datatype Call = Call(tid: nat, request: string, result: string)

  datatype Net<S> = Net(
    app: S, server: Server, toServer: string, toClient: string,
    holder: Option<Holder>, waiting: map<nat, string>,
    served: seq<Served>, done: seq<Call>, fatal: Option<string>)

  datatype Step =
    | Request(tid: nat, text: string)
    | Lock(tid: nat)
    | ClientSends(n: nat)
    | ServerReadsHeader
    | ServerReadsBody
    | ServerSends(n: nat)
    | ClientReadsHeader
    | ClientReadsBody
    | ClientFails

  /** What the caller gets for a reply. */
  function ResultOf(tp: MsgType, body: string): string {
    if tp == MSG_SUCCESS then "OK" else body
  }

  function Finish<S>(s: Net<S>, result: string): Net<S>
    requires s.holder.Some?
  {
    s.(holder := None, done := s.done + [Call(s.holder.value.tid, s.holder.value.request, result)])
  }

  function RequestFrame(text: string): Frame {
    Frame(MSG_REQUEST, text)
  }

  /** The connection is gone, and whatever was on it. */
  function Gone<S>(s: Net<S>): Net<S> {
    s.(server := Closed, toServer := "", toClient := "")
  }

  /** One step; a step that is not enabled changes nothing. `ClientFails` is the exception that reading
      from or writing to a lost connection throws, which releases the lock. */
  function Next<S>(process: Process<S>, s: Net<S>, step: Step): Net<S>
  {
    match step
    case Request(t, text) =>
      if t in s.waiting || (s.holder.Some? && s.holder.value.tid == t) || |text| > MAX_BODY_LENGTH then s
      else s.(waiting := s.waiting[t := text])
    case Lock(t) =>
      if s.holder.Some? || t !in s.waiting || |s.waiting[t]| > MAX_BODY_LENGTH then s
      else s.(holder := Some(Holder(t, s.waiting[t], Sending(Encode(RequestFrame(s.waiting[t]))))),
              waiting := s.waiting - {t})
    case ClientSends(n) =>
      if s.holder.None? || !s.holder.value.phase.Sending? || !(1 <= n <= |s.holder.value.phase.rest|) then s
      else
        var h, rest := s.holder.value, s.holder.value.phase.rest;
        s.(toServer := if s.server.Closed? then s.toServer else s.toServer + rest[..n],
           holder := Some(h.(phase := if n == |rest| then AwaitingHeader else Sending(rest[n..]))))
    case ServerReadsHeader =>
      if !s.server.ReadingHeader? || |s.toServer| < HEADER_LENGTH then s
      else
        (match ParseHeader(s.toServer[..HEADER_LENGTH])
         case Bad => Gone(s)
         case Good(tp, len) => s.(server := ReadingBody(tp, len), toServer := s.toServer[HEADER_LENGTH..]))
    case ServerReadsBody =>
      if !s.server.ReadingBody? || |s.toServer| < s.server.len then s
      else
        var q := s.toServer[..s.server.len];
        var a := process(s.app, q);
        if !Lives(a) then Gone(s).(fatal := Some(q))
        else
          s.(app := a.state, server := Writing(Encode(Frame(a.tp, a.body))), toServer := s.toServer[s.server.len..],
             served := s.served + [Served(q, a.tp, a.body)])
    case ServerSends(n) =>
      if !s.server.Writing? || !(1 <= n <= |s.server.rest|) then s
      else
        s.(toClient := s.toClient + s.server.rest[..n],
           server := if n == |s.server.rest| then ReadingHeader else Writing(s.server.rest[n..]))
    case ClientReadsHeader =>
      if s.holder.None? || !s.holder.value.phase.AwaitingHeader? || |s.toClient| < HEADER_LENGTH then s
      else
        (match ParseHeader(s.toClient[..HEADER_LENGTH])
         case Bad => Finish(s.(toClient := s.toClient[HEADER_LENGTH..]), "FAILURE")
         case Good(tp, len) =>
           s.(toClient := s.toClient[HEADER_LENGTH..], holder := Some(s.holder.value.(phase := AwaitingBody(tp, len)))))
    case ClientReadsBody =>
      if s.holder.None? || !s.holder.value.phase.AwaitingBody? || |s.toClient| < s.holder.value.phase.len then s
      else
        var p := s.holder.value.phase;
        Finish(s.(toClient := s.toClient[p.len..]), ResultOf(p.tp, s.toClient[..p.len]))
    case ClientFails => if s.holder.None? || !s.server.Closed? then s else s.(holder := None)
  }

  /** The processing step, seen from the server. */
  lemma BodyStep<S>(process: Process<S>, s: Net<S>)
    requires s.server.ReadingBody? && |s.toServer| >= s.server.len
    ensures var a, t := process(s.app, s.toServer[..s.server.len]), Next(process, s, ServerReadsBody);
      && (a.Answered? && |a.body| <= MAX_BODY_LENGTH && a.tp != MSG_INVALID ==>
            Sendable(Frame(a.tp, a.body)) && t.server == Writing(Encode(Frame(a.tp, a.body))) && t.app == a.state)
      && (a == Dies ==> t.server == Closed && t.app == s.app)
  {
    hide Encode;
  }

  function Connected<S>(app: S): Net<S> {
    Net(app, ReadingHeader, "", "", None, map[], [], [], None)
  }

  /** A run under any scheduler. */
  function Run<S>(process: Process<S>, s: Net<S>, steps: seq<Step>): Net<S>
  {
    if steps == [] then s else Next(process, Run(process, s, steps[..|steps| - 1]), steps[|steps| - 1])
  }

  // ----- the server as a sequential program -----

  /** The state `process_msg` leaves and the replies it makes when it is given the requests one after
      the other; a request that it does not survive leaves nothing. */
  function Sequentially<S>(process: Process<S>, app: S, requests: seq<string>): (S, seq<Served>)
  {
    if requests == [] then (app, [])
    else
      var (before, replies) := Sequentially(process, app, requests[..|requests| - 1]);
      var q := requests[|requests| - 1];
      var a := process(before, q);
      if Lives(a) then (a.state, replies + [Served(q, a.tp, a.body)]) else (before, replies)
  }

  /** What `process_msg` makes of the k-th request. */
  function AnswerAt<S>(process: Process<S>, app: S, requests: seq<string>, k: nat): Answer<S>
    requires k < |requests|
  {
    process(Sequentially(process, app, requests[..k]).0, requests[k])
  }

  /** The server survives all of them. */
  ghost predicate Survives<S>(process: Process<S>, app: S, requests: seq<string>) {
    forall k :: 0 <= k < |requests| ==> Lives(AnswerAt(process, app, requests, k))
  }

  /** The requests that reached `process_msg`, the fatal one last. */
  function Processed<S>(s: Net<S>): seq<string> {
    RequestsOf(s.served) + (if s.fatal.Some? then [s.fatal.value] else [])
  }

  function RequestsOf(served: seq<Served>): seq<string> {
    seq(|served|, i requires 0 <= i < |served| => served[i].request)
  }

  // ----- the invariant -----

  /** The last served request belongs to the holder, whose reply is still on its way. */
  ghost predicate Answering<S>(s: Net<S>, h: Holder) {
    && |s.served| == |s.done| + 1
    && s.served[|s.served| - 1].request == h.request
    && Sendable(Frame(s.served[|s.served| - 1].tp, s.served[|s.served| - 1].body))
  }

  /** `piece` is what is still to be delivered of a reply: the rest of the write and the bytes on
      the way, nothing else. */
  ghost predicate ReplyPiece<S>(s: Net<S>, piece: string) {
    && s.toServer == ""
    && match s.server
       case ReadingHeader => s.toClient == piece
       case Writing(rest) => rest != "" && s.toClient + rest == piece
       case _ => false
  }

  /** Likewise for a request that the server has not processed; `unsent` is still with the client. */
  ghost predicate RequestPiece<S>(s: Net<S>, h: Holder, unsent: string) {
    && |s.served| == |s.done| && s.toClient == "" && |h.request| <= MAX_BODY_LENGTH
    && match s.server
       case ReadingHeader => s.toServer + unsent == Encode(RequestFrame(h.request))
       case ReadingBody(tp, len) => len == |h.request| && s.toServer + unsent == h.request
       case _ => false
  }

  /** After the end nothing travels, and the caller has not been answered. */
  ghost predicate Ended<S>(s: Net<S>) {
    && s.toServer == "" && s.toClient == "" && |s.served| == |s.done| && s.fatal.Some?
    && (s.holder.Some? ==> s.holder.value.phase.AwaitingHeader? || (s.holder.value.phase.Sending? && s.holder.value.phase.rest != ""))
  }

  ghost predicate Exchange<S>(s: Net<S>) {
    if s.server.Closed? then Ended(s) else s.fatal.None? && Ongoing(s)
  }

  ghost predicate Ongoing<S>(s: Net<S>) {
    match s.holder
    case None => s.server == ReadingHeader && s.toServer == "" && s.toClient == "" && |s.served| == |s.done|
    case Some(h) =>
      match h.phase
      case Sending(rest) => rest != "" && RequestPiece(s, h, rest)
      case AwaitingHeader =>
        || RequestPiece(s, h, "")
        || (Answering(s, h) && ReplyPiece(s, Encode(Frame(s.served[|s.served| - 1].tp, s.served[|s.served| - 1].body))))
      case AwaitingBody(tp, len) =>
        && Answering(s, h) && tp == s.served[|s.served| - 1].tp && len == |s.served[|s.served| - 1].body|
        && ReplyPiece(s, s.served[|s.served| - 1].body)
  }

  /** Every finished call got the reply that was made for its own request. */
  ghost predicate Delivered<S>(s: Net<S>) {
    && |s.done| <= |s.served|
    && forall i :: 0 <= i < |s.done| ==>
         s.done[i].request == s.served[i].request && s.done[i].result == ResultOf(s.served[i].tp, s.served[i].body)
  }

  /** Two threads never share an identity: the holder is not waiting as well. */
  ghost predicate OneCallPerThread<S>(s: Net<S>) {
    && (s.holder.Some? ==> s.holder.value.tid !in s.waiting)
    && (forall t :: t in s.waiting ==> |s.waiting[t]| <= MAX_BODY_LENGTH)
  }

  /** The server's state and replies are those of the sequential program, which survived every request
      but the fatal one. */
  ghost predicate Replayed<S>(process: Process<S>, app: S, s: Net<S>) {
    && Sequentially(process, app, RequestsOf(s.served)) == (s.app, s.served)
    && Survives(process, app, RequestsOf(s.served))
    && (s.fatal.Some? ==> !Lives(process(s.app, s.fatal.value)))
  }

  ghost predicate Inv<S>(process: Process<S>, app: S, s: Net<S>) {
    && Exchange(s) && Delivered(s) && OneCallPerThread(s) && Replayed(process, app, s)
  }

  // ----- every step keeps it -----

  lemma ClientSendsKeeps<S>(process: Process<S>, s: Net<S>, n: nat)
    requires Exchange(s)
    ensures Exchange(Next(process, s, ClientSends(n)))
  {
    if s.holder.Some? && s.holder.value.phase.Sending? && 1 <= n <= |s.holder.value.phase.rest| {
      var h, rest := s.holder.value, s.holder.value.phase.rest;
      assert s.toServer + rest == (s.toServer + rest[..n]) + rest[n..];
      if n == |rest| {
        assert rest[n..] == "" && rest[..n] == rest;
      }
    }
  }

  lemma ServerSendsKeeps<S>(process: Process<S>, s: Net<S>, n: nat)
    requires Exchange(s)
    ensures Exchange(Next(process, s, ServerSends(n)))
  {
    if s.server.Writing? && 1 <= n <= |s.server.rest| {
      var rest := s.server.rest;
      assert s.toClient + rest == (s.toClient + rest[..n]) + rest[n..];
      if n == |rest| {
        assert rest[..n] == rest;
      }
    }
  }

  /** A header on the way is one that was written: it is accepted and announces its own body. */
  lemma HeaderAhead(f: Frame, bytes: string, unsent: string)
    requires Sendable(f) && bytes + unsent == Encode(f) && |bytes| >= HEADER_LENGTH
    ensures ParseHeader(bytes[..HEADER_LENGTH]) == Good(f.tp, |f.body|)
    ensures bytes[HEADER_LENGTH..] + unsent == f.body
  {
    HeaderRoundTrip(f.tp, |f.body|);
    HeaderFirst(HeaderText(f.tp, |f.body|), f.body, bytes, unsent);
  }

  lemma HeaderFirst(header: string, body: string, bytes: string, unsent: string)
    requires bytes + unsent == header + body && |bytes| >= |header|
    ensures bytes[..|header|] == header && bytes[|header|..] + unsent == body
  {
    assert bytes[..|header|] == (bytes + unsent)[..|header|] == (header + body)[..|header|];
    assert bytes[|header|..] + unsent == (bytes + unsent)[|header|..] == (header + body)[|header|..];
  }

  lemma ServerReadsHeaderKeeps<S>(process: Process<S>, s: Net<S>)
    requires Exchange(s)
    ensures Exchange(Next(process, s, ServerReadsHeader))
  {
    hide ParseHeader, Encode;
    if s.server.ReadingHeader? && |s.toServer| >= HEADER_LENGTH {
      var h := s.holder.value;
      var unsent := if h.phase.Sending? then h.phase.rest else "";
      assert RequestPiece(s, h, unsent);
      HeaderAhead(RequestFrame(h.request), s.toServer, unsent);
    }
  }

  lemma ServerReadsBodyKeeps<S>(process: Process<S>, s: Net<S>)
    requires Exchange(s)
    ensures Exchange(Next(process, s, ServerReadsBody))
  {
    hide Encode;
    if s.server.ReadingBody? && |s.toServer| >= s.server.len {
      var h := s.holder.value;
      var unsent := if h.phase.Sending? then h.phase.rest else "";
      assert RequestPiece(s, h, unsent);
      assert |s.toServer| + |unsent| == s.server.len;
      assert unsent == "" && s.toServer == h.request;
      var q := s.toServer[..s.server.len];
      assert q == h.request && s.toServer[s.server.len..] == "";
      var a := process(s.app, q);
      if Lives(a) {
        EncodedNonEmpty(Frame(a.tp, a.body));
      }
    }
  }

  lemma EncodedNonEmpty(f: Frame)
    requires Sendable(f)
    ensures Encode(f) != ""
  {
  }

  lemma ClientReadsHeaderKeeps<S>(process: Process<S>, s: Net<S>)
    requires Exchange(s)
    ensures Exchange(Next(process, s, ClientReadsHeader))
    ensures Next(process, s, ClientReadsHeader).done == s.done
  {
    hide ParseHeader, Encode;
    if s.holder.Some? && s.holder.value.phase.AwaitingHeader? && |s.toClient| >= HEADER_LENGTH {
      var last := s.served[|s.served| - 1];
      var unsent := if s.server.Writing? then s.server.rest else "";
      assert ReplyPiece(s, Encode(Frame(last.tp, last.body)));
      assert s.toClient + "" == s.toClient;
      HeaderAhead(Frame(last.tp, last.body), s.toClient, unsent);
      assert s.toClient[HEADER_LENGTH..] + "" == s.toClient[HEADER_LENGTH..];
    }
  }

  /** The caller's result is computed from its own reply. */
  lemma ClientReadsBodyKeeps<S>(process: Process<S>, s: Net<S>)
    requires Exchange(s) && Delivered(s)
    ensures Exchange(Next(process, s, ClientReadsBody))
    ensures Delivered(Next(process, s, ClientReadsBody))
  {
    if s.holder.Some? && s.holder.value.phase.AwaitingBody? && |s.toClient| >= s.holder.value.phase.len {
      var last := s.served[|s.served| - 1];
      assert ReplyPiece(s, last.body);
      assert s.server == ReadingHeader && s.toClient == last.body;
      assert s.toClient[..|last.body|] == last.body && s.toClient[|last.body|..] == "";
    }
  }

  lemma LockKeeps<S>(process: Process<S>, s: Net<S>, t: nat)
    requires Exchange(s)
    ensures Exchange(Next(process, s, Lock(t)))
  {
    if s.holder.None? && t in s.waiting && |s.waiting[t]| <= MAX_BODY_LENGTH {
      EncodedNonEmpty(RequestFrame(s.waiting[t]));
      hide Encode;
      assert "" + Encode(RequestFrame(s.waiting[t])) == Encode(RequestFrame(s.waiting[t]));
    }
  }

  lemma RequestKeeps<S>(process: Process<S>, s: Net<S>, t: nat, text: string)
    requires Exchange(s)
    ensures Exchange(Next(process, s, Request(t, text)))
  {
    hide Encode;
  }

  lemma ExchangeKept<S>(process: Process<S>, s: Net<S>, step: Step)
    requires Exchange(s) && Delivered(s)
    ensures Exchange(Next(process, s, step)) && Delivered(Next(process, s, step))
  {
    DeliveredKept(process, s, step);
    hide Next, Exchange, Delivered;
    match step
    case Request(t, text) => RequestKeeps(process, s, t, text);
    case Lock(t) => LockKeeps(process, s, t);
    case ClientSends(n) => ClientSendsKeeps(process, s, n);
    case ServerReadsHeader => ServerReadsHeaderKeeps(process, s);
    case ServerReadsBody => ServerReadsBodyKeeps(process, s);
    case ServerSends(n) => ServerSendsKeeps(process, s, n);
    case ClientReadsHeader => ClientReadsHeaderKeeps(process, s);
    case ClientReadsBody => ClientReadsBodyKeeps(process, s);
    case ClientFails => ClientFailsKeeps(process, s);
  }

  lemma ClientFailsKeeps<S>(process: Process<S>, s: Net<S>)
    requires Exchange(s)
    ensures Exchange(Next(process, s, ClientFails))
  {
    hide Encode, ParseHeader;
  }

  lemma DeliveredKept<S>(process: Process<S>, s: Net<S>, step: Step)
    requires Exchange(s) && Delivered(s)
    ensures Delivered(Next(process, s, step))
  {
    hide Encode, ParseHeader, Exchange;
    match step
    case ClientReadsHeader => ClientReadsHeaderKeeps(process, s);
    case ClientReadsBody => ClientReadsBodyKeeps(process, s);
    case _ =>
  }

  lemma OneMore<S>(process: Process<S>, app: S, requests: seq<string>, q: string)
    requires Survives(process, app, requests)
    requires Lives(process(Sequentially(process, app, requests).0, q))
    ensures Survives(process, app, requests + [q])
  {
    hide Sequentially, Lives;
    var all := requests + [q];
    forall k | 0 <= k < |all| ensures Lives(AnswerAt(process, app, all, k)) {
      assert all[..|requests|] == requests;
      if k < |requests| {
        assert all[..k] == requests[..k];
        assert Lives(AnswerAt(process, app, requests, k));
      }
    }
  }

  lemma ReplayedKept<S>(process: Process<S>, app: S, s: Net<S>, step: Step)
    requires Exchange(s) && Replayed(process, app, s)
    ensures Replayed(process, app, Next(process, s, step))
  {
    hide Encode, ParseHeader, Sendable, Survives;
    var t := Next(process, s, step);
    if t.served != s.served {
      var q := t.served[|s.served|].request;
      assert RequestsOf(t.served) == RequestsOf(s.served) + [q];
      assert RequestsOf(t.served)[..|s.served|] == RequestsOf(s.served);
      OneMore(process, app, RequestsOf(s.served), q);
    }
  }

  lemma StepKeeps<S>(process: Process<S>, app: S, s: Net<S>, step: Step)
    requires Inv(process, app, s)
    ensures Inv(process, app, Next(process, s, step))
  {
    ExchangeKept(process, s, step);
    ReplayedKept(process, app, s, step);
    OneCallKept(process, s, step);
    hide Next, Exchange, Delivered, OneCallPerThread, Replayed;
  }

  lemma OneCallKept<S>(process: Process<S>, s: Net<S>, step: Step)
    requires OneCallPerThread(s)
    ensures OneCallPerThread(Next(process, s, step))
  {
    hide Encode, ParseHeader;
  }

  lemma {:induction false} RunKeeps<S>(process: Process<S>, app: S, steps: seq<Step>)
    ensures Inv(process, app, Run(process, Connected(app), steps))
    decreases |steps|
  {
    if steps != [] {
      hide Inv, Next;
      RunKeeps(process, app, steps[..|steps| - 1]);
      StepKeeps(process, app, Run(process, Connected(app), steps[..|steps| - 1]), steps[|steps| - 1]);
    } else {
      assert RequestsOf([]) == [];
    }
  }

  // ----- main results -----

  lemma {:induction false} ReplayedAt<S>(process: Process<S>, app: S, requests: seq<string>, k: nat)
    requires Survives(process, app, requests) && k < |requests|
    ensures Lives(AnswerAt(process, app, requests, k))
    ensures |Sequentially(process, app, requests).1| == |requests|
    ensures var a := AnswerAt(process, app, requests, k);
      Sequentially(process, app, requests).1[k] == Served(requests[k], a.tp, a.body)
    decreases |requests|
  {
    hide Lives;
    var n := |requests| - 1;
    var front := requests[..n];
    assert Lives(AnswerAt(process, app, requests, n));
    assert Survives(process, app, front) by {
      forall i | 0 <= i < n ensures Lives(AnswerAt(process, app, front, i)) {
        assert front[..i] == requests[..i];
        assert Lives(AnswerAt(process, app, requests, i));
      }
    }
    if n > 0 {
      ReplayedAt(process, app, front, if k < n then k else 0);
      assert k < n ==> front[..k] == requests[..k];
    }
  }

  /** Under every interleaving each finished call got exactly what `process_msg` made of its own
      request, in the state that the earlier requests, one after the other, had left: "OK" for a success,
      and the text of the reply for every other type, an error included. */
  lemma CallsGetTheirReplies<S>(process: Process<S>, app: S, steps: seq<Step>, i: nat)
    ensures var s := Run(process, Connected(app), steps);
      |s.done| <= |Processed(s)| <= |s.done| + 1
      && (i < |s.done| ==>
            var a := AnswerAt(process, app, Processed(s), i);
            s.done[i].request == Processed(s)[i] && Lives(a) && s.done[i].result == (if a.tp == MSG_SUCCESS then "OK" else a.body))
  {
    hide Run;
    RunKeeps(process, app, steps);
    DoneReplies(process, app, Run(process, Connected(app), steps), i);
  }

  lemma DoneReplies<S>(process: Process<S>, app: S, s: Net<S>, i: nat)
    requires Inv(process, app, s)
    ensures |s.done| <= |Processed(s)| <= |s.done| + 1
    ensures i < |s.done| ==>
      (var a := AnswerAt(process, app, Processed(s), i);
       s.done[i].request == Processed(s)[i] && Lives(a) && s.done[i].result == (if a.tp == MSG_SUCCESS then "OK" else a.body))
  {
    ExchangeCounts(s);
    hide Sequentially, Lives, Exchange;
    if i < |s.done| {
      var requests := RequestsOf(s.served);
      ReplayedAt(process, app, requests, i);
      assert Processed(s)[..i] == requests[..i];
    }
  }

  lemma ExchangeCounts<S>(s: Net<S>)
    requires Exchange(s) && Delivered(s)
    ensures |s.done| <= |Processed(s)| <= |s.done| + 1
  {
    hide Encode;
  }

  /** The server has ended exactly when it was given a request that it does not survive; that request
      is then the last one. */
  lemma ClosedExactly<S>(process: Process<S>, app: S, steps: seq<Step>)
    ensures var s := Run(process, Connected(app), steps);
      && (s.server == Closed <==> !Survives(process, app, Processed(s)))
      && (s.server == Closed ==> s.fatal.Some? && Survives(process, app, RequestsOf(s.served)))
  {
    hide Run;
    RunKeeps(process, app, steps);
    ClosedByRequest(process, app, Run(process, Connected(app), steps));
  }

  lemma ClosedByRequest<S>(process: Process<S>, app: S, s: Net<S>)
    requires Inv(process, app, s)
    ensures s.server == Closed <==> !Survives(process, app, Processed(s))
    ensures s.server == Closed ==> s.fatal.Some? && Survives(process, app, RequestsOf(s.served))
  {
    hide Ongoing, Delivered, OneCallPerThread, Sequentially, Lives;
    var requests := RequestsOf(s.served);
    if s.fatal.Some? {
      assert Processed(s)[..|requests|] == requests;
      assert !Lives(AnswerAt(process, app, Processed(s), |requests|));
    } else {
      assert Processed(s) == requests;
    }
  }

  /** At most one message is in flight: never bytes in both directions, none at all without a
      caller holding the lock. */
  lemma OneMessageInFlight<S>(process: Process<S>, app: S, steps: seq<Step>)
    ensures var s := Run(process, Connected(app), steps);
      && (s.toServer == "" || s.toClient == "")
      && (s.holder.None? ==> s.toServer == "" && s.toClient == "" && (s.server == ReadingHeader || s.server == Closed))
      && |s.toServer| <= HEADER_LENGTH + MAX_BODY_LENGTH && |s.toClient| <= HEADER_LENGTH + MAX_BODY_LENGTH
  {
    hide Run;
    RunKeeps(process, app, steps);
    FlightBounds(Run(process, Connected(app), steps));
  }

  lemma FlightBounds<S>(s: Net<S>)
    requires Exchange(s)
    ensures s.toServer == "" || s.toClient == ""
    ensures s.holder.None? ==> s.toServer == "" && s.toClient == "" && (s.server == ReadingHeader || s.server == Closed)
    ensures |s.toServer| <= HEADER_LENGTH + MAX_BODY_LENGTH && |s.toClient| <= HEADER_LENGTH + MAX_BODY_LENGTH
  {
  }

  // ----- progress -----

  /** A step that brings the holder's call forward. */
  function Useful<S>(s: Net<S>): Step
    requires s.holder.Some?
  {
    match s.holder.value.phase
    case Sending(rest) => ClientSends(|rest|)
    case AwaitingHeader =>
      (match s.server
       case ReadingHeader => if s.toServer != "" then ServerReadsHeader else ClientReadsHeader
       case ReadingBody(_, _) => ServerReadsBody
       case Writing(rest) => ServerSends(|rest|)
       case Closed => ClientReadsHeader)
    case AwaitingBody(_, _) => if s.server.Writing? then ServerSends(|s.server.rest|) else ClientReadsBody
  }

  function Rank<S>(s: Net<S>): nat {
    match s.holder
    case None => 0
    case Some(h) =>
      match h.phase
      case Sending(_) => 7
      case AwaitingHeader =>
        (match s.server
         case ReadingHeader => if s.toServer != "" then 6 else 3
         case ReadingBody(_, _) => 5
         case Writing(_) => 4
         case Closed => 4)
      case AwaitingBody(_, _) => if s.server.Writing? then 2 else 1
  }

  ghost predicate FinishedBy<S>(s: Net<S>, t: Net<S>) {
    && s.holder.Some? && t.holder.None? && |t.done| == |s.done| + 1 && t.done[..|s.done|] == s.done
    && t.done[|s.done|].tid == s.holder.value.tid && t.done[|s.done|].request == s.holder.value.request
  }

  ghost predicate SameCall<S>(s: Net<S>, t: Net<S>) {
    s.holder.Some? && t.holder.Some? && t.done == s.done
    && t.holder.value.tid == s.holder.value.tid && t.holder.value.request == s.holder.value.request
  }

  ghost predicate Progress<S>(s: Net<S>, t: Net<S>) {
    FinishedBy(s, t) || (SameCall(s, t) && Rank(t) < Rank(s))
  }

  /** The server has ended, or the holder's request is still unprocessed and will end it. */
  predicate Doomed<S>(process: Process<S>, s: Net<S>) {
    || s.server.Closed?
    || (s.holder.Some? && |s.served| == |s.done| && !Lives(process(s.app, s.holder.value.request)))
  }

  lemma HeaderStepProgress<S>(process: Process<S>, s: Net<S>)
    requires Exchange(s) && s.holder.Some?
    requires s.holder.value.phase.AwaitingHeader? && s.server.ReadingHeader?
    ensures Progress(s, Next(process, s, Useful(s)))
  {
    hide ParseHeader, Encode;
    var h := s.holder.value;
    EncodedLength(RequestFrame(h.request));
    if s.toServer != "" {
      assert RequestPiece(s, h, "");
      assert s.toServer + "" == s.toServer;
      HeaderAhead(RequestFrame(h.request), s.toServer, "");
    } else {
      var last := s.served[|s.served| - 1];
      assert !RequestPiece(s, h, "");
      EncodedLength(Frame(last.tp, last.body));
      assert s.toClient + "" == s.toClient;
      HeaderAhead(Frame(last.tp, last.body), s.toClient, "");
    }
  }

  lemma BodyStepProgress<S>(process: Process<S>, s: Net<S>)
    requires Exchange(s) && s.holder.Some? && !Doomed(process, s)
    requires s.holder.value.phase.AwaitingHeader? && s.server.ReadingBody?
    ensures Progress(s, Next(process, s, Useful(s)))
  {
    hide ParseHeader, Encode, Sendable;
    assert RequestPiece(s, s.holder.value, "");
    assert s.toServer[..s.server.len] == s.holder.value.request;
  }

  lemma EncodedLength(f: Frame)
    ensures Sendable(f) ==> |Encode(f)| == HEADER_LENGTH + |f.body|
  {
  }

  /** Unless its request ends the server, no caller is ever stuck: some step is enabled that finishes
      its call or brings it nearer. */
  lemma UsefulStep<S>(process: Process<S>, s: Net<S>)
    requires Exchange(s) && s.holder.Some? && !Doomed(process, s)
    ensures Progress(s, Next(process, s, Useful(s)))
  {
    hide ParseHeader, Encode, Doomed;
    assert !s.server.Closed? by { NotClosed(process, s); }
    var h := s.holder.value;
    match h.phase
    case Sending(rest) =>
    case AwaitingBody(_, _) =>
    case AwaitingHeader =>
      match s.server
      case ReadingHeader => HeaderStepProgress(process, s);
      case ReadingBody(_, _) => BodyStepProgress(process, s);
      case Writing(_) =>
  }

  lemma NotClosed<S>(process: Process<S>, s: Net<S>)
    requires !Doomed(process, s)
    ensures !s.server.Closed?
  {
  }

  /** Every other step keeps a call out of danger. */
  lemma StaysWell<S>(process: Process<S>, s: Net<S>, step: Step)
    requires Exchange(s) && s.holder.Some? && !Doomed(process, s) && SameCall(s, Next(process, s, step))
    ensures !Doomed(process, Next(process, s, step))
  {
    hide ParseHeader, Encode, Sendable;
    var h := s.holder.value;
    if step.ServerReadsHeader? {
      WellHeader(process, s);
    } else if step.ServerReadsBody? {
      WellBody(process, s);
    }
  }

  lemma WellHeader<S>(process: Process<S>, s: Net<S>)
    requires Exchange(s) && s.holder.Some? && !Doomed(process, s)
    ensures !Doomed(process, Next(process, s, ServerReadsHeader))
  {
    hide ParseHeader, Encode, Sendable;
    if s.server.ReadingHeader? && |s.toServer| >= HEADER_LENGTH {
      var h := s.holder.value;
      var unsent := if h.phase.Sending? then h.phase.rest else "";
      assert RequestPiece(s, h, unsent);
      assert Sendable(RequestFrame(h.request)) by { RequestSendable(h.request); }
      HeaderAhead(RequestFrame(h.request), s.toServer, unsent);
    }
  }

  lemma RequestSendable(text: string)
    ensures |text| <= MAX_BODY_LENGTH ==> Sendable(RequestFrame(text))
  {
  }

  lemma WellBody<S>(process: Process<S>, s: Net<S>)
    requires Exchange(s) && s.holder.Some? && !Doomed(process, s)
    ensures !Doomed(process, Next(process, s, ServerReadsBody))
  {
    hide ParseHeader, Encode, Sendable;
    if s.server.ReadingBody? && |s.toServer| >= s.server.len {
      var h := s.holder.value;
      var unsent := if h.phase.Sending? then h.phase.rest else "";
      assert RequestPiece(s, h, unsent);
      assert s.toServer[..s.server.len] == h.request;
    }
  }

  /** A doomed call stays so, and no call finishes any more. */
  lemma DoomedKept<S>(process: Process<S>, s: Net<S>, step: Step)
    requires Exchange(s) && Doomed(process, s)
    ensures Doomed(process, Next(process, s, step)) && Next(process, s, step).done == s.done
  {
    hide ParseHeader, Encode, Sendable;
    if step.ServerReadsBody? && s.server.ReadingBody? && |s.toServer| >= s.server.len {
      var h := s.holder.value;
      var unsent := if h.phase.Sending? then h.phase.rest else "";
      assert RequestPiece(s, h, unsent);
      assert s.toServer[..s.server.len] == h.request;
    }
  }

  lemma {:induction false} DoomedRun<S>(process: Process<S>, app: S, s: Net<S>, steps: seq<Step>)
    requires Inv(process, app, s) && Doomed(process, s)
    ensures Run(process, s, steps).done == s.done
    ensures Doomed(process, Run(process, s, steps)) && Inv(process, app, Run(process, s, steps))
    decreases |steps|
  {
    if steps != [] {
      hide Next, Doomed, Exchange, Delivered, OneCallPerThread, Replayed;
      var t := Run(process, s, steps[..|steps| - 1]);
      DoomedRun(process, app, s, steps[..|steps| - 1]);
      DoomedKept(process, t, steps[|steps| - 1]);
      StepKeeps(process, app, t, steps[|steps| - 1]);
    }
  }

  lemma {:induction false} RunCons<S>(process: Process<S>, s: Net<S>, step: Step, steps: seq<Step>)
    ensures Run(process, s, [step] + steps) == Run(process, Next(process, s, step), steps)
    decreases |steps|
  {
    hide Next;
    var all := [step] + steps;
    if steps == [] {
      assert all[..0] == [];
    } else {
      assert all[..|all| - 1] == [step] + steps[..|steps| - 1];
      RunCons(process, s, step, steps[..|steps| - 1]);
    }
  }

  ghost predicate CanFinish<S>(process: Process<S>, s: Net<S>, n: nat)
  {
    exists steps :: |steps| <= n && FinishedBy(s, Run(process, s, steps))
  }

  lemma FinishLater<S>(process: Process<S>, s: Net<S>, step: Step, n: nat)
    requires SameCall(s, Next(process, s, step)) && CanFinish(process, Next(process, s, step), n)
    ensures CanFinish(process, s, n + 1)
  {
    hide Next, Run;
    var t := Next(process, s, step);
    var steps :| |steps| <= n && FinishedBy(t, Run(process, t, steps));
    RunCons(process, s, step, steps);
    assert FinishedBy(s, Run(process, s, [step] + steps));
  }

  lemma FinishNow<S>(process: Process<S>, s: Net<S>, step: Step)
    requires FinishedBy(s, Next(process, s, step))
    ensures CanFinish(process, s, 1)
  {
    hide Next;
    RunCons(process, s, step, []);
    assert [step] + [] == [step];
    assert FinishedBy(s, Run(process, s, [step]));
  }

  lemma MoreTime<S>(process: Process<S>, s: Net<S>, m: nat, n: nat)
    requires CanFinish(process, s, m) && m <= n
    ensures CanFinish(process, s, n)
  {
  }

  /** From every reachable state the thread that holds the lock can finish its call, within seven
      steps, exactly when the server is there and survives its request. Otherwise no schedule
      whatever finishes any call. */
  lemma CallCanFinish<S>(process: Process<S>, app: S, steps: seq<Step>, more: seq<Step>)
    requires Run(process, Connected(app), steps).holder.Some?
    ensures var s := Run(process, Connected(app), steps);
      && (CanFinish(process, s, 7) <==> !Doomed(process, s))
      && (Doomed(process, s) ==> Run(process, s, more).done == s.done)
  {
    var s := Run(process, Connected(app), steps);
    hide Run, Inv, CanFinish, Doomed;
    RunKeeps(process, app, steps);
    RankBounds(s);
    if Doomed(process, s) {
      NeverFinishes(process, app, s, 7);
      DoomedRun(process, app, s, more);
    } else {
      FinishesByRank(process, app, s);
      MoreTime(process, s, Rank(s), 7);
    }
  }

  lemma NeverFinishes<S>(process: Process<S>, app: S, s: Net<S>, n: nat)
    requires Inv(process, app, s) && Doomed(process, s)
    ensures !CanFinish(process, s, n)
  {
    hide Inv, Doomed, Run;
    if CanFinish(process, s, n) {
      var steps :| |steps| <= n && FinishedBy(s, Run(process, s, steps));
      DoomedRun(process, app, s, steps);
    }
  }

  lemma RankBounds<S>(s: Net<S>)
    ensures s.holder.Some? ==> 1 <= Rank(s) <= 7
  {
  }

  lemma {:induction false} FinishesByRank<S>(process: Process<S>, app: S, s: Net<S>)
    requires Inv(process, app, s) && s.holder.Some? && !Doomed(process, s)
    ensures CanFinish(process, s, Rank(s))
    decreases Rank(s)
  {
    var step := Useful(s);
    var t := Next(process, s, step);
    UsefulStep(process, s);
    StepKeeps(process, app, s, step);
    RankBounds(s);
    hide Next, Inv, Useful, Rank, CanFinish, FinishedBy, Doomed;
    if FinishedBy(s, t) {
      FinishNow(process, s, step);
      MoreTime(process, s, 1, Rank(s));
    } else {
      assert Exchange(s) by { InvExchange(process, app, s); }
      StaysWell(process, s, step);
      FinishesByRank(process, app, t);
      FinishLater(process, s, step, Rank(t));
      MoreTime(process, s, Rank(t) + 1, Rank(s));
    }
  }

  lemma InvExchange<S>(process: Process<S>, app: S, s: Net<S>)
    requires Inv(process, app, s)
    ensures Exchange(s)
  {
  }
}
