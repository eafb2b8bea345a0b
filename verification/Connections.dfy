/** Any number of connections to one server (src/core/IAP_server.cpp:70-104): each has its own session
    and its own client threads, all of them share the board, and a single thread processes their
    requests one at a time. */
module Connections {
  import opened Basics
  import opened Message
  import opened Protocol

  /** A processed request and the connection it came from. */
  datatype Entry = Entry(conn: nat, served: Served)

  /** `log` is what the server has processed, in that order; `fatal` the request that ended it. The
      `app` of a connection is out of date except while it takes a step. */
  datatype Site<S> = Site(app: S, conns: map<nat, Net<S>>, log: seq<Entry>, fatal: Option<string>)

  datatype Act = Accept(conn: nat) | On(conn: nat, step: Step)

  /** What a step on connection c makes of the site. */
  function Stepped<S>(m: Site<S>, c: nat, before: Net<S>, after: Net<S>): Site<S> {
    Site(after.app, m.conns[c := after],
         if |after.served| > |before.served| then m.log + [Entry(c, after.served[|before.served|])] else m.log,
         after.fatal)
  }

  /** One step anywhere. When the server has ended nothing happens any more. */
  function Proceed<S>(process: Process<S>, m: Site<S>, act: Act): Site<S> {
    if m.fatal.Some? then m
    else
      match act
      case Accept(c) => if c in m.conns then m else m.(conns := m.conns[c := Connected(m.app)])
      case On(c, step) =>
        if c !in m.conns then m
        else
          var before := m.conns[c].(app := m.app);
          Stepped(m, c, before, Next(process, before, step))
  }

  function Listening<S>(app: S): Site<S> {
    Site(app, map[], [], None)
  }

  /** A run under any scheduler. */
  function Course<S>(process: Process<S>, m: Site<S>, acts: seq<Act>): Site<S> {
    if acts == [] then m else Proceed(process, Course(process, m, acts[..|acts| - 1]), acts[|acts| - 1])
  }

  function Texts(log: seq<Entry>): seq<string> {
    seq(|log|, i requires 0 <= i < |log| => log[i].served.request)
  }

  function Replies(log: seq<Entry>): seq<Served> {
    seq(|log|, i requires 0 <= i < |log| => log[i].served)
  }

  /** What reached `process_msg`, the fatal request last. */
  function Handled<S>(m: Site<S>): seq<string> {
    Texts(m.log) + (if m.fatal.Some? then [m.fatal.value] else [])
  }

  /** The part of the log that belongs to one connection. */
  function Own(log: seq<Entry>, c: nat): seq<Served> {
    if log == [] then []
    else
      var last := log[|log| - 1];
      Own(log[..|log| - 1], c) + (if last.conn == c then [last.served] else [])
  }

  /** The place in the log of the i-th request of connection c. */
  function Place(log: seq<Entry>, c: nat, i: nat): (p: nat)
    requires i < |Own(log, c)|
    ensures p < |log| && log[p].conn == c && log[p].served == Own(log, c)[i]
  {
    var front := log[..|log| - 1];
    if i < |Own(front, c)| then Place(front, c, i) else |log| - 1
  }

  // ----- the invariant -----

  ghost predicate Sound<S>(s: Net<S>) {
    Exchange(s) && Delivered(s)
  }

  /** Every connection is in order, and its own requests are in the log. */
  ghost predicate ConnsInv<S>(m: Site<S>) {
    && (forall c :: c in m.conns ==> Delivered(m.conns[c]) && Own(m.log, c) == m.conns[c].served)
    && (forall c :: c !in m.conns ==> Own(m.log, c) == [])
    && (m.fatal.None? ==> forall c :: c in m.conns ==> Exchange(m.conns[c]) && m.conns[c].fatal.None?)
  }

  /** The board and the replies are those of the sequential program. */
  ghost predicate LogInv<S>(process: Process<S>, app: S, m: Site<S>) {
    && Sequentially(process, app, Texts(m.log)) == (m.app, Replies(m.log))
    && Survives(process, app, Texts(m.log))
    && (m.fatal.Some? ==> !Lives(process(m.app, m.fatal.value)))
  }

  ghost predicate SiteInv<S>(process: Process<S>, app: S, m: Site<S>) {
    ConnsInv(m) && LogInv(process, app, m)
  }

  /** The connections' invariants do not speak of the board. */
  lemma SoundAnyway<S>(s: Net<S>, app: S)
    requires Sound(s)
    ensures Sound(s.(app := app))
  {
    hide Encode;
  }

  /** What one step adds to a connection's own requests. */
  ghost predicate Grows<S>(process: Process<S>, s: Net<S>, t: Net<S>) {
    && (t.fatal.Some? ==> t.served == s.served && t.app == s.app && !Lives(process(s.app, t.fatal.value)))
    && (if |t.served| > |s.served| then
          && t.served == s.served + [t.served[|s.served|]]
          && var q := t.served[|s.served|];
             var a := process(s.app, q.request);
             Lives(a) && t.app == a.state && q == Served(q.request, a.tp, a.body)
        else t.served == s.served && t.app == s.app)
  }

  lemma ServedGrows<S>(process: Process<S>, s: Net<S>, step: Step)
    requires Exchange(s) && s.fatal.None?
    ensures Grows(process, s, Next(process, s, step))
  {
    hide Encode, ParseHeader, Sendable, Ongoing;
  }

  lemma OwnMore(log: seq<Entry>, e: Entry, c: nat)
    ensures Own(log + [e], c) == Own(log, c) + (if e.conn == c then [e.served] else [])
  {
    assert (log + [e])[..|log|] == log;
  }

  lemma LogMore<S>(process: Process<S>, app: S, log: seq<Entry>, e: Entry, before: S, after: S)
    requires Sequentially(process, app, Texts(log)) == (before, Replies(log)) && Survives(process, app, Texts(log))
    requires var a := process(before, e.served.request);
      Lives(a) && after == a.state && e.served == Served(e.served.request, a.tp, a.body)
    ensures Sequentially(process, app, Texts(log + [e])) == (after, Replies(log + [e]))
    ensures Survives(process, app, Texts(log + [e]))
  {
    hide Lives, Survives;
    var q := e.served.request;
    assert Texts(log + [e]) == Texts(log) + [q] && Replies(log + [e]) == Replies(log) + [e.served];
    assert (Texts(log) + [q])[..|log|] == Texts(log);
    OneMore(process, app, Texts(log), q);
  }

  lemma SteppedConns<S>(process: Process<S>, m: Site<S>, c: nat, before: Net<S>, after: Net<S>)
    requires ConnsInv(m) && m.fatal.None? && c in m.conns && before.served == m.conns[c].served
    requires Exchange(after) && Delivered(after) && Grows(process, before, after)
    ensures ConnsInv(Stepped(m, c, before, after))
  {
    hide Exchange, Delivered, Lives, Own;
    var r := Stepped(m, c, before, after);
    if |after.served| > |before.served| {
      var e := Entry(c, after.served[|before.served|]);
      forall d ensures Own(r.log, d) == if d == c then after.served else Own(m.log, d) {
        OwnMore(m.log, e, d);
      }
    }
  }

  lemma SteppedLog<S>(process: Process<S>, app: S, m: Site<S>, c: nat, before: Net<S>, after: Net<S>)
    requires LogInv(process, app, m) && before.app == m.app && Grows(process, before, after)
    ensures LogInv(process, app, Stepped(m, c, before, after))
  {
    hide Sequentially, Survives, Lives;
    if |after.served| > |before.served| {
      LogMore(process, app, m.log, Entry(c, after.served[|before.served|]), m.app, after.app);
    }
  }

  lemma StepInv<S>(process: Process<S>, app: S, m: Site<S>, c: nat, step: Step)
    requires SiteInv(process, app, m) && m.fatal.None? && c in m.conns
    ensures SiteInv(process, app, Proceed(process, m, On(c, step)))
  {
    var before := m.conns[c].(app := m.app);
    SoundAnyway(m.conns[c], m.app);
    hide Exchange, Delivered, Next, Grows, LogInv, Own;
    ExchangeKept(process, before, step);
    ServedGrows(process, before, step);
    var after := Next(process, before, step);
    SteppedConns(process, m, c, before, after);
    SteppedLog(process, app, m, c, before, after);
  }

  lemma {:induction false} CourseInv<S>(process: Process<S>, app: S, acts: seq<Act>)
    ensures SiteInv(process, app, Course(process, Listening(app), acts))
    decreases |acts|
  {
    if acts == [] {
      assert Texts([]) == [] && Replies([]) == [];
    } else {
      var before, act := Course(process, Listening(app), acts[..|acts| - 1]), acts[|acts| - 1];
      CourseInv(process, app, acts[..|acts| - 1]);
      hide SiteInv, Proceed;
      ProceedInv(process, app, before, act);
    }
  }

  lemma ProceedInv<S>(process: Process<S>, app: S, m: Site<S>, act: Act)
    requires SiteInv(process, app, m)
    ensures SiteInv(process, app, Proceed(process, m, act))
  {
    hide Next, Own, LogInv, Encode;
    if m.fatal.None? && act.On? && act.conn in m.conns {
      StepInv(process, app, m, act.conn, act.step);
    } else if m.fatal.None? && act.Accept? {
      Accepted(process, app, m, act.conn);
    }
  }

  lemma Accepted<S>(process: Process<S>, app: S, m: Site<S>, c: nat)
    requires SiteInv(process, app, m) && m.fatal.None?
    ensures SiteInv(process, app, Proceed(process, m, Accept(c)))
  {
    hide Next, Own, Encode, Sequentially, Survives, Lives;
    assert Exchange(Connected(m.app)) && Delivered(Connected(m.app));
    hide Exchange, Delivered;
  }

  // ----- main results -----

  /** With any number of connections and threads, under every interleaving: each finished call got what
      `process_msg` made of its own request, in the state that everything processed before it, from
      whatever connection, had left: "OK" for a success, the reply's text for every other type. */
  lemma EveryCallAnswered<S>(process: Process<S>, app: S, acts: seq<Act>, c: nat, i: nat)
    ensures var m := Course(process, Listening(app), acts);
      c in m.conns && i < |m.conns[c].done| ==>
        && i < |Own(m.log, c)|
        && var p, call := Place(m.log, c, i), m.conns[c].done[i];
           && p < |Texts(m.log)|
           && var a := AnswerAt(process, app, Texts(m.log), p);
              call.request == Texts(m.log)[p] && Lives(a) && call.result == (if a.tp == MSG_SUCCESS then "OK" else a.body)
  {
    hide Course;
    CourseInv(process, app, acts);
    CallPlaced(process, app, Course(process, Listening(app), acts), c, i);
  }

  lemma CallPlaced<S>(process: Process<S>, app: S, m: Site<S>, c: nat, i: nat)
    requires SiteInv(process, app, m)
    ensures c in m.conns && i < |m.conns[c].done| ==>
      && i < |Own(m.log, c)|
      && var p, call := Place(m.log, c, i), m.conns[c].done[i];
         && p < |Texts(m.log)|
         && var a := AnswerAt(process, app, Texts(m.log), p);
            call.request == Texts(m.log)[p] && Lives(a) && call.result == (if a.tp == MSG_SUCCESS then "OK" else a.body)
  {
    hide Exchange, Own, Sequentially, Lives, AnswerAt;
    if c in m.conns && i < |m.conns[c].done| {
      var p := Place(m.log, c, i);
      ReplayedAt(process, app, Texts(m.log), p);
      assert Replies(m.log)[p] == m.log[p].served;
    }
  }

  /** The server has ended exactly when some request was given to it that it does not survive; that
      request is then the last one. */
  lemma EndedExactly<S>(process: Process<S>, app: S, acts: seq<Act>)
    ensures var m := Course(process, Listening(app), acts);
      && (m.fatal.Some? <==> !Survives(process, app, Handled(m)))
      && Survives(process, app, Texts(m.log))
  {
    hide Course;
    CourseInv(process, app, acts);
    EndedByRequest(process, app, Course(process, Listening(app), acts));
  }

  lemma EndedByRequest<S>(process: Process<S>, app: S, m: Site<S>)
    requires SiteInv(process, app, m)
    ensures m.fatal.Some? <==> !Survives(process, app, Handled(m))
    ensures Survives(process, app, Texts(m.log))
  {
    hide ConnsInv, Sequentially, Lives;
    var requests := Texts(m.log);
    if m.fatal.Some? {
      assert Handled(m)[..|requests|] == requests;
      assert !Lives(AnswerAt(process, app, Handled(m), |requests|));
    } else {
      assert Handled(m) == requests;
    }
  }

  /** While the server is there, on every connection at most one message is in flight. */
  lemma OneMessageEach<S>(process: Process<S>, app: S, acts: seq<Act>, c: nat)
    ensures var m := Course(process, Listening(app), acts);
      m.fatal.None? && c in m.conns ==>
        && m.conns[c].server != Closed
        && (m.conns[c].toServer == "" || m.conns[c].toClient == "")
        && (m.conns[c].holder.None? ==> m.conns[c].toServer == "" && m.conns[c].toClient == "")
  {
    hide Course;
    CourseInv(process, app, acts);
    var m := Course(process, Listening(app), acts);
    hide Delivered, Own, LogInv;
    if m.fatal.None? && c in m.conns {
      hide Exchange;
      FlightBounds(m.conns[c]);
      StillOpen(m.conns[c]);
    }
  }

  lemma StillOpen<S>(s: Net<S>)
    requires Exchange(s) && s.fatal.None?
    ensures s.server != Closed
  {
    hide Ongoing;
  }

  // ----- progress -----

  /** Connection c as it is about to take a step. */
  function Turn<S>(m: Site<S>, c: nat): Net<S>
    requires c in m.conns
  {
    m.conns[c].(app := m.app)
  }

  /** Only connection c takes steps. */
  function Alone<S>(process: Process<S>, m: Site<S>, c: nat, steps: seq<Step>): Site<S>
    decreases |steps|
  {
    if steps == [] then m else Alone(process, Proceed(process, m, On(c, steps[0])), c, steps[1..])
  }

  ghost predicate FinishesAlone<S>(process: Process<S>, m: Site<S>, c: nat, n: nat)
    requires c in m.conns
  {
    exists steps :: |steps| <= n && c in Alone(process, m, c, steps).conns && FinishedBy(Turn(m, c), Alone(process, m, c, steps).conns[c])
  }

  /** The site after one more step of connection c. */
  lemma TurnStep<S>(process: Process<S>, app: S, m: Site<S>, c: nat, step: Step)
    requires SiteInv(process, app, m) && m.fatal.None? && c in m.conns
    ensures var r := Proceed(process, m, On(c, step));
      && SiteInv(process, app, r) && c in r.conns && r.conns[c] == Next(process, Turn(m, c), step) && Turn(r, c) == r.conns[c]
      && (r.fatal.Some? <==> r.conns[c].server.Closed?)
    ensures Exchange(Turn(m, c)) && Delivered(Turn(m, c))
  {
    StepInv(process, app, m, c, step);
    SoundAnyway(m.conns[c], m.app);
    ExchangeKept(process, Turn(m, c), step);
    FatalIsClosed(Next(process, Turn(m, c), step));
    hide Next, SiteInv, Exchange, Delivered;
  }

  lemma FatalIsClosed<S>(s: Net<S>)
    requires Exchange(s)
    ensures s.fatal.Some? <==> s.server.Closed?
  {
    hide Ongoing;
  }

  lemma AloneCons<S>(process: Process<S>, m: Site<S>, c: nat, step: Step, steps: seq<Step>)
    ensures Alone(process, m, c, [step] + steps) == Alone(process, Proceed(process, m, On(c, step)), c, steps)
  {
    hide Proceed;
    assert ([step] + steps)[1..] == steps;
  }

  lemma {:induction false} FinishesInTime<S>(process: Process<S>, app: S, m: Site<S>, c: nat)
    requires SiteInv(process, app, m) && m.fatal.None? && c in m.conns
    requires Turn(m, c).holder.Some? && !Doomed(process, Turn(m, c))
    ensures FinishesAlone(process, m, c, Rank(Turn(m, c)))
    decreases Rank(Turn(m, c))
  {
    hide *;
    var net := Turn(m, c);
    UsefulTurn(process, app, m, c);
    var step := Useful(net);
    var r := Proceed(process, m, On(c, step));
    if FinishedBy(net, r.conns[c]) {
      FinishedNow(process, m, c, step, Rank(net));
    } else {
      FinishesInTime(process, app, r, c);
      FinishesLater(process, m, c, step, Rank(Turn(r, c)), Rank(net));
    }
  }

  /** The site after the useful step of connection c: the call is finished, or it is the same call, nearer
      its end. */
  lemma UsefulTurn<S>(process: Process<S>, app: S, m: Site<S>, c: nat)
    requires SiteInv(process, app, m) && m.fatal.None? && c in m.conns
    requires Turn(m, c).holder.Some? && !Doomed(process, Turn(m, c))
    ensures var net, r := Turn(m, c), Proceed(process, m, On(c, Useful(Turn(m, c))));
      && SiteInv(process, app, r) && c in r.conns && Turn(r, c) == r.conns[c] && Rank(net) >= 1
      && (!FinishedBy(net, r.conns[c]) ==>
            && r.fatal.None? && Turn(r, c).holder.Some? && !Doomed(process, Turn(r, c))
            && Rank(Turn(r, c)) < Rank(net) && SameCall(net, r.conns[c]))
  {
    var net := Turn(m, c);
    var step := Useful(net);
    TurnStep(process, app, m, c, step);
    UsefulStep(process, net);
    RankBounds(net);
    var t := Next(process, net, step);
    hide Next, SiteInv, Useful, Rank, Doomed, Exchange, Delivered, Proceed, FinishedBy;
    if !FinishedBy(net, t) {
      StaysWell(process, net, step);
      NotClosed(process, t);
    }
  }

  lemma FinishedNow<S>(process: Process<S>, m: Site<S>, c: nat, step: Step, n: nat)
    requires c in m.conns && n >= 1
    requires var r := Proceed(process, m, On(c, step)); c in r.conns && FinishedBy(Turn(m, c), r.conns[c])
    ensures FinishesAlone(process, m, c, n)
  {
    AloneCons(process, m, c, step, []);
    hide Proceed, FinishedBy;
    assert [step] + [] == [step];
    assert Alone(process, m, c, [step]) == Proceed(process, m, On(c, step));
  }

  lemma FinishesLater<S>(process: Process<S>, m: Site<S>, c: nat, step: Step, n: nat, total: nat)
    requires c in m.conns && n < total
    requires c in Proceed(process, m, On(c, step)).conns
    requires var r := Proceed(process, m, On(c, step));
      Turn(r, c) == r.conns[c] && SameCall(Turn(m, c), r.conns[c]) && FinishesAlone(process, r, c, n)
    ensures FinishesAlone(process, m, c, total)
  {
    hide Proceed, FinishedBy, SameCall, Alone;
    var r := Proceed(process, m, On(c, step));
    var steps :| |steps| <= n && c in Alone(process, r, c, steps).conns && FinishedBy(Turn(r, c), Alone(process, r, c, steps).conns[c]);
    AloneCons(process, m, c, step, steps);
    SameCallFinished(Turn(m, c), Turn(r, c), Alone(process, r, c, steps).conns[c]);
    assert |[step] + steps| <= total;
  }

  lemma SameCallFinished<S>(s: Net<S>, t: Net<S>, u: Net<S>)
    requires SameCall(s, t) && FinishedBy(t, u)
    ensures FinishedBy(s, u)
  {
  }

  lemma {:induction false} DoomedAlone<S>(process: Process<S>, app: S, m: Site<S>, c: nat, steps: seq<Step>)
    requires SiteInv(process, app, m) && c in m.conns && Doomed(process, Turn(m, c))
    ensures c in Alone(process, m, c, steps).conns && Alone(process, m, c, steps).conns[c].done == m.conns[c].done
    decreases |steps|
  {
    hide Next, SiteInv, Doomed, Exchange, Delivered;
    if steps != [] {
      if m.fatal.Some? {
        DoomedAlone(process, app, m, c, steps[1..]);
      } else {
        TurnStep(process, app, m, c, steps[0]);
        DoomedKept(process, Turn(m, c), steps[0]);
        DoomedAlone(process, app, Proceed(process, m, On(c, steps[0])), c, steps[1..]);
      }
    }
  }

  /** On every connection the thread that holds the lock can finish its call within seven steps of that
      connection, exactly when the server is there and survives its request as things stand. */
  lemma EveryCallCanFinish<S>(process: Process<S>, app: S, acts: seq<Act>, c: nat)
    requires var m := Course(process, Listening(app), acts); c in m.conns && m.fatal.None? && m.conns[c].holder.Some?
    ensures var m := Course(process, Listening(app), acts);
      FinishesAlone(process, m, c, 7) <==> !Doomed(process, Turn(m, c))
  {
    hide Course;
    CourseInv(process, app, acts);
    var m := Course(process, Listening(app), acts);
    hide SiteInv, Doomed, Alone, FinishedBy;
    RankBounds(Turn(m, c));
    if Doomed(process, Turn(m, c)) {
      NeverAlone(process, app, m, c);
    } else {
      FinishesInTime(process, app, m, c);
    }
  }

  lemma NeverAlone<S>(process: Process<S>, app: S, m: Site<S>, c: nat)
    requires SiteInv(process, app, m) && c in m.conns && Doomed(process, Turn(m, c))
    ensures !FinishesAlone(process, m, c, 7)
  {
    hide SiteInv, Doomed, Alone;
    if FinishesAlone(process, m, c, 7) {
      var steps :| |steps| <= 7 && c in Alone(process, m, c, steps).conns && FinishedBy(Turn(m, c), Alone(process, m, c, steps).conns[c]);
      DoomedAlone(process, app, m, c, steps);
    }
  }
}
