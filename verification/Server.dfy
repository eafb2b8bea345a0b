/** The server's `session` (include/IAP_server.hpp:31-110, src/core/IAP_server.cpp:106-376): the branches
    of `process_msg` as a function of the board and the request text, and the object that carries them
    out, with request and reply in one shared message. */
module Server {
  import opened Basics
  import opened Decimal
  import opened Texts
  import opened Controller
  import opened Config
  import opened BoardSpec
  import opened Message
  import opened Display
  import P = Parser
  import B = Board
  import N = Protocol

  // ----- descriptors -----

  function Descriptors(axes: seq<Axis>): set<string> {
    set i | 0 <= i < |axes| :: axes[i].desc
  }

  /** `inv_coordinate_map`: the first axis with this descriptor. */
  function IdNamed(axes: seq<Axis>, desc: string): (id: nat)
    requires desc in Descriptors(axes)
    ensures Registered(axes, id)
  {
    if axes[0].desc == desc then
      assert axes[0].id == axes[0].id;
      axes[0].id
    else
      var id := IdNamed(axes[1..], desc);
      assert Registered(axes, id) by {
        var i :| 0 <= i < |axes[1..]| && axes[1..][i].id == id;
        assert axes[i + 1].id == id;
      }
      id
  }

  /** `coordinate_map` and `unit_map`. */
  function NameOf(axes: seq<Axis>): nat -> string {
    (id: nat) => if id in RegisteredIds(axes) then FindAxis(axes, id).desc else ""
  }

  function UnitOf(axes: seq<Axis>): nat -> string {
    (id: nat) => if id in RegisteredIds(axes) then FindAxis(axes, id).conv.unitName else ""
  }

  function NameAndUnit(axes: seq<Axis>): nat -> string {
    (id: nat) => NameOf(axes)(id) + "[" + UnitOf(axes)(id) + "]"
  }

  ghost predicate AllNamed(axes: seq<Axis>, names: seq<string>, values: map<string, real>) {
    forall k :: 0 <= k < |names| ==> names[k] in values && names[k] in Descriptors(axes)
  }

  /** The loop over the parsed names. */
  function RequestedFrom(axes: seq<Axis>, names: seq<string>, values: map<string, real>, pos: map<nat, real>): map<nat, real>
    requires AllNamed(axes, names, values)
  {
    if names == [] then pos
    else RequestedFrom(axes, names[1..], values, pos[IdNamed(axes, names[0]) := values[names[0]]])
  }

  function NamesInOrder(values: map<string, real>): (names: seq<string>)
    ensures forall x :: x in names <==> x in values
    ensures forall k :: 0 <= k < |names| ==> names[k] in values
  {
    SortedNamesSpec(values.Keys);
    var names := SortedNames(values.Keys);
    assert forall k :: 0 <= k < |names| ==> names[k] in names;
    names
  }

  /** The position that a map of names stands for. */
  function Requested(axes: seq<Axis>, values: map<string, real>): map<nat, real>
    requires values.Keys <= Descriptors(axes)
  {
    RequestedFrom(axes, NamesInOrder(values), values, map[])
  }

  // ----- replies -----

  /** How numbers are read and printed, and the text of `help`. */
  datatype Format = Format(read: string -> real, show: real -> string, help: string)

  /** `Stops`: the tokenizer's exception leaves the event loop and ends the server. */
  datatype Outcome = Replied(tp: MsgType, body: string) | Stops

  const SUCCESS := Replied(MSG_SUCCESS, "")

  function Text(s: string): Outcome {
    Replied(MSG_REPLY, s)
  }

  function Failure(s: string): Outcome {
    Replied(MSG_ERROR, s)
  }

  const SHORT_REPLY := "size of reply from stepper card was too short"

  /** The reply to a command sent on the caller's behalf; `message` is shown for an error reply. */
  function CommandOutcome(r: Reply, message: string): Outcome {
    match r
    case Accepted(_) => SUCCESS
    case Rejected(_) => Failure(message)
    case Short(_) => Failure(SHORT_REPLY)
  }

  // ----- request texts -----

  /** The pattern `(sa|set axis )[[:digit:]]`. */
  function SelectedAxis(data: string): Option<nat> {
    if |data| == 3 && data[..2] == "sa" && IsDigit(data[2]) then Some(DigitValue(data[2]))
    else if |data| == 10 && data[..9] == "set axis " && IsDigit(data[9]) then Some(DigitValue(data[9]))
    else None
  }

  predicate IsLetter(c: char) {
    'a' <= c <= 'z' || 'A' <= c <= 'Z'
  }

  function LetterPrefix(s: string): (n: nat)
    ensures n <= |s|
  {
    if s != "" && IsLetter(s[0]) then 1 + LetterPrefix(s[1..]) else 0
  }

  /** The pattern `[[:digit:]][[:alpha:]]+-?[[:digit:]]*` of commands that are passed through. */
  predicate PassThrough(data: string) {
    data != "" && IsDigit(data[0])
    && var n := LetterPrefix(data[1..]);
       n > 0
       && var rest := data[1 + n..];
          AllDigits(if rest != "" && rest[0] == '-' then rest[1..] else rest)
  }

  // ----- the branches -----

  function Move(s: State, text: string, relative: bool, read: string -> real): (State, Outcome)
    requires Valid(s)
  {
    match P.ParseMultiplett(read, text)
    case Thrown => (s, Stops)
    case Refused => (s, Failure("parse_multiplett_failure"))
    case Parsed(values) =>
      if !(values.Keys <= Descriptors(s.axes)) then (s, Failure("entered position has an invalid axis descriptor"))
      else
        var pos := Requested(s.axes, values);
        if |pos| == 0 then (s, Failure("entered position is not valid"))
        else
          var (s', ret) := MoveUser(s, pos, relative);
          (s', if ret < 0 then Failure("Controller Error: " + s'.err) else SUCCESS)
  }

  function Positions(s: State, show: real -> string): (State, Outcome) {
    var (s', p) := ReadUser(s);
    (s', Text(PositionText(KeysInOrder(p), p, NameAndUnit(s.axes), show)))
  }

  function BarePositions(s: State): (State, Outcome) {
    var (s', bp) := ReadBare(s, DefaultBare(s.axes));
    (s', Text(PositionText(KeysInOrder(bp), bp, NameOf(s.axes), IntText)))
  }

  function AxesReply(s: State): Outcome {
    Text(AxesText(SortedIds(RegisteredIds(s.axes)), NameOf(s.axes), UnitOf(s.axes)))
  }

  /** One axis in the reply to `savexml`. */
  function SavedLine(axes: seq<Axis>, id: nat, position: int, upper: int, lower: int): string {
    "\t'" + NameOf(axes)(id) + "'=" + IntText(position) + "\n"
    + "\tul=" + IntText(upper) + "\n"
    + "\tll=" + IntText(lower) + "\n"
  }

  function SavedText(axes: seq<Axis>, nodes: seq<Node>, ids: seq<nat>, bp: map<nat, int>): string
    requires AllIn(ids, bp)
  {
    if ids == [] then ""
    else
      SavedLine(axes, ids[0], bp[ids[0]], Limit(nodes, ids[0], UpperLimitElement), Limit(nodes, ids[0], LowerLimitElement))
      + SavedText(axes, nodes, ids[1..], bp)
  }

  lemma SavedTextStep(axes: seq<Axis>, nodes: seq<Node>, ids: seq<nat>, k: nat, bp: map<nat, int>, front: string)
    requires k <= |ids| && AllIn(ids, bp)
    ensures k < |ids| ==>
      (front + SavedText(axes, nodes, ids[k..], bp) ==
       front + SavedLine(axes, ids[k], bp[ids[k]], Limit(nodes, ids[k], UpperLimitElement), Limit(nodes, ids[k], LowerLimitElement))
       + SavedText(axes, nodes, ids[k + 1..], bp))
    ensures k == |ids| ==> front + SavedText(axes, nodes, ids[k..], bp) == front
    ensures SavedText(axes, nodes, ids[0..], bp) == SavedText(axes, nodes, ids, bp)
  {
    assert ids[0..] == ids;
    if k < |ids| {
      assert ids[k..][0] == ids[k] && ids[k..][1..] == ids[k + 1..];
      hide SavedLine, Limit;
    }
  }

  lemma AxesTextStep(ids: seq<nat>, k: nat, name: nat -> string, unit: nat -> string, front: string)
    requires k <= |ids|
    ensures k < |ids| ==>
      (front + AxesText(ids[k..], name, unit) ==
       front + AxisLine(ids[k], name, unit) + [NEWLINE] + AxesText(ids[k + 1..], name, unit))
    ensures k == |ids| ==> front + AxesText(ids[k..], name, unit) == front
    ensures AxesText(ids[0..], name, unit) == AxesText(ids, name, unit)
  {
    assert ids[0..] == ids;
    if k < |ids| {
      assert ids[k..][0] == ids[k] && ids[k..][1..] == ids[k + 1..];
      hide AxisLine;
      var line, rest := AxisLine(ids[k], name, unit), AxesText(ids[k + 1..], name, unit);
      assert front + (line + [NEWLINE] + rest) == front + line + [NEWLINE] + rest;
    }
  }

  const SAVING := "saving current pos (bare) of all axes to xml file\n"

  function Save(s: State): (State, Outcome) {
    var bp := ReadBare(s, map[]).1;
    (SaveXml(s), Text(SAVING + SavedText(s.axes, SaveXml(s).nodes, KeysInOrder(bp), bp)))
  }

  function LimitsText(s: State, e: Element, show: real -> string): string {
    var limits := UserLimits(s, e);
    PositionText(KeysInOrder(limits), limits, NameAndUnit(s.axes), show)
  }

  /** The reply to `psl`. */
  function SoftLimitsReply(s: State, show: real -> string): Outcome {
    Text("upper softlimits:\n" + LimitsText(s, UpperLimitElement, show) +
         "\nlower softlimits:\n" + LimitsText(s, LowerLimitElement, show))
  }

  /** A command passed through: the controller's text comes back, or the latest error, which after a
      short reply is an older one. */
  function Forward(s: State, data: string): (State, Outcome) {
    var s' := Send(s, Raw(data));
    (s', if Answer(s.link).Accepted? then Text(Answer(s.link).text) else Failure(s'.err))
  }

  function SetCommand(s: State, what: string): (State, Outcome)
  {
    if what == "jog" then (Send(s, JogOn), CommandOutcome(Answer(s.link), BufferText(Answer(s.link))))
    else if what == "zero" then (SetZero(s), SUCCESS)
    else (s, Failure("invalid set command (check syntax)"))
  }

  function UnsetCommand(s: State, what: string): (State, Outcome) {
    if what == "jog" then (Send(s, JogOff), CommandOutcome(Answer(s.link), BufferText(Answer(s.link))))
    else (s, Failure("invalid unset command (check syntax)"))
  }

  function InitialZeroCommand(s: State): (State, Outcome)
    requires Valid(s)
  {
    if !s.init then (s, Failure("initialzero not allowed in normal mode")) else (SetInitialZero(s).0, SUCCESS)
  }

  const REJECTED := "PM381 returned error message"

  /** The branch that a request text takes. */
  datatype Request =
    | AskHelp | AskClose | AskState | AskInitialZero | AskBare | AskPositions | AskAxes | AskSave | AskLimits
    | AskSelect(id: nat)
    | AskSet(what: string)
    | AskUnset(what: string)
    | AskMove(text: string, relative: bool)
    | AskForward(command: string)
    | Unknown

  /** The plain words. */
  function ClassifyWord(data: string): Option<Request> {
    if data == "help" then Some(AskHelp)
    else if data == "close" then Some(AskClose)
    else if data == "state" then Some(AskState)
    else if data == "initialzero" then Some(AskInitialZero)
    else if data == "pbp" then Some(AskBare)
    else if data == "pp" then Some(AskPositions)
    else if data == "ga" then Some(AskAxes)
    else if data == "savexml" then Some(AskSave)
    else if data == "psl" then Some(AskLimits)
    else None
  }

  function ClassifyCommand(data: string): Request {
    if SelectedAxis(data).Some? then AskSelect(SelectedAxis(data).value)
    else if Starts(data, "set ") then AskSet(data[4..])
    else if Starts(data, "unset ") then AskUnset(data[6..])
    else if Starts(data, "ma ") || Starts(data, "mr ") then AskMove(data[3..], data[1] != 'a')
    else if PassThrough(data) then AskForward(data)
    else Unknown
  }

  /** In the order in which `process_msg` tries them. */
  function Classify(data: string): Request {
    if ClassifyWord(data).Some? then ClassifyWord(data).value else ClassifyCommand(data)
  }

  function Respond(s: State, request: Request, fmt: Format): (State, Outcome)
    requires Valid(s)
  {
    match request
    case AskHelp => (s, Text(fmt.help))
    case AskClose => (s, Text("stopping current session"))
    case AskState => (s, Text(if s.init then "initialize" else "normal"))
    case AskInitialZero => InitialZeroCommand(s)
    case AskBare => BarePositions(s)
    case AskPositions => Positions(s, fmt.show)
    case AskAxes => (s, AxesReply(s))
    case AskSave => Save(s)
    case AskLimits => (s, SoftLimitsReply(s, fmt.show))
    case AskSelect(id) => (SetAxisNum(s, id), CommandOutcome(Answer(s.link), REJECTED))
    case AskSet(what) => SetCommand(s, what)
    case AskUnset(what) => UnsetCommand(s, what)
    case AskMove(text, relative) => Move(s, text, relative, fmt.read)
    case AskForward(command) => Forward(s, command)
    case Unknown => (s, Failure("invalid command (check syntax)"))
  }

  /** `process_msg`. */
  function Handle(s: State, data: string, fmt: Format): (State, Outcome)
    requires Valid(s)
  {
    Respond(s, Classify(data), fmt)
  }

  // ----- resolving names one by one -----

  lemma {:induction false} DescOfNamed(axes: seq<Axis>, name: string)
    requires DistinctIds(axes) && name in Descriptors(axes)
    ensures FindAxis(axes, IdNamed(axes, name)).desc == name
    decreases |axes|
  {
    if axes[0].desc != name {
      DescOfNamed(axes[1..], name);
      var id := IdNamed(axes[1..], name);
      var i :| 0 <= i < |axes[1..]| && axes[1..][i].id == id;
      assert axes[i + 1].id == id && axes[0].id != id;
    }
  }

  /** The position so far, and the names still to come, make the requested position. */
  ghost predicate Resolving(axes: seq<Axis>, values: map<string, real>, rest: seq<string>, pos: map<nat, real>)
    requires values.Keys <= Descriptors(axes)
  {
    AllNamed(axes, rest, values) && Requested(axes, values) == RequestedFrom(axes, rest, values, pos)
  }

  lemma ResolveStart(axes: seq<Axis>, values: map<string, real>)
    ensures values.Keys <= Descriptors(axes) ==> Resolving(axes, values, NamesInOrder(values)[0..], map[])
  {
    hide RequestedFrom, Descriptors, NamesInOrder;
    assert NamesInOrder(values)[0..] == NamesInOrder(values);
  }

  lemma ResolveStep(axes: seq<Axis>, values: map<string, real>, names: seq<string>, pos: map<nat, real>, k: nat)
    requires values.Keys <= Descriptors(axes) && k < |names| && Resolving(axes, values, names[k..], pos)
    ensures names[k] in values && names[k] in Descriptors(axes)
    ensures Resolving(axes, values, names[k + 1..], pos[IdNamed(axes, names[k]) := values[names[k]]])
  {
    hide IdNamed, Descriptors, Requested;
    assert names[k..][0] == names[k] && names[k..][1..] == names[k + 1..];
  }

  lemma ResolveEnd(axes: seq<Axis>, values: map<string, real>, pos: map<nat, real>)
    requires values.Keys <= Descriptors(axes) && Resolving(axes, values, [], pos)
    ensures pos == Requested(axes, values)
  {
    hide Requested;
  }

  /** With repeated descriptors the first axis is named. */
  lemma {:induction false} FirstNamed(axes: seq<Axis>, j: nat)
    requires j < |axes| && forall k :: 0 <= k < j ==> axes[k].desc != axes[j].desc
    ensures axes[j].desc in Descriptors(axes) && IdNamed(axes, axes[j].desc) == axes[j].id
    decreases |axes|
  {
    if j > 0 {
      assert axes[1..][j - 1] == axes[j];
      FirstNamed(axes[1..], j - 1);
    }
  }

  /** An id that none of the names leads to stays as it was. */
  lemma {:induction false} RequestedKeeps(axes: seq<Axis>, names: seq<string>, values: map<string, real>, pos: map<nat, real>, id: nat)
    requires AllNamed(axes, names, values)
    requires forall k :: 0 <= k < |names| ==> IdNamed(axes, names[k]) != id
    ensures var r := RequestedFrom(axes, names, values, pos);
      (id in r <==> id in pos) && (id in pos ==> r[id] == pos[id])
    decreases |names|
  {
    if names != [] {
      hide IdNamed;
      RequestedKeeps(axes, names[1..], values, pos[IdNamed(axes, names[0]) := values[names[0]]], id);
    }
  }

  /** Otherwise the last of the names that lead to it decides. */
  lemma {:induction false} RequestedStores(axes: seq<Axis>, names: seq<string>, values: map<string, real>, pos: map<nat, real>, k: nat)
    requires AllNamed(axes, names, values) && k < |names|
    requires forall l :: k < l < |names| ==> IdNamed(axes, names[l]) != IdNamed(axes, names[k])
    ensures var r := RequestedFrom(axes, names, values, pos);
      IdNamed(axes, names[k]) in r && r[IdNamed(axes, names[k])] == values[names[k]]
    decreases |names|
  {
    hide IdNamed;
    var next := pos[IdNamed(axes, names[0]) := values[names[0]]];
    if k == 0 {
      RequestedKeeps(axes, names[1..], values, next, IdNamed(axes, names[0]));
    } else {
      RequestedStores(axes, names[1..], values, next, k - 1);
    }
  }

  lemma {:induction false} RequestedGrows(axes: seq<Axis>, names: seq<string>, values: map<string, real>, pos: map<nat, real>, id: nat)
    requires AllNamed(axes, names, values)
    ensures id in pos ==> id in RequestedFrom(axes, names, values, pos)
    ensures (forall x :: x in pos ==> Registered(axes, x)) ==>
      forall x :: x in RequestedFrom(axes, names, values, pos) ==> Registered(axes, x)
    decreases |names|
  {
    if names != [] {
      hide IdNamed, Registered;
      RequestedGrows(axes, names[1..], values, pos[IdNamed(axes, names[0]) := values[names[0]]], id);
    }
  }

  /** With distinct ids no two names lead to the same axis. */
  lemma NamesApart(axes: seq<Axis>, a: string, b: string)
    requires DistinctIds(axes) && a in Descriptors(axes) && b in Descriptors(axes)
    ensures IdNamed(axes, a) == IdNamed(axes, b) ==> a == b
  {
    DescOfNamed(axes, a);
    DescOfNamed(axes, b);
    hide IdNamed, FindAxis;
  }

  /** With distinct ids an axis is in the requested position exactly when a name leads to it, with the
      value of that name. */
  lemma RequestedWhere(axes: seq<Axis>, values: map<string, real>, id: nat)
    requires DistinctIds(axes) && values.Keys <= Descriptors(axes)
    ensures id in Requested(axes, values) <==> exists name :: name in values && IdNamed(axes, name) == id
    ensures forall name :: name in values && IdNamed(axes, name) == id && id in Requested(axes, values) ==>
      Requested(axes, values)[id] == values[name]
  {
    hide IdNamed, RequestedFrom, Descriptors;
    var names := NamesInOrder(values);
    if name :| name in values && IdNamed(axes, name) == id {
      assert name in names;
      var k :| 0 <= k < |names| && names[k] == name;
      forall l | k < l < |names| ensures IdNamed(axes, names[l]) != IdNamed(axes, names[k]) {
        OrderedApart(values, k, l);
        NamesApart(axes, names[l], names[k]);
      }
      RequestedStores(axes, names, values, map[], k);
      forall other | other in values && IdNamed(axes, other) == id ensures other == name {
        NamesApart(axes, other, name);
      }
    } else {
      RequestedKeeps(axes, names, values, map[], id);
    }
  }

  lemma OrderedApart(values: map<string, real>, k: nat, l: nat)
    requires k < l < |NamesInOrder(values)|
    ensures NamesInOrder(values)[k] != NamesInOrder(values)[l]
  {
    SortedNamesSpec(values.Keys);
    BeforeStrict(NamesInOrder(values)[k]);
    hide SortedNames, Before;
  }

  /** With distinct ids resolving one more name sets one more coordinate, whatever the order. */
  lemma RequestedMore(axes: seq<Axis>, values: map<string, real>, name: string, v: real)
    requires DistinctIds(axes) && name in Descriptors(axes) && values.Keys <= Descriptors(axes)
    ensures Requested(axes, values[name := v]) == Requested(axes, values)[IdNamed(axes, name) := v]
  {
    hide IdNamed, Requested, Descriptors;
    var more, id' := values[name := v], IdNamed(axes, name);
    var left, right := Requested(axes, more), Requested(axes, values)[id' := v];
    forall id ensures id in left <==> id in right
      ensures id in left ==> left[id] == right[id]
    {
      RequestedWhere(axes, more, id);
      RequestedWhere(axes, values, id);
      OneMoreName(axes, values, name, v, id);
    }
    assert left == right;
  }

  lemma OneMoreName(axes: seq<Axis>, values: map<string, real>, name: string, v: real, id: nat)
    requires DistinctIds(axes) && name in Descriptors(axes) && values.Keys <= Descriptors(axes)
    ensures (exists n :: n in values[name := v] && IdNamed(axes, n) == id) <==>
      id == IdNamed(axes, name) || exists n :: n in values && IdNamed(axes, n) == id
    ensures forall n :: n in values[name := v] && IdNamed(axes, n) == id ==>
      values[name := v][n] == (if id == IdNamed(axes, name) then v else values[n])
  {
    hide IdNamed, Descriptors;
    assert name in values[name := v];
    forall n | n in values && IdNamed(axes, n) == IdNamed(axes, name) ensures n == name {
      NamesApart(axes, n, name);
    }
  }

  // ----- as a protocol process -----

  /** `process_msg` as the protocol sees it. */
  ghost function Serve(fmt: Format): N.Process<State> {
    (s: State, q: string) =>
      if !Valid(s) then N.Dies
      else
        match Handle(s, q, fmt)
        case (s', Replied(tp, body)) => N.Answered(s', tp, body)
        case (_, Stops) => N.Dies
  }

  lemma MoveReplies(s: State, text: string, relative: bool, read: string -> real)
    requires Valid(s)
    ensures match Move(s, text, relative, read)
      case (_, Replied(tp, _)) => tp != MSG_INVALID
      case (s', Stops) => s' == s
  {
    hide MoveUser, Requested, P.ParseMultiplett;
  }

  /** Replies carry a valid type, and a request that ends the server has changed nothing before. */
  lemma Replies(s: State, data: string, fmt: Format)
    requires Valid(s)
    ensures match Handle(s, data, fmt)
      case (_, Replied(tp, _)) => tp != MSG_INVALID
      case (s', Stops) => s' == s
  {
    hide Classify, SetInitialZero, SetZero, SetAxisNum, Send, ReadUser, ReadBare, SaveXml, SavedText, AxesText, LimitsText,
      PositionText, Move;
    if Classify(data).AskMove? {
      MoveReplies(s, Classify(data).text, Classify(data).relative, fmt.read);
    }
  }

  /** The reply, if there is one, is a text that the message can hold. */
  ghost predicate TextReply(s: State, q: string, fmt: Format)
    requires Valid(s)
  {
    match Handle(s, q, fmt)
    case (_, Replied(_, body)) => IsText(body)
    case (_, Stops) => true
  }

  lemma ServeIs(s: State, q: string, fmt: Format)
    requires Valid(s)
    ensures match Handle(s, q, fmt)
      case (s', Replied(tp, body)) => Serve(fmt)(s, q) == N.Answered(s', tp, body)
      case (_, Stops) => Serve(fmt)(s, q) == N.Dies
    ensures TextReply(s, q, fmt) && Handle(s, q, fmt).1.Replied? ==>
      IsText(Handle(s, q, fmt).1.body)
  {
    hide Handle;
  }

  datatype Stage = AtHeader | AtBody | AtWrite | Deleted

  class Session {
    const data: Msg
    const board: B.IAPBoard
    const fmt: Format
    var stage: Stage

    /** The message and the board are in order. */
    ghost predicate Ready()
      reads this, data, board, board.config
    {
      data.Valid() && Valid(board.Abs())
    }

    /** The protocol's view of the session. */
    ghost function View(): N.Server
      reads this, data, data.data
      requires data.Valid()
    {
      match stage
      case AtHeader => N.ReadingHeader
      case AtBody => N.ReadingBody(data.tp, data.bodyLength)
      case AtWrite => N.Writing(data.Wire())
      case Deleted => N.Closed
    }

    constructor (b: B.IAPBoard, f: Format)
      requires Valid(b.Abs())
      ensures Ready() && View() == N.ReadingHeader && fresh(data) && fresh(data.data)
      ensures board == b && fmt == f
    {
      var m := new Msg();
      data, board, fmt, stage := m, b, f, AtHeader;
    }

    /** `handle_read_header`, called when eight bytes are in the message. */
    method HandleReadHeader(ghost net: N.Net<State>)
      requires Ready() && stage == AtHeader && net.server == N.ReadingHeader
      requires |net.toServer| >= HEADER_LENGTH && data.data[..HEADER_LENGTH] == net.toServer[..HEADER_LENGTH]
      modifies this`stage, data
      ensures Ready() && View() == N.Next(Serve(fmt), net, N.ServerReadsHeader).server
    {
      hide Serve;
      var ok := data.DecodeHeader();
      stage := if ok then AtBody else Deleted;
    }

    /** `handle_read_body`, called when the announced body is in the message: `process_msg` works on the
        board, and its reply replaces the request in the same message. */
    method HandleReadBody(ghost net: N.Net<State>)
      requires Ready() && stage == AtBody && net.server == View() && net.app == board.Abs()
      requires |net.toServer| >= data.bodyLength && data.Body() == net.toServer[..data.bodyLength]
      requires TextReply(board.Abs(), data.Body(), fmt)
      modifies this`stage, data, data.data, board, board.config
      ensures data.Valid() && View() == N.Next(Serve(fmt), net, N.ServerReadsBody).server
      ensures board.Abs() == N.Next(Serve(fmt), net, N.ServerReadsBody).app
    {
      hide Handle, Serve, Encode, Valid, HeaderText, N.Next, N.Lives, TextReply;
      var request := data.data[HEADER_LENGTH..HEADER_LENGTH + data.bodyLength];
      ghost var before := board.Abs();
      Replies(before, request, fmt);
      ServeIs(before, request, fmt);
      N.BodyStep(Serve(fmt), net);
      var out := ProcessMsg(request);
      match out
      case Stops =>
        stage := Deleted;
      case Replied(tp, body) =>
        data.PutText(tp, body);
        stage := AtWrite;
    }

    /** `handle_write`, called when the whole reply is written. */
    method HandleWrite(ghost net: N.Net<State>)
      requires data.Valid() && stage == AtWrite
      requires net.server.Writing? && net.server.rest != ""
      modifies this`stage
      ensures data.Valid() && View() == N.Next(Serve(fmt), net, N.ServerSends(|net.server.rest|)).server
    {
      hide Serve;
      stage := AtHeader;
    }

    /** The loop over the parsed names, in the order of the map; it gives up at the first one that is no
        descriptor. */
    method ResolveNames(values: map<string, real>, mypos: B.DummyPosition<real>) returns (ok: bool)
      requires mypos.coordinates == map[]
      modifies mypos
      ensures ok <==> values.Keys <= Descriptors(board.axes)
      ensures ok ==> mypos.coordinates == Requested(board.axes, values)
    {
      hide *;
      var names := NamesInOrder(values);
      ResolveStart(board.axes, values);
      var k := 0;
      while k < |names|
        invariant 0 <= k <= |names|
        invariant forall i :: 0 <= i < k ==> names[i] in Descriptors(board.axes)
        invariant values.Keys <= Descriptors(board.axes) ==>
          Resolving(board.axes, values, names[k..], mypos.coordinates)
      {
        if names[k] !in Descriptors(board.axes) {
          return false;
        }
        if values.Keys <= Descriptors(board.axes) {
          ResolveStep(board.axes, values, names, mypos.coordinates, k);
        }
        mypos.SetCoordinate(IdNamed(board.axes, names[k]), values[names[k]]);
        k := k + 1;
      }
      assert forall x :: x in values ==> x in names;
      if values.Keys <= Descriptors(board.axes) {
        assert names[k..] == [];
        ResolveEnd(board.axes, values, mypos.coordinates);
      }
      ok := true;
    }

    method MoveRequest(text: string, relative: bool, read: string -> real) returns (out: Outcome)
      requires Valid(board.Abs())
      modifies board
      ensures (board.Abs(), out) == Move(old(board.Abs()), text, relative, read)
    {
      hide MoveUser, Requested;
      var parsed := P.Parse(read, text);
      match parsed
      case Thrown => return Stops;
      case Refused => return Failure("parse_multiplett_failure");
      case Parsed(values) =>
        var mypos := new B.DummyPosition<real>();
        var ok := ResolveNames(values, mypos);
        if !ok {
          return Failure("entered position has an invalid axis descriptor");
        }
        if |mypos.coordinates| == 0 {
          return Failure("entered position is not valid");
        }
        var ret := board.MoveUser(mypos, relative);
        out := if ret < 0 then Failure("Controller Error: " + board.latestError) else SUCCESS;
    }

    method PositionsRequest(show: real -> string) returns (out: Outcome)
      modifies board
      ensures (board.Abs(), out) == Positions(old(board.Abs()), show)
    {
      hide ReadUser, PositionText, KeysInOrder;
      var p := board.CreatePosition();
      board.GetCurPosition(p);
      var text := p.GetPositionString(NameAndUnit(board.axes), show);
      out := Text(text);
    }

    method BarePositionsRequest() returns (out: Outcome)
      modifies board
      ensures (board.Abs(), out) == BarePositions(old(board.Abs()))
    {
      hide ReadBare, PositionText, KeysInOrder;
      var bp := board.CreateBare();
      board.GetCurBare(bp);
      var text := bp.GetPositionString(NameOf(board.axes), IntText);
      out := Text(text);
    }

    method AxesRequest() returns (out: Outcome)
      ensures out == AxesReply(board.Abs())
    {
      var text := AxesListing(SortedIds(RegisteredIds(board.axes)), NameOf(board.axes), UnitOf(board.axes));
      out := Text(text);
    }

    method AxesListing(ids: seq<nat>, name: nat -> string, unit: nat -> string) returns (text: string)
      ensures text == AxesText(ids, name, unit)
    {
      hide *;
      text := "";
      AxesTextStep(ids, 0, name, unit, text);
      assert "" + AxesText(ids, name, unit) == AxesText(ids, name, unit);
      var k := 0;
      while k < |ids|
        invariant 0 <= k <= |ids|
        invariant AxesText(ids, name, unit) == text + AxesText(ids[k..], name, unit)
      {
        AxesTextStep(ids, k, name, unit, text);
        text := text + AxisLine(ids[k], name, unit) + [NEWLINE];
        k := k + 1;
      }
      AxesTextStep(ids, k, name, unit, text);
    }

    method SaveRequest() returns (out: Outcome)
      modifies board, board.config
      ensures (board.Abs(), out) == Save(old(board.Abs()))
    {
      hide SaveXml, ReadBare, KeysInOrder, SavedText;
      var bp := board.SaveXml();
      var text := SavedListing(KeysInOrder(bp), bp, SAVING);
      out := Text(text);
    }

    /** The limits are read from the tree, where storing positions has not changed them. */
    method SavedListing(ids: seq<nat>, bp: map<nat, int>, title: string) returns (text: string)
      requires AllIn(ids, bp)
      ensures text == title + SavedText(board.axes, board.config.nodes, ids, bp)
    {
      hide SavedText, SavedLine;
      text := title;
      SavedTextStep(board.axes, board.config.nodes, ids, 0, bp, text);
      var k := 0;
      while k < |ids|
        invariant 0 <= k <= |ids|
        invariant title + SavedText(board.axes, board.config.nodes, ids, bp) ==
          text + SavedText(board.axes, board.config.nodes, ids[k..], bp)
      {
        SavedTextStep(board.axes, board.config.nodes, ids, k, bp, text);
        var upper := board.config.GetAxisElement(ids[k], (n: Node) => Get(n, UpperLimitElement), 0);
        var lower := board.config.GetAxisElement(ids[k], (n: Node) => Get(n, LowerLimitElement), 0);
        text := text + SavedLine(board.axes, ids[k], bp[ids[k]], upper, lower);
        k := k + 1;
      }
      SavedTextStep(board.axes, board.config.nodes, ids, k, bp, text);
    }

    method SoftLimitsRequest(show: real -> string) returns (out: Outcome)
      ensures out == SoftLimitsReply(board.Abs(), show)
    {
      hide UserLimits, PositionText, KeysInOrder;
      var lsl := board.CreatePosition();
      var usl := board.CreatePosition();
      board.GetSoftLimits(lsl, LowerLimitElement);
      board.GetSoftLimits(usl, UpperLimitElement);
      var upper := usl.GetPositionString(NameAndUnit(board.axes), show);
      var lower := lsl.GetPositionString(NameAndUnit(board.axes), show);
      out := Text("upper softlimits:\n" + upper + "\nlower softlimits:\n" + lower);
    }

    method ForwardRequest(data: string) returns (out: Outcome)
      modifies board
      ensures (board.Abs(), out) == Forward(old(board.Abs()), data)
    {
      var ret, text := board.SendCommand(Raw(data));
      out := if ret < 0 then Failure(board.latestError) else Text(text);
    }

    /** Jog on and off: the controller's own text is shown for an error reply. */
    method JogRequest(on: bool) returns (out: Outcome)
      modifies board
      ensures board.Abs() == Send(old(board.Abs()), if on then JogOn else JogOff)
      ensures out == CommandOutcome(Answer(old(board.serial)), BufferText(Answer(old(board.serial))))
    {
      var ret, text := board.SendCommand(if on then JogOn else JogOff);
      out := if ret == 0 then SUCCESS else if ret == -1 then Failure(text) else Failure(SHORT_REPLY);
    }

    method SelectRequest(id: nat) returns (out: Outcome)
      modifies board
      ensures board.Abs() == SetAxisNum(old(board.Abs()), id)
      ensures out == CommandOutcome(Answer(old(board.serial)), REJECTED)
    {
      var ret := board.SetAxisNum(id);
      out := if ret == 0 then SUCCESS else if ret == -1 then Failure(REJECTED) else Failure(SHORT_REPLY);
    }

    method InitialZeroRequest() returns (out: Outcome)
      requires Valid(board.Abs())
      modifies board, board.config
      ensures (board.Abs(), out) == InitialZeroCommand(old(board.Abs()))
    {
      hide SetInitialZero;
      if !board.init_ {
        return Failure("initialzero not allowed in normal mode");
      }
      var ret := board.SetInitialZero();
      out := SUCCESS;
    }

    method SetRequest(what: string) returns (out: Outcome)
      requires Valid(board.Abs())
      modifies board, board.config
      ensures (board.Abs(), out) == SetCommand(old(board.Abs()), what)
    {
      hide SetZero, Send, CommandOutcome;
      if what == "jog" {
        out := JogRequest(true);
      } else if what == "zero" {
        var ret := board.SetZero();
        out := SUCCESS;
      } else {
        out := Failure("invalid set command (check syntax)");
      }
    }

    /** `process_msg` for everything but the plain words. */
    method CommandRequest(data: string) returns (out: Outcome)
      requires Valid(board.Abs())
      modifies board, board.config
      ensures (board.Abs(), out) == Respond(old(board.Abs()), ClassifyCommand(data), fmt)
    {
      hide SetCommand, Move, Send, CommandOutcome, PassThrough, SelectedAxis, Forward, Valid, SetAxisNum, InitialZeroCommand,
        BarePositions, Positions, AxesReply, Save, SoftLimitsReply;
      if SelectedAxis(data).Some? {
        out := SelectRequest(SelectedAxis(data).value);
      } else if Starts(data, "set ") {
        out := SetRequest(data[4..]);
      } else if Starts(data, "unset ") {
        if data[6..] == "jog" {
          out := JogRequest(false);
        } else {
          out := Failure("invalid unset command (check syntax)");
        }
      } else if Starts(data, "ma ") || Starts(data, "mr ") {
        out := MoveRequest(data[3..], data[1] != 'a', fmt.read);
      } else if PassThrough(data) {
        out := ForwardRequest(data);
      } else {
        out := Failure("invalid command (check syntax)");
      }
    }

    /** `process_msg`. */
    method ProcessMsg(data: string) returns (out: Outcome)
      requires Valid(board.Abs())
      modifies board, board.config
      ensures (board.Abs(), out) == Handle(old(board.Abs()), data, fmt)
    {
      hide InitialZeroCommand, BarePositions, Positions, AxesReply, Save, SoftLimitsReply, SetAxisNum, CommandOutcome,
        ClassifyCommand, Move, SetCommand, UnsetCommand, Forward, Valid;
      if data == "help" {
        out := Text(fmt.help);
      } else if data == "close" {
        out := Text("stopping current session");
      } else if data == "state" {
        out := Text(if board.init_ then "initialize" else "normal");
      } else if data == "initialzero" {
        out := InitialZeroRequest();
      } else if data == "pbp" {
        out := BarePositionsRequest();
      } else if data == "pp" {
        out := PositionsRequest(fmt.show);
      } else if data == "ga" {
        out := AxesRequest();
      } else if data == "savexml" {
        out := SaveRequest();
      } else if data == "psl" {
        out := SoftLimitsRequest(fmt.show);
      } else {
        out := CommandRequest(data);
      }
    }
  }
}
