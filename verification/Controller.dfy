/** The PM381 stepper controller behind the serial line, as far as the board software relies on
    it. This is the model's only assumption about the hardware: an accepted command has the effect
    of `Perform`, any other reply leaves the controller alone, and which commands are accepted is
    completely open. */
module Controller {
  import opened Basics
  import opened Decimal
  import opened Report

  /** The parameters the board keeps for an axis, in its object, its file and on the chip. */
  datatype Settings = Settings(
    baseSpeed: int, slewSpeed: int, slowJogSpeed: int, fastJogSpeed: int, creepSteps: int,
    accel: int, lowerLimit: int, upperLimit: int, position: int)

  datatype Register =
    | BaseSpeed | SlewSpeed | SlowJogSpeed | FastJogSpeed | CreepSteps
    | Accel | LowerLimit | UpperLimit | Position

  /** `Raw` is a command that a client had passed through. */
  datatype Command =
    | Identify
    | ChannelCount(n: nat)
    | Select(id: nat)
    | MoveRel(delta: int)
    | MoveAbs(target: int)
    | Write(reg: Register, value: int)
    | QueryPositions
    | JogOn
    | JogOff
    | Raw(text: string)

  function WriteMnemonic(reg: Register): (m: string)
    ensures |m| == 3
  {
    match reg
    case BaseSpeed => "1sb"
    case SlewSpeed => "1sv"
    case SlowJogSpeed => "1sj"
    case FastJogSpeed => "1sf"
    case CreepSteps => "1cr"
    case Accel => "1sa"
    case LowerLimit => "1ll"
    case UpperLimit => "1ul"
    case Position => "1sp"
  }

  function Mnemonic(cmd: Command): (m: string)
    requires !cmd.Raw?
    ensures |m| == 3
  {
    match cmd
    case Identify => "1ID"
    case ChannelCount(_) => "1NC"
    case Select(_) => "1CH"
    case MoveRel(_) => "1MR"
    case MoveAbs(_) => "1MA"
    case Write(reg, _) => WriteMnemonic(reg)
    case QueryPositions => "1QP"
    case JogOn => "1AR"
    case JogOff => "1IR"
  }

  function Argument(cmd: Command): string {
    match cmd
    case ChannelCount(n) => NatText(n)
    case Select(id) => NatText(id)
    case MoveRel(d) => IntText(d)
    case MoveAbs(t) => IntText(t)
    case Write(_, v) => IntText(v)
    case _ => ""
  }

  /** The text that is sent for a command. */
  function CommandText(cmd: Command): string {
    if cmd.Raw? then cmd.text else Mnemonic(cmd) + Argument(cmd)
  }

  /** The text determines the command among those the board software itself sends. */
  lemma CommandTextInjective(a: Command, b: Command)
    requires !a.Raw? && !b.Raw?
    requires CommandText(a) == CommandText(b)
    ensures a == b
  {
    assert CommandText(a)[..3] == Mnemonic(a) && CommandText(b)[..3] == Mnemonic(b);
    assert CommandText(a)[3..] == Argument(a) && CommandText(b)[3..] == Argument(b);
    hide NatText, CommandText;
    SameMnemonic(a, b);
    SameArgument(a, b);
  }

  lemma SameMnemonic(a: Command, b: Command)
    requires !a.Raw? && !b.Raw?
    requires Mnemonic(a) == Mnemonic(b)
    ensures a.Identify? <==> b.Identify?
    ensures a.ChannelCount? <==> b.ChannelCount?
    ensures a.Select? <==> b.Select?
    ensures a.MoveRel? <==> b.MoveRel?
    ensures a.MoveAbs? <==> b.MoveAbs?
    ensures a.Write? <==> b.Write?
    ensures a.Write? && b.Write? ==> a.reg == b.reg
    ensures a.QueryPositions? <==> b.QueryPositions?
    ensures a.JogOn? <==> b.JogOn?
  {
    var x, y := Mnemonic(a), Mnemonic(b);
    assert x[0] == y[0] && x[1] == y[1] && x[2] == y[2];
  }

  lemma SameArgument(a: Command, b: Command)
    requires Argument(a) == Argument(b)
    ensures a.Select? && b.Select? ==> a.id == b.id
    ensures a.ChannelCount? && b.ChannelCount? ==> a.n == b.n
    ensures a.MoveRel? && b.MoveRel? ==> a.delta == b.delta
    ensures a.MoveAbs? && b.MoveAbs? ==> a.target == b.target
    ensures a.Write? && b.Write? ==> a.value == b.value
  {
    hide NatText;
    match (a, b)
    case (Select(i), Select(j)) => assert IntText(i) == IntText(j); IntTextInjective(i, j);
    case (ChannelCount(i), ChannelCount(j)) => assert IntText(i) == IntText(j); IntTextInjective(i, j);
    case (MoveRel(i), MoveRel(j)) => IntTextInjective(i, j);
    case (MoveAbs(i), MoveAbs(j)) => IntTextInjective(i, j);
    case (Write(_, i), Write(_, j)) => IntTextInjective(i, j);
    case _ =>
  }

  /** A reply as `send_command` classifies it: an error message starts with `!`; a reply of fewer
      than five characters is not stored at all, so the caller's buffer keeps stale text. */
  datatype Reply = Accepted(text: string) | Rejected(text: string) | Short(stale: string)

  /** Return code of `send_command` (include/IAPBoard.hpp:33-39). */
  function Code(r: Reply): int {
    match r
    case Accepted(_) => 0
    case Rejected(_) => -1
    case Short(_) => -2
  }

  /** What the caller's buffer holds after the command. */
  function BufferText(r: Reply): string {
    match r
    case Accepted(t) => t
    case Rejected(t) => t
    case Short(t) => t
  }

  datatype PM381 = PM381(selected: nat, channels: map<nat, Settings>)

  const POWER_ON := Settings(0, 0, 0, 0, 0, 0, 0, 0, 0)

  function Channel(c: PM381, id: nat): Settings {
    if id in c.channels then c.channels[id] else POWER_ON
  }

  function PositionOf(c: PM381, id: nat): int {
    Channel(c, id).position
  }

  function WithRegister(s: Settings, reg: Register, value: int): Settings {
    match reg
    case BaseSpeed => s.(baseSpeed := value)
    case SlewSpeed => s.(slewSpeed := value)
    case SlowJogSpeed => s.(slowJogSpeed := value)
    case FastJogSpeed => s.(fastJogSpeed := value)
    case CreepSteps => s.(creepSteps := value)
    case Accel => s.(accel := value)
    case LowerLimit => s.(lowerLimit := value)
    case UpperLimit => s.(upperLimit := value)
    case Position => s.(position := value)
  }

  function RegisterOf(s: Settings, reg: Register): int {
    match reg
    case BaseSpeed => s.baseSpeed
    case SlewSpeed => s.slewSpeed
    case SlowJogSpeed => s.slowJogSpeed
    case FastJogSpeed => s.fastJogSpeed
    case CreepSteps => s.creepSteps
    case Accel => s.accel
    case LowerLimit => s.lowerLimit
    case UpperLimit => s.upperLimit
    case Position => s.position
  }

  /** The order in which `Axis::UpdateConfiguration` writes them (src/core/IAPBoard.cpp:93-101). */
  const ALL_REGISTERS: seq<Register> :=
    [BaseSpeed, SlewSpeed, SlowJogSpeed, FastJogSpeed, CreepSteps, Accel, LowerLimit, UpperLimit, Position]

  lemma SameRegisters(a: Settings, b: Settings)
    requires forall reg :: reg in ALL_REGISTERS ==> RegisterOf(a, reg) == RegisterOf(b, reg)
    ensures a == b
  {
    assert ALL_REGISTERS[0] == BaseSpeed && ALL_REGISTERS[1] == SlewSpeed && ALL_REGISTERS[2] == SlowJogSpeed;
    assert ALL_REGISTERS[3] == FastJogSpeed && ALL_REGISTERS[4] == CreepSteps && ALL_REGISTERS[5] == Accel;
    assert ALL_REGISTERS[6] == LowerLimit && ALL_REGISTERS[7] == UpperLimit && ALL_REGISTERS[8] == Position;
    assert RegisterOf(a, BaseSpeed) == RegisterOf(b, BaseSpeed) && RegisterOf(a, SlewSpeed) == RegisterOf(b, SlewSpeed);
    assert RegisterOf(a, SlowJogSpeed) == RegisterOf(b, SlowJogSpeed) && RegisterOf(a, FastJogSpeed) == RegisterOf(b, FastJogSpeed);
    assert RegisterOf(a, CreepSteps) == RegisterOf(b, CreepSteps) && RegisterOf(a, Accel) == RegisterOf(b, Accel);
    assert RegisterOf(a, LowerLimit) == RegisterOf(b, LowerLimit) && RegisterOf(a, UpperLimit) == RegisterOf(b, UpperLimit);
    assert RegisterOf(a, Position) == RegisterOf(b, Position);
  }

  /** The effect of an accepted command. Moves and register writes act on the selected channel; what a
      passed-through command does is left open. */
  function Perform(c: PM381, cmd: Command, passed: (PM381, string) -> PM381): PM381 {
    var now := Channel(c, c.selected);
    match cmd
    case Select(id) => c.(selected := id)
    case MoveRel(d) => c.(channels := c.channels[c.selected := now.(position := now.position + d)])
    case MoveAbs(p) => c.(channels := c.channels[c.selected := now.(position := p)])
    case Write(reg, v) => c.(channels := c.channels[c.selected := WithRegister(now, reg, v)])
    case Identify => c
    case ChannelCount(_) => c
    case QueryPositions => c
    case JogOn => c
    case JogOff => c
    case Raw(text) => passed(c, text)
  }

  /** One command as it went over the line: the reply it got and the controller it met. */
  datatype Event = Event(cmd: Command, reply: Reply, before: PM381)

  /** The serial connection. `replies(k)` is the controller's answer to the k-th command; as a
      function of k it covers every pattern of accepted and rejected commands. `passed` is what
      commands do that only clients send. */
  datatype Link = Link(replies: nat -> Reply, passed: (PM381, string) -> PM381, ctrl: PM381, log: seq<Event>)

  function Answer(l: Link): Reply {
    l.replies(|l.log|)
  }

  function Transmit(l: Link, cmd: Command): Link {
    var r := Answer(l);
    l.(ctrl := if r.Accepted? then Perform(l.ctrl, cmd, l.passed) else l.ctrl,
       log := l.log + [Event(cmd, r, l.ctrl)])
  }

  // ----- what a stretch of the log may be assumed to contain -----

  ghost predicate Extends(l: Link, later: Link) {
    |l.log| <= |later.log| && later.log[..|l.log|] == l.log
  }

  ghost predicate AllAccepted(l: Link, from: nat) {
    forall k :: from <= k < |l.log| ==> l.log[k].reply.Accepted?
  }

  ghost predicate SelectsAccepted(l: Link, from: nat) {
    forall k :: from <= k < |l.log| && l.log[k].cmd.Select? ==> l.log[k].reply.Accepted?
  }

  ghost predicate MovesAccepted(l: Link, from: nat) {
    forall k :: from <= k < |l.log| && (l.log[k].cmd.MoveAbs? || l.log[k].cmd.MoveRel?)
      ==> l.log[k].reply.Accepted?
  }

  /** A report that lists the controller's true positions, for all of `ids`, in any order. */
  ghost predicate FaithfulReport(text: string, c: PM381, ids: set<nat>) {
    exists es: seq<Entry>, tail: string :: ReportOf(es, tail, text, c, ids)
  }

  ghost predicate ReportOf(es: seq<Entry>, tail: string, text: string, c: PM381, ids: set<nat>) {
    && WellSpaced(es, tail) && text == Render(es, tail)
    && (forall k :: 0 <= k < |es| ==> es[k].id < 10 && es[k].value == PositionOf(c, es[k].id))
    && (forall x :: x in ids ==> exists k :: 0 <= k < |es| && es[k].id == x)
  }

  /** A report of these channels: blank, id, value. */
  function Listing(c: PM381, order: seq<nat>): seq<Entry> {
    seq(|order|, i requires 0 <= i < |order| => Entry(" ", order[i], PositionOf(c, order[i])))
  }

  lemma ListingSpaced(c: PM381, order: seq<nat>)
    ensures WellSpaced(Listing(c, order), "")
  {
    hide PositionOf;
    assert Quiet(" ") && Quiet("");
  }

  lemma ListingReports(c: PM381, order: seq<nat>, ids: set<nat>)
    requires forall x :: x in ids <==> x in order
    requires forall x :: x in ids ==> x < 10
    ensures ReportOf(Listing(c, order), "", Render(Listing(c, order), ""), c, ids)
  {
    ListingSpaced(c, order);
    hide PositionOf, Render, WellSpaced;
    var es := Listing(c, order);
    forall k | 0 <= k < |es| ensures es[k].id < 10 {
      assert order[k] in order;
    }
    forall x | x in ids ensures exists k :: 0 <= k < |es| && es[k].id == x {
      var k :| 0 <= k < |order| && order[k] == x;
      assert es[k].id == x;
    }
  }

  lemma ListingFaithful(c: PM381, order: seq<nat>, ids: set<nat>)
    requires forall x :: x in ids <==> x in order
    requires forall x :: x in ids ==> x < 10
    ensures FaithfulReport(Render(Listing(c, order), ""), c, ids)
  {
    ListingReports(c, order, ids);
    hide ReportOf, Listing, Render;
  }

  /** The walk recovers the true position of all these ids from the text. */
  ghost predicate Recovers(text: string, c: PM381, ids: set<nat>) {
    forall x :: x in ids ==> x in Merge(map[], Scan(text), ids) && Merge(map[], Scan(text), ids)[x] == PositionOf(c, x)
  }

  lemma {:induction false} ScanDigits(text: string, k: nat)
    requires k < |Scan(text)|
    ensures Scan(text)[k].id < 10
    decreases |text|
  {
    if MatchLen(text) == 0 {
      ScanDigits(text[1..], k);
    } else if k > 0 {
      ScanDigits(text[MatchLen(text)..], k - 1);
    }
  }

  lemma RecoveredDigit(text: string, c: PM381, ids: set<nat>, x: nat)
    requires Recovers(text, c, ids) && x in ids
    ensures x < 10
  {
    if x >= 10 {
      hide Scan, Merge, PositionOf;
      forall k | 0 <= k < |Scan(text)| ensures Scan(text)[k].id != x {
        ScanDigits(text, k);
      }
      MergeKeeps(map[], Scan(text), ids, x);
    }
  }

  lemma FaithfulRecovers(text: string, c: PM381, ids: set<nat>)
    requires FaithfulReport(text, c, ids)
    ensures Recovers(text, c, ids)
  {
    hide FaithfulReport, Merge, Scan, PositionOf;
    forall x | x in ids
      ensures x in Merge(map[], Scan(text), ids) && Merge(map[], Scan(text), ids)[x] == PositionOf(c, x)
    {
      FaithfulReading(text, c, ids, map[], x);
    }
  }

  /** Some text lets the walk recover the true positions of these ids exactly when all of them are
      single digits: no report whatever gets through the position of axis 10. */
  lemma FaithfulReportExists(c: PM381, ids: set<nat>)
    ensures (exists text: string :: Recovers(text, c, ids)) <==> forall x :: x in ids ==> x < 10
    ensures (exists text: string :: FaithfulReport(text, c, ids)) <==> forall x :: x in ids ==> x < 10
  {
    hide ReportOf, Listing, Render, Recovers, FaithfulReport;
    if text: string :| Recovers(text, c, ids) {
      forall x | x in ids ensures x < 10 {
        RecoveredDigit(text, c, ids, x);
      }
    }
    if text: string :| FaithfulReport(text, c, ids) {
      FaithfulRecovers(text, c, ids);
    }
    if forall x :: x in ids ==> x < 10 {
      SortedIdsSpec(ids);
      ListingFaithful(c, SortedIds(ids), ids);
      FaithfulRecovers(Render(Listing(c, SortedIds(ids)), ""), c, ids);
    }
  }

  /** A faithful report, scanned and stored, gives every listed id its true position. */
  lemma FaithfulReading(text: string, c: PM381, ids: set<nat>, bp: map<nat, int>, x: nat)
    requires FaithfulReport(text, c, ids)
    ensures x in ids ==> x in Merge(bp, Scan(text), ids) && Merge(bp, Scan(text), ids)[x] == PositionOf(c, x)
    ensures x !in ids ==> (x in Merge(bp, Scan(text), ids) <==> x in bp)
    ensures x !in ids && x in bp ==> Merge(bp, Scan(text), ids)[x] == bp[x]
  {
    var es: seq<Entry>, tail: string :| ReportOf(es, tail, text, c, ids);
    ReportReadFaithfully(es, tail);
    if x in ids {
      var k :| 0 <= k < |es| && es[k].id == x;
      TrueReadings(es, c, k, bp, ids);
    } else {
      MergeKeeps(bp, Scan(text), ids, x);
    }
  }

  lemma TrueReadings(es: seq<Entry>, c: PM381, k: nat, bp: map<nat, int>, ids: set<nat>)
    requires forall i :: 0 <= i < |es| ==> es[i].value == PositionOf(c, es[i].id)
    requires k < |es| && es[k].id in ids
    ensures es[k].id in Merge(bp, Intended(es), ids)
    ensures Merge(bp, Intended(es), ids)[es[k].id] == PositionOf(c, es[k].id)
  {
    var rs := Intended(es);
    var truth := (id: nat) => PositionOf(c, id);
    assert forall i :: 0 <= i < |rs| ==> rs[i] == Reading(es[i].id, es[i].value);
    assert forall i :: 0 <= i < |rs| ==> rs[i].value == truth(rs[i].id);
    assert rs[k].id == es[k].id;
    MergeTruth(bp, rs, ids, truth, es[k].id);
  }
}
