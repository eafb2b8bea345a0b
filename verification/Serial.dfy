/** The serial read loop and the reading of a controller reply (src/core/IAPBoard.cpp:216-299,
    src/core/ctb.cpp:123-153). What the port delivers is a schedule of reads; an empty string is a
    read that returned nothing. */
module Serial {
  import opened Basics
  import opened Controller

  const BUFFER_SIZE := 1024

  // ----- schedules of reads -----

  function Flatten(chunks: seq<string>): string {
    if chunks == [] then "" else chunks[0] + Flatten(chunks[1..])
  }

  /** The reads up to the next empty one. */
  function Unbroken(polls: seq<string>): seq<string> {
    if polls == [] || polls[0] == "" then [] else [polls[0]] + Unbroken(polls[1..])
  }

  /** The first unbroken burst of non-empty reads. */
  function FirstBurst(polls: seq<string>): seq<string> {
    if polls == [] then [] else if polls[0] == "" then FirstBurst(polls[1..]) else Unbroken(polls)
  }

  /** An empty read follows a non-empty one. */
  ghost predicate BurstEnds(polls: seq<string>) {
    exists i, j :: 0 <= i < j < |polls| && polls[i] != "" && polls[j] == ""
  }

  /** Text of a C buffer: up to the first NUL. */
  function CString(s: seq<char>): string {
    if s == [] || s[0] == NUL then "" else [s[0]] + CString(s[1..])
  }

  lemma {:induction false} CStringOf(text: string, rest: seq<char>)
    requires NulFree(text) && rest != [] && rest[0] == NUL
    ensures CString(text + rest) == text
    decreases |text|
  {
    if text == [] {
      assert text + rest == rest;
    } else {
      assert (text + rest)[1..] == text[1..] + rest;
      CStringOf(text[1..], rest);
    }
  }

  lemma {:induction false} FlattenAppend(a: seq<string>, b: seq<string>)
    ensures Flatten(a + b) == Flatten(a) + Flatten(b)
    decreases |a|
  {
    if a == [] {
      assert a + b == b;
    } else {
      assert (a + b)[1..] == a[1..] + b;
      FlattenAppend(a[1..], b);
    }
  }

  // The same, along the schedule: before and inside the first burst.

  predicate Ends(polls: seq<string>) {
    polls != [] && if polls[0] == "" then Ends(polls[1..]) else EndsInside(polls)
  }

  predicate EndsInside(polls: seq<string>) {
    polls != [] && (polls[0] == "" || EndsInside(polls[1..]))
  }

  lemma {:induction false} EndsInsideIff(polls: seq<string>)
    ensures EndsInside(polls) <==> exists j :: 0 <= j < |polls| && polls[j] == ""
    decreases |polls|
  {
    if polls != [] && polls[0] != "" {
      EndsInsideIff(polls[1..]);
      if j :| 0 <= j < |polls| && polls[j] == "" {
        assert polls[1..][j - 1] == "";
      }
    }
  }

  lemma {:induction false} EndsIff(polls: seq<string>)
    ensures Ends(polls) <==> BurstEnds(polls)
    decreases |polls|
  {
    if polls != [] {
      var rest := polls[1..];
      if polls[0] == "" {
        EndsIff(rest);
        if i, j :| 0 <= i < j < |polls| && polls[i] != "" && polls[j] == "" {
          assert rest[i - 1] != "" && rest[j - 1] == "";
        }
        if i, j :| 0 <= i < j < |rest| && rest[i] != "" && rest[j] == "" {
          assert polls[i + 1] != "" && polls[j + 1] == "";
        }
      } else {
        EndsInsideIff(polls);
        if j :| 0 <= j < |polls| && polls[j] == "" {
          assert polls[0] != "" && polls[j] == "";
        }
      }
    }
  }

  // ----- the read loop -----

  /** `receive`: the chunk lands at `idx` and is terminated behind it. */
  method Receive(buffer: array<char>, idx: nat, chunk: string) returns (len: nat)
    requires idx + |chunk| < buffer.Length
    modifies buffer
    ensures len == |chunk|
    ensures buffer[..idx] == old(buffer[..idx])
    ensures chunk != "" ==> buffer[..idx + |chunk|] == old(buffer[..idx]) + chunk && buffer[idx + |chunk|] == NUL
    ensures chunk == "" ==> buffer[..] == old(buffer[..])
  {
    len := |chunk|;
    var k := 0;
    while k < len
      invariant 0 <= k <= len
      invariant buffer[..idx] == old(buffer[..idx])
      invariant forall j :: 0 <= j < k ==> buffer[idx + j] == chunk[j]
      invariant k == 0 ==> buffer[..] == old(buffer[..])
    {
      buffer[idx + k] := chunk[k];
      k := k + 1;
    }
    if len > 0 {
      buffer[idx + len] := NUL;
      assert buffer[..idx + len] == buffer[..idx] + chunk;
    }
  }

  /** `send_lowlevel` after the command went out. The result is None while the given reads do not
      make the loop end, that is exactly while no empty read has followed a non-empty one;
      otherwise it is the first unbroken burst, whatever its chunks. Every write stays inside the
      buffer. */
  method ReadReply(buffer: array<char>, polls: seq<string>) returns (reply: Option<string>)
    requires buffer.Length == BUFFER_SIZE
    requires forall k :: 0 <= k < |polls| ==> NulFree(polls[k])
    requires |Flatten(FirstBurst(polls))| < BUFFER_SIZE
    modifies buffer
    ensures reply.Some? <==> BurstEnds(polls)
    ensures reply.Some? ==> reply.value == Flatten(FirstBurst(polls))
  {
    EndsIff(polls);
    var readflag, len, idx := false, 0, 0;
    var k := 0;
    ghost var burst: seq<string> := [];
    assert polls[0..] == polls;
    while k < |polls|
      invariant 0 <= k <= |polls|
      invariant Reading(polls, polls[k..], burst, readflag)
      invariant idx == |Flatten(burst)| < BUFFER_SIZE
      invariant buffer[..idx] == Flatten(burst) && NulFree(buffer[..idx])
      invariant readflag ==> buffer[idx] == NUL
    {
      var chunk := polls[k];
      assert polls[k..][0] == chunk && polls[k..][1..] == polls[k + 1..];
      NextPoll(polls, polls[k..], burst, readflag);
      len := Receive(buffer, idx, chunk);
      if len <= 0 {
        if readflag {
          assert buffer[..] == buffer[..idx] + buffer[idx..];
          CStringOf(buffer[..idx], buffer[idx..]);
          return Some(CString(buffer[..]));
        }
      } else {
        burst := burst + [chunk];
        readflag := true;
        idx := idx + len;
      }
      k := k + 1;
    }
    return None;
  }

  /** Where the loop stands: `rest` is still to come, `burst` has been stored. */
  ghost predicate Reading(polls: seq<string>, rest: seq<string>, burst: seq<string>, readflag: bool) {
    if readflag then FirstBurst(polls) == burst + Unbroken(rest) && (Ends(polls) <==> EndsInside(rest))
    else burst == [] && FirstBurst(polls) == FirstBurst(rest) && (Ends(polls) <==> Ends(rest))
  }

  lemma NextPoll(polls: seq<string>, rest: seq<string>, burst: seq<string>, readflag: bool)
    requires Reading(polls, rest, burst, readflag) && rest != []
    ensures rest[0] == "" && readflag ==> Ends(polls) && FirstBurst(polls) == burst
    ensures rest[0] == "" && !readflag ==> Reading(polls, rest[1..], burst, false)
    ensures rest[0] != "" ==>
      Reading(polls, rest[1..], burst + [rest[0]], true)
      && Flatten(burst + [rest[0]]) == Flatten(burst) + rest[0]
      && |Flatten(burst)| + |rest[0]| <= |Flatten(FirstBurst(polls))|
  {
    if rest[0] != "" {
      var next := burst + [rest[0]];
      assert burst + ([rest[0]] + Unbroken(rest[1..])) == next + Unbroken(rest[1..]);
      FlattenAppend(burst, [rest[0]]);
      FlattenAppend(next, Unbroken(rest[1..]));
      assert Flatten([rest[0]]) == rest[0];
    }
  }

  // ----- independence of the chunks -----

  function Empties(n: nat): seq<string> {
    if n == 0 then [] else [""] + Empties(n - 1)
  }

  lemma {:induction false} UnbrokenChunks(chunks: seq<string>, tail: seq<string>)
    requires forall k :: 0 <= k < |chunks| ==> chunks[k] != ""
    ensures Unbroken(chunks + [""] + tail) == chunks && EndsInside(chunks + [""] + tail)
    decreases |chunks|
  {
    var polls := chunks + [""] + tail;
    if chunks != [] {
      assert polls[1..] == chunks[1..] + [""] + tail;
      UnbrokenChunks(chunks[1..], tail);
    }
  }

  /** However a reply is cut into reads, however long the line was silent before and whatever
      follows the pause: the loop ends and the reply is the concatenation. */
  lemma {:induction false} ChunkingIrrelevant(silence: nat, chunks: seq<string>, tail: seq<string>)
    requires chunks != [] && forall k :: 0 <= k < |chunks| ==> chunks[k] != ""
    ensures var polls := Empties(silence) + (chunks + [""] + tail);
      BurstEnds(polls) && Flatten(FirstBurst(polls)) == Flatten(chunks)
    decreases silence
  {
    var polls := Empties(silence) + (chunks + [""] + tail);
    if silence == 0 {
      assert polls == chunks + [""] + tail;
      UnbrokenChunks(chunks, tail);
      assert polls[0] == chunks[0];
    } else {
      assert polls[1..] == Empties(silence - 1) + (chunks + [""] + tail);
      ChunkingIrrelevant(silence - 1, chunks, tail);
      EndsIff(polls[1..]);
    }
    EndsIff(polls);
  }

  // ----- reading the reply -----

  function SkipBlanks(s: string): string {
    if s != [] && s[0] == ' ' then SkipBlanks(s[1..]) else s
  }

  /** `strip_ctrl_junk`; None stands for the `out_of_range` that `substr` throws. */
  function StripCtrlJunk(reply: string): Option<string>
    requires |reply| >= 5
  {
    var start := if reply[3] == '!' then 4 else 3;
    var front := reply[..|reply| - 2];
    if start > |front| || SkipBlanks(front[start..]) == [] then None else Some(SkipBlanks(front[start..]))
  }

  datatype Verdict = TooShort | Thrown | Okay(text: string) | Failed(text: string)

  /** `send_command` on a complete reply. */
  function Judge(reply: string): Verdict {
    if |reply| < 5 then TooShort
    else match StripCtrlJunk(reply)
      case None => Thrown
      case Some(text) => if reply[3] == '!' then Failed(text) else Okay(text)
  }

  /** A judged reply as the controller model has it; None when the stripping throws. */
  function ReplyOf(reply: string, stale: string): Option<Reply> {
    match Judge(reply)
    case TooShort => Some(Short(stale))
    case Thrown => None
    case Okay(text) => Some(Accepted(text))
    case Failed(text) => Some(Rejected(text))
  }

  function Blanks(n: nat): string {
    if n == 0 then "" else " " + Blanks(n - 1)
  }

  lemma {:induction false} SkipBlanksOf(n: nat, body: string)
    ensures SkipBlanks(Blanks(n) + body) == SkipBlanks(body)
    decreases n
  {
    if n == 0 {
      assert Blanks(n) + body == body;
    } else {
      assert (Blanks(n) + body)[1..] == Blanks(n - 1) + body;
      SkipBlanksOf(n - 1, body);
    }
  }

  /** A reply `01:` blanks body CR LF is accepted with exactly the body as text; with a `!` right
      after the colon it is an error message with that text. Only the fourth character decides. */
  lemma ReplyShapes(addr: string, blanks: nat, body: string)
    requires |addr| == 3 && body != [] && body[0] != ' '
    ensures blanks > 0 || body[0] != '!' ==> Judge(addr + Blanks(blanks) + body + "\r\n") == Okay(body)
    ensures Judge(addr + "!" + Blanks(blanks) + body + "\r\n") == Failed(body)
  {
    var text := Blanks(blanks) + body;
    SkipBlanksOf(blanks, body);
    var good := addr + Blanks(blanks) + body + "\r\n";
    assert good == addr + text + "\r\n";
    assert good[..|good| - 2][3..] == text;
    assert good[3] == text[0];
    var bad := addr + "!" + Blanks(blanks) + body + "\r\n";
    assert bad == addr + "!" + text + "\r\n";
    assert bad[..|bad| - 2][4..] == text;
  }

  lemma {:induction false} SkipBlanksEmpty(s: string)
    ensures SkipBlanks(s) == [] <==> forall k :: 0 <= k < |s| ==> s[k] == ' '
    decreases |s|
  {
    if s != [] && s[0] == ' ' {
      SkipBlanksEmpty(s[1..]);
      assert forall k :: 1 <= k < |s| ==> s[k] == s[1..][k - 1];
    }
  }

  lemma {:induction false} SkippedBlanks(s: string)
    ensures exists n: nat :: s == Blanks(n) + SkipBlanks(s)
    ensures SkipBlanks(s) != "" ==> SkipBlanks(s)[0] != ' '
    decreases |s|
  {
    if s != "" && s[0] == ' ' {
      SkippedBlanks(s[1..]);
      var n: nat :| s[1..] == Blanks(n) + SkipBlanks(s[1..]);
      assert s == Blanks(n + 1) + SkipBlanks(s);
    } else {
      assert s == Blanks(0) + s;
    }
  }

  /** The reply is three characters, perhaps a `!`, blanks, this text, and two more characters. */
  ghost predicate Framed(reply: string, mark: string, text: string) {
    && |reply| >= 5 && text != "" && text[0] != ' '
    && exists n: nat :: reply == reply[..3] + mark + Blanks(n) + text + reply[|reply| - 2..]
  }

  lemma FramedBy(reply: string, mark: string, text: string, n: nat)
    requires |reply| >= 5 && text != "" && text[0] != ' '
    requires 3 + |mark| <= |reply| - 2 && reply[3..3 + |mark|] == mark
    requires reply[3 + |mark|..|reply| - 2] == Blanks(n) + text
    ensures Framed(reply, mark, text)
  {
    assert reply == reply[..3] + reply[3..3 + |mark|] + reply[3 + |mark|..|reply| - 2] + reply[|reply| - 2..];
    assert mark + (Blanks(n) + text) == mark + Blanks(n) + text;
    assert reply == reply[..3] + mark + Blanks(n) + text + reply[|reply| - 2..];
  }

  /** What every reply is judged to be: too short below five characters; otherwise an error exactly when its
      fourth character is a `!`, with the text behind that mark, unless the stripping throws. */
  lemma JudgedExactly(reply: string, stale: string)
    ensures |reply| < 5 <==> Judge(reply) == TooShort
    ensures |reply| < 5 ==> ReplyOf(reply, stale) == Some(Short(stale))
    ensures Judge(reply).Okay? ==>
      reply[3] != '!' && Framed(reply, "", Judge(reply).text) && ReplyOf(reply, stale) == Some(Accepted(Judge(reply).text))
    ensures Judge(reply).Failed? ==>
      reply[3] == '!' && Framed(reply, "!", Judge(reply).text) && ReplyOf(reply, stale) == Some(Rejected(Judge(reply).text))
  {
    if |reply| >= 5 && StripCtrlJunk(reply).Some? {
      StrippedFrame(reply);
    }
    hide StripCtrlJunk, Framed;
  }

  lemma StrippedFrame(reply: string)
    requires |reply| >= 5 && StripCtrlJunk(reply).Some?
    ensures Framed(reply, if reply[3] == '!' then "!" else "", StripCtrlJunk(reply).value)
  {
    var mark := if reply[3] == '!' then "!" else "";
    var text := StripCtrlJunk(reply).value;
    var inner := reply[3 + |mark|..|reply| - 2];
    assert reply[..|reply| - 2][3 + |mark|..] == inner;
    hide StripCtrlJunk, SkipBlanks, Blanks;
    SkippedBlanks(inner);
    var n: nat :| inner == Blanks(n) + SkipBlanks(inner);
    FramedBy(reply, mark, text, n);
  }

  /** The stripping throws exactly when there is nothing but blanks between the leading three (or,
      with a `!`, four) characters and the last two. */
  lemma ThrowsExactly(reply: string)
    requires |reply| >= 5
    ensures StripCtrlJunk(reply) == None <==>
      forall k :: (if reply[3] == '!' then 4 else 3) <= k < |reply| - 2 ==> reply[k] == ' '
  {
    var start := if reply[3] == '!' then 4 else 3;
    var front := reply[..|reply| - 2];
    if start <= |front| {
      SkipBlanksEmpty(front[start..]);
      assert forall k :: start <= k < |front| ==> front[start..][k - start] == reply[k];
    }
  }
}
