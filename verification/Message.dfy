/** The wire format (include/message.hpp): four digits of type, four digits of body length, body. */
module Message {
  import opened Basics
  import opened Decimal

  const HEADER_LENGTH := 8
  const MAX_BODY_LENGTH := 1024

  datatype MsgType = MSG_ERROR | MSG_NONE | MSG_REQUEST | MSG_REPLY | MSG_SUCCESS | MSG_INVALID

  function TypeCode(t: MsgType): (n: nat)
    ensures n < 10000
  {
    match t
    case MSG_ERROR => 0
    case MSG_NONE => 1
    case MSG_REQUEST => 2
    case MSG_REPLY => 3
    case MSG_SUCCESS => 4
    case MSG_INVALID => 5
  }

  function TypeOf(n: int): (t: MsgType)
    ensures 0 <= n < 5 ==> TypeCode(t) == n
    ensures t == MSG_INVALID <==> !(0 <= n < 5)
  {
    match n
    case 0 => MSG_ERROR
    case 1 => MSG_NONE
    case 2 => MSG_REQUEST
    case 3 => MSG_REPLY
    case 4 => MSG_SUCCESS
    case _ => MSG_INVALID
  }

  datatype Header = Bad | Good(tp: MsgType, len: nat)

  /** `encode_header`. */
  function HeaderText(tp: MsgType, len: nat): (h: string)
    requires len <= MAX_BODY_LENGTH
    ensures |h| == HEADER_LENGTH
  {
    Fixed4(TypeCode(tp)) + Fixed4(len)
  }

  /** `decode_header`: `atoi` on both fields. A negative length becomes a huge `size_t`, a negative
      type a huge `unsigned`, so both are refused. */
  function ParseHeader(h: string): (r: Header)
    requires |h| == HEADER_LENGTH
    ensures r.Good? ==> r.len <= MAX_BODY_LENGTH && r.tp != MSG_INVALID
  {
    var len := Atoi(h[4..]);
    if !(0 <= len <= MAX_BODY_LENGTH) then Bad
    else if TypeOf(Atoi(h[..4])) == MSG_INVALID then Bad
    else Good(TypeOf(Atoi(h[..4])), len)
  }

  /** A header that was written is read back, unless its type is the invalid one. */
  lemma HeaderRoundTrip(tp: MsgType, len: nat)
    requires len <= MAX_BODY_LENGTH
    ensures ParseHeader(HeaderText(tp, len)) == if tp == MSG_INVALID then Bad else Good(tp, len)
  {
    var h := HeaderText(tp, len);
    assert h[..4] == Fixed4(TypeCode(tp)) && h[4..] == Fixed4(len);
    AtoiOfDigits(Fixed4(TypeCode(tp)));
    AtoiOfDigits(Fixed4(len));
  }

  /** Four digits of type, numbered in the order of the enumeration, then four digits of length. */
  lemma HeaderLayout(tp: MsgType, len: nat)
    requires len <= MAX_BODY_LENGTH
    ensures var h := HeaderText(tp, len);
      && |h| == 8 && AllDigits(h[..4]) && AllDigits(h[4..]) && Value(h[4..]) == len
      && Value(h[..4]) == match tp
         case MSG_ERROR => 0
         case MSG_NONE => 1
         case MSG_REQUEST => 2
         case MSG_REPLY => 3
         case MSG_SUCCESS => 4
         case MSG_INVALID => 5
  {
    var h := HeaderText(tp, len);
    assert h[..4] == Fixed4(TypeCode(tp)) && h[4..] == Fixed4(len);
  }

  /** Of all headers of eight digits exactly those are accepted whose type is below 5 and whose length is at
      most 1024. */
  lemma DigitHeaders(h: string)
    requires |h| == 8 && AllDigits(h)
    ensures AllDigits(h[..4]) && AllDigits(h[4..])
    ensures ParseHeader(h).Good? <==> Value(h[..4]) < 5 && Value(h[4..]) <= 1024
    ensures ParseHeader(h).Good? ==> TypeCode(ParseHeader(h).tp) == Value(h[..4]) && ParseHeader(h).len == Value(h[4..])
  {
    AtoiOfDigits(h[..4]);
    AtoiOfDigits(h[4..]);
    hide Atoi, Value;
  }

  /** What `strcpy` into the body and `strlen` on it can carry. */
  ghost predicate IsText(body: string) {
    NulFree(body) && |body| < MAX_BODY_LENGTH
  }

  // ----- framing -----

  datatype Frame = Frame(tp: MsgType, body: string)

  predicate Sendable(f: Frame) {
    |f.body| <= MAX_BODY_LENGTH && f.tp != MSG_INVALID
  }

  function Encode(f: Frame): string
    requires Sendable(f)
  {
    HeaderText(f.tp, |f.body|) + f.body
  }

  predicate AllSendable(fs: seq<Frame>) {
    forall k :: 0 <= k < |fs| ==> Sendable(fs[k])
  }

  function EncodeAll(fs: seq<Frame>): string
    requires AllSendable(fs)
  {
    if fs == [] then "" else Encode(fs[0]) + EncodeAll(fs[1..])
  }

  /** A reader that takes eight bytes, then the announced length; None when a header is refused or
      the stream ends inside a message. */
  function ReadAll(s: string): Option<seq<Frame>>
    decreases |s|
  {
    if s == "" then Some([])
    else if |s| < HEADER_LENGTH then None
    else match ParseHeader(s[..HEADER_LENGTH])
      case Bad => None
      case Good(tp, len) =>
        if |s| < HEADER_LENGTH + len then None
        else
          match ReadAll(s[HEADER_LENGTH + len..])
          case None => None
          case Some(fs) => Some([Frame(tp, s[HEADER_LENGTH..HEADER_LENGTH + len])] + fs)
  }

  lemma FirstFrame(f: Frame, rest: string)
    requires Sendable(f)
    ensures var s := Encode(f) + rest;
      && |s| >= HEADER_LENGTH + |f.body|
      && ParseHeader(s[..HEADER_LENGTH]) == Good(f.tp, |f.body|)
      && s[HEADER_LENGTH..HEADER_LENGTH + |f.body|] == f.body
      && s[HEADER_LENGTH + |f.body|..] == rest
  {
    HeaderRoundTrip(f.tp, |f.body|);
    ThreeParts(HeaderText(f.tp, |f.body|), f.body, rest);
  }

  lemma ThreeParts(h: string, b: string, rest: string)
    ensures var s := (h + b) + rest;
      s[..|h|] == h && s[|h|..|h| + |b|] == b && s[|h| + |b|..] == rest
  {
  }

  /** Messages written back to back are read as the same list, so two different lists never look
      the same on the wire. */
  lemma {:induction false} FramingRoundTrip(fs: seq<Frame>)
    requires AllSendable(fs)
    ensures ReadAll(EncodeAll(fs)) == Some(fs)
    decreases |fs|
  {
    if fs != [] {
      var f, rest := fs[0], fs[1..];
      assert fs == [f] + rest;
      assert Sendable(f) && AllSendable(rest);
      hide *;
      FramingRoundTrip(rest);
      EncodeFirst(f, rest);
      ReadFirst(f, EncodeAll(rest));
    }
  }

  lemma EncodeFirst(f: Frame, rest: seq<Frame>)
    requires Sendable(f) && AllSendable(rest)
    ensures AllSendable([f] + rest)
    ensures EncodeAll([f] + rest) == Encode(f) + EncodeAll(rest)
  {
    assert ([f] + rest)[1..] == rest;
    hide Encode;
  }

  lemma ReadFirst(f: Frame, rest: string)
    requires Sendable(f)
    ensures ReadAll(Encode(f) + rest) ==
      match ReadAll(rest)
      case None => None
      case Some(fs) => Some([f] + fs)
  {
    FirstFrame(f, rest);
    hide Encode, ParseHeader;
  }

  // ----- the message object -----

  class Msg {
    const data: array<char>
    var bodyLength: nat
    var tp: MsgType

    constructor ()
      ensures fresh(data) && data.Length == HEADER_LENGTH + MAX_BODY_LENGTH
      ensures bodyLength == 0 && tp == MSG_INVALID
    {
      data := new char[HEADER_LENGTH + MAX_BODY_LENGTH];
      bodyLength, tp := 0, MSG_INVALID;
    }

    ghost predicate Valid()
      reads this
    {
      data.Length == HEADER_LENGTH + MAX_BODY_LENGTH && bodyLength <= MAX_BODY_LENGTH
    }

    /** The bytes that go on the wire. */
    ghost function Wire(): string
      reads this, data
      requires Valid()
    {
      data[..HEADER_LENGTH + bodyLength]
    }

    ghost function Body(): string
      reads this, data
      requires Valid()
    {
      data[HEADER_LENGTH..HEADER_LENGTH + bodyLength]
    }

    method SetType(t: MsgType)
      modifies this`tp
      ensures tp == t
    {
      tp := t;
    }

    /** Longer bodies are announced with the maximum length. */
    method SetBodyLength(length: nat)
      requires data.Length == HEADER_LENGTH + MAX_BODY_LENGTH
      modifies this`bodyLength
      ensures Valid() && bodyLength == if length > MAX_BODY_LENGTH then MAX_BODY_LENGTH else length
    {
      bodyLength := length;
      if bodyLength > MAX_BODY_LENGTH {
        bodyLength := MAX_BODY_LENGTH;
      }
    }

    /** Writes a text at an offset, as `memcpy`, `strcpy` and a socket read do. */
    method Store(at: nat, text: string)
      requires at + |text| <= data.Length
      modifies data
      ensures data[..] == old(data[..at]) + text + old(data[at + |text|..])
    {
      var k := 0;
      while k < |text|
        invariant 0 <= k <= |text|
        invariant forall j :: 0 <= j < k ==> data[at + j] == text[j]
        invariant forall j :: 0 <= j < data.Length && !(at <= j < at + k) ==> data[j] == old(data[j])
      {
        data[at + k] := text[k];
        k := k + 1;
      }
    }

    /** `strlen` of the body after `body` was copied there. */
    method StringLength(ghost body: string) returns (n: nat)
      requires Valid() && IsText(body)
      requires data[HEADER_LENGTH..][..|body| + 1] == body + [NUL]
      ensures n == |body|
    {
      n := 0;
      assert forall k :: 0 <= k <= |body| ==> data[HEADER_LENGTH + k] == (body + [NUL])[k];
      while data[HEADER_LENGTH + n] != NUL
        invariant n <= |body|
        decreases |body| - n
      {
        n := n + 1;
      }
    }

    /** A text replaces type and body, and the header is made to fit. */
    method PutText(t: MsgType, body: string)
      requires Valid() && IsText(body) && t != MSG_INVALID
      modifies this, data
      ensures Valid() && tp == t && Wire() == Encode(Frame(t, body))
    {
      hide Encode, HeaderText;
      SetType(t);
      Store(HEADER_LENGTH, body + [NUL]);
      assert data[HEADER_LENGTH..][..|body| + 1] == body + [NUL];
      var n := StringLength(body);
      SetBodyLength(n);
      assert Body() == data[HEADER_LENGTH..][..|body| + 1][..n] == body;
      EncodeHeader();
    }

    /** Afterwards the wire bytes are the frame of this type and body. */
    method EncodeHeader()
      requires Valid()
      modifies data
      ensures Body() == old(Body())
      ensures data[..HEADER_LENGTH] == HeaderText(tp, bodyLength)
      ensures tp != MSG_INVALID ==> Wire() == Encode(Frame(tp, Body()))
    {
      ghost var before := data[..];
      Store(0, Fixed4(TypeCode(tp)));
      Store(4, Fixed4(bodyLength));
      assert data[..] == HeaderText(tp, bodyLength) + before[HEADER_LENGTH..];
      assert Body() == before[HEADER_LENGTH..HEADER_LENGTH + bodyLength];
      assert Wire() == HeaderText(tp, bodyLength) + Body();
    }

    /** Exactly the headers `ParseHeader` accepts are accepted, with its type and length; whatever
        happens the recorded length stays inside the buffer. */
    method DecodeHeader() returns (ok: bool)
      requires data.Length == HEADER_LENGTH + MAX_BODY_LENGTH
      modifies this`bodyLength, this`tp
      ensures Valid()
      ensures ok <==> ParseHeader(data[..HEADER_LENGTH]).Good?
      ensures ok ==> ParseHeader(data[..HEADER_LENGTH]) == Good(tp, bodyLength)
    {
      var header := data[..HEADER_LENGTH];
      var len := Atoi(header[4..]);
      if !(0 <= len <= MAX_BODY_LENGTH) {
        bodyLength := 0;
        return false;
      }
      bodyLength := len;
      tp := TypeOf(Atoi(header[..4]));
      return tp != MSG_INVALID;
    }
  }
}
