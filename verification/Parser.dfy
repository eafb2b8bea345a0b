/** `parse_multiplett` (include/helper.hpp:41-75): reads `x=1,y=2` through boost's
    `escaped_list_separator` with its default escape `\`, separator `,` and quote `"`. */
module Parser {
  import opened Basics
  import opened Decimal
  import opened Texts

  const ESCAPE := '\\'
  const SEPARATOR := ','
  const QUOTE := '"'
  const DELIM := '='

  // ----- the tokenizer -----

  /** One token: its text, the input that follows, and whether a separator ended it. Invalid
      escapes throw. */
  datatype Field = Field(text: string, rest: string, separated: bool) | BadEscape

  function Prepend(c: char, f: Field): Field {
    match f
    case Field(t, rest, sep) => Field([c] + t, rest, sep)
    case BadEscape => BadEscape
  }

  predicate Special(c: char) {
    c == ESCAPE || c == SEPARATOR || c == QUOTE
  }

  /** What the character after an escape stands for. */
  function Escaped(c: char): Option<char> {
    if c == 'n' then Some('\n') else if Special(c) then Some(c) else None
  }

  function NextField(s: string, quoted: bool): (f: Field)
    ensures f.Field? ==> |f.rest| <= |s| && (s != "" ==> |f.rest| < |s|)
    decreases |s|
  {
    if s == "" then Field("", "", false)
    else if s[0] == ESCAPE then
      (if |s| == 1 || Escaped(s[1]).None? then BadEscape
       else Prepend(Escaped(s[1]).value, NextField(s[2..], quoted)))
    else if s[0] == SEPARATOR && !quoted then Field("", s[1..], true)
    else if s[0] == QUOTE then NextField(s[1..], !quoted)
    else Prepend(s[0], NextField(s[1..], quoted))
  }

  // ----- the parser -----

  datatype Outcome<T> = Parsed(values: map<string, T>) | Refused | Thrown

  function NameOf(token: string): string {
    Trim(BeforeFirst(token, DELIM))
  }

  function ValueOf(token: string): string {
    Trim(AfterFirst(token, DELIM))
  }

  /** `std::map::insert`: an existing key keeps its value. */
  function Insert<T>(values: map<string, T>, name: string, v: T): map<string, T> {
    if name in values then values else values[name := v]
  }

  /** The loop: `last` remembers a trailing separator, which is followed by one more, empty, token. */
  function ParseFrom<T>(read: string -> T, s: string, last: bool, values: map<string, T>): Outcome<T>
    decreases |s|
  {
    if s == "" then (if last then Refused else Parsed(values))
    else
      match NextField(s, false)
      case BadEscape => Thrown
      case Field(token, rest, sep) =>
        if DELIM !in token then Refused
        else ParseFrom(read, rest, sep, Insert(values, NameOf(token), read(ValueOf(token))))
  }

  function ParseMultiplett<T>(read: string -> T, s: string): Outcome<T> {
    if DELIM !in s then Refused else ParseFrom(read, s, false, map[])
  }

  // ----- reference: the list of tokens -----

  /** What a list of tokens means, without any tokenizer. */
  function ParseFields<T>(read: string -> T, fields: seq<string>, values: map<string, T>): Outcome<T> {
    if fields == [] then Parsed(values)
    else if DELIM !in fields[0] then Refused
    else ParseFields(read, fields[1..], Insert(values, NameOf(fields[0]), read(ValueOf(fields[0]))))
  }

  /** Every token has its delimiter. */
  predicate AllDelimited(fields: seq<string>) {
    forall k :: 0 <= k < |fields| ==> DELIM in fields[k]
  }

  /** Token k is the first one with its name. */
  predicate FirstWithName(fields: seq<string>, k: int, name: string) {
    0 <= k < |fields| && NameOf(fields[k]) == name && forall j :: 0 <= j < k ==> NameOf(fields[j]) != name
  }

  /** A token list is accepted exactly when every token has a delimiter; then the names are those
      of the tokens, and a repeated name keeps its first value. */
  lemma {:induction false} FieldsMeaning<T>(read: string -> T, fields: seq<string>, values: map<string, T>, name: string)
    ensures ParseFields(read, fields, values).Parsed? <==> AllDelimited(fields)
    ensures !ParseFields(read, fields, values).Thrown?
    ensures AllDelimited(fields) ==> Meaning(read, fields, values, ParseFields(read, fields, values).values, name)
    decreases |fields|
  {
    if fields != [] {
      var first, rest := fields[0], fields[1..];
      var next := Insert(values, NameOf(first), read(ValueOf(first)));
      FieldsMeaning(read, rest, next, name);
      assert AllDelimited(fields) <==> DELIM in first && AllDelimited(rest) by {
        assert fields == [first] + rest;
      }
      hide NameOf, ValueOf;
      if AllDelimited(fields) {
        MeaningLater(read, fields, values, ParseFields(read, rest, next).values, name);
      }
    }
  }

  ghost predicate Meaning<T>(read: string -> T, fields: seq<string>, values: map<string, T>, r: map<string, T>, name: string) {
    && (name in values ==> name in r && r[name] == values[name])
    && (name in r ==> name in values || exists k :: FirstWithName(fields, k, name))
    && (forall k :: FirstWithName(fields, k, name) && name !in values ==>
          name in r && r[name] == read(ValueOf(fields[k])))
  }

  lemma MeaningLater<T>(read: string -> T, fields: seq<string>, values: map<string, T>, r: map<string, T>, name: string)
    requires fields != []
    requires Meaning(read, fields[1..], Insert(values, NameOf(fields[0]), read(ValueOf(fields[0]))), r, name)
    ensures Meaning(read, fields, values, r, name)
  {
    hide NameOf, ValueOf;
    var rest := fields[1..];
    if name in r && name !in values && name != NameOf(fields[0]) {
      var k :| FirstWithName(rest, k, name);
      assert forall j :: 1 <= j <= k ==> fields[j] == rest[j - 1];
      assert FirstWithName(fields, k + 1, name);
    }
    if name == NameOf(fields[0]) {
      assert FirstWithName(fields, 0, name);
    }
    forall k | FirstWithName(fields, k, name) && name !in values
      ensures name in r && r[name] == read(ValueOf(fields[k]))
    {
      if k > 0 {
        assert NameOf(fields[0]) != name;
        assert FirstWithName(rest, k - 1, name) by {
          assert forall j :: 0 <= j < k - 1 ==> rest[j] == fields[j + 1];
        }
      }
    }
  }

  // ----- writing such a list -----

  function EscapeChar(c: char): string {
    if Special(c) then [ESCAPE, c] else [c]
  }

  function Escape(s: string): string {
    if s == "" then "" else EscapeChar(s[0]) + Escape(s[1..])
  }

  /** The tokens, escaped and separated by commas. */
  function Printed(fields: seq<string>): string
    requires fields != []
  {
    if |fields| == 1 then Escape(fields[0]) else Escape(fields[0]) + [SEPARATOR] + Printed(fields[1..])
  }

  predicate Plain(s: string) {
    forall k :: 0 <= k < |s| ==> s[k] != ESCAPE && s[k] != QUOTE
  }

  /** The tokenizer inverts escaping, whatever the text. */
  lemma {:induction false} EscapedField(text: string, rest: string)
    requires rest == "" || rest[0] == SEPARATOR
    ensures NextField(Escape(text) + rest, false) ==
      Field(text, if rest == "" then "" else rest[1..], rest != "")
    decreases |text|
  {
    if text == "" {
      assert Escape(text) + rest == rest;
    } else {
      EscapeStep(text, rest);
      hide *;
      EscapedField(text[1..], rest);
      OneChar(text[0], Escape(text[1..]) + rest);
      PrependField(text[0], NextField(Escape(text[1..]) + rest, false));
      assert text == [text[0]] + text[1..];
    }
  }

  lemma EscapeStep(text: string, rest: string)
    requires text != ""
    ensures Escape(text) + rest == EscapeChar(text[0]) + (Escape(text[1..]) + rest)
  {
    hide EscapeChar;
  }

  lemma PrependField(c: char, f: Field)
    ensures f.Field? ==> Prepend(c, f) == Field([c] + f.text, f.rest, f.separated)
  {
  }

  lemma OneChar(c: char, later: string)
    ensures NextField(EscapeChar(c) + later, false) == Prepend(c, NextField(later, false))
  {
    var s := EscapeChar(c) + later;
    if Special(c) {
      assert s[0] == ESCAPE && s[1] == c && s[2..] == later;
    } else {
      assert s[0] == c && s[1..] == later;
    }
  }

  lemma {:induction false} InsideQuotes(text: string, rest: string)
    requires ESCAPE !in text && QUOTE !in text && (rest == "" || rest[0] == SEPARATOR)
    ensures NextField(text + [QUOTE] + rest, true) == Field(text, if rest == "" then "" else rest[1..], rest != "")
    decreases |text|
  {
    var s := text + [QUOTE] + rest;
    if text == "" {
      assert s[0] == QUOTE && s[1..] == rest;
    } else {
      InsideQuotes(text[1..], rest);
      assert s[0] == text[0] && s[1..] == text[1..] + [QUOTE] + rest;
      assert text == [text[0]] + text[1..];
    }
  }

  /** Between quotes even separators belong to the token. */
  lemma QuotedField(text: string, rest: string)
    requires ESCAPE !in text && QUOTE !in text && (rest == "" || rest[0] == SEPARATOR)
    ensures NextField("\"" + text + "\"" + rest, false) == Field(text, if rest == "" then "" else rest[1..], rest != "")
  {
    InsideQuotes(text, rest);
    var s := "\"" + text + "\"" + rest;
    assert s[0] == QUOTE && s[1..] == text + [QUOTE] + rest;
  }

  /** Escape and `n` stand for a newline. */
  lemma EscapedNewline(rest: string, quoted: bool)
    ensures NextField("\\n" + rest, quoted) == Prepend('\n', NextField(rest, quoted))
  {
    var s := "\\n" + rest;
    assert s[0] == ESCAPE && s[1] == 'n' && s[2..] == rest;
  }

  lemma {:induction false} EscapeEmpty(s: string)
    ensures Escape(s) == "" <==> s == ""
  {
  }

  lemma ParseEnd<T>(read: string -> T, last: bool, values: map<string, T>)
    ensures ParseFrom(read, "", last, values) == if last then Refused else Parsed(values)
  {
  }

  lemma ParseStep<T>(read: string -> T, s: string, last: bool, values: map<string, T>, f: Field)
    requires s != "" && NextField(s, false) == f && f.Field?
    ensures ParseFrom(read, s, last, values) ==
      if DELIM !in f.text then Refused
      else ParseFrom(read, f.rest, f.separated, Insert(values, NameOf(f.text), read(ValueOf(f.text))))
  {
    hide NextField, NameOf, ValueOf, Insert;
  }

  lemma LastPrintedReads<T>(read: string -> T, field: string, last: bool, values: map<string, T>)
    requires field == "" ==> last
    ensures ParseFrom(read, Escape(field), last, values) == ParseFields(read, [field], values)
  {
    var next := Insert(values, NameOf(field), read(ValueOf(field)));
    EscapeEmpty(field);
    EscapedField(field, "");
    assert Escape(field) + "" == Escape(field);
    hide NextField, Escape, NameOf, ValueOf, Insert, ParseFrom;
    ParseEnd(read, last, values);
    ParseEnd(read, false, next);
    if field != "" {
      ParseStep(read, Escape(field), last, values, Field(field, "", false));
    }
  }

  lemma FrontPrintedReads<T>(read: string -> T, field: string, later: string, last: bool, values: map<string, T>)
    ensures ParseFrom(read, Escape(field) + [SEPARATOR] + later, last, values) ==
      if DELIM !in field then Refused
      else ParseFrom(read, later, true, Insert(values, NameOf(field), read(ValueOf(field))))
  {
    var tail := [SEPARATOR] + later;
    var s := Escape(field) + [SEPARATOR] + later;
    EscapedField(field, tail);
    assert s == Escape(field) + tail && tail[1..] == later;
    hide NextField, Escape, NameOf, ValueOf, Insert, ParseFrom;
    ParseStep(read, s, last, values, Field(field, later, true));
  }

  /** Reading what was printed gives the tokens back: the parser's result is that of the token
      list itself, for every list of texts. */
  lemma {:induction false} PrintedReads<T>(read: string -> T, fields: seq<string>, last: bool, values: map<string, T>)
    requires fields != [] && (Printed(fields) == "" ==> last)
    ensures ParseFrom(read, Printed(fields), last, values) == ParseFields(read, fields, values)
    decreases |fields|
  {
    var first, rest := fields[0], fields[1..];
    hide NextField, Escape, NameOf, ValueOf, Insert, ParseFrom;
    EscapeEmpty(first);
    if rest == [] {
      assert fields == [first];
      LastPrintedReads(read, first, last, values);
    } else {
      FrontPrintedReads(read, first, Printed(rest), last, values);
      if DELIM in first {
        PrintedReads(read, rest, true, Insert(values, NameOf(first), read(ValueOf(first))));
      }
    }
  }

  lemma {:induction false} PlainEscape(s: string)
    requires Plain(s) && SEPARATOR !in s
    ensures Escape(s) == s
    decreases |s|
  {
    if s != "" {
      assert s == [s[0]] + s[1..];
      PlainEscape(s[1..]);
    }
  }

  /** Without quotes and escapes, printing is joining with commas. */
  lemma {:induction false} PlainPrinted(fields: seq<string>)
    requires fields != []
    requires forall k :: 0 <= k < |fields| ==> Plain(fields[k]) && SEPARATOR !in fields[k]
    ensures Printed(fields) == Join(fields, SEPARATOR)
    decreases |fields|
  {
    PlainEscape(fields[0]);
    if |fields| > 1 {
      PlainPrinted(fields[1..]);
    }
  }

  lemma {:induction false} PlainSplit(s: string)
    requires Plain(s)
    ensures forall k :: 0 <= k < |Split(s, SEPARATOR)| ==> Plain(Split(s, SEPARATOR)[k])
    decreases |s|
  {
    if SEPARATOR in s {
      assert Plain(AfterFirst(s, SEPARATOR)) && Plain(BeforeFirst(s, SEPARATOR));
      PlainSplit(AfterFirst(s, SEPARATOR));
    }
  }

  // ----- every input -----

  /** Read pairwise, some escape is the last character or precedes none of `n`, escape, separator,
      quote. */
  predicate Broken(s: string) {
    s != "" &&
    (if s[0] == ESCAPE then |s| == 1 || Escaped(s[1]).None? || Broken(s[2..]) else Broken(s[1..]))
  }

  function Extend(c: char, fields: seq<string>): (r: seq<string>)
    requires fields != []
    ensures |r| == |fields|
  {
    [[c] + fields[0]] + fields[1..]
  }

  /** The tokens of a text, read character by character, up to its first broken escape. */
  function FieldsOf(s: string, quoted: bool): (fields: seq<string>)
    ensures fields != []
    decreases |s|
  {
    if s == "" then [""]
    else if s[0] == ESCAPE then
      (if |s| == 1 || Escaped(s[1]).None? then [""] else Extend(Escaped(s[1]).value, FieldsOf(s[2..], quoted)))
    else if s[0] == SEPARATOR && !quoted then [""] + FieldsOf(s[1..], false)
    else if s[0] == QUOTE then FieldsOf(s[1..], !quoted)
    else Extend(s[0], FieldsOf(s[1..], quoted))
  }

  /** One token against the list of all. */
  ghost predicate Heads(f: Field, s: string, fields: seq<string>) {
    match f
    case BadEscape => Broken(s) && |fields| == 1
    case Field(text, rest, true) => fields == [text] + FieldsOf(rest, false) && (Broken(s) <==> Broken(rest))
    case Field(text, rest, false) => rest == "" && fields == [text] && !Broken(s)
  }

  lemma ExtendHeads(c: char, f: Field, s: string, t: string, fields: seq<string>)
    requires fields != [] && Heads(f, t, fields) && (Broken(s) <==> Broken(t))
    ensures Heads(Prepend(c, f), s, Extend(c, fields))
  {
    hide FieldsOf, Broken;
    if f.Field? && f.separated {
      assert fields[0] == f.text && fields[1..] == FieldsOf(f.rest, false);
    }
  }

  lemma {:induction false} NextHeads(s: string, quoted: bool)
    ensures Heads(NextField(s, quoted), s, FieldsOf(s, quoted))
    decreases |s|
  {
    if s != "" {
      if s[0] == ESCAPE {
        if |s| > 1 && Escaped(s[1]).Some? {
          NextHeads(s[2..], quoted);
          ExtendHeads(Escaped(s[1]).value, NextField(s[2..], quoted), s, s[2..], FieldsOf(s[2..], quoted));
        }
      } else if s[0] == SEPARATOR && !quoted {
      } else if s[0] == QUOTE {
        NextHeads(s[1..], !quoted);
      } else {
        NextHeads(s[1..], quoted);
        ExtendHeads(s[0], NextField(s[1..], quoted), s, s[1..], FieldsOf(s[1..], quoted));
      }
    }
  }

  /** All tokens that a separator ends before the first broken escape. */
  function Ended(fields: seq<string>): seq<string>
    requires fields != []
  {
    fields[..|fields| - 1]
  }

  /** What the loop makes of any text: a text with a broken escape throws exactly when every token
      ended before it has its delimiter, and is refused otherwise; any other text means what its
      tokens mean. */
  lemma {:induction false} LoopMeaning<T>(read: string -> T, s: string, last: bool, values: map<string, T>)
    requires s == "" ==> last
    ensures var fields := FieldsOf(s, false);
      ParseFrom(read, s, last, values) ==
        (if !Broken(s) then ParseFields(read, fields, values)
         else if AllDelimited(Ended(fields)) then Thrown else Refused)
    decreases |s|
  {
    if s == "" {
      assert [""][0] == "";
    } else {
      NextHeads(s, false);
      var f := NextField(s, false);
      if f.Field? {
        FirstTokenMeaning(read, s, f, values);
      }
    }
  }

  lemma {:induction false} FirstTokenMeaning<T>(read: string -> T, s: string, f: Field, values: map<string, T>)
    requires s != "" && f == NextField(s, false) && f.Field? && Heads(f, s, FieldsOf(s, false))
    ensures var fields := FieldsOf(s, false);
      ParseFrom(read, s, false, values) ==
        (if !Broken(s) then ParseFields(read, fields, values)
         else if AllDelimited(Ended(fields)) then Thrown else Refused)
    ensures ParseFrom(read, s, true, values) == ParseFrom(read, s, false, values)
    decreases |s|, 0
  {
    hide FieldsOf, Broken, NextField, NameOf, ValueOf;
    var fields := FieldsOf(s, false);
    if f.separated {
      var rest := FieldsOf(f.rest, false);
      assert fields[0] == f.text && fields[1..] == rest;
      assert Ended(fields) == [f.text] + Ended(rest);
      assert AllDelimited(Ended(fields)) <==> DELIM in f.text && AllDelimited(Ended(rest));
      if DELIM in f.text {
        LoopMeaning(read, f.rest, true, Insert(values, NameOf(f.text), read(ValueOf(f.text))));
      }
    } else {
      assert fields[0] == f.text && fields[1..] == [];
    }
  }

  // ----- main results -----

  /** For every text whatever: the exception escapes exactly when the text has a broken escape, a
      delimiter, and a delimiter in every token that ends before the broken escape; the text is
      accepted exactly when it has no broken escape and all its tokens have their delimiter; and
      then it means what its tokens mean. */
  lemma ParseExactly<T>(read: string -> T, s: string)
    ensures ParseMultiplett(read, s).Thrown? <==>
      DELIM in s && Broken(s) && AllDelimited(Ended(FieldsOf(s, false)))
    ensures ParseMultiplett(read, s).Parsed? <==>
      DELIM in s && !Broken(s) && AllDelimited(FieldsOf(s, false))
    ensures ParseMultiplett(read, s).Parsed? ==>
      ParseMultiplett(read, s) == ParseFields(read, FieldsOf(s, false), map[])
  {
    if DELIM in s {
      hide FieldsOf, Broken, ParseFrom, AllDelimited, ParseFields, Ended;
      LoopMeaning(read, s, false, map[]);
      FieldsMeaning(read, FieldsOf(s, false), map[], "");
    }
  }

  /** A parsed text names at least one axis. */
  lemma ParsedNonEmpty<T>(read: string -> T, s: string)
    ensures ParseMultiplett(read, s).Parsed? ==> ParseMultiplett(read, s).values != map[]
  {
    if ParseMultiplett(read, s).Parsed? {
      hide ParseMultiplett, FieldsOf, Broken, ParseFields, NameOf, ValueOf;
      var fields := FieldsOf(s, false);
      ParseExactly(read, s);
      assert FirstWithName(fields, 0, NameOf(fields[0]));
      FieldsMeaning(read, fields, map[], NameOf(fields[0]));
    }
  }

  /** The shortest text that ends the server: one delimiter, and an escape at the end. */
  lemma TrailingEscapeThrows<T>(read: string -> T)
    ensures ParseMultiplett(read, "x=\\").Thrown?
  {
    var s := "x=\\";
    assert s[0] == 'x' && s[1] == DELIM && s[2] == ESCAPE && |s| == 3;
    assert s[1..][0] == DELIM && s[1..][1..] == s[2..] && s[2..][0] == ESCAPE && |s[2..]| == 1;
    assert NextField(s[2..], false) == BadEscape;
    assert NextField(s[1..], false) == BadEscape;
    assert NextField(s, false) == BadEscape;
  }

  /** On quote- and escape-free input the tokens are the pieces between commas: parsing succeeds
      exactly when each of them has its `=`, never throws, and gives every name its first value. */
  lemma PlainParse<T>(read: string -> T, s: string, name: string)
    requires Plain(s)
    ensures ParseMultiplett(read, s).Parsed? <==> AllDelimited(Split(s, SEPARATOR))
    ensures !ParseMultiplett(read, s).Thrown?
    ensures ParseMultiplett(read, s).Parsed? ==>
      Meaning(read, Split(s, SEPARATOR), map[], ParseMultiplett(read, s).values, name)
  {
    var fields := Split(s, SEPARATOR);
    PlainSplit(s);
    PlainPrinted(fields);
    JoinSplit(s, SEPARATOR);
    FieldsMeaning(read, fields, map[], name);
    hide Meaning, Split;
    if DELIM in s {
      PrintedReads(read, fields, false, map[]);
    } else {
      PieceOf(fields, SEPARATOR, DELIM);
      assert DELIM !in fields[0];
    }
  }

  lemma {:induction false} PieceOf(fields: seq<string>, c: char, d: char)
    requires fields != [] && d !in Join(fields, c)
    ensures d !in fields[0]
  {
  }

  /** A position as it is typed: names and values. */
  function Tokens<T>(show: T -> string, es: seq<(string, T)>): seq<string> {
    seq(|es|, i requires 0 <= i < |es| => es[i].0 + [DELIM] + show(es[i].1))
  }

  /** `es` lists the map, in whatever order. */
  ghost predicate Lists<T>(es: seq<(string, T)>, m: map<string, T>) {
    && (forall k :: 0 <= k < |es| ==> es[k].0 in m && m[es[k].0] == es[k].1)
    && (forall name :: name in m ==> exists k :: 0 <= k < |es| && es[k].0 == name)
  }

  /** Names that survive trimming and the search for `=`, and values whose text is read back. */
  ghost predicate Typeable<T>(read: string -> T, show: T -> string, es: seq<(string, T)>) {
    forall k :: 0 <= k < |es| ==>
      && Trimmed(es[k].0) && DELIM !in es[k].0
      && read(Trim(show(es[k].1))) == es[k].1
  }

  /** For whole numbers, printing and reading are as the parser needs them: any trimmed names without
      a delimiter will do. */
  lemma WholeNumbersTypeable(es: seq<(string, real)>)
    requires forall k :: 0 <= k < |es| ==> Trimmed(es[k].0) && DELIM !in es[k].0 && IsWhole(es[k].1)
    ensures Typeable(ReadWhole, ShowWhole, es)
  {
    forall k | 0 <= k < |es| ensures ReadWhole(Trim(ShowWhole(es[k].1))) == es[k].1 {
      IntTextShape(es[k].1.Floor);
      TrimTrimmed(IntText(es[k].1.Floor));
      ReadIntText(es[k].1.Floor);
    }
  }

  lemma TokenParts<T>(read: string -> T, show: T -> string, es: seq<(string, T)>, k: nat)
    requires k < |es| && Typeable(read, show, es)
    ensures NameOf(Tokens(show, es)[k]) == es[k].0 && read(ValueOf(Tokens(show, es)[k])) == es[k].1
    ensures DELIM in Tokens(show, es)[k]
  {
    FirstParts(es[k].0, DELIM, show(es[k].1));
    TrimTrimmed(es[k].0);
  }

  lemma AllTokenParts<T>(read: string -> T, show: T -> string, es: seq<(string, T)>)
    requires Typeable(read, show, es)
    ensures |Tokens(show, es)| == |es| && AllDelimited(Tokens(show, es))
    ensures forall k :: 0 <= k < |es| ==>
      NameOf(Tokens(show, es)[k]) == es[k].0 && read(ValueOf(Tokens(show, es)[k])) == es[k].1
  {
    var fields := Tokens(show, es);
    hide NameOf, ValueOf, Typeable;
    forall k | 0 <= k < |es|
      ensures NameOf(fields[k]) == es[k].0 && read(ValueOf(fields[k])) == es[k].1 && DELIM in fields[k]
    {
      TokenParts(read, show, es, k);
    }
  }

  /** An entry as a user may type it, with blanks around its name and its value. */
  datatype Typed = Typed(before: string, name: string, after: string, lead: string, value: string, trail: string)

  function TypedText(t: Typed): string {
    t.before + t.name + t.after + [DELIM] + (t.lead + t.value + t.trail)
  }

  function TypedTexts(ts: seq<Typed>): seq<string> {
    seq(|ts|, i requires 0 <= i < |ts| => TypedText(ts[i]))
  }

  ghost predicate Neat(t: Typed) {
    && Blank(t.before) && Blank(t.after) && Blank(t.lead) && Blank(t.trail)
    && Trimmed(t.name) && DELIM !in t.name && Trimmed(t.value)
  }

  /** The name is what stands before the delimiter, the value what stands after it, both without the
      blanks around them. */
  lemma SpacedToken(t: Typed)
    requires Neat(t)
    ensures DELIM in TypedText(t) && NameOf(TypedText(t)) == t.name && ValueOf(TypedText(t)) == t.value
  {
    var left, right := t.before + t.name + t.after, t.lead + t.value + t.trail;
    assert DELIM !in left by {
      assert !IsSpace(DELIM);
    }
    FirstParts(left, DELIM, right);
    assert TypedText(t)[|left|] == DELIM;
    TrimBlanks(t.before, t.name, t.after);
    TrimBlanks(t.lead, t.value, t.trail);
    hide Trim, BeforeFirst, AfterFirst;
  }

  lemma SpacedTokens(ts: seq<Typed>)
    requires forall k :: 0 <= k < |ts| ==> Neat(ts[k])
    ensures AllDelimited(TypedTexts(ts))
    ensures forall k :: 0 <= k < |ts| ==> NameOf(TypedTexts(ts)[k]) == ts[k].name && ValueOf(TypedTexts(ts)[k]) == ts[k].value
  {
    hide TypedText, NameOf, ValueOf, Neat;
    forall k | 0 <= k < |ts|
      ensures DELIM in TypedTexts(ts)[k] && NameOf(TypedTexts(ts)[k]) == ts[k].name && ValueOf(TypedTexts(ts)[k]) == ts[k].value
    {
      SpacedToken(ts[k]);
    }
  }

  /** The same list of names and values, blanks aside. */
  ghost predicate SameEntries(ts: seq<Typed>, us: seq<Typed>) {
    |ts| == |us| && forall k :: 0 <= k < |ts| ==> ts[k].name == us[k].name && ts[k].value == us[k].value
  }

  /** Token lists with the same names and values mean the same. */
  lemma {:induction false} SameMeaning<T>(read: string -> T, a: seq<string>, b: seq<string>, values: map<string, T>)
    requires |a| == |b| && AllDelimited(a) && AllDelimited(b)
    requires forall k :: 0 <= k < |a| ==> NameOf(a[k]) == NameOf(b[k]) && ValueOf(a[k]) == ValueOf(b[k])
    ensures ParseFields(read, a, values) == ParseFields(read, b, values)
    decreases |a|
  {
    hide NameOf, ValueOf;
    if a != [] {
      SameMeaning(read, a[1..], b[1..], Insert(values, NameOf(a[0]), read(ValueOf(a[0]))));
    }
  }

  lemma TypedParses<T>(read: string -> T, ts: seq<Typed>)
    requires ts != [] && forall k :: 0 <= k < |ts| ==> Neat(ts[k])
    ensures ParseMultiplett(read, Printed(TypedTexts(ts))) == ParseFields(read, TypedTexts(ts), map[])
    ensures ParseMultiplett(read, Printed(TypedTexts(ts))).Parsed?
  {
    var fields := TypedTexts(ts);
    SpacedTokens(ts);
    hide *;
    ParsesFrom(read, Printed(fields));
    DelimPrinted(fields);
    PrintedReads(read, fields, false, map[]);
    FieldsMeaning(read, fields, map[], "");
  }

  /** Blanks around names and values never change what a text means. */
  lemma BlanksIrrelevant<T>(read: string -> T, ts: seq<Typed>, us: seq<Typed>)
    requires ts != [] && SameEntries(ts, us) && forall k :: 0 <= k < |ts| ==> Neat(ts[k]) && Neat(us[k])
    ensures ParseMultiplett(read, Printed(TypedTexts(ts))) == ParseMultiplett(read, Printed(TypedTexts(us)))
  {
    TypedParses(read, ts);
    TypedParses(read, us);
    SpacedTokens(ts);
    SpacedTokens(us);
    hide NameOf, ValueOf, TypedText, Printed, ParseMultiplett, Neat;
    SameMeaning(read, TypedTexts(ts), TypedTexts(us), map[]);
  }

  /** What such a text means: each name gets the value of the first entry that has it. */
  lemma TypedMeaning<T>(read: string -> T, ts: seq<Typed>, name: string)
    requires ts != [] && forall k :: 0 <= k < |ts| ==> Neat(ts[k])
    ensures ParseMultiplett(read, Printed(TypedTexts(ts))).Parsed?
    ensures var r := ParseMultiplett(read, Printed(TypedTexts(ts))).values;
      && (name in r <==> exists k :: 0 <= k < |ts| && ts[k].name == name)
      && (forall k :: 0 <= k < |ts| && ts[k].name == name && (forall j :: 0 <= j < k ==> ts[j].name != name) ==>
            name in r && r[name] == read(ts[k].value))
  {
    var fields := TypedTexts(ts);
    TypedParses(read, ts);
    SpacedTokens(ts);
    FieldsMeaning(read, fields, map[], name);
    hide NameOf, ValueOf, TypedText, Printed, ParseMultiplett, ParseFields, Neat, AllDelimited;
    if k :| 0 <= k < |ts| && ts[k].name == name {
      FirstExists(fields, k, name);
    }
    forall k | 0 <= k < |ts| && ts[k].name == name && (forall j :: 0 <= j < k ==> ts[j].name != name)
      ensures FirstWithName(fields, k, name)
    {
    }
  }

  /** Two entries without special characters, as they stand in a text. */
  lemma TwoPrinted(a: string, b: string)
    requires forall k :: 0 <= k < |a| ==> !Special(a[k])
    requires forall k :: 0 <= k < |b| ==> !Special(b[k])
    ensures Printed([a, b]) == a + [SEPARATOR] + b
  {
    PlainEscape(a);
    PlainEscape(b);
    hide Escape;
    assert [a, b][1..] == [b];
  }

  const X_IS_ONE := Typed("", "x", " ", " ", "1", " ")
  const Y_IS_TWO := Typed(" ", "y", " ", " ", "2", " ")

  lemma TypedPair()
    ensures Neat(X_IS_ONE) && Neat(Y_IS_TWO)
    ensures TypedText(X_IS_ONE) == "x = 1 " && TypedText(Y_IS_TWO) == " y = 2 "
  {
  }

  lemma PairFields<T>(read: string -> T, fields: seq<string>)
    requires |fields| == 2 && AllDelimited(fields)
    ensures ParseFields(read, fields, map[]) ==
      Parsed(Insert(map[NameOf(fields[0]) := read(ValueOf(fields[0]))], NameOf(fields[1]), read(ValueOf(fields[1]))))
  {
    hide NameOf, ValueOf;
    var rest := fields[1..];
    assert rest[0] == fields[1] && rest[1..] == [];
    var one := Insert(map[], NameOf(fields[0]), read(ValueOf(fields[0])));
    assert one == map[NameOf(fields[0]) := read(ValueOf(fields[0]))];
    var two := Insert(one, NameOf(rest[0]), read(ValueOf(rest[0])));
    assert ParseFields(read, [], two) == Parsed(two);
    assert ParseFields(read, rest, one) == ParseFields(read, rest[1..], two);
  }

  lemma PairMeaning<T>(read: string -> T, ts: seq<Typed>)
    requires |ts| == 2 && Neat(ts[0]) && Neat(ts[1]) && ts[0].name != ts[1].name
    ensures TypedTexts(ts) != []
    ensures ParseMultiplett(read, Printed(TypedTexts(ts))) ==
      Parsed(map[ts[0].name := read(ts[0].value), ts[1].name := read(ts[1].value)])
  {
    assert |TypedTexts(ts)| == 2;
    TypedParses(read, ts);
    SpacedTokens(ts);
    PairFields(read, TypedTexts(ts));
    hide ParseMultiplett, Printed, TypedTexts, Neat, NameOf, ValueOf, ParseFields, AllDelimited;
    var one: map<string, T> := map[ts[0].name := read(ts[0].value)];
    assert one[ts[1].name := read(ts[1].value)] == map[ts[0].name := read(ts[0].value), ts[1].name := read(ts[1].value)];
  }

  /** Two entries with different names. */
  lemma TwoEntries<T>(read: string -> T, t: Typed, u: Typed)
    requires Neat(t) && Neat(u) && t.name != u.name
    requires forall k :: 0 <= k < |TypedText(t)| ==> !Special(TypedText(t)[k])
    requires forall k :: 0 <= k < |TypedText(u)| ==> !Special(TypedText(u)[k])
    ensures ParseMultiplett(read, TypedText(t) + [SEPARATOR] + TypedText(u)) ==
      Parsed(map[t.name := read(t.value), u.name := read(u.value)])
  {
    hide ParseMultiplett, TypedText, Neat, Printed;
    TwoPrinted(TypedText(t), TypedText(u));
    assert TypedTexts([t, u]) == [TypedText(t), TypedText(u)];
    PairMeaning(read, [t, u]);
  }

  /** For example, `x = 1 , y = 2 ` is x at 1 and y at 2. */
  lemma SpacedPair<T>(read: string -> T)
    ensures ParseMultiplett(read, "x = 1 , y = 2 ") == Parsed(map["x" := read("1"), "y" := read("2")])
  {
    TypedPair();
    assert "x = 1 , y = 2 " == "x = 1 " + [SEPARATOR] + " y = 2 ";
    hide ParseMultiplett, TypedText, Neat;
    TwoEntries(read, X_IS_ONE, Y_IS_TWO);
  }

  lemma ParsesFrom<T>(read: string -> T, s: string)
    ensures DELIM in s ==> ParseMultiplett(read, s) == ParseFrom(read, s, false, map[])
    ensures DELIM in s ==> s != ""
  {
  }

  /** Printing a map and parsing it gives the map back; commas, quotes and backslashes in names are
      escaped, and without them the text is simply `n=v,...` (see PlainPrinted). */
  lemma PrintParse<T>(read: string -> T, show: T -> string, es: seq<(string, T)>, m: map<string, T>)
    requires es != [] && Lists(es, m) && Typeable(read, show, es)
    ensures ParseMultiplett(read, Printed(Tokens(show, es))) == Parsed(m)
  {
    hide *;
    var fields := Tokens(show, es);
    AllTokenParts(read, show, es);
    var s := Printed(fields);
    ParsesFrom(read, s);
    DelimPrinted(fields);
    PrintedReads(read, fields, false, map[]);
    FieldsMeaning(read, fields, map[], "");
    var r := ParseFields(read, fields, map[]).values;
    forall name ensures name in r <==> name in m
      ensures name in m ==> r[name] == m[name]
    {
      FieldsMeaning(read, fields, map[], name);
      SameEntry(read, fields, es, m, r, name);
    }
    assert r == m;
  }

  lemma SameEntry<T>(read: string -> T, fields: seq<string>, es: seq<(string, T)>, m: map<string, T>, r: map<string, T>, name: string)
    requires Lists(es, m) && |fields| == |es|
    requires forall i :: 0 <= i < |es| ==> NameOf(fields[i]) == es[i].0 && read(ValueOf(fields[i])) == es[i].1
    requires Meaning(read, fields, map[], r, name)
    ensures name in r <==> name in m
    ensures name in m ==> r[name] == m[name]
  {
    NameListed(fields, es, m, name);
    hide NameOf, ValueOf, FirstWithName, Lists;
    if k :| FirstWithName(fields, k, name) {
      FirstIsOwn(fields, es, m, k, name);
    }
  }

  lemma FirstIsOwn<T>(fields: seq<string>, es: seq<(string, T)>, m: map<string, T>, k: int, name: string)
    requires Lists(es, m) && |fields| == |es| && forall i :: 0 <= i < |es| ==> NameOf(fields[i]) == es[i].0
    requires FirstWithName(fields, k, name)
    ensures 0 <= k < |es| && name in m && es[k].1 == m[name]
  {
    hide NameOf;
  }

  lemma NameListed<T>(fields: seq<string>, es: seq<(string, T)>, m: map<string, T>, name: string)
    requires Lists(es, m) && |fields| == |es| && forall k :: 0 <= k < |es| ==> NameOf(fields[k]) == es[k].0
    ensures name in m <==> exists k :: FirstWithName(fields, k, name)
  {
    hide NameOf;
    if name in m {
      var k :| 0 <= k < |es| && es[k].0 == name;
      FirstExists(fields, k, name);
    }
  }

  lemma {:induction false} FirstExists(fields: seq<string>, k: nat, name: string)
    requires k < |fields| && NameOf(fields[k]) == name
    ensures exists i :: FirstWithName(fields, i, name)
    decreases k
  {
    hide NameOf;
    if j :| 0 <= j < k && NameOf(fields[j]) == name {
      FirstExists(fields, j, name);
    } else {
      assert FirstWithName(fields, k, name);
    }
  }

  lemma {:induction false} EscapeKeeps(s: string, d: char)
    requires d in s && !Special(d)
    ensures d in Escape(s)
    decreases |s|
  {
    assert s == [s[0]] + s[1..];
    if s[0] == d {
      assert Escape(s)[0] == d;
    } else {
      EscapeKeeps(s[1..], d);
    }
  }

  lemma DelimPrinted(fields: seq<string>)
    requires fields != [] && AllDelimited(fields)
    ensures DELIM in Printed(fields)
  {
    EscapeKeeps(fields[0], DELIM);
  }

  // ----- the code -----

  /** The whole field is what was read so far followed by the field that is left. */
  ghost predicate Resumes(whole: Field, front: string, left: Field) {
    match left
    case BadEscape => whole == BadEscape
    case Field(t, rest, sep) => whole == Field(front + t, rest, sep)
  }

  lemma ResumesNext(whole: Field, front: string, c: char, left: Field)
    requires Resumes(whole, front, Prepend(c, left))
    ensures Resumes(whole, front + [c], left)
  {
    if left.Field? {
      assert (front + [c]) + left.text == front + ([c] + left.text);
    }
  }

  lemma ResumesStart(whole: Field)
    ensures Resumes(whole, "", whole)
  {
    if whole.Field? {
      assert "" + whole.text == whole.text;
    }
  }

  lemma ResumesBad(whole: Field, front: string)
    requires Resumes(whole, front, BadEscape)
    ensures whole == BadEscape
  {
  }

  lemma ResumesEnd(whole: Field, front: string, rest: string, sep: bool)
    requires Resumes(whole, front, Field("", rest, sep))
    ensures whole == Field(front, rest, sep)
  {
    assert front + "" == front;
  }

  /** One round of the tokenizer at position `next`. */
  lemma FieldStep(text: string, next: nat, quoted: bool)
    requires next < |text|
    ensures text[next] == ESCAPE && (next + 1 == |text| || Escaped(text[next + 1]).None?) ==>
      NextField(text[next..], quoted) == BadEscape
    ensures text[next] == ESCAPE && next + 1 < |text| && Escaped(text[next + 1]).Some? ==>
      NextField(text[next..], quoted) == Prepend(Escaped(text[next + 1]).value, NextField(text[next + 2..], quoted))
    ensures text[next] == SEPARATOR && !quoted ==> NextField(text[next..], quoted) == Field("", text[next + 1..], true)
    ensures text[next] == QUOTE ==> NextField(text[next..], quoted) == NextField(text[next + 1..], !quoted)
    ensures text[next] != ESCAPE && !(text[next] == SEPARATOR && !quoted) && text[next] != QUOTE ==>
      NextField(text[next..], quoted) == Prepend(text[next], NextField(text[next + 1..], quoted))
  {
    var s := text[next..];
    assert s[0] == text[next] && s[1..] == text[next + 1..];
    if |s| > 1 {
      assert s[1] == text[next + 1] && s[2..] == text[next + 2..];
    }
  }

  lemma FieldEnd(quoted: bool)
    ensures NextField("", quoted) == Field("", "", false)
  {
  }

  /** boost's tokenizer object: position in the text, and the flag for a trailing separator. */
  class Tokenizer {
    const text: string
    var next: nat
    var last: bool

    constructor (s: string)
      ensures text == s && next == 0 && !last
    {
      text, next, last := s, 0, false;
    }

    /** Reads one token; None stands for the exception. */
    method Advance() returns (tok: Option<string>)
      requires next < |text|
      modifies this
      ensures next <= |text|
      ensures match NextField(text[old(next)..], false)
        case BadEscape => tok.None?
        case Field(t, rest, sep) => tok == Some(t) && text[next..] == rest && last == sep
      ensures tok.Some? ==> next > old(next)
    {
      hide *;
      last := false;
      var t, quoted := "", false;
      ghost var start := next;
      ghost var whole := NextField(text[start..], false);
      ResumesStart(whole);
      while next < |text|
        invariant start <= next <= |text| && !last
        invariant Resumes(whole, t, NextField(text[next..], quoted))
      {
        FieldStep(text, next, quoted);
        if text[next] == ESCAPE {
          var c := if next + 1 == |text| then None else Escaped(text[next + 1]);
          if c.None? {
            ResumesBad(whole, t);
            return None;
          }
          ResumesNext(whole, t, c.value, NextField(text[next + 2..], quoted));
          t := t + [c.value];
          next := next + 2;
        } else if text[next] == SEPARATOR && !quoted {
          ResumesEnd(whole, t, text[next + 1..], true);
          next := next + 1;
          last := true;
          return Some(t);
        } else if text[next] == QUOTE {
          quoted := !quoted;
          next := next + 1;
        } else {
          ResumesNext(whole, t, text[next], NextField(text[next + 1..], quoted));
          t := t + [text[next]];
          next := next + 1;
        }
      }
      assert text[next..] == "";
      FieldEnd(quoted);
      ResumesEnd(whole, t, "", false);
      tok := Some(t);
    }
  }

  /** The parser's loop. */
  method Parse<T>(read: string -> T, s: string) returns (r: Outcome<T>)
    ensures r == ParseMultiplett(read, s)
  {
    if DELIM !in s {
      return Refused;
    }
    var tok := new Tokenizer(s);
    var values: map<string, T> := map[];
    while tok.next < |s| || tok.last
      invariant tok.text == s && tok.next <= |s|
      invariant ParseMultiplett(read, s) == ParseFrom(read, s[tok.next..], tok.last, values)
      decreases |s| - tok.next
    {
      if tok.next == |s| {
        return Refused;
      }
      var t := tok.Advance();
      if t.None? {
        return Thrown;
      }
      if DELIM !in t.value {
        return Refused;
      }
      var name, value := NameOf(t.value), read(ValueOf(t.value));
      values := if name in values then values else values[name := value];
    }
    r := Parsed(values);
  }
}
