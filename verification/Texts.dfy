/** Splitting, joining and trimming text, as boost's and wxWidgets' string helpers do. */
module Texts {
  import opened Basics
  import opened Decimal

  /** Index of the first `c`, or the length. */
  function IndexOf(s: string, c: char): (n: nat)
    ensures n <= |s| && c !in s[..n]
    ensures n < |s| ==> s[n] == c
    ensures n < |s| <==> c in s
  {
    if s == "" || s[0] == c then 0
    else
      var n := IndexOf(s[1..], c);
      assert s[..n + 1] == [s[0]] + s[1..][..n];
      assert s == [s[0]] + s[1..];
      n + 1
  }

  /** The whole text when there is no `c` (wxString::BeforeFirst). */
  function BeforeFirst(s: string, c: char): string {
    s[..IndexOf(s, c)]
  }

  /** Empty when there is no `c` (wxString::AfterFirst). */
  function AfterFirst(s: string, c: char): string {
    if IndexOf(s, c) < |s| then s[IndexOf(s, c) + 1..] else ""
  }

  lemma {:induction false} IndexOfFirst(a: string, c: char, b: string)
    requires c !in a
    ensures IndexOf(a + [c] + b, c) == |a|
    decreases |a|
  {
    var s := a + [c] + b;
    assert s == a + ([c] + b);
    if a != "" {
      assert s[1..] == a[1..] + [c] + b;
      IndexOfFirst(a[1..], c, b);
    }
  }

  lemma FirstParts(a: string, c: char, b: string)
    requires c !in a
    ensures BeforeFirst(a + [c] + b, c) == a && AfterFirst(a + [c] + b, c) == b
  {
    IndexOfFirst(a, c, b);
    var s := a + [c] + b;
    assert s[..|a|] == a && s[|a| + 1..] == b;
  }

  /** All pieces between separators, at least one. */
  function Split(s: string, c: char): (pieces: seq<string>)
    ensures pieces != []
    ensures forall k :: 0 <= k < |pieces| ==> c !in pieces[k]
    decreases |s|
  {
    if c !in s then [s] else [BeforeFirst(s, c)] + Split(AfterFirst(s, c), c)
  }

  function Join(pieces: seq<string>, c: char): string
    requires pieces != []
  {
    if |pieces| == 1 then pieces[0] else pieces[0] + [c] + Join(pieces[1..], c)
  }

  lemma SplitStep(a: string, c: char, b: string)
    requires c !in a
    ensures Split(a + [c] + b, c) == [a] + Split(b, c)
  {
    FirstParts(a, c, b);
    hide IndexOf, BeforeFirst, AfterFirst;
    var s := a + [c] + b;
    assert s[|a|] == c;
  }

  lemma JoinStep(a: string, rest: seq<string>, c: char)
    requires rest != []
    ensures Join([a] + rest, c) == a + [c] + Join(rest, c)
  {
    assert ([a] + rest)[1..] == rest;
  }

  /** Nothing is lost by splitting. */
  lemma {:induction false} JoinSplit(s: string, c: char)
    ensures Join(Split(s, c), c) == s
    decreases |s|
  {
    if c in s {
      var n := IndexOf(s, c);
      var a, b := s[..n], s[n + 1..];
      assert s == a + [c] + b;
      hide Join, Split, IndexOf;
      SplitStep(a, c, b);
      JoinStep(a, Split(b, c), c);
      JoinSplit(b, c);
    }
  }

  // ----- trimming -----

  function TrimRight(s: string): (t: string)
    ensures |t| <= |s|
  {
    if s != [] && IsSpace(s[|s| - 1]) then TrimRight(s[..|s| - 1]) else s
  }

  /** boost's `trim`. */
  function Trim(s: string): (t: string)
    ensures |t| <= |s|
  {
    TrimRight(SkipSpace(s))
  }

  /** Text that trimming leaves alone. */
  predicate Trimmed(s: string) {
    s == "" || (!IsSpace(s[0]) && !IsSpace(s[|s| - 1]))
  }

  lemma TrimTrimmed(s: string)
    requires Trimmed(s)
    ensures Trim(s) == s
  {
  }

  predicate Blank(s: string) {
    forall k :: 0 <= k < |s| ==> IsSpace(s[k])
  }

  lemma {:induction false} SkipBlank(a: string, s: string)
    requires Blank(a)
    ensures SkipSpace(a + s) == SkipSpace(s)
    decreases |a|
  {
    if a == "" {
      assert a + s == s;
    } else {
      assert (a + s)[0] == a[0] && (a + s)[1..] == a[1..] + s;
      SkipBlank(a[1..], s);
    }
  }

  lemma {:induction false} DropBlank(s: string, b: string)
    requires Blank(b)
    ensures TrimRight(s + b) == TrimRight(s)
    decreases |b|
  {
    if b == "" {
      assert s + b == s;
    } else {
      assert (s + b)[|s + b| - 1] == b[|b| - 1] && (s + b)[..|s + b| - 1] == s + b[..|b| - 1];
      DropBlank(s, b[..|b| - 1]);
    }
  }

  /** Blanks on both sides are dropped, and nothing else. */
  lemma TrimBlanks(a: string, t: string, b: string)
    requires Blank(a) && Blank(b) && Trimmed(t)
    ensures Trim(a + t + b) == t
  {
    assert a + t + b == a + (t + b);
    SkipBlank(a, t + b);
    if t == "" {
      assert t + b == b && b + "" == b;
      SkipBlank(b, "");
    } else {
      assert (t + b)[0] == t[0];
      DropBlank(t, b);
    }
  }

  /** Every text is its trimmed text between blanks. */
  lemma TrimParts(s: string)
    ensures exists a, b :: Blank(a) && Blank(b) && s == a + Trim(s) + b
    ensures Trimmed(Trim(s))
  {
    var n := BlankPrefix(s);
    var m := RightBlank(s[n..]);
    var a, t, b := s[..n], s[n..][..m], s[n..][m..];
    assert s == a + t + b;
    assert Trimmed(t) by {
      assert t != "" ==> t[0] == s[n] && t[|t| - 1] == s[n..][m - 1];
    }
    TrimBlanks(a, t, b);
  }

  lemma {:induction false} BlankPrefix(s: string) returns (n: nat)
    ensures n <= |s| && Blank(s[..n]) && (n < |s| ==> !IsSpace(s[n]))
    decreases |s|
  {
    n := 0;
    if s != "" && IsSpace(s[0]) {
      n := BlankPrefix(s[1..]);
      n := n + 1;
      assert forall k :: 1 <= k < n ==> s[k] == s[1..][..n - 1][k - 1];
    }
  }

  lemma {:induction false} RightBlank(s: string) returns (m: nat)
    ensures m <= |s| && Blank(s[m..]) && (m > 0 ==> !IsSpace(s[m - 1]))
    decreases |s|
  {
    m := |s|;
    if s != "" && IsSpace(s[|s| - 1]) {
      var front := s[..|s| - 1];
      m := RightBlank(front);
      assert forall k :: m <= k < |s| - 1 ==> s[k] == front[m..][k - m];
    }
  }

  predicate Starts(s: string, prefix: string) {
    |s| >= |prefix| && s[..|prefix|] == prefix
  }

  // ----- the order of a std::map<string, T> -----

  predicate Before(a: string, b: string) {
    b != "" && (a == "" || a[0] < b[0] || (a[0] == b[0] && Before(a[1..], b[1..])))
  }

  lemma {:induction false} BeforeTotal(a: string, b: string)
    ensures a == b || Before(a, b) || Before(b, a)
    decreases |a|
  {
    if a != "" && b != "" && a[0] == b[0] {
      BeforeTotal(a[1..], b[1..]);
      assert a == [a[0]] + a[1..] && b == [b[0]] + b[1..];
    }
  }

  lemma {:induction false} BeforeTransitive(a: string, b: string, c: string)
    requires Before(a, b) && Before(b, c)
    ensures Before(a, c)
    decreases |a|
  {
    if a != "" && a[0] == b[0] == c[0] {
      BeforeTransitive(a[1..], b[1..], c[1..]);
    }
  }

  lemma {:induction false} BeforeStrict(a: string)
    ensures !Before(a, a)
    decreases |a|
  {
    if a != "" {
      BeforeStrict(a[1..]);
    }
  }

  predicate IsFirst(m: string, names: set<string>) {
    m in names && forall x :: x in names && x != m ==> Before(m, x)
  }

  lemma {:induction false} FirstNameExists(names: set<string>)
    requires names != {}
    ensures exists m :: IsFirst(m, names)
    decreases names
  {
    var x :| x in names;
    var rest := names - {x};
    if rest == {} {
      assert names == rest + {x};
      assert IsFirst(x, names);
    } else {
      FirstNameExists(rest);
      var m :| IsFirst(m, rest);
      BeforeTotal(x, m);
      if Before(m, x) {
        assert IsFirst(m, names);
      } else {
        forall y | y in names && y != x ensures Before(x, y) {
          assert y in rest;
          if y != m {
            BeforeTransitive(x, m, y);
          }
        }
        assert IsFirst(x, names);
      }
    }
  }

  lemma FirstNameUnique(m: string, n: string, names: set<string>)
    requires IsFirst(m, names) && IsFirst(n, names)
    ensures m == n
  {
    if m != n {
      BeforeTransitive(m, n, m);
      BeforeStrict(m);
    }
  }

  function FirstName(names: set<string>): (m: string)
    requires names != {}
    ensures IsFirst(m, names)
  {
    FirstNameExists(names);
    assert forall a, b :: IsFirst(a, names) && IsFirst(b, names) ==> a == b by {
      forall a, b | IsFirst(a, names) && IsFirst(b, names) ensures a == b {
        FirstNameUnique(a, b, names);
      }
    }
    var m :| m in names && IsFirst(m, names);
    m
  }

  /** The keys of a `std::map<string, T>` in the order its iterators visit them. */
  function SortedNames(names: set<string>): seq<string> {
    if names == {} then [] else [FirstName(names)] + SortedNames(names - {FirstName(names)})
  }

  lemma {:induction false} SortedNamesSpec(names: set<string>)
    ensures forall x :: x in SortedNames(names) <==> x in names
    ensures forall i, j :: 0 <= i < j < |SortedNames(names)| ==> Before(SortedNames(names)[i], SortedNames(names)[j])
    ensures |SortedNames(names)| == |names|
    decreases names
  {
    if names != {} {
      var m := FirstName(names);
      var others := names - {m};
      var rest := SortedNames(others);
      SortedNamesSpec(others);
      forall i | 0 <= i < |rest| ensures Before(m, rest[i]) {
        assert rest[i] in others;
      }
      assert SortedNames(names) == [m] + rest;
    }
  }
}
