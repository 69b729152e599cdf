/** The few operations on strings, most of them from Rust's `str`, that the model uses. */
module Text {

  /** Unicode `White_Space`. */
  predicate IsWhitespace(c: char) {
    var n := c as int;
    0x9 <= n <= 0xd || n == 0x20 || n == 0x85 || n == 0xa0 || n == 0x1680 || 0x2000 <= n <= 0x200a
    || n == 0x2028 || n == 0x2029 || n == 0x202f || n == 0x205f || n == 0x3000
  }

  function TrimStart(s: string): string {
    if s != [] && IsWhitespace(s[0]) then TrimStart(s[1..]) else s
  }

  function TrimEnd(s: string): string {
    if s != [] && IsWhitespace(s[|s| - 1]) then TrimEnd(s[..|s| - 1]) else s
  }

  function Trim(s: string): string { TrimEnd(TrimStart(s)) }

  function Lower(c: char): char { if 'A' <= c <= 'Z' then (c as int + 32) as char else c }

  predicate EqIgnoreAsciiCase(a: string, b: string) {
    |a| == |b| && forall k :: 0 <= k < |a| ==> Lower(a[k]) == Lower(b[k])
  }

  function Zeros(n: nat): (s: string)
    ensures |s| == n && forall k :: 0 <= k < n ==> s[k] == '\0'
  {
    seq(n, _ => '\0')
  }

  /** The pieces between the separators, at least one. */
  function Split(s: string, sep: char): (pieces: seq<string>)
    ensures pieces != []
  {
    if s == [] then [[]]
    else
      var rest := Split(s[1..], sep);
      if s[0] == sep then [[]] + rest else [[s[0]] + rest[0]] + rest[1..]
  }

  predicate StartsWith(s: string, prefix: string) { |prefix| <= |s| && s[..|prefix|] == prefix }

  predicate EndsWith(s: string, suffix: string) { |suffix| <= |s| && s[|s| - |suffix|..] == suffix }

  /** Splitting takes off what stands before the first separator. */
  lemma {:induction false} SplitFirst(a: string, sep: char, rest: string)
    requires sep !in a
    ensures Split(a, sep) == [a]
    ensures Split(a + [sep] + rest, sep) == [a] + Split(rest, sep)
  {
    if a == [] {
      assert (a + [sep] + rest)[1..] == rest;
    } else {
      SplitFirst(a[1..], sep, rest);
      assert (a + [sep] + rest)[1..] == a[1..] + [sep] + rest;
      assert [a[0]] + a[1..] == a;
    }
  }

  lemma SplitStep(s: string, sep: char)
    requires s != []
    ensures var rest := Split(s[1..], sep);
            Split(s, sep) == if s[0] == sep then [[]] + rest else [[s[0]] + rest[0]] + rest[1..]
  {
  }

  lemma {:induction false} PiecesAvoidSeparator(s: string, sep: char)
    ensures forall k :: 0 <= k < |Split(s, sep)| ==> sep !in Split(s, sep)[k]
  {
    if s == "" {
      assert Split(s, sep) == [[]];
    } else {
      SplitStep(s, sep);
      PiecesAvoidSeparator(s[1..], sep);
      hide Split;
      var pieces, rest := Split(s, sep), Split(s[1..], sep);
      forall k | 0 <= k < |pieces| ensures sep !in pieces[k] {
        if k > 0 { assert pieces[k] == rest[if s[0] == sep then k - 1 else k]; }
      }
    }
  }

  /** What stands behind the first separator. */
  lemma {:induction false} AfterFirstPiece(s: string, sep: char) returns (rest: string)
    ensures |Split(s, sep)| == 1 ==> Split(s, sep) == [s]
    ensures |Split(s, sep)| > 1 ==> Split(s, sep)[1..] == Split(rest, sep) && s == Split(s, sep)[0] + [sep] + rest
  {
    rest := "";
    if s != "" {
      SplitStep(s, sep);
      var tail := AfterFirstPiece(s[1..], sep);
      hide Split;
      if s[0] == sep {
        rest := s[1..];
        assert s == Split(s, sep)[0] + [sep] + rest;
      } else {
        rest := tail;
        assert s == [s[0]] + s[1..];
      }
    }
  }

  /** No piece contains the separator, and the pieces joined by it are the string. */
  lemma SplitJoins(s: string, sep: char)
    ensures forall p <- Split(s, sep) :: sep !in p
    ensures |Split(s, sep)| == 1 ==> Split(s, sep)[0] == s
    ensures |Split(s, sep)| > 1 ==>
      exists rest :: Split(s, sep)[1..] == Split(rest, sep) && s == Split(s, sep)[0] + [sep] + rest
  {
    hide Split;
    PiecesAvoidSeparator(s, sep);
    var rest := AfterFirstPiece(s, sep);
  }

  /** A prefix without white space at either end survives trimming. */
  lemma {:induction false} TrimKeepsPrefix(a: string, rest: string) returns (kept: string)
    requires a != [] && !IsWhitespace(a[0]) && !IsWhitespace(a[|a| - 1])
    ensures Trim(a + rest) == a + kept && kept <= rest
    decreases |rest|
  {
    assert TrimStart(a + rest) == a + rest;
    kept := rest;
    if rest == [] {
      assert a + rest == a;
    } else if IsWhitespace(rest[|rest| - 1]) {
      var shorter := rest[..|rest| - 1];
      assert (a + rest)[..|a + rest| - 1] == a + shorter;
      assert TrimStart(a + shorter) == a + shorter;
      kept := TrimKeepsPrefix(a, shorter);
    }
  }

  /** The white space characters, one by one. */
  lemma WhitespaceExactly(c: char)
    ensures IsWhitespace(c) <==> c as int in WHITE_SPACE
  {
  }

  const WHITE_SPACE: set<int> := {
    9, 10, 11, 12, 13, 32, 133, 160, 5760, 8192, 8193, 8194, 8195, 8196, 8197, 8198, 8199, 8200, 8201, 8202, 8232, 8233,
    8239, 8287, 12288
  }

  // ----- Alphabets ------------------------------------------------------------------------------------

  const LOWER := "abcdefghijklmnopqrstuvwxyz"
  const UPPER := "ABCDEFGHIJKLMNOPQRSTUVWXYZ"
  const DIGITS := "0123456789"

  lemma LowerExactly(c: char)
    ensures c in LOWER <==> 'a' <= c <= 'z'
  {
  }

  lemma UpperExactly(c: char)
    ensures c in UPPER <==> 'A' <= c <= 'Z'
  {
  }

  lemma DigitsExactly(c: char)
    ensures c in DIGITS <==> '0' <= c <= '9'
  {
  }

  // ----- Trimming and comparing, without the functions that do it -----------------------------------

  predicate Blank(s: string) { forall k :: 0 <= k < |s| ==> IsWhitespace(s[k]) }

  predicate NoOuterSpace(s: string) { s != [] ==> !IsWhitespace(s[0]) && !IsWhitespace(s[|s| - 1]) }

  /** `core` is `s` without the white space around it. */
  ghost predicate IsCore(s: string, core: string) {
    NoOuterSpace(core) && exists before, after :: Blank(before) && Blank(after) && s == before + core + after
  }

  lemma {:induction false} TrimStartDrops(before: string, rest: string)
    requires Blank(before) && (rest != [] ==> !IsWhitespace(rest[0]))
    ensures TrimStart(before + rest) == rest
  {
    if before == [] {
      assert before + rest == rest;
    } else {
      assert (before + rest)[1..] == before[1..] + rest;
      TrimStartDrops(before[1..], rest);
    }
  }

  lemma {:induction false} TrimEndDrops(rest: string, after: string)
    requires Blank(after) && (rest != [] ==> !IsWhitespace(rest[|rest| - 1]))
    ensures TrimEnd(rest + after) == rest
    decreases |after|
  {
    if after == [] {
      assert rest + after == rest;
    } else {
      var shorter := after[..|after| - 1];
      assert (rest + after)[..|rest + after| - 1] == rest + shorter;
      TrimEndDrops(rest, shorter);
    }
  }

  lemma {:induction false} TrimStartLeaves(s: string) returns (before: string)
    ensures Blank(before) && s == before + TrimStart(s) && (TrimStart(s) != [] ==> !IsWhitespace(TrimStart(s)[0]))
  {
    before := [];
    if s != [] && IsWhitespace(s[0]) {
      var more := TrimStartLeaves(s[1..]);
      before := [s[0]] + more;
    }
  }

  lemma {:induction false} TrimEndLeaves(s: string) returns (after: string)
    ensures Blank(after) && s == TrimEnd(s) + after
    ensures TrimEnd(s) != [] ==> TrimEnd(s)[0] == s[0] && !IsWhitespace(TrimEnd(s)[|TrimEnd(s)| - 1])
    decreases |s|
  {
    after := [];
    if s != [] && IsWhitespace(s[|s| - 1]) {
      var more := TrimEndLeaves(s[..|s| - 1]);
      after := more + [s[|s| - 1]];
    }
  }

  /** Trimming gives the one core of a string. */
  lemma TrimIsTheCore(s: string, core: string)
    ensures IsCore(s, core) <==> core == Trim(s)
  {
    hide TrimStart, TrimEnd;
    var before := TrimStartLeaves(s);
    var after := TrimEndLeaves(TrimStart(s));
    assert s == before + Trim(s) + after;
    if IsCore(s, core) {
      var b, a :| Blank(b) && Blank(a) && s == b + core + a;
      if core == [] {
        assert Blank(s);
        TrimStartDrops(s, []);
        assert s + [] == s;
        TrimEndDrops([], []);
      } else {
        assert s == b + (core + a);
        TrimStartDrops(b, core + a);
        TrimEndDrops(core, a);
      }
    }
  }

  /** Equal, or the two cases of one ASCII letter. */
  predicate SameLetter(c: char, d: char) {
    c == d || ('A' <= c <= 'Z' && d as int == c as int + 32) || ('A' <= d <= 'Z' && c as int == d as int + 32)
  }

  predicate SameUpToCase(a: string, b: string) { |a| == |b| && forall k :: 0 <= k < |a| ==> SameLetter(a[k], b[k]) }

  lemma EqIgnoresExactlyCase(a: string, b: string)
    ensures EqIgnoreAsciiCase(a, b) <==> SameUpToCase(a, b)
  {
    if |a| == |b| {
      forall k | 0 <= k < |a| ensures Lower(a[k]) == Lower(b[k]) <==> SameLetter(a[k], b[k]) {}
    }
  }
}
