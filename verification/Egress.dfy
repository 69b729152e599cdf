/** Origins that a guest may fetch from: parsing to a normal form, the allow list, its way through the catalog, and
    the check at fetch time. */
module Egress {
  import opened Wrappers
  import opened Results
  import opened Text
  import opened Decimal

  datatype DomainError = InvalidEgressOrigin | TooManyEgressOrigins

  const MAX_EGRESS_ALLOW := 8
  const MAX_PORT := 0xffff
  const SCHEME := "https://"

  // ----- Hosts ---------------------------------------------------------------------------------

  /** Rust's `u8` parser: an optional plus sign, at least one digit, and at most 255. */
  predicate IsU8(s: string) {
    var digits := if s != [] && s[0] == '+' then s[1..] else s;
    digits != [] && AllDigits(digits) && Value(digits) <= 255
  }

  predicate IsIpLiteral(host: string) {
    ':' in host || (|Split(host, '.')| == 4 && forall p <- Split(host, '.') :: IsU8(p))
  }

  predicate IsHostChar(c: char) { 'a' <= c <= 'z' || 'A' <= c <= 'Z' || '0' <= c <= '9' || c == '-' || c == '.' }

  predicate ValidHost(host: string) {
    && 0 < |host| <= 253
    && !EqIgnoreAsciiCase(host, "localhost")
    && !EndsWith(host, ".local")
    && !IsIpLiteral(host)
    && (forall k :: 0 <= k < |host| - 1 ==> !(host[k] == '.' && host[k + 1] == '.'))
    && forall c <- host :: IsHostChar(c)
  }

  // ----- Origins -------------------------------------------------------------------------------

  /** The normal form: the host as given and the port, if any, without leading zeros. */
  function Origin(host: string, port: Option<nat>): string {
    SCHEME + host + if port.Some? then ":" + Numeral(port.value) else ""
  }

  predicate ValidPort(port: Option<nat>) { port.Some? ==> 0 < port.value <= MAX_PORT }

  function ParseAuthority(authority: string): Result<string, DomainError> {
    var pieces := Split(authority, ':');
    if |pieces| == 1 then
      if ValidHost(pieces[0]) then Ok(Origin(pieces[0], None)) else Err(InvalidEgressOrigin)
    else if |pieces| == 2 && AllDigits(pieces[1]) && pieces[1] != "" then
      var port := Value(pieces[1]);
      if port > MAX_PORT || port == 0 || !ValidHost(pieces[0]) then Err(InvalidEgressOrigin)
      else Ok(Origin(pieces[0], Some(port)))
    else Err(InvalidEgressOrigin)
  }

  /** `EgressOrigin::parse`. */
  function Parse(raw: string): Result<string, DomainError> {
    var trimmed := Trim(raw);
    if trimmed == "" then Err(InvalidEgressOrigin)
    else
      var pieces := Split(trimmed, '/');
      if |pieces| < 3 || !StartsWith(trimmed, SCHEME) then Err(InvalidEgressOrigin)
      else
        var authorities := Split(pieces[2], '@');
        if '@' in pieces[2] then Err(InvalidEgressOrigin)
        else ParseAuthority(authorities[|authorities| - 1])
  }

  /** `digits` write `port`, possibly with leading zeros. */
  predicate PortDigits(digits: string, port: nat) { digits != [] && AllDigits(digits) && Value(digits) == port }

  lemma ValidHostHasNoSeparator(host: string)
    requires ValidHost(host)
    ensures ':' !in host && '/' !in host && '@' !in host && !IsWhitespace(host[|host| - 1])
  {
    assert host[|host| - 1] in host;
  }

  /** An authority that parses is a valid host, alone or with the digits of a port in range. */
  lemma AuthorityShape(authority: string) returns (host: string, port: Option<nat>)
    requires ParseAuthority(authority).Ok?
    ensures ValidHost(host) && ValidPort(port) && ParseAuthority(authority) == Ok(Origin(host, port))
    ensures port.None? ==> authority == host
    ensures port.Some? ==> exists digits :: PortDigits(digits, port.value) && authority == host + ":" + digits
  {
    SplitJoins(authority, ':');
    var pieces := Split(authority, ':');
    host := pieces[0];
    if |pieces| == 1 {
      port := None;
    } else {
      port := Some(Value(pieces[1]));
      var rest :| pieces[1..] == Split(rest, ':') && authority == pieces[0] + [':'] + rest;
      SplitJoins(rest, ':');
      assert pieces[1..][0] == pieces[1] == rest;
      assert PortDigits(pieces[1], port.value) && authority == host + ":" + pieces[1];
    }
  }

  lemma AuthorityParses(host: string, port: Option<nat>, digits: string)
    requires ValidHost(host) && ValidPort(port)
    requires port.Some? ==> PortDigits(digits, port.value)
    ensures ParseAuthority(if port.None? then host else host + ":" + digits) == Ok(Origin(host, port))
  {
    ValidHostHasNoSeparator(host);
    SplitFirst(host, ':', digits);
    if port.Some? {
      assert ':' !in digits;
      SplitFirst(digits, ':', "");
      assert host + ":" + digits == host + [':'] + digits;
      assert [host] + [digits] == [host, digits];
    }
  }

  /** The authority is what stands between the scheme and the next slash. */
  lemma AuthorityOf(authority: string, rest: string)
    requires '/' !in authority && (rest == "" || rest[0] == '/')
    ensures var pieces := Split(SCHEME + authority + rest, '/'); |pieces| >= 3 && pieces[2] == authority
  {
    hide Split;
    var https: string, none: string, tail := "https:", [], authority + rest;
    assert SCHEME + authority + rest == https + ['/'] + (none + ['/'] + tail);
    SplitFirst(https, '/', none + ['/'] + tail);
    SplitFirst(none, '/', tail);
    FirstPiece(authority, rest, '/');
  }

  lemma FirstPiece(first: string, rest: string, sep: char)
    requires sep !in first && (rest == "" || rest[0] == sep)
    ensures Split(first + rest, sep)[0] == first
  {
    hide Split;
    if rest == "" {
      SplitFirst(first, sep, "");
      assert first + rest == first;
    } else {
      SplitFirst(first, sep, rest[1..]);
      assert first + rest == first + [sep] + rest[1..];
    }
  }

  /** The scheme, a valid host, optional port digits in range, and a path or nothing. */
  predicate IsUrl(url: string, host: string, port: Option<nat>, digits: string, rest: string) {
    && ValidHost(host) && ValidPort(port) && (port.Some? ==> PortDigits(digits, port.value))
    && (rest == "" || rest[0] == '/')
    && url == SCHEME + (if port.None? then host else host + ":" + digits) + rest
  }

  lemma UrlParses(raw: string, host: string, port: Option<nat>, digits: string, rest: string)
    requires IsUrl(Trim(raw), host, port, digits, rest)
    ensures Parse(raw) == Ok(Origin(host, port))
  {
    hide Split, ValidHost, ParseAuthority, Trim, Origin;
    var authority := if port.None? then host else host + ":" + digits;
    ValidHostHasNoSeparator(host);
    assert '/' !in authority && '@' !in authority;
    AuthorityOf(authority, rest);
    SplitFirst(authority, '@', "");
    AuthorityParses(host, port, digits);
  }

  lemma ParsedUrlShape(raw: string) returns (host: string, port: Option<nat>, digits: string, rest: string)
    requires Parse(raw).Ok?
    ensures IsUrl(Trim(raw), host, port, digits, rest)
    ensures Parse(raw) == Ok(Origin(host, port))
  {
    hide Split, ValidHost, ParseAuthority, Trim, Origin;
    var trimmed := Trim(raw);
    var authority := Split(trimmed, '/')[2];
    SplitFirst(authority, '@', "");
    host, port := AuthorityShape(authority);
    digits := "";
    if port.Some? { digits :| PortDigits(digits, port.value) && authority == host + ":" + digits; }
    rest := RestOf(trimmed);
  }

  lemma RestOf(trimmed: string) returns (rest: string)
    requires StartsWith(trimmed, SCHEME) && |Split(trimmed, '/')| >= 3
    ensures (rest == "" || rest[0] == '/') && trimmed == SCHEME + Split(trimmed, '/')[2] + rest
  {
    hide Split;
    var https: string, none: string, tail := "https:", [], trimmed[8..];
    assert trimmed == https + ['/'] + (none + ['/'] + tail);
    SplitFirst(https, '/', none + ['/'] + tail);
    SplitFirst(none, '/', tail);
    SplitJoins(tail, '/');
    var authority := Split(tail, '/')[0];
    assert Split(trimmed, '/')[2] == authority;
    if |Split(tail, '/')| == 1 {
      rest := "";
    } else {
      var after :| Split(tail, '/')[1..] == Split(after, '/') && tail == authority + ['/'] + after;
      rest := ['/'] + after;
    }
    assert trimmed == SCHEME + tail;
  }

  /** Parsing accepts exactly the URLs of that shape, white space around them ignored, and gives the origin of their
      host and port. */
  lemma ParseAcceptsExactlyUrls(raw: string, o: string)
    ensures Parse(raw) == Ok(o) <==>
      exists host, port, digits, rest :: IsUrl(Trim(raw), host, port, digits, rest) && o == Origin(host, port)
  {
    hide Parse, IsUrl, Trim, Origin;
    if Parse(raw) == Ok(o) { var host, port, digits, rest := ParsedUrlShape(raw); }
    if host, port, digits, rest :| IsUrl(Trim(raw), host, port, digits, rest) && o == Origin(host, port) {
      UrlParses(raw, host, port, digits, rest);
    }
  }

  /** Without a port it is the host that decides. */
  lemma HostDecides(host: string, rest: string)
    requires '/' !in host && ':' !in host && '@' !in host && (rest == "" || rest[0] == '/')
    requires Trim(SCHEME + host + rest) == SCHEME + host + rest
    ensures Parse(SCHEME + host + rest) == if ValidHost(host) then Ok(SCHEME + host) else Err(InvalidEgressOrigin)
  {
    hide Split, ValidHost, Trim;
    AuthorityOf(host, rest);
    SplitFirst(host, '@', "");
    SplitFirst(host, ':', "");
    assert SCHEME + host + "" == SCHEME + host;
  }

  lemma ByteIsU8(n: nat)
    requires n <= 255
    ensures IsU8(Numeral(n)) && '.' !in Numeral(n)
  {
    NumeralReadsBack(n);
  }

  lemma SplitFour(a: string, b: string, c: string, d: string)
    requires '.' !in a && '.' !in b && '.' !in c && '.' !in d
    ensures Split(a + "." + b + "." + c + "." + d, '.') == [a, b, c, d]
  {
    hide Split;
    var cd := c + ['.'] + d;
    var bcd := b + ['.'] + cd;
    SplitFirst(d, '.', "");
    SplitFirst(c, '.', d);
    SplitFirst(b, '.', cd);
    SplitFirst(a, '.', bcd);
    assert a + "." + b + "." + c + "." + d == a + ['.'] + bcd;
    assert [c] + [d] == [c, d] && [b] + [c, d] == [b, c, d];
  }

  lemma FourBytesAreNoHost(a: string, b: string, c: string, d: string)
    requires '.' !in a && '.' !in b && '.' !in c && '.' !in d && IsU8(a) && IsU8(b) && IsU8(c) && IsU8(d)
    ensures !ValidHost(a + "." + b + "." + c + "." + d)
  {
    hide Split, IsU8, ValidHost;
    SplitFour(a, b, c, d);
    var quad := a + "." + b + "." + c + "." + d;
    assert forall p <- [a, b, c, d] :: IsU8(p);
    assert IsIpLiteral(quad);
    IpLiteralIsNoHost(quad);
  }

  lemma IpLiteralIsNoHost(host: string)
    requires IsIpLiteral(host)
    ensures !ValidHost(host)
  {
    hide IsIpLiteral, EqIgnoreAsciiCase, EndsWith;
  }

  /** Four numbers of a byte each, written as a dotted quad, are never a host. */
  lemma DottedQuadIsNoHost(a: nat, b: nat, c: nat, d: nat)
    requires a <= 255 && b <= 255 && c <= 255 && d <= 255
    ensures !ValidHost(Numeral(a) + "." + Numeral(b) + "." + Numeral(c) + "." + Numeral(d))
  {
    hide Numeral, IsU8, ValidHost;
    ByteIsU8(a);
    ByteIsU8(b);
    ByteIsU8(c);
    ByteIsU8(d);
    FourBytesAreNoHost(Numeral(a), Numeral(b), Numeral(c), Numeral(d));
  }

  // ----- Hosts, ports and origins, spelled out ------------------------------------------------------

  predicate IsShortNumber(digits: string) { digits != "" && AllDigits(digits) && Value(digits) <= 255 }

  /** With or without a plus sign in front. */
  predicate WritesNumber(s: string, digits: string) { (s == digits || s == "+" + digits) && IsShortNumber(digits) }

  /** Rust's `u8` parser accepts the digits of a number up to 255, with or without a plus sign in front. */
  lemma U8Exactly(s: string)
    ensures IsU8(s) <==> exists digits :: WritesNumber(s, digits)
  {
    if IsU8(s) {
      var digits := if s[0] == '+' then s[1..] else s;
      assert WritesNumber(s, digits);
    }
    if digits :| WritesNumber(s, digits) {
      assert IsDigit(digits[0]);
      assert s == "+" + digits ==> s[1..] == digits;
    }
  }

  /** A dotted quad of such numbers. */
  ghost predicate IsQuad(host: string) { exists a, b, c, d :: IsQuadOf(host, a, b, c, d) }

  predicate IsQuadOf(host: string, a: string, b: string, c: string, d: string) {
    host == a + "." + b + "." + c + "." + d && IsU8(a) && IsU8(b) && IsU8(c) && IsU8(d)
  }

  lemma U8HasNoDot(s: string)
    requires IsU8(s)
    ensures '.' !in s && ':' !in s
  {
  }

  lemma QuadIsIp(host: string, a: string, b: string, c: string, d: string)
    requires IsQuadOf(host, a, b, c, d)
    ensures IsIpLiteral(host)
  {
    hide Split, IsU8;
    U8HasNoDot(a);
    U8HasNoDot(b);
    U8HasNoDot(c);
    U8HasNoDot(d);
    SplitFour(a, b, c, d);
    assert forall p <- [a, b, c, d] :: IsU8(p);
  }

  lemma IpIsQuad(host: string)
    requires IsIpLiteral(host) && ':' !in host
    ensures IsQuad(host)
  {
    hide Split, IsU8;
    var p := Split(host, '.');
    assert p[0] in p && p[1] in p && p[2] in p && p[3] in p;
    JoinFour(host, '.');
    assert IsQuadOf(host, p[0], p[1], p[2], p[3]);
  }

  lemma QuadExactly(host: string)
    requires ':' !in host
    ensures IsIpLiteral(host) <==> IsQuad(host)
  {
    hide IsIpLiteral, IsQuadOf;
    if a, b, c, d :| IsQuadOf(host, a, b, c, d) { QuadIsIp(host, a, b, c, d); }
    if IsIpLiteral(host) { IpIsQuad(host); }
  }

  lemma JoinFour(s: string, sep: char)
    requires |Split(s, sep)| == 4
    ensures var p := Split(s, sep); s == p[0] + [sep] + p[1] + [sep] + p[2] + [sep] + p[3]
  {
    hide Split;
    var p := Split(s, sep);
    var s1 := AfterFirstPiece(s, sep);
    var s2 := AfterFirstPiece(s1, sep);
    var s3 := AfterFirstPiece(s2, sep);
    var _ := AfterFirstPiece(s3, sep);
    assert Split(s1, sep) == p[1..] && Split(s2, sep) == p[1..][1..] && Split(s3, sep) == p[1..][1..][1..];
    assert p[1..][0] == p[1] && p[1..][1..][0] == p[2] && p[1..][1..][1..][0] == p[3];
  }

  const HOST_ALPHABET := LOWER + UPPER + DIGITS + "-."

  lemma HostCharExactly(c: char)
    ensures IsHostChar(c) <==> c in HOST_ALPHABET
  {
    var lower, upper, digits, rest: string := LOWER, UPPER, DIGITS, "-.";
    LowerExactly(c);
    UpperExactly(c);
    DigitsExactly(c);
    assert c in HOST_ALPHABET <==> c in lower || c in upper || c in digits || c in rest;
  }

  /** A valid host, without the functions that check it: 1 to 253 characters of the alphabet, no two dots in a row, not
      `localhost` in any case, not under `.local`, and not a dotted quad. */
  lemma HostIsValidExactly(host: string)
    ensures ValidHost(host) <==>
      && 1 <= |host| <= 253 && (forall c <- host :: c in HOST_ALPHABET)
      && !SameUpToCase(host, "localhost")
      && !(exists a :: host == a + ".local")
      && !(exists a, b :: host == a + ".." + b)
      && !IsQuad(host)
  {
    hide IsHostChar, IsIpLiteral, IsQuad, EqIgnoreAsciiCase, SameUpToCase;
    EqIgnoresExactlyCase(host, "localhost");
    forall c ensures IsHostChar(c) <==> c in HOST_ALPHABET { HostCharExactly(c); }
    if ':' in host {
      assert !IsHostChar(':') by { HostCharExactly(':'); ColonIsNoHostChar(); }
    } else {
      QuadExactly(host);
    }
    EndsExactly(host, ".local");
    TwoDotsExactly(host);
  }

  lemma ColonIsNoHostChar()
    ensures !IsHostChar(':')
  {
  }

  lemma EndsExactly(s: string, suffix: string)
    ensures EndsWith(s, suffix) <==> exists a :: s == a + suffix
  {
    if EndsWith(s, suffix) { assert s == s[..|s| - |suffix|] + suffix; }
  }

  lemma TwoDotsExactly(s: string)
    ensures (exists a, b :: s == a + ".." + b)
       <==> !(forall k :: 0 <= k < |s| - 1 ==> !(s[k] == '.' && s[k + 1] == '.'))
  {
    if k :| 0 <= k < |s| - 1 && s[k] == '.' && s[k + 1] == '.' { assert s == s[..k] + ".." + s[k + 2..]; }
    if a, b :| s == a + ".." + b { assert s[|a|] == '.' && s[|a| + 1] == '.'; }
  }

  /** The text of an origin, and the range of ports. */
  lemma OriginExactly(host: string, port: nat)
    ensures Origin(host, None) == "https://" + host
    ensures Origin(host, Some(port)) == "https://" + host + ":" + Numeral(port)
    ensures ValidPort(None) && (ValidPort(Some(port)) <==> 1 <= port <= 65535)
  {
  }

  // ----- The normal form is stable ----------------------------------------------------------------

  predicate IsOrigin(o: string) { Parse(o) == Ok(o) }

  lemma OriginText(host: string, port: Option<nat>) returns (digits: string)
    requires ValidHost(host) && ValidPort(port)
    ensures var o := Origin(host, port);
            && o != "" && !IsWhitespace(o[0]) && !IsWhitespace(o[|o| - 1])
            && o == SCHEME + if port.None? then host else host + ":" + digits
    ensures port.Some? ==> PortDigits(digits, port.value)
  {
    ValidHostHasNoSeparator(host);
    digits := "";
    if port.Some? {
      digits := Numeral(port.value);
      NumeralReadsBack(port.value);
      var o := Origin(host, port);
      assert o == SCHEME + (host + ":" + digits);
      assert o[|o| - 1] == digits[|digits| - 1];
    }
  }

  /** What `parse` stores it parses back unchanged, ports that were given with leading zeros included. */
  lemma ParsedIsOrigin(raw: string)
    requires Parse(raw).Ok?
    ensures IsOrigin(Parse(raw).value)
  {
    hide Split, ValidHost, ParseAuthority, Trim, Origin, Parse, IsWhitespace;
    var host, port, _, _ := ParsedUrlShape(raw);
    var o := Origin(host, port);
    var digits := OriginText(host, port);
    var kept := TrimKeepsPrefix(o, "");
    assert o + "" == o && kept == "";
    UrlParses(o, host, port, digits, "");
  }

  /** An origin followed by a slash and any path parses to that origin. */
  lemma OriginOfUrl(o: string, path: string)
    requires IsOrigin(o)
    ensures Parse(o + "/" + path) == Ok(o)
  {
    hide Split, ValidHost, ParseAuthority, Trim, Origin, Parse;
    var host, port, _, _ := ParsedUrlShape(o);
    var digits := OriginText(host, port);
    var kept := TrimKeepsPrefix(o + "/", path);
    UrlParses(o + "/" + path, host, port, digits, "/" + kept);
  }

  /** Two spellings are the same origin exactly when host and port number agree; the host keeps its case. */
  lemma OriginIsInjective(host: string, port: Option<nat>, host': string, port': Option<nat>)
    requires ValidHost(host) && ValidHost(host') && Origin(host, port) == Origin(host', port')
    ensures host == host' && port == port'
  {
    hide Split, ValidHost;
    ValidHostHasNoSeparator(host);
    ValidHostHasNoSeparator(host');
    var after := if port.Some? then ":" + Numeral(port.value) else "";
    var after' := if port'.Some? then ":" + Numeral(port'.value) else "";
    assert host + after == Origin(host, port)[|SCHEME|..] && host' + after' == Origin(host', port')[|SCHEME|..];
    BeforeColon(host, after, host', after');
    if port.Some? {
      assert after[1..] == Numeral(port.value) && after'[1..] == Numeral(port'.value);
      NumeralReadsBack(port.value);
      NumeralReadsBack(port'.value);
    }
  }

  lemma BeforeColon(a: string, after: string, b: string, after': string)
    requires a + after == b + after' && ':' !in a && ':' !in b
    requires (after == "" || after[0] == ':') && (after' == "" || after'[0] == ':')
    ensures a == b && after == after'
  {
    FirstPiece(a, after, ':');
    FirstPiece(b, after', ':');
    assert after == (a + after)[|a|..] && after' == (b + after')[|b|..];
  }

  // ----- The allow list ------------------------------------------------------------------------------

  /** The first occurrences, in order. */
  function Dedup(origins: seq<string>): (out: seq<string>)
    ensures forall o :: o in out <==> o in origins
  {
    if origins == [] then []
    else
      var before, last := Dedup(origins[..|origins| - 1]), origins[|origins| - 1];
      assert forall o :: o in origins <==> o in origins[..|origins| - 1] || o == last;
      if last in before then before else before + [last]
  }

  /** The list is rejected exactly when the origins before its last one already hold the maximum of different ones:
      the cap is checked before the duplicates, so one more of the same is too many. */
  predicate FitsCap(origins: seq<string>) {
    origins == [] || |Dedup(origins[..|origins| - 1])| < MAX_EGRESS_ALLOW
  }

  function Normalized(origins: seq<string>): Result<seq<string>, DomainError> {
    if FitsCap(origins) then Ok(Dedup(origins)) else Err(TooManyEgressOrigins)
  }

  lemma {:induction false} DedupGrows(origins: seq<string>, k: nat)
    requires k <= |origins|
    ensures Dedup(origins[..k]) <= Dedup(origins)
    decreases |origins|
  {
    if k < |origins| {
      var before := origins[..|origins| - 1];
      DedupGrows(before, k);
      assert before[..k] == origins[..k];
    } else {
      assert origins[..k] == origins;
    }
  }

  lemma DedupStep(origins: seq<string>, i: nat)
    requires i < |origins|
    ensures var before := Dedup(origins[..i]);
            Dedup(origins[..i + 1]) == if origins[i] in before then before else before + [origins[i]]
  {
    assert origins[..i + 1][..i] == origins[..i];
  }

  method NormalizeEgressAllow(origins: seq<string>) returns (r: Result<seq<string>, DomainError>)
    ensures r == Normalized(origins)
  {
    hide Dedup;
    var out: seq<string> := [];
    assert out == Dedup(origins[..0]) by { DedupFixes(origins[..0]); }
    for i := 0 to |origins|
      invariant out == Dedup(origins[..i])
      invariant i > 0 ==> |Dedup(origins[..i - 1])| < MAX_EGRESS_ALLOW
    {
      if |out| >= MAX_EGRESS_ALLOW {
        DedupGrows(origins[..|origins| - 1], i);
        assert origins[..|origins| - 1][..i] == origins[..i];
        return Err(TooManyEgressOrigins);
      }
      DedupStep(origins, i);
      if origins[i] !in out { out := out + [origins[i]]; }
    }
    assert origins[..|origins|] == origins;
    return Ok(out);
  }

  ghost predicate NoDuplicates(s: seq<string>) { forall i, j :: 0 <= i < j < |s| ==> s[i] != s[j] }

  lemma {:induction false} DedupHasNoDuplicates(origins: seq<string>)
    ensures NoDuplicates(Dedup(origins))
    decreases |origins|
  {
    if origins != [] { DedupHasNoDuplicates(origins[..|origins| - 1]); }
  }

  lemma {:induction false} DedupFixes(s: seq<string>)
    requires NoDuplicates(s)
    ensures Dedup(s) == s
    decreases |s|
  {
    if s != [] {
      var before := s[..|s| - 1];
      DedupFixes(before);
      assert s == before + [s[|s| - 1]];
    }
  }

  function FirstIndex(s: seq<string>, o: string): (i: nat)
    requires o in s
    ensures i < |s| && s[i] == o && forall j :: 0 <= j < i ==> s[j] != o
  {
    if s[0] == o then 0 else 1 + FirstIndex(s[1..], o)
  }

  /** The origins are kept in the order of their first occurrences. */
  lemma {:induction false} DedupKeepsOrder(origins: seq<string>, i: nat, j: nat)
    requires i < j < |Dedup(origins)|
    ensures FirstIndex(origins, Dedup(origins)[i]) < FirstIndex(origins, Dedup(origins)[j])
    decreases |origins|
  {
    var n := |origins| - 1;
    var before, last := origins[..n], origins[n];
    var a, b := Dedup(origins)[i], Dedup(origins)[j];
    assert a in before;
    SameFirstIndex(before, last, a);
    assert origins == before + [last];
    if b in before {
      DedupHasNoDuplicates(origins);
      SameFirstIndex(before, last, b);
      assert j < |Dedup(before)|;
      DedupKeepsOrder(before, i, j);
    }
  }

  lemma SameFirstIndex(s: seq<string>, last: string, o: string)
    requires o in s
    ensures o in s + [last] && FirstIndex(s + [last], o) == FirstIndex(s, o)
  {
    var i, k := FirstIndex(s, o), FirstIndex(s + [last], o);
    assert (s + [last])[i] == s[i] && (k < |s| ==> (s + [last])[k] == s[k]);
  }

  /** An accepted list has no duplicates, has the same origins in the order of their first occurrences, is within the
      cap, and normalises to itself. */
  lemma NormalizationIsStable(origins: seq<string>)
    requires Normalized(origins).Ok?
    ensures var out := Normalized(origins).value;
            && NoDuplicates(out)
            && (forall o :: o in out <==> o in origins)
            && (forall i, j :: 0 <= i < j < |out| ==> FirstIndex(origins, out[i]) < FirstIndex(origins, out[j]))
            && |out| <= 8 && Normalized(out) == Ok(out)
  {
    hide Dedup, FirstIndex;
    var out := Dedup(origins);
    DedupHasNoDuplicates(origins);
    DedupFixes(out);
    if origins == [] {
      DedupFixes(origins);
    } else {
      DedupStep(origins, |origins| - 1);
      assert origins[..|origins|] == origins;
    }
    if out != [] { DedupFixes(out[..|out| - 1]); }
    forall i, j | 0 <= i < j < |out| ensures FirstIndex(origins, out[i]) < FirstIndex(origins, out[j]) {
      DedupKeepsOrder(origins, i, j);
    }
  }

  function Different(s: seq<string>): set<string> { set o | o in s }

  lemma {:induction false} DedupCounts(s: seq<string>)
    ensures |Dedup(s)| == |Different(s)|
    decreases |s|
  {
    if s == [] {
      assert Different(s) == {};
    } else {
      var before, last := s[..|s| - 1], s[|s| - 1];
      DedupCounts(before);
      assert s == before + [last];
      assert Different(s) == Different(before) + {last};
      assert last in Different(before) ==> Different(before) + {last} == Different(before);
    }
  }

  /** A list is refused exactly when the origins before its last one are already eight different ones. */
  lemma RefusedExactly(origins: seq<string>)
    ensures Normalized(origins).Err? <==> origins != [] && |Different(origins[..|origins| - 1])| >= 8
    ensures Normalized(origins).Err? ==> Normalized(origins).error == TooManyEgressOrigins
  {
    hide Dedup;
    if origins != [] { DedupCounts(origins[..|origins| - 1]); }
  }

  /** Eight different origins are accepted, but followed by one more mention of any of them they are refused, although
      there is nothing new to add. */
  lemma RepeatAfterEightIsRejected(origins: seq<string>, o: string)
    requires NoDuplicates(origins) && |origins| == 8 && o in origins
    ensures Normalized(origins) == Ok(origins)
    ensures Dedup(origins + [o]) == origins && Normalized(origins + [o]) == Err(TooManyEgressOrigins)
  {
    DedupFixes(origins);
    DedupFixes(origins[..|origins| - 1]);
    assert (origins + [o])[..|origins|] == origins;
  }

  // ----- Through the catalog -----------------------------------------------------------------------------

  /** The stored attribute is a string set, and left out when the list is empty. */
  function Write(allow: seq<string>): Option<set<string>> {
    if allow == [] then None else Some(set o | o in allow)
  }

  /** `order` is the order in which the set comes back. */
  predicate ReadsAs(stored: Option<set<string>>, order: seq<string>) {
    if stored.None? then order == [] else |order| == |stored.value| && (set o | o in order) == stored.value
  }

  /** The egress attribute of a catalog item, element by element. */
  method ReadEgressAllow(stored: Option<set<string>>, order: seq<string>) returns (r: Result<seq<string>, DomainError>)
    requires ReadsAs(stored, order)
    ensures r.Ok? <==> forall k :: 0 <= k < |order| ==> Parse(order[k]).Ok?
    ensures r.Ok? ==> |r.value| == |order| && forall k :: 0 <= k < |order| ==> Ok(r.value[k]) == Parse(order[k])
  {
    hide Parse;
    var out: seq<string> := [];
    for i := 0 to |order|
      invariant |out| == i && forall k :: 0 <= k < i ==> Parse(order[k]) == Ok(out[k])
    {
      var o := Parse(order[i]);
      if o.Err? { return Err(o.error); }
      out := out + [o.value];
    }
    return Ok(out);
  }

  /** Writing and reading a list of origins back gives the same set of origins, in whatever order the set comes back;
      each of them parses to itself. */
  lemma CatalogKeepsTheSet(allow: seq<string>, order: seq<string>)
    requires (forall o <- allow :: IsOrigin(o)) && ReadsAs(Write(allow), order)
    ensures forall k :: 0 <= k < |order| ==> Parse(order[k]) == Ok(order[k])
    ensures forall o :: o in order <==> o in allow
  {
    hide Parse;
    if allow != [] {
      var stored := Write(allow).value;
      forall o ensures o in order <==> o in allow {
        assert o in allow <==> o in stored;
        assert o in order <==> o in (set x | x in order);
      }
    }
    forall k | 0 <= k < |order| ensures IsOrigin(order[k]) { assert order[k] in allow; }
  }

  // ----- At fetch time -------------------------------------------------------------------------------------

  predicate IsAllowed(url: string, allow: seq<string>) {
    allow != [] && Parse(url).Ok? && exists k :: 0 <= k < |allow| && allow[k] == Parse(url).value
  }

  /** From the request to the fetch: a URL is allowed under the list that comes back from the catalog exactly when its
      origin is one of those that the publish request named, in any spelling, duplicates and order being lost. */
  lemma AllowedExactly(raws: seq<string>, origins: seq<string>, order: seq<string>, url: string)
    requires |raws| == |origins| && forall k :: 0 <= k < |raws| ==> Parse(raws[k]) == Ok(origins[k])
    requires Normalized(origins).Ok? && ReadsAs(Write(Normalized(origins).value), order)
    ensures IsAllowed(url, order) <==> exists k :: 0 <= k < |raws| && Parse(url).Ok? && Parse(raws[k]) == Parse(url)
  {
    hide Parse;
    forall o <- Normalized(origins).value ensures IsOrigin(o) {
      var k :| 0 <= k < |origins| && origins[k] == o;
      ParsedIsOrigin(raws[k]);
    }
    CatalogKeepsTheSet(Normalized(origins).value, order);
    if k :| 0 <= k < |raws| && Parse(url).Ok? && Parse(raws[k]) == Parse(url) {
      assert origins[k] in order;
    }
    if IsAllowed(url, order) {
      assert Parse(url).value in origins;
    }
  }

  /** A listed origin, followed by a slash and any path, is allowed. */
  lemma ListedOriginIsAllowed(allow: seq<string>, o: string, path: string)
    requires o in allow && IsOrigin(o)
    ensures IsAllowed(o + "/" + path, allow)
  {
    hide Parse;
    OriginOfUrl(o, path);
  }
}
