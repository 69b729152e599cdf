/** The on-chain parser and printer of `{"ids":[...],"prices":[...]}`.

    `Parse` and `Document` are the reference functions. The methods below them are the
    contract's loops, each proved to compute its reference function. `CanonicalPriceJsonLaws`
    proves that the two are inverse to each other. */
module CanonicalPriceJson {
  import opened Decimal
  import opened Results

  const UINT256_MAX: nat :=
    0xffff_ffff_ffff_ffff_ffff_ffff_ffff_ffff_ffff_ffff_ffff_ffff_ffff_ffff_ffff_ffff

  /** The checked step `value * 10 + c - 48` forms `value + 48` first, so the last 48
      values of the type cannot be read. */
  const PARSE_MAX: nat := UINT256_MAX - 48

  const HEAD: seq<byte> := "{\"ids\":["
  const MIDDLE: seq<byte> := "],\"prices\":["
  const TAIL: seq<byte> := "]}"

  datatype Error = InvalidJson | LengthMismatch | Panic

  /** `Err` stands for a revert. */
  type Outcome<+T> = Result<T, Error>

  datatype Payload = Payload(ids: seq<seq<byte>>, prices: seq<nat>)

  predicate IsIdChar(c: char) {
    'a' <= c <= 'z' || '0' <= c <= '9' || c == '-' || c == '_'
  }

  predicate IsId(s: seq<byte>) {
    s != [] && forall k :: 0 <= k < |s| ==> IsIdChar(s[k])
  }

  // ----- The document a payload stands for ---------------------------------------------

  function Quoted(id: seq<byte>): seq<byte> { "\"" + id + "\"" }

  /** The elements of an array, separated by single commas. */
  function Join<T>(xs: seq<T>, show: T -> seq<byte>): seq<byte> {
    if |xs| == 0 then []
    else if |xs| == 1 then show(xs[0])
    else show(xs[0]) + "," + Join(xs[1..], show)
  }

  function Document(ids: seq<seq<byte>>, prices: seq<nat>): seq<byte> {
    HEAD + Join(ids, Quoted) + MIDDLE + Join<nat>(prices, Numeral) + TAIL
  }

  // ----- The reference parser ----------------------------------------------------------

  function Expect(body: seq<byte>, i: nat, needle: seq<byte>): Outcome<nat> {
    if i + |needle| <= |body| && body[i..i + |needle|] == needle then Ok(i + |needle|)
    else Err(InvalidJson)
  }

  /** The first position from `i` on that does not satisfy `p`. */
  function SkipWhile(body: seq<byte>, i: nat, p: char -> bool): (j: nat)
    requires i <= |body|
    ensures i <= j <= |body|
    ensures forall k :: i <= k < j ==> p(body[k])
    ensures j < |body| ==> !p(body[j])
    decreases |body| - i
  {
    if i < |body| && p(body[i]) then SkipWhile(body, i + 1, p) else i
  }

  predicate NotBracket(c: char) { c != ']' }

  function Commas(s: seq<byte>): nat {
    if s == [] then 0 else Commas(s[..|s| - 1]) + if s[|s| - 1] == ',' then 1 else 0
  }

  function ReadQuoted(body: seq<byte>, i: nat): Outcome<(seq<byte>, nat)> {
    if i >= |body| || body[i] != '"' then Err(InvalidJson)
    else
      var end := SkipWhile(body, i + 1, IsIdChar);
      if end >= |body| || body[end] != '"' || end == i + 1 then Err(InvalidJson)
      else Ok((body[i + 1..end], end + 1))
  }

  ghost function ReadUint(body: seq<byte>, i: nat): Outcome<(nat, nat)> {
    if i >= |body| || !IsDigit(body[i]) then Err(InvalidJson)
    else
      var end := SkipWhile(body, i, IsDigit);
      if body[i] == '0' then
        if end > i + 1 then Err(InvalidJson) else Ok((0, i + 1))
      else if Value(body[i..end]) > PARSE_MAX then Err(Panic)
      else Ok((Value(body[i..end]), end))
  }

  /** Behind the elements `done`, exactly `left` more, with a comma between two. */
  ghost function ReadMore<T>(done: seq<T>, body: seq<byte>, i: nat, left: nat,
                             read: (seq<byte>, nat) -> Outcome<(T, nat)>): Outcome<(seq<T>, nat)>
    decreases left
  {
    if left == 0 then Ok((done, i))
    else
      var (x, next) :- read(body, i);
      if left == 1 then Ok((done + [x], next))
      else
        var after :- Expect(body, next, ",");
        ReadMore(done + [x], body, after, left - 1, read)
  }

  /** An array body: the number of elements is fixed by the commas before the first `]`. */
  ghost function ReadArray<T>(body: seq<byte>, i: nat,
                              read: (seq<byte>, nat) -> Outcome<(T, nat)>): Outcome<(seq<T>, nat)> {
    if i >= |body| then Err(InvalidJson)
    else if body[i] == ']' then Ok(([], i))
    else
      var j := SkipWhile(body, i, NotBracket);
      if j >= |body| then Err(InvalidJson)
      else ReadMore([], body, i, Commas(body[i..j]) + 1, read)
  }

  ghost function Parse(body: seq<byte>): (r: Outcome<Payload>)
    ensures r.Ok? ==> |r.value.ids| == |r.value.prices| > 0
  {
    var i :- Expect(body, 0, HEAD);
    var (ids, i1) :- ReadArray(body, i, ReadQuoted);
    var i2 :- Expect(body, i1, MIDDLE);
    var (prices, i3) :- ReadArray(body, i2, ReadUint);
    var i4 :- Expect(body, i3, TAIL);
    if i4 != |body| then Err(InvalidJson)
    else if |ids| != |prices| then Err(LengthMismatch)
    else if |ids| == 0 then Err(InvalidJson)
    else Ok(Payload(ids, prices))
  }

  // ----- The contract's loops ----------------------------------------------------------

  method ExpectBytes(body: seq<byte>, i: nat, needle: seq<byte>) returns (r: Outcome<nat>)
    ensures r == Expect(body, i, needle)
  {
    if i + |needle| > |body| { return Err(InvalidJson); }
    for k := 0 to |needle|
      invariant forall m :: 0 <= m < k ==> body[i + m] == needle[m]
    {
      if body[i + k] != needle[k] {
        assert body[i..i + |needle|][k] != needle[k];
        return Err(InvalidJson);
      }
    }
    assert body[i..i + |needle|] == needle;
    return Ok(i + |needle|);
  }

  method ParseQuotedString(body: seq<byte>, at: nat) returns (r: Outcome<(seq<byte>, nat)>)
    ensures r == ReadQuoted(body, at)
  {
    if at >= |body| || body[at] != '"' { return Err(InvalidJson); }
    var i := at + 1;
    var start := i;
    ghost var end := SkipWhile(body, start, IsIdChar);
    while i < |body| && body[i] != '"'
      invariant start <= i <= |body|
      invariant SkipWhile(body, i, IsIdChar) == end
    {
      var c := body[i];
      var ok := ('a' <= c <= 'z') || ('0' <= c <= '9') || c == '-' || c == '_';
      if !ok { return Err(InvalidJson); }
      i := i + 1;
    }
    if i >= |body| || start == i { return Err(InvalidJson); }
    var s := new byte[i - start];
    for k := 0 to s.Length
      invariant forall m :: 0 <= m < k ==> s[m] == body[start + m]
    {
      s[k] := body[start + k];
    }
    assert s[..] == body[start..i];
    return Ok((s[..], i + 1));
  }

  /** Solidity's checked multiply and add; `!ok` stands for the overflow panic. */
  method CheckedStep(value: nat, c: byte) returns (ok: bool, next: nat)
    requires value <= UINT256_MAX && IsDigit(c)
    ensures ok <==> value * 10 + (c as int - 48) <= PARSE_MAX
    ensures ok ==> next == value * 10 + (c as int - 48)
  {
    var product := value * 10;
    if product > UINT256_MAX { return false, 0; }
    var sum := product + c as int;
    if sum > UINT256_MAX { return false, 0; }
    return true, sum - 48;
  }

  /** The value read so far grows by one digit and stays below the value of the whole run. */
  lemma DigitRead(body: seq<byte>, at: nat, i: nat, end: nat)
    requires at <= i < end <= |body| && AllDigits(body[at..end])
    ensures AllDigits(body[at..i]) && AllDigits(body[at..i + 1])
    ensures Value(body[at..i + 1]) == Value(body[at..i]) * 10 + (body[i] as int - 48) <= Value(body[at..end])
  {
    var run := body[at..end];
    assert run[..i - at] == body[at..i] && run[..i + 1 - at] == body[at..i + 1];
    assert body[at..i] + [run[i - at]] == body[at..i + 1];
    ValueAppend(body[at..i], run[i - at]);
    ValueOfPrefix(run, i + 1 - at);
  }

  method ParseUint(body: seq<byte>, at: nat) returns (r: Outcome<(nat, nat)>)
    ensures r == ReadUint(body, at)
  {
    if at >= |body| || body[at] < '0' || body[at] > '9' { return Err(InvalidJson); }
    if body[at] == '0' {
      var n := at + 1;
      if n < |body| && '0' <= body[n] <= '9' { return Err(InvalidJson); }
      return Ok((0, n));
    }
    var i, value := at, 0;
    ghost var end := SkipWhile(body, at, IsDigit);
    assert AllDigits(body[at..end]) && body[at..at] == [];
    while i < |body| && '0' <= body[i] <= '9'
      invariant at <= i <= end
      invariant AllDigits(body[at..i]) && value == Value(body[at..i]) <= PARSE_MAX
    {
      DigitRead(body, at, i, end);
      var ok, next := CheckedStep(value, body[i]);
      if !ok { return Err(Panic); }
      value, i := next, i + 1;
    }
    return Ok((value, i));
  }

  /** The comma pre-scan: where the array closes and how many commas come before. */
  method PreScan(body: seq<byte>, i: nat) returns (j: nat, count: nat)
    requires i <= |body|
    ensures j == SkipWhile(body, i, NotBracket)
    ensures count == Commas(body[i..j]) + 1
  {
    count, j := 1, i;
    while j < |body| && body[j] != ']'
      invariant i <= j <= |body|
      invariant SkipWhile(body, i, NotBracket) == SkipWhile(body, j, NotBracket)
      invariant count == Commas(body[i..j]) + 1
    {
      assert body[i..j + 1][..j - i] == body[i..j];
      if body[j] == ',' { count := count + 1; }
      j := j + 1;
    }
  }

  /** The element loop of `ParseStringArray`: fills `ids` and returns the position behind. */
  method FillStrings(ids: array<seq<byte>>, body: seq<byte>, at: nat) returns (r: Outcome<nat>)
    modifies ids
    ensures ReadMore([], body, at, ids.Length, ReadQuoted)
         == match r case Ok(end) => Ok((ids[..], end)) case Err(e) => Err(e)
  {
    var i := at;
    for n := 0 to ids.Length
      invariant ReadMore([], body, at, ids.Length, ReadQuoted)
             == ReadMore(ids[..n], body, i, ids.Length - n, ReadQuoted)
    {
      var item := ParseQuotedString(body, i);
      if item.Err? { return Err(item.error); }
      ghost var done := ids[..n];
      ids[n], i := item.value.0, item.value.1;
      assert ids[..n + 1] == done + [item.value.0];
      if n + 1 < ids.Length {
        var comma := ExpectBytes(body, i, ",");
        if comma.Err? { return comma; }
        i := comma.value;
      }
    }
    assert ids[..] == ids[..ids.Length];
    return Ok(i);
  }

  method ParseStringArray(body: seq<byte>, at: nat) returns (r: Outcome<(seq<seq<byte>>, nat)>)
    ensures r == ReadArray(body, at, ReadQuoted)
  {
    if at >= |body| { return Err(InvalidJson); }
    if body[at] == ']' { return Ok(([], at)); }
    var j, count := PreScan(body, at);
    if j >= |body| { return Err(InvalidJson); }
    var ids := new seq<byte>[count];
    var end := FillStrings(ids, body, at);
    if end.Err? { return Err(end.error); }
    return Ok((ids[..], end.value));
  }

  /** The element loop of `ParseUintArray`: fills `prices` and returns the position behind. */
  method FillUints(prices: array<nat>, body: seq<byte>, at: nat) returns (r: Outcome<nat>)
    modifies prices
    ensures ReadMore([], body, at, prices.Length, ReadUint)
         == match r case Ok(end) => Ok((prices[..], end)) case Err(e) => Err(e)
  {
    var i := at;
    for n := 0 to prices.Length
      invariant ReadMore([], body, at, prices.Length, ReadUint)
             == ReadMore(prices[..n], body, i, prices.Length - n, ReadUint)
    {
      var item := ParseUint(body, i);
      if item.Err? { return Err(item.error); }
      ghost var done := prices[..n];
      prices[n], i := item.value.0, item.value.1;
      assert prices[..n + 1] == done + [item.value.0];
      if n + 1 < prices.Length {
        var comma := ExpectBytes(body, i, ",");
        if comma.Err? { return comma; }
        i := comma.value;
      }
    }
    assert prices[..] == prices[..prices.Length];
    return Ok(i);
  }

  method ParseUintArray(body: seq<byte>, at: nat) returns (r: Outcome<(seq<nat>, nat)>)
    ensures r == ReadArray(body, at, ReadUint)
  {
    if at >= |body| { return Err(InvalidJson); }
    if body[at] == ']' { return Ok(([], at)); }
    var j, count := PreScan(body, at);
    if j >= |body| { return Err(InvalidJson); }
    var prices := new nat[count];
    var end := FillUints(prices, body, at);
    if end.Err? { return Err(end.error); }
    return Ok((prices[..], end.value));
  }

  method ParseBody(body: seq<byte>) returns (r: Outcome<Payload>)
    ensures r == Parse(body)
  {
    var i :- ExpectBytes(body, 0, HEAD);
    var ids :- ParseStringArray(body, i);
    i :- ExpectBytes(body, ids.1, MIDDLE);
    var prices :- ParseUintArray(body, i);
    i :- ExpectBytes(body, prices.1, TAIL);
    if i != |body| { return Err(InvalidJson); }
    if |ids.0| != |prices.0| { return Err(LengthMismatch); }
    if |ids.0| == 0 { return Err(InvalidJson); }
    return Ok(Payload(ids.0, prices.0));
  }

  /** The digits of `n`, none for zero. */
  ghost function Digits(n: nat): seq<byte> { if n == 0 then [] else Numeral(n) }

  lemma DigitsStep(n: nat)
    requires n > 0
    ensures Digits(n) != [] && Digits(n)[|Digits(n)| - 1] == DigitChar(n % 10)
    ensures Digits(n)[..|Digits(n)| - 1] == Digits(n / 10)
  {
    assert n < 10 ==> n / 10 == 0 && n % 10 == n;
  }

  lemma NoDigits()
    ensures Digits(0) == []
  {
  }

  /** First pass of the printer: how many digits `n` has. */
  method CountDigits(n: nat) returns (digits: nat)
    ensures digits == |Digits(n)|
  {
    var temp := n;
    digits := 0;
    while temp != 0
      invariant digits + |Digits(temp)| == |Digits(n)|
    {
      DigitsStep(temp);
      digits, temp := digits + 1, temp / 10;
    }
  }

  /** Second pass: write the digits into the buffer, last one first. */
  method FillDigits(buffer: array<byte>, n: nat)
    requires buffer.Length == |Digits(n)|
    modifies buffer
    ensures buffer[..] == Digits(n)
  {
    hide Digits, Numeral;
    NoDigits();
    var digits, value := buffer.Length, n;
    ghost var all := Digits(n);
    while value != 0
      invariant 0 <= digits <= buffer.Length && Digits(value) == all[..digits]
      invariant forall k :: digits <= k < buffer.Length ==> buffer[k] == all[k]
    {
      DigitsStep(value);
      digits := digits - 1;
      buffer[digits] := DigitChar(value % 10);
      value := value / 10;
    }
  }

  method UintToString(value: nat) returns (s: seq<byte>)
    ensures s == Numeral(value)
  {
    if value == 0 { return "0"; }
    var digits := CountDigits(value);
    var buffer := new byte[digits];
    FillDigits(buffer, value);
    s := buffer[..];
  }

  /** Appending one element to a joined array. */
  lemma {:induction false} JoinAppend<T>(xs: seq<T>, x: T, show: T -> seq<byte>)
    ensures Join(xs + [x], show) == if xs == [] then show(x) else Join(xs, show) + "," + show(x)
  {
    if |xs| > 0 {
      JoinAppend(xs[1..], x, show);
      assert (xs + [x])[1..] == xs[1..] + [x];
    }
  }

  /** The document printed so far after `n` elements, and after one more. */
  lemma JoinStep<T>(front: seq<byte>, xs: seq<T>, n: nat, show: T -> seq<byte>)
    requires n < |xs|
    ensures front + Join(xs[..n + 1], show)
         == front + Join(xs[..n], show) + (if n > 0 then "," else "") + show(xs[n])
  {
    JoinAppend(xs[..n], xs[n], show);
    assert xs[..n] + [xs[n]] == xs[..n + 1];
  }

  method Encode(ids: seq<seq<byte>>, prices: seq<nat>) returns (r: Outcome<seq<byte>>)
    ensures r == if |ids| != |prices| then Err(LengthMismatch)
                 else if |ids| == 0 then Err(InvalidJson)
                 else Ok(Document(ids, prices))
  {
    if |ids| != |prices| { return Err(LengthMismatch); }
    if |ids| == 0 { return Err(InvalidJson); }
    var out: seq<byte> := HEAD;
    for n := 0 to |ids|
      invariant out == HEAD + Join(ids[..n], Quoted)
    {
      JoinStep(HEAD, ids, n, Quoted);
      if n > 0 { out := out + ","; }
      assert out + ("\"" + ids[n] + "\"") == out + "\"" + ids[n] + "\"";
      out := out + "\"" + ids[n] + "\"";
    }
    assert ids[..|ids|] == ids;
    out := out + MIDDLE;
    ghost var front := out;
    for n := 0 to |prices|
      invariant out == front + Join<nat>(prices[..n], Numeral)
    {
      JoinStep<nat>(front, prices, n, Numeral);
      if n > 0 { out := out + ","; }
      var digits := UintToString(prices[n]);
      out := out + digits;
    }
    assert prices[..|prices|] == prices;
    return Ok(out + TAIL);
  }
}
