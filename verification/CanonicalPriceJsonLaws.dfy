/** The parser and the printer are inverse to each other, on exactly the payloads the parser can return. */
module CanonicalPriceJsonLaws {
  import opened Decimal
  import opened CanonicalPriceJson
  import opened Results
  import opened Text

  ghost predicate All<T>(xs: seq<T>, p: T -> bool) { forall x <- xs :: p(x) }

  predicate Readable(n: nat) { n <= PARSE_MAX }

  ghost predicate AllIds(ids: seq<seq<byte>>) { All(ids, IsId) }

  ghost predicate AllReadable(prices: seq<nat>) { All<nat>(prices, Readable) }

  /** The characters of an id, one by one. */
  const ID_ALPHABET := LOWER + DIGITS + "-_"

  predicate IsPlainId(id: seq<byte>) { id != [] && forall k :: 0 <= k < |id| ==> id[k] in ID_ALPHABET }

  ghost predicate AllPlain(ids: seq<seq<byte>>) { All(ids, IsPlainId) }

  ghost predicate WellFormed(p: Payload) {
    |p.ids| == |p.prices| > 0 && AllPlain(p.ids) && AllReadable(p.prices)
  }

  lemma AlphabetIsExact(c: char)
    ensures IsIdChar(c) <==> c in ID_ALPHABET
  {
    var lower, digits, rest: string := LOWER, DIGITS, "-_";
    LowerExactly(c);
    DigitsExactly(c);
    assert c in ID_ALPHABET <==> c in lower || c in digits || c in rest;
  }

  /** The parser's ids are the non-empty strings over the alphabet. */
  lemma IdsArePlain(ids: seq<seq<byte>>)
    ensures AllIds(ids) <==> AllPlain(ids)
  {
    hide IsIdChar;
    forall c ensures IsIdChar(c) <==> c in ID_ALPHABET { AlphabetIsExact(c); }
    forall id: seq<byte> ensures IsId(id) <==> IsPlainId(id) {}
  }

  // ----- What an element reader and its printer owe each other ------------------------

  /** `s` stands in `body` from position `i` on. */
  ghost predicate At(body: seq<byte>, i: nat, s: seq<byte>) {
    i + |s| <= |body| && forall k :: 0 <= k < |s| ==> body[i + k] == s[k]
  }

  lemma AtConcat(body: seq<byte>, i: nat, a: seq<byte>, b: seq<byte>)
    ensures At(body, i, a + b) <==> At(body, i, a) && At(body, i + |a|, b)
  {
    if At(body, i, a + b) {
      forall k | 0 <= k < |a| ensures body[i + k] == a[k] { assert body[i + k] == (a + b)[k]; }
      forall k | 0 <= k < |b| ensures body[i + |a| + k] == b[k] {
        assert body[i + (|a| + k)] == (a + b)[|a| + k];
      }
    }
    if At(body, i, a) && At(body, i + |a|, b) {
      forall k | |a| <= k < |a + b| ensures body[i + k] == (a + b)[k] {
        assert body[i + |a| + (k - |a|)] == b[k - |a|];
      }
    }
  }

  lemma AtSlice(body: seq<byte>, i: nat, s: seq<byte>)
    ensures At(body, i, s) <==> i + |s| <= |body| && body[i..i + |s|] == s
  {
    if i + |s| <= |body| && body[i..i + |s|] == s {
      forall k | 0 <= k < |s| ensures body[i + k] == s[k] { assert body[i..i + |s|][k] == s[k]; }
    }
  }

  /** `Expect` succeeds exactly where the needle stands. */
  lemma ExpectAt(body: seq<byte>, i: nat, needle: seq<byte>)
    ensures Expect(body, i, needle) == if At(body, i, needle) then Ok(i + |needle|) else Err(InvalidJson)
  {
    AtSlice(body, i, needle);
  }

  predicate IsDelimiter(c: char) { c == ',' || c == ']' }

  /** Whatever `read` returns at `i` is what `show` prints there. */
  ghost predicate Shows<T>(read: (seq<byte>, nat) -> Outcome<(T, nat)>, show: T -> seq<byte>, good: T -> bool,
                           body: seq<byte>, i: nat)
  {
    read(body, i).Ok? ==>
      var (x, end) := read(body, i).value;
      end == i + |show(x)| && At(body, i, show(x)) && good(x)
  }

  /** On the printed `x`, `read` answers with it if it is good, and with `error` otherwise. */
  ghost predicate Answers<T>(read: (seq<byte>, nat) -> Outcome<(T, nat)>, show: T -> seq<byte>, good: T -> bool,
                             error: Error, body: seq<byte>, i: nat, x: T)
  {
    At(body, i, show(x)) && i + |show(x)| < |body| && IsDelimiter(body[i + |show(x)|]) ==>
      read(body, i) == if good(x) then Ok((x, i + |show(x)|)) else Err(error)
  }

  ghost predicate ReadsWhatIsShown<T>(read: (seq<byte>, nat) -> Outcome<(T, nat)>, show: T -> seq<byte>,
                                      good: T -> bool)
  {
    forall body: seq<byte>, i: nat :: Shows(read, show, good, body, i)
  }

  ghost predicate AnswersWhatIsShown<T(!new)>(read: (seq<byte>, nat) -> Outcome<(T, nat)>, show: T -> seq<byte>,
                                              shown: T -> bool, good: T -> bool, error: Error)
  {
    forall body: seq<byte>, i: nat, x :: shown(x) ==> Answers(read, show, good, error, body, i, x)
  }

  ghost predicate Plain(s: seq<byte>) { s != [] && ',' !in s && ']' !in s }

  lemma QuotedReads()
    ensures ReadsWhatIsShown(ReadQuoted, Quoted, IsId)
  {
  }

  lemma QuotedIsRead()
    ensures AnswersWhatIsShown(ReadQuoted, Quoted, IsId, IsId, InvalidJson)
  {
    forall body: seq<byte>, i: nat, id | IsId(id)
      ensures Answers(ReadQuoted, Quoted, IsId, InvalidJson, body, i, id)
    {
      if At(body, i, Quoted(id)) { QuotedAnswers(body, i, id); }
    }
  }

  lemma QuotedAnswers(body: seq<byte>, i: nat, id: seq<byte>)
    requires IsId(id) && At(body, i, Quoted(id))
    ensures ReadQuoted(body, i) == Ok((id, i + |Quoted(id)|))
  {
    AtConcat(body, i, "\"" + id, "\"");
    AtConcat(body, i, "\"", id);
    AtSlice(body, i + 1, id);
    assert body[i] == '"' by { assert body[i + 0] == "\""[0]; }
    assert body[i + 1 + |id|] == '"' by { assert body[i + 1 + |id| + 0] == "\""[0]; }
    SkipStops(body, i + 1, IsIdChar, i + 1 + |id|);
  }

  /** A run of characters satisfying `p`, followed by one that does not. */
  lemma {:induction false} SkipStops(body: seq<byte>, i: nat, p: char -> bool, j: nat)
    requires i <= j < |body| && !p(body[j])
    requires forall k :: i <= k < j ==> p(body[k])
    ensures SkipWhile(body, i, p) == j
    decreases j - i
  {
    if i < j { SkipStops(body, i + 1, p, j); }
  }

  predicate AnyNumber(n: nat) { true }

  lemma UintReads()
    ensures ReadsWhatIsShown<nat>(ReadUint, Numeral, Readable)
  {
    forall body: seq<byte>, i: nat ensures Shows<nat>(ReadUint, Numeral, Readable, body, i) {
      if ReadUint(body, i).Ok? { UintShows(body, i); }
    }
  }

  lemma UintIsRead()
    ensures AnswersWhatIsShown<nat>(ReadUint, Numeral, AnyNumber, Readable, Panic)
  {
    hide Numeral, ReadUint;
    forall body: seq<byte>, i: nat, n: nat ensures Answers<nat>(ReadUint, Numeral, Readable, Panic, body, i, n) {
      if At(body, i, Numeral(n)) && i + |Numeral(n)| < |body| && IsDelimiter(body[i + |Numeral(n)|]) {
        NumeralAnswers(body, i, n);
      }
    }
  }

  lemma NumeralAnswers(body: seq<byte>, i: nat, n: nat)
    requires At(body, i, Numeral(n)) && i + |Numeral(n)| < |body| && IsDelimiter(body[i + |Numeral(n)|])
    ensures ReadUint(body, i) == if Readable(n) then Ok((n, i + |Numeral(n)|)) else Err(Panic)
  {
    hide Numeral, ReadUint;
    NumeralReadsBack(n);
    UintAnswers(body, i, Numeral(n), n);
  }

  lemma UintShows(body: seq<byte>, i: nat)
    requires ReadUint(body, i).Ok?
    ensures var (n, end) := ReadUint(body, i).value;
            end == i + |Numeral(n)| && At(body, i, Numeral(n)) && Readable(n)
  {
    var (n, end) := ReadUint(body, i).value;
    var s := body[i..end];
    if body[i] == '0' {
      assert Numeral(0) == "0";
    } else {
      NumeralIsCanonical(s);
    }
  }

  lemma UintAnswers(body: seq<byte>, i: nat, s: seq<byte>, n: nat)
    requires Writes(s, n)
    requires At(body, i, s) && i + |s| < |body| && IsDelimiter(body[i + |s|])
    ensures ReadUint(body, i) == if Readable(n) then Ok((n, i + |s|)) else Err(Panic)
  {
    assert body[i + 0] == s[0];
    forall k | i <= k < i + |s| ensures IsDigit(body[k]) { assert body[i + (k - i)] == s[k - i]; }
    SkipStops(body, i, IsDigit, i + |s|);
    assert body[i..i + |s|] == s;
  }

  lemma NumeralsArePlain(prices: seq<nat>)
    ensures forall n <- prices :: Plain(Numeral(n))
  {
    forall n <- prices ensures Plain(Numeral(n)) { NumeralReadsBack(n); }
  }

  // ----- Arrays ------------------------------------------------------------------------

  lemma {:induction false} ReadMoreIsSound<T(!new)>(done: seq<T>, body: seq<byte>, i: nat, left: nat,
      read: (seq<byte>, nat) -> Outcome<(T, nat)>, show: T -> seq<byte>, good: T -> bool) returns (more: seq<T>)
    requires ReadsWhatIsShown(read, show, good) && left > 0
    requires ReadMore(done, body, i, left, read).Ok?
    ensures |more| == left && All(more, good) && At(body, i, Join(more, show))
    ensures ReadMore(done, body, i, left, read).value == (done + more, i + |Join(more, show)|)
    decreases left
  {
    assert Shows(read, show, good, body, i);
    var (x, next) := read(body, i).value;
    if left == 1 {
      more := [x];
    } else {
      ExpectAt(body, next, ",");
      var rest := ReadMoreIsSound(done + [x], body, next + 1, left - 1, read, show, good);
      more := [x] + rest;
      assert done + [x] + rest == done + more && more[1..] == rest;
      AtConcat(body, i, show(x), ",");
      AtConcat(body, i, show(x) + ",", Join(rest, show));
    }
  }

  /** A joined array of several elements starts with one, a comma, and the joined others. */
  lemma JoinAt<T>(body: seq<byte>, i: nat, xs: seq<T>, show: T -> seq<byte>)
    requires |xs| > 1 && At(body, i, Join(xs, show))
    ensures var next := i + |show(xs[0])|;
            && At(body, i, show(xs[0])) && Expect(body, next, ",") == Ok(next + 1)
            && next < |body| && IsDelimiter(body[next])
            && At(body, next + 1, Join(xs[1..], show)) && |Join(xs, show)| == next - i + 1 + |Join(xs[1..], show)|
  {
    AtConcat(body, i, show(xs[0]) + ",", Join(xs[1..], show));
    AtConcat(body, i, show(xs[0]), ",");
    var next := i + |show(xs[0])|;
    ExpectAt(body, next, ",");
    assert body[next + 0] == ","[0];
  }

  lemma {:induction false} ReadMoreIsComplete<T(!new)>(done: seq<T>, body: seq<byte>, i: nat, xs: seq<T>,
      read: (seq<byte>, nat) -> Outcome<(T, nat)>, show: T -> seq<byte>, shown: T -> bool, good: T -> bool,
      error: Error)
    requires AnswersWhatIsShown(read, show, shown, good, error)
    requires xs != [] && All(xs, shown) && At(body, i, Join(xs, show))
    requires i + |Join(xs, show)| < |body| && body[i + |Join(xs, show)|] == ']'
    ensures ReadMore(done, body, i, |xs|, read)
         == if All(xs, good) then Ok((done + xs, i + |Join(xs, show)|)) else Err(error)
    decreases |xs|
  {
    var x, rest := xs[0], xs[1..];
    assert xs == [x] + rest && x in xs;
    assert All(xs, good) <==> good(x) && All(rest, good);
    assert done + xs == done + [x] + rest;
    assert Answers(read, show, good, error, body, i, x);
    if |xs| == 1 {
      assert done + xs == done + [x];
    } else {
      JoinAt(body, i, xs, show);
      if good(x) {
        ReadMoreIsComplete(done + [x], body, i + |show(x)| + 1, rest, read, show, shown, good, error);
      }
    }
  }

  lemma {:induction false} CommasAdd(a: seq<byte>, b: seq<byte>)
    ensures Commas(a + b) == Commas(a) + Commas(b)
    decreases |b|
  {
    if b == [] {
      assert a + b == a;
    } else {
      assert (a + b)[..|a + b| - 1] == a + b[..|b| - 1];
      CommasAdd(a, b[..|b| - 1]);
    }
  }

  lemma {:induction false} NoCommas(s: seq<byte>)
    requires ',' !in s
    ensures Commas(s) == 0
  {
    if s != [] { NoCommas(s[..|s| - 1]); }
  }

  /** The pre-scan counts elements: a joined array has one comma less than elements, and no bracket. */
  lemma {:induction false} JoinedCommas<T>(xs: seq<T>, show: T -> seq<byte>)
    requires xs != [] && forall x <- xs :: Plain(show(x))
    ensures Commas(Join(xs, show)) == |xs| - 1 && ']' !in Join(xs, show) && Join(xs, show) != []
  {
    NoCommas(show(xs[0]));
    if |xs| > 1 {
      JoinedCommas(xs[1..], show);
      CommasAdd(show(xs[0]), ",");
      CommasAdd(show(xs[0]) + ",", Join(xs[1..], show));
      assert ","[..0] == [];
    }
  }

  lemma ReadArrayIsSound<T(!new)>(body: seq<byte>, i: nat,
      read: (seq<byte>, nat) -> Outcome<(T, nat)>, show: T -> seq<byte>, good: T -> bool)
    requires ReadsWhatIsShown(read, show, good)
    requires ReadArray(body, i, read).Ok?
    ensures var (xs, end) := ReadArray(body, i, read).value;
            All(xs, good) && end == i + |Join(xs, show)| && At(body, i, Join(xs, show))
  {
    if body[i] != ']' {
      var j := SkipWhile(body, i, NotBracket);
      var more := ReadMoreIsSound([], body, i, Commas(body[i..j]) + 1, read, show, good);
      assert [] + more == more;
    }
  }

  lemma ReadArrayIsComplete<T(!new)>(body: seq<byte>, i: nat, xs: seq<T>,
      read: (seq<byte>, nat) -> Outcome<(T, nat)>, show: T -> seq<byte>, shown: T -> bool, good: T -> bool,
      error: Error)
    requires AnswersWhatIsShown(read, show, shown, good, error)
    requires All(xs, shown) && forall x <- xs :: Plain(show(x))
    requires At(body, i, Join(xs, show)) && At(body, i + |Join(xs, show)|, "]")
    ensures ReadArray(body, i, read)
         == if All(xs, good) then Ok((xs, i + |Join(xs, show)|)) else Err(error)
  {
    var end := i + |Join(xs, show)|;
    assert body[end] == ']' by { assert body[end + 0] == "]"[0]; }
    if xs != [] {
      JoinedCommas(xs, show);
      forall k | i <= k < end ensures NotBracket(body[k]) {
        assert body[i + (k - i)] == Join(xs, show)[k - i];
      }
      AtSlice(body, i, Join(xs, show));
      SkipStops(body, i, NotBracket, end);
      ReadMoreIsComplete([], body, i, xs, read, show, shown, good, error);
      assert [] + xs == xs;
    }
  }

  lemma IdsAreSound(body: seq<byte>, i: nat)
    requires ReadArray(body, i, ReadQuoted).Ok?
    ensures var (ids, end) := ReadArray(body, i, ReadQuoted).value;
            AllIds(ids) && end == i + |Join(ids, Quoted)| && At(body, i, Join(ids, Quoted))
  {
    ReadArrayIsSound(body, i, ReadQuoted, Quoted, IsId) by { QuotedReads(); }
  }

  lemma PricesAreSound(body: seq<byte>, i: nat)
    requires ReadArray(body, i, ReadUint).Ok?
    ensures var (prices, end) := ReadArray(body, i, ReadUint).value;
            AllReadable(prices) && end == i + |Join<nat>(prices, Numeral)| && At(body, i, Join<nat>(prices, Numeral))
  {
    ReadArrayIsSound<nat>(body, i, ReadUint, Numeral, Readable) by { UintReads(); }
  }

  lemma IdsAreComplete(body: seq<byte>, i: nat, ids: seq<seq<byte>>)
    requires AllIds(ids) && At(body, i, Join(ids, Quoted)) && At(body, i + |Join(ids, Quoted)|, "]")
    ensures ReadArray(body, i, ReadQuoted) == Ok((ids, i + |Join(ids, Quoted)|))
  {
    hide Join, ReadQuoted;
    ReadArrayIsComplete(body, i, ids, ReadQuoted, Quoted, IsId, IsId, InvalidJson) by {
      QuotedIsRead();
    }
  }

  lemma PricesAreComplete(body: seq<byte>, i: nat, prices: seq<nat>)
    requires At(body, i, Join<nat>(prices, Numeral)) && At(body, i + |Join<nat>(prices, Numeral)|, "]")
    ensures ReadArray(body, i, ReadUint)
         == if AllReadable(prices) then Ok((prices, i + |Join<nat>(prices, Numeral)|)) else Err(Panic)
  {
    hide Numeral, ReadUint, Join;
    UintIsRead();
    NumeralsArePlain(prices);
    assert All<nat>(prices, AnyNumber);
    ReadArrayIsComplete<nat>(body, i, prices, ReadUint, Numeral, AnyNumber, Readable, Panic);
  }

  lemma AtFive(body: seq<byte>, a: seq<byte>, b: seq<byte>, c: seq<byte>, d: seq<byte>, e: seq<byte>)
    ensures At(body, 0, a + b + c + d + e) <==>
      At(body, 0, a) && At(body, |a|, b) && At(body, |a| + |b|, c)
      && At(body, |a| + |b| + |c|, d) && At(body, |a| + |b| + |c| + |d|, e)
  {
    AtConcat(body, 0, a, b);
    AtConcat(body, 0, a + b, c);
    AtConcat(body, 0, a + b + c, d);
    AtConcat(body, 0, a + b + c + d, e);
  }

  // ----- The laws ----------------------------------------------------------------------

  /** Whatever the parser accepts is, byte for byte, the document of the payload it returns. */
  lemma ParseIsSound(body: seq<byte>)
    requires Parse(body).Ok?
    ensures WellFormed(Parse(body).value)
    ensures body == Document(Parse(body).value.ids, Parse(body).value.prices)
  {
    hide Join, Numeral, ReadArray;
    var i := |HEAD|;
    ExpectAt(body, 0, HEAD);
    IdsAreSound(body, i);
    var (ids, i1) := ReadArray(body, i, ReadQuoted).value;
    var i2 := i1 + |MIDDLE|;
    ExpectAt(body, i1, MIDDLE);
    PricesAreSound(body, i2);
    var (prices, i3) := ReadArray(body, i2, ReadUint).value;
    ExpectAt(body, i3, TAIL);
    AtFive(body, HEAD, Join(ids, Quoted), MIDDLE, Join<nat>(prices, Numeral), TAIL);
    AtSlice(body, 0, Document(ids, prices));
    IdsArePlain(ids);
  }

  /** The parts of a document, with the closing bracket behind each array. */
  ghost predicate HasParts(body: seq<byte>, ids: seq<seq<byte>>, prices: seq<nat>) {
    var i := |HEAD|;
    var i1 := i + |Join(ids, Quoted)|;
    var i2 := i1 + |MIDDLE|;
    var i3 := i2 + |Join<nat>(prices, Numeral)|;
    && At(body, 0, HEAD) && At(body, i, Join(ids, Quoted)) && At(body, i1, "]") && At(body, i1, MIDDLE)
    && At(body, i2, Join<nat>(prices, Numeral)) && At(body, i3, "]") && At(body, i3, TAIL)
    && |body| == i3 + |TAIL|
  }

  lemma DocumentHasParts(ids: seq<seq<byte>>, prices: seq<nat>)
    ensures HasParts(Document(ids, prices), ids, prices)
  {
    hide Join, Numeral;
    var body, a, b := Document(ids, prices), Join(ids, Quoted), Join<nat>(prices, Numeral);
    AtSlice(body, 0, body);
    AtFive(body, HEAD, a, MIDDLE, b, TAIL);
    assert MIDDLE == "]" + MIDDLE[1..] && TAIL == "]" + TAIL[1..];
    AtConcat(body, |HEAD| + |a|, "]", MIDDLE[1..]);
    AtConcat(body, |HEAD| + |a| + |MIDDLE| + |b|, "]", TAIL[1..]);
  }

  /** The fixed parts of a document pass the parser's checks. */
  lemma FixedPartsAreRead(body: seq<byte>, ids: seq<seq<byte>>, prices: seq<nat>)
    requires HasParts(body, ids, prices)
    ensures var i := |HEAD|; var i1 := i + |Join(ids, Quoted)|; var i2 := i1 + |MIDDLE|;
            var i3 := i2 + |Join<nat>(prices, Numeral)|;
            && Expect(body, 0, HEAD) == Ok(i)
            && Expect(body, i1, MIDDLE) == Ok(i2)
            && Expect(body, i3, TAIL) == Ok(|body|)
  {
    hide Join, Numeral;
    var i1 := |HEAD| + |Join(ids, Quoted)|;
    ExpectAt(body, 0, HEAD);
    ExpectAt(body, i1, MIDDLE);
    ExpectAt(body, i1 + |MIDDLE| + |Join<nat>(prices, Numeral)|, TAIL);
  }

  /** So do its arrays, unless a price is too large. */
  lemma ArraysAreRead(body: seq<byte>, ids: seq<seq<byte>>, prices: seq<nat>)
    requires AllIds(ids) && HasParts(body, ids, prices)
    ensures var i := |HEAD|; var i1 := i + |Join(ids, Quoted)|; var i2 := i1 + |MIDDLE|;
            var i3 := i2 + |Join<nat>(prices, Numeral)|;
            && ReadArray(body, i, ReadQuoted) == Ok((ids, i1))
            && ReadArray(body, i2, ReadUint) == (if AllReadable(prices) then Ok((prices, i3)) else Err(Panic))
  {
    hide Join, Numeral, At, ReadArray;
    IdsAreComplete(body, |HEAD|, ids);
    PricesAreComplete(body, |HEAD| + |Join(ids, Quoted)| + |MIDDLE|, prices);
  }

  /** What the parser should do with a document of valid ids, whatever the two lengths and the prices. */
  ghost function Verdict(ids: seq<seq<byte>>, prices: seq<nat>): Outcome<Payload> {
    if !AllReadable(prices) then Err(Panic)
    else if |ids| != |prices| then Err(LengthMismatch)
    else if |ids| == 0 then Err(InvalidJson)
    else Ok(Payload(ids, prices))
  }

  lemma PartsAreParsed(body: seq<byte>, ids: seq<seq<byte>>, prices: seq<nat>)
    requires AllIds(ids) && HasParts(body, ids, prices)
    ensures Parse(body) == Verdict(ids, prices)
  {
    hide Join, Numeral, At, ReadArray, Expect;
    FixedPartsAreRead(body, ids, prices);
    ArraysAreRead(body, ids, prices);
  }

  lemma ParseOfDocument(ids: seq<seq<byte>>, prices: seq<nat>)
    requires AllPlain(ids)
    ensures Parse(Document(ids, prices)) == Verdict(ids, prices)
  {
    IdsArePlain(ids);
    DocumentHasParts(ids, prices);
    PartsAreParsed(Document(ids, prices), ids, prices);
  }

  /** The parser accepts exactly the documents of well-formed payloads. */
  lemma ParseAcceptsExactlyDocuments(body: seq<byte>)
    ensures Parse(body).Ok? <==> exists p :: WellFormed(p) && body == Document(p.ids, p.prices)
  {
    if Parse(body).Ok? { ParseIsSound(body); }
    forall p | WellFormed(p) && body == Document(p.ids, p.prices) ensures Parse(body).Ok? {
      ParseOfDocument(p.ids, p.prices);
    }
  }

  /** Parsing undoes printing exactly when the ids are valid and no price is among the top 48 values. */
  lemma RoundTrip(ids: seq<seq<byte>>, prices: seq<nat>)
    requires |ids| == |prices| > 0
    ensures Parse(Document(ids, prices)) == Ok(Payload(ids, prices)) <==> AllPlain(ids) && AllReadable(prices)
  {
    if Parse(Document(ids, prices)) == Ok(Payload(ids, prices)) { ParseIsSound(Document(ids, prices)); }
    if AllPlain(ids) { ParseOfDocument(ids, prices); }
  }

  /** Two well-formed payloads never share a document. */
  lemma DocumentsAreUnambiguous(p: Payload, q: Payload)
    requires WellFormed(p) && WellFormed(q)
    requires Document(p.ids, p.prices) == Document(q.ids, q.prices)
    ensures p == q
  {
    ParseOfDocument(p.ids, p.prices);
    ParseOfDocument(q.ids, q.prices);
  }

  /** A bracket that is not followed by another one cuts a string in one way. */
  lemma LastBracket(u: seq<byte>, v: seq<byte>, u': seq<byte>, v': seq<byte>)
    requires u + "[" + v == u' + "[" + v' && '[' !in v && '[' !in v'
    ensures u == u' && v == v'
  {
    var s := u + "[" + v;
    assert s[|u|] == '[' && s[|u'|] == '[';
    assert |u'| <= |u| ==> forall k :: |u'| < k < |s| ==> s[k] == v'[k - |u'| - 1];
    assert |u| <= |u'| ==> forall k :: |u| < k < |s| ==> s[k] == v[k - |u| - 1];
    assert |u| == |u'|;
    assert u == s[..|u|] && v == s[|u| + 1..] && u' == s[..|u'|] && v' == s[|u'| + 1..];
  }

  lemma {:induction false} PricesHaveNoBracket(prices: seq<nat>)
    ensures '[' !in Join<nat>(prices, Numeral)
  {
    if prices != [] {
      NumeralReadsBack(prices[0]);
      assert '[' !in Numeral(prices[0]);
      if |prices| > 1 { PricesHaveNoBracket(prices[1..]); }
    }
  }

  /** A document cut at its last bracket. */
  lemma CutDocument(ids: seq<seq<byte>>, prices: seq<nat>)
    ensures Document(ids, prices)
         == HEAD + Join(ids, Quoted) + "],\"prices\":" + "[" + (Join<nat>(prices, Numeral) + TAIL)
    ensures '[' !in Join<nat>(prices, Numeral) + TAIL
  {
    hide Join, Numeral;
    PricesHaveNoBracket(prices);
    assert MIDDLE == "],\"prices\":" + "[";
  }

  /** Whatever bytes are printed as a single id, the parser accepts the document exactly if they are an id over the
      alphabet: nothing can be smuggled through an id. */
  lemma SingleIdExactly(id: seq<byte>, price: nat)
    requires price <= PARSE_MAX
    ensures Parse(Document([id], [price])).Ok? <==> IsPlainId(id)
  {
    hide Parse, Document, Join, Numeral, IsPlainId, WellFormed;
    if Parse(Document([id], [price])).Ok? {
      var q := Parse(Document([id], [price])).value;
      ParseIsSound(Document([id], [price]));
      CutDocument([id], [price]);
      CutDocument(q.ids, q.prices);
      LastBracket(HEAD + Join([id], Quoted) + "],\"prices\":", Join<nat>([price], Numeral) + TAIL,
                  HEAD + Join(q.ids, Quoted) + "],\"prices\":", Join<nat>(q.prices, Numeral) + TAIL);
      SameTail(Join<nat>([price], Numeral), Join<nat>(q.prices, Numeral), TAIL);
      OnePriceOneNumeral(price, q.prices);
      assert |q.ids| == 1 by { Lengths(q); }
      SameTail(HEAD + Join([id], Quoted), HEAD + Join(q.ids, Quoted), "],\"prices\":");
      OneId(id, q.ids[0], q.ids);
      assert IsPlainId(q.ids[0]) by { FirstIsPlain(q); }
    }
    if IsPlainId(id) {
      assert AllPlain([id]) && AllReadable([price]);
      ParseOfDocument([id], [price]);
    }
  }

  lemma SameTail(a: seq<byte>, b: seq<byte>, tail: seq<byte>)
    requires a + tail == b + tail
    ensures a == b
  {
    assert |a| == |b|;
    assert a == (a + tail)[..|a|] && b == (b + tail)[..|b|];
  }

  lemma OnePriceOneNumeral(price: nat, prices: seq<nat>)
    requires prices != [] && Join<nat>([price], Numeral) == Join<nat>(prices, Numeral)
    ensures |prices| == 1
  {
    NumeralsArePlain(prices);
    NumeralsArePlain([price]);
    JoinedCommas<nat>(prices, Numeral);
    JoinedCommas<nat>([price], Numeral);
  }

  lemma OneId(id: seq<byte>, other: seq<byte>, others: seq<seq<byte>>)
    requires others == [other] && HEAD + Join([id], Quoted) == HEAD + Join(others, Quoted)
    ensures id == other
  {
    assert Quoted(id) == (HEAD + Join([id], Quoted))[|HEAD|..];
    assert Quoted(other) == (HEAD + Join(others, Quoted))[|HEAD|..];
    assert id == Quoted(id)[1..|id| + 1] && other == Quoted(other)[1..|other| + 1];
  }

  lemma Lengths(q: Payload)
    requires WellFormed(q)
    ensures |q.ids| == |q.prices|
  {
  }

  lemma FirstIsPlain(q: Payload)
    requires WellFormed(q)
    ensures IsPlainId(q.ids[0])
  {
    hide IsPlainId;
    assert q.ids[0] in q.ids;
  }

  /** Upper case is refused. */
  lemma UpperCaseIdIsRefused()
    ensures Parse(Document(["ETH"], [1])).Err?
  {
    hide Parse, Document;
    assert !IsPlainId("ETH") by {
      var id: seq<byte> := "ETH";
      assert id[0] !in ID_ALPHABET;
    }
    SingleIdExactly("ETH", 1);
  }

  lemma JoinTwo<T>(x: T, y: T, show: T -> seq<byte>)
    ensures Join([x, y], show) == show(x) + "," + show(y)
  {
    assert [x, y][1..] == [y];
  }

  lemma ExampleIds()
    ensures Join(["eth", "btc"], Quoted) == "\"eth\",\"btc\""
  {
    hide Join;
    JoinTwo("eth", "btc", Quoted);
    assert Quoted("eth") == "\"eth\"" && Quoted("btc") == "\"btc\"";
  }

  lemma ExamplePrices()
    ensures Join<nat>([35, 7], Numeral) == "35,7"
  {
    hide Join;
    JoinTwo<nat>(35, 7, Numeral);
    assert Numeral(35) == Numeral(3) + "5" && Numeral(3) == "3" && Numeral(7) == "7";
  }

  /** The shape of the documents, byte for byte. */
  lemma ExampleDocument()
    ensures Document(["eth", "btc"], [35, 7]) == "{\"ids\":[\"eth\",\"btc\"],\"prices\":[35,7]}"
  {
    hide Join, Numeral, Quoted;
    ExampleIds();
    ExamplePrices();
  }

  lemma AlphabetHasEth()
    ensures IsPlainId("eth")
  {
  }

  /** The bound of the type. */
  lemma Uint256Exactly()
    ensures UINT256_MAX + 1 == 0x1_0000_0000_0000_0000 * 0x1_0000_0000_0000_0000
                               * 0x1_0000_0000_0000_0000 * 0x1_0000_0000_0000_0000
    ensures PARSE_MAX == UINT256_MAX - 48
  {
  }

  /** The verdict on a document of one price, at the exact bound. */
  lemma SinglePrice(price: nat)
    ensures Parse(Document(["eth"], [price]))
         == if price <= UINT256_MAX - 48 then Ok(Payload(["eth"], [price])) else Err(Panic)
  {
    hide Parse, Document;
    assert AllPlain(["eth"]) by { AlphabetHasEth(); }
    ParseOfDocument(["eth"], [price]);
    assert price in [price];
  }

  /** The unrestricted round trip is false: the printer writes the largest `uint256`, the parser overflows on it. */
  lemma LargestPriceDoesNotRoundTrip()
    ensures Parse(Document(["eth"], [UINT256_MAX])) == Err(Panic)
  {
    SinglePrice(UINT256_MAX);
  }
}
