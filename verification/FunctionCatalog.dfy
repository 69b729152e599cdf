/** A catalog item: what `upsert` writes and what `resolve` makes of it. */
module FunctionCatalog {
  import opened Wrappers
  import opened Results
  import opened Egress
  import opened Text
  import Pipeline = InvokePipeline

  type AppError = Pipeline.AppError

  /** An attribute is `None` if it is missing or of another type. */
  datatype Item = Item(fnId: Option<string>, versionLabel: Option<string>, contentHash: Option<string>,
                       egress: Option<set<string>>)

  type Byte = n: nat | n < 256

  datatype Version = Version(id: string, versionLabel: string, contentHash: seq<Byte>, egressAllow: seq<string>)

  // ----- Hexadecimal ---------------------------------------------------------------------------

  function HexDigit(d: nat): (c: char)
    requires d < 16
    ensures HexValue(c) == Some(d)
  {
    if d < 10 then (48 + d) as char else (87 + d) as char
  }

  function HexValue(c: char): (d: Option<nat>)
    ensures d.Some? ==> d.value < 16
  {
    if '0' <= c <= '9' then Some(c as int - 48)
    else if 'a' <= c <= 'f' then Some(c as int - 87)
    else if 'A' <= c <= 'F' then Some(c as int - 55)
    else None
  }

  function ToHex(bytes: seq<Byte>): string {
    if bytes == [] then "" else [HexDigit(bytes[0] / 16), HexDigit(bytes[0] % 16)] + ToHex(bytes[1..])
  }

  function FromHex(s: string): Option<seq<Byte>> {
    if s == "" then Some([])
    else if |s| == 1 then None
    else
      var high :- HexValue(s[0]);
      var low :- HexValue(s[1]);
      var rest :- FromHex(s[2..]);
      Some([high * 16 + low] + rest)
  }

  /** Bytes written in hexadecimal read back. */
  lemma {:induction false} HexReadsBack(bytes: seq<Byte>)
    ensures FromHex(ToHex(bytes)) == Some(bytes)
  {
    if bytes != [] {
      HexReadsBack(bytes[1..]);
      assert ToHex(bytes)[2..] == ToHex(bytes[1..]);
      assert [bytes[0]] + bytes[1..] == bytes;
    }
  }

  // ----- Attributes ------------------------------------------------------------------------------

  /** The length in UTF-8, which is what the limits count. */
  function Utf8Length(s: string): nat {
    if s == "" then 0
    else
      var n := s[0] as int;
      (if n < 0x80 then 1 else if n < 0x800 then 2 else if n < 0x1_0000 then 3 else 4) + Utf8Length(s[1..])
  }

  predicate IsIdChar(c: char) { 'a' <= c <= 'z' || 'A' <= c <= 'Z' || '0' <= c <= '9' || c == '-' || c == '_' }

  predicate ValidFunctionId(s: string) { 0 < Utf8Length(s) <= 64 && forall c <- s :: IsIdChar(c) }

  predicate ValidLabel(s: string) { 0 < Utf8Length(s) <= 64 }

  predicate ValidHash(s: string) { FromHex(s).Some? && |FromHex(s).value| == 32 }

  // ----- Reading an item ---------------------------------------------------------------------------

  /** Every attribute is there and decodes. */
  predicate IsComplete(item: Item, order: seq<string>) {
    && item.fnId.Some? && ValidFunctionId(item.fnId.value)
    && item.versionLabel.Some? && ValidLabel(item.versionLabel.value)
    && item.contentHash.Some? && ValidHash(item.contentHash.value)
    && forall k :: 0 <= k < |order| ==> Parse(order[k]).Ok?
  }

  /** Of the attributes that are needed, the first one that is not right is missing. */
  predicate LacksAttribute(item: Item) {
    item.fnId.None? || (ValidFunctionId(item.fnId.value) &&
      (item.versionLabel.None? || (ValidLabel(item.versionLabel.value) && item.contentHash.None?)))
  }

  method VersionFromItem(item: Item, order: seq<string>) returns (r: Result<Version, AppError>)
    requires ReadsAs(item.egress, order)
    ensures r.Ok? <==> IsComplete(item, order)
    ensures r.Err? ==> r.error == if LacksAttribute(item) then Pipeline.Storage else Pipeline.Domain
    ensures r.Ok? ==>
      && r.value.id == item.fnId.value && r.value.versionLabel == item.versionLabel.value
      && Some(r.value.contentHash) == FromHex(item.contentHash.value)
      && |r.value.egressAllow| == |order|
      && forall k :: 0 <= k < |order| ==> Parse(order[k]) == Ok(r.value.egressAllow[k])
  {
    hide Parse, ReadsAs, FromHex, Utf8Length;
    if item.fnId.None? { return Err(Pipeline.Storage); }
    if !ValidFunctionId(item.fnId.value) { return Err(Pipeline.Domain); }
    if item.versionLabel.None? { return Err(Pipeline.Storage); }
    if !ValidLabel(item.versionLabel.value) { return Err(Pipeline.Domain); }
    if item.contentHash.None? { return Err(Pipeline.Storage); }
    if !ValidHash(item.contentHash.value) { return Err(Pipeline.Domain); }
    var allow := ReadEgressAllow(item.egress, order);
    if allow.Err? { return Err(Pipeline.Domain); }
    return Ok(Version(item.fnId.value, item.versionLabel.value, FromHex(item.contentHash.value).value, allow.value));
  }

  /** The item that an upsert writes, without its generation. */
  function Upserted(v: Version): Item {
    Item(Some(v.id), Some(v.versionLabel), Some(ToHex(v.contentHash)), Write(v.egressAllow))
  }

  /** Whatever an upsert writes resolves to the same id, label and hash, and to the same set of origins. */
  lemma UpsertedItemIsRead(v: Version, order: seq<string>)
    requires ValidFunctionId(v.id) && ValidLabel(v.versionLabel) && |v.contentHash| == 32
    requires (forall o <- v.egressAllow :: IsOrigin(o)) && ReadsAs(Write(v.egressAllow), order)
    ensures IsComplete(Upserted(v), order)
    ensures FromHex(Upserted(v).contentHash.value) == Some(v.contentHash)
    ensures forall k :: 0 <= k < |order| ==> Parse(order[k]) == Ok(order[k])
    ensures forall o :: o in order <==> o in v.egressAllow
  {
    hide Parse, FromHex, ToHex, ReadsAs, Write, ValidFunctionId, ValidLabel;
    HexReadsBack(v.contentHash);
    CatalogKeepsTheSet(v.egressAllow, order);
  }

  // ----- The attributes, spelled out -------------------------------------------------------------------

  const ID_ALPHABET := LOWER + UPPER + DIGITS + "-_"
  const HEX_ALPHABET := "0123456789abcdefABCDEF"

  lemma IdCharExactly(c: char)
    ensures IsIdChar(c) <==> c in ID_ALPHABET
  {
    var lower, upper, digits, rest: string := LOWER, UPPER, DIGITS, "-_";
    LowerExactly(c);
    UpperExactly(c);
    DigitsExactly(c);
    assert c in ID_ALPHABET <==> c in lower || c in upper || c in digits || c in rest;
  }

  predicate IsHexChar(c: char) { c in HEX_ALPHABET }

  lemma HexCharExactly(c: char)
    ensures HexValue(c).Some? <==> IsHexChar(c)
  {
  }

  lemma {:induction false} AsciiLength(s: string)
    requires forall k :: 0 <= k < |s| ==> s[k] as int < 128
    ensures Utf8Length(s) == |s|
  {
    if s != "" { AsciiLength(s[1..]); }
  }

  lemma IdCharsAreAscii(c: char)
    requires IsIdChar(c)
    ensures c as int < 128
  {
  }

  /** A function id is 1 to 64 characters of the alphabet. */
  lemma FunctionIdExactly(s: string)
    ensures ValidFunctionId(s) <==> 1 <= |s| <= 64 && forall c <- s :: c in ID_ALPHABET
  {
    hide Utf8Length, IsIdChar;
    forall c ensures IsIdChar(c) <==> c in ID_ALPHABET { IdCharExactly(c); }
    if forall c <- s :: IsIdChar(c) {
      forall k | 0 <= k < |s| ensures s[k] as int < 128 { IdCharsAreAscii(s[k]); }
      AsciiLength(s);
    }
  }

  lemma {:induction false} LengthAdds(a: string, b: string)
    ensures Utf8Length(a + b) == Utf8Length(a) + Utf8Length(b)
  {
    if a == "" {
      assert a + b == b;
    } else {
      LengthAdds(a[1..], b);
      assert (a + b)[1..] == a[1..] + b;
    }
  }

  /** One to four bytes for a character, by its code point. */
  lemma CharLength(c: char)
    ensures var n := Utf8Length([c]); var code := c as int;
            1 <= n <= 4 && (n == 1 <==> code <= 127) && (n <= 2 <==> code <= 2047) && (n <= 3 <==> code <= 65535)
  {
    assert [c][1..] == "";
  }

  /** A label is 1 to 64 bytes in UTF-8. */
  lemma LabelExactly(s: string)
    ensures ValidLabel(s) <==> 1 <= Utf8Length(s) <= 64
  {
  }

  predicate AllHex(s: string) { forall k :: 0 <= k < |s| ==> IsHexChar(s[k]) }

  lemma HexStep(s: string)
    requires |s| >= 2
    ensures var high, low, rest := HexValue(s[0]), HexValue(s[1]), FromHex(s[2..]);
            FromHex(s) == if high.None? || low.None? || rest.None? then None
                          else Some([high.value * 16 + low.value] + rest.value)
  {
    hide HexValue;
  }

  lemma AllHexStep(s: string)
    requires |s| >= 2
    ensures AllHex(s) <==> IsHexChar(s[0]) && IsHexChar(s[1]) && AllHex(s[2..])
  {
    hide IsHexChar;
    assert forall k :: 2 <= k < |s| ==> s[k] == s[2..][k - 2];
  }

  /** What hexadecimal reading promises about a string. */
  predicate HexRead(s: string) {
    && (FromHex(s).Some? <==> |s| % 2 == 0 && AllHex(s))
    && (FromHex(s).Some? ==> 2 * |FromHex(s).value| == |s|)
  }

  lemma HexReadStep(s: string)
    requires |s| >= 2 && HexRead(s[2..])
    ensures HexRead(s)
  {
    hide HexValue, IsHexChar, AllHex, FromHex;
    HexCharExactly(s[0]);
    HexCharExactly(s[1]);
    HexStep(s);
    AllHexStep(s);
    assert |s| % 2 == |s[2..]| % 2;
  }

  lemma {:induction false} HexIsReadExactly(s: string)
    ensures HexRead(s)
  {
    if |s| >= 2 {
      HexIsReadExactly(s[2..]);
      HexReadStep(s);
    } else {
      hide HexValue, IsHexChar;
    }
  }

  /** A hash is 64 hexadecimal digits of either case. */
  lemma HashExactly(s: string)
    ensures ValidHash(s) <==> |s| == 64 && forall k :: 0 <= k < |s| ==> s[k] in HEX_ALPHABET
  {
    hide FromHex;
    HexIsReadExactly(s);
  }

  /** A digit has its value, and the high half comes first. */
  lemma HexPairExactly(high: char, low: char)
    requires HexValue(high).Some? && HexValue(low).Some?
    ensures FromHex([high, low]) == Some([16 * HexValue(high).value + HexValue(low).value])
    ensures HexValue('0') == Some(0) && HexValue('9') == Some(9) && HexValue('a') == HexValue('A') == Some(10)
    ensures HexValue('f') == HexValue('F') == Some(15)
  {
    var s: string, none: string := [high, low], "";
    assert s[2..] == none && FromHex(none) == Some([]);
    HexStep(s);
    var x: Byte := HexValue(high).value * 16 + HexValue(low).value;
    assert [x] + FromHex(none).value == [x];
  }
}
