/** The price guest that runs in the enclave: it prints the document that the contract parses. */
module OracleGuest {
  import opened Wrappers
  import opened Decimal
  import opened CanonicalPriceJson
  import opened Results
  import opened CanonicalPriceJsonLaws

  predicate IsSafeId(id: seq<byte>) {
    |id| > 0 && forall k :: 0 <= k < |id| ==> 'a' <= id[k] <= 'z' || IsDigit(id[k]) || id[k] == '-' || id[k] == '_'
  }

  function MapId(id: seq<byte>): seq<byte> {
    if id == "btc" then "bitcoin" else if id == "eth" then "ethereum" else id
  }

  /** The guest's own printer, with `u64::to_string` as `Numeral`. */
  method EncodeCanonical(ids: seq<seq<byte>>, prices: seq<u64>) returns (out: seq<byte>)
    ensures out == Document(ids, prices)
  {
    out := "{\"ids\":[";
    for i := 0 to |ids|
      invariant out == HEAD + Join(ids[..i], Quoted)
    {
      JoinStep(HEAD, ids, i, Quoted);
      if i > 0 { out := out + [',']; }
      assert out + ("\"" + ids[i] + "\"") == out + ['"'] + ids[i] + ['"'];
      out := out + ['"'] + ids[i] + ['"'];
    }
    assert ids[..|ids|] == ids;
    out := out + "],\"prices\":[";
    ghost var front := out;
    for i := 0 to |prices|
      invariant out == front + Join<nat>(prices[..i], Numeral)
    {
      JoinStep<nat>(front, prices, i, Numeral);
      if i > 0 { out := out + [',']; }
      out := out + Numeral(prices[i]);
    }
    assert prices[..|prices|] == prices;
    out := out + "]}";
  }

  datatype Response = Success(body: seq<byte>) | BadRequest

  /** The upstream name of an id is there: `btc` and `eth` go by their long names, any other id by its own. */
  ghost predicate IsQuoted(id: seq<byte>, quotes: map<seq<byte>, u64>) {
    && (id == "btc" ==> "bitcoin" in quotes)
    && (id == "eth" ==> "ethereum" in quotes)
    && (id != "btc" && id != "eth" ==> id in quotes)
  }

  ghost predicate IsPriceOf(price: u64, id: seq<byte>, quotes: map<seq<byte>, u64>)
    requires IsQuoted(id, quotes)
  {
    && (id == "btc" ==> price == quotes["bitcoin"])
    && (id == "eth" ==> price == quotes["ethereum"])
    && (id != "btc" && id != "eth" ==> price == quotes[id])
  }

  lemma MapIdExactly(id: seq<byte>, quotes: map<seq<byte>, u64>)
    ensures IsQuoted(id, quotes) <==> MapId(id) in quotes
    ensures IsQuoted(id, quotes) ==> IsPriceOf(quotes[MapId(id)], id, quotes)
  {
  }

  /** The prices a successful response must carry, one for each requested id. */
  ghost predicate Quotes(ids: seq<seq<byte>>, quotes: map<seq<byte>, u64>, prices: seq<u64>) {
    && |prices| == |ids|
    && forall k :: 0 <= k < |ids| ==> IsQuoted(ids[k], quotes) && IsPriceOf(prices[k], ids[k], quotes)
  }

  ghost predicate Answerable(ids: seq<seq<byte>>, upstream: Option<map<seq<byte>, u64>>) {
    && |ids| > 0 && upstream.Some?
    && forall k :: 0 <= k < |ids| ==> IsPlainId(ids[k]) && IsQuoted(ids[k], upstream.value)
  }

  /** One request. `upstream` is the decoded price table, `None` for any other upstream status. A response
      succeeds exactly when every id is safe and quoted, and then the contract reads back the ids as
      requested and the quoted prices. */
  method Handler(ids: seq<seq<byte>>, upstream: Option<map<seq<byte>, u64>>) returns (r: Response)
    ensures r.Success? <==> Answerable(ids, upstream)
    ensures r.Success? ==>
      exists prices: seq<u64> :: Quotes(ids, upstream.value, prices) && Parse(r.body) == Ok(Payload(ids, prices))
  {
    hide IsSafeId, MapId, IsQuoted, IsPriceOf, IsPlainId, Parse;
    if |ids| == 0 { return BadRequest; }
    for k := 0 to |ids|
      invariant forall m :: 0 <= m < k ==> IsPlainId(ids[m]) && IsSafeId(ids[m])
    {
      SafeIdsArePlain(ids[k]);
      if !IsSafeId(ids[k]) { return BadRequest; }
    }
    if upstream.None? { return BadRequest; }
    var prices: seq<u64> := [];
    for k := 0 to |ids|
      invariant |prices| == k
      invariant forall m :: 0 <= m < k ==>
        IsQuoted(ids[m], upstream.value) && IsPriceOf(prices[m], ids[m], upstream.value)
    {
      MapIdExactly(ids[k], upstream.value);
      if MapId(ids[k]) !in upstream.value { return BadRequest; }
      prices := prices + [upstream.value[MapId(ids[k])]];
    }
    var body := EncodeCanonical(ids, prices);
    GuestDocumentIsRead(ids, prices);
    assert Quotes(ids, upstream.value, prices);
    return Success(body);
  }

  /** The guest's ids are the contract's: the non-empty strings over the alphabet. */
  lemma SafeIdsArePlain(id: seq<byte>)
    ensures IsSafeId(id) <==> IsPlainId(id)
  {
    hide IsIdChar;
    forall c ensures c in ID_ALPHABET <==> 'a' <= c <= 'z' || IsDigit(c) || c == '-' || c == '_' {
      AlphabetIsExact(c);
      SafeCharsAreIdChars(c);
    }
  }

  lemma SafeCharsAreIdChars(c: char)
    ensures IsIdChar(c) <==> 'a' <= c <= 'z' || IsDigit(c) || c == '-' || c == '_'
  {
  }

  /** The contract accepts the document of a single id exactly if the guest would print it. */
  lemma GuestAndContractAgreeOnIds(id: seq<byte>, price: u64)
    ensures Parse(Document([id], [price])).Ok? <==> IsSafeId(id)
  {
    hide Parse, Document, IsSafeId, IsPlainId;
    SingleIdExactly(id, price);
    SafeIdsArePlain(id);
  }

  /** Guest and contract agree on the bytes: the contract recovers exactly the guest's ids and prices. */
  lemma GuestDocumentIsRead(ids: seq<seq<byte>>, prices: seq<u64>)
    requires |ids| == |prices| > 0 && forall k :: 0 <= k < |ids| ==> IsSafeId(ids[k])
    ensures Parse(Document(ids, prices)) == Ok(Payload(ids, prices))
  {
    hide Parse, Document;
    assert AllPlain(ids) by {
      forall id <- ids ensures IsPlainId(id) { SafeIdsArePlain(id); }
    }
    assert AllReadable(prices) by {
      forall price: nat | price in prices ensures price <= PARSE_MAX {
        var k :| 0 <= k < |prices| && prices[k] == price;
      }
    }
    ParseOfDocument(ids, prices);
  }
}
