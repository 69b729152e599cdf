/** The price oracle contract: pins, attested updates and the price table. */
module NitrumOracle {
  import opened Wrappers
  import opened Decimal
  import opened Text
  import opened CanonicalPriceJson
  import opened CanonicalPriceJsonLaws

  /** `bytes32`; all zero means "not set". */
  type Digest = s: seq<byte> | |s| == 32 witness Zeros(32)

  const UNSET: Digest := Zeros(32)

  type Address = nat
  type Id = seq<byte>

  /** Keccak-256 and SHA-256, left uninterpreted. */
  datatype Hashes = Hashes(keccak256: seq<byte> -> Digest, sha256: seq<byte> -> Digest)

  /** What the attestation validator extracts from a document it accepts. */
  datatype Attestation = Attestation(timestampMs: u64, pcr0: Option<seq<byte>>, userData: Option<seq<byte>>)

  datatype Reason =
    | NotOwner | EnclaveNotSet | MissingArgument | NotAttested
    | MissingPcr0 | DebugPcr0 | InvalidPcr0
    | AttestationTooOld | StaleTimestamp | ArithmeticPanic
    | MissingUserData | InvalidUserDataLength | ContentHashMismatch | BodyHashMismatch
    | BadBody(error: Error) | CanonicalBodyMismatch

  datatype State = State(owner: Address, pcr0Hash: Digest, contentHash: Digest, lastTimestampMs: u64,
                         price: map<Id, nat>, stamp: map<Id, u64>)

  datatype Call =
    | SetEnclave(sender: Address, pcr0Hash: Digest, contentHash: Digest)
    | TransferOwnership(sender: Address, newOwner: Address)
    | UpdatePrice(attested: Option<Attestation>, body: seq<byte>, blockTime: nat)

  /** What is fixed when the contract is deployed. */
  datatype Deployment = Deployment(hashes: Hashes, maxAge: nat)

  // ----- Checks of an update ------------------------------------------------------------

  predicate AllZero(s: seq<byte>) { forall k :: 0 <= k < |s| ==> s[k] == '\0' }

  function CheckPcr0(d: Deployment, s: State, a: Attestation): Option<Reason> {
    if a.pcr0.None? then Some(MissingPcr0)
    else if AllZero(a.pcr0.value) then Some(DebugPcr0)
    else if d.hashes.keccak256(a.pcr0.value) != s.pcr0Hash then Some(InvalidPcr0)
    else None
  }

  function CheckFreshness(d: Deployment, s: State, timestampMs: u64, blockTime: nat): Option<Reason> {
    if timestampMs / 1000 + d.maxAge > UINT256_MAX then Some(ArithmeticPanic)
    else if timestampMs / 1000 + d.maxAge <= blockTime then Some(AttestationTooOld)
    else if timestampMs <= s.lastTimestampMs then Some(StaleTimestamp)
    else None
  }

  function CheckUserData(d: Deployment, s: State, a: Attestation, body: seq<byte>): Option<Reason> {
    if a.userData.None? then Some(MissingUserData)
    else if |a.userData.value| != 64 then Some(InvalidUserDataLength)
    else if a.userData.value[..32] != s.contentHash then Some(ContentHashMismatch)
    else if a.userData.value[32..] != d.hashes.sha256(body) then Some(BodyHashMismatch)
    else None
  }

  ghost function CheckBody(d: Deployment, body: seq<byte>): Option<Reason> {
    match Parse(body)
    case Err(e) => Some(BadBody(e))
    case Ok(p) =>
      if d.hashes.keccak256(Document(p.ids, p.prices)) != d.hashes.keccak256(body) then Some(CanonicalBodyMismatch)
      else None
  }

  /** The first check that fails, in the contract's order. */
  ghost function Refusal(d: Deployment, s: State, attested: Option<Attestation>, body: seq<byte>, blockTime: nat):
    Option<Reason>
  {
    if s.pcr0Hash == UNSET || s.contentHash == UNSET then Some(EnclaveNotSet)
    else if attested.None? then Some(NotAttested)
    else if CheckPcr0(d, s, attested.value).Some? then CheckPcr0(d, s, attested.value)
    else if CheckFreshness(d, s, attested.value.timestampMs, blockTime).Some? then
      CheckFreshness(d, s, attested.value.timestampMs, blockTime)
    else if CheckUserData(d, s, attested.value, body).Some? then CheckUserData(d, s, attested.value, body)
    else CheckBody(d, body)
  }

  /** The table after writing the entries in order. */
  function Written<V>(table: map<Id, V>, ids: seq<Id>, values: seq<V>): map<Id, V>
    requires |ids| == |values|
  {
    if |ids| == 0 then table
    else Written(table, ids[..|ids| - 1], values[..|ids| - 1])[ids[|ids| - 1] := values[|ids| - 1]]
  }

  function Repeat(t: u64, n: nat): (r: seq<u64>)
    ensures |r| == n && forall k :: 0 <= k < n ==> r[k] == t
  {
    seq(n, _ => t)
  }

  ghost function Stored(s: State, timestampMs: u64, p: Payload): State
    requires |p.ids| == |p.prices|
  {
    State(s.owner, s.pcr0Hash, s.contentHash, timestampMs,
          Written(s.price, p.ids, p.prices), Written(s.stamp, p.ids, Repeat(timestampMs, |p.ids|)))
  }

  /** One call: the reason it reverts, if it does, and the state behind it. A revert changes nothing. */
  ghost function Step(d: Deployment, s: State, c: Call): (State, Option<Reason>) {
    match c
    case SetEnclave(sender, pcr0Hash, contentHash) =>
      if sender != s.owner then (s, Some(NotOwner))
      else if pcr0Hash == UNSET || contentHash == UNSET then (s, Some(MissingArgument))
      else (State(s.owner, pcr0Hash, contentHash, s.lastTimestampMs, s.price, s.stamp), None)
    case TransferOwnership(sender, newOwner) =>
      if sender != s.owner then (s, Some(NotOwner))
      else if newOwner == 0 then (s, Some(MissingArgument))
      else (State(newOwner, s.pcr0Hash, s.contentHash, s.lastTimestampMs, s.price, s.stamp), None)
    case UpdatePrice(attested, body, blockTime) =>
      var refusal := Refusal(d, s, attested, body, blockTime);
      if refusal.Some? then (s, refusal)
      else (Stored(s, attested.value.timestampMs, Parse(body).value), None)
  }

  // ----- The contract -------------------------------------------------------------------

  class Contract {
    const deployment: Deployment
    var owner: Address
    var pcr0Hash: Digest
    var contentHash: Digest
    var lastTimestampMs: u64
    var price: map<Id, nat>
    var priceTimestampMs: map<Id, u64>

    ghost function Current(): State
      reads this
    {
      State(owner, pcr0Hash, contentHash, lastTimestampMs, price, priceTimestampMs)
    }

    constructor (hashes: Hashes, maxAge: nat, sender: Address)
      requires maxAge > 0
      ensures deployment == Deployment(hashes, maxAge)
      ensures Current() == State(sender, UNSET, UNSET, 0, map[], map[])
    {
      deployment := Deployment(hashes, maxAge);
      owner, pcr0Hash, contentHash, lastTimestampMs := sender, UNSET, UNSET, 0;
      price, priceTimestampMs := map[], map[];
    }

    method SetEnclave(sender: Address, newPcr0Hash: Digest, newContentHash: Digest) returns (failed: Option<Reason>)
      modifies this
      ensures (Current(), failed)
           == Step(deployment, old(Current()), Call.SetEnclave(sender, newPcr0Hash, newContentHash))
    {
      if sender != owner { return Some(NotOwner); }
      if newPcr0Hash == UNSET { return Some(MissingArgument); }
      if newContentHash == UNSET { return Some(MissingArgument); }
      pcr0Hash, contentHash := newPcr0Hash, newContentHash;
      return None;
    }

    method TransferOwnership(sender: Address, newOwner: Address) returns (failed: Option<Reason>)
      modifies this
      ensures (Current(), failed) == Step(deployment, old(Current()), Call.TransferOwnership(sender, newOwner))
    {
      if sender != owner { return Some(NotOwner); }
      if newOwner == 0 { return Some(MissingArgument); }
      owner := newOwner;
      return None;
    }

    method UpdatePrice(attested: Option<Attestation>, body: seq<byte>, blockTime: nat) returns (failed: Option<Reason>)
      modifies this
      ensures (Current(), failed) == Step(deployment, old(Current()), Call.UpdatePrice(attested, body, blockTime))
    {
      hide Parse, Document;
      var s := State(owner, pcr0Hash, contentHash, lastTimestampMs, price, priceTimestampMs);
      if pcr0Hash == UNSET || contentHash == UNSET { return Some(EnclaveNotSet); }
      if attested.None? { return Some(NotAttested); }
      var timestampMs := attested.value.timestampMs;
      failed := CheckPcr0(deployment, s, attested.value);
      if failed.Some? { return; }
      failed := CheckFreshness(deployment, s, timestampMs, blockTime);
      if failed.Some? { return; }
      failed := CheckUserData(deployment, s, attested.value, body);
      if failed.Some? { return; }

      var parsed := ParseBody(body);
      if parsed.Err? { return Some(BadBody(parsed.error)); }
      var payload := parsed.value;
      ParseIsSound(body);
      var rebuilt := Encode(payload.ids, payload.prices);
      if deployment.hashes.keccak256(rebuilt.value) != deployment.hashes.keccak256(body) {
        return Some(CanonicalBodyMismatch);
      }
      Write(timestampMs, payload);
      return None;
    }

    method Write(timestampMs: u64, payload: Payload)
      requires |payload.ids| == |payload.prices|
      modifies this
      ensures Current() == Stored(old(Current()), timestampMs, payload)
    {
      lastTimestampMs := timestampMs;
      ghost var stamps := Repeat(timestampMs, |payload.ids|);
      for i := 0 to |payload.ids|
        invariant owner == old(owner) && pcr0Hash == old(pcr0Hash) && contentHash == old(contentHash)
        invariant lastTimestampMs == timestampMs
        invariant price == Written(old(price), payload.ids[..i], payload.prices[..i])
        invariant priceTimestampMs == Written(old(priceTimestampMs), payload.ids[..i], stamps[..i])
      {
        WrittenStep(old(price), payload.ids, payload.prices, i);
        WrittenStep(old(priceTimestampMs), payload.ids, stamps, i);
        price := price[payload.ids[i] := payload.prices[i]];
        priceTimestampMs := priceTimestampMs[payload.ids[i] := timestampMs];
      }
      assert payload.ids[..|payload.ids|] == payload.ids && stamps[..|stamps|] == stamps;
      assert payload.prices[..|payload.prices|] == payload.prices;
    }

    /** `None` stands for the `UnknownId` revert. A Solidity mapping reads as zero where nothing was written. */
    method GetPrice(id: Id) returns (r: Option<nat>)
      ensures r == PriceOf(Current(), id)
    {
      var value: nat := if id in price then price[id] else 0;
      if value == 0 && (id !in priceTimestampMs || priceTimestampMs[id] == 0) { return None; }
      return Some(value);
    }

    method GetPriceData(id: Id) returns (r: Option<(nat, u64)>)
      ensures r == PriceDataOf(Current(), id)
    {
      var timestampMs: u64 := if id in priceTimestampMs then priceTimestampMs[id] else 0;
      if timestampMs == 0 { return None; }
      return Some((if id in price then price[id] else 0, timestampMs));
    }

    method HasPrice(id: Id) returns (r: bool)
      ensures r <==> PriceDataOf(Current(), id).Some?
    {
      return id in priceTimestampMs && priceTimestampMs[id] != 0;
    }
  }

  lemma WrittenStep<V>(table: map<Id, V>, ids: seq<Id>, values: seq<V>, i: nat)
    requires i < |ids| == |values|
    ensures Written(table, ids[..i + 1], values[..i + 1]) == Written(table, ids[..i], values[..i])[ids[i] := values[i]]
  {
    assert ids[..i + 1][..i] == ids[..i] && values[..i + 1][..i] == values[..i];
  }

  ghost function Read<V>(table: map<Id, V>, id: Id, zero: V): V { if id in table then table[id] else zero }

  ghost function PriceOf(s: State, id: Id): Option<nat> {
    if Read(s.price, id, 0) == 0 && Read(s.stamp, id, 0) == 0 then None else Some(Read(s.price, id, 0))
  }

  ghost function PriceDataOf(s: State, id: Id): Option<(nat, u64)> {
    if Read(s.stamp, id, 0) == 0 then None else Some((Read(s.price, id, 0), Read(s.stamp, id, 0)))
  }

  // ----- When an update is accepted -----------------------------------------------------

  /** An update goes through exactly when the pinned image and guest attest this very body, the attestation is
      both young enough and newer than the last one, and the body is a document of a well-formed payload. In
      particular `CanonicalBodyMismatch` is never the reason for a refusal. */
  lemma UpdateIsAcceptedExactly(d: Deployment, s: State, attested: Option<Attestation>, body: seq<byte>, blockTime: nat)
    ensures Refusal(d, s, attested, body, blockTime) != Some(CanonicalBodyMismatch)
    ensures Refusal(d, s, attested, body, blockTime).None? <==>
      && s.pcr0Hash != UNSET && s.contentHash != UNSET && attested.Some?
      && attested.value.pcr0.Some? && !AllZero(attested.value.pcr0.value)
      && d.hashes.keccak256(attested.value.pcr0.value) == s.pcr0Hash
      && blockTime < attested.value.timestampMs / 1000 + d.maxAge <= UINT256_MAX
      && attested.value.timestampMs > s.lastTimestampMs
      && attested.value.userData == Some(s.contentHash + d.hashes.sha256(body))
      && exists p :: WellFormed(p) && body == Document(p.ids, p.prices)
  {
    hide Parse, Document;
    ParseAcceptsExactlyDocuments(body);
    if Parse(body).Ok? { ParseIsSound(body); }
    if attested.Some? && attested.value.userData.Some? {
      var u := attested.value.userData.value;
      if |u| == 64 {
        assert u == u[..32] + u[32..];
        assert u == s.contentHash + d.hashes.sha256(body) <==>
          u[..32] == s.contentHash && u[32..] == d.hashes.sha256(body);
      }
    }
  }

  /** Why an update is refused: the contract's checks in order, each with its own reason. */
  lemma RefusalExactly(d: Deployment, s: State, attested: Option<Attestation>, body: seq<byte>, blockTime: nat)
    ensures
      var r := Refusal(d, s, attested, body, blockTime);
      var pinned := s.pcr0Hash != UNSET && s.contentHash != UNSET;
      && (r == Some(EnclaveNotSet) <==> !pinned)
      && (r == Some(NotAttested) <==> pinned && attested.None?)
      && (pinned && attested.Some? ==>
          var a := attested.value; var seconds := a.timestampMs / 1000 + d.maxAge;
          var image := a.pcr0.Some? && !AllZero(a.pcr0.value) && d.hashes.keccak256(a.pcr0.value) == s.pcr0Hash;
          var recent := image && blockTime < seconds <= UINT256_MAX && a.timestampMs > s.lastTimestampMs;
          && (r == Some(MissingPcr0) <==> a.pcr0.None?)
          && (r == Some(DebugPcr0) <==> a.pcr0.Some? && AllZero(a.pcr0.value))
          && (r == Some(InvalidPcr0) <==>
              a.pcr0.Some? && !AllZero(a.pcr0.value) && d.hashes.keccak256(a.pcr0.value) != s.pcr0Hash)
          && (r == Some(AttestationTooOld) <==> image && seconds <= blockTime && seconds <= UINT256_MAX)
          && (r == Some(StaleTimestamp) <==>
              image && blockTime < seconds <= UINT256_MAX && a.timestampMs <= s.lastTimestampMs)
          && (r == Some(MissingUserData) <==> recent && a.userData.None?)
          && (r == Some(InvalidUserDataLength) <==> recent && a.userData.Some? && |a.userData.value| != 64)
          && (r == Some(ContentHashMismatch) <==>
              recent && a.userData.Some? && |a.userData.value| == 64 && a.userData.value[..32] != s.contentHash)
          && (r == Some(BodyHashMismatch) <==>
              recent && a.userData.Some? && |a.userData.value| == 64 && a.userData.value[..32] == s.contentHash
              && a.userData.value[32..] != d.hashes.sha256(body)))
  {
    hide Parse, Document;
  }

  // ----- Who may change what -------------------------------------------------------------

  /** Pins change exactly by an owner's call with both hashes set, the owner by the owner's call with a new owner, and
      no other call changes either. */
  lemma OwnerCallsExactly(d: Deployment, s: State, c: Call)
    ensures var (later, failed) := Step(d, s, c);
            && (c.SetEnclave? && c.sender == s.owner && c.pcr0Hash != UNSET && c.contentHash != UNSET ==>
                failed.None? && later == s.(pcr0Hash := c.pcr0Hash, contentHash := c.contentHash))
            && (c.TransferOwnership? && c.sender == s.owner && c.newOwner != 0 ==>
                failed.None? && later == s.(owner := c.newOwner))
            && (!c.UpdatePrice? && c.sender != s.owner ==> failed == Some(NotOwner) && later == s)
            && (c.SetEnclave? && (c.pcr0Hash == UNSET || c.contentHash == UNSET) ==> failed.Some? && later == s)
            && (c.TransferOwnership? && c.newOwner == 0 ==> failed.Some? && later == s)
            && (c.UpdatePrice? ==>
                later.owner == s.owner && later.pcr0Hash == s.pcr0Hash && later.contentHash == s.contentHash)
  {
    hide Refusal, Stored, Parse;
    if c.UpdatePrice? && Refusal(d, s, c.attested, c.body, c.blockTime).None? { StoredKeepsPins(d, s, c); }
  }

  lemma StoredKeepsPins(d: Deployment, s: State, c: Call)
    requires c.UpdatePrice? && Refusal(d, s, c.attested, c.body, c.blockTime).None?
    ensures var later := Step(d, s, c).0;
            later.owner == s.owner && later.pcr0Hash == s.pcr0Hash && later.contentHash == s.contentHash
  {
    hide Parse, Written;
  }

  /** Call `k` of a history is made by whoever owns the contract at that moment. */
  ghost predicate ByOwner(d: Deployment, first: Address, calls: seq<Call>, k: nat)
    requires k < |calls|
  {
    !calls[k].UpdatePrice? && calls[k].sender == After(d, Fresh(first), calls[..k]).owner
  }

  /** Over every history: the pins are unset or were set together by a call of the owner of that moment, and the owner
      is the deployer or was named by a call of the owner of that moment. */
  lemma {:induction false} PinsAndOwnerComeFromOwners(d: Deployment, first: Address, calls: seq<Call>)
    ensures var s := After(d, Fresh(first), calls);
            && ((s.pcr0Hash == UNSET && s.contentHash == UNSET) ||
                exists k :: 0 <= k < |calls| && ByOwner(d, first, calls, k)
                  && calls[k] == Call.SetEnclave(calls[k].sender, s.pcr0Hash, s.contentHash))
            && (s.owner == first ||
                exists k :: 0 <= k < |calls| && ByOwner(d, first, calls, k)
                  && calls[k] == Call.TransferOwnership(calls[k].sender, s.owner))
    decreases |calls|
  {
    hide Step, Parse;
    if calls != [] {
      var before, c := calls[..|calls| - 1], calls[|calls| - 1];
      PinsAndOwnerComeFromOwners(d, first, before);
      OwnerCallsExactly(d, After(d, Fresh(first), before), c);
      forall k | 0 <= k < |before| && ByOwner(d, first, before, k)
        ensures ByOwner(d, first, calls, k) && calls[k] == before[k]
      {
        assert calls[..k] == before[..k];
      }
      assert calls[..|before|] == before;
    }
  }

  // ----- Histories ----------------------------------------------------------------------

  datatype Update = Update(timestampMs: u64, payload: Payload)

  /** The state after a sequence of calls, accepted or not. */
  ghost function After(d: Deployment, s: State, calls: seq<Call>): State {
    if calls == [] then s else Step(d, After(d, s, calls[..|calls| - 1]), calls[|calls| - 1]).0
  }

  /** The updates among the calls that were accepted, in order. */
  ghost function Accepted(d: Deployment, s: State, calls: seq<Call>): seq<Update> {
    if calls == [] then []
    else
      var before, c := calls[..|calls| - 1], calls[|calls| - 1];
      Accepted(d, s, before) +
      (if c.UpdatePrice? && Step(d, After(d, s, before), c).1.None?
       then [Update(c.attested.value.timestampMs, Parse(c.body).value)] else [])
  }

  /** The last price a body gives for `id`. */
  ghost function LastPrice(p: Payload, id: Id): Option<nat>
    requires |p.ids| == |p.prices|
    decreases |p.ids|
  {
    var n := |p.ids|;
    if n == 0 then None
    else if p.ids[n - 1] == id then Some(p.prices[n - 1])
    else LastPrice(Payload(p.ids[..n - 1], p.prices[..n - 1]), id)
  }

  ghost predicate Sound(log: seq<Update>) {
    && (forall k :: 0 <= k < |log| ==> WellFormed(log[k].payload) && log[k].timestampMs > 0)
    && forall j, k :: 0 <= j < k < |log| ==> log[j].timestampMs < log[k].timestampMs
  }

  /** Price and timestamp from the latest update that names `id`. */
  ghost function Latest(log: seq<Update>, id: Id): Option<(nat, u64)>
    requires Sound(log)
  {
    if log == [] then None
    else
      var last := log[|log| - 1];
      var price := LastPrice(last.payload, id);
      if price.Some? then Some((price.value, last.timestampMs)) else Latest(log[..|log| - 1], id)
  }

  lemma {:induction false} WrittenReads(table: map<Id, nat>, stamps: map<Id, u64>, p: Payload, t: u64, id: Id)
    requires |p.ids| == |p.prices|
    ensures Read(Written(table, p.ids, p.prices), id, 0) == LastPrice(p, id).GetOr(Read(table, id, 0))
    ensures Read(Written(stamps, p.ids, Repeat(t, |p.ids|)), id, 0)
         == if LastPrice(p, id).Some? then t else Read(stamps, id, 0)
    decreases |p.ids|
  {
    var n := |p.ids|;
    if n > 0 {
      WrittenReads(table, stamps, Payload(p.ids[..n - 1], p.prices[..n - 1]), t, id);
      assert Repeat(t, n)[..n - 1] == Repeat(t, n - 1);
    }
  }

  /** The stored state says about `id` what the log of accepted updates says. */
  ghost predicate Faithful(s: State, log: seq<Update>, id: Id) {
    && Sound(log)
    && s.lastTimestampMs == (if log == [] then 0 else log[|log| - 1].timestampMs)
    && PriceDataOf(s, id) == Latest(log, id)
    && PriceOf(s, id) == (if Latest(log, id).None? then None else Some(Latest(log, id).value.0))
    && Read(s.stamp, id, 0) <= s.lastTimestampMs
  }

  lemma UpdateIsFaithful(s: State, log: seq<Update>, t: u64, p: Payload, id: Id)
    requires Faithful(s, log, id) && t > s.lastTimestampMs && WellFormed(p)
    requires Read(s.price, id, 0) != 0 ==> Read(s.stamp, id, 0) != 0
    ensures Faithful(Stored(s, t, p), log + [Update(t, p)], id)
  {
    hide LastPrice, Written;
    WrittenReads(s.price, s.stamp, p, t, id);
    var longer := log + [Update(t, p)];
    assert longer[..|log|] == log;
  }

  ghost function Fresh(owner: Address): State { State(owner, UNSET, UNSET, 0, map[], map[]) }

  /** Over every history of a fresh contract: accepted timestamps strictly increase and the last one is stored,
      and for every id both getters answer with the latest accepted update that names it, or fail if there is none. */
  lemma {:induction false} History(d: Deployment, owner: Address, calls: seq<Call>, id: Id)
    ensures Faithful(After(d, Fresh(owner), calls), Accepted(d, Fresh(owner), calls), id)
  {
    hide Parse, Faithful, Stored, WellFormed, CheckPcr0, CheckUserData;
    if calls == [] {
      FreshIsFaithful(owner, id);
    } else {
      var before, c := calls[..|calls| - 1], calls[|calls| - 1];
      History(d, owner, before, id);
      var s, log := After(d, Fresh(owner), before), Accepted(d, Fresh(owner), before);
      if c.UpdatePrice? && Refusal(d, s, c.attested, c.body, c.blockTime).None? {
        ParseIsSound(c.body);
        FaithfulReads(s, log, id);
        UpdateIsFaithful(s, log, c.attested.value.timestampMs, Parse(c.body).value, id);
      } else {
        assert Accepted(d, Fresh(owner), calls) == log;
        OtherCallsAreFaithful(d, s, log, c, id);
      }
    }
  }

  lemma FreshIsFaithful(owner: Address, id: Id)
    ensures Faithful(Fresh(owner), [], id)
  {
  }

  lemma FaithfulReads(s: State, log: seq<Update>, id: Id)
    requires Faithful(s, log, id)
    ensures Read(s.price, id, 0) != 0 ==> Read(s.stamp, id, 0) != 0
  {
  }

  lemma OtherCallsAreFaithful(d: Deployment, s: State, log: seq<Update>, c: Call, id: Id)
    requires Faithful(s, log, id)
    requires c.UpdatePrice? ==> Refusal(d, s, c.attested, c.body, c.blockTime).Some?
    ensures Faithful(Step(d, s, c).0, log, id)
  {
    hide Refusal;
  }
}
