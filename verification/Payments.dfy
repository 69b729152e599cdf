/** The local check of an x402 `exact` payment and the order of checking, settling and crediting. */
module Payments {
  import opened Wrappers
  import opened Results
  import opened Text

  datatype PaymentError = Invalid | Amount(got: u64, expected: u64) | Recipient | Asset | Expired | Nonce | Settle

  datatype ExactAuthorization = ExactAuthorization(value: u64, asset: string, payTo: string, validBefore: u64,
                                                   nonce: string)

  datatype ExactRequirements = ExactRequirements(amount: u64, asset: string, payTo: string)

  datatype Settler = Settler(usdcPerInvoke: u64, asset: string, payTo: string)

  function DueUsdc(invokes: u64, usdcPerInvoke: u64): Result<u64, PaymentError> {
    if invokes * usdcPerInvoke > U64_MAX then Err(Invalid) else Ok(invokes * usdcPerInvoke)
  }

  predicate EqAddr(left: string, right: string) { EqIgnoreAsciiCase(Trim(left), Trim(right)) }

  function CheckExact(auth: ExactAuthorization, expected: ExactRequirements, nowUnix: u64): Option<PaymentError> {
    if Trim(auth.nonce) == "" then Some(Nonce)
    else if auth.validBefore <= nowUnix then Some(Expired)
    else if !EqAddr(auth.asset, expected.asset) then Some(Asset)
    else if !EqAddr(auth.payTo, expected.payTo) then Some(Recipient)
    else if auth.value != expected.amount then Some(Amount(auth.value, expected.amount))
    else None
  }

  function Requirements(s: Settler, invokes: u64): Result<ExactRequirements, PaymentError> {
    var amount :- DueUsdc(invokes, s.usdcPerInvoke);
    Ok(ExactRequirements(amount, s.asset, s.payTo))
  }

  /** The nonce of a payment header that passes the local check; `header` is the decoded header. */
  function PaymentNonce(s: Settler, invokes: u64, header: Result<ExactAuthorization, PaymentError>, nowUnix: u64):
    Result<string, PaymentError>
  {
    var requirements :- Requirements(s, invokes);
    var auth :- header;
    var failed := CheckExact(auth, requirements, nowUnix);
    if failed.Some? then Err(failed.value) else Ok(auth.nonce)
  }

  /** The local check again, then the facilitator; the nonce is returned only when both pass. */
  function SettlePayment(s: Settler, invokes: u64, header: Result<ExactAuthorization, PaymentError>, nowUnix: u64,
                         facilitator: Result<(), PaymentError>): Result<string, PaymentError>
  {
    var nonce :- PaymentNonce(s, invokes, header, nowUnix);
    var _ :- facilitator;
    Ok(nonce)
  }

  // ----- What is accepted ----------------------------------------------------------------------------

  /** The same address but for white space around it and the case of ASCII letters. */
  ghost predicate SameAddress(given: string, expected: string) {
    exists a, b :: IsCore(given, a) && IsCore(expected, b) && SameUpToCase(a, b)
  }

  lemma EqAddrExactly(given: string, expected: string)
    ensures EqAddr(given, expected) <==> SameAddress(given, expected)
  {
    hide Trim, IsCore, SameUpToCase, EqIgnoreAsciiCase;
    TrimIsTheCore(given, Trim(given));
    TrimIsTheCore(expected, Trim(expected));
    EqIgnoresExactlyCase(Trim(given), Trim(expected));
    forall a, b | IsCore(given, a) && IsCore(expected, b) ensures a == Trim(given) && b == Trim(expected) {
      TrimIsTheCore(given, a);
      TrimIsTheCore(expected, b);
    }
  }

  /** The payment is in order but for its addresses and its value. */
  predicate Timely(auth: ExactAuthorization, nowUnix: u64) { !Blank(auth.nonce) && nowUnix < auth.validBefore }

  lemma BlankExactly(s: string)
    ensures Trim(s) == "" <==> Blank(s)
  {
    hide Trim;
    TrimIsTheCore(s, "");
    var none: string := "";
    if Blank(s) { assert Blank(none) && s == s + none + none; }
  }

  /** The local check passes exactly when the nonce is not blank, the payment has not expired, both addresses are the
      platform's, and the value is the price; and the first of these that is not so is the error. */
  lemma CheckPassesExactly(auth: ExactAuthorization, expected: ExactRequirements, nowUnix: u64)
    ensures var r := CheckExact(auth, expected, nowUnix);
            var asset, payTo := SameAddress(auth.asset, expected.asset), SameAddress(auth.payTo, expected.payTo);
            && (r.None? <==> Timely(auth, nowUnix) && asset && payTo && auth.value == expected.amount)
            && (r == Some(Nonce) <==> Blank(auth.nonce))
            && (r == Some(Expired) <==> !Blank(auth.nonce) && auth.validBefore <= nowUnix)
            && (r == Some(Asset) <==> Timely(auth, nowUnix) && !asset)
            && (r == Some(Recipient) <==> Timely(auth, nowUnix) && asset && !payTo)
            && (r == Some(Amount(auth.value, expected.amount)) <==>
                Timely(auth, nowUnix) && asset && payTo && auth.value != expected.amount)
  {
    hide Trim, EqAddr, SameAddress, Blank;
    BlankExactly(auth.nonce);
    EqAddrExactly(auth.asset, expected.asset);
    EqAddrExactly(auth.payTo, expected.payTo);
  }

  /** For addresses without outer white space: same length, and at each position the same up to the case of a letter. */
  lemma PlainAddressesAgreeExactly(given: string, expected: string)
    requires NoOuterSpace(given) && NoOuterSpace(expected)
    ensures SameAddress(given, expected) <==> SameUpToCase(given, expected)
  {
    hide IsCore, Trim, SameUpToCase;
    CoreOfPlain(given);
    CoreOfPlain(expected);
    forall a, b | IsCore(given, a) && IsCore(expected, b) ensures a == given && b == expected {
      TrimIsTheCore(given, a);
      TrimIsTheCore(given, given);
      TrimIsTheCore(expected, b);
      TrimIsTheCore(expected, expected);
    }
  }

  lemma CoreOfPlain(s: string)
    requires NoOuterSpace(s)
    ensures IsCore(s, s)
  {
    var none: string := "";
    assert Blank(none) && s == none + s + none;
  }

  /** White space around an address changes nothing. */
  lemma OuterSpaceIsIgnored(before: string, given: string, after: string, expected: string)
    requires Blank(before) && Blank(after)
    ensures SameAddress(before + given + after, expected) <==> SameAddress(given, expected)
  {
    hide Trim, SameUpToCase;
    forall a ensures IsCore(given, a) <==> IsCore(before + given + after, a) {
      CoreIgnoresPadding(before, given, after, a);
    }
  }

  lemma CoreIgnoresPadding(before: string, s: string, after: string, core: string)
    requires Blank(before) && Blank(after)
    ensures IsCore(s, core) <==> IsCore(before + s + after, core)
  {
    hide Trim;
    TrimIsTheCore(s, Trim(s));
    var b, a :| Blank(b) && Blank(a) && s == b + Trim(s) + a;
    assert before + s + after == (before + b) + Trim(s) + (a + after);
    assert Blank(before + b) && Blank(a + after);
    assert IsCore(before + s + after, Trim(s));
    TrimIsTheCore(before + s + after, Trim(s));
    TrimIsTheCore(s, core);
    TrimIsTheCore(before + s + after, core);
  }

  /** A payment in another token or to another recipient does not pass. */
  lemma ForeignPaymentsAreRefused()
    ensures var platform := ExactRequirements(5, "0xusdc", "0xplatform");
            && CheckExact(ExactAuthorization(5, "0xfake", "0xplatform", 10, "n"), platform, 0) == Some(Asset)
            && CheckExact(ExactAuthorization(5, " 0xUSDC", "0xother", 10, "n"), platform, 0) == Some(Recipient)
  {
    var fake, usdc, upper, platform, other: string := "0xfake", "0xusdc", "0xUSDC", "0xplatform", "0xother";
    hide Trim, EqAddr, IsCore, SameAddress;
    assert !Blank("n") by { assert !IsWhitespace("n"[0]); }
    CheckPassesExactly(ExactAuthorization(5, fake, platform, 10, "n"), ExactRequirements(5, usdc, platform), 0);
    PlainAddressesAgreeExactly(fake, usdc);
    assert !SameLetter(fake[2], usdc[2]);
    CheckPassesExactly(ExactAuthorization(5, " 0xUSDC", other, 10, "n"), ExactRequirements(5, usdc, platform), 0);
    assert " 0xUSDC" == " " + upper + "";
    OuterSpaceIsIgnored(" ", upper, "", usdc);
    PlainAddressesAgreeExactly(upper, usdc);
    PlainAddressesAgreeExactly(other, platform);
  }

  /** What settling demands, in full: no overflow, a readable header that passes the check at the price of the invokes,
      and the facilitator's consent; and what fails first is the error. */
  lemma SettledExactly(s: Settler, invokes: u64, header: Result<ExactAuthorization, PaymentError>, nowUnix: u64,
                       facilitator: Result<(), PaymentError>, nonce: string)
    ensures var due := invokes * s.usdcPerInvoke;
            var checked := if due <= U64_MAX && header.Ok?
              then CheckExact(header.value, ExactRequirements(due, s.asset, s.payTo), nowUnix) else None;
            var r := SettlePayment(s, invokes, header, nowUnix, facilitator);
            var p := PaymentNonce(s, invokes, header, nowUnix);
            && (r == Ok(nonce) <==> p == Ok(nonce) && facilitator.Ok?)
            && (p == Ok(nonce) <==> due <= U64_MAX && header.Ok? && checked.None? && header.value.nonce == nonce)
            && (due > U64_MAX ==> p == Err(Invalid) && r == Err(Invalid))
            && (due <= U64_MAX && header.Err? ==> p == Err(header.error) && r == Err(header.error))
            && (checked.Some? ==> p == Err(checked.value) && r == Err(checked.value))
            && (p.Ok? && facilitator.Err? ==> r == Err(facilitator.error))
  {
    hide CheckExact;
  }

  /** A settled payment authorises exactly the price of the invokes, in the platform's asset and to the platform, before
      it expires, and without overflow. */
  lemma SettledPaysThePrice(s: Settler, invokes: u64, header: Result<ExactAuthorization, PaymentError>, nowUnix: u64,
                            facilitator: Result<(), PaymentError>)
    requires SettlePayment(s, invokes, header, nowUnix, facilitator).Ok?
    ensures facilitator.Ok? && header.Ok?
    ensures header.value.nonce == SettlePayment(s, invokes, header, nowUnix, facilitator).value
    ensures !Blank(header.value.nonce) && header.value.nonce != ""
    ensures header.value.value == invokes * s.usdcPerInvoke <= U64_MAX
    ensures SameAddress(header.value.payTo, s.payTo) && SameAddress(header.value.asset, s.asset)
    ensures nowUnix < header.value.validBefore
  {
    hide CheckExact, SameAddress;
    CheckPassesExactly(header.value, ExactRequirements(invokes * s.usdcPerInvoke, s.asset, s.payTo), nowUnix);
  }
}
