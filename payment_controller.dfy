/**
 * The payment endpoints of backend/src/controller/paymentController.js:
 * `verifyPayment` (the gateway's signature over "order id|payment id") and
 * `createPaymentOrder` (the options of the order request).
 *
 * HMAC-SHA256 (section 2 of RFC 2104 over SHA-256 of FIPS 180-4) is a
 * parameter that yields 32 bytes; the lowercase hexadecimal text of those
 * bytes is modelled exactly. The gateway's `orders.create` and the clock are
 * parameters too.
 */
module PaymentController {
  import opened Wrappers
  import opened JsText
  import opened Json

  newtype byte = x: int | 0 <= x < 256

  /** What HMAC-SHA256 produces. */
  type Digest = d: seq<byte> | |d| == 32 witness seq(32, _ => 0 as byte)

  /**
   * The field values of a JSON request body that the handler reads. `Other`
   * is a number, boolean, array or object, with the text that `+` with a
   * string converts it to, or `None` when that conversion throws (an object
   * whose `valueOf` and `toString` yield no primitive).
   */
  datatype JsValue = Undefined | Null | Str(text: string) | Other(conversion: Option<string>)

  /** The text `v + '|'` uses for `v`, or `None` when the conversion throws. */
  function JsString(v: JsValue): Option<string> {
    match v
    case Undefined => Some("undefined")
    case Null => Some("null")
    case Str(s) => Some(s)
    case Other(c) => c
  }

  datatype PaymentBody = PaymentBody(orderId: JsValue, paymentId: JsValue, signature: JsValue)

  /**
   * 200 "Payment verified successfully", 400 "Invalid signature", or 500 when
   * the handler throws: an id that cannot be converted, or no secret configured.
   */
  datatype Verification = Verified | InvalidSignature | ServerError

  function StatusCode(v: Verification): nat {
    match v
    case Verified => 200
    case InvalidSignature => 400
    case ServerError => 500
  }

  // ---------------------------------------------------------------------------
  // Hexadecimal text

  predicate IsLowerHex(c: char) {
    ('0' <= c <= '9') || ('a' <= c <= 'f')
  }

  /** `digest('hex')`: two lowercase digits per byte, high half first. */
  function Hex(d: seq<byte>): (r: string)
    ensures |r| == 2 * |d|
    ensures forall i :: 0 <= i < |r| ==> IsLowerHex(r[i])
  {
    if d == [] then []
    else [HexDigit(d[0] as int / 16), HexDigit(d[0] as int % 16)] + Hex(d[1..])
  }

  /** Reads hexadecimal text back into bytes. */
  function ParseHex(s: string): Option<seq<byte>> {
    if s == [] then Some([])
    else if |s| == 1 then None
    else
      match (HexValue(s[0]), HexValue(s[1]), ParseHex(s[2..]))
      case (Some(hi), Some(lo), Some(rest)) => Some([(hi * 16 + lo) as byte] + rest)
      case _ => None
  }

  lemma {:induction false} ParseHexOfHex(d: seq<byte>)
    ensures ParseHex(Hex(d)) == Some(d)
  {
    if d != [] {
      var s := Hex(d);
      assert s[2..] == Hex(d[1..]);
      ParseHexOfHex(d[1..]);
      assert [d[0]] + d[1..] == d;
    }
  }

  /** Distinct digests have distinct texts. */
  lemma HexInjective(a: seq<byte>, b: seq<byte>)
    requires Hex(a) == Hex(b)
    ensures a == b
  {
    ParseHexOfHex(a);
    ParseHexOfHex(b);
  }

  // ---------------------------------------------------------------------------
  // verifyPayment

  /** The signed text: the order id, a bar, the payment id; `None` when either conversion throws. */
  function SignedMessage(body: PaymentBody): Option<string> {
    match (JsString(body.orderId), JsString(body.paymentId))
    case (Some(o), Some(p)) => Some(o + "|" + p)
    case _ => None
  }

  function VerifyPayment(hmac: (string, string) -> Digest, secret: Option<string>, body: PaymentBody): Verification {
    var message := SignedMessage(body);
    if message.None? || secret.None? then ServerError
    else
      var expectedSignature := Hex(hmac(secret.value, message.value));
      if body.signature == Str(expectedSignature) then Verified else InvalidSignature
  }

  /** The expected signature is always 64 lowercase hexadecimal digits. */
  lemma ExpectedSignatureShape(hmac: (string, string) -> Digest, secret: string, message: string)
    ensures |Hex(hmac(secret, message))| == 64
    ensures forall i :: 0 <= i < 64 ==> IsLowerHex(Hex(hmac(secret, message))[i])
  {
  }

  /**
   * With a secret configured, the answer is 500 exactly when an id cannot be
   * converted to text, 200 exactly for the exact text of the HMAC, and 400 otherwise.
   */
  lemma VerifyExact(hmac: (string, string) -> Digest, secret: string, body: PaymentBody)
    ensures StatusCode(VerifyPayment(hmac, Some(secret), body)) == 500 <==> SignedMessage(body).None?
    ensures StatusCode(VerifyPayment(hmac, Some(secret), body)) == 200 <==>
      (SignedMessage(body).Some? && body.signature.Str? && IsHexText(body.signature.text)
       && ParseHex(body.signature.text) == Some(hmac(secret, SignedMessage(body).value)))
  {
    if SignedMessage(body).Some? {
      var digest := hmac(secret, SignedMessage(body).value);
      ParseHexOfHex(digest);
      if body.signature.Str? && ParseHex(body.signature.text) == Some(digest) && IsHexText(body.signature.text) {
        ParseHexIsHex(body.signature.text, digest);
      }
    }
  }

  predicate IsHexText(s: string) {
    forall i :: 0 <= i < |s| ==> IsLowerHex(s[i])
  }

  /** Lowercase text that reads as some bytes is the `Hex` of those bytes. */
  lemma {:induction false} ParseHexIsHex(s: string, d: seq<byte>)
    requires IsHexText(s) && ParseHex(s) == Some(d)
    ensures s == Hex(d)
  {
    if s != [] {
      var hi, lo, rest := HexValue(s[0]).value, HexValue(s[1]).value, ParseHex(s[2..]).value;
      assert d == [(hi * 16 + lo) as byte] + rest;
      assert IsHexText(s[2..]) by {
        forall i | 0 <= i < |s[2..]| ensures IsLowerHex(s[2..][i]) {
          assert s[2..][i] == s[i + 2];
        }
      }
      ParseHexIsHex(s[2..], rest);
      HexDigitOfValue(s[0]);
      HexDigitOfValue(s[1]);
      HexCons(hi, lo, rest);
      assert s == [s[0], s[1]] + s[2..];
    }
  }

  /** The byte with high half hi and low half lo is written as the digits of hi and lo. */
  lemma HexCons(hi: nat, lo: nat, rest: seq<byte>)
    requires hi < 16 && lo < 16
    ensures Hex([(hi * 16 + lo) as byte] + rest) == [HexDigit(hi), HexDigit(lo)] + Hex(rest)
  {
    var b := (hi * 16 + lo) as byte;
    assert b as int / 16 == hi && b as int % 16 == lo;
    assert ([b] + rest)[0] == b && ([b] + rest)[1..] == rest;
  }

  lemma HexDigitOfValue(c: char)
    requires IsLowerHex(c)
    ensures HexValue(c).Some? && HexDigit(HexValue(c).value) == c
  {
  }

  /** A signature of the wrong length, or with an uppercase or non-hex character, or not a string at all, is refused. */
  lemma MalformedRejected(hmac: (string, string) -> Digest, secret: Option<string>, body: PaymentBody)
    requires !body.signature.Str? || |body.signature.text| != 64 || !IsHexText(body.signature.text)
    ensures VerifyPayment(hmac, secret, body) != Verified
    ensures secret.Some? && SignedMessage(body).Some? ==> VerifyPayment(hmac, secret, body) == InvalidSignature
  {
    if secret.Some? && SignedMessage(body).Some? {
      ExpectedSignatureShape(hmac, secret.value, SignedMessage(body).value);
    }
  }

  /** An id whose conversion to text throws is answered with 500, with or without a secret. */
  lemma UnconvertibleIdFails(hmac: (string, string) -> Digest, secret: Option<string>, body: PaymentBody)
    requires body.orderId == Other(None) || body.paymentId == Other(None)
    ensures StatusCode(VerifyPayment(hmac, secret, body)) == 500
  {
  }

  /** A missing id is not refused: it is signed as the text "undefined". */
  lemma MissingIdSignedAsUndefined(orderId: JsValue, signature: JsValue)
    ensures JsString(orderId).Some? ==>
      SignedMessage(PaymentBody(orderId, Undefined, signature)) == Some(JsString(orderId).value + "|undefined")
    ensures SignedMessage(PaymentBody(Undefined, Undefined, signature)) == Some("undefined|undefined")
  {
    var o := JsString(orderId).GetOr("");
    assert "|" + "undefined" == "|undefined";
    assert o + "|" + "undefined" == o + ("|" + "undefined");
    assert "undefined" + "|undefined" == "undefined|undefined";
    assert "undefined" + "|" + "undefined" == "undefined" + ("|" + "undefined");
  }

  /** When neither id contains a bar, the signed text splits back into the two ids. */
  lemma SignedMessageSplits(body: PaymentBody)
    requires JsString(body.orderId).Some? && JsString(body.paymentId).Some?
    requires '|' !in JsString(body.orderId).value && '|' !in JsString(body.paymentId).value
    ensures Split(SignedMessage(body).value, '|') == [JsString(body.orderId).value, JsString(body.paymentId).value]
  {
    var parts := [JsString(body.orderId).value, JsString(body.paymentId).value];
    assert Join(parts, "|") == SignedMessage(body).value;
    SplitJoin(parts, '|');
  }

  // ---------------------------------------------------------------------------
  // createPaymentOrder

  datatype OrderOptions = OrderOptions(amount: real, currency: string, receipt: string)

  const ReceiptPrefix: string := "receipt_order_"

  /** The options sent to the gateway; `now` is `Date.now()`. */
  function CreateOrderOptions(amount: real, now: nat): OrderOptions {
    OrderOptions(amount * 100.0, "INR", ReceiptPrefix + DecimalString(now))
  }

  /** 200 with the gateway's order, or 500 with its error message. */
  datatype OrderResponse<O> = OrderCreated(order: O) | OrderFailed(message: string)

  function CreatePaymentOrder<O>(amount: real, now: nat, create: OrderOptions -> Result<O, string>): OrderResponse<O> {
    match create(CreateOrderOptions(amount, now))
    case Success(order) => OrderCreated(order)
    case Failure(e) => OrderFailed(e)
  }

  /** Whatever the amount (zero and negative included), the gateway is asked for it in paise, in rupees. */
  lemma OrderAmountInPaise<O>(amount: real, now: nat, create: OrderOptions -> Result<O, string>)
    ensures CreateOrderOptions(amount, now).amount / 100.0 == amount
    ensures CreateOrderOptions(amount, now).currency == "INR"
    ensures create(CreateOrderOptions(amount, now)).Success? ==>
      CreatePaymentOrder(amount, now, create) == OrderCreated(create(CreateOrderOptions(amount, now)).value)
    ensures create(CreateOrderOptions(amount, now)).Failure? ==>
      CreatePaymentOrder(amount, now, create) == OrderFailed(create(CreateOrderOptions(amount, now)).error)
  {
  }

  /** The receipt names the timestamp it was made at: the text after the prefix reads back as `now`. */
  lemma ReceiptTimestamp(amount: real, now: nat)
    ensures var r := CreateOrderOptions(amount, now).receipt;
      |r| > |ReceiptPrefix| && r[..|ReceiptPrefix|] == ReceiptPrefix && ParseInt(r[|ReceiptPrefix|..]) == Some(now)
  {
    var r := CreateOrderOptions(amount, now).receipt;
    assert r[|ReceiptPrefix|..] == DecimalString(now);
    DecimalRoundTrip(now);
    ParseIntOfDecimal(DecimalString(now));
  }

  /** Orders made at different milliseconds get different receipts. */
  lemma ReceiptsDistinct(a: real, m: nat, b: real, n: nat)
    requires m != n
    ensures CreateOrderOptions(a, m).receipt != CreateOrderOptions(b, n).receipt
  {
    if CreateOrderOptions(a, m).receipt == CreateOrderOptions(b, n).receipt {
      ReceiptTimestamp(a, m);
      ReceiptTimestamp(b, n);
    }
  }
}
