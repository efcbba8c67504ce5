/**
  The two gateway calls: payment initiation (`esewa_payment_gateway`), which
  totals the charges, signs the canonical three-field message and posts the
  eleven parameters in the query string, and the status lookup (`esewa_check_status`), which
  sends three query parameters. The HTTP transport is a parameter that maps
  (URL, parameters) to what the call produced.
 */
module Client {
  import opened Wrappers
  import opened Exceptions
  import opened Codec
  import Decimal
  import Utils

  /** A value in a parameter or response dictionary. */
  datatype Value = Number(n: int) | Text(s: string)

  type Params = map<string, Value>

  /** The inputs of `esewa_payment_gateway`, with its defaults for the last two. */
  datatype PaymentRequest = PaymentRequest(
    amount: int,
    productDeliveryCharge: int,
    productServiceCharge: int,
    taxAmount: int,
    transactionUuid: string,
    productCode: string,
    secret: string,
    successUrl: string,
    failureUrl: string,
    esewaPaymentUrl: string,
    algorithm: string := "sha256",
    encoding: string := "base64")

  /** What `requests.post` produced: a response, or the text of the exception it raised. */
  datatype HttpReply = Reply(statusCode: int, text: string) | RequestFailed(reason: string)

  type Poster = (string, Params) -> HttpReply

  /**
    What `requests.get(...)` followed by `response.json()` produced: the parsed
    body, or the text of the exception either of them raised.
   */
  datatype JsonReply = Parsed(body: Params) | Raised(reason: string)

  type Getter = (string, Params) -> JsonReply

  const SIGNED_FIELD_NAMES: string := "total_amount,transaction_uuid,product_code"

  const PAYMENT_KEYS: set<string> := {
    "amount", "product_delivery_charge", "product_service_charge", "tax_amount",
    "total_amount", "transaction_uuid", "product_code", "signed_field_names",
    "success_url", "failure_url", "signature"}

  const STATUS_KEYS: set<string> := {"total_amount", "transaction_uuid", "product_code"}

  const PAYMENT_FORM_RECEIVED: string := "Payment form received"
  const PAYMENT_ERROR_PREFIX: string := "Error during payment request: "
  const STATUS_ERROR_PREFIX: string := "Status check failed: "

  // ---------------------------------------------------------------------------
  // Splitting on a separator, as the gateway reads the signed message back

  /** Python's `s.split(sep)` for a one-character separator. */
  function Split(s: string, sep: char): (parts: seq<string>)
    ensures |parts| >= 1
    ensures forall k :: 0 <= k < |parts| ==> sep !in parts[k]
    decreases |s|
  {
    if s == [] then [""]
    else
      var rest := Split(s[1..], sep);
      if s[0] == sep then [""] + rest else [[s[0]] + rest[0]] + rest[1..]
  }

  lemma {:induction false} SplitNoSeparator(a: string, sep: char)
    requires sep !in a
    ensures Split(a, sep) == [a]
    decreases |a|
  {
    if a != [] {
      SplitNoSeparator(a[1..], sep);
      assert [a[0]] + a[1..] == a;
    }
  }

  /** A separator-free prefix followed by the separator splits off as the first part. */
  lemma {:induction false} SplitFirst(a: string, sep: char, b: string)
    requires sep !in a
    ensures Split(a + [sep] + b, sep) == [a] + Split(b, sep)
    decreases |a|
  {
    if a != [] {
      SplitFirst(a[1..], sep, b);
      assert (a + [sep] + b)[1..] == a[1..] + [sep] + b;
      assert [a[0]] + a[1..] == a;
    } else {
      assert a + [sep] + b == [sep] + b;
      assert ([sep] + b)[1..] == b;
    }
  }

  // ---------------------------------------------------------------------------
  // The total and the signed message

  /** `total_amount`: the sum of the four charges. */
  function TotalAmount(amount: int, deliveryCharge: int, serviceCharge: int, taxAmount: int): int {
    amount + deliveryCharge + serviceCharge + taxAmount
  }

  /** One `key=value` field of the signed message. */
  function Field(key: string, value: string): string {
    key + "=" + value
  }

  /**
    The canonical message the signature covers,
    `total_amount=<total>,transaction_uuid=<uuid>,product_code=<code>`.
   */
  function SignedMessage(totalAmount: int, transactionUuid: string, productCode: string): string {
    Field("total_amount", Decimal.Render(totalAmount)) + ","
    + Field("transaction_uuid", transactionUuid) + ","
    + Field("product_code", productCode)
  }

  /**
    Read back by splitting on commas, the signed message gives its three fields
    in order, as long as neither the transaction id nor the product code
    contains a comma (the rendered total never does).
   */
  lemma SignedMessageFields(totalAmount: int, transactionUuid: string, productCode: string)
    requires ',' !in transactionUuid && ',' !in productCode
    ensures Split(SignedMessage(totalAmount, transactionUuid, productCode), ',')
            == [Field("total_amount", Decimal.Render(totalAmount)),
                Field("transaction_uuid", transactionUuid),
                Field("product_code", productCode)]
  {
    var f0 := Field("total_amount", Decimal.Render(totalAmount));
    var f1 := Field("transaction_uuid", transactionUuid);
    var f2 := Field("product_code", productCode);
    assert ',' !in f0 && ',' !in f1 && ',' !in f2;
    SplitThree(f0, f1, f2, ',');
  }

  /** The text before the first `=` of a `key=value` field. */
  function FieldKey(field: string): string {
    Split(field, '=')[0]
  }

  lemma KeyOfField(key: string, value: string)
    requires '=' !in key
    ensures FieldKey(Field(key, value)) == key
  {
    SplitFirst(key, '=', value);
  }

  /** Three separator-free parts joined by the separator split back into those parts. */
  lemma SplitThree(a: string, b: string, c: string, sep: char)
    requires sep !in a && sep !in b && sep !in c
    ensures Split(a + [sep] + b + [sep] + c, sep) == [a, b, c]
  {
    assert a + [sep] + b + [sep] + c == a + [sep] + (b + [sep] + c);
    SplitFirst(a, sep, b + [sep] + c);
    SplitFirst(b, sep, c);
    SplitNoSeparator(c, sep);
  }

  /** `signed_field_names` lists the three signed keys, in order. */
  lemma SignedFieldNamesSplit()
    ensures Split(SIGNED_FIELD_NAMES, ',') == ["total_amount", "transaction_uuid", "product_code"]
  {
    var a, b, c := "total_amount", "transaction_uuid", "product_code";
    assert SIGNED_FIELD_NAMES == a + [','] + b + [','] + c;
    SplitThree(a, b, c, ',');
  }

  /**
    The fields of the signed message carry the keys `signed_field_names` lists
    (see SignedFieldNamesSplit), in the same order.
   */
  lemma SignedFieldNamesMatchMessage(totalAmount: int, transactionUuid: string, productCode: string)
    requires ',' !in transactionUuid && ',' !in productCode
    ensures
      var fields := Split(SignedMessage(totalAmount, transactionUuid, productCode), ',');
      && |fields| == 3
      && FieldKey(fields[0]) == "total_amount"
      && FieldKey(fields[1]) == "transaction_uuid"
      && FieldKey(fields[2]) == "product_code"
  {
    var fields := Split(SignedMessage(totalAmount, transactionUuid, productCode), ',');
    SignedMessageFields(totalAmount, transactionUuid, productCode);
    KeyOfField("total_amount", Decimal.Render(totalAmount));
    KeyOfField("transaction_uuid", transactionUuid);
    KeyOfField("product_code", productCode);
  }

  /**
    When neither the transaction id nor the product code contains a comma, the
    signed message determines the total, the transaction id and the product code.
   */
  lemma SignedMessageInjective(t1: int, u1: string, c1: string, t2: int, u2: string, c2: string)
    requires ',' !in u1 && ',' !in c1 && ',' !in u2 && ',' !in c2
    requires SignedMessage(t1, u1, c1) == SignedMessage(t2, u2, c2)
    ensures t1 == t2 && u1 == u2 && c1 == c2
  {
    var f1 := Split(SignedMessage(t1, u1, c1), ',');
    var f2 := Split(SignedMessage(t2, u2, c2), ',');
    SignedMessageFields(t1, u1, c1);
    SignedMessageFields(t2, u2, c2);
    assert f1 == f2;
    assert Decimal.Render(t1) == f1[0][13..] == f2[0][13..] == Decimal.Render(t2);
    assert u1 == f1[1][17..];
    assert u2 == f2[1][17..];
    assert c1 == f1[2][13..];
    assert c2 == f2[2][13..];
    Decimal.RenderInjective(t1, t2);
  }

  /**
    Without that condition the message is ambiguous: a comma inside a field can
    move text from one field to the next and leave the message unchanged.
   */
  lemma SignedMessageAmbiguousWithCommas()
    ensures SignedMessage(1100, "a,product_code=b", "c") == SignedMessage(1100, "a", "b,product_code=c")
  {
  }

  // ---------------------------------------------------------------------------
  // Payment initiation

  /** `payment_data`: the form fields posted to the gateway, given the signature. */
  function PaymentData(req: PaymentRequest, totalAmount: int, signature: string): (p: Params)
    ensures p.Keys == PAYMENT_KEYS
    ensures p["amount"] == Number(req.amount)
    ensures p["product_delivery_charge"] == Number(req.productDeliveryCharge)
    ensures p["product_service_charge"] == Number(req.productServiceCharge)
    ensures p["tax_amount"] == Number(req.taxAmount)
    ensures p["total_amount"] == Number(totalAmount)
    ensures p["transaction_uuid"] == Text(req.transactionUuid)
    ensures p["product_code"] == Text(req.productCode)
    ensures p["signed_field_names"] == Text(SIGNED_FIELD_NAMES)
    ensures p["success_url"] == Text(req.successUrl)
    ensures p["failure_url"] == Text(req.failureUrl)
    ensures p["signature"] == Text(signature)
  {
    map[
      "amount" := Number(req.amount),
      "product_delivery_charge" := Number(req.productDeliveryCharge),
      "product_service_charge" := Number(req.productServiceCharge),
      "tax_amount" := Number(req.taxAmount),
      "total_amount" := Number(totalAmount),
      "transaction_uuid" := Text(req.transactionUuid),
      "product_code" := Text(req.productCode),
      "signed_field_names" := Text(SIGNED_FIELD_NAMES),
      "success_url" := Text(req.successUrl),
      "failure_url" := Text(req.failureUrl),
      "signature" := Text(signature)]
  }

  /** The eleven parameter names are distinct. */
  lemma PaymentKeysCount()
    ensures |PAYMENT_KEYS| == 11
  {
  }

  /**
    Everything `esewa_payment_gateway` computes before it posts: the total, the
    signature over the canonical message, and the parameter set. Signing happens
    before the `try` block, so its `ValidationError` is raised, not returned.
   */
  function OutboundParams(req: PaymentRequest, digest: Utils.Digester): (r: Result<Params, EsewaError>)
    ensures r.Failure? <==> req.secret == ""
    ensures r.Failure? ==> r.error == ValidationError(Utils.HASH_INPUTS_REQUIRED)
    ensures r.Success? ==>
      var total := TotalAmount(req.amount, req.productDeliveryCharge, req.productServiceCharge, req.taxAmount);
      var sig := Utils.GenerateHmacHash(digest, SignedMessage(total, req.transactionUuid, req.productCode),
                                        req.secret, req.algorithm, req.encoding);
      && sig.Success?
      && r.value == PaymentData(req, total, sig.value)
  {
    var total := TotalAmount(req.amount, req.productDeliveryCharge, req.productServiceCharge, req.taxAmount);
    var data := SignedMessage(total, req.transactionUuid, req.productCode);
    assert data[..13] == "total_amount=";
    match Utils.GenerateHmacHash(digest, data, req.secret, req.algorithm, req.encoding)
    case Failure(e) => Failure(e)
    case Success(signature) => Success(PaymentData(req, total, signature))
  }

  /**
    `esewa_payment_gateway`. An empty secret raises `ValidationError` (the
    message always starts with "total_amount=", so it is never empty); otherwise
    the parameters are posted once and the reply, or the failure, is reported
    as a dictionary.
   */
  function EsewaPaymentGateway(req: PaymentRequest, digest: Utils.Digester, post: Poster)
    : (r: Result<Params, EsewaError>)
    ensures r.Failure? <==> req.secret == ""
    ensures r.Failure? ==> r.error == ValidationError(Utils.HASH_INPUTS_REQUIRED)
    ensures r.Success? ==>
      && OutboundParams(req, digest).Success?
      && var reply := post(req.esewaPaymentUrl, OutboundParams(req, digest).value);
      && ("form_html" in r.value <==> reply.Reply?)
      && (reply.Reply? ==>
            && r.value.Keys == {"status", "message", "form_html"}
            && r.value["status"] == Number(reply.statusCode)
            && r.value["message"] == Text(PAYMENT_FORM_RECEIVED)
            && r.value["form_html"] == Text(reply.text))
      && (reply.RequestFailed? ==>
            && r.value.Keys == {"status", "message"}
            && r.value["status"] == Number(500)
            && r.value["message"] == Text(PAYMENT_ERROR_PREFIX + reply.reason))
  {
    match OutboundParams(req, digest)
    case Failure(e) => Failure(e)
    case Success(paymentData) =>
      match post(req.esewaPaymentUrl, paymentData)
      case Reply(statusCode, text) =>
        Success(map["status" := Number(statusCode), "message" := Text(PAYMENT_FORM_RECEIVED),
                    "form_html" := Text(text)])
      case RequestFailed(reason) =>
        Success(map["status" := Number(500), "message" := Text(PAYMENT_ERROR_PREFIX + reason)])
  }

  /**
    The total that is signed is the total that is sent: the `total_amount`
    parameter carries the sum of the four charges, and the `signature` parameter
    is exactly the Base64 (or, for any other encoding name, the lowercase hex)
    text of the keyed hash of the message that embeds the same sum.
   */
  lemma SignedTotalIsSentTotal(req: PaymentRequest, digest: Utils.Digester)
    requires req.secret != ""
    ensures
      var sum := req.amount + req.productDeliveryCharge + req.productServiceCharge + req.taxAmount;
      var bytes := digest(req.algorithm, req.secret, SignedMessage(sum, req.transactionUuid, req.productCode));
      var p := OutboundParams(req, digest).value;
      && p["total_amount"] == Number(sum)
      && (req.encoding == "base64" ==> p["signature"] == Text(EncodeBase64(bytes)))
      && (req.encoding != "base64" ==> p["signature"] == Text(EncodeHex(bytes)))
  {
  }

  /**
    The secret reaches the parameters only through the signature: two requests
    that differ in nothing but a (non-empty) secret post the same parameters
    apart from `signature`.
   */
  lemma SecretOnlyInSignature(req: PaymentRequest, otherSecret: string, digest: Utils.Digester)
    requires req.secret != "" && otherSecret != ""
    ensures
      var p1 := OutboundParams(req, digest).value;
      var p2 := OutboundParams(req.(secret := otherSecret), digest).value;
      p1 - {"signature"} == p2 - {"signature"}
  {
  }

  /** The signature argument fills the `signature` entry and nothing else. */
  lemma PaymentDataBesidesSignature(req: PaymentRequest, totalAmount: int, s1: string, s2: string)
    ensures PaymentData(req, totalAmount, s1) - {"signature"} == PaymentData(req, totalAmount, s2) - {"signature"}
  {
  }

  // ---------------------------------------------------------------------------
  // Status check

  /** `params` of `esewa_check_status`: the three business fields and nothing else. */
  function StatusParams(totalAmount: int, transactionUuid: string, productCode: string): (p: Params)
    ensures p.Keys == STATUS_KEYS
    ensures p["total_amount"] == Number(totalAmount)
    ensures p["transaction_uuid"] == Text(transactionUuid)
    ensures p["product_code"] == Text(productCode)
  {
    map["total_amount" := Number(totalAmount), "transaction_uuid" := Text(transactionUuid),
        "product_code" := Text(productCode)]
  }

  /**
    `esewa_check_status`: the parsed reply unchanged, or, when the request or
    the parsing raised, a dictionary with status 500 and the exception's text.
    It never raises.
   */
  function EsewaCheckStatus(totalAmount: int, transactionUuid: string, productCode: string,
                            statusCheckUrl: string, get: Getter): (r: Params)
    ensures
      var reply := get(statusCheckUrl, StatusParams(totalAmount, transactionUuid, productCode));
      && (reply.Parsed? ==> r == reply.body)
      && (reply.Raised? ==>
            && r.Keys == {"status", "message"}
            && r["status"] == Number(500)
            && r["message"] == Text(STATUS_ERROR_PREFIX + reply.reason))
  {
    match get(statusCheckUrl, StatusParams(totalAmount, transactionUuid, productCode))
    case Parsed(body) => body
    case Raised(reason) => map["status" := Number(500), "message" := Text(STATUS_ERROR_PREFIX + reason)]
  }

  /**
    A status query for a payment, made with the same total, transaction id and
    product code, carries exactly the values the payment posted under those
    three names.
   */
  lemma StatusQueryMatchesPayment(req: PaymentRequest, digest: Utils.Digester)
    requires req.secret != ""
    ensures
      var total := TotalAmount(req.amount, req.productDeliveryCharge, req.productServiceCharge, req.taxAmount);
      var q := StatusParams(total, req.transactionUuid, req.productCode);
      var p := OutboundParams(req, digest).value;
      q.Keys <= p.Keys && forall k :: k in q ==> q[k] == p[k]
  {
  }

  /**
    The example of the library's test: charges 1000, 50, 20 and
    30 total 1100, which the message renders as the four characters "1100".
   */
  lemma ExampleTotal(transactionUuid: string)
    ensures TotalAmount(1000, 50, 20, 30) == 1100
    ensures SignedMessage(TotalAmount(1000, 50, 20, 30), transactionUuid, "EPAYTEST")
            == Field("total_amount", "1100") + "," + Field("transaction_uuid", transactionUuid) + ","
               + Field("product_code", "EPAYTEST")
  {
    var digits := Decimal.NatDigits(1100);
    assert digits == Decimal.NatDigits(110) + [Decimal.DigitChar(0)];
    assert Decimal.NatDigits(110) == Decimal.NatDigits(11) + [Decimal.DigitChar(0)];
    assert Decimal.NatDigits(11) == Decimal.NatDigits(1) + [Decimal.DigitChar(1)];
    assert Decimal.Render(1100) == "1100";
  }
}
