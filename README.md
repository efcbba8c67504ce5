# eSewa payment client — a verified model

This project models the deterministic core of a small Python client for the
eSewa payment gateway. The client does two things:

- **Payment initiation** (`esewa_payment_gateway`). It adds the four charges
  into `total_amount`. It signs the canonical message
  `total_amount=…,transaction_uuid=…,product_code=…` with an HMAC keyed by the
  merchant secret. It posts to the gateway with eleven parameters in the query
  string, and reports the reply, or the transport failure, as a dictionary.
- **Status lookup** (`esewa_check_status`). It sends the three business fields
  as query parameters and returns the parsed JSON reply, or a status-500
  dictionary when the request or the parsing raised.

It also models the helpers these rely on:

- the amount and URL checks;
- the signer's guard and its choice between Base64 and lowercase hex;
- the Base64url-to-Base64 normalisation done before decoding;
- the format of generated transaction ids.

Modules, one per source file or concern:

| module | file | models |
|---|---|---|
| `Wrappers` | wrappers.dfy | `Option`, `Result`, `Outcome` |
| `Exceptions` | exceptions.dfy | the three raisable error kinds of `src/esewa/exceptions.py` |
| `Decimal` | decimal.dfy | `str(int)`, with a parser as its partner |
| `Codec` | codec.dfy | Base64 (sections 4 and 5 of RFC 4648) and lowercase hex, each with a decoder |
| `Utils` | utils.dfy | `src/esewa/utils.py` |
| `Client` | client.dfy | `src/esewa/client.py` |

How the things outside the model are represented:

- **The HMAC digest** (RFC 2104, computed by `hmac`/`hashlib`) is a
  function-typed parameter `Digester`. It maps the algorithm name, the key and
  the message to digest bytes. Everything proved holds for every such function.
- **The HTTP calls** are parameters too. `Poster` maps the URL and the
  parameters to a reply or to the text of the raised exception. `Getter` does
  the same for `requests.get` followed by `response.json()`. So the model shows
  exactly which URL and which parameters each call sends.
- **The clock and the random generator** of `generate_unique_id` are
  parameters: the whole seconds of the clock, and the nine positions that
  `random.choices` picks in `ascii_lowercase + digits`.
- **Amounts** are `int`. `Decimal.Render` is Python's `str` of an int.

Three behaviours of the code shape the client's contracts:

- The client does not validate its inputs, and it never raises
  `PaymentRequestError` or `StatusCheckError`. Failures inside the `try` blocks
  become `{status: 500, message: …}` dictionaries.
- A non-2xx reply to the payment post is not an error. Its status code is
  passed through with the body as `form_html`.
- Signing happens before the `try` block. So an empty secret raises
  `ValidationError` out of `esewa_payment_gateway` instead of producing the
  500 dictionary. The message is never empty, because it starts with
  `total_amount=`.

## Model

| member | source | states |
|---|---|---|
| `Decimal.Render` | src/esewa/client.py:46 | the rendered total is non-empty, all digits apart from a leading `-` for negatives, so it contains neither `,` nor `=` |
| `Decimal.NatDigits` | src/esewa/utils.py:118 | the decimal form of a natural number is non-empty, all digits, with no leading zero |
| `Decimal.RenderRoundTrip` | src/esewa/client.py:46 | parsing the rendered integer gives the integer back |
| `Decimal.RenderInjective` | src/esewa/client.py:46 | different totals render differently |
| `Codec.EncodeUnpadded` | src/esewa/utils.py:69 | Base64 without padding: `(4n+2)/3` characters, all from the alphabet of section 4 of RFC 4648 |
| `Codec.PadToQuad` | src/esewa/utils.py:104 | appending `"=" * (-len % 4)` gives a multiple of 4 that starts with the input, adds fewer than four `=`, and adds none when the length is already a multiple of 4 |
| `Codec.EncodeBase64` | src/esewa/utils.py:69 | `b64encode` output has four characters per started group of three bytes |
| `Codec.Base64RoundTrip` | src/esewa/utils.py:69 | decoding the Base64 encoding of any bytes gives those bytes back |
| `Codec.Base64Canonical` | src/esewa/utils.py:69 | the decoder accepts only canonical text (zero pad bits, section 3.5 of RFC 4648): text that decodes to some bytes is exactly their `b64encode` output |
| `Codec.EncodeHex` | src/esewa/utils.py:70 | `bytes.hex()` gives two lowercase hex digits per byte |
| `Codec.HexRoundTrip` | src/esewa/utils.py:70 | decoding the hex encoding of any bytes gives those bytes back |
| `Codec.ReplaceChar` | src/esewa/utils.py:105 | `str.replace` of one character keeps the length, leaves no occurrence of the old character and changes no other character |
| `Codec.EncodeBase64UrlUnpadded` | src/esewa/utils.py:94-105 | the URL-safe unpadded form that `base64_decode` accepts contains no `+`, `/` or `=` |
| `Utils.ValidateUrl` | src/esewa/utils.py:24-26 | a URL passes exactly when its scheme and its network location are both non-empty; otherwise `ValidationError("Invalid URL: " + url)` |
| `Utils.ValidateAmount` | src/esewa/utils.py:40-41 | `ValidationError` exactly when the value is negative; zero and positive values pass |
| `Utils.GenerateHmacHash` | src/esewa/utils.py:65-70 | `ValidationError` exactly when the data or the secret is empty; with `encoding == "base64"` the result is exactly the standard Base64 text of the digest, which decodes back to it; any other encoding gives exactly the lowercase hex text of the digest, twice its length, which decodes back to it |
| `Utils.SignatureDeterministic` | src/esewa/utils.py:67-70 | the signature depends only on the digest of (algorithm, secret, data) and the encoding |
| `Utils.SignatureEncodingsAgree` | src/esewa/utils.py:68-70 | the Base64 and the hex signature of the same inputs carry the same digest bytes |
| `Utils.StandardBase64` | src/esewa/utils.py:104-105 | the normalised text has a length that is a multiple of 4, fewer than four added `=`, no `-` or `_`; `-` becomes `+`, `_` becomes `/`, and every other character is kept |
| `Utils.UrlSafeNormalises` | src/esewa/utils.py:104-106 | normalising the unpadded Base64url text of any bytes gives their standard padded Base64, which decodes to those bytes |
| `Utils.RandomPart` | src/esewa/utils.py:117 | the picked characters are all in `[a-z0-9]`, one per pick, at the picked positions |
| `Utils.GenerateUniqueId` | src/esewa/utils.py:117-118 | the id is `"id-"`, the decimal timestamp, `"-"`, then nine characters from `[a-z0-9]`; every character is in `[a-z0-9-]` |
| `Utils.UniqueIdRoundTrip` | src/esewa/utils.py:118 | the id can be read back into the timestamp and the picks it was made from |
| `Utils.UniqueIdInjective` | src/esewa/utils.py:117-118 | different timestamps or different picks never give the same id |
| `Client.SignedMessageFields` | src/esewa/client.py:46 | split on commas, the message is exactly `total_amount=<total>`, `transaction_uuid=<uuid>`, `product_code=<code>`, in that order, when the id and the code contain no comma |
| `Client.SignedFieldNamesSplit` | src/esewa/client.py:57 | `signed_field_names` lists `total_amount`, `transaction_uuid`, `product_code`, in that order |
| `Client.SignedFieldNamesMatchMessage` | src/esewa/client.py:46-57 | the keys of the message's three fields are the names `signed_field_names` lists, in the same order |
| `Client.SignedMessageInjective` | src/esewa/client.py:46 | without commas in the id or the code, the message determines the total, the id and the code |
| `Client.SignedMessageAmbiguousWithCommas` | src/esewa/client.py:46 | with a comma in the id, two different (id, code) pairs give the same message |
| `Client.PaymentData` | src/esewa/client.py:49-61 | the parameter set has exactly the eleven listed keys; the four charges, the transaction id, the product code and the two URLs are passed through from the request, `total_amount` is the given total, `signed_field_names` is the literal and `signature` is the given signature |
| `Client.PaymentKeysCount` | src/esewa/client.py:49-61 | the eleven parameter names are distinct |
| `Client.OutboundParams` | src/esewa/client.py:44-61 | an empty secret raises `ValidationError`, and nothing else does; otherwise the parameters carry the signature of the message built from the same total |
| `Client.SignedTotalIsSentTotal` | src/esewa/client.py:44-60 | the `total_amount` parameter is the sum of the four charges, and the `signature` parameter is exactly the Base64 (or lowercase hex) text of the digest of the message that embeds the same sum |
| `Client.SecretOnlyInSignature` | src/esewa/client.py:47-61 | two requests that differ only in the secret send identical parameters apart from `signature` |
| `Client.PaymentDataBesidesSignature` | src/esewa/client.py:49-61 | the signature fills the `signature` entry and no other |
| `Client.EsewaPaymentGateway` | src/esewa/client.py:44-76 | an empty secret raises `ValidationError` and nothing else raises; a reply gives `{status, message: "Payment form received", form_html}`; a transport failure gives `{status: 500, message: "Error during payment request: " + e}` without `form_html` |
| `Client.StatusParams` | src/esewa/client.py:97-101 | the status query has exactly the keys `total_amount`, `transaction_uuid`, `product_code`, holding the given values |
| `Client.EsewaCheckStatus` | src/esewa/client.py:97-111 | a parsed reply is returned unchanged; a failure gives exactly `{status: 500, message: "Status check failed: " + e}`; it never raises |
| `Client.StatusQueryMatchesPayment` | src/esewa/client.py:54-101 | a status query for a payment carries the same values the payment posted under the same three names |
| `Client.ExampleTotal` | tests/test.py:10-21 | charges 1000, 50, 20 and 30 total 1100, and the signed message embeds `1100` |

## Left out

- HMAC and hash internals (`hmac.new`, `hashlib`). The digest is a parameter, so any function of (algorithm, key, message) is allowed.
- `Utils.GenerateHmacHash`: does not model `getattr(hashlib, algorithm)` failing for an unknown algorithm name, because the digest parameter is total; that `AttributeError` would also escape `esewa_payment_gateway`.
- `Utils.GenerateHmacHash`: strings are passed to the digest as they are, so the UTF-8 encoding of `secret.encode()` and `data.encode()` is left out.
- `base64.b64decode` and `json.loads` in `base64_decode`. These are library calls. Python's decoder is lenient by default (it skips characters outside the alphabet and ignores the pad bits), while `Codec.DecodeBase64` accepts only the canonical encoding; it serves as the partner of the encoder, not as a model of `b64decode`.
- `safe_json_dumps`. It is JSON serialisation with an identity-based cycle guard.
- `requests.post`, `requests.get`, the 10-second timeouts and `response.json()`. These are network I/O; their outcomes are parameters.
- `Utils.ValidateUrl`: `urlparse` is left out; the parsed scheme and network location are a parameter.
- `Decimal.Render`: does not model Python's float formatting (`1100.0`), because amounts are modelled as `int`, as in the library's only test.
- `Utils.GenerateUniqueId`: `time.time()` and `random.choices` are nondeterministic sources. The timestamp (`int(time.time())`, a natural number) and the nine picks are parameters.
- `Client.EsewaCheckStatus`: the parsed reply is modelled as a dictionary of integers and strings. A top-level JSON value that is not an object (a list or a string, which `response.json()` may return and the function passes on unchanged), nested values, and numbers that are not integers are not represented.
- Packaging (`setup.py`) and the re-exports of `src/esewa/__init__.py`.
