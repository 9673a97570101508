# TenpayBusiness client core, modelled in Dafny

This project models the core of the TenpayBusiness client from the SKIT.FlurlHttpClient.Wechat
library. It covers two parts:

- **The client** (`WechatTenpayBusinessClient`):
  - the constructor;
  - building a request, including its timeout and the outbound `TBEP-Encrypt` header;
  - the preconditions and body rules of the two send methods;
  - reading the inbound `TBEP-Encrypt` header into the response's encryption info.
- **The signature check** (`WechatTenpayBusinessClientSignExtensions`):
  - reading the `TBEP-Authorization` attribute list;
  - choosing the platform certificate by serial number;
  - building the canonical plaintext `timestamp\nnonce\nbody\n`;
  - handing the plaintext to the RSA verifier.

Modules:

- `Wrappers`: `Option`, `Result`, how a null string interpolates, and `string.IsNullOrEmpty`.
- `Errors`: one constructor per exception the core raises or reports.
- `Text`: `Trim`, `TrimStart`/`TrimEnd` of quotes, `Split`, and the lemmas about them.
- `AttributeList`: the parse rule shared by both headers. Each comma-separated segment is trimmed and split on `=`. The key is the first piece. The value is the second piece with every leading and trailing quote removed, or null when there is no `=`. `ToDictionary` raises on a repeated key, and the indexer raises on a missing one.
- `BusinessClient`: the client as a class with its state, the request, response and content objects as classes, and the header rules.
- `SignExtensions`: the `VerifySignature` overloads and `GetPlainTextForSignature`.

Exceptions are values in the model:

- A C# `throw` that escapes a method is a `Failure` result, or `Raised` for `VerifySignature`.
- The `(bool, out Exception? error)` pair is `Returned(valid, error)`.
- `RSAUtility.VerifyWithSHA256` is an arbitrary function passed as a parameter. It may answer `Verified(b)` or throw (`Faulted`).
- Whether the verifier is consulted is stated as "the outcome is the same for any two verifiers".

## Model

| member | source | states |
|---|---|---|
| Wrappers.Interpolated | src/SKIT.FlurlHttpClient.Wechat.TenpayBusiness/Extensions/Internal/WechatTenpayBusinessClientSignExtensions.cs:108 | a null string interpolates as the empty string, any other string as itself |
| Wrappers.IsNullOrEmpty | src/SKIT.FlurlHttpClient.Wechat.TenpayBusiness/Extensions/Internal/WechatTenpayBusinessClientSignExtensions.cs:16 | defines what `string.IsNullOrEmpty` is taken to mean: the string is null or has no characters; the same test guards the inbound header at `src/SKIT.FlurlHttpClient.Wechat.TenpayBusiness/WechatTenpayBusinessClient.cs`:140 and the media type at :89 |
| Text.TrimStart | src/SKIT.FlurlHttpClient.Wechat.TenpayBusiness/Extensions/Internal/WechatTenpayBusinessClientSignExtensions.cs:25 | the result is a suffix of the input; every removed character is one of those trimmed; the result does not start with one |
| Text.TrimEnd | src/SKIT.FlurlHttpClient.Wechat.TenpayBusiness/Extensions/Internal/WechatTenpayBusinessClientSignExtensions.cs:25 | the result is a prefix of the input; every removed character is one of those trimmed; the result does not end with one |
| Text.Trim | src/SKIT.FlurlHttpClient.Wechat.TenpayBusiness/Extensions/Internal/WechatTenpayBusinessClientSignExtensions.cs:22 | `Trim()` keeps a slice of the input: only white space is cut from either end, and the result neither starts nor ends with white space |
| Text.StripQuotes | src/SKIT.FlurlHttpClient.Wechat.TenpayBusiness/Extensions/Internal/WechatTenpayBusinessClientSignExtensions.cs:25 | `TrimStart('"').TrimEnd('"')` keeps a slice of the value: only quotes are cut from either end, every leading and every trailing one |
| Text.IsWhiteSpace | src/SKIT.FlurlHttpClient.Wechat.TenpayBusiness/Extensions/Internal/WechatTenpayBusinessClientSignExtensions.cs:22 | defines what `char.IsWhiteSpace`, and so `Trim()`, treats as white space: U+0009 to U+000D, U+0020, U+0085, U+00A0, U+1680, U+2000 to U+200A, U+2028, U+2029, U+202F, U+205F and U+3000, which is the whole set .NET accepts |
| Text.EqualsIgnoreCase | src/SKIT.FlurlHttpClient.Wechat.TenpayBusiness/WechatTenpayBusinessClient.cs:120-122 | defines the ordinal case-insensitive comparison behind `HttpMethod` equality: same length, and equal position by position once ASCII letters are upper-cased |
| Text.Split | src/SKIT.FlurlHttpClient.Wechat.TenpayBusiness/Extensions/Internal/WechatTenpayBusinessClientSignExtensions.cs:21-22 | splitting always yields at least one piece |
| Text.JoinSplit | src/SKIT.FlurlHttpClient.Wechat.TenpayBusiness/Extensions/Internal/WechatTenpayBusinessClientSignExtensions.cs:21-22 | no piece contains the separator, and joining the pieces with the separator gives back the input |
| Text.SplitJoin | src/SKIT.FlurlHttpClient.Wechat.TenpayBusiness/Extensions/Internal/WechatTenpayBusinessClientSignExtensions.cs:21-22 | splitting the join of separator-free pieces gives back exactly those pieces, empty ones included |
| Text.SplitHead | src/SKIT.FlurlHttpClient.Wechat.TenpayBusiness/Extensions/Internal/WechatTenpayBusinessClientSignExtensions.cs:22-25 | the first piece is the text before the first separator; a second piece exists iff there is a separator, and it ends at the next one |
| Text.StripQuotesOfQuoted | src/SKIT.FlurlHttpClient.Wechat.TenpayBusiness/Extensions/Internal/WechatTenpayBusinessClientSignExtensions.cs:25 | removing quotes from `"v"` gives `v` when `v` neither starts nor ends with a quote |
| Text.StripQuotesOfOpenQuoted | src/SKIT.FlurlHttpClient.Wechat.TenpayBusiness/Extensions/Internal/WechatTenpayBusinessClientSignExtensions.cs:25 | a value with only its opening quote left loses that quote and nothing else |
| AttributeList.ParseSegment | src/SKIT.FlurlHttpClient.Wechat.TenpayBusiness/Extensions/Internal/WechatTenpayBusinessClientSignExtensions.cs:22-25 | defines one segment's attribute: trimmed, cut at `=`, key the first piece, value the second piece unquoted or null; `ParseSegmentMeaning` states what that keeps |
| AttributeList.ParseSegmentMeaning | src/SKIT.FlurlHttpClient.Wechat.TenpayBusiness/Extensions/Internal/WechatTenpayBusinessClientSignExtensions.cs:22-25 | the key is the trimmed segment up to its first `=`; the value is null without `=`, else only the unquoted text between the first and second `=` |
| AttributeList.Segments | src/SKIT.FlurlHttpClient.Wechat.TenpayBusiness/Extensions/Internal/WechatTenpayBusinessClientSignExtensions.cs:20-22 | there is one attribute per comma-separated segment, and the i-th attribute is the parse of the i-th segment |
| AttributeList.Insert | src/SKIT.FlurlHttpClient.Wechat.TenpayBusiness/Extensions/Internal/WechatTenpayBusinessClientSignExtensions.cs:23-26 | building the dictionary succeeds iff no key repeats and no key is already present |
| AttributeList.InsertContents | src/SKIT.FlurlHttpClient.Wechat.TenpayBusiness/Extensions/Internal/WechatTenpayBusinessClientSignExtensions.cs:23-26 | on success the keys are exactly the earlier ones plus the segment keys, each mapped to its own segment's value |
| AttributeList.InsertFirstDuplicate | src/SKIT.FlurlHttpClient.Wechat.TenpayBusiness/Extensions/Internal/WechatTenpayBusinessClientSignExtensions.cs:23-26 | on failure the error names the key of the first segment whose key was already seen |
| AttributeList.ToDictionary | src/SKIT.FlurlHttpClient.Wechat.TenpayBusiness/Extensions/Internal/WechatTenpayBusinessClientSignExtensions.cs:23-26 | defines `ToDictionary` as inserting the attributes left to right into an empty dictionary; `ToDictionaryMeaning` states the outcome |
| AttributeList.ToDictionaryMeaning | src/SKIT.FlurlHttpClient.Wechat.TenpayBusiness/Extensions/Internal/WechatTenpayBusinessClientSignExtensions.cs:23-26 | the dictionary is built iff no two attributes share a key; then it holds exactly their keys, each with its own value; otherwise the error names the first repeated key |
| AttributeList.Parse | src/SKIT.FlurlHttpClient.Wechat.TenpayBusiness/Extensions/Internal/WechatTenpayBusinessClientSignExtensions.cs:20-26 | defines the header read: the segments' attributes put into a dictionary; `ParseMeaning` states the outcome |
| AttributeList.ParseMeaning | src/SKIT.FlurlHttpClient.Wechat.TenpayBusiness/Extensions/Internal/WechatTenpayBusinessClientSignExtensions.cs:20-26 | any header is read iff no two segments share a key; then every segment key maps to that segment's value and no other key is present; otherwise the error names the first segment whose key was seen before |
| AttributeList.Lookup | src/SKIT.FlurlHttpClient.Wechat.TenpayBusiness/Extensions/Internal/WechatTenpayBusinessClientSignExtensions.cs:27 | the indexer yields the stored value iff the key is present, and otherwise raises naming the key |
| AttributeList.LookupAll | src/SKIT.FlurlHttpClient.Wechat.TenpayBusiness/Extensions/Internal/WechatTenpayBusinessClientSignExtensions.cs:27-31 | reading keys in order succeeds iff all are present, yields their values in order, and otherwise raises for the first missing key |
| AttributeList.LookupAllFive | src/SKIT.FlurlHttpClient.Wechat.TenpayBusiness/Extensions/Internal/WechatTenpayBusinessClientSignExtensions.cs:27-31 | five indexer reads in a row raise for the first absent key, in order, and otherwise yield the five stored values |
| AttributeList.ParseQuotedSegment | src/SKIT.FlurlHttpClient.Wechat.TenpayBusiness/Extensions/Internal/WechatTenpayBusinessClientSignExtensions.cs:22-25 | a segment `k="v"` with a plain key and value reads back as key `k`, value `v` |
| AttributeList.ParsePaddedSegment | src/SKIT.FlurlHttpClient.Wechat.TenpayBusiness/Extensions/Internal/WechatTenpayBusinessClientSignExtensions.cs:22-25 | a segment `k="w=="` (padded base64) reads back as value `w`: the padding and the closing quote are lost |
| AttributeList.ReadBack | src/SKIT.FlurlHttpClient.Wechat.TenpayBusiness/Extensions/Internal/WechatTenpayBusinessClientSignExtensions.cs:22-25 | what the parse keeps of a written value, the text before its first `=`: a plain value whole, a padded one without its `==` |
| AttributeList.ParseWrittenSegment | src/SKIT.FlurlHttpClient.Wechat.TenpayBusiness/Extensions/Internal/WechatTenpayBusinessClientSignExtensions.cs:22-25 | a segment `k="w"` with a plain key and a plain or padded value reads back as key `k` and the value cut at its first `=` |
| AttributeList.ParseFormatted | src/SKIT.FlurlHttpClient.Wechat.TenpayBusiness/Extensions/Internal/WechatTenpayBusinessClientSignExtensions.cs:20-26 | a header written as `k1="v1",…,kn="vn"` with distinct plain keys and plain or padded values parses to exactly those keys, each value cut at its first `=` |
| AttributeList.ParseFormattedAt | src/SKIT.FlurlHttpClient.Wechat.TenpayBusiness/Extensions/Internal/WechatTenpayBusinessClientSignExtensions.cs:20-26 | in such a header the i-th key is present with the i-th value cut at its first `=` |
| BusinessClient.HeaderValues | src/SKIT.FlurlHttpClient.Wechat.TenpayBusiness/WechatTenpayBusinessClient.cs:33-35 | defines the values under a header name, in order, as those of the entries with that name; there are never more of them than entries |
| BusinessClient.WithoutHeader | src/SKIT.FlurlHttpClient.Wechat.TenpayBusiness/WechatTenpayBusinessClient.cs:33-34 | removing a header leaves no value under that name and every other name's values unchanged |
| BusinessClient.WithHeader | src/SKIT.FlurlHttpClient.Wechat.TenpayBusiness/WechatTenpayBusinessClient.cs:35 | setting a header leaves exactly the one new value under that name and every other name's values unchanged |
| BusinessClient.AlgorithmOrDefault | src/SKIT.FlurlHttpClient.Wechat.TenpayBusiness/WechatTenpayBusinessClient.cs:64-65 | the request's own algorithm is kept; a null one becomes RSA-OAEP with SM4-128-CBC |
| BusinessClient.EncryptHeaderValue | src/SKIT.FlurlHttpClient.Wechat.TenpayBusiness/WechatTenpayBusinessClient.cs:68 | defines the outbound `TBEP-Encrypt` value with a null field written as empty; `EncryptHeaderIsFormatted` and `EncryptHeaderAttributes` state its shape and how it reads back |
| BusinessClient.EncryptHeaderIsFormatted | src/SKIT.FlurlHttpClient.Wechat.TenpayBusiness/WechatTenpayBusinessClient.cs:68 | the outbound `TBEP-Encrypt` value is the quoted attribute list `enc_key`, `iv`, `tbep_serial_number`, `algorithm`, in that order |
| BusinessClient.EncryptHeaderAttributes | src/SKIT.FlurlHttpClient.Wechat.TenpayBusiness/WechatTenpayBusinessClient.cs:68 | with each field value plain or padded with `==` (standard base64 of the encrypted key and the IV), the outbound header parses to exactly those four keys, each value cut at its first `=` |
| BusinessClient.EncryptionFieldsOf | src/SKIT.FlurlHttpClient.Wechat.TenpayBusiness/WechatTenpayBusinessClient.cs:150-154 | the five fields are read iff all five keys are present, each holding its key's value; otherwise the error names the first missing key in the order `platform_id`, `enc_key`, `iv`, `platform_serial_number`, `algorithm` |
| BusinessClient.ParseEncryptionHeader | src/SKIT.FlurlHttpClient.Wechat.TenpayBusiness/WechatTenpayBusinessClient.cs:142-154 | defines the inbound read: parse the header, then read the five fields; `ParseEncryptionHeaderMeaning` states the outcome |
| BusinessClient.ParseEncryptionHeaderMeaning | src/SKIT.FlurlHttpClient.Wechat.TenpayBusiness/WechatTenpayBusinessClient.cs:142-154 | the inbound header yields the five fields iff it parses and all five keys are present; otherwise it raises the parse error or names the first missing key |
| BusinessClient.EncryptHeaderLacksPlatformId | src/SKIT.FlurlHttpClient.Wechat.TenpayBusiness/WechatTenpayBusinessClient.cs:150 | every header the client sends whose values are plain or `==`-padded is not a valid inbound one: reading it fails on `platform_id` |
| BusinessClient.EncryptionFieldsStepwise | src/SKIT.FlurlHttpClient.Wechat.TenpayBusiness/WechatTenpayBusinessClient.cs:150-154 | the five fields are read in assignment order (`platform_id`, `enc_key`, `iv`, `platform_serial_number`, `algorithm`); the first absent key raises, and with all present each field holds its key's value |
| BusinessClient.FirstOrNull | src/SKIT.FlurlHttpClient.Wechat.TenpayBusiness/WechatTenpayBusinessClient.cs:139 | the first value under the header name, or null exactly when there is none |
| BusinessClient.IsSimpleRequest | src/SKIT.FlurlHttpClient.Wechat.TenpayBusiness/WechatTenpayBusinessClient.cs:119-122 | defines the no-body rule: no data, or a verb equal to GET, HEAD or OPTIONS ignoring case |
| BusinessClient.SameMethod | src/SKIT.FlurlHttpClient.Wechat.TenpayBusiness/WechatTenpayBusinessClient.cs:120-122 | defines `HttpMethod` `==` as equality of the verb names ignoring case |
| BusinessClient.SimpleRequestIgnoresCase | src/SKIT.FlurlHttpClient.Wechat.TenpayBusiness/WechatTenpayBusinessClient.cs:119-122 | a verb written `get` is GET, so its data is not sent; data with POST is |
| BusinessClient.LacksMediaType | src/SKIT.FlurlHttpClient.Wechat.TenpayBusiness/WechatTenpayBusinessClient.cs:89 | defines when the content-type default applies: no content type, or one whose media type is null or empty |
| BusinessClient.TenpayBusinessClient.ReadEncryptionFields | src/SKIT.FlurlHttpClient.Wechat.TenpayBusiness/WechatTenpayBusinessClient.cs:149-154 | the five indexer reads and assignments succeed iff all five keys are present; the error is that of the first missing key; on success the encryption object holds exactly the five values read |
| BusinessClient.FlurlRequest.constructor | src/SKIT.FlurlHttpClient.Wechat.TenpayBusiness/WechatTenpayBusinessClient.cs:55 | a new request carries the verb, URL and timeout it was made with and no headers of its own |
| BusinessClient.ResponseEncryption.constructor | src/SKIT.FlurlHttpClient.Wechat.TenpayBusiness/WechatTenpayBusinessClient.cs:149 | a new response encryption object has all five fields null |
| BusinessClient.TenpayBusinessClient.constructor | src/SKIT.FlurlHttpClient.Wechat.TenpayBusiness/WechatTenpayBusinessClient.cs:30-36 | credentials and timeout come from the options; the base URL is the endpoint or the default; Accept is exactly `application/json`; Accept-Language is gone; other headers are kept |
| BusinessClient.TenpayBusinessClient.Create | src/SKIT.FlurlHttpClient.Wechat.TenpayBusiness/WechatTenpayBusinessClient.cs:26-36 | null options raise `ArgumentNullException(options)`; otherwise a new client with the given credentials and timeout, the given endpoint or the default as base URL, `Accept` exactly `application/json`, no `Accept-Language`, and every other inherited header kept |
| BusinessClient.TenpayBusinessClient.CreateRequest | src/SKIT.FlurlHttpClient.Wechat.TenpayBusiness/WechatTenpayBusinessClient.cs:53-72 | the request's timeout overrides the client's; with encryption info, a null algorithm is set to the default and exactly one `TBEP-Encrypt` header carries the four fields; without it there are no headers |
| BusinessClient.TenpayBusinessClient.SendRequest | src/SKIT.FlurlHttpClient.Wechat.TenpayBusiness/WechatTenpayBusinessClient.cs:82-91 | a null request raises; content without a media type gets `application/json`; content with one is left alone |
| BusinessClient.TenpayBusinessClient.SendRequestWithJson | src/SKIT.FlurlHttpClient.Wechat.TenpayBusiness/WechatTenpayBusinessClient.cs:112-125 | a null request raises; the data is sent as a JSON body iff there is data and the verb is not GET, HEAD or OPTIONS |
| BusinessClient.TenpayBusinessClient.WrapResponse | src/SKIT.FlurlHttpClient.Wechat.TenpayBusiness/WechatTenpayBusinessClient.cs:134-158 | a missing or empty `TBEP-Encrypt` header leaves the response alone; a parse failure raises before the response changes; otherwise a new encryption object is attached, holding the five fields or raising for the first missing key |
| SignExtensions.VerifySignature | src/SKIT.FlurlHttpClient.Wechat.TenpayBusiness/Extensions/Internal/WechatTenpayBusinessClientSignExtensions.cs:61-104 | a null client throws; otherwise the result is true iff the algorithm is SHA256-RSA2048, both certificate fields are set, the serial numbers are equal and the verifier accepts the canonical plaintext; each failing check has its own error; once every check passes the result is the verifier's answer with no error, or false with its fault as the error |
| SignExtensions.VerifySignatureWithDefaultAlgorithm | src/SKIT.FlurlHttpClient.Wechat.TenpayBusiness/Extensions/Internal/WechatTenpayBusinessClientSignExtensions.cs:56-59 | the result, error included, is that of the check with SHA256-RSA2048, so the unsupported-algorithm error never occurs |
| SignExtensions.ReadAuthorization | src/SKIT.FlurlHttpClient.Wechat.TenpayBusiness/Extensions/Internal/WechatTenpayBusinessClientSignExtensions.cs:27-31 | the five authorization attributes are read iff all five keys are present; otherwise the error names the first missing key |
| SignExtensions.PlainTextForSignature | src/SKIT.FlurlHttpClient.Wechat.TenpayBusiness/Extensions/Internal/WechatTenpayBusinessClientSignExtensions.cs:106-109 | defines the canonical plaintext `timestamp\nnonce\nbody\n` with a null part written as empty; `PlainTextInjective` and `PlainTextAmbiguous` state when it determines its parts |
| SignExtensions.Caught | src/SKIT.FlurlHttpClient.Wechat.TenpayBusiness/Extensions/Internal/WechatTenpayBusinessClientSignExtensions.cs:35-39 | the catch turns an escaping exception into `false` with that exception as the error, and leaves a returned result alone |
| SignExtensions.AuthorizationOf | src/SKIT.FlurlHttpClient.Wechat.TenpayBusiness/Extensions/Internal/WechatTenpayBusinessClientSignExtensions.cs:16-31 | a null or empty header cannot be read; a header that does not parse (a repeated key) gives the parse error; otherwise the five attributes are read as `ReadAuthorization` reads them |
| SignExtensions.VerifyAuthorization | src/SKIT.FlurlHttpClient.Wechat.TenpayBusiness/Extensions/Internal/WechatTenpayBusinessClientSignExtensions.cs:14-44 | never throws; a null or empty header gives the unreadable-header error; parse and missing-key errors are reported; for a readable header the result is the attribute check with any exception caught, so it is true iff those attributes are accepted |
| SignExtensions.PlainTextInjective | src/SKIT.FlurlHttpClient.Wechat.TenpayBusiness/Extensions/Internal/WechatTenpayBusinessClientSignExtensions.cs:106-109 | when timestamp and nonce contain no line break, equal plaintexts come from equal timestamp, nonce and body |
| SignExtensions.PlainTextAmbiguous | src/SKIT.FlurlHttpClient.Wechat.TenpayBusiness/Extensions/Internal/WechatTenpayBusinessClientSignExtensions.cs:108 | with nothing escaped, a line break moved between timestamp and nonce gives the same plaintext |
| SignExtensions.VerifierConsultedLast | src/SKIT.FlurlHttpClient.Wechat.TenpayBusiness/Extensions/Internal/WechatTenpayBusinessClientSignExtensions.cs:63-95 | unless every check before the verifier passes, the outcome does not depend on the verifier and is never true |
| SignExtensions.WellFormedAuthorization | src/SKIT.FlurlHttpClient.Wechat.TenpayBusiness/Extensions/Internal/WechatTenpayBusinessClientSignExtensions.cs:14-33 | a header written with plain or padded values is read back with each value cut at its first `=`, and its outcome is that of checking those cut values |
| SignExtensions.MissingSignatureShortCircuits | src/SKIT.FlurlHttpClient.Wechat.TenpayBusiness/Extensions/Internal/WechatTenpayBusinessClientSignExtensions.cs:27-31 | a header without `signature` fails on a missing key before the verifier is consulted |
| SignExtensions.ExampleScenario | src/SKIT.FlurlHttpClient.Wechat.TenpayBusiness/Extensions/Internal/WechatTenpayBusinessClientSignExtensions.cs:14-104 | a header from certificate `SN1` whose signature is sent as padded base64 `w==` verifies true when the `SN1` key accepts `w`; the same header naming `SN2` gives the unmatched-certificate error |

## Left out

- Transport, async and cancellation are not modelled. Nothing is sent: the send methods stop where they hand the request and body to the base client.
- The wrapping of `FlurlHttpException` into `WechatTenpayBusinessException` (`src/SKIT.FlurlHttpClient.Wechat.TenpayBusiness/WechatTenpayBusinessClient.cs` lines 98-101 and 128-131) is not modelled, because it only concerns transport errors.
- JSON deserialisation of the response body (`base.WrapResponseWithJsonAsync`) is not modelled. `WrapResponse` starts from an already deserialised response.
- The request-signing interceptor (lines 38-43) is not modelled, and neither is how `Settings.Credentials` is built from the options. Credentials are a record of two optional strings: the platform certificate's serial number and public key.
- The constants `WechatTenpayBusinessEndpoints.DEFAULT`, `Constants.EncryptionAlgorithms.RSA_OAEP_WITH_SM4_128_CBC` and `Constants.SignAlgorithms.SHA245_WITH_RSA` are not part of this model. They appear as named stand-in strings. Only their identity matters to the proofs.
- Header names are compared exactly, whereas Flurl compares them without regard to case.
- `HttpMethod` equality ignores case. The model folds only the ASCII letters; the other case mappings of an ordinal case-insensitive comparison are not modelled.
- Dafny strings are sequences of Unicode scalar values, whereas .NET strings are sequences of UTF-16 code units. An unpaired surrogate therefore cannot be written in the model. No character that `Split`, `Trim` or the quote stripping looks at is a surrogate, so the behaviour modelled is the same.
- How the base URL and the URL segments are combined is not modelled. The request records them unchanged.
- The overloads at `src/SKIT.FlurlHttpClient.Wechat.TenpayBusiness/Extensions/Internal/WechatTenpayBusinessClientSignExtensions.cs` lines 9-12, 46-49 and 51-54 discard the error. They have no separate member: each returns the flag of the modelled call. The one at lines 9-12 wraps `VerifyAuthorization`, which never throws: a null client comes back as `false`. The ones at lines 46-49 and 51-54 wrap `VerifySignature`, so a null client throws through them.
- Both TBEP-Encrypt formats are modelled, but no round trip is stated between them. They differ: the inbound header needs `platform_id` and `platform_serial_number`, and `BusinessClient.EncryptHeaderLacksPlatformId` proves that an outbound header whose values are plain or `==`-padded is not a valid inbound one.
- Facts about the code that a reader might expect otherwise:
  - the attribute naming the certificate is `tbep_serial_number`;
  - the client holds one certificate serial number and one public key, not a set of keys;
  - the overloads that take the attributes separately throw for a null client instead of reporting it;
  - a value containing `=` is cut at it, so padded base64 loses its padding, and the verifier receives the signature without it. Whether `RSAUtility.VerifyWithSHA256` accepts unpadded base64 is not part of this model.
