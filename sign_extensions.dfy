/** `WechatTenpayBusinessClientSignExtensions`: checking the signature of a response against
    the platform certificate held in the client's credentials. Every failure is reported as
    `false` plus an error; only the overloads that take the attributes separately throw, and
    only for a null client. */
module SignExtensions {
  import opened Wrappers
  import opened Errors
  import opened Text
  import AttributeList
  import opened BusinessClient

  /** `Constants.SignAlgorithms.SHA245_WITH_RSA`, the one supported algorithm. */
  const Sha245WithRsa: string := "SHA256-RSA2048"

  /** What `RSAUtility.VerifyWithSHA256` does: answers, or throws. */
  datatype VerifierOutcome = Verified(valid: bool) | Faulted(message: string)

  /** `RSAUtility.VerifyWithSHA256(publicKey, plainText, signature)`, which is not part of
      this model: any function of its three arguments. */
  type RsaVerifier = (string, string, Option<string>) -> VerifierOutcome

  /** A `VerifySignature` call: the returned flag and `out` error, or an escaping exception. */
  datatype Verification = Returned(valid: bool, error: Option<Error>) | Raised(exception: Error)

  /** `GetPlainTextForSignature`: `timestamp\nnonce\nbody\n`, nothing escaped. */
  function PlainTextForSignature(timestamp: Option<string>, nonce: Option<string>, body: string): (text: string)
  {
    Interpolated(timestamp) + "\n" + Interpolated(nonce) + "\n" + body + "\n"
  }

  /** Everything that must hold for a signature to be accepted: a client, the supported
      algorithm, a complete certificate whose serial number is the declared one, and the
      verifier's yes on the canonical plaintext. */
  predicate Accepted(client: TenpayBusinessClient?, timestamp: Option<string>, nonce: Option<string>, body: string,
                     signature: Option<string>, serialNumber: Option<string>, signAlgorithm: Option<string>,
                     rsa: RsaVerifier)
  {
    && client != null
    && signAlgorithm == Some(Sha245WithRsa)
    && client.credentials.tbepCertificateSerialNumber.Some?
    && client.credentials.tbepCertificatePublicKey.Some?
    && serialNumber == client.credentials.tbepCertificateSerialNumber
    && rsa(client.credentials.tbepCertificatePublicKey.value, PlainTextForSignature(timestamp, nonce, body), signature) == Verified(true)
  }

  /** `VerifySignature(client, timestamp, nonce, body, signature, serialNumber, signAlgorithm, out error)`. */
  function VerifySignature(client: TenpayBusinessClient?, timestamp: Option<string>, nonce: Option<string>, body: string,
                           signature: Option<string>, serialNumber: Option<string>, signAlgorithm: Option<string>,
                           rsa: RsaVerifier): (v: Verification)
    ensures v.Raised? <==> client == null
    ensures v.Raised? ==> v.exception == ArgumentNull("client")
    ensures v.Returned? && v.valid <==> Accepted(client, timestamp, nonce, body, signature, serialNumber, signAlgorithm, rsa)
    ensures v.Returned? && v.valid ==> v.error.None?
    ensures client != null && signAlgorithm != Some(Sha245WithRsa) ==> v == Returned(false, Some(UnsupportedSignAlgorithm))
    ensures client != null && signAlgorithm == Some(Sha245WithRsa)
            && (client.credentials.tbepCertificateSerialNumber.None? || client.credentials.tbepCertificatePublicKey.None?)
            ==> v == Returned(false, Some(NoPublicKeyOrSerialNumber))
    ensures client != null && signAlgorithm == Some(Sha245WithRsa)
            && client.credentials.tbepCertificateSerialNumber.Some? && client.credentials.tbepCertificatePublicKey.Some?
            && serialNumber != client.credentials.tbepCertificateSerialNumber
            ==> v == Returned(false, Some(NoPublicKeyMatched))
    ensures v.Returned? && !v.valid && v.error.None? ==>
            rsa(client.credentials.tbepCertificatePublicKey.value, PlainTextForSignature(timestamp, nonce, body), signature) == Verified(false)
    ensures v.Returned? && v.error.Some? && v.error.value.VerifierFault? ==>
            rsa(client.credentials.tbepCertificatePublicKey.value, PlainTextForSignature(timestamp, nonce, body), signature)
            == Faulted(v.error.value.message)
    ensures client != null && signAlgorithm == Some(Sha245WithRsa)
            && client.credentials.tbepCertificateSerialNumber.Some? && client.credentials.tbepCertificatePublicKey.Some?
            && serialNumber == client.credentials.tbepCertificateSerialNumber
            ==> v == match rsa(client.credentials.tbepCertificatePublicKey.value, PlainTextForSignature(timestamp, nonce, body), signature)
                     case Verified(b) => Returned(b, None)
                     case Faulted(m) => Returned(false, Some(VerifierFault(m)))
  {
    if client == null then Raised(ArgumentNull("client"))
    else if signAlgorithm != Some(Sha245WithRsa) then Returned(false, Some(UnsupportedSignAlgorithm))
    else
      var credentials := client.credentials;
      if credentials.tbepCertificateSerialNumber.Some? && credentials.tbepCertificatePublicKey.Some? then
        if serialNumber != credentials.tbepCertificateSerialNumber then Returned(false, Some(NoPublicKeyMatched))
        else
          match rsa(credentials.tbepCertificatePublicKey.value, PlainTextForSignature(timestamp, nonce, body), signature)
          case Verified(valid) => Returned(valid, None)
          case Faulted(message) => Returned(false, Some(VerifierFault(message)))
      else Returned(false, Some(NoPublicKeyOrSerialNumber))
  }

  /** `VerifySignature(client, timestamp, nonce, body, signature, serialNumber, out error)`:
      the supported algorithm is assumed, so that error never comes back. */
  function VerifySignatureWithDefaultAlgorithm(client: TenpayBusinessClient?, timestamp: Option<string>, nonce: Option<string>,
                                               body: string, signature: Option<string>, serialNumber: Option<string>,
                                               rsa: RsaVerifier): (v: Verification)
    ensures v.Raised? <==> client == null
    ensures v != Returned(false, Some(UnsupportedSignAlgorithm))
    ensures v.Returned? && v.valid <==> Accepted(client, timestamp, nonce, body, signature, serialNumber, Some(Sha245WithRsa), rsa)
    ensures v == VerifySignature(client, timestamp, nonce, body, signature, serialNumber, Some(Sha245WithRsa), rsa)
  {
    VerifySignature(client, timestamp, nonce, body, signature, serialNumber, Some(Sha245WithRsa), rsa)
  }

  /** The five attributes the authorization header must carry. */
  datatype AuthorizationAttributes = AuthorizationAttributes(
    timestamp: Option<string>, nonce: Option<string>, signature: Option<string>,
    serialNumber: Option<string>, signAlgorithm: Option<string>)

  /** The keys read from the authorization header, in the order they are read. */
  const AuthorizationKeys: seq<string> := ["timestamp", "nonce", "signature", "tbep_serial_number", "signature_algorithm"]

  /** The five indexer reads; the first missing key raises. */
  function ReadAuthorization(d: AttributeList.Dictionary): (r: Result<AuthorizationAttributes, Error>)
    ensures r.Success? <==> forall k :: k in AuthorizationKeys ==> k in d
    ensures r.Success? ==> r.value == AuthorizationAttributes(d["timestamp"], d["nonce"], d["signature"],
                                                              d["tbep_serial_number"], d["signature_algorithm"])
    ensures r.Failure? ==> exists i :: 0 <= i < |AuthorizationKeys| && AuthorizationKeys[i] !in d
                                       && (forall j :: 0 <= j < i ==> AuthorizationKeys[j] in d)
                                       && r.error == KeyNotFound(AuthorizationKeys[i])
  {
    match AttributeList.LookupAll(d, AuthorizationKeys)
    case Failure(e) => Failure(e)
    case Success(vs) => Success(AuthorizationAttributes(vs[0], vs[1], vs[2], vs[3], vs[4]))
  }

  /** The handler around the inner call: any exception it lets escape is turned into a
      `false` result with that exception as the error. */
  function Caught(v: Verification): (c: Verification)
    ensures c.Returned?
    ensures v.Returned? ==> c == v
    ensures v.Raised? ==> c == Returned(false, Some(v.exception))
  {
    match v
    case Returned(_, _) => v
    case Raised(e) => Returned(false, Some(e))
  }

  /** The five attributes of a `TBEP-Authorization` header: a null or empty header cannot
      be read, a repeated key raises, and so does the first missing attribute. */
  function AuthorizationOf(authorization: Option<string>): (r: Result<AuthorizationAttributes, Error>)
    ensures IsNullOrEmpty(authorization) ==> r == Failure(MissingAuthorization)
    ensures !IsNullOrEmpty(authorization) && AttributeList.Parse(authorization.value).Failure? ==>
              r == Failure(AttributeList.Parse(authorization.value).error)
    ensures !IsNullOrEmpty(authorization) && AttributeList.Parse(authorization.value).Success? ==>
              r == ReadAuthorization(AttributeList.Parse(authorization.value).value)
  {
    if IsNullOrEmpty(authorization) then Failure(MissingAuthorization)
    else
      match AttributeList.Parse(authorization.value)
      case Failure(e) => Failure(e)
      case Success(d) => ReadAuthorization(d)
  }

  /** `VerifySignature(client, strAuthorization, strBody, out error)`: reads the
      `TBEP-Authorization` attribute list and checks the signature it declares. Nothing
      escapes: a null client, a repeated key and a missing attribute all come back as
      `false` with the error. */
  function VerifyAuthorization(client: TenpayBusinessClient?, authorization: Option<string>, body: string,
                               rsa: RsaVerifier): (v: Verification)
    ensures v.Returned?
    ensures AuthorizationOf(authorization).Failure? ==> v == Returned(false, Some(AuthorizationOf(authorization).error))
    ensures v.valid <==>
              && AuthorizationOf(authorization).Success?
              && var a := AuthorizationOf(authorization).value;
                 Accepted(client, a.timestamp, a.nonce, body, a.signature, a.serialNumber, a.signAlgorithm, rsa)
    ensures v.valid ==> v.error.None?
    ensures AuthorizationOf(authorization).Success? && client == null ==> v == Returned(false, Some(ArgumentNull("client")))
    ensures AuthorizationOf(authorization).Success? ==>
              var a := AuthorizationOf(authorization).value;
              v == Caught(VerifySignature(client, a.timestamp, a.nonce, body, a.signature, a.serialNumber, a.signAlgorithm, rsa))
  {
    match AuthorizationOf(authorization)
    case Failure(e) => Returned(false, Some(e))
    case Success(a) =>
      Caught(VerifySignature(client, a.timestamp, a.nonce, body, a.signature, a.serialNumber, a.signAlgorithm, rsa))
  }

  // ---------------------------------------------------------------------------------
  // Properties
  // ---------------------------------------------------------------------------------

  /** When neither timestamp nor nonce contains a line break, the plaintext determines all
      three of its parts: two different signed triples never share a plaintext. */
  lemma {:induction false} PlainTextInjective(timestamp1: string, nonce1: string, body1: string,
                                              timestamp2: string, nonce2: string, body2: string)
    requires '\n' !in timestamp1 && '\n' !in nonce1 && '\n' !in timestamp2 && '\n' !in nonce2
    requires PlainTextForSignature(Some(timestamp1), Some(nonce1), body1)
          == PlainTextForSignature(Some(timestamp2), Some(nonce2), body2)
    ensures timestamp1 == timestamp2 && nonce1 == nonce2 && body1 == body2
  {
    var rest1, rest2 := nonce1 + "\n" + body1 + "\n", nonce2 + "\n" + body2 + "\n";
    PlainTextShape(timestamp1, nonce1, body1);
    PlainTextShape(timestamp2, nonce2, body2);
    SeparatedPrefix(timestamp1, rest1, timestamp2, rest2, '\n');
    NonceShape(nonce1, body1);
    NonceShape(nonce2, body2);
    SeparatedPrefix(nonce1, body1 + "\n", nonce2, body2 + "\n", '\n');
    LastDropped(body1, body2, '\n');
  }

  lemma PlainTextShape(timestamp: string, nonce: string, body: string)
    ensures PlainTextForSignature(Some(timestamp), Some(nonce), body) == timestamp + ['\n'] + (nonce + "\n" + body + "\n")
  {
  }

  lemma NonceShape(nonce: string, body: string)
    ensures nonce + "\n" + body + "\n" == nonce + ['\n'] + (body + "\n")
  {
  }

  /** Text up to the first separator, and the text after it, are determined. */
  lemma SeparatedPrefix(a1: string, b1: string, a2: string, b2: string, sep: char)
    requires sep !in a1 && sep !in a2 && a1 + [sep] + b1 == a2 + [sep] + b2
    ensures a1 == a2 && b1 == b2
  {
    var s := a1 + [sep] + b1;
    FirstIndexAfterFreePrefix(a1, sep, b1);
    FirstIndexAfterFreePrefix(a2, sep, b2);
    assert a1 == s[..|a1|];
    assert a2 == s[..|a2|];
    assert b1 == s[|a1| + 1..];
    assert b2 == s[|a2| + 1..];
  }

  lemma LastDropped(a1: string, a2: string, c: char)
    requires a1 + [c] == a2 + [c]
    ensures a1 == a2
  {
    assert a1 == (a1 + [c])[..|a1|];
    assert a2 == (a2 + [c])[..|a2|];
  }

  /** Nothing is escaped, so a line break inside the timestamp or nonce makes two
      different triples sign the same text. */
  lemma PlainTextAmbiguous()
    ensures PlainTextForSignature(Some("1\n2"), Some("3"), "") == PlainTextForSignature(Some("1"), Some("2\n3"), "")
  {
  }

  /** The verifier is reached only after every other check has passed: on any other path
      the outcome is the same whatever the verifier would say. */
  lemma VerifierConsultedLast(client: TenpayBusinessClient?, timestamp: Option<string>, nonce: Option<string>,
                              body: string, signature: Option<string>, serialNumber: Option<string>,
                              signAlgorithm: Option<string>, rsa1: RsaVerifier, rsa2: RsaVerifier)
    requires !(client != null && signAlgorithm == Some(Sha245WithRsa)
               && client.credentials.tbepCertificateSerialNumber.Some?
               && client.credentials.tbepCertificatePublicKey.Some?
               && serialNumber == client.credentials.tbepCertificateSerialNumber)
    ensures VerifySignature(client, timestamp, nonce, body, signature, serialNumber, signAlgorithm, rsa1)
         == VerifySignature(client, timestamp, nonce, body, signature, serialNumber, signAlgorithm, rsa2)
    ensures !VerifySignature(client, timestamp, nonce, body, signature, serialNumber, signAlgorithm, rsa1).Returned?
            || !VerifySignature(client, timestamp, nonce, body, signature, serialNumber, signAlgorithm, rsa1).valid
  {
  }

  /** The attribute list a well-behaved platform sends, in the order of the format. */
  function AuthorizationPairs(timestamp: string, nonce: string, signature: string, serialNumber: string,
                              signAlgorithm: string): (pairs: seq<(string, string)>)
  {
    [("timestamp", timestamp), ("nonce", nonce), ("signature", signature),
     ("tbep_serial_number", serialNumber), ("signature_algorithm", signAlgorithm)]
  }

  /** A well-formed `TBEP-Authorization` header whose values contain no `,`, `=` or edge
      quotes, except for `==` padding at the end, is read back with each value cut at its
      first `=`, and the outcome is that of checking those attributes. */
  lemma WellFormedAuthorization(client: TenpayBusinessClient?, header: string, timestamp: string, nonce: string,
                                signature: string, serialNumber: string, signAlgorithm: string, body: string,
                                rsa: RsaVerifier)
    requires AttributeList.WrittenValue(timestamp) && AttributeList.WrittenValue(nonce)
    requires AttributeList.WrittenValue(signature) && AttributeList.WrittenValue(serialNumber)
    requires AttributeList.WrittenValue(signAlgorithm)
    requires header == AttributeList.FormatQuoted(AuthorizationPairs(timestamp, nonce, signature, serialNumber, signAlgorithm))
    ensures VerifyAuthorization(client, Some(header), body, rsa)
         == Caught(VerifySignature(client, Some(AttributeList.ReadBack(timestamp)), Some(AttributeList.ReadBack(nonce)), body,
                                   Some(AttributeList.ReadBack(signature)), Some(AttributeList.ReadBack(serialNumber)),
                                   Some(AttributeList.ReadBack(signAlgorithm)), rsa))
  {
    var pairs := AuthorizationPairs(timestamp, nonce, signature, serialNumber, signAlgorithm);
    AuthorizationPairsWritten(timestamp, nonce, signature, serialNumber, signAlgorithm);
    AttributeList.FormatQuotedNotEmpty(pairs);
    FormattedAuthorization(header, pairs);
  }

  lemma FormattedAuthorization(header: string, pairs: seq<(string, string)>)
    requires |pairs| == 5 && AttributeList.WrittenPairs(pairs) && header == AttributeList.FormatQuoted(pairs)
    requires pairs[0].0 == "timestamp" && pairs[1].0 == "nonce" && pairs[2].0 == "signature"
    requires pairs[3].0 == "tbep_serial_number" && pairs[4].0 == "signature_algorithm"
    ensures AttributeList.Parse(header).Success?
    ensures ReadAuthorization(AttributeList.Parse(header).value)
         == Success(AuthorizationAttributes(Some(AttributeList.ReadBack(pairs[0].1)), Some(AttributeList.ReadBack(pairs[1].1)),
                                            Some(AttributeList.ReadBack(pairs[2].1)), Some(AttributeList.ReadBack(pairs[3].1)),
                                            Some(AttributeList.ReadBack(pairs[4].1))))
  {
    AttributeList.ParseFormattedAt(header, pairs, 0);
    AttributeList.ParseFormattedAt(header, pairs, 1);
    AttributeList.ParseFormattedAt(header, pairs, 2);
    AttributeList.ParseFormattedAt(header, pairs, 3);
    AttributeList.ParseFormattedAt(header, pairs, 4);
    ReadWellFormed(AttributeList.Parse(header).value, AttributeList.ReadBack(pairs[0].1), AttributeList.ReadBack(pairs[1].1),
                   AttributeList.ReadBack(pairs[2].1), AttributeList.ReadBack(pairs[3].1), AttributeList.ReadBack(pairs[4].1));
  }

  lemma AuthorizationPairsWritten(timestamp: string, nonce: string, signature: string, serialNumber: string,
                                  signAlgorithm: string)
    requires AttributeList.WrittenValue(timestamp) && AttributeList.WrittenValue(nonce)
    requires AttributeList.WrittenValue(signature) && AttributeList.WrittenValue(serialNumber)
    requires AttributeList.WrittenValue(signAlgorithm)
    ensures AttributeList.WrittenPairs(AuthorizationPairs(timestamp, nonce, signature, serialNumber, signAlgorithm))
  {
    AuthorizationKeysPlain();
    AttributeList.WrittenPairsFive(("timestamp", timestamp), ("nonce", nonce), ("signature", signature),
                                 ("tbep_serial_number", serialNumber), ("signature_algorithm", signAlgorithm));
  }

  lemma AuthorizationKeysPlain()
    ensures AttributeList.PlainKey("timestamp") && AttributeList.PlainKey("nonce") && AttributeList.PlainKey("signature")
    ensures AttributeList.PlainKey("tbep_serial_number") && AttributeList.PlainKey("signature_algorithm")
  {
  }

  lemma ReadWellFormed(d: AttributeList.Dictionary, timestamp: string, nonce: string, signature: string,
                       serialNumber: string, signAlgorithm: string)
    requires "timestamp" in d && d["timestamp"] == Some(timestamp)
    requires "nonce" in d && d["nonce"] == Some(nonce)
    requires "signature" in d && d["signature"] == Some(signature)
    requires "tbep_serial_number" in d && d["tbep_serial_number"] == Some(serialNumber)
    requires "signature_algorithm" in d && d["signature_algorithm"] == Some(signAlgorithm)
    ensures ReadAuthorization(d) == Success(AuthorizationAttributes(Some(timestamp), Some(nonce), Some(signature),
                                                                    Some(serialNumber), Some(signAlgorithm)))
  {
    assert forall k :: k in AuthorizationKeys ==> k in d;
  }

  /** A worked example. The platform signs timestamp `1610000000`, nonce `abc123` and body
      `{"foo":"bar"}` with the key of certificate `SN1`, and sends the signature as padded
      base64 `w==`, as every 2048-bit RSA signature is. The client holds certificate `SN1`.
      The header is accepted when the verifier accepts `w`, the signature without its
      padding, since that is all the parse keeps. The same header naming `SN2` fails with
      the unmatched-certificate error. */
  lemma ExampleScenario(client: TenpayBusinessClient, publicKey: string, w: string, rsa: RsaVerifier)
    requires client.credentials == Credentials(Some("SN1"), Some(publicKey))
    requires AttributeList.PlainValue(w)
    requires rsa(publicKey, PlainTextForSignature(Some("1610000000"), Some("abc123"), "{\"foo\":\"bar\"}"), Some(w))
             == Verified(true)
    ensures VerifyAuthorization(client, Some(AttributeList.FormatQuoted(
              AuthorizationPairs("1610000000", "abc123", w + "==", "SN1", Sha245WithRsa))), "{\"foo\":\"bar\"}", rsa)
            == Returned(true, None)
    ensures VerifyAuthorization(client, Some(AttributeList.FormatQuoted(
              AuthorizationPairs("1610000000", "abc123", w + "==", "SN2", Sha245WithRsa))), "{\"foo\":\"bar\"}", rsa)
            == Returned(false, Some(NoPublicKeyMatched))
  {
    var body := "{\"foo\":\"bar\"}";
    var ts, nonce, signature := "1610000000", "abc123", w + "==";
    ExampleValuesPlain();
    AttributeList.PaddedOf(w);
    var h1 := AttributeList.FormatQuoted(AuthorizationPairs(ts, nonce, signature, "SN1", Sha245WithRsa));
    var h2 := AttributeList.FormatQuoted(AuthorizationPairs(ts, nonce, signature, "SN2", Sha245WithRsa));
    WellFormedAuthorization(client, h1, ts, nonce, signature, "SN1", Sha245WithRsa, body, rsa);
    WellFormedAuthorization(client, h2, ts, nonce, signature, "SN2", Sha245WithRsa, body, rsa);
  }

  lemma ExampleValuesPlain()
    ensures AttributeList.PlainValue("1610000000") && AttributeList.PlainValue("abc123")
    ensures AttributeList.PlainValue(Sha245WithRsa)
    ensures AttributeList.PlainValue("SN1") && AttributeList.PlainValue("SN2")
  {
  }

  /** An authorization without a `signature` attribute fails on a missing key (the first
      of `timestamp`, `nonce`, `signature` absent) before the verifier is reached. */
  lemma MissingSignatureShortCircuits(client: TenpayBusinessClient?, header: string, body: string,
                                      rsa1: RsaVerifier, rsa2: RsaVerifier)
    requires header != "" && AttributeList.Parse(header).Success? && "signature" !in AttributeList.Parse(header).value
    ensures VerifyAuthorization(client, Some(header), body, rsa1) == VerifyAuthorization(client, Some(header), body, rsa2)
    ensures VerifyAuthorization(client, Some(header), body, rsa1).error
            in {Some(KeyNotFound("timestamp")), Some(KeyNotFound("nonce")), Some(KeyNotFound("signature"))}
  {
    var d := AttributeList.Parse(header).value;
    AttributeList.LookupAllFive(d, "timestamp", "nonce", "signature", "tbep_serial_number", "signature_algorithm");
  }
}
