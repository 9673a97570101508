/** `WechatTenpayBusinessClient`: request shaping (timeout, the outbound `TBEP-Encrypt`
    header), the choice of body in the two send methods, the content-type default, and the
    reading of the inbound `TBEP-Encrypt` header into the response. */
module BusinessClient {
  import opened Wrappers
  import opened Errors
  import opened Text
  import AttributeList

  /** Stands in for `Constants.EncryptionAlgorithms.RSA_OAEP_WITH_SM4_128_CBC`. */
  const RsaOaepWithSm4128Cbc: string := "RSA_OAEP_WITH_SM4_128_CBC"
  /** Stands in for `WechatTenpayBusinessEndpoints.DEFAULT`. */
  const DefaultEndpoint: string := "https://api.businesspay.qq.com"

  const EncryptHeader: string := "TBEP-Encrypt"
  const AcceptHeader: string := "Accept"
  const AcceptLanguageHeader: string := "Accept-Language"
  const JsonMediaType: string := "application/json"

  /** `Settings.Credentials`: the platform certificate used to check response signatures. */
  datatype Credentials = Credentials(tbepCertificateSerialNumber: Option<string>, tbepCertificatePublicKey: Option<string>)

  /** The options the client reads: endpoint, default timeout in milliseconds, and the
      credentials that `Settings.Credentials` derives from them. */
  datatype ClientOptions = ClientOptions(endpoints: Option<string>, timeout: int, credentials: Credentials)

  /** `System.Net.Http.HttpMethod`: a verb name. Two methods are equal when their names are
      equal ignoring case. */
  datatype HttpMethod = HttpMethod(name: string)

  const Get: HttpMethod := HttpMethod("GET")
  const Head: HttpMethod := HttpMethod("HEAD")
  const Options: HttpMethod := HttpMethod("OPTIONS")

  /** `HttpMethod.Equals`: the names compared ordinally, ignoring case. */
  predicate SameMethod(a: HttpMethod, b: HttpMethod)
  {
    EqualsIgnoreCase(a.name, b.name)
  }

  /** A header: name and value. */
  type Header = (string, string)

  // ---------------------------------------------------------------------------------
  // Header lists (Flurl's `Headers` collection)
  // ---------------------------------------------------------------------------------

  /** The values of the headers called `name`, in order. */
  function HeaderValues(hs: seq<Header>, name: string): (vs: seq<string>)
    ensures |vs| <= |hs|
  {
    if hs == [] then []
    else (if hs[0].0 == name then [hs[0].1] else []) + HeaderValues(hs[1..], name)
  }

  lemma {:induction false} HeaderValuesAppend(a: seq<Header>, b: seq<Header>, name: string)
    ensures HeaderValues(a + b, name) == HeaderValues(a, name) + HeaderValues(b, name)
  {
    if a != [] {
      assert (a + b)[0] == a[0];
      assert (a + b)[1..] == a[1..] + b;
      HeaderValuesAppend(a[1..], b, name);
    } else {
      assert a + b == b;
    }
  }

  /** `Headers.Remove(name)`: every header called `name` dropped, the others kept in order. */
  function WithoutHeader(hs: seq<Header>, name: string): (r: seq<Header>)
    ensures forall n :: HeaderValues(r, n) == if n == name then [] else HeaderValues(hs, n)
  {
    if hs == [] then []
    else
      var rest := WithoutHeader(hs[1..], name);
      if hs[0].0 == name then rest
      else
        assert forall n :: HeaderValues([hs[0]] + rest, n) == HeaderValues([hs[0]], n) + HeaderValues(rest, n) by {
          forall n { HeaderValuesAppend([hs[0]], rest, n); }
        }
        [hs[0]] + rest
  }

  /** Replaces the first header called `name` and drops the others. */
  function ReplaceFirst(hs: seq<Header>, name: string, value: string): (r: seq<Header>)
    requires HeaderValues(hs, name) != []
    ensures forall n :: HeaderValues(r, n) == if n == name then [value] else HeaderValues(hs, n)
  {
    if hs[0].0 == name then
      var rest := WithoutHeader(hs[1..], name);
      assert forall n :: HeaderValues([(name, value)] + rest, n) == HeaderValues([(name, value)], n) + HeaderValues(rest, n) by {
        forall n { HeaderValuesAppend([(name, value)], rest, n); }
      }
      [(name, value)] + rest
    else
      var rest := ReplaceFirst(hs[1..], name, value);
      assert forall n :: HeaderValues([hs[0]] + rest, n) == HeaderValues([hs[0]], n) + HeaderValues(rest, n) by {
        forall n { HeaderValuesAppend([hs[0]], rest, n); }
      }
      [hs[0]] + rest
  }

  /** `WithHeader(name, value)`: afterwards exactly one header is called `name`, it holds
      `value`, and every other header is as before. */
  function WithHeader(hs: seq<Header>, name: string, value: string): (r: seq<Header>)
    ensures forall n :: HeaderValues(r, n) == if n == name then [value] else HeaderValues(hs, n)
  {
    if HeaderValues(hs, name) == [] then
      assert forall n :: HeaderValues(hs + [(name, value)], n) == HeaderValues(hs, n) + HeaderValues([(name, value)], n) by {
        forall n { HeaderValuesAppend(hs, [(name, value)], n); }
      }
      hs + [(name, value)]
    else ReplaceFirst(hs, name, value)
  }

  // ---------------------------------------------------------------------------------
  // Outbound `TBEP-Encrypt`
  // ---------------------------------------------------------------------------------

  /** The encryption algorithm actually sent: the request's own, else RSA-OAEP with SM4. */
  function AlgorithmOrDefault(algorithm: Option<string>): (r: string)
    ensures algorithm.Some? ==> r == algorithm.value
    ensures algorithm.None? ==> r == RsaOaepWithSm4128Cbc
  {
    if algorithm.Some? then algorithm.value else RsaOaepWithSm4128Cbc
  }

  /** The value of the outbound `TBEP-Encrypt` header,
      `enc_key="K",iv="I",tbep_serial_number="S",algorithm="A"`; a null field is written
      as empty. */
  function EncryptHeaderValue(encryptedKey: Option<string>, iv: Option<string>, serialNumber: Option<string>, algorithm: Option<string>): (header: string)
  {
    AttributeList.Quoted("enc_key", Interpolated(encryptedKey)) + ","
      + AttributeList.Quoted("iv", Interpolated(iv)) + ","
      + AttributeList.Quoted("tbep_serial_number", Interpolated(serialNumber)) + ","
      + AttributeList.Quoted("algorithm", Interpolated(algorithm))
  }

  /** The four attributes of the outbound header, in the order they are written. */
  function EncryptHeaderPairs(encryptedKey: Option<string>, iv: Option<string>, serialNumber: Option<string>, algorithm: Option<string>): (pairs: seq<(string, string)>)
  {
    [("enc_key", Interpolated(encryptedKey)), ("iv", Interpolated(iv)),
     ("tbep_serial_number", Interpolated(serialNumber)), ("algorithm", Interpolated(algorithm))]
  }

  lemma EncryptHeaderIsFormatted(encryptedKey: Option<string>, iv: Option<string>, serialNumber: Option<string>, algorithm: Option<string>)
    ensures EncryptHeaderValue(encryptedKey, iv, serialNumber, algorithm)
         == AttributeList.FormatQuoted(EncryptHeaderPairs(encryptedKey, iv, serialNumber, algorithm))
  {
    AttributeList.FormatQuotedFour(EncryptHeaderPairs(encryptedKey, iv, serialNumber, algorithm));
  }

  /** The outbound header, read with the attribute-list rule, gives back exactly the four
      attributes `enc_key`, `iv`, `tbep_serial_number` and `algorithm`, provided each value
      is plain (no `,` or `=`, no quote at either end) or plain text padded with `==`, as
      standard base64 of a 256-byte key or a 16-byte IV is. Each value comes back cut at
      its first `=`: whole when plain, without its padding when padded. */
  lemma EncryptHeaderAttributes(encryptedKey: Option<string>, iv: Option<string>, serialNumber: Option<string>, algorithm: Option<string>)
    requires AttributeList.WrittenValue(Interpolated(encryptedKey)) && AttributeList.WrittenValue(Interpolated(iv))
    requires AttributeList.WrittenValue(Interpolated(serialNumber)) && AttributeList.WrittenValue(Interpolated(algorithm))
    ensures var d := AttributeList.Parse(EncryptHeaderValue(encryptedKey, iv, serialNumber, algorithm));
      && d.Success?
      && d.value.Keys == {"enc_key", "iv", "tbep_serial_number", "algorithm"}
      && d.value["enc_key"] == Some(AttributeList.ReadBack(Interpolated(encryptedKey)))
      && d.value["iv"] == Some(AttributeList.ReadBack(Interpolated(iv)))
      && d.value["tbep_serial_number"] == Some(AttributeList.ReadBack(Interpolated(serialNumber)))
      && d.value["algorithm"] == Some(AttributeList.ReadBack(Interpolated(algorithm)))
  {
    var pairs := EncryptHeaderPairs(encryptedKey, iv, serialNumber, algorithm);
    var h := EncryptHeaderValue(encryptedKey, iv, serialNumber, algorithm);
    EncryptHeaderIsFormatted(encryptedKey, iv, serialNumber, algorithm);
    EncryptHeaderPairsWritten(encryptedKey, iv, serialNumber, algorithm);
    AttributeList.ParseFormattedAt(h, pairs, 0);
    AttributeList.ParseFormattedAt(h, pairs, 1);
    AttributeList.ParseFormattedAt(h, pairs, 2);
    AttributeList.ParseFormattedAt(h, pairs, 3);
    AttributeList.ParseFormatted(h, pairs);
    ExactlyTheseKeys(AttributeList.Parse(h).value, pairs);
  }

  lemma EncryptHeaderPairsWritten(encryptedKey: Option<string>, iv: Option<string>, serialNumber: Option<string>, algorithm: Option<string>)
    requires AttributeList.WrittenValue(Interpolated(encryptedKey)) && AttributeList.WrittenValue(Interpolated(iv))
    requires AttributeList.WrittenValue(Interpolated(serialNumber)) && AttributeList.WrittenValue(Interpolated(algorithm))
    ensures AttributeList.WrittenPairs(EncryptHeaderPairs(encryptedKey, iv, serialNumber, algorithm))
  {
    EncryptKeysPlain();
    AttributeList.WrittenPairsFour(("enc_key", Interpolated(encryptedKey)), ("iv", Interpolated(iv)),
                                 ("tbep_serial_number", Interpolated(serialNumber)), ("algorithm", Interpolated(algorithm)));
  }

  lemma EncryptKeysPlain()
    ensures AttributeList.PlainKey("enc_key") && AttributeList.PlainKey("iv")
    ensures AttributeList.PlainKey("tbep_serial_number") && AttributeList.PlainKey("algorithm")
  {
  }

  lemma ExactlyTheseKeys(d: AttributeList.Dictionary, pairs: seq<(string, string)>)
    requires |pairs| == 4 && pairs[0].0 == "enc_key" && pairs[1].0 == "iv"
    requires pairs[2].0 == "tbep_serial_number" && pairs[3].0 == "algorithm"
    requires forall k :: k in d <==> exists i :: 0 <= i < |pairs| && pairs[i].0 == k
    ensures d.Keys == {"enc_key", "iv", "tbep_serial_number", "algorithm"}
  {
    assert pairs[0].0 in d && pairs[1].0 in d && pairs[2].0 in d && pairs[3].0 in d;
  }

  // ---------------------------------------------------------------------------------
  // Inbound `TBEP-Encrypt`
  // ---------------------------------------------------------------------------------

  /** The five fields of `WechatTenpayBusinessResponseTBEPEncryption`. */
  datatype EncryptionFields = EncryptionFields(
    platformId: Option<string>, encryptedKey: Option<string>, iv: Option<string>,
    certificateSerialNumber: Option<string>, algorithm: Option<string>)

  /** The keys read from the inbound header, in the order they are read. */
  const ResponseEncryptionKeys: seq<string> := ["platform_id", "enc_key", "iv", "platform_serial_number", "algorithm"]

  /** The five fields read from a parsed inbound header; the first missing key raises. */
  function EncryptionFieldsOf(d: AttributeList.Dictionary): (r: Result<EncryptionFields, Error>)
    ensures r.Success? <==> forall k :: k in ResponseEncryptionKeys ==> k in d
    ensures r.Success? ==> r.value == EncryptionFields(d["platform_id"], d["enc_key"], d["iv"],
                                                       d["platform_serial_number"], d["algorithm"])
    ensures r.Failure? ==> exists i :: 0 <= i < |ResponseEncryptionKeys| && ResponseEncryptionKeys[i] !in d
                                       && (forall j :: 0 <= j < i ==> ResponseEncryptionKeys[j] in d)
                                       && r.error == KeyNotFound(ResponseEncryptionKeys[i])
  {
    match AttributeList.LookupAll(d, ResponseEncryptionKeys)
    case Failure(e) => Failure(e)
    case Success(vs) => Success(EncryptionFields(vs[0], vs[1], vs[2], vs[3], vs[4]))
  }

  /** The inbound `TBEP-Encrypt` header read with the attribute-list rule into the five
      fields. */
  function ParseEncryptionHeader(header: string): (r: Result<EncryptionFields, Error>)
  {
    match AttributeList.Parse(header)
    case Failure(e) => Failure(e)
    case Success(d) => EncryptionFieldsOf(d)
  }

  /** A repeated key raises; otherwise each field is the value of its key (null for a key
      without `=`), and the first of `platform_id`, `enc_key`, `iv`,
      `platform_serial_number`, `algorithm` that is missing raises: a missing key is never
      read as null. */
  lemma ParseEncryptionHeaderMeaning(header: string)
    ensures var p := AttributeList.Parse(header); var r := ParseEncryptionHeader(header);
      && (r.Success? <==> p.Success? && forall k :: k in ResponseEncryptionKeys ==> k in p.value)
      && (p.Failure? ==> r == Failure(p.error))
      && (r.Success? ==> r.value == EncryptionFields(p.value["platform_id"], p.value["enc_key"], p.value["iv"],
                                                     p.value["platform_serial_number"], p.value["algorithm"]))
      && (r.Failure? && p.Success? ==>
            exists i :: 0 <= i < |ResponseEncryptionKeys| && ResponseEncryptionKeys[i] !in p.value
                        && (forall j :: 0 <= j < i ==> ResponseEncryptionKeys[j] in p.value)
                        && r.error == KeyNotFound(ResponseEncryptionKeys[i]))
  {
    var p := AttributeList.Parse(header);
    if p.Success? {
      assert ParseEncryptionHeader(header) == EncryptionFieldsOf(p.value);
    }
  }

  /** The outbound header is not a valid inbound one: it has no `platform_id`. */
  lemma EncryptHeaderLacksPlatformId(encryptedKey: Option<string>, iv: Option<string>, serialNumber: Option<string>, algorithm: Option<string>)
    requires AttributeList.WrittenValue(Interpolated(encryptedKey)) && AttributeList.WrittenValue(Interpolated(iv))
    requires AttributeList.WrittenValue(Interpolated(serialNumber)) && AttributeList.WrittenValue(Interpolated(algorithm))
    ensures ParseEncryptionHeader(EncryptHeaderValue(encryptedKey, iv, serialNumber, algorithm)) == Failure(KeyNotFound("platform_id"))
  {
    var h := EncryptHeaderValue(encryptedKey, iv, serialNumber, algorithm);
    EncryptHeaderAttributes(encryptedKey, iv, serialNumber, algorithm);
    MissingPlatformId(AttributeList.Parse(h).value);
  }

  lemma MissingPlatformId(d: AttributeList.Dictionary)
    requires d.Keys == {"enc_key", "iv", "tbep_serial_number", "algorithm"}
    ensures AttributeList.LookupAll(d, ResponseEncryptionKeys) == Failure(KeyNotFound("platform_id"))
  {
    assert "platform_id" !in d;
  }

  /** Reading the fields key by key, in the order the response wrapper assigns them. */
  lemma EncryptionFieldsStepwise(d: AttributeList.Dictionary)
    ensures EncryptionFieldsOf(d)
         == if "platform_id" !in d then Failure(KeyNotFound("platform_id"))
            else if "enc_key" !in d then Failure(KeyNotFound("enc_key"))
            else if "iv" !in d then Failure(KeyNotFound("iv"))
            else if "platform_serial_number" !in d then Failure(KeyNotFound("platform_serial_number"))
            else if "algorithm" !in d then Failure(KeyNotFound("algorithm"))
            else Success(EncryptionFields(d["platform_id"], d["enc_key"], d["iv"], d["platform_serial_number"], d["algorithm"]))
  {
    AttributeList.LookupAllFive(d, "platform_id", "enc_key", "iv", "platform_serial_number", "algorithm");
  }

  /** `Headers.GetAll(name).FirstOrDefault()`. */
  function FirstOrNull(values: seq<string>): (r: Option<string>)
    ensures r.None? <==> values == []
    ensures r.Some? ==> r.value == values[0]
  {
    if values == [] then None else Some(values[0])
  }

  // ---------------------------------------------------------------------------------
  // Sending
  // ---------------------------------------------------------------------------------

  /** A request is sent without a body when there is no data or the verb is GET, HEAD or
      OPTIONS, in any letter case. */
  predicate IsSimpleRequest(hasData: bool, verb: HttpMethod)
  {
    !hasData || SameMethod(verb, Get) || SameMethod(verb, Head) || SameMethod(verb, Options)
  }

  /** A verb written in lower case is still GET, so data sent with it goes without a body;
      a verb that is none of the three is sent with one. */
  lemma SimpleRequestIgnoresCase(data: bool)
    ensures IsSimpleRequest(data, HttpMethod("get"))
    ensures data ==> !IsSimpleRequest(data, HttpMethod("POST"))
  {
    assert AsciiUpper('g') == 'G' && AsciiUpper('e') == 'E' && AsciiUpper('t') == 'T';
    assert AsciiUpper("POST"[0]) != AsciiUpper("HEAD"[0]);
  }

  /** What the send methods hand to the transport. */
  datatype Transmission<T> = NoBody | Json(data: T)

  /** `MediaTypeHeaderValue`. */
  datatype MediaTypeHeaderValue = MediaTypeHeaderValue(mediaType: Option<string>)

  /** No content type, or one whose media type is null or empty. */
  predicate LacksMediaType(contentType: Option<MediaTypeHeaderValue>)
  {
    contentType.None? || IsNullOrEmpty(contentType.value.mediaType)
  }

  /** `IFlurlRequest`: the verb, the URL, the effective timeout in milliseconds and the
      request's own headers. */
  class FlurlRequest {
    var verb: HttpMethod
    var baseUrl: string
    var urlSegments: seq<string>
    var timeout: int
    var headers: seq<Header>

    constructor (verb: HttpMethod, baseUrl: string, urlSegments: seq<string>, timeout: int)
      ensures this.verb == verb && this.baseUrl == baseUrl && this.urlSegments == urlSegments
      ensures this.timeout == timeout && headers == []
    {
      this.verb := verb;
      this.baseUrl := baseUrl;
      this.urlSegments := urlSegments;
      this.timeout := timeout;
      headers := [];
    }
  }

  /** `WechatTenpayBusinessRequestTBEPEncryption`. */
  class RequestEncryption {
    var encryptedKey: Option<string>
    var iv: Option<string>
    var certificateSerialNumber: Option<string>
    var algorithm: Option<string>
  }

  /** `WechatTenpayBusinessRequest`: its own timeout and optional encryption info. */
  class TenpayBusinessRequest {
    var timeout: Option<int>
    var tbepEncryption: RequestEncryption?
  }

  /** `HttpContent`, as far as its content type. */
  class HttpContent {
    var contentType: Option<MediaTypeHeaderValue>
  }

  /** `WechatTenpayBusinessResponseTBEPEncryption`. */
  class ResponseEncryption {
    var platformId: Option<string>
    var encryptedKey: Option<string>
    var iv: Option<string>
    var certificateSerialNumber: Option<string>
    var algorithm: Option<string>

    constructor ()
      ensures Fields() == EncryptionFields(None, None, None, None, None)
    {
      platformId, encryptedKey, iv, certificateSerialNumber, algorithm := None, None, None, None, None;
    }

    function Fields(): (fields: EncryptionFields)
      reads this
    {
      EncryptionFields(platformId, encryptedKey, iv, certificateSerialNumber, algorithm)
    }
  }

  /** `WechatTenpayBusinessResponse`, as far as its encryption info. */
  class TenpayBusinessResponse {
    var tbepEncryption: ResponseEncryption?
  }

  /** `WechatTenpayBusinessClient`. */
  class TenpayBusinessClient {
    const credentials: Credentials
    var baseUrl: string
    var timeout: int
    var headers: seq<Header>

    /** The constructor after its null check; `inheritedHeaders` are the headers the base
        client starts with. */
    constructor (options: ClientOptions, inheritedHeaders: seq<Header>)
      ensures credentials == options.credentials
      ensures baseUrl == if options.endpoints.Some? then options.endpoints.value else DefaultEndpoint
      ensures timeout == options.timeout
      ensures HeaderValues(headers, AcceptHeader) == [JsonMediaType]
      ensures HeaderValues(headers, AcceptLanguageHeader) == []
      ensures forall n :: n != AcceptHeader && n != AcceptLanguageHeader ==> HeaderValues(headers, n) == HeaderValues(inheritedHeaders, n)
    {
      credentials := options.credentials;
      baseUrl := if options.endpoints.Some? then options.endpoints.value else DefaultEndpoint;
      var hs := WithoutHeader(inheritedHeaders, AcceptHeader);
      hs := WithoutHeader(hs, AcceptLanguageHeader);
      headers := WithHeader(hs, AcceptHeader, JsonMediaType);
      timeout := options.timeout;
    }

    /** `new WechatTenpayBusinessClient(options)`, which throws on null options. */
    static method Create(options: Option<ClientOptions>, inheritedHeaders: seq<Header>) returns (r: Result<TenpayBusinessClient, Error>)
      ensures options.None? <==> r.Failure?
      ensures r.Failure? ==> r.error == ArgumentNull("options")
      ensures r.Success? ==> fresh(r.value) && r.value.credentials == options.value.credentials
                             && r.value.baseUrl == (if options.value.endpoints.Some? then options.value.endpoints.value else DefaultEndpoint)
                             && r.value.timeout == options.value.timeout
                             && HeaderValues(r.value.headers, AcceptHeader) == [JsonMediaType]
                             && HeaderValues(r.value.headers, AcceptLanguageHeader) == []
      ensures r.Success? ==> forall n :: n != AcceptHeader && n != AcceptLanguageHeader ==>
                               HeaderValues(r.value.headers, n) == HeaderValues(inheritedHeaders, n)
    {
      if options.None? {
        return Failure(ArgumentNull("options"));
      }
      var client := new TenpayBusinessClient(options.value, inheritedHeaders);
      return Success(client);
    }

    /** `CreateRequest`: a fresh request for `verb`; the request's own timeout overrides the
        client's; with encryption info, a null algorithm is first set to the default and
        then exactly one `TBEP-Encrypt` header carries the four fields. */
    method CreateRequest(request: TenpayBusinessRequest, verb: HttpMethod, urlSegments: seq<string>) returns (flurlRequest: FlurlRequest)
      modifies request.tbepEncryption
      ensures fresh(flurlRequest)
      ensures flurlRequest.verb == verb && flurlRequest.baseUrl == baseUrl && flurlRequest.urlSegments == urlSegments
      ensures flurlRequest.timeout == if request.timeout.Some? then request.timeout.value else timeout
      ensures request.tbepEncryption == null ==> flurlRequest.headers == []
      ensures request.tbepEncryption != null ==>
        var e := request.tbepEncryption;
        && e.algorithm == Some(AlgorithmOrDefault(old(e.algorithm)))
        && e.encryptedKey == old(e.encryptedKey) && e.iv == old(e.iv)
        && e.certificateSerialNumber == old(e.certificateSerialNumber)
        && HeaderValues(flurlRequest.headers, EncryptHeader) == [EncryptHeaderValue(e.encryptedKey, e.iv, e.certificateSerialNumber, e.algorithm)]
        && forall n :: n != EncryptHeader ==> HeaderValues(flurlRequest.headers, n) == []
    {
      flurlRequest := new FlurlRequest(verb, baseUrl, urlSegments, timeout);

      if request.timeout.Some? {
        flurlRequest.timeout := request.timeout.value;
      }

      if request.tbepEncryption != null {
        var e := request.tbepEncryption;
        if e.algorithm.None? {
          e.algorithm := Some(RsaOaepWithSm4128Cbc);
        }
        flurlRequest.headers := WithoutHeader(flurlRequest.headers, EncryptHeader);
        flurlRequest.headers := WithHeader(flurlRequest.headers, EncryptHeader,
                                           EncryptHeaderValue(e.encryptedKey, e.iv, e.certificateSerialNumber, e.algorithm));
      }
    }

    /** `SendRequestAsync` up to the transport: rejects a null request, gives content without
        a media type the JSON media type, and passes the content on. */
    method SendRequest(flurlRequest: FlurlRequest?, httpContent: HttpContent?) returns (r: Result<HttpContent?, Error>)
      modifies httpContent
      ensures flurlRequest == null ==> r == Failure(ArgumentNull("flurlRequest"))
      ensures flurlRequest == null && httpContent != null ==> unchanged(httpContent)
      ensures flurlRequest != null ==> r == Success(httpContent)
      ensures flurlRequest != null && httpContent != null ==>
        httpContent.contentType == if LacksMediaType(old(httpContent.contentType))
                                   then Some(MediaTypeHeaderValue(Some(JsonMediaType)))
                                   else old(httpContent.contentType)
    {
      if flurlRequest == null {
        return Failure(ArgumentNull("flurlRequest"));
      }
      if httpContent != null {
        if LacksMediaType(httpContent.contentType) {
          httpContent.contentType := Some(MediaTypeHeaderValue(Some(JsonMediaType)));
        }
      }
      return Success(httpContent);
    }

    /** `SendRequestWithJsonAsync` up to the transport: rejects a null request; sends the
        data as a JSON body exactly when there is data and the verb is not GET, HEAD or
        OPTIONS, and no body otherwise. */
    method SendRequestWithJson<T>(flurlRequest: FlurlRequest?, data: Option<T>) returns (r: Result<Transmission<T>, Error>)
      ensures r.Failure? <==> flurlRequest == null
      ensures r.Failure? ==> r.error == ArgumentNull("flurlRequest")
      ensures r.Success? ==> (r.value.Json? <==> !IsSimpleRequest(data.Some?, flurlRequest.verb))
      ensures r.Success? && r.value.Json? ==> r.value.data == data.value
    {
      if flurlRequest == null {
        return Failure(ArgumentNull("flurlRequest"));
      }
      var isSimpleRequest := IsSimpleRequest(data.Some?, flurlRequest.verb);
      if isSimpleRequest {
        return Success(NoBody);
      }
      return Success(Json(data.value));
    }

    /** `WrapResponseWithJsonAsync` after deserialisation: a missing or empty `TBEP-Encrypt`
        header leaves the response alone; otherwise its encryption info is replaced by a new
        object whose fields are read one by one, and a repeated or missing key raises. */
    method WrapResponse(result: TenpayBusinessResponse, encryptHeaders: seq<string>) returns (r: Result<TenpayBusinessResponse, Error>)
      modifies result
      ensures var h := FirstOrNull(encryptHeaders);
        && (IsNullOrEmpty(h) ==> r == Success(result) && result.tbepEncryption == old(result.tbepEncryption))
        && (!IsNullOrEmpty(h) && AttributeList.Parse(h.value).Failure? ==>
              r == Failure(AttributeList.Parse(h.value).error) && result.tbepEncryption == old(result.tbepEncryption))
        && (!IsNullOrEmpty(h) && AttributeList.Parse(h.value).Success? ==> fresh(result.tbepEncryption))
        && (!IsNullOrEmpty(h) && ParseEncryptionHeader(h.value).Success? ==>
              r == Success(result) && result.tbepEncryption != null
              && result.tbepEncryption.Fields() == ParseEncryptionHeader(h.value).value)
        && (!IsNullOrEmpty(h) && ParseEncryptionHeader(h.value).Failure? ==>
              r == Failure(ParseEncryptionHeader(h.value).error))
    {
      var h := FirstOrNull(encryptHeaders);
      if IsNullOrEmpty(h) {
        return Success(result);
      }
      var parsed := AttributeList.Parse(h.value);
      if parsed.Failure? {
        return Failure(parsed.error);
      }
      var e := new ResponseEncryption();
      result.tbepEncryption := e;
      var failure := ReadEncryptionFields(e, parsed.value);
      if failure.Some? {
        return Failure(failure.value);
      }
      return Success(result);
    }

    /** The five indexer reads and assignments into the new encryption info, in source
        order; the first missing key stops them and is reported. */
    method ReadEncryptionFields(e: ResponseEncryption, dict: AttributeList.Dictionary) returns (failure: Option<Error>)
      modifies e
      ensures failure.None? <==> EncryptionFieldsOf(dict).Success?
      ensures failure.Some? ==> failure.value == EncryptionFieldsOf(dict).error
      ensures failure.None? ==> e.Fields() == EncryptionFieldsOf(dict).value
    {
      EncryptionFieldsStepwise(dict);
      var v := AttributeList.Lookup(dict, "platform_id");
      if v.Failure? { return Some(v.error); }
      e.platformId := v.value;
      v := AttributeList.Lookup(dict, "enc_key");
      if v.Failure? { return Some(v.error); }
      e.encryptedKey := v.value;
      v := AttributeList.Lookup(dict, "iv");
      if v.Failure? { return Some(v.error); }
      e.iv := v.value;
      v := AttributeList.Lookup(dict, "platform_serial_number");
      if v.Failure? { return Some(v.error); }
      e.certificateSerialNumber := v.value;
      v := AttributeList.Lookup(dict, "algorithm");
      if v.Failure? { return Some(v.error); }
      e.algorithm := v.value;
      return None;
    }
  }
}
