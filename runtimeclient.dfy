/**
 * The Runtime API client (lib/RuntimeClient/RuntimeClient.js): a client
 * knows the API's host, port and its own user agent, and builds the HTTP
 * requests the runtime sends. Each `post*` call is a function giving the
 * request record it would send, or the failure thrown before sending;
 * `nextInvocation` accumulates the response body from a sequence of events.
 */
module RuntimeClient {
  import opened Wrappers
  import opened JsValue
  import Strings
  import Json
  import Utf8
  import Errors

  const ErrorTypeHeader: string := "Lambda-Runtime-Function-Error-Type"
  const XRayErrorCauseHeader: string := "Lambda-Runtime-Function-XRay-Error-Cause"

  // ---------------------------------------------------------------------
  // The user agent

  const UserAgentPrefix: string := "aws-lambda-nodejs/"

  /** `userAgent()`, with Node's version and the package's version as parameters. */
  function UserAgent(nodeVersion: string, packageVersion: string): (ua: string)
    ensures |ua| == |UserAgentPrefix| + |nodeVersion| + 1 + |packageVersion|
    ensures ua[..|UserAgentPrefix|] == UserAgentPrefix
  {
    UserAgentPrefix + nodeVersion + "-" + packageVersion
  }

  /**
   * After the prefix, the user agent holds Node's version, a '-' and the
   * package's version; when Node's version has no '-', the first '-' is the
   * one between them, so both versions can be read back.
   */
  lemma UserAgentVersions(nodeVersion: string, packageVersion: string)
    ensures var rest := UserAgent(nodeVersion, packageVersion)[|UserAgentPrefix|..];
      && rest[..|nodeVersion|] == nodeVersion
      && rest[|nodeVersion|] == '-'
      && rest[|nodeVersion| + 1..] == packageVersion
    ensures '-' !in nodeVersion ==>
      Strings.IndexOf(UserAgent(nodeVersion, packageVersion)[|UserAgentPrefix|..], "-") == |nodeVersion|
  {
    var rest := UserAgent(nodeVersion, packageVersion)[|UserAgentPrefix|..];
    assert rest == nodeVersion + "-" + packageVersion;
    assert Strings.OccursAt(rest, "-", |nodeVersion|);
    if '-' !in nodeVersion {
      forall j | 0 <= j < |nodeVersion| ensures !Strings.OccursAt(rest, "-", j) {
        assert rest[j] == nodeVersion[j];
        assert rest[j..j + 1] == [rest[j]];
      }
    }
  }

  // ---------------------------------------------------------------------
  // `hostnamePort.split(":")` and `parseInt(port, 10)`

  /** The characters `parseInt` skips at the start: WhiteSpace and LineTerminator in ECMA-262. */
  predicate IsJsWhitespace(c: char)
  {
    var n := c as int;
    (0x09 <= n <= 0x0D) || n == 0x20 || n == 0xA0 || n == 0x1680 || (0x2000 <= n <= 0x200A)
    || n == 0x2028 || n == 0x2029 || n == 0x202F || n == 0x205F || n == 0x3000 || n == 0xFEFF
  }

  function TrimStart(s: string): (r: string)
    ensures |r| <= |s| && r == s[|s| - |r|..]
    ensures forall i :: 0 <= i < |s| - |r| ==> IsJsWhitespace(s[i])
    ensures r == [] || !IsJsWhitespace(r[0])
  {
    if s != [] && IsJsWhitespace(s[0]) then TrimStart(s[1..]) else s
  }

  /** The longest prefix of decimal digits. */
  function LeadingDigits(s: string): (r: string)
    ensures |r| <= |s| && r == s[..|r|] && Strings.AllDigits(r)
    ensures |r| < |s| ==> !Strings.IsDigit(s[|r|])
  {
    if s != [] && Strings.IsDigit(s[0]) then
      var r := LeadingDigits(s[1..]);
      assert [s[0]] + r == s[..|r| + 1];
      [s[0]] + r
    else ""
  }

  /**
   * `parseInt(s, 10)`; None is NaN. Leading white space and one sign are
   * skipped, then the longest run of digits is read and the rest ignored.
   */
  function ParseInt10(s: string): (r: Option<int>)
    ensures var t := TrimStart(s);
      var u := if t != [] && (t[0] == '-' || t[0] == '+') then t[1..] else t;
      r.None? <==> u == [] || !Strings.IsDigit(u[0])
  {
    var t := TrimStart(s);
    var negative := t != [] && t[0] == '-';
    var u := if t != [] && (t[0] == '-' || t[0] == '+') then t[1..] else t;
    var d := LeadingDigits(u);
    if d == [] then None
    else
      var n: int := Strings.DigitsValue(d);
      Some(if negative then -n else n)
  }

  /** The digits at the front of a string, up to the first non-digit, are its leading digits. */
  lemma {:induction false} LeadingDigitsOf(digits: string, rest: string)
    requires Strings.AllDigits(digits)
    requires rest == [] || !Strings.IsDigit(rest[0])
    ensures LeadingDigits(digits + rest) == digits
  {
    var s := digits + rest;
    if digits == [] {
      assert s == rest;
    } else {
      assert s[0] == digits[0] && s[1..] == digits[1..] + rest;
      assert Strings.AllDigits(digits[1..]) by {
        forall i | 0 <= i < |digits[1..]| ensures Strings.IsDigit(digits[1..][i]) {
          assert digits[1..][i] == digits[i + 1];
        }
      }
      LeadingDigitsOf(digits[1..], rest);
      assert digits == [digits[0]] + digits[1..];
    }
  }

  /** Decimal digits followed by anything that is not a digit parse to their value. */
  lemma ParseDigits(digits: string, rest: string)
    requires digits != [] && Strings.AllDigits(digits)
    requires rest == [] || !Strings.IsDigit(rest[0])
    ensures ParseInt10(digits + rest) == Some(Strings.DigitsValue(digits) as int)
  {
    var s := digits + rest;
    assert s[0] == digits[0] && Strings.IsDigit(s[0]);
    assert !IsJsWhitespace(s[0]) && s[0] != '-' && s[0] != '+';
    assert TrimStart(s) == s;
    LeadingDigitsOf(digits, rest);
  }

  /** `parseInt(String(p) + rest, 10) == p` when `rest` does not start with a digit. */
  lemma ParseDecimal(p: nat, rest: string)
    requires rest == [] || !Strings.IsDigit(rest[0])
    ensures ParseInt10(Strings.NatToString(p) + rest) == Some(p)
  {
    ParseDigits(Strings.NatToString(p), rest);
    Strings.NatToStringValue(p);
  }

  /**
   * `const [hostname, port] = hostnamePort.split(":")`, then
   * `parseInt(port, 10)`: the hostname is the text before the first ':' and
   * the port is parsed from the second piece, the text after that ':' up to
   * the next one; with no ':' the port is `parseInt(undefined)`, NaN.
   */
  function HostnameAndPort(hostnamePort: string): (r: (string, Option<int>))
    ensures ':' !in r.0 && |r.0| <= |hostnamePort| && r.0 == hostnamePort[..|r.0|]
    ensures |r.0| < |hostnamePort| ==> hostnamePort[|r.0|] == ':'
    ensures ':' !in hostnamePort ==> r == (hostnamePort, None)
    ensures ':' in hostnamePort ==>
      |r.0| < |hostnamePort| && r.1 == ParseInt10(Strings.Split(hostnamePort[|r.0| + 1..], ':')[0])
  {
    var parts := Strings.Split(hostnamePort, ':');
    Strings.SplitHead(hostnamePort, ':');
    SplitWithoutColon(hostnamePort);
    if ':' in hostnamePort then
      var rest := hostnamePort[|parts[0]| + 1..];
      assert hostnamePort == parts[0] + [':'] + rest;
      Strings.SplitAfterPiece(parts[0], ':', rest);
      (parts[0], ParseInt10(parts[1]))
    else (parts[0], None)
  }

  lemma SplitWithoutColon(s: string)
    ensures ':' !in s ==> Strings.Split(s, ':') == [s]
  {
    if ':' !in s {
      Strings.SplitWithoutSeparator(s, ':');
    }
  }

  /** The address the runtime is given, `host:port`, is taken apart into its host and its port. */
  lemma HostnameAndPortRoundTrip(host: string, port: nat)
    requires ':' !in host
    ensures HostnameAndPort(host + ":" + Strings.NatToString(port)) == (host, Some(port))
  {
    var digits := Strings.NatToString(port);
    assert ':' !in digits by {
      assert forall i :: 0 <= i < |digits| ==> digits[i] != ':' by {
        assert forall i :: 0 <= i < |digits| ==> Strings.IsDigit(digits[i]);
      }
    }
    Strings.SplitAfterPiece(host, ':', digits);
    Strings.SplitWithoutSeparator(digits, ':');
    assert host + ":" + digits == host + [':'] + digits;
    ParseDecimal(port, "");
    assert digits + "" == digits;
  }

  // ---------------------------------------------------------------------
  // Paths

  const RuntimePrefix: string := "/2018-06-01/runtime"
  const InvocationPrefix: string := RuntimePrefix + "/invocation/"
  const InitErrorPath: string := RuntimePrefix + "/init/error"
  const NextInvocationPath: string := RuntimePrefix + "/invocation/next"
  const ResponseSuffix: string := "/response"
  const ErrorSuffix: string := "/error"

  function InvocationResponsePath(id: string): string
  {
    InvocationPrefix + id + ResponseSuffix
  }

  function InvocationErrorPath(id: string): string
  {
    InvocationPrefix + id + ErrorSuffix
  }

  /** The text between a prefix and a suffix of a path, if it has both. */
  function Between(prefix: string, suffix: string, path: string): (r: Option<string>)
    ensures r.Some? ==> path == prefix + r.value + suffix
  {
    if |prefix| + |suffix| <= |path| && path[..|prefix|] == prefix && path[|path| - |suffix|..] == suffix then
      var mid := path[|prefix|..|path| - |suffix|];
      assert path == path[..|prefix|] + mid + path[|path| - |suffix|..];
      Some(mid)
    else None
  }

  lemma TemplateRoundTrip(prefix: string, id: string, suffix: string)
    ensures Between(prefix, suffix, prefix + id + suffix) == Some(id)
  {
    var path := prefix + id + suffix;
    assert path[..|prefix|] == prefix;
    assert path[|path| - |suffix|..] == suffix;
    assert path[|prefix|..|path| - |suffix|] == id;
  }

  /**
   * The invocation paths carry the invocation ID between fixed text, so the
   * ID can be read back, and a response path is never an error path.
   */
  lemma InvocationPathsIdentify(id: string, other: string)
    ensures Between(InvocationPrefix, ResponseSuffix, InvocationResponsePath(id)) == Some(id)
    ensures Between(InvocationPrefix, ErrorSuffix, InvocationErrorPath(id)) == Some(id)
    ensures InvocationResponsePath(id) != InvocationErrorPath(other)
  {
    TemplateRoundTrip(InvocationPrefix, id, ResponseSuffix);
    TemplateRoundTrip(InvocationPrefix, id, ErrorSuffix);
    var a := InvocationResponsePath(id);
    var b := InvocationErrorPath(other);
    assert a[|a| - 1] == ResponseSuffix[|ResponseSuffix| - 1] == 'e';
    assert b[|b| - 1] == ErrorSuffix[|ErrorSuffix| - 1] == 'r';
  }

  // ---------------------------------------------------------------------
  // Serialising the body

  const UnableToStringifyMessage: string := "Unable to stringify response body"

  /**
   * `_trySerializeResponse(body)`: `JSON.stringify` of the body, with
   * `undefined` sent as `null`; a failure is replaced by an Error with a fixed
   * message. The text may be absent (a function body serialises to nothing).
   */
  function TrySerializeResponse(body: Value): (r: Result<Json.Json, string>)
    ensures r.Err? <==> !Json.Serialisable(body)
    ensures r.Err? ==> r.error == UnableToStringifyMessage
    ensures r.Ok? ==> !r.value.Throws?
    ensures body.Undefined? ==> r == Ok(Json.Text("null"))
    ensures body.Str? ==> r.Ok? && r.value.Text? && Json.ParseString(r.value.s) == Some((body.s, ""))
  {
    var j := Json.Stringify(if body.Undefined? then Null else body);
    Json.StringifyThrowsIff(body);
    QuotedParses(if body.Str? then body.s else "");
    if j.Throws? then Err(UnableToStringifyMessage) else Ok(j)
  }

  lemma QuotedParses(s: string)
    ensures Json.ParseString(Json.Quote(s)) == Some((s, ""))
  {
    Json.QuoteRoundTrip(s, "");
    assert Json.Quote(s) + "" == Json.Quote(s);
  }

  // ---------------------------------------------------------------------
  // Requests

  datatype HttpMethod = GET | POST

  /** What `http.request` is given, with the body written by `end`. */
  datatype Request = Request(verb: HttpMethod, hostname: string, port: Option<int>, path: string, headers: seq<Prop>, body: string)

  /** Why a POST is not sent: the body cannot be serialised, or it serialised to nothing and `Buffer.from(undefined)` throws a TypeError. */
  datatype PostFailure = StringifyFailed(message: string) | NoBodyText

  /** The headers every POST starts from; Content-Length counts the bytes of the UTF-8 body. */
  function DefaultHeaders(body: string): seq<Prop>
  {
    [Prop("Content-Type", Str("application/json")), Prop("Content-Length", Num(|Utf8.Encode(body)|))]
  }

  /**
   * `Object.assign(defaults, headers)`: a caller header replaces a default of
   * the same name and the other caller headers follow the defaults (a header
   * named by an array index would be listed first).
   */
  function MergeHeaders(defaults: seq<Prop>, headers: seq<Prop>): (r: seq<Prop>)
    ensures |r| >= |defaults|
    ensures NoArrayIndexKeys(headers) ==> Keys(r)[..|defaults|] == Keys(defaults)
    ensures forall k :: k !in Keys(headers) ==> Lookup(r, k) == Lookup(defaults, k)
    ensures DistinctKeys(headers) ==> forall k :: k in Keys(headers) ==> Lookup(r, k) == Lookup(headers, k)
  {
    var r := Assign(defaults, headers);
    MergeLookup(defaults, headers);
    r
  }

  lemma MergeLookup(defaults: seq<Prop>, headers: seq<Prop>)
    ensures DistinctKeys(headers) ==> forall k :: k in Keys(headers) ==> Lookup(Assign(defaults, headers), k) == Lookup(headers, k)
  {
    if DistinctKeys(headers) {
      forall k | k in Keys(headers) ensures Lookup(Assign(defaults, headers), k) == Lookup(headers, k) {
        AssignLookup(defaults, headers, k);
      }
    }
  }

  /** The outcome of `nextInvocation`: the promise is still pending, resolved with an invocation, or rejected. */
  datatype Invocation = Invocation(bodyJson: string, headers: seq<Prop>)
  datatype Outcome = Pending | Resolved(invocation: Invocation) | Rejected(reason: Value)

  /** What the HTTP layer reports while the next invocation is fetched. */
  datatype ResponseEvent = Data(chunk: string) | End | RequestError(e: Value)

  /** The index of the first event that settles the promise, or the number of events when none does. */
  function SettleIndex(events: seq<ResponseEvent>): (k: nat)
    ensures k <= |events|
    ensures forall j :: 0 <= j < k ==> events[j].Data?
    ensures k < |events| ==> !events[k].Data?
  {
    if events == [] || !events[0].Data? then 0 else 1 + SettleIndex(events[1..])
  }

  /** The chunks of the data events, in order. */
  function Chunks(events: seq<ResponseEvent>): seq<string>
  {
    if events == [] then [] else (if events[0].Data? then [events[0].chunk] else []) + Chunks(events[1..])
  }

  /**
   * What `nextInvocation` settles to: the first end or error event decides,
   * and an end resolves with every chunk received before it, concatenated
   * in order, and the response's headers as they came.
   */
  function Settlement(events: seq<ResponseEvent>, headers: seq<Prop>): Outcome
  {
    var k := SettleIndex(events);
    if k == |events| then Pending
    else if events[k].End? then Resolved(Invocation(Strings.Concat(Chunks(events[..k])), headers))
    else Rejected(events[k].e)
  }

  lemma {:induction false} ChunksSnoc(events: seq<ResponseEvent>, ev: ResponseEvent)
    ensures ev.Data? ==> Chunks(events + [ev]) == Chunks(events) + [ev.chunk]
    ensures !ev.Data? ==> Chunks(events + [ev]) == Chunks(events)
  {
    if events == [] {
      assert events + [ev] == [ev];
    } else {
      ChunksSnoc(events[1..], ev);
      assert (events + [ev])[1..] == events[1..] + [ev];
    }
  }

  lemma {:induction false} SettleIndexAppend(events: seq<ResponseEvent>, more: seq<ResponseEvent>)
    ensures SettleIndex(events) < |events| ==> SettleIndex(events + more) == SettleIndex(events)
    ensures SettleIndex(events) == |events| ==> SettleIndex(events + more) == |events| + SettleIndex(more)
  {
    if events == [] {
      assert events + more == more;
    } else if events[0].Data? {
      SettleIndexAppend(events[1..], more);
      assert (events + more)[1..] == events[1..] + more;
    }
  }

  /** One more event settles a pending promise or changes nothing that is settled. */
  lemma SettlementSnoc(events: seq<ResponseEvent>, ev: ResponseEvent, headers: seq<Prop>)
    ensures Settlement(events + [ev], headers) ==
      if !Settlement(events, headers).Pending? then Settlement(events, headers)
      else match ev
        case Data(_) => Pending
        case End => Resolved(Invocation(Strings.Concat(Chunks(events)), headers))
        case RequestError(e) => Rejected(e)
  {
    SettleIndexAppend(events, [ev]);
    var k := SettleIndex(events);
    assert (events + [ev])[..k] == events[..k];
    if k == |events| {
      assert events[..k] == events;
      assert (events + [ev])[k] == ev;
    } else {
      assert (events + [ev])[k] == events[k];
    }
  }

  /** First completion wins: once settled, later events do not change the outcome. */
  lemma SettlementStable(events: seq<ResponseEvent>, more: seq<ResponseEvent>, headers: seq<Prop>)
    requires !Settlement(events, headers).Pending?
    ensures Settlement(events + more, headers) == Settlement(events, headers)
  {
    SettleIndexAppend(events, more);
    var k := SettleIndex(events);
    assert (events + more)[..k] == events[..k];
    assert (events + more)[k] == events[k];
  }

  function DataEvents(chunks: seq<string>): (events: seq<ResponseEvent>)
    ensures |events| == |chunks|
    ensures forall i :: 0 <= i < |chunks| ==> events[i] == Data(chunks[i])
  {
    seq(|chunks|, i requires 0 <= i < |chunks| => Data(chunks[i]))
  }

  lemma {:induction false} DataEventsChunks(chunks: seq<string>)
    ensures Chunks(DataEvents(chunks)) == chunks
    ensures SettleIndex(DataEvents(chunks)) == |chunks|
  {
    if chunks != [] {
      DataEventsChunks(chunks[1..]);
      assert DataEvents(chunks)[1..] == DataEvents(chunks[1..]);
    }
  }

  /** Chunks followed by the end of the response resolve with their in-order concatenation and the headers untouched. */
  lemma SettlementOfChunks(chunks: seq<string>, rest: seq<ResponseEvent>, headers: seq<Prop>)
    ensures Settlement(DataEvents(chunks) + [End] + rest, headers) == Resolved(Invocation(Strings.Concat(chunks), headers))
  {
    var events := DataEvents(chunks);
    DataEventsChunks(chunks);
    SettlementSnoc(events, End, headers);
    assert events[..|events|] == events;
    SettlementStable(events + [End], rest, headers);
  }

  /** The headers an error report adds: its errorType and, for an invocation error, the X-Ray cause. */
  function ErrorHeaders(resp: Errors.RuntimeResponse, xrayCause: Option<string>): (h: seq<Prop>)
    ensures DistinctKeys(h)
    ensures Keys(h) == [ErrorTypeHeader] + (if xrayCause.Some? then [XRayErrorCauseHeader] else [])
    ensures Lookup(h, ErrorTypeHeader) == Some(resp.errorType)
    ensures xrayCause.Some? ==> Lookup(h, XRayErrorCauseHeader) == Some(Str(xrayCause.value))
  {
    [Prop(ErrorTypeHeader, resp.errorType)] + (if xrayCause.Some? then [Prop(XRayErrorCauseHeader, Str(xrayCause.value))] else [])
  }

  // ---------------------------------------------------------------------
  // The client

  class Client {
    const hostname: string
    const port: Option<int>
    const userAgent: string

    /** `new RuntimeClient(hostnamePort)`; the HTTP module and its keep-alive agent are not modelled. */
    constructor(hostnamePort: string, nodeVersion: string, packageVersion: string)
      ensures hostname == HostnameAndPort(hostnamePort).0
      ensures port == HostnameAndPort(hostnamePort).1
      ensures userAgent == UserAgent(nodeVersion, packageVersion)
    {
      userAgent := UserAgent(nodeVersion, packageVersion);
      var hp := HostnameAndPort(hostnamePort);
      hostname := hp.0;
      port := hp.1;
    }

    /**
     * `_post(path, body, headers)`: serialise the body, then a POST to the
     * client's host and port whose headers are the defaults overlaid by the
     * caller's.
     */
    function Post(path: string, body: Value, headers: seq<Prop>): (r: Result<Request, PostFailure>)
      ensures TrySerializeResponse(body).Err? ==> r == Err(StringifyFailed(UnableToStringifyMessage))
      ensures TrySerializeResponse(body) == Ok(Json.Absent) ==> r == Err(NoBodyText)
      ensures r.Ok? <==> Json.Serialisable(body) && TrySerializeResponse(body).value.Text?
      ensures r.Ok? ==>
        && r.value.verb == POST && r.value.hostname == hostname && r.value.port == port && r.value.path == path
        && r.value.body == TrySerializeResponse(body).value.s
      ensures r.Ok? ==> |r.value.headers| >= 2
      ensures r.Ok? && NoArrayIndexKeys(headers) ==> Keys(r.value.headers)[..2] == ["Content-Type", "Content-Length"]
      ensures r.Ok? ==> forall k :: k !in Keys(headers) ==> Lookup(r.value.headers, k) == Lookup(DefaultHeaders(r.value.body), k)
      ensures r.Ok? && DistinctKeys(headers) ==> forall k :: k in Keys(headers) ==> Lookup(r.value.headers, k) == Lookup(headers, k)
    {
      match TrySerializeResponse(body)
      case Err(m) => Err(StringifyFailed(m))
      case Ok(j) =>
        if !j.Text? then Err(NoBodyText)
        else
          var merged := MergeHeaders(DefaultHeaders(j.s), headers);
          assert Keys(DefaultHeaders(j.s)) == ["Content-Type", "Content-Length"];
          Ok(Request(POST, hostname, port, path, merged, j.s))
    }

    /** `postInvocationResponse(response, id)`: the response as the body, no extra headers. */
    function PostInvocationResponse(response: Value, id: string): (r: Result<Request, PostFailure>)
      ensures r.Ok? <==> Json.Serialisable(response) && TrySerializeResponse(response).value.Text?
      ensures r.Ok? ==> r.value.path == InvocationResponsePath(id) && r.value.headers == DefaultHeaders(r.value.body)
    {
      Post(InvocationResponsePath(id), response, [])
    }

    /**
     * A POST whose body is a runtime response: it is sent exactly when the
     * response's type and message serialise, and carries the caller's headers.
     */
    function PostResponse(path: string, resp: Errors.RuntimeResponse, headers: seq<Prop>): (r: Result<Request, PostFailure>)
      ensures r.Ok? <==> Json.Serialisable(resp.errorType) && Json.Serialisable(resp.errorMessage)
      ensures r.Err? ==> r.error == StringifyFailed(UnableToStringifyMessage)
      ensures r.Ok? ==> && r.value.path == path
                        && Json.Stringify(Errors.ResponseValue(resp)).Text?
                        && r.value.body == Json.Stringify(Errors.ResponseValue(resp)).s
      ensures r.Ok? && DistinctKeys(headers) ==> forall k :: k in Keys(headers) ==> Lookup(r.value.headers, k) == Lookup(headers, k)
    {
      Errors.ResponseStringifyThrowsIff(resp);
      ResponseValueSerialises(resp);
      Post(path, Errors.ResponseValue(resp), headers)
    }

    /** `postInitError(error)`: the normalised error as the body, its errorType as a header. */
    function PostInitError(error: Value): (r: Result<Request, PostFailure>)
      ensures var resp := Errors.ToRuntimeResponse(error);
        && (r.Ok? <==> Json.Serialisable(resp.errorType) && Json.Serialisable(resp.errorMessage))
        && (r.Err? ==> r.error == StringifyFailed(UnableToStringifyMessage))
        && (r.Ok? ==> && r.value.path == InitErrorPath
                      && Json.Stringify(Errors.ResponseValue(resp)).Text?
                      && r.value.body == Json.Stringify(Errors.ResponseValue(resp)).s)
    {
      var resp := Errors.ToRuntimeResponse(error);
      PostResponse(InitErrorPath, resp, ErrorHeaders(resp, None))
    }

    /**
     * `postInvocationError(error, id)`: as for an init error, plus the X-Ray
     * cause header, whose text `XRayError.toFormatted` computes.
     */
    function PostInvocationError(error: Value, id: string, xrayCause: string): (r: Result<Request, PostFailure>)
      ensures var resp := Errors.ToRuntimeResponse(error);
        && (r.Ok? <==> Json.Serialisable(resp.errorType) && Json.Serialisable(resp.errorMessage))
        && (r.Err? ==> r.error == StringifyFailed(UnableToStringifyMessage))
        && (r.Ok? ==> && r.value.path == InvocationErrorPath(id)
                      && Json.Stringify(Errors.ResponseValue(resp)).Text?
                      && r.value.body == Json.Stringify(Errors.ResponseValue(resp)).s)
    {
      var resp := Errors.ToRuntimeResponse(error);
      PostResponse(InvocationErrorPath(id), resp, ErrorHeaders(resp, Some(xrayCause)))
    }

    /** The GET `nextInvocation` sends: the only request that carries the user agent. */
    function NextInvocationRequest(): (r: Request)
      ensures r.verb == GET && r.hostname == hostname && r.port == port && r.path == NextInvocationPath
      ensures Keys(r.headers) == ["User-Agent"] && Lookup(r.headers, "User-Agent") == Some(Str(userAgent))
    {
      var headers := [Prop("User-Agent", Str(userAgent))];
      assert Keys(headers) == ["User-Agent"];
      Request(GET, hostname, port, NextInvocationPath, headers, "")
    }

    /**
     * `nextInvocation()`: every data event appends its chunk to the body, the
     * end event resolves with the body and the response headers, a request
     * error rejects; once settled, later events have no effect.
     */
    method NextInvocation(events: seq<ResponseEvent>, responseHeaders: seq<Prop>) returns (request: Request, outcome: Outcome)
      ensures request == NextInvocationRequest()
      ensures outcome == Settlement(events, responseHeaders)
    {
      request := NextInvocationRequest();
      var data := "";
      outcome := Pending;
      var i := 0;
      while i < |events|
        invariant 0 <= i <= |events|
        invariant data == Strings.Concat(Chunks(events[..i]))
        invariant outcome == Settlement(events[..i], responseHeaders)
      {
        var ev := events[i];
        SettlementSnoc(events[..i], ev, responseHeaders);
        ChunksSnoc(events[..i], ev);
        assert events[..i + 1] == events[..i] + [ev];
        match ev {
          case Data(chunk) =>
            Strings.ConcatSnoc(Chunks(events[..i]), chunk);
            data := data + chunk;
          case End =>
            if outcome.Pending? {
              outcome := Resolved(Invocation(data, responseHeaders));
            }
          case RequestError(e) =>
            if outcome.Pending? {
              outcome := Rejected(e);
            }
        }
        i := i + 1;
      }
      assert events[..i] == events;
    }
  }

  /** The response object always serialises to JSON text or throws; it is never absent. */
  lemma ResponseValueSerialises(resp: Errors.RuntimeResponse)
    ensures !Json.Stringify(Errors.ResponseValue(resp)).Absent?
  {
  }

  /** Content-Length is the UTF-8 byte count of the body: at least its length in characters, equal to it exactly for ASCII text. */
  lemma ContentLength(client: Client, path: string, body: Value, headers: seq<Prop>)
    requires client.Post(path, body, headers).Ok? && "Content-Length" !in Keys(headers)
    ensures var req := client.Post(path, body, headers).value;
      && Lookup(req.headers, "Content-Length") == Some(Num(Utf8.ByteLength(req.body)))
      && |req.body| <= Utf8.ByteLength(req.body) <= 4 * |req.body|
      && (Utf8.ByteLength(req.body) == |req.body| <==> forall i :: 0 <= i < |req.body| ==> Utf8.IsAscii(req.body[i]))
  {
    var req := client.Post(path, body, headers).value;
    Utf8.EncodeLength(req.body);
    Utf8.ByteLengthBounds(req.body);
    var d := DefaultHeaders(req.body);
    assert d[1..][0] == Prop("Content-Length", Num(|Utf8.Encode(req.body)|));
    assert Lookup(d, "Content-Length") == Some(Num(|Utf8.Encode(req.body)|));
  }

  /** A response with a string type and message is sent, and the body's JSON starts with the two. */
  lemma ResponseBodyHead(client: Client, path: string, resp: Errors.RuntimeResponse, headers: seq<Prop>)
    requires resp.errorType.Str? && resp.errorMessage.Str?
    ensures client.PostResponse(path, resp, headers).Ok?
    ensures Errors.ParseHead(client.PostResponse(path, resp, headers).value.body) == Some(Errors.TypeAndMessage(resp.errorType.s, resp.errorMessage.s))
  {
    Errors.ResponseHead(resp);
  }

  /** An error report that is sent carries the response's errorType and, when given, the X-Ray cause. */
  lemma ErrorHeadersSent(client: Client, path: string, resp: Errors.RuntimeResponse, xrayCause: Option<string>)
    ensures var r := client.PostResponse(path, resp, ErrorHeaders(resp, xrayCause));
      r.Ok? ==> && Lookup(r.value.headers, ErrorTypeHeader) == Some(resp.errorType)
                && (xrayCause.Some? ==> Lookup(r.value.headers, XRayErrorCauseHeader) == Some(Str(xrayCause.value)))
  {
    var h := ErrorHeaders(resp, xrayCause);
    assert ErrorTypeHeader in Keys(h);
    assert xrayCause.Some? ==> XRayErrorCauseHeader in Keys(h);
  }

  /** An init error that is sent names the response's errorType in the error-type header. */
  lemma InitErrorHeaders(client: Client, error: Value)
    ensures var r := client.PostInitError(error);
      r.Ok? ==> Lookup(r.value.headers, ErrorTypeHeader) == Some(Errors.ToRuntimeResponse(error).errorType)
  {
    ErrorHeadersSent(client, InitErrorPath, Errors.ToRuntimeResponse(error), None);
  }

  /** An invocation error that is sent carries the errorType header and the X-Ray cause it was given. */
  lemma InvocationErrorHeaders(client: Client, error: Value, id: string, xrayCause: string)
    ensures var r := client.PostInvocationError(error, id, xrayCause);
      r.Ok? ==> && Lookup(r.value.headers, ErrorTypeHeader) == Some(Errors.ToRuntimeResponse(error).errorType)
                && Lookup(r.value.headers, XRayErrorCauseHeader) == Some(Str(xrayCause))
  {
    ErrorHeadersSent(client, InvocationErrorPath(id), Errors.ToRuntimeResponse(error), Some(xrayCause));
  }

  /**
   * An init error whose response has a string type and message is sent with
   * that type in the error-type header, and the body's JSON starts with the
   * type and the message.
   */
  lemma InitErrorHead(client: Client, error: Value, t: string, m: string)
    requires Errors.ToRuntimeResponse(error).errorType == Str(t) && Errors.ToRuntimeResponse(error).errorMessage == Str(m)
    ensures var r := client.PostInitError(error);
      && r.Ok?
      && Lookup(r.value.headers, ErrorTypeHeader) == Some(Str(t))
      && Errors.ParseHead(r.value.body) == Some(Errors.TypeAndMessage(t, m))
  {
    var resp := Errors.ToRuntimeResponse(error);
    ResponseBodyHead(client, InitErrorPath, resp, ErrorHeaders(resp, None));
    InitErrorHeaders(client, error);
  }

  /** A runtime error reported at init is sent with its `Runtime.*` name as the error type. */
  lemma InitErrorNamesClass(client: Client, c: Errors.ErrorClass, message: string, frames: seq<string>)
    ensures var r := client.PostInitError(Errors.RuntimeErrorValue(c, message, frames));
      && r.Ok?
      && Lookup(r.value.headers, ErrorTypeHeader) == Some(Str(Errors.ErrorName(c)))
      && Errors.ParseHead(r.value.body) == Some(Errors.TypeAndMessage(Errors.ErrorName(c), message))
  {
    Errors.RuntimeErrorResponse(c, message, frames);
    InitErrorHead(client, Errors.RuntimeErrorValue(c, message, frames), Errors.ErrorName(c), message);
  }
}
