/**
  One probe (`Flyover`): a GET request, the host/port read back from the
  target text, and the DNS lookup of the host. The network and the resolver
  are oracles; only what the program does with their answers is modelled.
 */
module Probe {
  import opened Common
  import opened Text
  import opened Decimal
  import opened Targets

  /** The port recorded when a target has no port segment, as the program writes it. */
  const DefaultPort: Int32 := 80

  /** The port an `https` URL without a port segment is actually requested on. */
  const HttpsDefaultPort: Int32 := 443

  /** The `FlyoverResponseMessage` record: one entry of the final report. */
  datatype Message = Message(
    domain: string,
    addresses: seq<string>,
    requested: string,
    port: Int32,
    headers: seq<(string, seq<string>)>,
    cookies: seq<string>,
    statusCode: int,
    content: string)

  /** What a completed HTTP exchange yields: any status code counts. */
  datatype Response = Response(
    requested: string,
    headers: seq<(string, seq<string>)>,
    cookies: seq<string>,
    statusCode: int,
    content: string)

  /**
    The outcome of building the `Uri` and sending the request: a response,
    an `HttpRequestException`, or any other exception (a malformed URI, the
    timeout's cancellation, ...).
   */
  datatype Transport = Responded(response: Response) | HttpRequestFailure | OtherFailure

  /** Which of the (at most) two requests `Trigger` makes for one target. */
  datatype Try = First | Retry

  /**
    One call of `Flyover`: the target's position in the dispatch order, the
    attempt, and the URL. Two calls with the same URL may meet different
    answers from the network, so the oracles see the whole request.
   */
  datatype Request = Request(slot: nat, attempt: Try, url: string)

  /**
    The outside world as `Flyover` sees it: `SendAsync` and
    `Dns.GetHostEntryAsync`, each answering per request.
   */
  datatype Network = Network(send: Request -> Transport, resolve: (Request, string) -> Option<seq<string>>)

  /**
    The outcome of `Flyover` as its caller sees it: a message, an
    `HttpRequestException`, or any other exception.
   */
  datatype Attempt = Answered(message: Message) | HttpRequestFault | OtherFault

  /**
    The host and port as the program reads them from a target: schema
    removed, split on `:`, part 0 is the host, and the port is 80 when
    there is no second part, for `https` targets too.
   */
  function ParseTargetAsWritten(target: string): (r: Result<(string, Int32), ParseError>)
    ensures r.Ok? ==> ':' !in r.value.0
    ensures ':' !in RemoveSchema(target) ==> r == Ok((RemoveSchema(target), DefaultPort))
  {
    var parts := Split(RemoveSchema(target), ':');
    if |parts| == 1 then Ok((parts[0], DefaultPort))
    else
      match ParseInt32(parts[1])
      case Ok(port) => Ok((parts[0], port))
      case Err(e) => Err(e)
  }

  /** The port a target without a port segment is requested on: 443 for `https`, 80 otherwise. */
  function ImplicitPort(target: string): (port: Int32)
    ensures port == HttpsDefaultPort <==> "https://" <= target
    ensures !("https://" <= target) ==> port == DefaultPort
  {
    if "https://" <= target then HttpsDefaultPort else DefaultPort
  }

  /**
    The host and port of a target, reporting the port the request is
    actually sent to when the target has no port segment.
   */
  function ParseTarget(target: string): (r: Result<(string, Int32), ParseError>)
    ensures r.Ok? ==> ':' !in r.value.0
    ensures ':' !in RemoveSchema(target) ==> r == Ok((RemoveSchema(target), ImplicitPort(target)))
    ensures ':' in RemoveSchema(target) ==> r == ParseTargetAsWritten(target)
  {
    var parts := Split(RemoveSchema(target), ':');
    if |parts| == 1 then Ok((parts[0], ImplicitPort(target)))
    else
      match ParseInt32(parts[1])
      case Ok(port) => Ok((parts[0], port))
      case Err(e) => Err(e)
  }

  /** Both readings give back the host and port of an expanded target. */
  lemma ParseExpandedTarget(scheme: string, domain: string, port: Int32)
    requires IsScheme(scheme) && ':' !in domain
    ensures ParseTargetAsWritten(Target(scheme, domain, port)) == Ok((domain, port))
    ensures ParseTarget(Target(scheme, domain, port)) == Ok((domain, port))
  {
    TargetParts(scheme, domain, port);
    ParseFormatRoundTrip(port);
  }

  /**
    A port-less target `scheme://domain` reads as port 80 with both schemes
    when read as the program does.
   */
  lemma ParsePortlessAsWritten(scheme: string, domain: string)
    requires IsScheme(scheme) && ':' !in domain
    ensures ParseTargetAsWritten(scheme + "://" + domain) == Ok((domain, DefaultPort))
  {
    RemoveSchemaOfTarget(scheme, domain);
  }

  /** The corrected reading reports 443 for `https://domain` and 80 for `http://domain`. */
  lemma ParsePortless(scheme: string, domain: string)
    requires IsScheme(scheme) && ':' !in domain
    ensures ParseTarget(scheme + "://" + domain) ==
      Ok((domain, if scheme == "https" then HttpsDefaultPort else DefaultPort))
  {
    RemoveSchemaOfTarget(scheme, domain);
    var t := scheme + "://" + domain;
    if scheme == "http" {
      assert t[4] == ':';
    } else {
      assert t[..8] == "https://";
    }
  }

  /**
    The discrepancy: `https://example.com` is requested on port 443, yet the
    program records port 80 for it.
   */
  lemma AsWrittenHttpsPortlessReportsPort80()
    ensures ParseTargetAsWritten("https" + "://" + "example.com") == Ok(("example.com", 80))
    ensures ParseTarget("https" + "://" + "example.com") == Ok(("example.com", 443))
  {
    var host := "example.com";
    assert ':' !in host;
    ParsePortlessAsWritten("https", host);
    ParsePortless("https", host);
  }

  /**
    The common shape of `Flyover` once the target has been read (`read`):
    a message is built only from a completed exchange whose target parsed and
    whose host resolved; only the request itself raises an
    `HttpRequestException`, every other failure is another exception.
   */
  function Exchange(net: Network, request: Request, read: Result<(string, Int32), ParseError>): (a: Attempt)
    ensures a.HttpRequestFault? <==> net.send(request).HttpRequestFailure?
    ensures a.Answered? <==>
      && net.send(request).Responded?
      && read.Ok?
      && net.resolve(request, read.value.0).Some?
    ensures a.Answered? ==>
      var m := a.message;
      var response := net.send(request).response;
      && read == Ok((m.domain, m.port))
      && net.resolve(request, m.domain) == Some(m.addresses)
      && m.requested == response.requested
      && m.statusCode == response.statusCode
      && m.headers == response.headers
      && m.cookies == response.cookies
      && m.content == response.content
  {
    match net.send(request)
    case HttpRequestFailure => HttpRequestFault
    case OtherFailure => OtherFault
    case Responded(response) =>
      match read
      case Err(_) => OtherFault
      case Ok((domain, port)) =>
        match net.resolve(request, domain)
        case None => OtherFault
        case Some(addresses) =>
          Answered(Message(domain, addresses, response.requested, port,
            response.headers, response.cookies, response.statusCode, response.content))
  }

  /**
    `Flyover` as the program runs it: host and port are read as written, so
    a port-less target is recorded with port 80 whatever its scheme.
   */
  function Flyover(net: Network, request: Request): (a: Attempt)
    ensures a.HttpRequestFault? <==> net.send(request).HttpRequestFailure?
    ensures a.Answered? <==>
      && net.send(request).Responded?
      && ParseTargetAsWritten(request.url).Ok?
      && net.resolve(request, ParseTargetAsWritten(request.url).value.0).Some?
    ensures a.Answered? ==>
      && ParseTargetAsWritten(request.url) == Ok((a.message.domain, a.message.port))
      && net.resolve(request, a.message.domain) == Some(a.message.addresses)
      && a.message.statusCode == net.send(request).response.statusCode
      && a.message.content == net.send(request).response.content
  {
    Exchange(net, request, ParseTargetAsWritten(request.url))
  }

  /**
    `Flyover` with the corrected reading: a port-less target is recorded with
    the port the request went to, 443 for `https`.
   */
  function FlyoverCorrected(net: Network, request: Request): (a: Attempt)
    ensures a.HttpRequestFault? <==> net.send(request).HttpRequestFailure?
    ensures a.Answered? <==>
      && net.send(request).Responded?
      && ParseTarget(request.url).Ok?
      && net.resolve(request, ParseTarget(request.url).value.0).Some?
    ensures a.Answered? ==>
      && ParseTarget(request.url) == Ok((a.message.domain, a.message.port))
      && net.resolve(request, a.message.domain) == Some(a.message.addresses)
      && a.message.statusCode == net.send(request).response.statusCode
      && a.message.content == net.send(request).response.content
  {
    Exchange(net, request, ParseTarget(request.url))
  }

  /** The two readings only differ on a port-less `https` target, and only in the port. */
  lemma FlyoverCorrectedDiffersOnlyInPort(net: Network, request: Request)
    ensures Flyover(net, request).Answered? <==> FlyoverCorrected(net, request).Answered?
    ensures ':' in RemoveSchema(request.url) ==> Flyover(net, request) == FlyoverCorrected(net, request)
    ensures Flyover(net, request).Answered? ==>
      var m, c := Flyover(net, request).message, FlyoverCorrected(net, request).message;
      && c == m.(port := c.port)
      && (m.port != c.port ==> m.port == DefaultPort && c.port == HttpsDefaultPort)
  {
  }

  /** The probe of the target at dispatch position `slot`, for both of its attempts. */
  function FlyoverProbe(net: Network, slot: nat): (probe: (string, Try) -> Attempt)
  {
    (target, attempt) => Flyover(net, Request(slot, attempt, target))
  }

  /** The probe of the target at dispatch position `slot`, with the corrected reading. */
  function FlyoverCorrectedProbe(net: Network, slot: nat): (probe: (string, Try) -> Attempt)
  {
    (target, attempt) => FlyoverCorrected(net, Request(slot, attempt, target))
  }
}
