/** The client façade: `GetStepOutput` and `GetViewSpecs`.
    Each joins the configured host to its route, parses the result into a URL,
    (for `GetStepOutput`) writes the request's parameters into the URL's query, and
    runs one JSON exchange against that URL. */
module Client {
  import opened Results
  import opened Domain
  import opened Query
  import opened Transport

  /** The client's configuration: the scheme and authority prepended to every route. */
  datatype ClientConfig = ClientConfig(host: string)

  datatype ClientOpts = ClientOpts(config: ClientConfig)

  datatype Client = Client(opts: ClientOpts)

  /** The route paths of the two server operations. */
  datatype Routes = Routes(getStepOutput: string, getViewSpecs: string)

  /** `GetStepOutput`: when the host and route do not parse, the call fails with
      `UrlParseError` and sends nothing; otherwise it runs one exchange against the
      parsed URL whose query is the parsed query with the request's parameters
      written in. `target` is the URL the exchange runs against, `trace` the stages
      it ran. */
  method GetStepOutput(
    c: Client, routes: Routes, parse: string -> Option<Url>,
    t: Transport<GetStepOutputResponse>, req: GetStepOutputRequest)
    returns (res: Result<GetStepOutputResponse, Error>, target: Option<Url>, trace: seq<Stage>)
    ensures var raw := c.opts.config.host + routes.getStepOutput;
      parse(raw).None? ==> res == Failure(UrlParseError(raw)) && target == None && trace == []
    ensures var raw := c.opts.config.host + routes.getStepOutput;
      parse(raw).Some? ==>
        && target == Some(parse(raw).value.(query := StepOutputQuery(parse(raw).value.query, req)))
        && res == Exchange(t, target.value)
        && trace == ExchangeTrace(t, target.value)
  {
    var rawUrl := c.opts.config.host + routes.getStepOutput;
    var parsed := parse(rawUrl);
    if parsed.None? {
      res, target, trace := Failure(UrlParseError(rawUrl)), None, [];
      return;
    }
    var q := EncodeStepOutputQuery(parsed.value.query, req);
    var u := parsed.value.(query := q);
    target := Some(u);
    res, trace := DoJsonRequest(t, u);
  }

  /** `GetViewSpecs`: when the host and route do not parse, the call fails with
      `UrlParseError` and sends nothing; otherwise it runs one exchange against the
      parsed URL exactly as parsed, with no parameters added. */
  method GetViewSpecs(
    c: Client, routes: Routes, parse: string -> Option<Url>,
    t: Transport<GetViewSpecsResponse>, req: GetViewSpecsRequest)
    returns (res: Result<GetViewSpecsResponse, Error>, target: Option<Url>, trace: seq<Stage>)
    ensures var raw := c.opts.config.host + routes.getViewSpecs;
      parse(raw).None? ==> res == Failure(UrlParseError(raw)) && target == None && trace == []
    ensures var raw := c.opts.config.host + routes.getViewSpecs;
      parse(raw).Some? ==>
        && target == parse(raw)
        && res == Exchange(t, target.value)
        && trace == ExchangeTrace(t, target.value)
  {
    var rawUrl := c.opts.config.host + routes.getViewSpecs;
    var parsed := parse(rawUrl);
    if parsed.None? {
      res, target, trace := Failure(UrlParseError(rawUrl)), None, [];
      return;
    }
    target := parsed;
    res, trace := DoJsonRequest(t, parsed.value);
  }
}
