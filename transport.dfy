/** One JSON request/response exchange (`doJsonRequest`).
    The exchange runs six stages in a fixed order and returns at the first one that
    fails. What each stage does is library or network behaviour; the model takes the
    outcome of each stage as given (a `Transport`) and states the order in which they
    are run and which error each failure produces. */
module Transport {
  import opened Results
  import opened Query

  /** The stages of one exchange, in the order they run. */
  datatype Stage = Encode | BuildRequest | Send | CheckStatus | ReadBody | Decode

  const Pipeline: seq<Stage> := [Encode, BuildRequest, Send, CheckStatus, ReadBody, Decode]

  /** The only status accepted (`http.StatusOK`). */
  const StatusOK: int := 200

  /** What the server answered: its status code, and the body, or `None` when reading
      the body fails. */
  datatype HttpResponse = HttpResponse(status: int, body: Option<string>)

  /** The outcome of every stage that is library or network behaviour:
      whether JSON-encoding the payload succeeds, whether a request can be built for
      a URL, what sending it yields (`None` for a transport failure, a cancelled
      context or a missed deadline), and what JSON-decoding a body yields. */
  datatype Transport<R> = Transport(
    encodes: bool,
    builds: Url -> bool,
    send: Url -> Option<HttpResponse>,
    decode: string -> Option<R>)

  /** The kinds of error the client returns. */
  datatype Error =
    | UrlParseError(rawUrl: string)
    | EncodingError
    | RequestError(url: Url)
    | NetworkError(url: Url)
    | UnexpectedStatus(status: int)
    | ReadError
    | DecodingError(body: string)

  /** Whether stage `s` fails when it is reached. A stage after `Send` is only
      reached when sending produced a response. */
  predicate Fails<R>(t: Transport<R>, u: Url, s: Stage)
  {
    match s
    case Encode => !t.encodes
    case BuildRequest => !t.builds(u)
    case Send => t.send(u).None?
    case CheckStatus => t.send(u).Some? && t.send(u).value.status != StatusOK
    case ReadBody => t.send(u).Some? && t.send(u).value.body.None?
    case Decode =>
      && t.send(u).Some? && t.send(u).value.body.Some?
      && t.decode(t.send(u).value.body.value).None?
  }

  /** The error a failing stage produces. */
  function StageError<R>(t: Transport<R>, u: Url, s: Stage): Error
    requires Fails(t, u, s)
  {
    match s
    case Encode => EncodingError
    case BuildRequest => RequestError(u)
    case Send => NetworkError(u)
    case CheckStatus => UnexpectedStatus(t.send(u).value.status)
    case ReadBody => ReadError
    case Decode => DecodingError(t.send(u).value.body.value)
  }

  /** The position in `Pipeline`, from `i` on, of the first stage that fails. */
  function FirstFailureFrom<R>(t: Transport<R>, u: Url, i: nat): (r: Option<nat>)
    requires i <= |Pipeline|
    ensures r.Some? ==> i <= r.value < |Pipeline| && Fails(t, u, Pipeline[r.value])
    ensures r.Some? ==> forall j :: i <= j < r.value ==> !Fails(t, u, Pipeline[j])
    ensures r.None? ==> forall j :: i <= j < |Pipeline| ==> !Fails(t, u, Pipeline[j])
    decreases |Pipeline| - i
  {
    if i == |Pipeline| then None
    else if Fails(t, u, Pipeline[i]) then Some(i)
    else FirstFailureFrom(t, u, i + 1)
  }

  /** What an exchange with `u` returns: the error of the first failing stage, or the
      decoded body when every stage passes. */
  function Exchange<R>(t: Transport<R>, u: Url): Result<R, Error>
  {
    match FirstFailureFrom(t, u, 0)
    case Some(i) => Failure(StageError(t, u, Pipeline[i]))
    case None =>
      assert !Fails(t, u, Pipeline[2]) && !Fails(t, u, Pipeline[4]) && !Fails(t, u, Pipeline[5]);
      Success(t.decode(t.send(u).value.body.value).value)
  }

  /** The stages an exchange with `u` runs: all of them up to and including the
      first that fails. */
  function ExchangeTrace<R>(t: Transport<R>, u: Url): seq<Stage>
  {
    match FirstFailureFrom(t, u, 0)
    case Some(i) => Pipeline[..i + 1]
    case None => Pipeline
  }

  /** `doJsonRequest`: encode the payload, build the request, send it, check the
      status, read the body, decode it, returning at the first failure. `trace`
      lists the stages run. */
  method DoJsonRequest<R>(t: Transport<R>, u: Url) returns (res: Result<R, Error>, trace: seq<Stage>)
    ensures res == Exchange(t, u)
    ensures trace == ExchangeTrace(t, u)
  {
    trace := [Encode];
    if !t.encodes {
      res := Failure(EncodingError);
      return;
    }
    trace := trace + [BuildRequest];
    if !t.builds(u) {
      res := Failure(RequestError(u));
      return;
    }
    trace := trace + [Send];
    var resp := t.send(u);
    if resp.None? {
      res := Failure(NetworkError(u));
      return;
    }
    trace := trace + [CheckStatus];
    if resp.value.status != StatusOK {
      res := Failure(UnexpectedStatus(resp.value.status));
      return;
    }
    trace := trace + [ReadBody];
    if resp.value.body.None? {
      res := Failure(ReadError);
      return;
    }
    var body := resp.value.body.value;
    trace := trace + [Decode];
    var decoded := t.decode(body);
    if decoded.None? {
      res := Failure(DecodingError(body));
      return;
    }
    res := Success(decoded.value);
  }

  // ---------------------------------------------------------------------------
  // Properties of an exchange.

  /** The first failing stage decides the error, and no later stage runs. */
  lemma FirstFailingStageDecides<R>(t: Transport<R>, u: Url, i: nat)
    requires i < |Pipeline| && Fails(t, u, Pipeline[i])
    requires forall j :: 0 <= j < i ==> !Fails(t, u, Pipeline[j])
    ensures Exchange(t, u) == Failure(StageError(t, u, Pipeline[i]))
    ensures ExchangeTrace(t, u) == Pipeline[..i + 1]
  {
  }

  /** A status other than 200 ends the exchange with `UnexpectedStatus`, before the
      body is read or decoded. */
  lemma NonOkStatusStopsBeforeBody<R>(t: Transport<R>, u: Url)
    requires t.encodes && t.builds(u) && t.send(u).Some?
    requires t.send(u).value.status != StatusOK
    ensures Exchange(t, u) == Failure(UnexpectedStatus(t.send(u).value.status))
    ensures ReadBody !in ExchangeTrace(t, u) && Decode !in ExchangeTrace(t, u)
  {
  }

  /** An exchange succeeds exactly when no stage fails, and then returns the decoded
      body, having run every stage. */
  lemma SucceedsIffNoStageFails<R>(t: Transport<R>, u: Url)
    ensures Exchange(t, u).Success? <==> forall s :: s in Pipeline ==> !Fails(t, u, s)
    ensures Exchange(t, u).Success? ==>
      && t.send(u).Some? && t.send(u).value.status == StatusOK
      && t.send(u).value.body.Some?
      && t.decode(t.send(u).value.body.value) == Some(Exchange(t, u).value)
      && ExchangeTrace(t, u) == Pipeline
  {
  }
}
