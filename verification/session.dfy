/** The token side of the SmartThings gateway object: loading persisted state,
    saving tokens, the single-flight refresh guard and the request interceptor
    that decides between init, refresh and attaching the bearer header.

    Asynchrony is explicit: a refresh is started by `RefreshCall` and finished
    by a separate `RefreshDone` event; file reads, file writes and token
    exchanges are results handed in by the caller. */
module Session {
  import opened Wrappers
  import opened Json
  import opened Tokens
  import opened Http

  /** The app-info JSON document. */
  datatype AppInfo = AppInfo(appId: Option<string>, installedAppId: Option<string>)

  /** A failed file read, JSON parse or file write. */
  datatype IoError = IoError

  datatype SessionState = SessionState(
    tokens: Option<TokenSet>,
    installedAppId: Option<string>,
    isRefreshing: bool,
    pendingRequests: seq<CallerId>)

  /** The state right after construction. */
  const Initial: SessionState := SessionState(None, None, false, [])

  /** Waiters exist only while a refresh exchange is in flight. */
  predicate Valid(s: SessionState) {
    !s.isRefreshing ==> s.pendingRequests == []
  }

  /** Stores a token response. The in-memory tokens are replaced whatever the
      outcome of writing the token file; a write failure is only logged. */
  function SaveTokens(s: SessionState, response: TokenSet, now: int, write: Result<(), IoError>): (r: SessionState)
    ensures r.tokens == Some(Stamp(response, now))
    ensures r.installedAppId == s.installedAppId
    ensures r.isRefreshing == s.isRefreshing && r.pendingRequests == s.pendingRequests
  {
    s.(tokens := Some(Stamp(response, now)))
  }

  datatype InitResult = InitResult(state: SessionState, loaded: bool)

  /** Loads the token file, then the app-info file (each a read plus a parse).
      The tokens are assigned as soon as their file parses, so a failing
      app-info read leaves them set while reporting false. */
  function Init(s: SessionState, tokenFile: Result<TokenSet, IoError>, appFile: Result<AppInfo, IoError>): (r: InitResult)
    ensures r.loaded <==> tokenFile.Success? && appFile.Success?
    ensures tokenFile.Failure? ==> r.state == s
    ensures tokenFile.Success? ==> r.state.tokens == Some(tokenFile.value)
    ensures r.state.installedAppId == (if r.loaded then appFile.value.installedAppId else s.installedAppId)
    ensures r.state.isRefreshing == s.isRefreshing && r.state.pendingRequests == s.pendingRequests
  {
    match tokenFile
    case Failure(_) => InitResult(s, false)
    case Success(t) =>
      var s1 := s.(tokens := Some(t));
      match appFile
      case Failure(_) => InitResult(s1, false)
      case Success(info) => InitResult(s1.(installedAppId := info.installedAppId), true)
  }

  predicate HasRefreshToken(s: SessionState) {
    s.tokens.Some? && TruthyStr(s.tokens.value.refreshToken)
  }

  /** How a refresh call begins: it fails at once, starts the single token
      exchange (with the refresh token it sends), or joins the waiter queue. */
  datatype RefreshStart = Rejected(error: Error) | ExchangeStarted(refreshToken: string) | Queued

  datatype RefreshCallResult = RefreshCallResult(state: SessionState, start: RefreshStart)

  /** `refreshToken()` up to its first suspension point. */
  function RefreshCall(s: SessionState, caller: CallerId): (r: RefreshCallResult)
    ensures !HasRefreshToken(s) ==> r == RefreshCallResult(s, Rejected(Thrown(NoRefreshToken)))
    ensures HasRefreshToken(s) && s.isRefreshing ==>
              r == RefreshCallResult(s.(pendingRequests := s.pendingRequests + [caller]), Queued)
    ensures HasRefreshToken(s) && !s.isRefreshing ==>
              r == RefreshCallResult(s.(isRefreshing := true), ExchangeStarted(s.tokens.value.refreshToken.value))
    ensures Valid(s) ==> Valid(r.state)
  {
    if !HasRefreshToken(s) then RefreshCallResult(s, Rejected(Thrown(NoRefreshToken)))
    else if s.isRefreshing then RefreshCallResult(s.(pendingRequests := s.pendingRequests + [caller]), Queued)
    else RefreshCallResult(s.(isRefreshing := true), ExchangeStarted(s.tokens.value.refreshToken.value))
  }

  /** The outcome of a refresh as seen by every caller: the new access token
      (possibly absent from the response) or the exchange's error. */
  type RefreshOutcome = Result<Option<string>, Error>

  datatype Settlement = Settlement(state: SessionState, outcome: RefreshOutcome, notified: seq<(CallerId, RefreshOutcome)>)

  /** Completion of the in-flight token exchange: tokens saved on success, the
      flag cleared, and every queued waiter settled, in queue order, with the
      outcome the starting caller receives. */
  function RefreshDone(s: SessionState, exchange: Result<TokenSet, Error>, now: int, write: Result<(), IoError>): (r: Settlement)
    requires s.isRefreshing
    ensures !r.state.isRefreshing && r.state.pendingRequests == []
    ensures |r.notified| == |s.pendingRequests|
    ensures forall i :: 0 <= i < |r.notified| ==> r.notified[i] == (s.pendingRequests[i], r.outcome)
    ensures exchange.Success? ==>
              r.state.tokens == Some(Stamp(exchange.value, now)) && r.outcome == Success(exchange.value.accessToken)
    ensures exchange.Failure? ==> r.state.tokens == s.tokens && r.outcome == Failure(exchange.error)
    ensures r.state.installedAppId == s.installedAppId
  {
    var s1 := match exchange
      case Success(t) => SaveTokens(s, t, now, write)
      case Failure(_) => s;
    var outcome: RefreshOutcome := match exchange
      case Success(_) => Success(s1.tokens.value.accessToken)
      case Failure(e) => Failure(e);
    var waiters := s.pendingRequests;
    Settlement(s1.(isRefreshing := false, pendingRequests := []), outcome,
               seq(|waiters|, i requires 0 <= i < |waiters| => (waiters[i], outcome)))
  }

  /** The interceptor's verdict on one outgoing request. */
  datatype Decision = Proceed(authorization: Option<string>) | AwaitRefresh | Reject(error: Error)

  datatype Interception = Interception(state: SessionState, initRan: bool, refresh: Option<RefreshStart>, decision: Decision)

  /** The state the interceptor works on once its optional `init` is done. */
  function AfterInit(s: SessionState, tokenFile: Result<TokenSet, IoError>, appFile: Result<AppInfo, IoError>): SessionState {
    if s.tokens.None? then Init(s, tokenFile, appFile).state else s
  }

  /** The tokens the interceptor inspects once its optional `init` is done. */
  function TokensAfterInit(s: SessionState, tokenFile: Result<TokenSet, IoError>, appFile: Result<AppInfo, IoError>): Option<TokenSet> {
    AfterInit(s, tokenFile, appFile).tokens
  }

  /** The request interceptor: init only when no tokens are held, refresh
      only when the tokens have expired, and otherwise let the request go
      with the bearer header when an access token is held. */
  function Intercept(s: SessionState, caller: CallerId, now: int,
                     tokenFile: Result<TokenSet, IoError>, appFile: Result<AppInfo, IoError>): (r: Interception)
    ensures r.initRan <==> s.tokens.None?
    ensures r.refresh.Some? <==> Expired(TokensAfterInit(s, tokenFile, appFile), now)
    ensures r.decision.Proceed? <==> !Expired(TokensAfterInit(s, tokenFile, appFile), now)
    ensures r.decision.Proceed? ==>
              && r.state.tokens == TokensAfterInit(s, tokenFile, appFile)
              && r.decision.authorization == AuthHeader(r.state.tokens)
    ensures r.decision.Reject? ==>
              && r.decision.error == Thrown(NoRefreshToken)
              && r.state.isRefreshing == s.isRefreshing
              && r.state.pendingRequests == s.pendingRequests
    ensures r.decision.AwaitRefresh? ==> r.state.isRefreshing
    ensures r.decision.Reject? <==> r.refresh.Some? && r.refresh.value.Rejected?
    ensures var s1 := AfterInit(s, tokenFile, appFile);
            Expired(s1.tokens, now) ==>
              && r.state == RefreshCall(s1, caller).state
              && r.refresh == Some(RefreshCall(s1, caller).start)
    ensures !Expired(TokensAfterInit(s, tokenFile, appFile), now) ==> r.state == AfterInit(s, tokenFile, appFile)
    ensures Valid(s) ==> Valid(r.state)
  {
    var s1 := AfterInit(s, tokenFile, appFile);
    if Expired(s1.tokens, now) then
      var call := RefreshCall(s1, caller);
      var decision := if call.start.Rejected? then Reject(call.start.error) else AwaitRefresh;
      Interception(call.state, s.tokens.None?, Some(call.start), decision)
    else
      Interception(s1, s.tokens.None?, None, Proceed(AuthHeader(s1.tokens)))
  }

  /** The interceptor continuing once the refresh it awaited has settled: it
      rethrows a failure, and otherwise reads whatever tokens are now held. */
  function Resume(s: SessionState, outcome: RefreshOutcome): (d: Decision)
    ensures d.Reject? <==> outcome.Failure?
    ensures outcome.Failure? ==> d.error == outcome.error
    ensures d.Proceed? ==> d.authorization == AuthHeader(s.tokens)
    ensures outcome.Success? ==> d == Proceed(AuthHeader(s.tokens))
  {
    match outcome
    case Success(_) => Proceed(AuthHeader(s.tokens))
    case Failure(e) => Reject(e)
  }

  /** Completion of the authorization-code exchange (`getInitialTokens`):
      tokens saved on success; on failure nothing changes and the caller
      receives InitialTokensFailed. */
  function InitialTokensDone(s: SessionState, exchange: Result<TokenSet, Error>, now: int, write: Result<(), IoError>): (r: (SessionState, Result<(), Error>))
    ensures r.1.Success? <==> exchange.Success?
    ensures exchange.Success? ==> r.0 == SaveTokens(s, exchange.value, now, write)
    ensures exchange.Success? ==> r.0.tokens == Some(Stamp(exchange.value, now))
    ensures exchange.Failure? ==> r.0 == s && r.1 == Failure(Thrown(InitialTokensFailed))
    ensures r.0.installedAppId == s.installedAppId && r.0.isRefreshing == s.isRefreshing
    ensures r.0.pendingRequests == s.pendingRequests
  {
    match exchange
    case Success(t) => (SaveTokens(s, t, now, write), Success(()))
    case Failure(_) => (s, Failure(Thrown(InitialTokensFailed)))
  }

  // ---------------------------------------------------------------------
  // Traces of refresh calls and completions

  datatype Burst = Burst(state: SessionState, exchanges: nat, rejected: nat)

  /** Refresh calls from `callers`, in order, with no completion in between. */
  function RefreshBurst(s: SessionState, callers: seq<CallerId>): Burst
    decreases |callers|
  {
    if |callers| == 0 then Burst(s, 0, 0)
    else
      var call := RefreshCall(s, callers[0]);
      var rest := RefreshBurst(call.state, callers[1..]);
      Burst(rest.state,
            rest.exchanges + (if call.start.ExchangeStarted? then 1 else 0),
            rest.rejected + (if call.start.Rejected? then 1 else 0))
  }

  /** While an exchange is in flight, further refresh calls only queue up,
      in call order, and change nothing else. */
  lemma {:induction false} BurstWhileRefreshingOnlyQueues(s: SessionState, callers: seq<CallerId>)
    requires HasRefreshToken(s) && s.isRefreshing
    ensures RefreshBurst(s, callers).exchanges == 0 && RefreshBurst(s, callers).rejected == 0
    ensures RefreshBurst(s, callers).state == s.(pendingRequests := s.pendingRequests + callers)
    decreases |callers|
  {
    if |callers| > 0 {
      var s1 := RefreshCall(s, callers[0]).state;
      BurstWhileRefreshingOnlyQueues(s1, callers[1..]);
      assert s.pendingRequests + [callers[0]] + callers[1..] == s.pendingRequests + callers;
    }
  }

  /** A burst of refresh calls on an idle gateway starts exactly one token
      exchange; every later caller waits on it, in call order. */
  lemma BurstStartsOneExchange(s: SessionState, callers: seq<CallerId>)
    requires HasRefreshToken(s) && !s.isRefreshing && Valid(s) && |callers| > 0
    ensures RefreshBurst(s, callers).exchanges == 1 && RefreshBurst(s, callers).rejected == 0
    ensures RefreshBurst(s, callers).state.isRefreshing
    ensures RefreshBurst(s, callers).state.pendingRequests == callers[1..]
  {
    var s1 := RefreshCall(s, callers[0]).state;
    BurstWhileRefreshingOnlyQueues(s1, callers[1..]);
  }

  /** Single flight end to end: a burst on an idle gateway followed by the
      exchange's completion gives every caller the same outcome (the first
      caller as its return value, the others through the queue) and leaves
      no waiter behind. */
  lemma BurstSharesOneOutcome(s: SessionState, callers: seq<CallerId>, exchange: Result<TokenSet, Error>, now: int, write: Result<(), IoError>)
    requires HasRefreshToken(s) && !s.isRefreshing && Valid(s) && |callers| > 0
    ensures RefreshBurst(s, callers).state.isRefreshing
    ensures var done := RefreshDone(RefreshBurst(s, callers).state, exchange, now, write);
            && |done.notified| == |callers| - 1
            && (forall i :: 1 <= i < |callers| ==> done.notified[i - 1] == (callers[i], done.outcome))
            && !done.state.isRefreshing && done.state.pendingRequests == []
  {
    BurstStartsOneExchange(s, callers);
  }

  /** After a successful refresh that returned a non-empty access token, the
      starting request and every waiting request resume with that token as
      their bearer header; after a failed one they all reject with the
      exchange's error. */
  lemma ResumedRequestsAgree(s: SessionState, exchange: Result<TokenSet, Error>, now: int, write: Result<(), IoError>)
    requires s.isRefreshing
    ensures var done := RefreshDone(s, exchange, now, write);
            && (exchange.Success? && TruthyStr(exchange.value.accessToken) ==>
                  Resume(done.state, done.outcome) == Proceed(Some(BearerPrefix + exchange.value.accessToken.value)))
            && (exchange.Failure? ==> Resume(done.state, done.outcome) == Reject(exchange.error))
            && (forall i :: 0 <= i < |done.notified| ==> Resume(done.state, done.notified[i].1) == Resume(done.state, done.outcome))
  {
  }

  /** After the token file is loaded with unexpired tokens, the interceptor
      lets requests through with those tokens' bearer header, both on the
      request that ran `init` and on any later one. */
  lemma InitLoadsTokensForInterceptor(s: SessionState, caller: CallerId, now: int,
                                      tokenFile: Result<TokenSet, IoError>, appFile: Result<AppInfo, IoError>,
                                      tokenFile': Result<TokenSet, IoError>, appFile': Result<AppInfo, IoError>)
    requires tokenFile.Success? && !Expired(Some(tokenFile.value), now)
    ensures s.tokens.None? ==>
              var r := Intercept(s, caller, now, tokenFile, appFile);
              r.initRan && r.refresh.None? && r.decision == Proceed(AuthHeader(Some(tokenFile.value)))
    ensures var loaded := Init(s, tokenFile, appFile).state;
            var r := Intercept(loaded, caller, now, tokenFile', appFile');
            && !r.initRan && r.refresh.None? && r.state == loaded
            && r.decision == Proceed(AuthHeader(Some(tokenFile.value)))
  {
  }

  /** Tokens obtained from an authorization code authorize every request
      made before they are due for refresh, with no further exchange. */
  lemma ExchangedTokensAuthorize(s: SessionState, exchange: Result<TokenSet, Error>, now: int, write: Result<(), IoError>,
                                 caller: CallerId, later: int,
                                 tokenFile: Result<TokenSet, IoError>, appFile: Result<AppInfo, IoError>)
    requires exchange.Success? && TruthyStr(exchange.value.accessToken)
    requires later < now + LifetimeSeconds(exchange.value.expiresIn) * 1000 - SafetyMarginMs
    ensures var r := Intercept(InitialTokensDone(s, exchange, now, write).0, caller, later, tokenFile, appFile);
            && !r.initRan && r.refresh.None?
            && r.decision == Proceed(Some(BearerPrefix + exchange.value.accessToken.value))
  {
  }

  /** Interceptions of requests from `callers`, in order, at one clock
      reading, with no refresh completing in between. */
  function InterceptBurst(s: SessionState, callers: seq<CallerId>, now: int,
                          tokenFile: Result<TokenSet, IoError>, appFile: Result<AppInfo, IoError>): Burst
    decreases |callers|
  {
    if |callers| == 0 then Burst(s, 0, 0)
    else
      var i := Intercept(s, callers[0], now, tokenFile, appFile);
      var rest := InterceptBurst(i.state, callers[1..], now, tokenFile, appFile);
      Burst(rest.state,
            rest.exchanges + (if i.refresh.Some? && i.refresh.value.ExchangeStarted? then 1 else 0),
            rest.rejected + (if i.decision.Reject? then 1 else 0))
  }

  /** With expired tokens held, the interceptor is exactly a refresh call:
      a burst of requests behaves as the same burst of refresh calls. */
  lemma {:induction false} InterceptBurstIsRefreshBurst(s: SessionState, callers: seq<CallerId>, now: int,
                                                        tokenFile: Result<TokenSet, IoError>, appFile: Result<AppInfo, IoError>)
    requires s.tokens.Some? && Expired(s.tokens, now)
    ensures InterceptBurst(s, callers, now, tokenFile, appFile) == RefreshBurst(s, callers)
    decreases |callers|
  {
    if |callers| > 0 {
      var call := RefreshCall(s, callers[0]);
      assert call.state.tokens == s.tokens;
      InterceptBurstIsRefreshBurst(call.state, callers[1..], now, tokenFile, appFile);
    }
  }

  /** Single flight at the interceptor: requests arriving with expired
      tokens on an idle gateway start exactly one exchange, reject none, and
      every request after the first waits for it, in arrival order. */
  lemma ExpiredRequestsStartOneExchange(s: SessionState, callers: seq<CallerId>, now: int,
                                        tokenFile: Result<TokenSet, IoError>, appFile: Result<AppInfo, IoError>)
    requires Expired(s.tokens, now) && HasRefreshToken(s) && !s.isRefreshing && Valid(s) && |callers| > 0
    ensures var b := InterceptBurst(s, callers, now, tokenFile, appFile);
            && b.exchanges == 1 && b.rejected == 0
            && b.state.isRefreshing && b.state.pendingRequests == callers[1..]
  {
    InterceptBurstIsRefreshBurst(s, callers, now, tokenFile, appFile);
    BurstStartsOneExchange(s, callers);
  }

  /** One step of the refresh machinery: a refresh call, or the completion of
      the exchange in flight. */
  datatype RefreshEvent =
    | Call(caller: CallerId)
    | Done(exchange: Result<TokenSet, Error>, now: int, write: Result<(), IoError>)

  datatype Trace = Trace(state: SessionState, started: nat, completed: nat)

  /** Runs `events` from `s`, counting exchanges started and completed. A
      completion while no exchange is in flight cannot occur and is skipped. */
  function RunRefresh(s: SessionState, events: seq<RefreshEvent>): Trace
    decreases |events|
  {
    if |events| == 0 then Trace(s, 0, 0)
    else
      match events[0]
      case Call(c) =>
        var call := RefreshCall(s, c);
        var rest := RunRefresh(call.state, events[1..]);
        rest.(started := rest.started + if call.start.ExchangeStarted? then 1 else 0)
      case Done(x, now, w) =>
        if s.isRefreshing then
          var rest := RunRefresh(RefreshDone(s, x, now, w).state, events[1..]);
          rest.(completed := rest.completed + 1)
        else RunRefresh(s, events[1..])
  }

  /** At most one token exchange is ever in flight: over any run, the
      exchanges started minus those completed always equal the change in
      `isRefreshing`, and the waiter queue stays empty while idle. Since the
      statement holds for every prefix of a run, the number in flight is 0
      or 1 at every point. */
  lemma {:induction false} AtMostOneExchangeInFlight(s: SessionState, events: seq<RefreshEvent>)
    requires Valid(s)
    ensures var t := RunRefresh(s, events);
            && Valid(t.state)
            && Flag(s.isRefreshing) + t.started == Flag(t.state.isRefreshing) + t.completed
    decreases |events|
  {
    if |events| > 0 {
      match events[0]
      case Call(c) =>
        AtMostOneExchangeInFlight(RefreshCall(s, c).state, events[1..]);
      case Done(x, now, w) =>
        if s.isRefreshing {
          AtMostOneExchangeInFlight(RefreshDone(s, x, now, w).state, events[1..]);
        } else {
          AtMostOneExchangeInFlight(s, events[1..]);
        }
    }
  }

  /** A gateway without a refresh token never starts an exchange and never
      touches the flag or the queue, however often refresh is called. */
  lemma {:induction false} NoRefreshTokenNeverExchanges(s: SessionState, callers: seq<CallerId>)
    requires !HasRefreshToken(s)
    ensures RefreshBurst(s, callers) == Burst(s, 0, |callers|)
    decreases |callers|
  {
    if |callers| > 0 {
      NoRefreshTokenNeverExchanges(s, callers[1..]);
    }
  }
}
