/** The plugin's HTTP entry points: request routing, the OAuth callback,
    the SmartApp lifecycle envelope and the start of the listening server.
    The HTTP server, the confirmation GET and the token exchange are effects
    (`Outbound`) or oracle arguments; JSON parsing is an oracle whose answer
    is passed in as a `ParseResult` value. */
module Webhook {
  import opened Wrappers
  import opened Json
  import opened Http
  import Tokens
  import Session
  import Platform

  /** The fixed internal port the server listens on. */
  const InternalPort: nat := 8999
  const ConfirmationLifecycle: string := "CONFIRMATION"
  const EventLifecycle: string := "EVENT"
  const DeviceEventType: string := "DEVICE_EVENT"

  /** A request method other than GET and POST. */
  type OtherVerbName = name: string | name != "GET" && name != "POST" witness ""

  datatype Verb = Get | Post | OtherVerb(name: OtherVerbName)

  /** The parts of an incoming request the handlers look at: the method,
      the URL's pathname, its `code` query parameter and the body text. */
  datatype Request = Request(verb: Verb, pathname: string, code: Option<string>, body: string)

  datatype Route = OAuthCallback | WebhookPost | NotFound

  /** Routing in `startWebhookServer`: GET on the redirect URI's path is the
      OAuth callback, every POST is the webhook, anything else is 404. */
  function RouteOf(verb: Verb, pathname: string, callbackPath: string): (r: Route)
    ensures r == OAuthCallback <==> verb == Get && pathname == callbackPath
    ensures r == WebhookPost <==> verb == Post
    ensures r == NotFound <==> verb != Post && (verb != Get || pathname != callbackPath)
  {
    if verb == Get && pathname == callbackPath then OAuthCallback
    else if verb == Post then WebhookPost
    else NotFound
  }

  /** Every request is served by exactly one of the three handlers. */
  lemma EachRequestHasOneHandler(verb: Verb, pathname: string, callbackPath: string)
    ensures Flag(verb == Get && pathname == callbackPath) + Flag(verb == Post)
          + Flag(RouteOf(verb, pathname, callbackPath) == NotFound) == 1
  {
  }

  /** A POST to the redirect URI's own path is a webhook, not a callback. */
  lemma PostOnCallbackPathIsWebhook(callbackPath: string)
    ensures RouteOf(Post, callbackPath, callbackPath) == WebhookPost
  {
  }

  datatype Body = Empty | TargetUrl(url: string) | AuthSucceededPage | AuthFailedPage | NotFoundText

  datatype Response = Response(status: nat, body: Body)

  /** Requests the handlers send out. */
  datatype Outbound = ConfirmGet(url: string) | ExchangeCode(code: string)

  datatype CallbackResult = CallbackResult(state: Session.SessionState, response: Response, outbound: seq<Outbound>)

  /** `_handleOAuthCallback`: with a non-empty `code` the response is 200 and
      exactly one code exchange follows, whose failure is swallowed; without
      one the response is 400 and nothing is exchanged. */
  function OAuthCallbackStep(s: Session.SessionState, code: Option<string>,
                             exchange: Result<Tokens.TokenSet, Error>, now: int,
                             write: Result<(), Session.IoError>): (r: CallbackResult)
    ensures TruthyStr(code) ==>
              && r.response == Response(200, AuthSucceededPage)
              && r.outbound == [ExchangeCode(code.value)]
              && (exchange.Success? ==> r.state == Session.SaveTokens(s, exchange.value, now, write))
              && (exchange.Success? ==> r.state.tokens == Some(Tokens.Stamp(exchange.value, now)))
              && (exchange.Failure? ==> r.state == s)
    ensures !TruthyStr(code) ==> r == CallbackResult(s, Response(400, AuthFailedPage), [])
    ensures r.state.installedAppId == s.installedAppId
    ensures r.state.isRefreshing == s.isRefreshing && r.state.pendingRequests == s.pendingRequests
  {
    if TruthyStr(code) then
      CallbackResult(Session.InitialTokensDone(s, exchange, now, write).0, Response(200, AuthSucceededPage), [ExchangeCode(code.value)])
    else
      CallbackResult(s, Response(400, AuthFailedPage), [])
  }

  /** A successful authorization callback gives the gateway a bearer that
      later requests carry until the new tokens are due for refresh. */
  lemma CallbackAuthorizesLaterRequests(s: Session.SessionState, code: Option<string>,
                                        exchange: Result<Tokens.TokenSet, Error>, now: int,
                                        write: Result<(), Session.IoError>, caller: CallerId, later: int,
                                        tokenFile: Result<Tokens.TokenSet, Session.IoError>,
                                        appFile: Result<Session.AppInfo, Session.IoError>)
    requires TruthyStr(code) && exchange.Success? && TruthyStr(exchange.value.accessToken)
    requires later < now + Tokens.LifetimeSeconds(exchange.value.expiresIn) * 1000 - Tokens.SafetyMarginMs
    ensures var r := Session.Intercept(OAuthCallbackStep(s, code, exchange, now, write).state, caller, later, tokenFile, appFile);
            r.decision == Session.Proceed(Some(Tokens.BearerPrefix + exchange.value.accessToken.value))
  {
    Session.ExchangedTokensAuthorize(s, exchange, now, write, caller, later, tokenFile, appFile);
  }

  // ---------------------------------------------------------------------
  // Lifecycle envelope

  datatype ConfirmationData = ConfirmationData(confirmationUrl: Option<string>)

  datatype EventEntry = EventEntry(eventType: Option<string>, deviceEvent: Option<Platform.DeviceEvent>)

  datatype EventData = EventData(events: Option<seq<EventEntry>>)

  datatype Payload = Payload(lifecycle: Option<string>, confirmationData: Option<ConfirmationData>, eventData: Option<EventData>)

  /** What `JSON.parse` of the body gives: `Malformed` when it throws or
      yields a value whose properties cannot be read. */
  datatype ParseResult = Malformed | Parsed(payload: Payload)

  predicate IsDeviceEvent(e: EventEntry) {
    e.eventType == Some(DeviceEventType)
  }

  /** Every DEVICE_EVENT entry carries its `deviceEvent` object. */
  predicate WellFormed(events: seq<EventEntry>) {
    forall i :: 0 <= i < |events| && IsDeviceEvent(events[i]) ==> events[i].deviceEvent.Some?
  }

  /** The device events of the DEVICE_EVENT entries, in list order, up to the
      first such entry without a payload. */
  function DeviceEvents(events: seq<EventEntry>): seq<Platform.DeviceEvent> {
    if events == [] then []
    else if !IsDeviceEvent(events[0]) then DeviceEvents(events[1..])
    else match events[0].deviceEvent
      case None => []
      case Some(ev) => [ev] + DeviceEvents(events[1..])
  }

  /** The reference behaviour of a batch: `processDeviceEvent` applied to
      each device event in turn, effects concatenated. */
  function ApplyDeviceEvents(p: Platform.PlatformState, evs: seq<Platform.DeviceEvent>, now: int): Platform.EventStep
    decreases |evs|
  {
    if evs == [] then Platform.EventStep(p, [])
    else
      var step := Platform.ProcessDeviceEvent(p, evs[0], now);
      var rest := ApplyDeviceEvents(step.state, evs[1..], now);
      Platform.EventStep(rest.state, step.actions + rest.actions)
  }

  datatype EventsRun = EventsRun(state: Platform.PlatformState, actions: seq<Platform.Action>, complete: bool)

  /** The loop over `payload.eventData.events`: each DEVICE_EVENT entry goes
      through `processDeviceEvent` in order and the rest are skipped; a
      DEVICE_EVENT entry without its payload throws, which ends the loop
      with the earlier entries' effects kept. */
  function ProcessEvents(p: Platform.PlatformState, events: seq<EventEntry>, now: int): (r: EventsRun)
    ensures r.complete <==> WellFormed(events)
    ensures r.state == ApplyDeviceEvents(p, DeviceEvents(events), now).state
    ensures r.actions == ApplyDeviceEvents(p, DeviceEvents(events), now).actions
    ensures r.state.session == p.session
    ensures r.state.accessories.Keys == p.accessories.Keys
    ensures DeviceEvents(events) == [] ==> r.state == p && r.actions == []
    decreases |events|
  {
    if events == [] then EventsRun(p, [], true)
    else if !IsDeviceEvent(events[0]) then
      var rest := ProcessEvents(p, events[1..], now);
      assert WellFormed(events) <==> WellFormed(events[1..]) by {
        assert forall i :: 0 < i < |events| ==> events[i] == events[1..][i - 1];
      }
      rest
    else match events[0].deviceEvent
      case None => EventsRun(p, [], false)
      case Some(ev) =>
        var step := Platform.ProcessDeviceEvent(p, ev, now);
        var rest := ProcessEvents(step.state, events[1..], now);
        assert WellFormed(events) <==> WellFormed(events[1..]) by {
          assert forall i :: 0 < i < |events| ==> events[i] == events[1..][i - 1];
        }
        assert ([ev] + DeviceEvents(events[1..]))[1..] == DeviceEvents(events[1..]);
        EventsRun(rest.state, step.actions + rest.actions, rest.complete)
  }

  /** The events among `evs` whose device has an accessory. */
  function Registered(evs: seq<Platform.DeviceEvent>, ids: set<DeviceId>): seq<Platform.DeviceEvent> {
    if evs == [] then []
    else if evs[0].deviceId in ids then [evs[0]] + Registered(evs[1..], ids)
    else Registered(evs[1..], ids)
  }

  /** The cache patches among `actions`, in order. */
  function Patches(actions: seq<Platform.Action>): seq<Platform.DeviceEvent> {
    if actions == [] then []
    else if actions[0].CachePatched? then [actions[0].event] + Patches(actions[1..])
    else Patches(actions[1..])
  }

  lemma {:induction false} PatchesAppend(a: seq<Platform.Action>, b: seq<Platform.Action>)
    ensures Patches(a + b) == Patches(a) + Patches(b)
    decreases |a|
  {
    if a == [] {
      assert a + b == b;
    } else {
      assert (a + b)[1..] == a[1..] + b;
      PatchesAppend(a[1..], b);
    }
  }

  /** An EVENT batch patches the status cache once per device event of a
      registered device, in list order, and for no other event. */
  lemma {:induction false} EventsPatchInOrder(p: Platform.PlatformState, events: seq<EventEntry>, now: int)
    ensures Patches(ProcessEvents(p, events, now).actions) == Registered(DeviceEvents(events), p.accessories.Keys)
    decreases |events|
  {
    if events == [] {
    } else if !IsDeviceEvent(events[0]) {
      EventsPatchInOrder(p, events[1..], now);
    } else if events[0].deviceEvent.Some? {
      var ev := events[0].deviceEvent.value;
      var step := Platform.ProcessDeviceEvent(p, ev, now);
      EventsPatchInOrder(step.state, events[1..], now);
      PatchesAppend(step.actions, ProcessEvents(step.state, events[1..], now).actions);
      var tail := DeviceEvents(events[1..]);
      assert DeviceEvents(events) == [ev] + tail;
      assert ([ev] + tail)[1..] == tail;
      if ev.deviceId in p.accessories {
        assert step.actions == [step.actions[0]] + step.actions[1..];
        assert Patches(step.actions[1..]) == [] by {
          if |step.actions| == 2 {
            assert step.actions[1..][1..] == [];
          }
        }
        PatchesAppend([step.actions[0]], step.actions[1..]);
      }
    }
  }

  datatype WebhookResult = WebhookResult(state: Platform.PlatformState, response: Response,
                                         outbound: seq<Outbound>, actions: seq<Platform.Action>)

  /** The confirmation URL when the payload is a CONFIRMATION carrying a
      non-empty one. */
  function ConfirmationUrl(payload: Payload): Option<string> {
    if payload.lifecycle == Some(ConfirmationLifecycle) && payload.confirmationData.Some?
       && TruthyStr(payload.confirmationData.value.confirmationUrl)
    then payload.confirmationData.value.confirmationUrl
    else None
  }

  /** `_handleWebhookConfirmation`. `accepts(url)` says whether the
      confirmation GET can be issued at all (an unusable URL makes it throw
      before any response is written). */
  function HandleWebhook(p: Platform.PlatformState, parsed: ParseResult, accepts: string -> bool,
                         redirectUri: string, now: int): (r: WebhookResult)
    ensures parsed.Malformed? ==> r == WebhookResult(p, Response(400, Empty), [], [])
    ensures parsed.Parsed? && ConfirmationUrl(parsed.payload).Some? ==>
              var url := ConfirmationUrl(parsed.payload).value;
              && r.state == p && r.actions == []
              && (accepts(url) ==> r.response == Response(200, TargetUrl(redirectUri)) && r.outbound == [ConfirmGet(url)])
              && (!accepts(url) ==> r.response == Response(400, Empty) && r.outbound == [])
    ensures parsed.Parsed? && parsed.payload.lifecycle != Some(EventLifecycle) && ConfirmationUrl(parsed.payload).None? ==>
              r == WebhookResult(p, Response(200, Empty), [], [])
    ensures parsed.Parsed? && parsed.payload.lifecycle == Some(EventLifecycle) ==>
              var payload := parsed.payload;
              && r.outbound == []
              && (payload.eventData.None? || payload.eventData.value.events.None? ==>
                    r == WebhookResult(p, Response(400, Empty), [], []))
              && (payload.eventData.Some? && payload.eventData.value.events.Some? ==>
                    var events := payload.eventData.value.events.value;
                    && r.state == ProcessEvents(p, events, now).state
                    && r.actions == ProcessEvents(p, events, now).actions
                    && r.response == Response(if WellFormed(events) then 200 else 400, Empty))
    ensures r.outbound != [] ==> r.response.status == 200
    ensures r.state.session == p.session
  {
    match parsed
    case Malformed => WebhookResult(p, Response(400, Empty), [], [])
    case Parsed(payload) =>
      if ConfirmationUrl(payload).Some? then
        var url := ConfirmationUrl(payload).value;
        if accepts(url) then WebhookResult(p, Response(200, TargetUrl(redirectUri)), [ConfirmGet(url)], [])
        else WebhookResult(p, Response(400, Empty), [], [])
      else if payload.lifecycle == Some(EventLifecycle) then
        if payload.eventData.None? || payload.eventData.value.events.None? then
          WebhookResult(p, Response(400, Empty), [], [])
        else
          var run := ProcessEvents(p, payload.eventData.value.events.value, now);
          WebhookResult(run.state, Response(if run.complete then 200 else 400, Empty), [], run.actions)
      else WebhookResult(p, Response(200, Empty), [], [])
  }

  /** A CONFIRMATION leaves the whole platform state as it was: in particular
      no app info is recorded. */
  lemma ConfirmationKeepsState(p: Platform.PlatformState, payload: Payload, accepts: string -> bool, redirectUri: string, now: int)
    requires payload.lifecycle == Some(ConfirmationLifecycle)
    ensures HandleWebhook(p, Parsed(payload), accepts, redirectUri, now).state == p
    ensures HandleWebhook(p, Parsed(payload), accepts, redirectUri, now).actions == []
  {
  }

  /** An EVENT with an empty list is answered 200 and does nothing. */
  lemma EmptyEventBatchIsAcknowledged(p: Platform.PlatformState, redirectUri: string, accepts: string -> bool, now: int)
    ensures HandleWebhook(p, Parsed(Payload(Some(EventLifecycle), None, Some(EventData(Some([]))))), accepts, redirectUri, now)
         == WebhookResult(p, Response(200, Empty), [], [])
  {
  }

  datatype ServeResult = ServeResult(state: Platform.PlatformState, response: Response,
                                     outbound: seq<Outbound>, actions: seq<Platform.Action>)

  /** One request from arrival to the handlers' last effect. `parse` stands
      for `JSON.parse` and `exchange` for the code exchange's answer. */
  function Serve(p: Platform.PlatformState, req: Request, callbackPath: string, redirectUri: string,
                 parse: string -> ParseResult, accepts: string -> bool,
                 exchange: Result<Tokens.TokenSet, Error>, now: int,
                 write: Result<(), Session.IoError>): (r: ServeResult)
    ensures RouteOf(req.verb, req.pathname, callbackPath) == NotFound ==>
              r == ServeResult(p, Response(404, NotFoundText), [], [])
    ensures RouteOf(req.verb, req.pathname, callbackPath) == OAuthCallback ==>
              var c := OAuthCallbackStep(p.session, req.code, exchange, now, write);
              r == ServeResult(p.(session := c.state), c.response, c.outbound, [])
    ensures RouteOf(req.verb, req.pathname, callbackPath) == WebhookPost ==>
              var w := HandleWebhook(p, parse(req.body), accepts, redirectUri, now);
              r == ServeResult(w.state, w.response, w.outbound, w.actions)
    ensures r.state.accessories.Keys == p.accessories.Keys
  {
    match RouteOf(req.verb, req.pathname, callbackPath)
    case OAuthCallback =>
      var c := OAuthCallbackStep(p.session, req.code, exchange, now, write);
      ServeResult(p.(session := c.state), c.response, c.outbound, [])
    case WebhookPost =>
      var w := HandleWebhook(p, parse(req.body), accepts, redirectUri, now);
      assert w.state.accessories.Keys == p.accessories.Keys;
      ServeResult(w.state, w.response, w.outbound, w.actions)
    case NotFound => ServeResult(p, Response(404, NotFoundText), [], [])
  }

  // ---------------------------------------------------------------------
  // Server start

  datatype Server = NoServer | Server(listening: bool)

  datatype ServerAction = CloseOld | Listen(port: nat)

  /** The server afterwards, the effects in order, and whether the start
      threw. */
  datatype Start = Start(server: Server, actions: seq<ServerAction>, thrown: bool)

  /** `startWebhookServer`: nothing when a server is already listening;
      otherwise a leftover server is closed and dropped, the redirect URI is
      parsed for its path, and a new server starts listening on the internal
      port. A redirect URI that is not a URL throws after the old server is
      gone, leaving none. */
  function StartWebhookServer(s: Server, redirectIsUrl: bool): (r: Start)
    ensures s.Server? && s.listening ==> r == Start(s, [], false)
    ensures !(s.Server? && s.listening) ==>
              && r.thrown == !redirectIsUrl
              && r.actions == (if s.Server? then [CloseOld] else []) + (if redirectIsUrl then [Listen(InternalPort)] else [])
              && r.server == (if redirectIsUrl then Server(false) else NoServer)
    ensures r.thrown ==> r.server.NoServer? && Listen(InternalPort) !in r.actions
    ensures CloseOld in r.actions <==> s.Server? && !s.listening
  {
    match s
    case Server(true) => Start(s, [], false)
    case _ =>
      var closed := if s.Server? then [CloseOld] else [];
      if redirectIsUrl then Start(Server(false), closed + [Listen(InternalPort)], false)
      else Start(NoServer, closed, true)
  }

  /** The listen callback (or the error event) settles whether the new
      server is listening. */
  function ListenSettled(s: Server, bound: bool): (r: Server)
    ensures s.Server? ==> r == Server(bound)
    ensures s.NoServer? ==> r == s
  {
    if s.Server? then Server(bound) else s
  }

  /** Once bound, starting again changes nothing. */
  lemma StartIsIdempotentOnceBound(s: Server, redirectIsUrl: bool, again: bool)
    requires redirectIsUrl || (s.Server? && s.listening)
    ensures var started := StartWebhookServer(s, redirectIsUrl).server;
            StartWebhookServer(ListenSettled(started, true), again) == Start(Server(true), [], false)
  {
  }
}
