# SmartThings air-conditioner plugin for Homebridge, in Dafny

This project is a Dafny model of the core of `homebridge-smartthings-acs`. The
plugin exposes Samsung air conditioners controlled through SmartThings as
HomeKit HeaterCooler accessories. The model covers two layers:

- The **SmartThings API gateway** (`lib/SmartThings.js`):
  - the OAuth token record and its expiry stamp;
  - the request interceptor that runs `init`, refreshes, or attaches the
    bearer header;
  - the single-flight refresh guard (`isRefreshing` plus a FIFO of waiters);
  - the client's retry rule;
  - the 10-second status cache with its per-device map of outstanding fetches;
  - in-place cache patches, command sends, subscriptions and the device list.
- The **platform** (`index.js`):
  - request routing of the webhook/OAuth server and the OAuth callback;
  - dispatch of the SmartApp lifecycle envelope (CONFIRMATION, EVENT, other);
  - the mapping from a device event to a characteristic update;
  - the HeaterCooler characteristic getters and setters;
  - label matching during device discovery;
  - the start of the listening server.

Everything is an immutable datatype plus a pure step function. Asynchrony is
explicit. A refresh or a status fetch is *started* by one step
(`Session.RefreshCall`, `StatusCache.GetStatus`). It is *completed* by another
(`Session.RefreshDone`, `StatusCache.FetchDone`) that carries the network's ok
or error answer. Callers waiting on a shared promise are identified by
`CallerId`s, so "every waiter gets the same outcome" is a statement about a
list. Clocks are integer parameters in milliseconds. File reads and writes,
token exchanges, HTTP posts and `JSON.parse` are values or functions passed in
by the caller.

Modules, one per file:

| module | file | models |
|---|---|---|
| `Wrappers` | wrappers.dfy | `Option` and `Result` |
| `Json` | json.dfy | JSON scalars, status snapshots, the command record |
| `Http` | http.dfy | error kinds, the retry condition and the retry budget |
| `Tokens` | tokens.dfy | token record, `expires_at` stamp, bearer header |
| `Session` | session.dfy | `init`, `saveTokens`, `refreshToken`/`onRefreshed`, the interceptor, `getInitialTokens` |
| `StatusCache` | status_cache.dfy | `getStatus`, `updateDeviceStatusCache`, `sendCommand` |
| `Api` | api.dfy | `createSubscription`, `getDevices` |
| `HeaterCooler` | heater_cooler.dfy | getters and setters of `setupHeaterCoolerService`, the event-to-characteristic switch |
| `Platform` | platform.dfy | `processDeviceEvent`, `normalizeKorean`, `discoverDevices`, `addOrUpdateAccessory` |
| `Webhook` | webhook.dfy | routing, `_handleOAuthCallback`, `_handleWebhookConfirmation`, `startWebhookServer` |

Where the code and its documentation disagree, the model follows the code:

- A CONFIRMATION request does not record any app information. The handler
  never calls `saveAppInfo`.
- `createSubscription` never fails. A 409 is silent, and every other error is
  only logged.
- A POST goes to the webhook handler on every path, including the OAuth
  redirect path.
- The characteristic getters look up a status record under the *last dot
  segment* of the capability name. The cache patch from a live event writes
  under the *full* capability name. For the two `custom.*` capabilities the
  getters therefore never see a patched value. `HeaterCooler.PatchInvisibleToDottedRead`
  and `HeaterCooler.CustomEventPatchesAreNotRead` prove this, and the model
  keeps the behaviour as written.

## Model

| member | source | states |
|---|---|---|
| `Http.Send` | lib/SmartThings.js:27-37 | The client makes between 1 and 4 attempts. Every attempt before the last failed with a retry-eligible error. A failure is surfaced only when it is not retry-eligible or all 3 retries are spent. |
| `Http.RetryEligible` | lib/SmartThings.js:33-36 | Only errors axios produced are retried. A 429, any 5xx, and any network or idempotent-request error are retried. A 4xx other than 429, a status below 400 or no status at all is retried only when the error is network or idempotent. |
| `Http.ClientErrorNotRetried` | lib/SmartThings.js:33-36 | A 4xx other than 429 (not a network or idempotent-request error) is surfaced after exactly one attempt. |
| `Http.PersistentFailureExhaustsRetries` | lib/SmartThings.js:27-28 | With retry-eligible failures throughout, exactly 4 attempts are made and the fourth failure is surfaced. |
| `Http.RateLimitedExhaustsRetries` | lib/SmartThings.js:27-36 | A 429 on every attempt is retried until the budget is spent: 4 attempts, and the last 429 is surfaced. |
| `Http.FirstSuccessIsDelivered` | lib/SmartThings.js:27-37 | If the first success comes at attempt k ≤ 3 after retriable failures, that success is delivered after k+1 attempts. |
| `Tokens.Stamp` | lib/SmartThings.js:135-138 | Saving keeps every field of the response. It sets `expires_at` so that `expires_at + 60000 − now` is the lifetime in ms, where the lifetime is `expires_in` when truthy and 3600 s otherwise. |
| `Tokens.AuthHeader` | lib/SmartThings.js:53-55 | A header exists iff tokens with a non-empty access token are held. Reading the token back out of the header gives that access token. |
| `Tokens.Expired` | lib/SmartThings.js:49 | Tokens count as expired only when held, stamped, and the stamp is reached. A zero stamp never expires. |
| `Tokens.ExpiryIsMonotone` | lib/SmartThings.js:49 | Once expired at some time, tokens stay expired at every later time. |
| `Tokens.StampedTokenExpiry` | lib/SmartThings.js:49-51 | A freshly stamped token counts as expired exactly from `now + lifetime·1000 − 60000` on. |
| `Tokens.FalsyLifetimeMeansOneHour` | lib/SmartThings.js:137 | `expires_in` of 0 or absent gives `expires_at = now + 3,540,000`. |
| `Session.SaveTokens` | lib/SmartThings.js:135-144 | The in-memory tokens become the stamped response whether or not the file write succeeds. Nothing else changes. |
| `Session.Init` | lib/SmartThings.js:67-77 | Returns true iff both files read and parse. Tokens are set as soon as the token file parses, even when the app-info read fails afterwards. `installedAppId` is taken from app info only on success. |
| `Session.RefreshCall` | lib/SmartThings.js:103-108 | Without a refresh token the call fails at once with nothing changed. While refreshing it only appends the caller to the queue. Otherwise it sets the flag and starts one exchange with the held refresh token. |
| `Session.RefreshDone` | lib/SmartThings.js:112-132 | Clears the flag and empties the queue. Every waiter is settled, in queue order, with the starter's outcome: the new access token after a successful save, or the exchange's error with the tokens unchanged. |
| `Session.Intercept` | lib/SmartThings.js:46-57 | `init` runs iff no tokens are held. With the tokens held after that, expired tokens make the request exactly one refresh call: its state change and its start (exchange, queueing or rejection) are the interceptor's. The request is rejected iff that refresh call rejects it, and a rejection leaves the flag and queue alone. Unexpired tokens change nothing beyond `init`, and the request proceeds with their bearer header. |
| `Session.Resume` | lib/SmartThings.js:50-55 | After the awaited refresh, a failure is rethrown. A success always lets the request proceed, with the header of the tokens then held. |
| `Session.InitialTokensDone` | lib/SmartThings.js:80-101 | A successful code exchange is exactly a token save: only the tokens change, and the refresh flag and the waiter queue are kept. On failure nothing changes and InitialTokensFailed is raised. |
| `Session.InitLoadsTokensForInterceptor` | lib/SmartThings.js:47-55 | With unexpired tokens in the token file, the request that runs `init` and every later request proceed with those tokens' bearer header, and no refresh starts. |
| `Session.ExchangedTokensAuthorize` | lib/SmartThings.js:49-55 | After a code exchange that returned an access token, every request made before the new tokens are due for refresh proceeds with `Bearer <token>`, with no `init` and no refresh. |
| `Session.InterceptBurstIsRefreshBurst` | lib/SmartThings.js:49-51 | With expired tokens held, a burst of intercepted requests changes the state exactly as the same burst of refresh calls does. |
| `Session.ExpiredRequestsStartOneExchange` | lib/SmartThings.js:49-51 | Requests arriving with expired tokens on an idle gateway start exactly one exchange and none is rejected. Every request after the first waits for it, in arrival order. |
| `Session.BurstWhileRefreshingOnlyQueues` | lib/SmartThings.js:105-107 | During an exchange, any number of refresh calls start no exchange and only append the callers, in order. |
| `Session.BurstStartsOneExchange` | lib/SmartThings.js:103-108 | A burst of calls on an idle gateway starts exactly one exchange. All later callers wait in call order. |
| `Session.BurstSharesOneOutcome` | lib/SmartThings.js:62-65 | After that burst and the exchange's completion, every waiting caller receives the same outcome and no waiter is left. |
| `Session.ResumedRequestsAgree` | lib/SmartThings.js:123-131 | All requests resumed after a refresh get the same bearer header on success and the same error on failure. |
| `Session.AtMostOneExchangeInFlight` | lib/SmartThings.js:105-132 | Over any sequence of calls and completions, exchanges started minus exchanges completed equals the change in the flag, so at most one is in flight. The queue is empty whenever idle. |
| `Session.NoRefreshTokenNeverExchanges` | lib/SmartThings.js:104 | Without a refresh token every call is rejected. No exchange starts and the state is untouched. |
| `StatusCache.CacheKeyInjective` | lib/SmartThings.js:175 | Distinct device ids have distinct `status-<id>` keys. |
| `StatusCache.Live` | lib/SmartThings.js:40 | A cache read at `now` returns an entry iff it exists and is at most 10 s old. |
| `StatusCache.StaleStaysStale` | lib/SmartThings.js:40 | An entry older than the 10 s TTL stays expired as time advances. |
| `StatusCache.GetStatus` | lib/SmartThings.js:174-197 | A live entry is returned with no fetch. Otherwise the caller joins the device's outstanding fetch, and a fetch starts iff none was outstanding. |
| `StatusCache.FetchDone` | lib/SmartThings.js:182-194 | The device's in-flight marker is removed on both paths. A success is cached under `status-<d>`; a failure surfaces as StatusFetchFailed. Every holder of the promise gets that one outcome, in order. |
| `StatusCache.SetValue` | lib/SmartThings.js:203-205 | Sets `[capability][attribute].value` and creates missing levels. The record's other fields, the capability's other attributes and every other capability are unchanged. |
| `StatusCache.Patch` | lib/SmartThings.js:199-209 | With no live entry for the device, nothing happens. Otherwise only that entry changes: its snapshot gets the value, and it is stored again at `now`. |
| `StatusCache.PatchThenReadIsHit` | lib/SmartThings.js:199-209 | A read within the TTL after a patch of a live entry hits the cache. No fetch starts, and the read sees the patched value and the rest of the snapshot. |
| `StatusCache.PatchOnColdCacheThenReadFetches` | lib/SmartThings.js:199-202 | A patch on a cold cache is dropped. The next read starts a fetch. |
| `StatusCache.BurstJoinsOutstandingFetch` | lib/SmartThings.js:179-181 | Reads arriving while a fetch is outstanding start no fetch and join its holders in arrival order. |
| `StatusCache.ColdBurstFetchesOnce` | lib/SmartThings.js:179-196 | Reads on a cold cache with nothing outstanding start exactly one fetch, held by all readers in order. |
| `StatusCache.ColdBurstSharesOneOutcome` | lib/SmartThings.js:182-194 | When that fetch completes, every reader gets the same outcome and the marker is gone. |
| `StatusCache.SendCommand` | lib/SmartThings.js:211-216 | The device's cache entry is deleted and nothing else in the cache changes. The body's `commands` is `[cmd]` for one command and the array itself otherwise. The path is `/devices/<d>/commands`. |
| `StatusCache.CommandAlwaysInvalidates` | lib/SmartThings.js:211-214 | Invalidation does not depend on the post's outcome. The next read of the device never comes from the cache. |
| `Api.GetDevices` | lib/SmartThings.js:169-172 | Returns `items`, or `[]` when absent. A failed call is passed on. |
| `Api.CreateSubscription` | lib/SmartThings.js:153-167 | No request without a truthy installedAppId. Otherwise one POST to `/installedapps/<id>/subscriptions` with `stateChangeOnly` true. It never fails: 409 is silent and other errors are only logged. |
| `Api.ConflictIsQuietAndNotRetried` | lib/SmartThings.js:162-166 | A 409 is sent once, not retried, and reported as already subscribed. |
| `HeaterCooler.LastSegment` | index.js:278 | The result is a dot-free suffix of the name, and it is preceded by a dot whenever it is shorter than the name. |
| `HeaterCooler.DotFreeIsOwnSegment` | index.js:278 | A dot-free name is its own last segment. |
| `HeaterCooler.DottedIsNotOwnSegment` | index.js:278 | A dotted name is never its own last segment. |
| `HeaterCooler.SegmentAfterDot` | index.js:278 | The last segment of `prefix.segment` is `segment` for a dot-free segment. |
| `HeaterCooler.ReadStatus` | index.js:276-280 | Reads the `value` of the record under the capability's last segment and the attribute. A missing level or a null value gives the default. |
| `HeaterCooler.PatchIsReadBack` | index.js:276-280 | For a dot-free capability, a value written into the snapshot is what the lookup returns. |
| `HeaterCooler.PatchInvisibleToDottedRead` | index.js:276-280 | For a dotted capability, a write under the full name does not change what the lookup returns. |
| `HeaterCooler.CustomCapabilitySegments` | index.js:281-284 | The two custom capability names are dotted, and their last segments are `airConditionerOptionalMode` and `autoCleaningMode`. |
| `HeaterCooler.ModeState` | index.js:300-304 | COOLING iff the mode is cool or dry, HEATING iff heat, IDLE for anything else. |
| `HeaterCooler.ActiveGetter` | index.js:289 | 1 iff the switch reads 'on' (default 'off'), else 0. |
| `HeaterCooler.CurrentStateGetter` | index.js:296-305 | INACTIVE iff power reads 'off', with a single status read. Otherwise it reads the mode (a second read) and maps it through `ModeState`. |
| `HeaterCooler.TemperatureGetter` | index.js:326 | The stored temperature under `temperatureMeasurement`, or 20 when it is missing or null. |
| `HeaterCooler.CoolingSetpointGetter` | index.js:333 | The stored setpoint under `thermostatCoolingSetpoint`, or 24 when it is missing or null. |
| `HeaterCooler.SwingModeGetter` | index.js:343 | 1 iff the optional mode reads 'windFree', else 0. |
| `HeaterCooler.LockGetter` | index.js:353 | 1 iff auto-cleaning reads 'on', else 0. |
| `HeaterCooler.EmptySnapshotDefaults` | index.js:289-353 | On an empty snapshot every getter gives its default: 0, INACTIVE, 20, 24, 0, 0. |
| `HeaterCooler.ActiveSetter` | index.js:289-290 | Sends a `switch` command with no arguments, `off` for anything but 1. For every status, the switch value the command asks for reads back through the Active getter as 1 iff the request was 1. |
| `HeaterCooler.TargetStateSetter` | index.js:296-320 | Sends a command iff the value is COOL: `setAirConditionerMode` with one argument. While the unit is on, that mode reads back as COOLING through the current-state getter. |
| `HeaterCooler.CoolingSetpointSetter` | index.js:333-337 | Sends `setCoolingSetpoint` on `thermostatCoolingSetpoint` with one argument. For every status and every default, the status lookup of that argument gives the requested value; a null request reads back as the default. The setpoint getter therefore reads back any non-null request. |
| `HeaterCooler.SwingModeSetter` | index.js:343-347 | Sends `setAcOptionalMode` on the full custom capability with one argument, 'off' for anything but 1. That argument reads back through the SwingMode getter as 1 iff the request was 1, when the status keys the mode under the last segment. |
| `HeaterCooler.LockSetter` | index.js:353-357 | Sends `setAutoCleaningMode` on the full custom capability with one argument, 'off' for anything but 1. That argument reads back through the lock getter as 1 iff the request was 1, under the same keying. |
| `HeaterCooler.ActiveSetThenGet` | index.js:289-290 | Setting Active to 0 or 1 and reading back a status holding the commanded switch value gives the same value. |
| `HeaterCooler.SetpointSetThenGet` | index.js:333-337 | A non-null requested setpoint is what the setpoint getter, and the status lookup with any default, reads back from a status holding the command's argument. |
| `HeaterCooler.CustomSetThenGet` | index.js:343-357 | The same round trip for SwingMode and Lock holds when the status keys the mode under the last segment. |
| `HeaterCooler.CoolRequestReadsAsCooling` | index.js:296-320 | COOL asks for 'dry', which the state getter reports as COOLING while the unit is on. |
| `HeaterCooler.EventUpdate` | index.js:165-196 | No update iff the joined key is unlisted, or it is the mode key while Active is not 1. Otherwise: switch sets Active to 1 iff 'on'; mode sets the current state via `ModeState`; temperature and setpoint pass the value; acOptionalMode sets 1 iff 'windFree'; autoCleaningMode sets 1 iff 'on'. |
| `HeaterCooler.SwitchEventAgreesWithGetter` | index.js:166-167 | A switch event sets Active to what the getter reads from a status holding that value. |
| `HeaterCooler.ModeEventAgreesWithGetter` | index.js:169-182 | While on, a mode event sets the current state the getter would read. |
| `HeaterCooler.TemperatureEventAgreesWithGetter` | index.js:184-186 | A temperature event sets what the temperature getter would read. |
| `HeaterCooler.SetpointEventAgreesWithGetter` | index.js:187-189 | A setpoint event sets what the setpoint getter would read. |
| `HeaterCooler.SwingEventAgreesWithGetter` | index.js:190-192 | An optional-mode event sets SwingMode to what the getter reads when the status keys the mode under its last segment. |
| `HeaterCooler.LockEventAgreesWithGetter` | index.js:193-195 | The same for the auto-cleaning event and LockPhysicalControls. |
| `HeaterCooler.CustomEventPatchesAreNotRead` | index.js:190-195 | The cache patch a custom event causes leaves both custom getters' readings unchanged. |
| `HeaterCooler.EventKeyIsAmbiguous` | index.js:165 | Capability `custom` with attribute `autoCleaningMode.autoCleaningMode` is dispatched exactly like the auto-cleaning event. |
| `Platform.ProcessDeviceEvent` | index.js:154-197 | Without an accessory nothing happens, not even a cache patch. Otherwise the cache is patched once, first, with the event's four fields. At most one characteristic then changes, and only on that accessory. |
| `Platform.SwitchEventSetsActive` | index.js:166-167 | A switch event on a registered accessory with a service updates it, and Active ends up 1 iff the value is 'on'. |
| `Platform.Trim` | index.js:16 | The result neither starts nor ends with white space. |
| `Platform.TrimRemovesOnlySpace` | index.js:16 | The result is a contiguous stretch of the input with only white space before and after it. |
| `Platform.TrimKeepsTrimmed` | index.js:16 | A string without surrounding white space is unchanged by trimming. |
| `Platform.TrimIdempotent` | index.js:16 | Trimming twice is trimming once. |
| `Platform.Normalize` | index.js:16 | The result is the NFC form of the label (of '' when absent) with only leading and trailing white space removed: a contiguous stretch of it, with nothing but white space around. It is its own trim, and a missing label normalises like the empty one. |
| `Platform.MissingLabelMatchesEmpty` | index.js:16 | A device without a label matches a configured empty label, and the other way round. |
| `Platform.NormalizeKeepsTrimmedLabel` | index.js:16 | A label whose NFC form has no surrounding white space normalises to that form, so two such labels match iff their NFC forms are equal. |
| `Platform.FindDevice` | index.js:210 | Returns the index of the first device whose normalised label equals the normalised configured label, or none when no device matches. |
| `Platform.Register` | index.js:219-275 | Afterwards the device has an accessory with a HeaterCooler service. An existing accessory keeps its name and its service, or gets a fresh service if it had none. A new accessory is named after the label and gets a fresh service. Other accessories are unchanged. |
| `Platform.Discover` | index.js:204-217 | A failed listing changes nothing. Otherwise each configured label, in order, is bound to its first match or to nothing. Exactly the bound devices are added. A bound device's existing accessory keeps its name and its service, or gets a fresh one. A bound device without an accessory gets one named after the first label bound to it, with a fresh service. Unbound accessories are unchanged. |
| `Platform.DiscoverFromPage` | index.js:204-217 | Discovery from the raw `/devices` response. A failed call changes nothing. A page without `items` binds no label and leaves every accessory as it was. A page with items binds each label to its first match, and the accessories change as in `Platform.Discover`. |
| `Webhook.RouteOf` | index.js:73-83 | OAuth callback iff GET on the redirect path. Webhook iff POST. 404 otherwise. |
| `Webhook.EachRequestHasOneHandler` | index.js:73-83 | Exactly one of the three handlers serves each request. |
| `Webhook.PostOnCallbackPathIsWebhook` | index.js:77-79 | A POST on the redirect path goes to the webhook. |
| `Webhook.OAuthCallbackStep` | index.js:106-121 | With a non-empty code: 200 and exactly one code exchange. Success is exactly a token save, and failure leaves the session unchanged and is not rethrown. Without a code: 400, no exchange, nothing changed. The refresh flag and waiter queue are never touched. |
| `Webhook.CallbackAuthorizesLaterRequests` | index.js:106-113 | After a callback whose code exchange returned an access token, requests made before the new tokens are due for refresh carry `Bearer <token>`. |
| `Webhook.ProcessEvents` | index.js:138-142 | The state and effects are exactly those of applying `processDeviceEvent` to each device event in list order. The batch completes iff every DEVICE_EVENT entry carries its payload, and a batch with no device event changes nothing. |
| `Webhook.EventsPatchInOrder` | index.js:137-143 | The cache is patched once per device event of a registered device, in list order, and for no other entry. |
| `Webhook.HandleWebhook` | index.js:123-151 | Unparseable body: 400 and no effect. CONFIRMATION with a non-empty URL: one GET to it and 200 `{targetUrl}`, or 400 if the GET cannot be issued; the state is unchanged. EVENT: the events are processed, then 200, or 400 when `eventData.events` is missing or an entry is malformed. Anything else: 200 with an empty body. |
| `Webhook.ConfirmationKeepsState` | index.js:126-136 | A CONFIRMATION changes no state and processes no event: no app info is recorded. |
| `Webhook.EmptyEventBatchIsAcknowledged` | index.js:137-143 | An EVENT with an empty list gets 200 and has no effect. |
| `Webhook.Serve` | index.js:66-84 | A request is answered by the handler its route selects, or 404. The set of accessories never changes. |
| `Webhook.StartWebhookServer` | index.js:52-64 | Nothing happens while a server is listening. Otherwise a leftover server is closed and dropped. Then, if the redirect URI parses, exactly one listen on port 8999 follows. If it does not parse, the start throws and no server is left. |
| `Webhook.ListenSettled` | index.js:85-103 | The listen callback or the error event decides whether the new server listens. |
| `Webhook.StartIsIdempotentOnceBound` | index.js:54-57 | Once the server is bound, starting it again is a no-op, whatever the redirect URI. |

## Left out

- Network and file I/O are not modelled as such. The HTTP server, request body
  streaming, `https.get`, axios, the OAuth token POST and `fs` appear only as
  emitted effects (`Webhook.Outbound`, paths, request records) or as ok/err
  values passed in.
- Retry timing is left out. The exponential backoff delay and its jitter belong
  to the retry library, so only the eligibility rule and the budget of 3 are
  modelled.
- The error classification `isNetworkOrIdempotentRequestError` belongs to the
  retry library. It is a boolean field of `Http.Error`.
- The LRU cache's 100-entry bound and its eviction order are not modelled. The
  cache is a map whose entries stay live for 10 s after they were last stored.
- Promise scheduling and interleaving are replaced by explicit start and
  completion steps. A refresh completion settles the flag and the queue at once.
  In the source, the token-file write is awaited in between.
- Session.Intercept: takes `init` as one atomic step. In the source every
  request that finds no tokens runs its own `init`, and those reads can
  interleave with each other, with a refresh or with the authorization
  callback, so a late `init` may overwrite newer tokens with the file's
  older ones. The model does not split `init` into start and completion.
- Session.Init: a token file that parses to JSON `null` is not represented.
  The source's `init` then reports success while holding no tokens.
- Session.RefreshDone: requires an exchange in flight, because a completion can
  only follow its start.
- StatusCache.FetchDone: requires a fetch for the device to be outstanding, for
  the same reason.
- Unicode NFC normalisation is an uninterpreted function parameter (`nfc`).
  `UUIDGen.generate` is taken as injective, so accessories are keyed by device
  id.
- Numbers are integers, so fractional temperatures and setpoints are not
  represented.
- HAP objects, characteristic props (min/max/step are enforced by HAP),
  logging, the accessory-information characteristics and the authorize URL
  printed on listen are not modelled.
- The `didFinishLaunching` sequence and the constructor's configuration check
  are not modelled. They only chain `init`, `startWebhookServer` and
  `discoverDevices`.
- HeaterCooler.ReadStatus: takes a fetched snapshot, and so do the getters. A
  failed `getStatus` makes the getter report the error to HAP; that path is
  modelled by `StatusCache.FetchDone`, not repeated per getter. A status
  response without `components` fails inside the fetch
  (lib/SmartThings.js:184) and is one of `FetchDone`'s failures. A response
  whose `components` has no `main` yields an undefined snapshot, which makes
  the getter throw; that case is not modelled.
- Webhook.HandleWebhook: takes `JSON.parse`'s outcome as given: `Malformed`
  covers both a parse error and a `null` document. `eventData.events` is either
  absent or a list of entry objects. An iterable non-list such as a string, and
  `null` list entries, are not modelled.
- Webhook.ProcessEvents: assumes every `deviceEvent` object has its four
  fields. An object without `deviceId` is not modelled.
- Platform.Discover: takes the configured device list as given. A missing
  `devices` list, which the source catches and logs, is not modelled.
- Webhook.OAuthCallbackStep: takes at most one `code`. A repeated `code`
  query parameter, which the query parser turns into an array, is not
  modelled.
- Webhook.StartWebhookServer: treats a failing close of the old server as a
  close (the source ignores that error). An EADDRINUSE failure leaves the new
  server not listening (`Webhook.ListenSettled` with false), as the source only
  logs it.
