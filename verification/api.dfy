/** The gateway's two remaining device calls: creating an event subscription
    for a capability and listing devices. Each takes the outcome of its HTTP
    call (after the client's retries) as an argument. */
module Api {
  import opened Wrappers
  import opened Json
  import opened Http

  /** A device as listed by GET /devices. */
  datatype Device = Device(deviceId: DeviceId, labelText: Option<string>)

  /** The body of GET /devices; `items` may be absent. */
  datatype DevicesPage = DevicesPage(items: Option<seq<Device>>)

  /** `getDevices`: the page's `items`, or no devices when it has none; a
      failed call is passed on. */
  function GetDevices(response: Result<DevicesPage, Error>): (r: Result<seq<Device>, Error>)
    ensures response.Failure? ==> r == Failure(response.error)
    ensures response.Success? && response.value.items.Some? ==> r == Success(response.value.items.value)
    ensures response.Success? && response.value.items.None? ==> r == Success([])
  {
    match response
    case Failure(e) => Failure(e)
    case Success(page) => Success(page.items.GetOr([]))
  }

  /** The `capability` object of a subscription request body; the body's
      `sourceType` is always CAPABILITY. */
  datatype SubscriptionRequest = SubscriptionRequest(path: string, deviceId: DeviceId, capability: string, stateChangeOnly: bool)

  /** How a subscription attempt ended, as the log reports it. */
  datatype SubscriptionNote =
    | MissingInstalledAppId
    | Subscribed
    | AlreadySubscribed
    | SubscribeFailed(error: Error)

  datatype Subscription = Subscription(request: Option<SubscriptionRequest>, note: SubscriptionNote)

  /** HTTP 409: the subscription already exists. */
  predicate Conflict(e: Error) {
    e.Axios? && e.status == Some(409)
  }

  /** `createSubscription(d, capability)`: no call without a truthy
      installedAppId; otherwise one POST to the installed app's
      subscriptions. It never fails: a 409 is silent and every other error is
      only logged. */
  function CreateSubscription(installedAppId: Option<string>, d: DeviceId, capability: string, post: Result<(), Error>): (r: Subscription)
    ensures r.request.None? <==> !TruthyStr(installedAppId)
    ensures r.request.None? ==> r.note == MissingInstalledAppId
    ensures r.request.Some? ==>
              && r.request.value == SubscriptionRequest("/installedapps/" + installedAppId.value + "/subscriptions", d, capability, true)
              && (r.note == Subscribed <==> post.Success?)
              && (r.note == AlreadySubscribed <==> post.Failure? && Conflict(post.error))
              && (r.note.SubscribeFailed? <==> post.Failure? && !Conflict(post.error))
              && (r.note.SubscribeFailed? ==> r.note.error == post.error)
  {
    if !TruthyStr(installedAppId) then Subscription(None, MissingInstalledAppId)
    else
      var request := SubscriptionRequest("/installedapps/" + installedAppId.value + "/subscriptions", d, capability, true);
      match post
      case Success(_) => Subscription(Some(request), Subscribed)
      case Failure(e) => Subscription(Some(request), if Conflict(e) then AlreadySubscribed else SubscribeFailed(e))
  }

  /** A 409 from the subscriptions endpoint is neither retried by the client
      nor reported as a failure. */
  lemma ConflictIsQuietAndNotRetried(installedAppId: Option<string>, d: DeviceId, capability: string, attempt: nat -> Result<(), Error>)
    requires TruthyStr(installedAppId)
    requires attempt(0) == Failure(Axios(Some(409), false))
    ensures Send(attempt, 0).attempts == 1
    ensures CreateSubscription(installedAppId, d, capability, Send(attempt, 0).result).note == AlreadySubscribed
  {
  }
}
