/** The plugin platform's own state and the two operations that change it
    outside the webhook: applying one device event (cache patch, then a
    characteristic update) and binding configured labels to listed devices.

    Accessories are keyed by device id: the UUID generator that keys them in
    the plugin is assumed injective. */
module Platform {
  import opened Wrappers
  import opened Json
  import opened Http
  import Session
  import StatusCache
  import HeaterCooler
  import Api

  /** Characteristic values held by an accessory's HeaterCooler service. */
  datatype Service = Service(values: map<HeaterCooler.Characteristic, Value>)

  datatype Accessory = Accessory(displayName: string, heaterCooler: Option<Service>)

  datatype PlatformState = PlatformState(
    session: Session.SessionState,
    status: StatusCache.CacheState,
    accessories: map<DeviceId, Accessory>)

  /** The `deviceEvent` object of a DEVICE_EVENT entry. */
  datatype DeviceEvent = DeviceEvent(deviceId: DeviceId, capability: string, attribute: string, value: Value)

  /** Observable effects of event processing, in the order they happen. */
  datatype Action =
    | CachePatched(event: DeviceEvent)
    | CharacteristicUpdated(deviceId: DeviceId, update: HeaterCooler.Update)

  datatype EventStep = EventStep(state: PlatformState, actions: seq<Action>)

  predicate ActiveIsOne(svc: Service) {
    HeaterCooler.Active in svc.values && svc.values[HeaterCooler.Active] == Num(1)
  }

  /** The characteristic update an event causes on an accessory. */
  function UpdateFor(acc: Accessory, ev: DeviceEvent): Option<HeaterCooler.Update> {
    match acc.heaterCooler
    case None => None
    case Some(svc) => HeaterCooler.EventUpdate(ev.capability, ev.attribute, ev.value, ActiveIsOne(svc))
  }

  /** `processDeviceEvent`: nothing for a device without an accessory;
      otherwise the cache is patched once with the event's four fields, and
      then at most one characteristic of that accessory's service changes. */
  function ProcessDeviceEvent(p: PlatformState, ev: DeviceEvent, now: int): (r: EventStep)
    ensures ev.deviceId !in p.accessories ==> r == EventStep(p, [])
    ensures ev.deviceId in p.accessories ==>
              && 1 <= |r.actions| <= 2
              && r.actions[0] == CachePatched(ev)
              && r.state.status == StatusCache.Patch(p.status, ev.deviceId, ev.capability, ev.attribute, ev.value, now)
              && r.state.session == p.session
              && r.state.accessories.Keys == p.accessories.Keys
              && r.state.accessories[ev.deviceId].displayName == p.accessories[ev.deviceId].displayName
              && (|r.actions| == 2 <==> UpdateFor(p.accessories[ev.deviceId], ev).Some?)
    ensures forall d :: d in p.accessories && d != ev.deviceId ==> r.state.accessories[d] == p.accessories[d]
    ensures |r.actions| == 2 ==>
              var u := UpdateFor(p.accessories[ev.deviceId], ev).value;
              var svc := p.accessories[ev.deviceId].heaterCooler.value;
              && r.actions[1] == CharacteristicUpdated(ev.deviceId, u)
              && r.state.accessories[ev.deviceId].heaterCooler == Some(Service(svc.values[u.characteristic := u.value]))
    ensures |r.actions| < 2 ==> r.state.accessories == p.accessories
  {
    if ev.deviceId !in p.accessories then EventStep(p, [])
    else
      var acc := p.accessories[ev.deviceId];
      var p1 := p.(status := StatusCache.Patch(p.status, ev.deviceId, ev.capability, ev.attribute, ev.value, now));
      match UpdateFor(acc, ev)
      case None => EventStep(p1, [CachePatched(ev)])
      case Some(u) =>
        var svc := acc.heaterCooler.value;
        var acc' := acc.(heaterCooler := Some(Service(svc.values[u.characteristic := u.value])));
        EventStep(p1.(accessories := p.accessories[ev.deviceId := acc']),
                  [CachePatched(ev), CharacteristicUpdated(ev.deviceId, u)])
  }

  /** A switch event on a registered accessory with a HeaterCooler service
      leaves Active at 1 exactly when the value is 'on'. */
  lemma SwitchEventSetsActive(p: PlatformState, d: DeviceId, v: Value, now: int)
    requires d in p.accessories && p.accessories[d].heaterCooler.Some?
    ensures var r := ProcessDeviceEvent(p, DeviceEvent(d, "switch", "switch", v), now);
            && |r.actions| == 2
            && (ActiveIsOne(r.state.accessories[d].heaterCooler.value) <==> v == Str("on"))
  {
    assert HeaterCooler.EventKey("switch", "switch") == HeaterCooler.SwitchKey;
  }

  // ---------------------------------------------------------------------
  // Device discovery

  /** The characters `String.prototype.trim` removes. */
  predicate IsSpace(c: char) {
    || c in {' ', '\t', '\n', '\r', '\U{B}', '\U{C}', '\U{A0}', '\U{1680}', '\U{2028}', '\U{2029}', '\U{202F}', '\U{205F}', '\U{3000}', '\U{FEFF}'}
    || ('\U{2000}' <= c <= '\U{200A}')
  }

  function TrimStart(s: string): (r: string)
    ensures |r| <= |s|
    ensures |r| > 0 ==> !IsSpace(r[0])
    decreases |s|
  {
    if |s| > 0 && IsSpace(s[0]) then TrimStart(s[1..]) else s
  }

  function TrimEnd(s: string): (r: string)
    ensures |r| <= |s|
    ensures |r| > 0 ==> !IsSpace(r[|r| - 1])
    decreases |s|
  {
    if |s| > 0 && IsSpace(s[|s| - 1]) then TrimEnd(s[..|s| - 1]) else s
  }

  /** TrimStart drops a prefix made only of white space. */
  lemma {:induction false} TrimStartDropsSpace(s: string)
    ensures TrimStart(s) == s[|s| - |TrimStart(s)|..]
    ensures forall i :: 0 <= i < |s| - |TrimStart(s)| ==> IsSpace(s[i])
    decreases |s|
  {
    if |s| > 0 && IsSpace(s[0]) {
      TrimStartDropsSpace(s[1..]);
      assert forall i :: 1 <= i < |s| ==> s[i] == s[1..][i - 1];
    }
  }

  /** TrimEnd drops a suffix made only of white space. */
  lemma {:induction false} TrimEndDropsSpace(s: string)
    ensures TrimEnd(s) == s[..|TrimEnd(s)|]
    ensures forall i :: |TrimEnd(s)| <= i < |s| ==> IsSpace(s[i])
    decreases |s|
  {
    if |s| > 0 && IsSpace(s[|s| - 1]) {
      TrimEndDropsSpace(s[..|s| - 1]);
      assert forall i :: 0 <= i < |s| - 1 ==> s[i] == s[..|s| - 1][i];
    }
  }

  /** `s.trim()`: `s` without leading and trailing white space. */
  function Trim(s: string): (r: string)
    ensures |r| <= |s|
    ensures |r| > 0 ==> !IsSpace(r[0]) && !IsSpace(r[|r| - 1])
  {
    var t := TrimStart(s);
    var r := TrimEnd(t);
    TrimEndDropsSpace(t);
    assert |r| > 0 ==> r[0] == t[0];
    r
  }

  /** Trimming removes white space only: what is left is a contiguous
      stretch of `s` with nothing but white space around it. */
  lemma TrimRemovesOnlySpace(s: string)
    ensures var r, i := Trim(s), |s| - |TrimStart(s)|;
            && 0 <= i && i + |r| <= |s| && r == s[i..i + |r|]
            && (forall j :: 0 <= j < i ==> IsSpace(s[j]))
            && (forall j :: i + |r| <= j < |s| ==> IsSpace(s[j]))
  {
    var t := TrimStart(s);
    TrimStartDropsSpace(s);
    TrimEndDropsSpace(t);
    var i := |s| - |t|;
    var r := TrimEnd(t);
    assert Trim(s) == r;
    assert t == s[i..];
    assert r == t[..|r|];
    assert t[..|r|] == s[i..i + |r|];
    forall j | i + |r| <= j < |s|
      ensures IsSpace(s[j])
    {
      assert s[j] == t[j - i];
    }
  }

  /** A string without surrounding white space is its own trim... */
  lemma {:induction false} TrimKeepsTrimmed(s: string)
    requires |s| > 0 ==> !IsSpace(s[0]) && !IsSpace(s[|s| - 1])
    ensures Trim(s) == s
  {
  }

  /** ...so trimming twice is trimming once. */
  lemma TrimIdempotent(s: string)
    ensures Trim(Trim(s)) == Trim(s)
  {
    TrimKeepsTrimmed(Trim(s));
  }

  /** `normalizeKorean`: NFC normalisation (an uninterpreted function here)
      of the label, or of "" when it is missing, then trimmed. */
  function Normalize(text: Option<string>, nfc: string -> string): (r: string)
    ensures |r| > 0 ==> !IsSpace(r[0]) && !IsSpace(r[|r| - 1])
    ensures Trim(r) == r
    ensures text.None? || text == Some("") ==> r == Trim(nfc(""))
    ensures var n := nfc(text.GetOr(""));
            var i := |n| - |TrimStart(n)|;
            && 0 <= i && i + |r| <= |n| && r == n[i..i + |r|]
            && (forall j :: 0 <= j < i ==> IsSpace(n[j]))
            && (forall j :: i + |r| <= j < |n| ==> IsSpace(n[j]))
  {
    TrimIdempotent(nfc(text.GetOr("")));
    TrimRemovesOnlySpace(nfc(text.GetOr("")));
    Trim(nfc(text.GetOr("")))
  }

  /** A label whose NFC form has no surrounding white space normalises to
      that form, so two such labels match exactly when their NFC forms are
      equal. */
  lemma NormalizeKeepsTrimmedLabel(a: string, b: string, nfc: string -> string)
    requires |nfc(a)| > 0 ==> !IsSpace(nfc(a)[0]) && !IsSpace(nfc(a)[|nfc(a)| - 1])
    requires |nfc(b)| > 0 ==> !IsSpace(nfc(b)[0]) && !IsSpace(nfc(b)[|nfc(b)| - 1])
    ensures Normalize(Some(a), nfc) == nfc(a)
    ensures Normalize(Some(a), nfc) == Normalize(Some(b), nfc) <==> nfc(a) == nfc(b)
  {
    TrimKeepsTrimmed(nfc(a));
    TrimKeepsTrimmed(nfc(b));
  }

  /** A device without a label matches a configured empty label, and the
      other way round: both normalise to the same string. */
  lemma MissingLabelMatchesEmpty(d: DeviceId, nfc: string -> string)
    ensures Matches(Api.Device(d, None), Some(""), nfc)
    ensures Matches(Api.Device(d, Some("")), None, nfc)
  {
  }

  predicate Matches(device: Api.Device, wanted: Option<string>, nfc: string -> string) {
    Normalize(device.labelText, nfc) == Normalize(wanted, nfc)
  }

  /** `found` is the index of the first device matching `wanted`, or None
      when no device matches. */
  predicate FirstMatch(devices: seq<Api.Device>, wanted: Option<string>, nfc: string -> string, found: Option<nat>) {
    match found
    case Some(i) => i < |devices| && Matches(devices[i], wanted, nfc) && forall j :: 0 <= j < i ==> !Matches(devices[j], wanted, nfc)
    case None => forall j :: 0 <= j < |devices| ==> !Matches(devices[j], wanted, nfc)
  }

  /** The first listed device whose normalised label equals the normalised
      configured label, searched front to back. */
  method FindDevice(devices: seq<Api.Device>, wanted: Option<string>, nfc: string -> string) returns (found: Option<nat>)
    ensures FirstMatch(devices, wanted, nfc, found)
  {
    var i := 0;
    while i < |devices|
      invariant 0 <= i <= |devices|
      invariant forall j :: 0 <= j < i ==> !Matches(devices[j], wanted, nfc)
    {
      if Matches(devices[i], wanted, nfc) {
        return Some(i);
      }
      i := i + 1;
    }
    return None;
  }

  /** `addOrUpdateAccessory` followed by `setupHeaterCoolerService`: the
      device has an accessory with a HeaterCooler service afterwards; an
      existing accessory keeps its name and service, a new one is named
      after the device's label; nothing else changes. */
  function Register(accessories: map<DeviceId, Accessory>, device: Api.Device): (r: map<DeviceId, Accessory>)
    ensures r.Keys == accessories.Keys + {device.deviceId}
    ensures r[device.deviceId].heaterCooler.Some?
    ensures device.deviceId in accessories ==>
              && r[device.deviceId].displayName == accessories[device.deviceId].displayName
              && r[device.deviceId].heaterCooler == Some(accessories[device.deviceId].heaterCooler.GetOr(Service(map[])))
              && (accessories[device.deviceId].heaterCooler.Some? ==> r[device.deviceId] == accessories[device.deviceId])
    ensures device.deviceId !in accessories ==>
              r[device.deviceId] == Accessory(device.labelText.GetOr(""), Some(Service(map[])))
    ensures forall d :: d in accessories && d != device.deviceId ==> r[d] == accessories[d]
  {
    var prior := if device.deviceId in accessories then accessories[device.deviceId]
                 else Accessory(device.labelText.GetOr(""), None);
    accessories[device.deviceId := prior.(heaterCooler := Some(prior.heaterCooler.GetOr(Service(map[]))))]
  }

  datatype DeviceConfig = DeviceConfig(deviceLabel: Option<string>)

  /** Device ids bound by `bindings` into `devices`. */
  function BoundIds(devices: seq<Api.Device>, bindings: seq<Option<nat>>): set<DeviceId> {
    set k | 0 <= k < |bindings| && bindings[k].Some? && bindings[k].value < |devices| :: devices[bindings[k].value].deviceId
  }

  lemma BoundIdsExtend(devices: seq<Api.Device>, bindings: seq<Option<nat>>, found: Option<nat>)
    ensures BoundIds(devices, bindings + [found])
         == BoundIds(devices, bindings) + (if found.Some? && found.value < |devices| then {devices[found.value].deviceId} else {})
  {
    var b := bindings + [found];
    assert forall k :: 0 <= k < |bindings| ==> b[k] == bindings[k];
    assert b[|bindings|] == found;
  }

  /** The label of the first device bound to id `d`; the name a new
      accessory for `d` gets, since later bindings of `d` find it cached. */
  function FirstBoundLabel(devices: seq<Api.Device>, bindings: seq<Option<nat>>, d: DeviceId): string {
    if |bindings| == 0 then ""
    else if bindings[0].Some? && bindings[0].value < |devices| && devices[bindings[0].value].deviceId == d
    then devices[bindings[0].value].labelText.GetOr("")
    else FirstBoundLabel(devices, bindings[1..], d)
  }

  lemma {:induction false} FirstBoundLabelExtend(devices: seq<Api.Device>, bindings: seq<Option<nat>>,
                                                 found: Option<nat>, d: DeviceId)
    requires d in BoundIds(devices, bindings)
    ensures FirstBoundLabel(devices, bindings + [found], d) == FirstBoundLabel(devices, bindings, d)
    decreases |bindings|
  {
    var k :| 0 <= k < |bindings| && bindings[k].Some? && bindings[k].value < |devices|
             && devices[bindings[k].value].deviceId == d;
    assert (bindings + [found])[0] == bindings[0];
    if !(bindings[0].Some? && bindings[0].value < |devices| && devices[bindings[0].value].deviceId == d) {
      assert k > 0;
      assert bindings[1..][k - 1] == bindings[k];
      assert d in BoundIds(devices, bindings[1..]);
      assert (bindings + [found])[1..] == bindings[1..] + [found];
      FirstBoundLabelExtend(devices, bindings[1..], found, d);
    }
  }

  lemma {:induction false} FirstBoundLabelOfNew(devices: seq<Api.Device>, bindings: seq<Option<nat>>,
                                                found: Option<nat>, d: DeviceId)
    requires found.Some? && found.value < |devices| && devices[found.value].deviceId == d
    requires d !in BoundIds(devices, bindings)
    ensures FirstBoundLabel(devices, bindings + [found], d) == devices[found.value].labelText.GetOr("")
    decreases |bindings|
  {
    if |bindings| == 0 {
      assert bindings + [found] == [found];
    } else {
      assert (bindings + [found])[0] == bindings[0];
      assert 0 < |bindings| && (bindings[0].Some? && bindings[0].value < |devices| ==> devices[bindings[0].value].deviceId in BoundIds(devices, bindings));
      assert (bindings + [found])[1..] == bindings[1..] + [found];
      assert BoundIds(devices, bindings[1..]) <= BoundIds(devices, bindings) by {
        forall k | 0 <= k < |bindings[1..]| ensures bindings[1..][k] == bindings[k + 1] { }
      }
      FirstBoundLabelOfNew(devices, bindings[1..], found, d);
    }
  }

  /** The accessories after binding: a bound device that already had an
      accessory keeps its name and gets its service, or a fresh one; a bound
      device without one gets a new accessory named after the first label
      bound to it, with a fresh service; an accessory of an unbound device is
      as it was. */
  predicate BoundInto(accessories: map<DeviceId, Accessory>, devices: seq<Api.Device>,
                      bindings: seq<Option<nat>>, result: map<DeviceId, Accessory>) {
    && result.Keys == accessories.Keys + BoundIds(devices, bindings)
    && (forall d :: d in BoundIds(devices, bindings) && d in accessories ==>
          && result[d].displayName == accessories[d].displayName
          && result[d].heaterCooler == Some(accessories[d].heaterCooler.GetOr(Service(map[]))))
    && (forall d :: d in BoundIds(devices, bindings) && d !in accessories ==>
          result[d] == Accessory(FirstBoundLabel(devices, bindings, d), Some(Service(map[]))))
    && (forall d :: d in accessories && d !in BoundIds(devices, bindings) ==> result[d] == accessories[d])
  }

  lemma BindStep(accessories: map<DeviceId, Accessory>, devices: seq<Api.Device>,
                 bindings: seq<Option<nat>>, result: map<DeviceId, Accessory>, found: Option<nat>)
    requires BoundInto(accessories, devices, bindings, result)
    requires found.Some? ==> found.value < |devices|
    ensures BoundInto(accessories, devices, bindings + [found],
                      if found.Some? then Register(result, devices[found.value]) else result)
  {
    BoundIdsExtend(devices, bindings, found);
    forall d | d in BoundIds(devices, bindings)
      ensures FirstBoundLabel(devices, bindings + [found], d) == FirstBoundLabel(devices, bindings, d)
    {
      FirstBoundLabelExtend(devices, bindings, found, d);
    }
    if found.Some? {
      var id := devices[found.value].deviceId;
      if id !in BoundIds(devices, bindings) {
        FirstBoundLabelOfNew(devices, bindings, found, id);
      }
    }
  }

  /** Every configured label is bound to its first match. */
  predicate AllFirst(devices: seq<Api.Device>, configs: seq<DeviceConfig>, bindings: seq<Option<nat>>, nfc: string -> string)
    requires |bindings| <= |configs|
  {
    forall k :: 0 <= k < |bindings| ==> FirstMatch(devices, configs[k].deviceLabel, nfc, bindings[k])
  }

  lemma AllFirstStep(devices: seq<Api.Device>, configs: seq<DeviceConfig>, bindings: seq<Option<nat>>,
                     found: Option<nat>, nfc: string -> string)
    requires |bindings| < |configs| && AllFirst(devices, configs, bindings, nfc)
    requires FirstMatch(devices, configs[|bindings|].deviceLabel, nfc, found)
    ensures AllFirst(devices, configs, bindings + [found], nfc)
  {
    assert forall j :: 0 <= j < |bindings| ==> (bindings + [found])[j] == bindings[j];
  }

  /** `discoverDevices` from the raw listing response: a page without
      `items` is an empty listing, so no label binds and every accessory
      stays as it was. */
  method DiscoverFromPage(accessories: map<DeviceId, Accessory>, configs: seq<DeviceConfig>,
                          response: Result<Api.DevicesPage, Error>, nfc: string -> string)
    returns (result: map<DeviceId, Accessory>, bindings: seq<Option<nat>>)
    ensures response.Failure? ==> result == accessories && bindings == []
    ensures response.Success? && response.value.items.None? ==>
              && result == accessories
              && |bindings| == |configs|
              && forall k :: 0 <= k < |bindings| ==> bindings[k].None?
    ensures response.Success? && response.value.items.Some? ==>
              var devices := response.value.items.value;
              && |bindings| == |configs|
              && (forall k :: 0 <= k < |configs| ==> FirstMatch(devices, configs[k].deviceLabel, nfc, bindings[k]))
              && BoundInto(accessories, devices, bindings, result)
  {
    var listing := Api.GetDevices(response);
    result, bindings := Discover(accessories, configs, listing, nfc);
    if response.Success? && response.value.items.None? {
      assert listing == Success([]);
      assert BoundIds([], bindings) == {};
      assert forall k :: 0 <= k < |bindings| ==> bindings[k].None? by {
        forall k | 0 <= k < |bindings| ensures bindings[k].None? {
          assert FirstMatch([], configs[k].deviceLabel, nfc, bindings[k]);
        }
      }
    }
  }

  /** `discoverDevices`: for each configured label in order, the first
      listed device with the same normalised label gets an accessory; a label
      without a match binds nothing. A failed listing changes nothing. */
  method Discover(accessories: map<DeviceId, Accessory>, configs: seq<DeviceConfig>,
                  listing: Result<seq<Api.Device>, Error>, nfc: string -> string)
    returns (result: map<DeviceId, Accessory>, bindings: seq<Option<nat>>)
    ensures listing.Failure? ==> result == accessories && bindings == []
    ensures listing.Success? ==>
              && |bindings| == |configs|
              && (forall k :: 0 <= k < |configs| ==> FirstMatch(listing.value, configs[k].deviceLabel, nfc, bindings[k]))
              && BoundInto(accessories, listing.value, bindings, result)
  {
    result, bindings := accessories, [];
    if listing.Failure? {
      return;
    }
    var devices := listing.value;
    var k := 0;
    while k < |configs|
      invariant 0 <= k <= |configs| && |bindings| == k
      invariant AllFirst(devices, configs, bindings, nfc)
      invariant BoundInto(accessories, devices, bindings, result)
    {
      var found := FindDevice(devices, configs[k].deviceLabel, nfc);
      var next := if found.Some? then Register(result, devices[found.value]) else result;
      BindStep(accessories, devices, bindings, result, found);
      AllFirstStep(devices, configs, bindings, found, nfc);
      result := next;
      bindings := bindings + [found];
      k := k + 1;
    }
  }
}
