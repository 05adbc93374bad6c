/** The gateway's status cache: a time-boxed map of per-device status
    snapshots keyed `status-<deviceId>`, the per-device map of outstanding
    status fetches, in-place patches from live events, and the invalidation
    done by every command send.

    The LRU library is abstracted as a map whose entries stay live for
    `TtlMs` after they were last stored; its 100-entry bound and eviction
    order are not modelled. */
module StatusCache {
  import opened Wrappers
  import opened Json
  import opened Http

  const TtlMs: int := 10000
  const KeyPrefix: string := "status-"

  /** A cached snapshot and the clock reading at which it was last stored. */
  datatype Entry = Entry(snapshot: Snapshot, storedAt: int)

  /** `statusPromises` maps each device with a fetch outstanding to the
      callers holding that fetch's promise, in the order they asked. */
  datatype CacheState = CacheState(cache: map<string, Entry>, statusPromises: map<DeviceId, seq<CallerId>>)

  const Empty: CacheState := CacheState(map[], map[])

  function CacheKey(d: DeviceId): string {
    KeyPrefix + d
  }

  /** Distinct devices never share a cache entry. */
  lemma CacheKeyInjective(a: DeviceId, b: DeviceId)
    ensures CacheKey(a) == CacheKey(b) ==> a == b
  {
    if CacheKey(a) == CacheKey(b) {
      assert a == CacheKey(a)[|KeyPrefix|..];
      assert b == CacheKey(b)[|KeyPrefix|..];
    }
  }

  /** An entry a cache read at `now` still returns. */
  function Live(cache: map<string, Entry>, key: string, now: int): (live: bool)
    ensures live ==> key in cache
    ensures key in cache ==> (live <==> now <= cache[key].storedAt + TtlMs)
  {
    key in cache && now - cache[key].storedAt <= TtlMs
  }

  /** Once an entry is no longer live, it stays so as the clock advances. */
  lemma StaleStaysStale(cache: map<string, Entry>, key: string, t0: int, t: int)
    requires !Live(cache, key, t0) && t0 <= t
    ensures !Live(cache, key, t)
  {
  }

  /** What a `getStatus` caller is handed: the cached snapshot, or the shared
      promise of the device's outstanding fetch. */
  datatype Reply = Cached(snapshot: Snapshot) | Pending

  datatype StatusRead = StatusRead(state: CacheState, reply: Reply, fetchStarted: bool)

  /** `getStatus(d)` by `caller` at `now`: a live entry is answered with no
      upstream call; otherwise the caller joins the outstanding fetch for `d`,
      and only when there is none is a new fetch started. */
  function GetStatus(s: CacheState, caller: CallerId, d: DeviceId, now: int): (r: StatusRead)
    ensures Live(s.cache, CacheKey(d), now) ==>
              r == StatusRead(s, Cached(s.cache[CacheKey(d)].snapshot), false)
    ensures !Live(s.cache, CacheKey(d), now) ==>
              && r.reply == Pending
              && r.state.cache == s.cache
              && (r.fetchStarted <==> d !in s.statusPromises)
              && r.state.statusPromises ==
                   s.statusPromises[d := (if d in s.statusPromises then s.statusPromises[d] else []) + [caller]]
  {
    var key := CacheKey(d);
    if Live(s.cache, key, now) then StatusRead(s, Cached(s.cache[key].snapshot), false)
    else if d in s.statusPromises then
      StatusRead(s.(statusPromises := s.statusPromises[d := s.statusPromises[d] + [caller]]), Pending, false)
    else
      assert [] + [caller] == [caller];
      StatusRead(s.(statusPromises := s.statusPromises[d := [caller]]), Pending, true)
  }

  type StatusOutcome = Result<Snapshot, Error>

  datatype FetchSettlement = FetchSettlement(state: CacheState, outcome: StatusOutcome, notified: seq<(CallerId, StatusOutcome)>)

  /** Completion of the outstanding fetch for `d`, with `components.main` of
      the response or the client's error. The in-flight marker is removed on
      both paths; a success is cached under `status-<d>`; a failure surfaces
      as StatusFetchFailed(d); all holders of the promise see one outcome. */
  function FetchDone(s: CacheState, d: DeviceId, response: StatusOutcome, now: int): (r: FetchSettlement)
    requires d in s.statusPromises
    ensures r.state.statusPromises == s.statusPromises - {d}
    ensures |r.notified| == |s.statusPromises[d]|
    ensures forall i :: 0 <= i < |r.notified| ==> r.notified[i] == (s.statusPromises[d][i], r.outcome)
    ensures response.Success? ==>
              r.outcome == response && r.state.cache == s.cache[CacheKey(d) := Entry(response.value, now)]
    ensures response.Failure? ==>
              r.outcome == Failure(Thrown(StatusFetchFailed(d))) && r.state.cache == s.cache
  {
    var waiters := s.statusPromises[d];
    var outcome: StatusOutcome := match response
      case Success(snap) => Success(snap)
      case Failure(_) => Failure(Thrown(StatusFetchFailed(d)));
    var cache := match response
      case Success(snap) => s.cache[CacheKey(d) := Entry(snap, now)]
      case Failure(_) => s.cache;
    FetchSettlement(CacheState(cache, s.statusPromises - {d}), outcome,
                    seq(|waiters|, i requires 0 <= i < |waiters| => (waiters[i], outcome)))
  }

  // ---------------------------------------------------------------------
  // In-place patches

  /** The record at `[capability][attribute]`, empty when either level is missing. */
  function RecordAt(snap: Snapshot, capability: string, attribute: string): Record {
    if capability in snap && attribute in snap[capability] then snap[capability][attribute] else map[]
  }

  /** `snap[capability][attribute].value := v`, creating missing levels. */
  function SetValue(snap: Snapshot, capability: string, attribute: string, v: Value): (r: Snapshot)
    ensures r.Keys == snap.Keys + {capability}
    ensures r[capability].Keys == (if capability in snap then snap[capability].Keys else {}) + {attribute}
    ensures RecordAt(r, capability, attribute).Keys == RecordAt(snap, capability, attribute).Keys + {"value"}
    ensures RecordAt(r, capability, attribute)["value"] == v
    ensures forall f :: f in RecordAt(snap, capability, attribute) && f != "value" ==>
              RecordAt(r, capability, attribute)[f] == RecordAt(snap, capability, attribute)[f]
    ensures forall c, a :: (c != capability || a != attribute) ==> RecordAt(r, c, a) == RecordAt(snap, c, a)
    ensures forall c :: c in snap && c != capability ==> r[c] == snap[c]
    ensures capability in snap ==> forall a :: a in snap[capability] && a != attribute ==> r[capability][a] == snap[capability][a]
  {
    var attrs := if capability in snap then snap[capability] else map[];
    var record := if attribute in attrs then attrs[attribute] else map[];
    snap[capability := attrs[attribute := record["value" := v]]]
  }

  /** `updateDeviceStatusCache`: patches a live entry and restarts its
      lifetime; with no live entry for `d` it does nothing. */
  function Patch(s: CacheState, d: DeviceId, capability: string, attribute: string, v: Value, now: int): (r: CacheState)
    ensures !Live(s.cache, CacheKey(d), now) ==> r == s
    ensures Live(s.cache, CacheKey(d), now) ==>
              && r.statusPromises == s.statusPromises
              && r.cache.Keys == s.cache.Keys
              && r.cache[CacheKey(d)].storedAt == now
              && r.cache[CacheKey(d)].snapshot == SetValue(s.cache[CacheKey(d)].snapshot, capability, attribute, v)
              && forall k :: k in s.cache && k != CacheKey(d) ==> r.cache[k] == s.cache[k]
  {
    var key := CacheKey(d);
    if Live(s.cache, key, now) then
      s.(cache := s.cache[key := Entry(SetValue(s.cache[key].snapshot, capability, attribute, v), now)])
    else s
  }

  /** On a warm cache, a patch is seen by the next read within the TTL with
      no upstream call, and the rest of the record is intact. */
  lemma PatchThenReadIsHit(s: CacheState, d: DeviceId, capability: string, attribute: string, v: Value,
                           now: int, later: int, caller: CallerId)
    requires Live(s.cache, CacheKey(d), now) && now <= later <= now + TtlMs
    ensures var read := GetStatus(Patch(s, d, capability, attribute, v, now), caller, d, later);
            && !read.fetchStarted
            && read.reply.Cached?
            && RecordAt(read.reply.snapshot, capability, attribute)["value"] == v
            && read.reply.snapshot == SetValue(s.cache[CacheKey(d)].snapshot, capability, attribute, v)
  {
  }

  /** On a cold cache with nothing outstanding, a patch is dropped and the
      next read starts exactly one fetch. */
  lemma PatchOnColdCacheThenReadFetches(s: CacheState, d: DeviceId, capability: string, attribute: string, v: Value,
                                        now: int, caller: CallerId)
    requires !Live(s.cache, CacheKey(d), now) && d !in s.statusPromises
    ensures Patch(s, d, capability, attribute, v, now) == s
    ensures GetStatus(Patch(s, d, capability, attribute, v, now), caller, d, now).fetchStarted
  {
  }

  // ---------------------------------------------------------------------
  // Bursts of reads

  datatype ReadBurst = ReadBurst(state: CacheState, fetches: nat)

  /** `getStatus(d)` calls, each a (caller, clock) pair, with no completion
      in between. */
  function GetBurst(s: CacheState, d: DeviceId, calls: seq<(CallerId, int)>): ReadBurst
    decreases |calls|
  {
    if |calls| == 0 then ReadBurst(s, 0)
    else
      var read := GetStatus(s, calls[0].0, d, calls[0].1);
      var rest := GetBurst(read.state, d, calls[1..]);
      ReadBurst(rest.state, rest.fetches + if read.fetchStarted then 1 else 0)
  }

  function Callers(calls: seq<(CallerId, int)>): seq<CallerId> {
    seq(|calls|, i requires 0 <= i < |calls| => calls[i].0)
  }

  /** Reads of `d` arriving while its fetch is outstanding (and the cache is
      cold from `t0` on) all join that fetch: no upstream call. */
  lemma {:induction false} BurstJoinsOutstandingFetch(s: CacheState, d: DeviceId, t0: int, calls: seq<(CallerId, int)>)
    requires !Live(s.cache, CacheKey(d), t0) && d in s.statusPromises
    requires forall i :: 0 <= i < |calls| ==> calls[i].1 >= t0
    ensures GetBurst(s, d, calls).fetches == 0
    ensures GetBurst(s, d, calls).state.cache == s.cache
    ensures GetBurst(s, d, calls).state.statusPromises == s.statusPromises[d := s.statusPromises[d] + Callers(calls)]
    decreases |calls|
  {
    if |calls| > 0 {
      var s1 := GetStatus(s, calls[0].0, d, calls[0].1).state;
      BurstJoinsOutstandingFetch(s1, d, t0, calls[1..]);
      assert Callers(calls) == [calls[0].0] + Callers(calls[1..]);
      assert s.statusPromises[d] + [calls[0].0] + Callers(calls[1..]) == s.statusPromises[d] + Callers(calls);
    } else {
      assert s.statusPromises[d] + Callers(calls) == s.statusPromises[d];
      assert s.statusPromises[d := s.statusPromises[d]] == s.statusPromises;
    }
  }

  /** Per-device single flight: reads of `d` on a cold cache with nothing
      outstanding make exactly one upstream call, and every reader holds its
      promise, in arrival order. */
  lemma ColdBurstFetchesOnce(s: CacheState, d: DeviceId, t0: int, calls: seq<(CallerId, int)>)
    requires !Live(s.cache, CacheKey(d), t0) && d !in s.statusPromises && |calls| > 0
    requires forall i :: 0 <= i < |calls| ==> calls[i].1 >= t0
    ensures GetBurst(s, d, calls).fetches == 1
    ensures d in GetBurst(s, d, calls).state.statusPromises
    ensures GetBurst(s, d, calls).state.statusPromises[d] == Callers(calls)
  {
    var read := GetStatus(s, calls[0].0, d, calls[0].1);
    assert !Live(s.cache, CacheKey(d), calls[0].1) by {
      StaleStaysStale(s.cache, CacheKey(d), t0, calls[0].1);
    }
    assert read.fetchStarted && read.state.cache == s.cache;
    assert read.state.statusPromises == s.statusPromises[d := [calls[0].0]];
    assert forall i :: 0 <= i < |calls[1..]| ==> calls[1..][i].1 >= t0 by {
      assert forall i :: 0 <= i < |calls[1..]| ==> calls[1..][i] == calls[i + 1];
    }
    BurstJoinsOutstandingFetch(read.state, d, t0, calls[1..]);
    var rest := GetBurst(read.state, d, calls[1..]);
    assert GetBurst(s, d, calls) == ReadBurst(rest.state, rest.fetches + 1);
    assert Callers(calls) == [calls[0].0] + Callers(calls[1..]);
  }

  /** ... and when that one fetch completes, every reader receives the same
      outcome and no marker for `d` remains. */
  lemma ColdBurstSharesOneOutcome(s: CacheState, d: DeviceId, t0: int, calls: seq<(CallerId, int)>,
                                  response: StatusOutcome, now: int)
    requires !Live(s.cache, CacheKey(d), t0) && d !in s.statusPromises && |calls| > 0
    requires forall i :: 0 <= i < |calls| ==> calls[i].1 >= t0
    ensures d in GetBurst(s, d, calls).state.statusPromises
    ensures var done := FetchDone(GetBurst(s, d, calls).state, d, response, now);
            && d !in done.state.statusPromises
            && |done.notified| == |calls|
            && forall i :: 0 <= i < |calls| ==> done.notified[i] == (calls[i].0, done.outcome)
  {
    ColdBurstFetchesOnce(s, d, t0, calls);
  }

  // ---------------------------------------------------------------------
  // Commands

  /** `sendCommand` accepts one command object or an array of them. */
  datatype CommandArg = One(command: Command) | Many(commands: seq<Command>)

  datatype CommandSend = CommandSend(state: CacheState, path: string, commands: seq<Command>, outcome: Result<(), Error>)

  /** `sendCommand(d, arg)`: the cache entry of `d` is deleted before the
      post, so whatever the post's outcome it is gone; the body's `commands`
      is `[arg]` for one command and the array itself otherwise. */
  function SendCommand(s: CacheState, d: DeviceId, arg: CommandArg, post: Result<(), Error>): (r: CommandSend)
    ensures CacheKey(d) !in r.state.cache
    ensures r.state.cache.Keys == s.cache.Keys - {CacheKey(d)}
    ensures forall k :: k in r.state.cache ==> r.state.cache[k] == s.cache[k]
    ensures r.state.statusPromises == s.statusPromises
    ensures r.path == "/devices/" + d + "/commands"
    ensures arg.One? ==> r.commands == [arg.command]
    ensures arg.Many? ==> r.commands == arg.commands
    ensures r.outcome == post
  {
    var commands := match arg
      case One(c) => [c]
      case Many(cs) => cs;
    CommandSend(s.(cache := s.cache - {CacheKey(d)}), "/devices/" + d + "/commands", commands, post)
  }

  /** Invalidation does not depend on whether the post succeeded, and the
      next read of `d` never comes from the cache. */
  lemma CommandAlwaysInvalidates(s: CacheState, d: DeviceId, arg: CommandArg, p1: Result<(), Error>, p2: Result<(), Error>,
                                 caller: CallerId, now: int)
    ensures SendCommand(s, d, arg, p1).state == SendCommand(s, d, arg, p2).state
    ensures GetStatus(SendCommand(s, d, arg, p1).state, caller, d, now).reply == Pending
  {
  }
}
