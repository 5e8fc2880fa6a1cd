/** The token bucket: lazy refill, and a background pass that drops full buckets.  Time is in seconds. */
module RateLimiter {
  import opened Wrappers

  datatype Bucket = Bucket(tokens: real, lastCheck: real)
  datatype Limits = Limits(maxTokens: real, refillRate: real)
  type Clients = map<string, Bucket>

  predicate Sane(cfg: Limits) {
    cfg.maxTokens >= 0.0 && cfg.refillRate >= 0.0
  }

  function Refill(rate: real, elapsed: real): real {
    elapsed * rate
  }

  lemma RefillAdds(rate: real, a: real, b: real)
    ensures Refill(rate, a + b) == Refill(rate, a) + Refill(rate, b)
  {
  }

  lemma RefillGrows(rate: real, a: real)
    requires rate >= 0.0 && a >= 0.0
    ensures Refill(rate, a) >= 0.0
  {
  }

  // ---------------------------------------------------------------------------
  // One client
  // ---------------------------------------------------------------------------

  function Find(clients: Clients, key: string): Option<Bucket> {
    if key in clients then Some(clients[key]) else None
  }

  /** The tokens a client could spend at `now`. */
  function Level(cfg: Limits, b: Option<Bucket>, now: real): real {
    match b
    case None => cfg.maxTokens
    case Some(b) =>
      var refilled := b.tokens + Refill(cfg.refillRate, now - b.lastCheck);
      if refilled > cfg.maxTokens then cfg.maxTokens else refilled
  }

  predicate Full(cfg: Limits, b: Bucket, now: real) {
    b.tokens + Refill(cfg.refillRate, now - b.lastCheck) >= cfg.maxTokens
  }

  function Spent(cfg: Limits, b: Option<Bucket>, now: real): Bucket {
    var level := Level(cfg, b, now);
    Bucket(if level >= 1.0 then level - 1.0 else level, now)
  }

  // ---------------------------------------------------------------------------
  // Runs
  // ---------------------------------------------------------------------------

  /** A request, or the cleanup pass looking at one bucket. */
  datatype Event = Request(key: string, at: real) | Check(key: string, at: real)

  function Step(cfg: Limits, clients: Clients, e: Event): Clients {
    match e
    case Request(key, at) => clients[key := Spent(cfg, Find(clients, key), at)]
    case Check(key, at) => if key in clients && Full(cfg, clients[key], at) then clients - {key} else clients
  }

  function Run(cfg: Limits, events: seq<Event>): Clients {
    if events == [] then map[] else Step(cfg, Run(cfg, events[..|events| - 1]), events[|events| - 1])
  }

  /** Is the i-th event a request that is let through? */
  predicate Accepted(cfg: Limits, events: seq<Event>, i: nat)
    requires i < |events|
  {
    events[i].Request? && Level(cfg, Find(Run(cfg, events[..i]), events[i].key), events[i].at) >= 1.0
  }

  ghost predicate Ordered(events: seq<Event>) {
    forall i, j | 0 <= i < j < |events| :: events[i].at <= events[j].at
  }

  /** Every bucket was last touched before `now` and holds between no tokens and all of them. */
  ghost predicate Bounded(cfg: Limits, clients: Clients, now: real) {
    forall key | key in clients :: clients[key].lastCheck <= now && 0.0 <= clients[key].tokens <= cfg.maxTokens
  }

  lemma LevelBounds(cfg: Limits, clients: Clients, key: string, now: real)
    requires Sane(cfg) && Bounded(cfg, clients, now)
    ensures 0.0 <= Level(cfg, Find(clients, key), now) <= cfg.maxTokens
  {
    if key in clients {
      RefillGrows(cfg.refillRate, now - clients[key].lastCheck);
    }
  }

  lemma StepBounded(cfg: Limits, clients: Clients, e: Event)
    requires Sane(cfg) && Bounded(cfg, clients, e.at)
    ensures Bounded(cfg, Step(cfg, clients, e), e.at)
  {
    LevelBounds(cfg, clients, e.key, e.at);
  }

  lemma {:induction false} RunBounded(cfg: Limits, events: seq<Event>, now: real)
    requires Sane(cfg) && Ordered(events) && (events != [] ==> events[|events| - 1].at <= now)
    ensures Bounded(cfg, Run(cfg, events), now)
    decreases |events|
  {
    if events != [] {
      var init, e := events[..|events| - 1], events[|events| - 1];
      RunBounded(cfg, init, e.at);
      StepBounded(cfg, Run(cfg, init), e);
    }
  }

  // ---------------------------------------------------------------------------
  // The rate bound
  // ---------------------------------------------------------------------------

  /** Requests of `key` let through at times from `from` to `to`. */
  function AcceptedBetween(cfg: Limits, events: seq<Event>, key: string, from: real, to: real): nat
    decreases |events|
  {
    if events == [] then 0
    else
      var i := |events| - 1;
      AcceptedBetween(cfg, events[..i], key, from, to)
      + if events[i].key == key && from <= events[i].at <= to && Accepted(cfg, events, i) then 1 else 0
  }

  /** Tokens are conserved: what was spent and what is left never exceed the capacity and the refill. */
  lemma {:induction false} TokensConserved(
    cfg: Limits, events: seq<Event>, key: string, from: real, to: real, now: real)
    requires Sane(cfg) && Ordered(events) && from <= now && forall i | 0 <= i < |events| :: events[i].at <= now
    ensures
      AcceptedBetween(cfg, events, key, from, to) as real + Level(cfg, Find(Run(cfg, events), key), now)
      <= cfg.maxTokens + Refill(cfg.refillRate, now - from)
    decreases |events|
  {
    RefillGrows(cfg.refillRate, now - from);
    if events != [] {
      var i := |events| - 1;
      var init, e := events[..i], events[i];
      RunBounded(cfg, events, now);
      LevelBounds(cfg, Run(cfg, events), key, now);
      if e.at < from {
        NoneBefore(cfg, events, key, from, to);
      } else if e.key != key {
        TokensConserved(cfg, init, key, from, to, now);
      } else if e.Check? {
        TokensConserved(cfg, init, key, from, to, now);
        CheckKeepsLevel(cfg, Run(cfg, init), key, e.at, now);
      } else {
        TokensConserved(cfg, init, key, from, to, e.at);
        SpendingConserves(cfg, Find(Run(cfg, init), key), e.at, now);
        RefillAdds(cfg.refillRate, e.at - from, now - e.at);
        assert (e.at - from) + (now - e.at) == now - from;
      }
    }
  }

  lemma {:induction false} NoneBefore(cfg: Limits, events: seq<Event>, key: string, from: real, to: real)
    requires Ordered(events) && (events != [] ==> events[|events| - 1].at < from)
    ensures AcceptedBetween(cfg, events, key, from, to) == 0
    decreases |events|
  {
    if events != [] {
      NoneBefore(cfg, events[..|events| - 1], key, from, to);
    }
  }

  /** Once full, a bucket stays full, and reads like one that is not there. */
  lemma CheckKeepsLevel(cfg: Limits, clients: Clients, key: string, at: real, now: real)
    requires Sane(cfg) && at <= now
    ensures Level(cfg, Find(Step(cfg, clients, Check(key, at)), key), now) == Level(cfg, Find(clients, key), now)
  {
    if key in clients {
      FullStays(cfg, clients[key], at, now);
    }
  }

  lemma FullStays(cfg: Limits, b: Bucket, at: real, now: real)
    requires Sane(cfg) && at <= now
    ensures Full(cfg, b, at) ==> Full(cfg, b, now)
  {
    RefillGrows(cfg.refillRate, now - at);
    RefillAdds(cfg.refillRate, at - b.lastCheck, now - at);
    assert (at - b.lastCheck) + (now - at) == now - b.lastCheck;
  }

  lemma SpendingConserves(cfg: Limits, b: Option<Bucket>, at: real, now: real)
    requires Sane(cfg) && at <= now
    ensures
      Level(cfg, Some(Spent(cfg, b, at)), now) + (if Level(cfg, b, at) >= 1.0 then 1.0 else 0.0)
      <= Level(cfg, b, at) + Refill(cfg.refillRate, now - at)
  {
    hide Refill;
  }

  /** In any run, over any interval, a client gets at most its capacity and what the interval refills. */
  lemma {:induction false} RateBound(cfg: Limits, events: seq<Event>, key: string, from: real, to: real)
    requires Sane(cfg) && Ordered(events) && from <= to
    ensures
      AcceptedBetween(cfg, events, key, from, to) as real <= cfg.maxTokens + Refill(cfg.refillRate, to - from)
    decreases |events|
  {
    if events == [] {
      RefillGrows(cfg.refillRate, to - from);
    } else if events[|events| - 1].at > to {
      RateBound(cfg, events[..|events| - 1], key, from, to);
    } else {
      TokensConserved(cfg, events, key, from, to, to);
      RunBounded(cfg, events, to);
      LevelBounds(cfg, Run(cfg, events), key, to);
    }
  }

  // ---------------------------------------------------------------------------
  // A patient client is never refused
  // ---------------------------------------------------------------------------

  /** Two requests of `key` are always long enough apart to refill one token. */
  ghost predicate Spaced(cfg: Limits, events: seq<Event>, key: string) {
    forall i, j | 0 <= i < j < |events| && IsRequest(events[i], key) && IsRequest(events[j], key) ::
      Refill(cfg.refillRate, events[j].at - events[i].at) >= 1.0
  }

  predicate IsRequest(e: Event, key: string) {
    e.Request? && e.key == key
  }

  /** A bucket was last touched by a request of that client. */
  lemma {:induction false} BucketIsFromRequest(cfg: Limits, events: seq<Event>, key: string)
    requires key in Run(cfg, events)
    ensures
      var last := Run(cfg, events)[key].lastCheck;
      exists i :: 0 <= i < |events| && IsRequest(events[i], key) && events[i].at == last
    decreases |events|
  {
    var n := |events| - 1;
    if IsRequest(events[n], key) {
      assert events[n].at == Run(cfg, events)[key].lastCheck;
    } else {
      BucketIsFromRequest(cfg, events[..n], key);
      var init := events[..n];
      var i :| 0 <= i < n && IsRequest(init[i], key) && init[i].at == Run(cfg, init)[key].lastCheck;
      assert events[i] == init[i];
    }
  }

  lemma SpacedNeverRefused(cfg: Limits, events: seq<Event>, key: string, j: nat)
    requires Sane(cfg) && cfg.maxTokens >= 1.0 && Ordered(events) && Spaced(cfg, events, key)
    requires j < |events| && IsRequest(events[j], key)
    ensures Accepted(cfg, events, j)
  {
    var before := events[..j];
    if key in Run(cfg, before) {
      BucketIsFromRequest(cfg, before, key);
      var i :| 0 <= i < j && IsRequest(before[i], key) && before[i].at == Run(cfg, before)[key].lastCheck;
      assert events[i] == before[i];
      assert Refill(cfg.refillRate, events[j].at - events[i].at) >= 1.0;
      RunBounded(cfg, before, events[j].at);
    }
  }

  // ---------------------------------------------------------------------------
  // The bound is tight
  // ---------------------------------------------------------------------------

  /** What the window from `from` to `now` still allows: its capacity and refill, less what it let through. */
  function Slack(cfg: Limits, events: seq<Event>, key: string, from: real, now: real): real {
    cfg.maxTokens + Refill(cfg.refillRate, now - from) - AcceptedBetween(cfg, events, key, from, now) as real
  }

  ghost predicate Tight(cfg: Limits, events: seq<Event>, key: string, from: real, now: real) {
    from <= now && Level(cfg, Find(Run(cfg, events), key), now) >= Slack(cfg, events, key, from, now)
  }

  /** Some window is used up to what is left in the bucket. */
  lemma {:induction false} SomeWindowIsTight(cfg: Limits, events: seq<Event>, key: string, now: real)
    returns (from: real)
    requires Sane(cfg) && Ordered(events) && forall i | 0 <= i < |events| :: events[i].at <= now
    ensures Tight(cfg, events, key, from, now)
    decreases |events|
  {
    var b := Find(Run(cfg, events), key);
    from := now;
    if b.Some? && !Full(cfg, b.value, now) {
      var i := |events| - 1;
      var init, e := events[..i], events[i];
      if IsRequest(e, key) {
        from := SomeWindowIsTight(cfg, init, key, e.at);
        WindowGrows(cfg, events, key, from, now);
      } else {
        from := SomeWindowIsTight(cfg, init, key, now);
      }
    }
  }

  /** An uncapped bucket gains what the longer window refills and loses what its last request took. */
  lemma WindowGrows(cfg: Limits, events: seq<Event>, key: string, from: real, now: real)
    requires events != [] && IsRequest(events[|events| - 1], key) && events[|events| - 1].at <= now && Ordered(events)
    requires !Full(cfg, Spent(cfg, Find(Run(cfg, events[..|events| - 1]), key), events[|events| - 1].at), now)
    requires Tight(cfg, events[..|events| - 1], key, from, events[|events| - 1].at)
    ensures Tight(cfg, events, key, from, now)
  {
    var i := |events| - 1;
    var init, e := events[..i], events[i];
    SameWindow(cfg, init, key, from, e.at, now);
    RefillAdds(cfg.refillRate, e.at - from, now - e.at);
    assert (e.at - from) + (now - e.at) == now - from;
    hide Refill;
  }

  /** After the last event a window may end at any time. */
  lemma {:induction false} SameWindow(cfg: Limits, events: seq<Event>, key: string, from: real, to: real, now: real)
    requires to <= now && forall i | 0 <= i < |events| :: events[i].at <= to
    ensures AcceptedBetween(cfg, events, key, from, to) == AcceptedBetween(cfg, events, key, from, now)
    decreases |events|
  {
    if events != [] {
      SameWindow(cfg, events[..|events| - 1], key, from, to, now);
    }
  }

  /** A request is let through if and only if no window ending with it would then exceed its capacity and
    * refill: the limiter refuses nothing that the bound allows. */
  lemma AcceptedIffWithinBound(cfg: Limits, events: seq<Event>, j: nat)
    requires Sane(cfg) && Ordered(events) && j < |events| && events[j].Request?
    ensures
      Accepted(cfg, events, j) <==>
      forall from | from <= events[j].at ::
        AcceptedBetween(cfg, events[..j], events[j].key, from, events[j].at) as real + 1.0
        <= cfg.maxTokens + Refill(cfg.refillRate, events[j].at - from)
  {
    var before, key, now := events[..j], events[j].key, events[j].at;
    var tight := SomeWindowIsTight(cfg, before, key, now);
    forall from | from <= now
      ensures
        AcceptedBetween(cfg, before, key, from, now) as real + Level(cfg, Find(Run(cfg, before), key), now)
        <= cfg.maxTokens + Refill(cfg.refillRate, now - from)
    {
      TokensConserved(cfg, before, key, from, now, now);
    }
    assert Tight(cfg, before, key, tight, now);
    assert AcceptedBetween(cfg, before, key, tight, now) as real + Level(cfg, Find(Run(cfg, before), key), now)
        >= cfg.maxTokens + Refill(cfg.refillRate, now - tight);
    hide Refill, Level, Run, AcceptedBetween;
  }

  ghost predicate AreRequestsAt(events: seq<Event>, key: string, at: real) {
    forall i | 0 <= i < |events| :: events[i] == Request(key, at)
  }

  /** A new client may spend its whole capacity at once: of its requests at one instant exactly the first
    * `maxTokens` are let through. */
  lemma BurstAccepted(cfg: Limits, events: seq<Event>, key: string, at: real, j: nat)
    requires Sane(cfg) && AreRequestsAt(events, key, at) && j < |events|
    ensures Accepted(cfg, events, j) <==> (j + 1) as real <= cfg.maxTokens
  {
    BurstLevel(cfg, events[..j], key, at);
  }

  /** What such a burst leaves: one token less for each request that finds one. */
  lemma {:induction false} BurstLevel(cfg: Limits, events: seq<Event>, key: string, at: real)
    requires Sane(cfg) && AreRequestsAt(events, key, at)
    ensures
      var level := Level(cfg, Find(Run(cfg, events), key), at);
      if |events| as real <= cfg.maxTokens then level == cfg.maxTokens - |events| as real else level < 1.0
    decreases |events|
  {
    if events != [] {
      BurstLevel(cfg, events[..|events| - 1], key, at);
      assert Refill(cfg.refillRate, at - at) == 0.0;
    }
  }

  // ---------------------------------------------------------------------------
  // Cleanup is invisible
  // ---------------------------------------------------------------------------

  /** The run without its cleanup events. */
  function Requests(events: seq<Event>): seq<Event> {
    if events == [] then []
    else
      var rest := Requests(events[..|events| - 1]);
      if events[|events| - 1].Request? then rest + [events[|events| - 1]] else rest
  }

  /** The limiter and one that never deletes agree on every client from `now` on: they hold the same bucket,
    * or one dropped a bucket that is full. */
  ghost predicate Alike(cfg: Limits, swept: Clients, kept: Clients, now: real) {
    forall key :: AlikeAt(cfg, Find(swept, key), Find(kept, key), now)
  }

  predicate AlikeAt(cfg: Limits, swept: Option<Bucket>, kept: Option<Bucket>, now: real) {
    swept == kept || (swept.None? && kept.Some? && Full(cfg, kept.value, now))
  }

  lemma AlikeLater(cfg: Limits, swept: Clients, kept: Clients, at: real, now: real)
    requires Sane(cfg) && Alike(cfg, swept, kept, at) && at <= now
    ensures Alike(cfg, swept, kept, now)
  {
    forall key
      ensures AlikeAt(cfg, Find(swept, key), Find(kept, key), now)
    {
      assert AlikeAt(cfg, Find(swept, key), Find(kept, key), at);
      if key in kept {
        FullStays(cfg, kept[key], at, now);
      }
    }
  }

  lemma AlikeStep(cfg: Limits, swept: Clients, kept: Clients, e: Event)
    requires Alike(cfg, swept, kept, e.at)
    ensures Alike(cfg, Step(cfg, swept, e), if e.Request? then Step(cfg, kept, e) else kept, e.at)
    ensures Level(cfg, Find(swept, e.key), e.at) == Level(cfg, Find(kept, e.key), e.at)
  {
    assert AlikeAt(cfg, Find(swept, e.key), Find(kept, e.key), e.at);
    var swept', kept' := Step(cfg, swept, e), if e.Request? then Step(cfg, kept, e) else kept;
    forall key
      ensures AlikeAt(cfg, Find(swept', key), Find(kept', key), e.at)
    {
      assert AlikeAt(cfg, Find(swept, key), Find(kept, key), e.at);
    }
  }

  lemma {:induction false} RunsAlike(cfg: Limits, events: seq<Event>, now: real)
    requires Sane(cfg) && Ordered(events) && (events != [] ==> events[|events| - 1].at <= now)
    ensures Alike(cfg, Run(cfg, events), Run(cfg, Requests(events)), now)
    decreases |events|
  {
    if events != [] {
      hide Alike, Step;
      var init, e := events[..|events| - 1], events[|events| - 1];
      RunsAlike(cfg, init, e.at);
      AlikeStep(cfg, Run(cfg, init), Run(cfg, Requests(init)), e);
      AlikeLater(cfg, Run(cfg, events), Run(cfg, Requests(events)), e.at, now) by {
        assert e.Request? ==> Requests(events)[..|Requests(init)|] == Requests(init);
      }
    } else {
      assert Requests(events) == [];
    }
  }

  /** Whatever cleanup passes are interleaved, each request is decided as by a limiter that never deletes. */
  lemma CleanupIsInvisible(cfg: Limits, events: seq<Event>, i: nat)
    requires Sane(cfg) && Ordered(events) && i < |events| && events[i].Request?
    ensures
      var j := |Requests(events[..i])|;
      && j < |Requests(events)| && Requests(events)[j] == events[i]
      && (Accepted(cfg, events, i) <==> Accepted(cfg, Requests(events), j))
  {
    var j := |Requests(events[..i])|;
    RequestAt(events, i);
    RunsAlike(cfg, events[..i], events[i].at);
    AlikeStep(cfg, Run(cfg, events[..i]), Run(cfg, Requests(events[..i])), events[i]);
    assert Requests(events)[..j] == Requests(events[..i]);
  }

  lemma {:induction false} RequestAt(events: seq<Event>, i: nat)
    requires i < |events| && events[i].Request?
    ensures Requests(events[..i]) + [events[i]] <= Requests(events)
    decreases |events|
  {
    if i < |events| - 1 {
      assert events[..|events| - 1][..i] == events[..i];
      RequestAt(events[..|events| - 1], i);
    }
  }

  // ---------------------------------------------------------------------------
  // The object
  // ---------------------------------------------------------------------------

  /** What one cleanup pass leaves. */
  function Kept(cfg: Limits, clients: Clients, now: real): Clients {
    map key | key in clients && !Full(cfg, clients[key], now) :: clients[key]
  }

  /** Exactly the clients that have spent something not yet refilled are kept, with their buckets. */
  lemma OnlyPartialKept(cfg: Limits, clients: Clients, key: string, now: real)
    ensures key in Kept(cfg, clients, now) <==> key in clients && Level(cfg, Some(clients[key]), now) < cfg.maxTokens
    ensures key in Kept(cfg, clients, now) ==> Kept(cfg, clients, now)[key] == clients[key]
  {
  }

  /** Cleanup looking at one bucket after the other. */
  function Checked(cfg: Limits, clients: Clients, order: seq<string>, now: real): Clients {
    if order == [] then clients
    else Step(cfg, Checked(cfg, clients, order[..|order| - 1], now), Check(order[|order| - 1], now))
  }

  /** A pass is its checks, in whatever order the map is visited. */
  lemma PassIsChecks(cfg: Limits, clients: Clients, order: seq<string>, now: real)
    requires forall key | key in clients :: key in order
    ensures Checked(cfg, clients, order, now) == Kept(cfg, clients, now)
  {
    CheckedKeys(cfg, clients, order, now);
  }

  lemma {:induction false} CheckedKeys(cfg: Limits, clients: Clients, order: seq<string>, now: real)
    ensures
      var left := Checked(cfg, clients, order, now);
      && (forall key :: key in left <==> key in clients && !(key in order && Full(cfg, clients[key], now)))
      && (forall key | key in left :: left[key] == clients[key])
    decreases |order|
  {
    if order != [] {
      hide Full;
      CheckedKeys(cfg, clients, order[..|order| - 1], now);
      assert order == order[..|order| - 1] + [order[|order| - 1]];
    }
  }

  class Limiter {
    const cfg: Limits
    var clients: Clients

    constructor (maxRequests: nat, window: real)
      requires window > 0.0
      ensures Sane(cfg) && cfg.maxTokens == maxRequests as real && Refill(cfg.refillRate, window) == cfg.maxTokens
      ensures clients == Run(cfg, [])
    {
      cfg := Limits(maxRequests as real, maxRequests as real / window);
      clients := map[];
    }

    method Allow(key: string, now: real) returns (ok: bool)
      modifies this
      ensures clients == Step(cfg, old(clients), Request(key, now))
      ensures ok <==> Level(cfg, Find(old(clients), key), now) >= 1.0
    {
      if key !in clients {
        clients := clients[key := Bucket(cfg.maxTokens, now)];
      }
      var cb := clients[key];
      var elapsed := now - cb.lastCheck;
      var tokens := cb.tokens + Refill(cfg.refillRate, elapsed);
      if tokens > cfg.maxTokens {
        tokens := cfg.maxTokens;
      }
      clients := clients[key := Bucket(tokens, now)];
      if tokens < 1.0 {
        return false;
      }
      clients := clients[key := Bucket(tokens - 1.0, now)];
      return true;
    }

    /** One pass: exactly the full buckets go. */
    method Cleanup(now: real)
      modifies this
      ensures clients == Kept(cfg, old(clients), now)
    {
      hide Full;
      var keys := clients.Keys;
      while keys != {}
        invariant keys <= old(clients).Keys && clients.Keys <= old(clients).Keys
        invariant forall key | key in old(clients) ::
            key in clients <==> key in keys || !Full(cfg, old(clients)[key], now)
        invariant forall key | key in clients :: clients[key] == old(clients)[key]
        decreases |keys|
      {
        var key :| key in keys;
        clients := Step(cfg, clients, Check(key, now));
        keys := keys - {key};
      }
    }
  }
}
