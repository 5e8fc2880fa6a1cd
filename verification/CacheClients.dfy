/** Two clients of the shared cache: the ban checker and the single-use token store.  Times are in
  * nanoseconds. */
module CacheClients {
  import opened Wrappers
  import opened TtlCache
  import Rebind

  const SECOND: int := 1_000_000_000

  lemma SamePrefix(prefix: string, a: string, b: string)
    ensures prefix + a == prefix + b <==> a == b
  {
    if prefix + a == prefix + b {
      assert a == (prefix + a)[|prefix|..] && b == (prefix + b)[|prefix|..];
    }
  }

  /** The operations that can give a key a new entry. */
  predicate Writes(op: Op, key: string) {
    (op.Put? || op.Increment?) && op.key == key
  }

  /** Whatever else is done to the shared cache, an entry stays as it is or disappears. */
  lemma EntryKept(c: Cache, op: Op, now: int, key: string)
    requires !Writes(op, key)
    ensures
      var c' := Step(true, c, op, now).0;
      key in c'.entries ==> key in c.entries && c'.entries[key] == c.entries[key]
  {
    hide ParseInt, FormatInt;
  }

  /** And a reader sees no difference, unless the entry is deleted. */
  lemma ReadKept(c: Cache, op: Op, now: int, key: string)
    requires !Writes(op, key) && !(op.Delete? && op.key == key)
    ensures Live(Step(true, c, op, now).0, key, now) == Live(c, key, now)
  {
    hide ParseInt, FormatInt;
  }

  // ---------------------------------------------------------------------------
  // Bans
  // ---------------------------------------------------------------------------

  const BAN_PREFIX := "ban:ip:"
  const BAN_TTL := 30 * SECOND

  function BanKey(host: string): string {
    BAN_PREFIX + host
  }

  /** A ban check, which reads the cache at `at` and writes it, if it does, at `stored`, with what the
    * database answers in between; or an operation of another client. */
  datatype BanEvent = Ask(host: string, database: bool, at: int, stored: int) | Foreign(op: Op, at: int)

  function End(e: BanEvent): int {
    if e.Ask? then e.stored else e.at
  }

  function Verdict(banned: bool): string {
    if banned then "1" else "0"
  }

  /** IsIPBanned. */
  function Check(c: Cache, host: string, database: bool, at: int, stored: int): (Cache, bool) {
    var cached := Live(c, BanKey(host), at);
    if cached.Some? then (c, cached.value.value == "1")
    else (Step(true, c, Put(BanKey(host), Verdict(database), BAN_TTL), stored).0, database)
  }

  function BanStep(c: Cache, e: BanEvent): Cache {
    match e
    case Ask(host, database, at, stored) => Check(c, host, database, at, stored).0
    case Foreign(op, at) => Step(true, c, op, at).0
  }

  function BanRun(events: seq<BanEvent>): Cache {
    if events == [] then EMPTY else BanStep(BanRun(events[..|events| - 1]), events[|events| - 1])
  }

  /** One after the other, under a clock that does not go back. */
  ghost predicate BanHistory(events: seq<BanEvent>) {
    && (forall i | 0 <= i < |events| :: events[i].at <= End(events[i]))
    && (forall i, j | 0 <= i < j < |events| :: End(events[i]) <= events[j].at)
  }

  /** No other client writes the entry of this host. */
  ghost predicate BanUnwritten(events: seq<BanEvent>, host: string) {
    forall i | 0 <= i < |events| :: events[i].Foreign? ==> !Writes(events[i].op, BanKey(host))
  }

  /** The cached verdict is what the database answered at event `j`. */
  predicate Remembers(events: seq<BanEvent>, j: nat, host: string, e: Entry)
    requires j < |events|
  {
    && events[j].Ask? && events[j].host == host
    && e == Entry(Verdict(events[j].database), Some(events[j].stored + BAN_TTL))
  }

  lemma {:induction false} CachedBansAreAnswers(events: seq<BanEvent>, host: string)
    requires BanUnwritten(events, host) && BanKey(host) in BanRun(events).entries
    ensures exists j :: 0 <= j < |events| && Remembers(events, j, host, BanRun(events).entries[BanKey(host)])
    decreases |events|
  {
    var n := |events| - 1;
    var init, e := events[..n], events[n];
    var c, key := BanRun(init), BanKey(host);
    if e.Ask? && e.host == host && Live(c, key, e.at).None? {
      assert Remembers(events, n, host, BanRun(events).entries[key]);
    } else {
      BanKept(c, e, host);
      CachedBansAreAnswers(init, host);
      var j :| 0 <= j < n && Remembers(init, j, host, c.entries[key]);
      assert Remembers(events, j, host, c.entries[key]);
    }
  }

  lemma BanKept(c: Cache, e: BanEvent, host: string)
    requires (e.Foreign? ==> !Writes(e.op, BanKey(host))) && BanKey(host) in BanStep(c, e).entries
    requires !(e.Ask? && e.host == host && Live(c, BanKey(host), e.at).None?)
    ensures BanKey(host) in c.entries && BanStep(c, e).entries[BanKey(host)] == c.entries[BanKey(host)]
  {
    hide Step;
    if e.Foreign? {
      EntryKept(c, e.op, e.at, BanKey(host));
    } else if e.host != host {
      SamePrefix(BAN_PREFIX, e.host, host);
      EntryKept(c, Put(BanKey(e.host), Verdict(e.database), BAN_TTL), e.stored, BanKey(host));
    }
  }

  /** The answer at event `i` is one the database gave, for that address, and that was stored at most thirty
    * seconds earlier. */
  ghost predicate Recent(events: seq<BanEvent>, i: nat)
    requires i < |events| && events[i].Ask?
  {
    var e := events[i];
    var answer := Check(BanRun(events[..i]), e.host, e.database, e.at, e.stored).1;
    exists j :: 0 <= j <= i && AnsweredBy(events, j, e, answer)
  }

  predicate AnsweredBy(events: seq<BanEvent>, j: nat, e: BanEvent, answer: bool)
    requires j < |events| && e.Ask?
  {
    && events[j].Ask? && events[j].host == e.host && answer == events[j].database
    && e.at - 30_000_000_000 <= events[j].stored
  }

  /** Every answer is recent for a host whose entry no other client writes. */
  lemma BanAnswersAreRecent(events: seq<BanEvent>, i: nat)
    requires BanHistory(events) && i < |events| && events[i].Ask? && BanUnwritten(events[..i], events[i].host)
    ensures Recent(events, i)
  {
    var before, e := events[..i], events[i];
    var key := BanKey(e.host);
    var answer := Check(BanRun(before), e.host, e.database, e.at, e.stored).1;
    if Live(BanRun(before), key, e.at).Some? {
      CachedBansAreAnswers(before, e.host);
      var j :| 0 <= j < i && Remembers(before, j, e.host, BanRun(before).entries[key]);
      assert events[j] == before[j];
      assert AnsweredBy(events, j, e, answer);
    } else {
      assert AnsweredBy(events, i, e, answer);
    }
  }

  /** Neither checks of the host nor other clients' operations on its key. */
  ghost predicate Undisturbed(e: BanEvent, host: string) {
    (e.Ask? ==> e.host != host) && (e.Foreign? ==> !Touches(e.op, BanKey(host)))
  }

  lemma BanUndisturbed(c: Cache, e: BanEvent, host: string, later: int)
    requires Undisturbed(e, host) && e.at <= End(e) <= later
    ensures Live(BanStep(c, e), BanKey(host), later) == Live(c, BanKey(host), later)
  {
    hide Step, Live;
    if e.Foreign? {
      StepUntouched(true, c, e.op, e.at, BanKey(host), later);
    } else {
      SamePrefix(BAN_PREFIX, e.host, host);
      StepUntouched(true, c, Put(BanKey(e.host), Verdict(e.database), BAN_TTL), e.stored, BanKey(host), later);
    }
  }

  lemma {:induction false} BanStays(events: seq<BanEvent>, j: nat, i: nat, host: string, later: int)
    requires BanHistory(events) && j <= i <= |events| && (i > 0 ==> End(events[i - 1]) <= later)
    requires forall k | j <= k < i :: Undisturbed(events[k], host)
    ensures Live(BanRun(events[..i]), BanKey(host), later) == Live(BanRun(events[..j]), BanKey(host), later)
    decreases i
  {
    if j < i {
      hide Live, BanStep, Undisturbed;
      assert events[..i][..i - 1] == events[..i - 1];
      BanStays(events, j, i - 1, host, later);
      BanUndisturbed(BanRun(events[..i - 1]), events[i - 1], host, later);
    }
  }

  /** For thirty seconds after a database answer was stored, further checks of that address repeat it, whatever
    * the database would answer by then. */
  lemma BanIsRemembered(events: seq<BanEvent>, j: nat, i: nat)
    requires BanHistory(events) && j < i < |events| && events[j].Ask? && events[i].Ask?
    requires events[i].host == events[j].host && events[i].at <= events[j].stored + 30_000_000_000
    requires forall k | j < k < i :: Undisturbed(events[k], events[j].host)
    requires Live(BanRun(events[..j]), BanKey(events[j].host), events[j].at).None?
    ensures
      var e := events[i];
      Check(BanRun(events[..i]), e.host, e.database, e.at, e.stored).1 == events[j].database
  {
    var host, later := events[j].host, events[i].at;
    assert events[..j + 1][..j] == events[..j];
    BanStays(events, j + 1, i, host, later);
    PutLives(true, BanRun(events[..j]), BanKey(host), Verdict(events[j].database), BAN_TTL, events[j].stored, later);
  }

  /** The histories in which other clients perform operations of the given kind only. */
  ghost predicate BanHistoryOver(ops: iset<Op>, events: seq<BanEvent>) {
    BanHistory(events) && forall i | 0 <= i < |events| :: events[i].Foreign? ==> events[i].op in ops
  }

  /** Answers are always recent exactly when no other client writes under the ban prefix. */
  lemma BansRecentIffUnwritten(ops: iset<Op>)
    ensures
      (forall events: seq<BanEvent>, i | BanHistoryOver(ops, events) && 0 <= i < |events| && events[i].Ask? ::
         Recent(events, i))
      <==> (forall op, host | op in ops :: !Writes(op, BanKey(host)))
  {
    if op, host :| op in ops && Writes(op, BanKey(host)) {
      ForeignBanBreaks(op, host);
      var events := ForgedBan(op, host);
      assert BanHistoryOver(ops, events) && !Recent(events, 1);
    } else {
      forall events: seq<BanEvent>, i | BanHistoryOver(ops, events) && 0 <= i < |events| && events[i].Ask?
        ensures Recent(events, i)
      {
        BanAnswersAreRecent(events, i);
      }
    }
  }

  /** The write, and at once a check that the database answers the other way. */
  function ForgedBan(op: Op, host: string): seq<BanEvent> {
    [Foreign(op, 0), Ask(host, !(op.Increment? || (op.Put? && op.value == "1")), 0, 0)]
  }

  /** Any write of a host's entry by another client, even one, decides a check against the database. */
  lemma ForeignBanBreaks(op: Op, host: string)
    requires Writes(op, BanKey(host))
    ensures BanHistory(ForgedBan(op, host)) && !Recent(ForgedBan(op, host), 1)
  {
    var events := ForgedBan(op, host);
    var c := BanRun(events[..1]);
    assert events[..1] == [Foreign(op, 0)];
    assert events[..1][..0] == [];
    assert c == BanStep(BanRun([]), Foreign(op, 0));
    if op.Put? {
      StoredReads(true, EMPTY, op.key, Written(op.key, op.value, op.ttl, 0), 0, op.key);
    } else {
      assert Rebind.Itoa(1) == "1";
      assert c.entries[op.key].value == "1";
    }
    assert forall j | 0 <= j <= 1 && events[j].Ask? :: j == 1;
  }

  /** For one: after a script's Put of "0" without expiry, an address banned in the database passes a
    * thousand seconds later. */
  lemma ForgedVerdictNeverExpires()
    ensures
      var c := Step(true, EMPTY, Put(BanKey("h"), "0", 0), 0).0;
      Check(c, "h", true, 1000 * SECOND, 1000 * SECOND).1 == false
  {
    StoredReads(true, EMPTY, BanKey("h"), Entry("0", None), 0, BanKey("h"));
    var c := Step(true, EMPTY, Put(BanKey("h"), "0", 0), 0).0;
    LiveLater(c, BanKey("h"), 0, 1000 * SECOND);
  }

  class BanChecker {
    const cache: MemoryCache

    constructor (cache: MemoryCache)
      ensures this.cache == cache
    {
      this.cache := cache;
    }

    method IsIPBanned(host: string, database: bool, at: int, stored: int) returns (banned: bool)
      modifies cache
      ensures (cache.View(), banned) == Check(old(cache.View()), host, database, at, stored)
    {
      var val := cache.Read(BAN_PREFIX + host, at);
      if val.Some? {
        return val.value == "1";
      }
      cache.Write(BAN_PREFIX + host, Verdict(database), BAN_TTL, stored);
      return database;
    }
  }

  // ---------------------------------------------------------------------------
  // Tokens
  // ---------------------------------------------------------------------------

  const TOKEN_PREFIX := "authtoken:"
  const DEFAULT_TTL := 300 * SECOND

  function TokenKey(token: string): string {
    TOKEN_PREFIX + token
  }

  /** How payloads are written and read back. */
  datatype Codec<!P> = Codec(encode: P -> string, decode: string -> Option<P>)

  /** What holds of JSON objects: they read back, and are never taken for numbers or numbers for them. */
  ghost predicate Faithful<P(!new)>(codec: Codec<P>) {
    && (forall p :: codec.decode(codec.encode(p)) == Some(p) && ParseInt(codec.encode(p)).None?)
    && (forall n :: codec.decode(FormatInt(n)).None?)
  }

  /** Bans and tokens never meet: neither client's operations touch the other's keys. */
  lemma KeysApart(host: string, token: string)
    ensures BanKey(host) != TokenKey(token)
  {
    assert BanKey(host)[0] == 'b' && TokenKey(token)[0] == 'a';
  }

  datatype TokenEvent<P> =
    | Issue(token: string, payload: P, at: int)
    | Validate(token: string, at: int)
    | Aside(op: Op, at: int)   // another client's operation

  ghost predicate TokenHistory<P>(events: seq<TokenEvent<P>>) {
    && (forall i | 0 <= i < |events| :: events[i].Issue? ==> events[i].token != "")
    && (forall i, j | 0 <= i < j < |events| :: events[i].at <= events[j].at)
  }

  /** No other client puts an entry under this token. */
  ghost predicate Unforged<P>(events: seq<TokenEvent<P>>, token: string) {
    forall i | 0 <= i < |events| :: events[i].Aside? ==> !Forges(events[i].op, token)
  }

  predicate Forges(op: Op, token: string) {
    op.Put? && op.key == TokenKey(token)
  }

  function Issued<P>(codec: Codec<P>, ttl: int, c: Cache, token: string, payload: P, now: int): Cache {
    Step(true, c, Put(TokenKey(token), codec.encode(payload), ttl), now).0
  }

  /** Validate: a token found is consumed before its payload is read. */
  function Validated<P>(codec: Codec<P>, c: Cache, token: string, now: int): (Cache, Option<P>) {
    if token == "" || Live(c, TokenKey(token), now).None? then (c, None)
    else (Step(true, c, Delete(TokenKey(token)), now).0, codec.decode(Live(c, TokenKey(token), now).value.value))
  }

  function TokenStep<P>(codec: Codec<P>, ttl: int, c: Cache, e: TokenEvent<P>): Cache {
    match e
    case Issue(token, payload, at) => Issued(codec, ttl, c, token, payload, at)
    case Validate(token, at) => Validated(codec, c, token, at).0
    case Aside(op, at) => Step(true, c, op, at).0
  }

  function TokenRun<P>(codec: Codec<P>, ttl: int, events: seq<TokenEvent<P>>): Cache {
    if events == [] then EMPTY
    else TokenStep(codec, ttl, TokenRun(codec, ttl, events[..|events| - 1]), events[|events| - 1])
  }

  /** What the history says: the token is outstanding when the last thing that happened to it was its issue. */
  function Outstanding<P>(ttl: int, events: seq<TokenEvent<P>>, token: string): Option<(P, int)> {
    if events == [] then None
    else
      var init := events[..|events| - 1];
      match events[|events| - 1]
      case Issue(t, payload, at) => if t == token then Some((payload, at + ttl)) else Outstanding(ttl, init, token)
      case Validate(t, _) => if t == token then None else Outstanding(ttl, init, token)
      case Aside(op, _) =>
        if op.Delete? && op.key == TokenKey(token) then None else Outstanding(ttl, init, token)
  }

  /** The entry seen for a token: its payload while it is outstanding and in time; otherwise nothing, or a
    * number some other client counts there. */
  ghost predicate Shows<P>(codec: Codec<P>, live: Option<Entry>, o: Option<(P, int)>, now: int) {
    if o.Some? && now <= o.value.1 then live == Some(Entry(codec.encode(o.value.0), Some(o.value.1)))
    else live.Some? ==> exists n :: live.value.value == FormatInt(n)
  }

  lemma ShowsLater<P>(codec: Codec<P>, c: Cache, key: string, o: Option<(P, int)>, at: int, now: int)
    requires Shows(codec, Live(c, key, at), o, at) && at <= now
    ensures Shows(codec, Live(c, key, now), o, now)
  {
    LiveLater(c, key, at, now);
  }

  lemma IssueShows<P>(codec: Codec<P>, ttl: int, c: Cache, t: string, payload: P, at: int, token: string)
    requires ttl > 0
    ensures
      Live(Issued(codec, ttl, c, t, payload, at), TokenKey(token), at)
      == if t == token then Some(Entry(codec.encode(payload), Some(at + ttl))) else Live(c, TokenKey(token), at)
  {
    SamePrefix(TOKEN_PREFIX, t, token);
    StoredReads(true, c, TokenKey(t), Written(TokenKey(t), codec.encode(payload), ttl, at), at, TokenKey(token));
  }

  lemma AsideShows<P(!new)>(codec: Codec<P>, c: Cache, op: Op, at: int, token: string, o: Option<(P, int)>)
    requires Faithful(codec) && !Forges(op, token) && Shows(codec, Live(c, TokenKey(token), at), o, at)
    ensures
      var live := Live(Step(true, c, op, at).0, TokenKey(token), at);
      Shows(codec, live, if op.Delete? && op.key == TokenKey(token) then None else o, at)
  {
    var key := TokenKey(token);
    if op.Increment? && op.key == key {
      hide ParseInt, FormatInt;
      if o.Some? && at <= o.value.1 {
        assert ParseInt(codec.encode(o.value.0)).None?;
      }
    } else if !(op.Delete? && op.key == key) {
      ReadKept(c, op, at, key);
      hide Step, FormatInt;
    }
  }

  lemma TokenStepShows<P(!new)>(
    codec: Codec<P>, ttl: int, c: Cache, e: TokenEvent<P>, token: string, init: seq<TokenEvent<P>>)
    requires ttl > 0 && Faithful(codec) && token != "" && (e.Aside? ==> !Forges(e.op, token))
    requires Shows(codec, Live(c, TokenKey(token), e.at), Outstanding(ttl, init, token), e.at)
    ensures
      Shows(codec, Live(TokenStep(codec, ttl, c, e), TokenKey(token), e.at), Outstanding(ttl, init + [e], token), e.at)
  {
    assert (init + [e])[..|init|] == init;
    match e
    case Issue(t, payload, at) =>
      IssueShows(codec, ttl, c, t, payload, at, token);
      hide Step, Issued;
    case Validate(t, at) =>
      SamePrefix(TOKEN_PREFIX, t, token);
    case Aside(op, at) =>
      AsideShows(codec, c, op, at, token, Outstanding(ttl, init, token));
      hide Step;
  }

  /** At every point of every run the cache shows exactly the outstanding tokens. */
  lemma {:induction false} CacheHoldsOutstanding<P(!new)>(
    codec: Codec<P>, ttl: int, events: seq<TokenEvent<P>>, token: string, now: int)
    requires ttl > 0 && Faithful(codec) && TokenHistory(events) && token != "" && Unforged(events, token)
    requires events != [] ==> events[|events| - 1].at <= now
    ensures Shows(codec, Live(TokenRun(codec, ttl, events), TokenKey(token), now), Outstanding(ttl, events, token), now)
    decreases |events|
  {
    if events != [] {
      hide Shows, TokenStep, Faithful;
      var init, e := events[..|events| - 1], events[|events| - 1];
      CacheHoldsOutstanding(codec, ttl, init, token, e.at);
      TokenStepShows(codec, ttl, TokenRun(codec, ttl, init), e, token, init);
      assert init + [e] == events;
      ShowsLater(codec, TokenRun(codec, ttl, events), TokenKey(token), Outstanding(ttl, events, token), e.at, now);
    }
  }

  /** The answer history demands of a validation: the payload of an outstanding token in time, else none. */
  ghost predicate Rightly<P>(codec: Codec<P>, ttl: int, events: seq<TokenEvent<P>>, i: nat)
    requires i < |events| && events[i].Validate?
  {
    var e := events[i];
    var o := Outstanding(ttl, events[..i], e.token);
    Validated(codec, TokenRun(codec, ttl, events[..i]), e.token, e.at).1
    == if o.Some? && e.at <= o.value.1 then Some(o.value.0) else None
  }

  /** A token validates exactly when it was issued, neither presented nor deleted since, and is within its
    * time to live; and it gives back the payload it was issued for. */
  lemma ValidatesIffOutstanding<P(!new)>(codec: Codec<P>, ttl: int, events: seq<TokenEvent<P>>, i: nat)
    requires ttl > 0 && Faithful(codec) && TokenHistory(events) && i < |events| && events[i].Validate?
    requires Unforged(events[..i], events[i].token)
    ensures Rightly(codec, ttl, events, i)
  {
    var e := events[i];
    hide FormatInt, ParseInt;
    if e.token != "" {
      CacheHoldsOutstanding(codec, ttl, events[..i], e.token, e.at);
    } else {
      NeverIssued(ttl, events[..i]);
    }
  }

  lemma {:induction false} NeverIssued<P>(ttl: int, events: seq<TokenEvent<P>>)
    requires TokenHistory(events)
    ensures Outstanding(ttl, events, "").None?
    decreases |events|
  {
    if events != [] {
      NeverIssued(ttl, events[..|events| - 1]);
    }
  }

  ghost predicate TokenHistoryOver<P>(ops: iset<Op>, events: seq<TokenEvent<P>>) {
    TokenHistory(events) && forall i | 0 <= i < |events| :: events[i].Aside? ==> events[i].op in ops
  }

  /** Every validation is answered rightly exactly when no other client puts entries under tokens. */
  lemma TokensRightIffUnforged<P(!new)>(codec: Codec<P>, ttl: int, ops: iset<Op>, p: P)
    requires ttl > 0 && Faithful(codec)
    ensures
      (forall events: seq<TokenEvent<P>>, i
         | TokenHistoryOver(ops, events) && 0 <= i < |events| && events[i].Validate? ::
         Rightly(codec, ttl, events, i))
      <==> (forall op, token | op in ops && token != "" :: !Forges(op, token))
  {
    if op, token :| op in ops && token != "" && Forges(op, token) {
      var events := Forgery(codec, op, token, p);
      ForgeryBreaks(codec, ttl, op, token, p);
      assert TokenHistoryOver(ops, events) && !Rightly(codec, ttl, events, |events| - 1);
    } else {
      forall events: seq<TokenEvent<P>>, i | TokenHistoryOver(ops, events) && 0 <= i < |events| && events[i].Validate?
        ensures Rightly(codec, ttl, events, i)
      {
        if events[i].token == "" {
          NeverIssued(ttl, events[..i]);
        } else {
          ValidatesIffOutstanding(codec, ttl, events, i);
        }
      }
    }
  }

  /** The entry put there and presented -- over an issued token when the entry is no payload. */
  function Forgery<P>(codec: Codec<P>, op: Op, token: string, p: P): seq<TokenEvent<P>>
    requires Forges(op, token)
  {
    if codec.decode(op.value).Some? then [Aside(op, 0), Validate(token, 0)]
    else [Issue(token, p, 0), Aside(op, 0), Validate(token, 0)]
  }

  lemma ForgeryBreaks<P(!new)>(codec: Codec<P>, ttl: int, op: Op, token: string, p: P)
    requires ttl > 0 && token != "" && Forges(op, token)
    ensures
      var events := Forgery(codec, op, token, p);
      TokenHistory(events) && !Rightly(codec, ttl, events, |events| - 1)
  {
    var events := Forgery(codec, op, token, p);
    var n := |events| - 1;
    var c := TokenRun(codec, ttl, events[..n - 1]);
    assert events[..n][..n - 1] == events[..n - 1];
    assert TokenRun(codec, ttl, events[..n]) == Step(true, c, op, 0).0;
    StoredReads(true, c, op.key, Written(op.key, op.value, op.ttl, 0), 0, op.key);
    assert Outstanding(ttl, events[..n], token) == Outstanding(ttl, events[..n - 1], token);
    if n == 1 {
      assert events[..0] == [];
    } else {
      assert events[..1][..0] == [];
    }
  }

  /** Between two successes of one token there is another issue of it: an issue authorizes at most once. */
  lemma AtMostOnce<P(!new)>(codec: Codec<P>, ttl: int, events: seq<TokenEvent<P>>, i: nat, j: nat)
    requires ttl > 0 && Faithful(codec) && TokenHistory(events)
    requires i < j < |events| && events[i].Validate? && events[j].Validate? && events[i].token == events[j].token
    requires Unforged(events[..j], events[j].token)
    requires Validated(codec, TokenRun(codec, ttl, events[..j]), events[j].token, events[j].at).1.Some?
    ensures exists k :: i < k < j && events[k].Issue? && events[k].token == events[j].token
  {
    ValidatesIffOutstanding(codec, ttl, events, j);
    LastIssue(ttl, events[..j], events[j].token, i);
    var k :| i < k < j && events[..j][k].Issue? && events[..j][k].token == events[j].token;
    assert events[k] == events[..j][k];
  }

  lemma {:induction false} LastIssue<P>(ttl: int, events: seq<TokenEvent<P>>, token: string, i: nat)
    requires Outstanding(ttl, events, token).Some? && i < |events| && events[i].Validate? && events[i].token == token
    ensures exists k :: i < k < |events| && events[k].Issue? && events[k].token == token
    decreases |events|
  {
    var n := |events| - 1;
    if !(events[n].Issue? && events[n].token == token) {
      assert events[..n][i] == events[i];
      LastIssue(ttl, events[..n], token, i);
      var k :| i < k < n && events[..n][k].Issue? && events[..n][k].token == token;
      assert events[k] == events[..n][k];
    }
  }

  // ---------------------------------------------------------------------------
  // Two validations at once
  // ---------------------------------------------------------------------------

  /** Validate taken apart: validation `v` fetches the entry, and erases it if it found one. */
  datatype RaceEvent<P> =
    | Mint(token: string, payload: P, at: int)
    | Fetch(v: nat, token: string, at: int)
    | Erase(v: nat, token: string, at: int)
    | Stray(op: Op, at: int)

  function RaceStep<P>(codec: Codec<P>, ttl: int, c: Cache, e: RaceEvent<P>): Cache {
    match e
    case Mint(token, payload, at) => Issued(codec, ttl, c, token, payload, at)
    case Fetch(_, _, _) => c
    case Erase(_, token, at) => Step(true, c, Delete(TokenKey(token)), at).0
    case Stray(op, at) => Step(true, c, op, at).0
  }

  function RaceRun<P>(codec: Codec<P>, ttl: int, events: seq<RaceEvent<P>>): Cache {
    if events == [] then EMPTY
    else RaceStep(codec, ttl, RaceRun(codec, ttl, events[..|events| - 1]), events[|events| - 1])
  }

  /** The fetch at `i` finds the token. */
  predicate Finds<P>(codec: Codec<P>, ttl: int, events: seq<RaceEvent<P>>, i: nat, token: string)
    requires i < |events|
  {
    && events[i].Fetch? && events[i].token == token
    && Live(RaceRun(codec, ttl, events[..i]), TokenKey(token), events[i].at).Some?
  }

  /** The event gives the token an entry. */
  predicate Brings<P>(e: RaceEvent<P>, token: string) {
    (e.Mint? && e.token == token) || (e.Stray? && Writes(e.op, TokenKey(token)))
  }

  lemma StepBringsNothing<P>(codec: Codec<P>, ttl: int, c: Cache, e: RaceEvent<P>, token: string)
    requires TokenKey(token) !in c.entries && !Brings(e, token)
    ensures TokenKey(token) !in RaceStep(codec, ttl, c, e).entries
  {
    var key := TokenKey(token);
    match e
    case Mint(t, payload, at) =>
      SamePrefix(TOKEN_PREFIX, t, token);
      EntryKept(c, Put(TokenKey(t), codec.encode(payload), ttl), at, key);
    case Fetch(_, _, _) =>
    case Erase(_, t, at) =>
    case Stray(op, at) =>
      EntryKept(c, op, at, key);
  }

  lemma {:induction false} StaysErased<P>(
    codec: Codec<P>, ttl: int, events: seq<RaceEvent<P>>, k: nat, j: nat, token: string)
    requires k < j <= |events| && events[k].Erase? && events[k].token == token
    requires forall i | k < i < j :: !Brings(events[i], token)
    ensures TokenKey(token) !in RaceRun(codec, ttl, events[..j]).entries
    decreases j
  {
    assert events[..j][..j - 1] == events[..j - 1];
    if j > k + 1 {
      StaysErased(codec, ttl, events, k, j - 1, token);
      StepBringsNothing(codec, ttl, RaceRun(codec, ttl, events[..j - 1]), events[j - 1], token);
    }
  }

  /** One issue lets two validations through only if the second fetches before the first has erased. */
  lemma TwiceOnlyIfOverlapping<P>(
    codec: Codec<P>, ttl: int, events: seq<RaceEvent<P>>, i: nat, j: nat, e: nat, token: string)
    requires i < j < |events| && Finds(codec, ttl, events, i, token) && Finds(codec, ttl, events, j, token)
    requires forall k | i < k < j :: !Brings(events[k], token)
    requires i < e < |events| && events[e] == Erase(events[i].v, token, events[e].at)
    ensures i < j < e
  {
    if e < j {
      StaysErased(codec, ttl, events, e, j, token);
    }
  }

  /** And then both do get through: two validations of one token, each fetching before either erases. */
  lemma RaceAuthorizesTwice<P(!new)>(codec: Codec<P>, ttl: int, token: string, p: P)
    requires ttl > 0 && Faithful(codec)
    ensures
      var events := [Mint(token, p, 0), Fetch(1, token, 0), Fetch(2, token, 0), Erase(1, token, 0), Erase(2, token, 0)];
      forall i | 1 <= i <= 2 ::
        && Finds(codec, ttl, events, i, token)
        && codec.decode(Live(RaceRun(codec, ttl, events[..i]), TokenKey(token), 0).value.value) == Some(p)
  {
    var events := [Mint(token, p, 0), Fetch(1, token, 0), Fetch(2, token, 0), Erase(1, token, 0), Erase(2, token, 0)];
    hide ParseInt, FormatInt;
    var c := Issued(codec, ttl, EMPTY, token, p, 0);
    IssueShows(codec, ttl, EMPTY, token, p, 0, token);
    assert events[..1] == [Mint(token, p, 0)] && events[..1][..0] == [];
    assert RaceRun(codec, ttl, events[..1]) == c;
    assert events[..2][..1] == events[..1];
    assert RaceRun(codec, ttl, events[..2]) == c;
  }

  class CacheTokenStore<P> {
    const cache: MemoryCache
    const codec: Codec<P>
    const ttl: int

    constructor (cache: MemoryCache, codec: Codec<P>, ttl: int)
      ensures this.cache == cache && this.codec == codec && this.ttl == (if ttl <= 0 then 300_000_000_000 else ttl)
      ensures this.ttl > 0
    {
      this.cache, this.codec, this.ttl := cache, codec, if ttl <= 0 then DEFAULT_TTL else ttl;
    }

    /** `token` is the random identifier drawn. */
    method IssueToken(token: string, payload: P, now: int)
      modifies cache
      ensures cache.View() == Issued(codec, ttl, old(cache.View()), token, payload, now)
    {
      cache.Write(TOKEN_PREFIX + token, codec.encode(payload), ttl, now);
    }

    method ValidateToken(token: string, now: int) returns (payload: Option<P>)
      modifies cache
      ensures (cache.View(), payload) == Validated(codec, old(cache.View()), token, now)
    {
      if token == "" {
        return None;
      }
      var key := TOKEN_PREFIX + token;
      var data := cache.Read(key, now);
      if data.None? {
        return None;
      }
      cache.Drop(key);
      return codec.decode(data.value);
    }
  }
}
