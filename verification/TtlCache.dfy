/** The in-memory cache: entries with a time to live, swept once every thousand writes. */
module TtlCache {
  import opened Wrappers
  import Rebind

  // ---------------------------------------------------------------------------
  // Decimal int64 values
  // ---------------------------------------------------------------------------

  const MAX_INT64: int := 0x7FFF_FFFF_FFFF_FFFF
  const MIN_INT64: int := -0x8000_0000_0000_0000

  predicate AllDigits(s: string) {
    s != [] && forall i | 0 <= i < |s| :: Rebind.IsDigit(s[i])
  }

  function InRange(n: int): Option<int> {
    if MIN_INT64 <= n <= MAX_INT64 then Some(n) else None
  }

  /** strconv.ParseInt in base 10: an optional sign, at least one digit, nothing else. */
  function ParseInt(s: string): Option<int> {
    if s == [] then None
    else
      var digits := if s[0] == '+' || s[0] == '-' then s[1..] else s;
      if !AllDigits(digits) then None
      else InRange(if s[0] == '-' then -(Rebind.Number(digits) as int) else Rebind.Number(digits))
  }

  function FormatInt(n: int): string {
    if n < 0 then "-" + Rebind.Itoa(-n) else Rebind.Itoa(n)
  }

  lemma ParseDigits(s: string)
    requires AllDigits(s)
    ensures ParseInt(s) == InRange(Rebind.Number(s)) == ParseInt("+" + s)
    ensures ParseInt("-" + s) == InRange(-(Rebind.Number(s) as int))
  {
    hide Rebind.Number, InRange;
    assert Rebind.IsDigit(s[0]);
    assert ("-" + s)[1..] == s == ("+" + s)[1..];
  }

  /** Digits alone, with a minus sign before a negative number only. */
  lemma FormatForm(n: int)
    ensures n >= 0 ==> AllDigits(FormatInt(n))
    ensures n < 0 ==> FormatInt(n)[..1] == "-" && AllDigits(FormatInt(n)[1..])
  {
    hide Rebind.Itoa;
  }

  lemma ParseFormatted(n: int)
    requires MIN_INT64 <= n <= MAX_INT64
    ensures ParseInt(FormatInt(n)) == Some(n)
  {
    hide Rebind.Number, Rebind.Itoa, ParseInt;
    var k := if n < 0 then -n else n;
    ParseDigits(Rebind.Itoa(k));
    Rebind.NumberItoa(k);
  }

  // ---------------------------------------------------------------------------
  // State and operations
  // ---------------------------------------------------------------------------

  datatype Entry = Entry(value: string, expiresAt: Option<int>)

  datatype Cache = Cache(entries: map<string, Entry>, sets: map<string, set<string>>, writeCount: nat)

  const EMPTY := Cache(map[], map[], 0)
  const SWEEP_INTERVAL := 1000

  predicate Expired(e: Entry, now: int) {
    e.expiresAt.Some? && now > e.expiresAt.value
  }

  /** The entry a reader sees. */
  function Live(c: Cache, key: string, now: int): Option<Entry> {
    if key in c.entries && !Expired(c.entries[key], now) then Some(c.entries[key]) else None
  }

  function Swept(entries: map<string, Entry>, now: int): map<string, Entry> {
    map key | key in entries && !Expired(entries[key], now) :: entries[key]
  }

  datatype Op =
    | Get(key: string)
    | Put(key: string, value: string, ttl: int)
    | Increment(key: string)
    | Delete(key: string)
    | Exists(key: string)
    | SetAddOnce(key: string, member: string)
    | SetRemove(key: string, member: string)
    | SetMembers(key: string)
    | SetIsMember(key: string, member: string)

  datatype Answer =
    | Done
    | Found(value: Option<string>)
    | Flag(yes: bool)
    | Number(n: int)
    | Members(members: set<string>)
    | HoldsSet | NotANumber | Overflow

  function SetOf(c: Cache, key: string): set<string> {
    if key in c.sets then c.sets[key] else {}
  }

  function Written(key: string, value: string, ttl: int, now: int): Entry {
    Entry(value, if ttl > 0 then Some(now + ttl) else None)
  }

  function Stored(sweeping: bool, c: Cache, key: string, e: Entry, now: int): Cache {
    var entries := c.entries[key := e];
    if c.writeCount + 1 >= SWEEP_INTERVAL then
      c.(entries := if sweeping then Swept(entries, now) else entries, writeCount := 0)
    else c.(entries := entries, writeCount := c.writeCount + 1)
  }

  /** A live counter keeps its expiry; a new one has none. */
  function Incremented(c: Cache, key: string, now: int): (Cache, Answer) {
    if key in c.sets then (c, HoldsSet)
    else
      var live := Live(c, key, now);
      var value := if live.None? then Some(0) else ParseInt(live.value.value);
      if value.None? then (c, NotANumber)
      else if value.value == MAX_INT64 then (c, Overflow)
      else
        var e := Entry(FormatInt(value.value + 1), if live.None? then None else live.value.expiresAt);
        (c.(entries := c.entries[key := e]), Number(value.value + 1))
  }

  function Removed(c: Cache, key: string, member: string): Cache {
    if key !in c.sets then c
    else if c.sets[key] - {member} == {} then c.(sets := c.sets - {key})
    else c.(sets := c.sets[key := c.sets[key] - {member}])
  }

  function Step(sweeping: bool, c: Cache, op: Op, now: int): (Cache, Answer) {
    match op
    case Get(key) => (c, Found(if Live(c, key, now).None? then None else Some(Live(c, key, now).value.value)))
    case Put(key, value, ttl) => (Stored(sweeping, c, key, Written(key, value, ttl, now), now), Done)
    case Increment(key) => Incremented(c, key, now)
    case Delete(key) => (c.(entries := c.entries - {key}, sets := c.sets - {key}), Done)
    case Exists(key) => (c, Flag(Live(c, key, now).Some?))
    case SetAddOnce(key, member) =>
      (c.(sets := c.sets[key := SetOf(c, key) + {member}]), Flag(member !in SetOf(c, key)))
    case SetRemove(key, member) => (Removed(c, key, member), Done)
    case SetMembers(key) => (c, Members(SetOf(c, key)))
    case SetIsMember(key, member) => (c, Flag(member in SetOf(c, key)))
  }

  // ---------------------------------------------------------------------------
  // Sweeping cannot be observed
  // ---------------------------------------------------------------------------

  datatype Event = Event(op: Op, at: int)

  function Run(sweeping: bool, events: seq<Event>): Cache {
    if events == [] then EMPTY
    else Step(sweeping, Run(sweeping, events[..|events| - 1]), events[|events| - 1].op, events[|events| - 1].at).0
  }

  function AnswerAt(sweeping: bool, events: seq<Event>, i: nat): Answer
    requires i < |events|
  {
    Step(sweeping, Run(sweeping, events[..i]), events[i].op, events[i].at).1
  }

  ghost predicate Monotone(events: seq<Event>) {
    forall i, j | 0 <= i < j < |events| :: events[i].at <= events[j].at
  }

  /** The same sets, and the same entries as far as a reader can tell. */
  ghost predicate Alike(a: Cache, b: Cache, now: int) {
    a.sets == b.sets && a.writeCount == b.writeCount && forall key :: Live(a, key, now) == Live(b, key, now)
  }

  lemma AlikeLater(a: Cache, b: Cache, at: int, now: int)
    requires Alike(a, b, at) && at <= now
    ensures Alike(a, b, now)
  {
    forall key
      ensures Live(a, key, now) == Live(b, key, now)
    {
      LiveLater(a, key, at, now);
      LiveLater(b, key, at, now);
    }
  }

  /** An entry that has expired stays so. */
  lemma LiveLater(c: Cache, key: string, at: int, now: int)
    requires at <= now
    ensures Live(c, key, now) == var e := Live(c, key, at); if e.Some? && !Expired(e.value, now) then e else None
  {
  }

  lemma StoredReads(sweeping: bool, c: Cache, key: string, e: Entry, now: int, other: string)
    ensures Live(Stored(sweeping, c, key, e, now), other, now)
         == if other == key then (if Expired(e, now) then None else Some(e)) else Live(c, other, now)
  {
  }

  lemma AlikeStep(a: Cache, b: Cache, op: Op, now: int)
    requires Alike(a, b, now)
    ensures Alike(Step(true, a, op, now).0, Step(false, b, op, now).0, now)
    ensures Step(true, a, op, now).1 == Step(false, b, op, now).1
  {
    match op {
      case Put(key, value, ttl) =>
        var e := Written(key, value, ttl, now);
        forall other
          ensures Live(Stored(true, a, key, e, now), other, now) == Live(Stored(false, b, key, e, now), other, now)
        {
          StoredReads(true, a, key, e, now, other);
          StoredReads(false, b, key, e, now, other);
          assert Live(a, other, now) == Live(b, other, now);
        }
      case Increment(key) =>
        IncrementAlike(a, b, key, now);
      case Delete(key) =>
        var a', b' := Step(true, a, op, now).0, Step(false, b, op, now).0;
        assert forall other :: Live(a', other, now) == if other == key then None else Live(a, other, now);
        assert forall other :: Live(b', other, now) == if other == key then None else Live(b, other, now);
      case SetAddOnce(key, member) =>
        SetsOnly(a, b, Step(true, a, op, now).0, Step(false, b, op, now).0, now);
      case SetRemove(key, member) =>
        SetsOnly(a, b, Step(true, a, op, now).0, Step(false, b, op, now).0, now);
      case Get(key) =>
      case Exists(key) =>
      case SetMembers(key) =>
      case SetIsMember(key, member) =>
    }
  }

  lemma SetsOnly(a: Cache, b: Cache, a': Cache, b': Cache, now: int)
    requires Alike(a, b, now) && a'.entries == a.entries && b'.entries == b.entries
    requires a'.sets == b'.sets && a'.writeCount == b'.writeCount
    ensures Alike(a', b', now)
  {
    assert forall key :: Live(a', key, now) == Live(a, key, now) && Live(b', key, now) == Live(b, key, now);
  }

  lemma IncrementAlike(a: Cache, b: Cache, key: string, now: int)
    requires Alike(a, b, now)
    ensures Alike(Incremented(a, key, now).0, Incremented(b, key, now).0, now)
    ensures Incremented(a, key, now).1 == Incremented(b, key, now).1
  {
    hide ParseInt, FormatInt;
    assert Live(a, key, now) == Live(b, key, now);
    var a', b' := Incremented(a, key, now).0, Incremented(b, key, now).0;
    forall other
      ensures Live(a', other, now) == Live(b', other, now)
    {
      assert Live(a, other, now) == Live(b, other, now);
    }
  }

  lemma {:induction false} RunsAlike(events: seq<Event>, now: int)
    requires Monotone(events) && (events != [] ==> events[|events| - 1].at <= now)
    ensures Alike(Run(true, events), Run(false, events), now)
    decreases |events|
  {
    if events != [] {
      hide Alike, Step;
      var init, e := events[..|events| - 1], events[|events| - 1];
      RunsAlike(init, e.at);
      AlikeStep(Run(true, init), Run(false, init), e.op, e.at);
      AlikeLater(Run(true, events), Run(false, events), e.at, now);
    }
  }

  /** Every answer of the sweeping cache is the answer of one that never sweeps. */
  lemma SweepingIsInvisible(events: seq<Event>, i: nat)
    requires Monotone(events) && i < |events|
    ensures AnswerAt(true, events, i) == AnswerAt(false, events, i)
  {
    hide Step;
    RunsAlike(events[..i], events[i].at);
    AlikeStep(Run(true, events[..i]), Run(false, events[..i]), events[i].op, events[i].at);
  }

  function Puts(events: seq<Event>): nat {
    if events == [] then 0
    else Puts(events[..|events| - 1]) + if events[|events| - 1].op.Put? then 1 else 0
  }

  lemma {:induction false} WritesAreCounted(sweeping: bool, events: seq<Event>)
    ensures Run(sweeping, events).writeCount == Puts(events) % 1000
    decreases |events|
  {
    if events != [] {
      hide Swept, ParseInt, FormatInt, Live;
      WritesAreCounted(sweeping, events[..|events| - 1]);
    }
  }

  /** Every thousandth `Put` leaves nothing expired behind. */
  lemma SweptEveryThousand(events: seq<Event>)
    requires events != [] && events[|events| - 1].op.Put? && Puts(events) % 1000 == 0
    ensures
      var c, now := Run(true, events), events[|events| - 1].at;
      forall key | key in c.entries :: c.entries[key].expiresAt.None? || now <= c.entries[key].expiresAt.value
  {
    hide ParseInt, FormatInt;
    WritesAreCounted(true, events[..|events| - 1]);
  }

  /** A counter counts: the next increment, while the entry lives, answers one more and keeps the expiry. */
  lemma CountsUp(c: Cache, key: string, now: int, later: int)
    requires Incremented(c, key, now).1.Number? && Incremented(c, key, now).1.n < MAX_INT64
    requires Live(Incremented(c, key, now).0, key, later).Some?
    ensures
      var (c', n) := Incremented(c, key, now);
      && Incremented(c', key, later).1 == Number(n.n + 1)
      && Incremented(c', key, later).0.entries[key].expiresAt == c'.entries[key].expiresAt
  {
    var (c', n) := Incremented(c, key, now);
    assert MIN_INT64 <= n.n;
    hide ParseInt, FormatInt;
    ParseFormatted(n.n);
  }

  /** No set is ever kept empty, in any run. */
  lemma {:induction false} NoEmptySets(sweeping: bool, events: seq<Event>)
    ensures forall key | key in Run(sweeping, events).sets :: Run(sweeping, events).sets[key] != {}
    decreases |events|
  {
    if events != [] {
      hide Swept, ParseInt, FormatInt, Live;
      NoEmptySets(sweeping, events[..|events| - 1]);
    }
  }

  /** A member is added once: it is there afterwards and a second addition says so, until it is removed. */
  lemma AddedOnce(sweeping: bool, c: Cache, key: string, member: string, now: int)
    ensures
      var (added, first) := Step(sweeping, c, SetAddOnce(key, member), now);
      && Step(sweeping, added, SetIsMember(key, member), now).1 == Flag(true)
      && Step(sweeping, added, SetAddOnce(key, member), now) == (added, Flag(false))
      && (first == Flag(true) && (forall k | k in c.sets :: c.sets[k] != {}) ==>
            Step(sweeping, added, SetRemove(key, member), now).0 == c)
  {
    var added := Step(sweeping, c, SetAddOnce(key, member), now).0;
    assert SetOf(added, key) + {member} == SetOf(added, key);
    assert added.sets[key := SetOf(added, key)] == added.sets;
    if member !in SetOf(c, key) {
      assert added.sets[key] - {member} == SetOf(c, key);
      if key in c.sets {
        assert added.sets[key := c.sets[key]] == c.sets;
      } else {
        assert added.sets - {key} == c.sets;
      }
    }
  }

  // ---------------------------------------------------------------------------
  // What readers see
  // ---------------------------------------------------------------------------

  /** An operation that may change the entry under `key`. */
  predicate Touches(op: Op, key: string) {
    (op.Put? || op.Increment? || op.Delete?) && op.key == key
  }

  lemma StepUntouched(sweeping: bool, c: Cache, op: Op, now: int, key: string, later: int)
    requires now <= later && !Touches(op, key)
    ensures Live(Step(sweeping, c, op, now).0, key, later) == Live(c, key, later)
  {
    hide ParseInt, FormatInt;
  }

  /** Whatever happens to other keys, and to sets, an entry reads as its last write left it. */
  lemma {:induction false} Untouched(
    sweeping: bool, events: seq<Event>, j: nat, i: nat, key: string, later: int)
    requires Monotone(events) && j <= i <= |events| && (i > 0 ==> events[i - 1].at <= later)
    requires forall k | j <= k < i :: !Touches(events[k].op, key)
    ensures Live(Run(sweeping, events[..i]), key, later) == Live(Run(sweeping, events[..j]), key, later)
    decreases i
  {
    if j < i {
      hide Live, Step, Touches;
      var e := events[i - 1];
      assert events[..i][..i - 1] == events[..i - 1];
      Untouched(sweeping, events, j, i - 1, key, later);
      StepUntouched(sweeping, Run(sweeping, events[..i - 1]), e.op, e.at, key, later);
    }
  }

  ghost predicate LastTouch(events: seq<Event>, j: nat, i: nat, key: string) {
    j < i < |events| && Touches(events[j].op, key) && forall k | j < k < i :: !Touches(events[k].op, key)
  }

  lemma ReadsLastTouch(sweeping: bool, events: seq<Event>, j: nat, i: nat, key: string)
    requires Monotone(events) && LastTouch(events, j, i, key)
    ensures
      Live(Run(sweeping, events[..i]), key, events[i].at)
      == Live(Step(sweeping, Run(sweeping, events[..j]), events[j].op, events[j].at).0, key, events[i].at)
  {
    hide Live, Step;
    Untouched(sweeping, events, j + 1, i, key, events[i].at);
    assert events[..j + 1][..j] == events[..j];
  }

  /** In every run a key whose last write is a `Put` reads as the value put, for as long as its time to live
    * says, and whether or not there have been sweeps. */
  lemma PutIsRead(sweeping: bool, events: seq<Event>, j: nat, i: nat, key: string, value: string, ttl: int)
    requires Monotone(events) && LastTouch(events, j, i, key) && events[j].op == Put(key, value, ttl)
    ensures
      var alive := ttl <= 0 || events[i].at <= events[j].at + ttl;
      && (events[i].op == Get(key) ==> AnswerAt(sweeping, events, i) == Found(if alive then Some(value) else None))
      && (events[i].op == Exists(key) ==> AnswerAt(sweeping, events, i) == Flag(alive))
  {
    ReadsLastTouch(sweeping, events, j, i, key);
  }

  /** A deleted key has neither value nor set, and counts from one. */
  lemma DeleteIsRead(sweeping: bool, events: seq<Event>, j: nat, i: nat, key: string)
    requires Monotone(events) && LastTouch(events, j, i, key) && events[j].op == Delete(key)
    ensures events[i].op == Get(key) ==> AnswerAt(sweeping, events, i) == Found(None)
    ensures events[i].op == Exists(key) ==> AnswerAt(sweeping, events, i) == Flag(false)
    ensures events[i].op == Increment(key) && (forall m :: !StillIn(events[..i], key, m)) ==>
              AnswerAt(sweeping, events, i) == Number(1)
  {
    ReadsLastTouch(sweeping, events, j, i, key);
    NoSetLeft(sweeping, events[..i], key);
    hide StillIn;
  }

  /** A counter set to a number goes on from there, and one that holds anything else is refused. */
  lemma PutThenIncrement(sweeping: bool, events: seq<Event>, j: nat, i: nat, key: string, value: string, ttl: int)
    requires Monotone(events) && LastTouch(events, j, i, key) && events[j].op == Put(key, value, ttl)
    requires ttl <= 0 || events[i].at <= events[j].at + ttl
    requires events[i].op == Increment(key) && forall m :: !StillIn(events[..i], key, m)
    ensures
      match ParseInt(value)
      case None => AnswerAt(sweeping, events, i) == NotANumber
      case Some(n) => AnswerAt(sweeping, events, i) == if n == MAX_INT64 then Overflow else Number(n + 1)
  {
    hide ParseInt, FormatInt;
    ReadsLastTouch(sweeping, events, j, i, key);
    NoSetLeft(sweeping, events[..i], key);
    hide StillIn;
  }

  /** Counting up does not prolong an entry's life. */
  lemma IncrementKeepsLife(sweeping: bool, c: Cache, key: string, now: int, later: int, until: Option<int>)
    requires now <= later && (until.Some? ==> now <= until.value)
    requires key in c.entries && c.entries[key].expiresAt == until
    ensures
      var c' := Step(sweeping, c, Increment(key), now).0;
      key in c'.entries && c'.entries[key].expiresAt == until
  {
    hide ParseInt, FormatInt;
  }

  /** A counter put with a time to live ends with it, however often it is incremented before. */
  lemma {:induction false} CounterEnds(
    sweeping: bool, events: seq<Event>, j: nat, i: nat, key: string, value: string, ttl: int, later: int)
    requires Monotone(events) && j < i <= |events| && events[j].op == Put(key, value, ttl) && ttl > 0
    requires forall k | j < k < i ::
               Touches(events[k].op, key) ==> events[k].op.Increment? && events[k].at <= events[j].at + ttl
    requires events[i - 1].at <= later
    ensures
      var live := Live(Run(sweeping, events[..i]), key, later);
      && (live.Some? <==> later <= events[j].at + ttl)
      && (live.Some? ==> live.value.expiresAt == Some(events[j].at + ttl))
    decreases i
  {
    var e, until := events[i - 1], events[j].at + ttl;
    var c := Run(sweeping, events[..i - 1]);
    assert events[..i][..i - 1] == events[..i - 1];
    if i - 1 == j {
      PutLives(sweeping, c, key, value, ttl, e.at, later);
    } else {
      hide Step;
      if Touches(e.op, key) {
        CounterEnds(sweeping, events, j, i - 1, key, value, ttl, e.at);
        IncrementKeepsLife(sweeping, c, key, e.at, later, Some(until));
      } else {
        CounterEnds(sweeping, events, j, i - 1, key, value, ttl, later);
        StepUntouched(sweeping, c, e.op, e.at, key, later);
      }
    }
  }

  lemma PutLives(sweeping: bool, c: Cache, key: string, value: string, ttl: int, now: int, later: int)
    requires ttl > 0 && now <= later
    ensures
      Live(Step(sweeping, c, Put(key, value, ttl), now).0, key, later)
      == if later <= now + ttl then Some(Entry(value, Some(now + ttl))) else None
  {
  }

  /** Added, and neither removed nor deleted since. */
  ghost predicate StillIn(events: seq<Event>, key: string, member: string) {
    exists j | 0 <= j < |events| :: AddedAt(events, key, member, j)
  }

  ghost predicate AddedAt(events: seq<Event>, key: string, member: string, j: nat)
    requires j < |events|
  {
    && events[j].op == SetAddOnce(key, member)
    && forall k | j < k < |events| :: events[k].op != SetRemove(key, member) && events[k].op != Delete(key)
  }

  lemma StillInStep(events: seq<Event>, e: Event, key: string, member: string)
    ensures
      StillIn(events + [e], key, member)
      <==> e.op == SetAddOnce(key, member)
           || (StillIn(events, key, member) && e.op != SetRemove(key, member) && e.op != Delete(key))
  {
    var all := events + [e];
    if e.op == SetAddOnce(key, member) {
      assert AddedAt(all, key, member, |events|);
    }
    if StillIn(events, key, member) && e.op != SetRemove(key, member) && e.op != Delete(key) {
      var j :| 0 <= j < |events| && AddedAt(events, key, member, j);
      assert AddedAt(all, key, member, j);
    }
    if StillIn(all, key, member) && e.op != SetAddOnce(key, member) {
      var j :| 0 <= j < |all| && AddedAt(all, key, member, j);
      assert all[|events|] == e;
      assert forall k | 0 <= k < |events| :: all[k] == events[k];
      assert AddedAt(events, key, member, j);
    }
  }

  lemma SetOfStep(sweeping: bool, c: Cache, op: Op, now: int, key: string, member: string)
    ensures
      member in SetOf(Step(sweeping, c, op, now).0, key)
      <==> op == SetAddOnce(key, member)
           || (member in SetOf(c, key) && op != SetRemove(key, member) && op != Delete(key))
  {
    hide ParseInt, FormatInt, Live, Swept;
  }

  /** In every run a set holds exactly the members added and neither removed nor deleted since. */
  lemma {:induction false} MembersAreThoseAdded(sweeping: bool, events: seq<Event>, key: string)
    ensures forall m :: m in SetOf(Run(sweeping, events), key) <==> StillIn(events, key, m)
    decreases |events|
  {
    if events != [] {
      hide SetOf, Step, StillIn;
      var init, e := events[..|events| - 1], events[|events| - 1];
      MembersAreThoseAdded(sweeping, init, key);
      assert events == init + [e];
      forall m
        ensures m in SetOf(Run(sweeping, events), key) <==> StillIn(events, key, m)
      {
        SetOfStep(sweeping, Run(sweeping, init), e.op, e.at, key, m);
        StillInStep(init, e, key, m);
      }
    }
  }

  /** A key all of whose members are gone holds no set. */
  lemma NoSetLeft(sweeping: bool, events: seq<Event>, key: string)
    ensures key in Run(sweeping, events).sets <==> exists m :: StillIn(events, key, m)
  {
    hide StillIn;
    MembersAreThoseAdded(sweeping, events, key);
    NoEmptySets(sweeping, events);
    var c := Run(sweeping, events);
    if key in c.sets {
      var m :| m in c.sets[key];
      assert m in SetOf(c, key);
    }
  }

  lemma SetAnswers(sweeping: bool, events: seq<Event>, i: nat, key: string, member: string)
    requires i < |events|
    ensures events[i].op == SetMembers(key) ==>
              && AnswerAt(sweeping, events, i).Members?
              && forall m :: m in AnswerAt(sweeping, events, i).members <==> StillIn(events[..i], key, m)
    ensures events[i].op == SetIsMember(key, member) ==>
              AnswerAt(sweeping, events, i) == Flag(StillIn(events[..i], key, member))
    ensures events[i].op == SetAddOnce(key, member) ==>
              AnswerAt(sweeping, events, i) == Flag(!StillIn(events[..i], key, member))
    ensures events[i].op == Increment(key) && StillIn(events[..i], key, member) ==>
              AnswerAt(sweeping, events, i) == HoldsSet
  {
    hide StillIn;
    MembersAreThoseAdded(sweeping, events[..i], key);
  }

  // ---------------------------------------------------------------------------
  // The object
  // ---------------------------------------------------------------------------

  class MemoryCache {
    var entries: map<string, Entry>
    var sets: map<string, set<string>>
    var writeCount: nat

    ghost function View(): Cache
      reads this
    {
      Cache(entries, sets, writeCount)
    }

    constructor ()
      ensures View() == EMPTY
    {
      entries, sets, writeCount := map[], map[], 0;
    }

    method Read(key: string, now: int) returns (value: Option<string>)
      ensures Step(true, View(), Get(key), now) == (View(), Found(value))
    {
      if key !in entries || Expired(entries[key], now) {
        return None;
      }
      return Some(entries[key].value);
    }

    method Write(key: string, value: string, ttl: int, now: int)
      modifies this
      ensures View() == Step(true, old(View()), Put(key, value, ttl), now).0
    {
      entries := entries[key := Entry(value, if ttl > 0 then Some(now + ttl) else None)];
      writeCount := writeCount + 1;
      if writeCount >= SWEEP_INTERVAL {
        writeCount := 0;
        Sweep(now);
      }
    }

    method Sweep(now: int)
      modifies this`entries
      ensures entries == Swept(old(entries), now)
    {
      hide Expired;
      var keys := entries.Keys;
      while keys != {}
        invariant keys <= old(entries).Keys && entries.Keys <= old(entries).Keys
        invariant forall key | key in old(entries) ::
            key in entries <==> key in keys || !Expired(old(entries)[key], now)
        invariant forall key | key in entries :: entries[key] == old(entries)[key]
        decreases |keys|
      {
        var key :| key in keys;
        if Expired(entries[key], now) {
          entries := entries - {key};
        }
        keys := keys - {key};
      }
    }

    method Bump(key: string, now: int) returns (r: Answer)
      modifies this
      ensures (View(), r) == Step(true, old(View()), Increment(key), now)
    {
      if key in sets {
        return HoldsSet;
      }
      var value, expiresAt := 0, None;
      if key in entries && !Expired(entries[key], now) {
        var parsed := ParseInt(entries[key].value);
        if parsed.None? {
          return NotANumber;
        }
        value, expiresAt := parsed.value, entries[key].expiresAt;
      }
      if value == MAX_INT64 {
        return Overflow;
      }
      value := value + 1;
      entries := entries[key := Entry(FormatInt(value), expiresAt)];
      return Number(value);
    }

    method Drop(key: string)
      modifies this
      ensures forall now :: View() == Step(true, old(View()), Delete(key), now).0
    {
      entries, sets := entries - {key}, sets - {key};
    }

    method AddOnce(key: string, member: string) returns (added: bool)
      modifies this
      ensures forall now :: (View(), Flag(added)) == Step(true, old(View()), SetAddOnce(key, member), now)
    {
      var s := if key in sets then sets[key] else {};
      sets := sets[key := s + {member}];
      return member !in s;
    }

    method RemoveMember(key: string, member: string)
      modifies this
      ensures forall now :: View() == Step(true, old(View()), SetRemove(key, member), now).0
    {
      if key !in sets {
        return;
      }
      var s := sets[key] - {member};
      sets := sets[key := s];
      if s == {} {
        sets := sets - {key};
      }
    }
  }
}
