/** Movies and groups: membership kept as rooms of the session store, under names built from ids. */
module Movies {
  import opened SessionStore

  const ALL_USERS := "@AllUsers"
  const MOVIE_ID := "#movieID"

  function MovieRoom(movieID: string): Room {
    "movie:" + movieID
  }

  function GroupRoom(movieID: string, groupName: string): Room {
    movieID + ":" + groupName
  }

  // ---------------------------------------------------------------------------
  // Room names
  // ---------------------------------------------------------------------------

  /** Two ids have a group room in common exactly when one id and a colon begin the other and a colon. */
  lemma GroupRoomsCollide(m: string, n: string)
    ensures (exists g, h :: GroupRoom(m, g) == GroupRoom(n, h)) <==> (m + ":" <= n + ":" || n + ":" <= m + ":")
  {
    if m + ":" <= n + ":" {
      var g := (n + ":")[|m| + 1..];
      assert GroupRoom(m, g) == GroupRoom(n, "");
    }
    if n + ":" <= m + ":" {
      var h := (m + ":")[|n| + 1..];
      assert GroupRoom(m, "") == GroupRoom(n, h);
    }
    forall g, h | GroupRoom(m, g) == GroupRoom(n, h)
      ensures m + ":" <= n + ":" || n + ":" <= m + ":"
    {
      var room := GroupRoom(m, g);
      assert room[..|m| + 1] == m + ":";
      assert room[..|n| + 1] == n + ":";
    }
  }

  /** Ids none of whose group rooms is a room of another id or a movie room: no id and a colon begin a
    * movie room, or another id and a colon. */
  ghost predicate Separate(ids: iset<string>) {
    forall m, n | m in ids && n in ids ::
      !(m + ":" <= MovieRoom(n)) && (m != n ==> !(m + ":" <= n + ":"))
  }

  lemma GroupRoomNamesOne(ids: iset<string>, m: string, g: string, n: string, h: string)
    requires Separate(ids) && m in ids && n in ids && GroupRoom(m, g) == GroupRoom(n, h)
    ensures m == n && g == h
  {
    GroupRoomsCollide(m, n);
    assert g == GroupRoom(m, g)[|m| + 1..];
    assert h == GroupRoom(n, h)[|n| + 1..];
  }

  lemma GroupRoomIsNoMovieRoom(ids: iset<string>, m: string, g: string, n: string)
    requires Separate(ids) && m in ids && n in ids
    ensures GroupRoom(m, g) != MovieRoom(n)
  {
    assert m + ":" <= GroupRoom(m, g);
  }

  /** Ids without a colon, other than "movie". */
  predicate ValidId(m: string) {
    ':' !in m && m != "movie"
  }

  /** Such ids are separate from one another. */
  lemma ColonFreeIdsAreSeparate()
    ensures Separate(iset m | ValidId(m))
  {
    forall m, n | ValidId(m) && ValidId(n)
      ensures !(m + ":" <= MovieRoom(n)) && (m != n ==> !(m + ":" <= n + ":"))
    {
      if m + ":" <= MovieRoom(n) {
        assert MovieRoom(n) == GroupRoom(m, MovieRoom(n)[|m| + 1..]);
        GroupRoomIsMovieRoom(m, MovieRoom(n)[|m| + 1..], n);
      }
      if m + ":" <= n + ":" {
        assert n + ":" == GroupRoom(m, (n + ":")[|m| + 1..]) == GroupRoom(n, "");
        GroupRoomInjective(m, (n + ":")[|m| + 1..], n, "");
      }
    }
  }

  lemma GroupRoomInjective(m: string, g: string, n: string, h: string)
    requires ':' !in m && ':' !in n && GroupRoom(m, g) == GroupRoom(n, h)
    ensures m == n && g == h
  {
    var room := GroupRoom(m, g);
    assert room[|m|] == ':' && room[|n|] == ':';
    assert forall k | 0 <= k < |m| :: room[k] == m[k] && m[k] in m;
    assert forall k | 0 <= k < |n| :: room[k] == n[k] && n[k] in n;
    assert m == room[..|m|] && n == room[..|n|];
    assert g == room[|m| + 1..] && h == room[|n| + 1..];
  }

  /** A colon-free id's group room is a movie room only for the id "movie". */
  lemma GroupRoomIsMovieRoom(m: string, g: string, n: string)
    requires ':' !in m
    ensures GroupRoom(m, g) == MovieRoom(n) <==> m == "movie" && g == n
  {
    if GroupRoom(m, g) == MovieRoom(n) {
      assert MovieRoom(n) == GroupRoom("movie", n);
      GroupRoomInjective(m, g, "movie", n);
    }
  }

  lemma MovieRoomInjective(m: string, n: string)
    requires MovieRoom(m) == MovieRoom(n)
    ensures m == n
  {
    assert m == MovieRoom(m)[6..] && n == MovieRoom(n)[6..];
  }

  // ---------------------------------------------------------------------------
  // Operations
  // ---------------------------------------------------------------------------

  /** The session store, and each movie's registered groups. */
  datatype Lobby = Lobby(store: Store, movies: map<string, set<string>>)

  function JoinMovie(l: Lobby, m: string, u: Id): Lobby {
    var groups := if m in l.movies then l.movies[m] else {};
    Lobby(Join(Join(l.store, MovieRoom(m), u), GroupRoom(m, ALL_USERS), u), l.movies[m := groups + {ALL_USERS}])
  }

  function GroupRooms(m: string, groups: set<string>): set<Room> {
    set g | g in groups :: GroupRoom(m, g)
  }

  /** Leave every registered group and the movie; an empty movie is destroyed, an unknown one is an error
    * that changes nothing. */
  function LeaveMovie(l: Lobby, m: string, u: Id): Lobby {
    if m !in l.movies then l
    else
      var left := DeleteAttribute(LeaveRooms(l.store, GroupRooms(m, l.movies[m]), u), u, MOVIE_ID);
      var store := Leave(left, MovieRoom(m), u);
      Lobby(store, if Members(store, MovieRoom(m)) == {} then l.movies - {m} else l.movies)
  }

  /** handleGroupJoin: the group is registered before the membership check, so it stays even when the check
    * fails. */
  function JoinGroup(l: Lobby, m: string, g: string, u: Id): Lobby {
    if m !in l.movies then l
    else
      var registered := l.(movies := l.movies[m := l.movies[m] + {g}]);
      if u !in Members(l.store, MovieRoom(m)) then registered
      else registered.(store := Join(l.store, GroupRoom(m, g), u))
  }

  function LeaveGroup(l: Lobby, m: string, g: string, u: Id): Lobby {
    l.(store := Leave(l.store, GroupRoom(m, g), u))
  }

  function LeaveAllGroups(l: Lobby, m: string, u: Id): Lobby {
    l.(store := LeaveRooms(l.store, (set r | r in RoomsOf(l.store, u) && m + ":" <= r), u))
  }

  // ---------------------------------------------------------------------------
  // Groups lie inside movies
  // ---------------------------------------------------------------------------

  ghost predicate InGroup(l: Lobby, m: string, g: string, u: Id) {
    u in Members(l.store, GroupRoom(m, g))
  }

  ghost predicate InMovie(l: Lobby, m: string, u: Id) {
    u in Members(l.store, MovieRoom(m))
  }

  /** Members of a group are members of its movie, the movie exists, and the group is registered there. */
  ghost predicate Nested(ids: iset<string>, l: Lobby) {
    && (forall m, u | m in ids && InMovie(l, m, u) :: m in l.movies)
    && (forall m, g, u | m in ids && InGroup(l, m, g, u) :: InMovie(l, m, u) && m in l.movies && g in l.movies[m])
  }

  ghost predicate Inv(ids: iset<string>, l: Lobby) {
    Agree(l.store) && Nested(ids, l)
  }

  lemma JoinMovieEffect(ids: iset<string>, l: Lobby, m: string, u: Id)
    requires Separate(ids) && Agree(l.store) && m in ids
    ensures
      var l' := JoinMovie(l, m, u);
      && Agree(l'.store)
      && (forall n, v | n in ids :: InMovie(l', n, v) <==> InMovie(l, n, v) || (n == m && v == u))
      && (forall n, g, v | n in ids ::
            InGroup(l', n, g, v) <==> InGroup(l, n, g, v) || (n == m && g == ALL_USERS && v == u))
  {
    var once := Join(l.store, MovieRoom(m), u);
    JoinAgrees(l.store, MovieRoom(m), u);
    JoinAgrees(once, GroupRoom(m, ALL_USERS), u);
    var l' := JoinMovie(l, m, u);
    hide Agree, Members, Join;
    forall n, v | n in ids
      ensures InMovie(l', n, v) <==> InMovie(l, n, v) || (n == m && v == u)
    {
      GroupRoomIsNoMovieRoom(ids, m, ALL_USERS, n);
      if MovieRoom(n) == MovieRoom(m) {
        MovieRoomInjective(n, m);
      }
    }
    forall n, g, v | n in ids
      ensures InGroup(l', n, g, v) <==> InGroup(l, n, g, v) || (n == m && g == ALL_USERS && v == u)
    {
      GroupRoomIsNoMovieRoom(ids, n, g, m);
      if GroupRoom(n, g) == GroupRoom(m, ALL_USERS) {
        GroupRoomNamesOne(ids, n, g, m, ALL_USERS);
      }
    }
  }

  lemma JoinMovieKeepsInv(ids: iset<string>, l: Lobby, m: string, u: Id)
    requires Separate(ids) && Inv(ids, l) && m in ids
    ensures Inv(ids, JoinMovie(l, m, u))
  {
    JoinMovieEffect(ids, l, m, u);
    hide Agree, InMovie, InGroup;
  }

  lemma JoinGroupKeepsInv(ids: iset<string>, l: Lobby, m: string, g: string, u: Id)
    requires Separate(ids) && Inv(ids, l) && m in ids
    ensures Inv(ids, JoinGroup(l, m, g, u))
    ensures
      var l' := JoinGroup(l, m, g, u);
      && (forall n, v | n in ids :: InMovie(l', n, v) <==> InMovie(l, n, v))
      && (forall n, h, v | n in ids ::
            InGroup(l', n, h, v) <==> InGroup(l, n, h, v) || (n == m && h == g && v == u && InMovie(l, m, u)))
  {
    var l' := JoinGroup(l, m, g, u);
    if m in l.movies && InMovie(l, m, u) {
      JoinAgrees(l.store, GroupRoom(m, g), u);
      hide Agree, Members, Join;
      forall n, v | n in ids
        ensures InMovie(l', n, v) <==> InMovie(l, n, v)
      {
        GroupRoomIsNoMovieRoom(ids, m, g, n);
      }
      forall n, h, v | n in ids
        ensures InGroup(l', n, h, v) <==> InGroup(l, n, h, v) || (n == m && h == g && v == u)
      {
        if GroupRoom(n, h) == GroupRoom(m, g) {
          GroupRoomNamesOne(ids, n, h, m, g);
        }
      }
      hide InMovie, InGroup;
    } else {
      assert forall n, v :: InMovie(l', n, v) <==> InMovie(l, n, v);
      assert forall n, h, v :: InGroup(l', n, h, v) <==> InGroup(l, n, h, v);
      hide Agree, Members, InMovie, InGroup;
    }
  }

  /** What leaving any set of rooms, the movie room of `m` among them or not, does to memberships. */
  lemma LeavesOnly(l: Lobby, store: Store, rooms: set<Room>, u: Id)
    requires Agree(l.store)
    requires forall r, i :: i in Members(store, r) <==> i in Members(l.store, r) && !(r in rooms && i == u)
    ensures
      var l' := l.(store := store);
      && (forall n, v :: InMovie(l', n, v) <==> InMovie(l, n, v) && !(MovieRoom(n) in rooms && v == u))
      && (forall n, g, v :: InGroup(l', n, g, v) <==> InGroup(l, n, g, v) && !(GroupRoom(n, g) in rooms && v == u))
  {
    hide Agree, Members;
  }

  /** Leaving group rooms keeps groups inside movies. */
  lemma LeavingGroupsKeepsNested(ids: iset<string>, l: Lobby, store: Store, rooms: set<Room>, u: Id)
    requires Inv(ids, l)
    requires forall r, i :: i in Members(store, r) <==> i in Members(l.store, r) && !(r in rooms && i == u)
    requires forall n | n in ids :: MovieRoom(n) !in rooms
    ensures Nested(ids, l.(store := store))
  {
    LeavesOnly(l, store, rooms, u);
    hide Agree, InMovie, InGroup;
  }

  lemma LeaveGroupKeepsInv(ids: iset<string>, l: Lobby, m: string, g: string, u: Id)
    requires Separate(ids) && Inv(ids, l) && m in ids
    ensures Inv(ids, LeaveGroup(l, m, g, u))
    ensures !InGroup(LeaveGroup(l, m, g, u), m, g, u)
  {
    LeaveAgrees(l.store, GroupRoom(m, g), u);
    var l' := LeaveGroup(l, m, g, u);
    hide Agree, Members, Leave;
    forall n | n in ids
      ensures MovieRoom(n) !in {GroupRoom(m, g)}
    {
      GroupRoomIsNoMovieRoom(ids, m, g, n);
    }
    LeavingGroupsKeepsNested(ids, l, l'.store, {GroupRoom(m, g)}, u);
  }

  /** LeaveAllGroups takes the user out of every group of the movie, and out of nothing else. */
  lemma LeaveAllGroupsKeepsInv(ids: iset<string>, l: Lobby, m: string, u: Id)
    requires Separate(ids) && Inv(ids, l) && m in ids
    ensures Inv(ids, LeaveAllGroups(l, m, u))
    ensures
      var l' := LeaveAllGroups(l, m, u);
      && (forall g :: !InGroup(l', m, g, u))
      && (forall n, v | n in ids :: InMovie(l', n, v) <==> InMovie(l, n, v))
      && (forall n, g, v | n in ids && !(n == m && v == u) :: InGroup(l', n, g, v) <==> InGroup(l, n, g, v))
  {
    var l' := LeaveAllGroups(l, m, u);
    var rooms := set r | r in RoomsOf(l.store, u) && m + ":" <= r;
    assert forall r | r in rooms :: r == GroupRoom(m, r[|m| + 1..]);
    assert forall g | InGroup(l, m, g, u) :: GroupRoom(m, g) in RoomsOf(l.store, u) && m + ":" <= GroupRoom(m, g);
    LeaveRoomsAgrees(l.store, rooms, u);
    hide Agree, Members, LeaveRooms, RoomsOf;
    forall n | n in ids
      ensures MovieRoom(n) !in rooms
    {
      if MovieRoom(n) in rooms {
        GroupRoomIsNoMovieRoom(ids, m, MovieRoom(n)[|m| + 1..], n);
      }
    }
    LeavingGroupsKeepsNested(ids, l, l'.store, rooms, u);
    LeavesOnly(l, l'.store, rooms, u);
    forall n, g | n in ids && n != m
      ensures GroupRoom(n, g) !in rooms
    {
      if GroupRoom(n, g) in rooms {
        GroupRoomNamesOne(ids, n, g, m, GroupRoom(n, g)[|m| + 1..]);
      }
    }
  }

  /** The rooms LeaveMovie leaves, and the memberships that remain. */
  lemma LeaveMovieEffect(l: Lobby, m: string, u: Id)
    requires Agree(l.store) && m in l.movies
    ensures
      var l', rooms := LeaveMovie(l, m, u), GroupRooms(m, l.movies[m]) + {MovieRoom(m)};
      && Agree(l'.store)
      && (forall r, i :: i in Members(l'.store, r) <==> i in Members(l.store, r) && !(r in rooms && i == u))
  {
    LeaveRoomsAgrees(l.store, GroupRooms(m, l.movies[m]), u);
    var once := LeaveRooms(l.store, GroupRooms(m, l.movies[m]), u);
    var left := DeleteAttribute(once, u, MOVIE_ID);
    assert forall r :: Members(left, r) == Members(once, r);
    assert forall i :: RoomsOf(left, i) == RoomsOf(once, i);
    assert Agree(left);
    LeaveAgrees(left, MovieRoom(m), u);
  }

  /** After LeaveMovie, found or not, the user is in no room of that movie; all other memberships stand. */
  lemma LeaveMovieLeavesAll(ids: iset<string>, l: Lobby, m: string, u: Id)
    requires Separate(ids) && Inv(ids, l) && m in ids
    ensures Inv(ids, LeaveMovie(l, m, u))
    ensures
      var l' := LeaveMovie(l, m, u);
      && !InMovie(l', m, u)
      && (forall g :: !InGroup(l', m, g, u))
      && (m in l.movies ==> (m in l'.movies <==> exists v :: InMovie(l', m, v)))
      && (m in l.movies ==> MOVIE_ID !in AttributesOf(l'.store, u))
      && (forall n, v | n in ids && !(n == m && v == u) :: InMovie(l', n, v) <==> InMovie(l, n, v))
      && (forall n, g, v | n in ids && !(n == m && v == u) :: InGroup(l', n, g, v) <==> InGroup(l, n, g, v))
  {
    var l' := LeaveMovie(l, m, u);
    if m in l.movies {
      var rooms := GroupRooms(m, l.movies[m]) + {MovieRoom(m)};
      LeaveMovieEffect(l, m, u);
      LeavesOnly(l, l'.store, rooms, u);
      LeaveMovieRooms(ids, m, l.movies[m]);
      LeftMovies(l, l', m);
      LeaveMovieNested(ids, l, l', m, u, rooms);
      assert m in l'.movies <==> exists v :: InMovie(l', m, v) by {
        DestroyedWhenEmpty(l, m, u);
      }
    }
  }

  /** A movie lives on exactly while it has members. */
  lemma DestroyedWhenEmpty(l: Lobby, m: string, u: Id)
    requires m in l.movies
    ensures
      var l' := LeaveMovie(l, m, u);
      m in l'.movies <==> exists v :: InMovie(l', m, v)
  {
    var l' := LeaveMovie(l, m, u);
    var members := Members(l'.store, MovieRoom(m));
    if members != {} {
      var v :| v in members;
      assert InMovie(l', m, v);
    }
  }

  /** Only the room of the movie itself, and group rooms of that movie. */
  lemma LeaveMovieRooms(ids: iset<string>, m: string, groups: set<string>)
    requires Separate(ids) && m in ids
    ensures
      var rooms := GroupRooms(m, groups) + {MovieRoom(m)};
      && (forall n | n in ids :: MovieRoom(n) in rooms <==> n == m)
      && (forall n, g | n in ids :: GroupRoom(n, g) in rooms <==> n == m && g in groups)
  {
    var rooms := GroupRooms(m, groups) + {MovieRoom(m)};
    forall n | n in ids
      ensures MovieRoom(n) in rooms <==> n == m
    {
      if MovieRoom(n) in GroupRooms(m, groups) {
        var g :| g in groups && GroupRoom(m, g) == MovieRoom(n);
        GroupRoomIsNoMovieRoom(ids, m, g, n);
      }
      if MovieRoom(n) == MovieRoom(m) {
        MovieRoomInjective(n, m);
      }
    }
    forall n, g | n in ids
      ensures GroupRoom(n, g) in rooms <==> n == m && g in groups
    {
      GroupRoomIsNoMovieRoom(ids, n, g, m);
      if GroupRoom(n, g) in GroupRooms(m, groups) {
        var h :| h in groups && GroupRoom(m, h) == GroupRoom(n, g);
        GroupRoomNamesOne(ids, n, g, m, h);
      }
    }
  }

  lemma LeftMovies(l: Lobby, l': Lobby, m: string)
    requires m in l.movies && l'.movies == if Members(l'.store, MovieRoom(m)) == {} then l.movies - {m} else l.movies
    ensures forall n | n in l.movies && (n != m || exists v :: InMovie(l', m, v)) ::
              n in l'.movies && l'.movies[n] == l.movies[n]
  {
  }

  lemma LeaveMovieNested(ids: iset<string>, l: Lobby, l': Lobby, m: string, u: Id, rooms: set<Room>)
    requires Nested(ids, l) && m in ids && m in l.movies
    requires forall n, v :: InMovie(l', n, v) <==> InMovie(l, n, v) && !(MovieRoom(n) in rooms && v == u)
    requires forall n, g, v :: InGroup(l', n, g, v) <==> InGroup(l, n, g, v) && !(GroupRoom(n, g) in rooms && v == u)
    requires forall n | n in ids :: MovieRoom(n) in rooms <==> n == m
    requires forall n, g | n in ids :: GroupRoom(n, g) in rooms <==> n == m && g in l.movies[m]
    requires forall n | n in l.movies && (n != m || exists v :: InMovie(l', m, v)) ::
              n in l'.movies && l'.movies[n] == l.movies[n]
    ensures Nested(ids, l')
    ensures !InMovie(l', m, u) && forall g :: !InGroup(l', m, g, u)
  {
    hide InMovie, InGroup;
  }

  /** Teardown and LeaveAllRooms: the user is gone from every room at once. */
  lemma GoneKeepsInv(ids: iset<string>, l: Lobby, store: Store, u: Id)
    requires Inv(ids, l) && Agree(store)
    requires forall r, i :: i in Members(store, r) <==> i in Members(l.store, r) && i != u
    ensures Inv(ids, l.(store := store))
  {
    var l' := l.(store := store);
    assert forall n, v :: InMovie(l', n, v) <==> InMovie(l, n, v) && v != u;
    assert forall n, g, v :: InGroup(l', n, g, v) <==> InGroup(l, n, g, v) && v != u;
    hide Agree, Members, InMovie, InGroup;
  }

  // ---------------------------------------------------------------------------
  // Runs
  // ---------------------------------------------------------------------------

  datatype Event =
    | MovieJoin(m: string, u: Id)
    | MovieLeave(m: string, u: Id)
    | GroupJoin(m: string, g: string, u: Id)
    | GroupLeave(m: string, g: string, u: Id)
    | GroupsLeave(m: string, u: Id)
    | RoomsLeave(u: Id)   // idle and kill timers
    | Teardown(u: Id)

  ghost predicate Over(ids: iset<string>, e: Event) {
    e.RoomsLeave? || e.Teardown? || e.m in ids
  }

  function After(l: Lobby, e: Event): Lobby {
    match e
    case MovieJoin(m, u) => JoinMovie(l, m, u)
    case MovieLeave(m, u) => LeaveMovie(l, m, u)
    case GroupJoin(m, g, u) => JoinGroup(l, m, g, u)
    case GroupLeave(m, g, u) => LeaveGroup(l, m, g, u)
    case GroupsLeave(m, u) => LeaveAllGroups(l, m, u)
    case RoomsLeave(u) => l.(store := LeaveAll(l.store, u))
    case Teardown(u) => l.(store := Unregister(l.store, u))
  }

  lemma EventKeepsInv(ids: iset<string>, l: Lobby, e: Event)
    requires Separate(ids) && Inv(ids, l) && Over(ids, e)
    ensures Inv(ids, After(l, e))
  {
    hide Inv, Separate;
    match e
    case MovieJoin(m, u) => JoinMovieKeepsInv(ids, l, m, u);
    case MovieLeave(m, u) => LeaveMovieLeavesAll(ids, l, m, u);
    case GroupJoin(m, g, u) => JoinGroupKeepsInv(ids, l, m, g, u);
    case GroupLeave(m, g, u) => LeaveGroupKeepsInv(ids, l, m, g, u);
    case GroupsLeave(m, u) => LeaveAllGroupsKeepsInv(ids, l, m, u);
    case RoomsLeave(u) => GoneAgrees(ids, l, u); GoneKeepsInv(ids, l, LeaveAll(l.store, u), u);
    case Teardown(u) => GoneAgrees(ids, l, u); GoneKeepsInv(ids, l, Unregister(l.store, u), u);
  }

  lemma GoneAgrees(ids: iset<string>, l: Lobby, u: Id)
    requires Inv(ids, l)
    ensures Agree(LeaveAll(l.store, u)) && Agree(Unregister(l.store, u))
    ensures forall r, i :: i in Members(LeaveAll(l.store, u), r) <==> i in Members(l.store, r) && i != u
    ensures forall r, i :: i in Members(Unregister(l.store, u), r) <==> i in Members(l.store, r) && i != u
  {
    LeaveAllAgrees(l.store, u);
    var st, st' := LeaveAll(l.store, u), Unregister(l.store, u);
    assert forall r :: Members(st', r) == Members(st, r);
    assert forall i :: RoomsOf(st', i) == RoomsOf(st, i);
  }

  /** Timers and teardown take the user out of every room, and no one else out of any. */
  lemma GoneFromAllRooms(l: Lobby, e: Event, u: Id)
    requires Agree(l.store) && (e == RoomsLeave(u) || e == Teardown(u))
    ensures forall r, i :: i in Members(After(l, e).store, r) <==> i in Members(l.store, r) && i != u
    ensures RoomsOf(After(l, e).store, u) == {}
  {
    LeaveAllAgrees(l.store, u);
    var left, gone := LeaveAll(l.store, u), Unregister(l.store, u);
    assert forall r :: Members(gone, r) == Members(left, r);
    hide Agree;
  }

  function Run(l: Lobby, events: seq<Event>): Lobby
    decreases |events|
  {
    if events == [] then l else After(Run(l, events[..|events| - 1]), events[|events| - 1])
  }

  const IDLE := Lobby(EMPTY, map[])

  ghost predicate RunOver(ids: iset<string>, events: seq<Event>) {
    forall e | e in events :: Over(ids, e)
  }

  lemma {:induction false} SeparateRunIsNested(ids: iset<string>, events: seq<Event>)
    requires Separate(ids) && RunOver(ids, events)
    ensures Inv(ids, Run(IDLE, events))
    decreases |events|
  {
    if events != [] {
      hide Inv, Separate, Over;
      SeparateRunIsNested(ids, events[..|events| - 1]);
      EventKeepsInv(ids, Run(IDLE, events[..|events| - 1]), events[|events| - 1]);
    }
  }

  /** What an event does to a user's connection and attributes: leaving a movie that exists drops #movieID,
    * a teardown drops everything, and nothing else touches them. */
  lemma AttributesAfter(l: Lobby, e: Event, v: Id)
    ensures
      var st, st' := l.store, After(l, e).store;
      if e == Teardown(v) then v !in st'.connections && AttributesOf(st', v) == map[]
      else
        && (v in st'.connections <==> v in st.connections)
        && (v in st.connections ==> st'.connections[v] == st.connections[v])
        && AttributesOf(st', v)
           == if e.MovieLeave? && e.u == v && e.m in l.movies then AttributesOf(st, v) - {"#movieID"}
              else AttributesOf(st, v)
  {
    hide Join, Leave, LeaveRooms, LeaveAll;
    var st' := After(l, e).store;
    match e
    case MovieJoin(m, u) =>
      MembershipOnly(l.store, MovieRoom(m), u);
      MembershipOnly(Join(l.store, MovieRoom(m), u), GroupRoom(m, ALL_USERS), u);
    case MovieLeave(m, u) =>
      if m in l.movies {
        var once := LeaveRooms(l.store, GroupRooms(m, l.movies[m]), u);
        MembershipsOnly(l.store, GroupRooms(m, l.movies[m]), u);
        MembershipOnly(DeleteAttribute(once, u, MOVIE_ID), MovieRoom(m), u);
      }
    case GroupJoin(m, g, u) => MembershipOnly(l.store, GroupRoom(m, g), u);
    case GroupLeave(m, g, u) => MembershipOnly(l.store, GroupRoom(m, g), u);
    case GroupsLeave(m, u) => MembershipsOnly(l.store, (set r | r in RoomsOf(l.store, u) && m + ":" <= r), u);
    case RoomsLeave(u) => MembershipsOnly(l.store, {}, u);
    case Teardown(u) => MembershipsOnly(l.store, {}, u);
  }

  lemma MembershipOnly(st: Store, room: Room, u: Id)
    ensures Join(st, room, u).connections == st.connections && Join(st, room, u).attributes == st.attributes
    ensures Leave(st, room, u).connections == st.connections && Leave(st, room, u).attributes == st.attributes
  {
  }

  lemma MembershipsOnly(st: Store, rooms: set<Room>, u: Id)
    ensures LeaveRooms(st, rooms, u).connections == st.connections
    ensures LeaveRooms(st, rooms, u).attributes == st.attributes
    ensures LeaveAll(st, u).connections == st.connections && LeaveAll(st, u).attributes == st.attributes
  {
  }

  /** Joining and leaving movies and groups, by anyone and in any order, leaves every other attribute of a
    * connected user, its level among them, as it was. */
  lemma {:induction false} RunKeepsAttributes(l: Lobby, events: seq<Event>, v: Id, name: string)
    requires Teardown(v) !in events && name != "#movieID"
    ensures
      var before, after := AttributesOf(l.store, v), AttributesOf(Run(l, events).store, v);
      (name in after <==> name in before) && (name in before ==> after[name] == before[name])
    ensures v in Run(l, events).store.connections <==> v in l.store.connections
    ensures v in l.store.connections ==> Run(l, events).store.connections[v] == l.store.connections[v]
    decreases |events|
  {
    if events != [] {
      hide After, AttributesOf;
      var init, e := events[..|events| - 1], events[|events| - 1];
      assert events == init + [e];
      RunKeepsAttributes(l, init, v, name);
      AttributesAfter(Run(l, init), e, v);
    }
  }

  /** Every run over a set of movie ids keeps the indexes agreeing and groups inside movies, exactly when the
    * ids are separate. */
  lemma NestedIffSeparate(ids: iset<string>)
    ensures (forall events | RunOver(ids, events) :: Inv(ids, Run(IDLE, events))) <==> Separate(ids)
  {
    if Separate(ids) {
      forall events | RunOver(ids, events)
        ensures Inv(ids, Run(IDLE, events))
      {
        SeparateRunIsNested(ids, events);
      }
    } else {
      var m, n :| m in ids && n in ids && (m + ":" <= MovieRoom(n) || (m != n && m + ":" <= n + ":"));
      var events := [MovieJoin(n, "u")];
      assert Run(IDLE, events) == JoinMovie(IDLE, n, "u") by {
        assert events[..0] == [];
      }
      OneJoinBreaks(ids, m, n, "u");
      assert RunOver(ids, events);
    }
  }

  /** Joining one movie makes the user a member of a group that is not registered where it belongs. */
  lemma OneJoinBreaks(ids: iset<string>, m: string, n: string, u: Id)
    requires m in ids && (m + ":" <= MovieRoom(n) || (m != n && m + ":" <= n + ":"))
    ensures !Nested(ids, JoinMovie(IDLE, n, u))
  {
    var l := JoinMovie(IDLE, n, u);
    StrayMembership(n, m, u);
    if m != n {
      var g :| InGroup(l, m, g, u);
      assert m !in l.movies;
    } else {
      var g := MovieRoom(n)[|m| + 1..];
      assert GroupRoom(m, g) == MovieRoom(n);
      assert InGroup(l, m, g, u);
      assert |g| != |ALL_USERS|;
      assert g !in l.movies[m];
    }
  }

  /** In particular for colon-free ids other than "movie". */
  lemma EveryRunIsNested(events: seq<Event>)
    requires RunOver((iset m | ValidId(m)), events)
    ensures Inv((iset m | ValidId(m)), Run(IDLE, events))
  {
    ColonFreeIdsAreSeparate();
    SeparateRunIsNested((iset m | ValidId(m)), events);
  }

  /** Outside those ids the law fails: joining the movie "movie" makes the user a member of a movie that
    * does not exist, and joining "a:b" puts the user in a group of "a" without joining "a". */
  lemma AmbiguousIds(u: Id)
    ensures
      var l := JoinMovie(Lobby(EMPTY, map[]), "movie", u);
      InMovie(l, ALL_USERS, u) && ALL_USERS !in l.movies
    ensures
      var l := JoinMovie(Lobby(EMPTY, map[]), "a:b", u);
      InGroup(l, "a", "b:@AllUsers", u) && !InMovie(l, "a", u)
  {
    assert GroupRoom("movie", ALL_USERS) == MovieRoom(ALL_USERS);
    assert GroupRoom("a:b", ALL_USERS) == GroupRoom("a", "b:@AllUsers");
    assert MovieRoom("a") == "movie:a" && MovieRoom("a:b") == "movie:a:b" && |MovieRoom("a")| != |MovieRoom("a:b")|;
    assert GroupRoom("a:b", ALL_USERS)[0] == 'a' && MovieRoom("a")[0] == 'm';
  }

  /** Exactly which ids are confused: whoever joins `m` is taken for a member of a group of `n`. */
  lemma StrayMembership(m: string, n: string, u: Id)
    ensures
      (exists g :: InGroup(JoinMovie(Lobby(EMPTY, map[]), m, u), n, g, u))
      <==> n + ":" <= MovieRoom(m) || n + ":" <= m + ":"
  {
    var l := JoinMovie(Lobby(EMPTY, map[]), m, u);
    var once := Join(EMPTY, MovieRoom(m), u);
    JoinAgrees(EMPTY, MovieRoom(m), u);
    JoinAgrees(once, GroupRoom(m, ALL_USERS), u);
    assert forall g :: InGroup(l, n, g, u) <==> GroupRoom(n, g) in {MovieRoom(m), GroupRoom(m, ALL_USERS)} by {
      hide Agree, Join;
    }
    hide Agree, Members, Join, InGroup;
    GroupRoomsOf(n, MovieRoom(m));
    GroupRoomsOf(n, GroupRoom(m, ALL_USERS));
    var room := GroupRoom(m, ALL_USERS);
    assert forall k | |m| < k < |room| :: room[k] == ALL_USERS[k - |m| - 1] && room[k] != ':';
    assert n + ":" <= room <==> n + ":" <= m + ":" by {
      assert room[..|m| + 1] == m + ":";
      if n + ":" <= room {
        assert room[|n|] == (n + ":")[|n|] == ':';
        assert (n + ":") == room[..|n| + 1];
      }
    }
  }

  lemma GroupRoomsOf(n: string, room: Room)
    ensures (exists g :: GroupRoom(n, g) == room) <==> n + ":" <= room
  {
    if n + ":" <= room {
      assert GroupRoom(n, room[|n| + 1..]) == room;
    }
  }

  // ---------------------------------------------------------------------------
  // The managers
  // ---------------------------------------------------------------------------

  class MovieManager {
    const sessionStore: MemorySessionStore
    var movies: map<string, set<string>>

    ghost function View(): Lobby
      reads this, sessionStore
    {
      Lobby(sessionStore.View(), movies)
    }

    constructor (store: MemorySessionStore)
      ensures View() == Lobby(store.View(), map[]) && sessionStore == store
    {
      sessionStore, movies := store, map[];
    }

    method Join(movieID: string, userID: Id)
      modifies this, sessionStore
      ensures View() == JoinMovie(old(View()), movieID, userID)
    {
      hide SessionStore.Join;
      if movieID !in movies {
        movies := movies[movieID := {}];
      }
      sessionStore.JoinRoom(MovieRoom(movieID), userID);
      movies := movies[movieID := movies[movieID] + {ALL_USERS}];
      sessionStore.JoinRoom(GroupRoom(movieID, ALL_USERS), userID);
    }

    method LeaveEach(rooms: set<Room>, userID: Id)
      modifies sessionStore
      ensures sessionStore.View() == LeaveRooms(old(sessionStore.View()), rooms, userID)
    {
      hide LeaveRooms, SessionStore.Leave;
      ghost var before := sessionStore.View();
      var left := rooms;
      ghost var done: set<Room> := {};
      LeaveNoRooms(before, userID);
      while left != {}
        invariant done + left == rooms && done !! left
        invariant sessionStore.View() == LeaveRooms(before, done, userID)
        decreases |left|
      {
        var room :| room in left;
        LeaveRoomsStep(before, done, room, userID);
        sessionStore.LeaveRoom(room, userID);
        left := left - {room};
        done := done + {room};
      }
      assert done == rooms;
    }

    method Leave(movieID: string, userID: Id) returns (ok: bool)
      modifies this, sessionStore
      ensures ok == (movieID in old(movies)) && View() == LeaveMovie(old(View()), movieID, userID)
    {
      if movieID !in movies {
        return false;
      }
      LeaveEach(GroupRooms(movieID, movies[movieID]), userID);
      sessionStore.DeleteUserAttribute(userID, MOVIE_ID);
      sessionStore.LeaveRoom(MovieRoom(movieID), userID);
      var members := sessionStore.GetRoomMembers(MovieRoom(movieID));
      if members == {} {
        movies := movies - {movieID};
      }
      return true;
    }

    method HandleGroupJoin(movieID: string, groupName: string, userID: Id) returns (ok: bool)
      modifies this, sessionStore
      ensures View() == JoinGroup(old(View()), movieID, groupName, userID)
      ensures ok <==> movieID in old(movies) && userID in Members(old(sessionStore.View()), MovieRoom(movieID))
    {
      if movieID !in movies {
        return false;
      }
      movies := movies[movieID := movies[movieID] + {groupName}];
      var members := sessionStore.GetRoomMembers(MovieRoom(movieID));
      if userID !in members {
        return false;
      }
      sessionStore.JoinRoom(GroupRoom(movieID, groupName), userID);
      return true;
    }

    method LeaveGroups(movieID: string, userID: Id)
      modifies sessionStore
      ensures View() == LeaveAllGroups(old(View()), movieID, userID)
    {
      var rooms := sessionStore.GetClientRooms(userID);
      LeaveEach((set r | r in rooms && movieID + ":" <= r), userID);
    }
  }
}
