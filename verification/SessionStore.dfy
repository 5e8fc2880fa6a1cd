/** The in-memory session store: connections, their attributes, and rooms kept under two indexes. */
module SessionStore {
  import opened Bytes
  import opened Wrappers

  type Id = string
  type Room = string

  datatype Connection = Connection(clientID: Id, ip: string)

  datatype Attribute = Level(level: int32) | Text(text: string)

  datatype Store = Store(
    connections: map<Id, Connection>,
    attributes: map<Id, map<string, Attribute>>,
    rooms: map<Room, set<Id>>,
    clientRooms: map<Id, set<Room>>
  )

  const EMPTY := Store(map[], map[], map[], map[])

  function Members(st: Store, room: Room): set<Id> {
    if room in st.rooms then st.rooms[room] else {}
  }

  function RoomsOf(st: Store, id: Id): set<Room> {
    if id in st.clientRooms then st.clientRooms[id] else {}
  }

  function AttributesOf(st: Store, id: Id): map<string, Attribute> {
    if id in st.attributes then st.attributes[id] else map[]
  }

  // ---------------------------------------------------------------------------
  // Operations
  // ---------------------------------------------------------------------------

  function Register(st: Store, id: Id, ip: string): Store {
    st.(connections := st.connections[id := Connection(id, ip)])
  }

  function SetAttribute(st: Store, id: Id, name: string, value: Attribute): Store {
    st.(attributes := st.attributes[id := AttributesOf(st, id)[name := value]])
  }

  function DeleteAttribute(st: Store, id: Id, name: string): Store {
    if id in st.attributes then st.(attributes := st.attributes[id := st.attributes[id] - {name}]) else st
  }

  function Join(st: Store, room: Room, id: Id): Store {
    st.(rooms := st.rooms[room := Members(st, room) + {id}],
        clientRooms := st.clientRooms[id := RoomsOf(st, id) + {room}])
  }

  /** `rooms` without `id` in `room`; a room left empty is dropped. */
  function WithoutMember(rooms: map<Room, set<Id>>, room: Room, id: Id): map<Room, set<Id>> {
    if room !in rooms then rooms
    else if rooms[room] - {id} == {} then rooms - {room}
    else rooms[room := rooms[room] - {id}]
  }

  function Leave(st: Store, room: Room, id: Id): Store {
    st.(rooms := WithoutMember(st.rooms, room, id),
        clientRooms := if id in st.clientRooms then st.clientRooms[id := st.clientRooms[id] - {room}]
                       else st.clientRooms)
  }

  /** `rooms` without `id` in any of `which`. */
  function WithoutMemberIn(rooms: map<Room, set<Id>>, which: set<Room>, id: Id): map<Room, set<Id>> {
    map r | r in rooms && (r in which ==> rooms[r] - {id} != {}) ::
      if r in which then rooms[r] - {id} else rooms[r]
  }

  function LeaveAll(st: Store, id: Id): Store {
    st.(rooms := WithoutMemberIn(st.rooms, RoomsOf(st, id), id), clientRooms := st.clientRooms - {id})
  }

  /** `id` out of a set of rooms. */
  function LeaveRooms(st: Store, which: set<Room>, id: Id): Store {
    st.(rooms := WithoutMemberIn(st.rooms, which, id),
        clientRooms := if id in st.clientRooms then st.clientRooms[id := st.clientRooms[id] - which]
                       else st.clientRooms)
  }

  function Unregister(st: Store, id: Id): Store {
    LeaveAll(st, id).(connections := st.connections - {id}, attributes := st.attributes - {id})
  }

  // ---------------------------------------------------------------------------
  // The two room indexes are one relation
  // ---------------------------------------------------------------------------

  /** Both indexes hold the same pairs, and no empty room is kept. */
  ghost predicate Agree(st: Store) {
    && (forall room, id :: id in Members(st, room) <==> room in RoomsOf(st, id))
    && (forall room | room in st.rooms :: st.rooms[room] != {})
  }

  lemma JoinAgrees(st: Store, room: Room, id: Id)
    requires Agree(st)
    ensures Agree(Join(st, room, id))
    ensures forall r, i :: i in Members(Join(st, room, id), r) <==> i in Members(st, r) || (r == room && i == id)
  {
    var st' := Join(st, room, id);
    forall r
      ensures Members(st', r) == if r == room then Members(st, r) + {id} else Members(st, r)
    {
    }
    forall i
      ensures RoomsOf(st', i) == if i == id then RoomsOf(st, i) + {room} else RoomsOf(st, i)
    {
    }
  }

  lemma LeaveAgrees(st: Store, room: Room, id: Id)
    requires Agree(st)
    ensures Agree(Leave(st, room, id))
    ensures forall r, i :: i in Members(Leave(st, room, id), r) <==> i in Members(st, r) && !(r == room && i == id)
  {
    var st' := Leave(st, room, id);
    forall r
      ensures Members(st', r) == if r == room then Members(st, r) - {id} else Members(st, r)
    {
    }
    forall i
      ensures RoomsOf(st', i) == if i == id then RoomsOf(st, i) - {room} else RoomsOf(st, i)
    {
    }
  }

  lemma LeaveAllAgrees(st: Store, id: Id)
    requires Agree(st)
    ensures Agree(LeaveAll(st, id))
    ensures forall r, i :: i in Members(LeaveAll(st, id), r) <==> i in Members(st, r) && i != id
  {
    var st' := LeaveAll(st, id);
    forall r
      ensures Members(st', r) == Members(st, r) - {id}
    {
      assert id in Members(st, r) <==> r in RoomsOf(st, id);
    }
    forall i
      ensures RoomsOf(st', i) == if i == id then {} else RoomsOf(st, i)
    {
    }
  }

  /** Leaving a client's rooms one at a time removes it from each of them. */
  lemma WithoutMemberStep(rooms: map<Room, set<Id>>, which: set<Room>, room: Room, id: Id)
    requires room !in which
    ensures WithoutMember(WithoutMemberIn(rooms, which, id), room, id) == WithoutMemberIn(rooms, which + {room}, id)
  {
    var once := WithoutMemberIn(rooms, which, id);
    var both := WithoutMemberIn(rooms, which + {room}, id);
    if room in rooms {
      assert once[room] == rooms[room];
    }
    assert WithoutMember(once, room, id).Keys == both.Keys;
  }

  /** Leaving rooms one after the other is leaving them all. */
  lemma LeaveRoomsStep(st: Store, which: set<Room>, room: Room, id: Id)
    requires room !in which
    ensures Leave(LeaveRooms(st, which, id), room, id) == LeaveRooms(st, which + {room}, id)
  {
    WithoutMemberStep(st.rooms, which, room, id);
    if id in st.clientRooms {
      assert st.clientRooms[id] - which - {room} == st.clientRooms[id] - (which + {room});
    }
  }

  lemma LeaveNoRooms(st: Store, id: Id)
    ensures LeaveRooms(st, {}, id) == st
  {
    WithoutMemberNowhere(st.rooms, id);
    if id in st.clientRooms {
      assert st.clientRooms[id] - {} == st.clientRooms[id];
      assert st.clientRooms[id := st.clientRooms[id]] == st.clientRooms;
    }
  }

  lemma LeaveRoomsAgrees(st: Store, which: set<Room>, id: Id)
    requires Agree(st)
    ensures Agree(LeaveRooms(st, which, id))
    ensures forall r, i ::
              i in Members(LeaveRooms(st, which, id), r) <==> i in Members(st, r) && !(r in which && i == id)
  {
    var st' := LeaveRooms(st, which, id);
    forall r
      ensures Members(st', r) == if r in which then Members(st, r) - {id} else Members(st, r)
    {
    }
    forall i
      ensures RoomsOf(st', i) == if i == id then RoomsOf(st, i) - which else RoomsOf(st, i)
    {
    }
  }

  lemma WithoutMemberNowhere(rooms: map<Room, set<Id>>, id: Id)
    ensures WithoutMemberIn(rooms, {}, id) == rooms
  {
  }

  // ---------------------------------------------------------------------------
  // The store object
  // ---------------------------------------------------------------------------

  class MemorySessionStore {
    var connections: map<Id, Connection>
    var attributes: map<Id, map<string, Attribute>>
    var rooms: map<Room, set<Id>>
    var clientRooms: map<Id, set<Room>>

    ghost function View(): Store
      reads this
    {
      Store(connections, attributes, rooms, clientRooms)
    }

    constructor ()
      ensures View() == EMPTY && Agree(View())
    {
      connections, attributes, rooms, clientRooms := map[], map[], map[], map[];
    }

    method RegisterConnection(id: Id, ip: string)
      modifies this
      ensures View() == Register(old(View()), id, ip)
    {
      connections := connections[id := Connection(id, ip)];
    }

    method GetConnection(id: Id) returns (c: Option<Connection>)
      ensures c == if id in View().connections then Some(View().connections[id]) else None
    {
      c := if id in connections then Some(connections[id]) else None;
    }

    method UnregisterConnection(id: Id)
      modifies this
      ensures View() == Unregister(old(View()), id)
    {
      connections := connections - {id};
      attributes := attributes - {id};
      LeaveAllRooms(id);
    }

    method SetUserAttribute(id: Id, name: string, value: Attribute)
      modifies this
      ensures View() == SetAttribute(old(View()), id, name, value)
    {
      if id !in attributes {
        attributes := attributes[id := map[]];
      }
      attributes := attributes[id := attributes[id][name := value]];
    }

    method GetUserAttribute(id: Id, name: string) returns (value: Option<Attribute>)
      ensures value == if name in AttributesOf(View(), id) then Some(AttributesOf(View(), id)[name]) else None
    {
      if id !in attributes || name !in attributes[id] {
        return None;
      }
      return Some(attributes[id][name]);
    }

    method DeleteUserAttribute(id: Id, name: string)
      modifies this
      ensures View() == DeleteAttribute(old(View()), id, name)
    {
      if id in attributes {
        attributes := attributes[id := attributes[id] - {name}];
      }
    }

    method JoinRoom(room: Room, id: Id)
      modifies this
      ensures View() == Join(old(View()), room, id)
      ensures old(Agree(View())) ==> Agree(View())
    {
      hide Agree;
      ghost var before := View();
      var members := if room in rooms then rooms[room] else {};
      rooms := rooms[room := members + {id}];
      var joined := if id in clientRooms then clientRooms[id] else {};
      clientRooms := clientRooms[id := joined + {room}];
      if Agree(before) {
        JoinAgrees(before, room, id);
      }
    }

    method LeaveRoom(room: Room, id: Id)
      modifies this
      ensures View() == Leave(old(View()), room, id)
      ensures old(Agree(View())) ==> Agree(View())
    {
      ghost var before := View();
      RemoveMember(room, id);
      if id in clientRooms {
        clientRooms := clientRooms[id := clientRooms[id] - {room}];
      }
      if Agree(before) {
        LeaveAgrees(before, room, id);
      }
    }

    method RemoveMember(room: Room, id: Id)
      modifies this`rooms
      ensures rooms == WithoutMember(old(rooms), room, id)
    {
      if room in rooms {
        rooms := rooms[room := rooms[room] - {id}];
        if rooms[room] == {} {
          rooms := rooms - {room};
        }
      }
    }

    method GetRoomMembers(room: Room) returns (members: set<Id>)
      ensures members == Members(View(), room)
    {
      members := if room in rooms then rooms[room] else {};
    }

    method GetClientRooms(id: Id) returns (names: set<Room>)
      ensures names == RoomsOf(View(), id)
    {
      names := if id in clientRooms then clientRooms[id] else {};
    }

    method LeaveAllRooms(id: Id)
      modifies this`rooms, this`clientRooms
      ensures View() == LeaveAll(old(View()), id)
      ensures old(Agree(View())) ==> Agree(View())
    {
      hide Agree, WithoutMember;
      ghost var before := View();
      var left := if id in clientRooms then clientRooms[id] else {};
      ghost var all, done: set<Room> := left, {};
      WithoutMemberNowhere(rooms, id);
      hide WithoutMemberIn;
      while left != {}
        invariant done + left == all && done !! left
        invariant rooms == WithoutMemberIn(before.rooms, done, id)
        invariant clientRooms == before.clientRooms
        decreases |left|
      {
        var room :| room in left;
        WithoutMemberStep(before.rooms, done, room, id);
        RemoveMember(room, id);
        left := left - {room};
        done := done + {room};
      }
      assert done == all;
      clientRooms := clientRooms - {id};
      if Agree(before) {
        LeaveAllAgrees(before, id);
      }
    }
  }
}
