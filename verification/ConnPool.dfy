/** The connection pool: which connection a client id belongs to, and back. */
module ConnPool {

  type Id = string
  type Conn = nat

  datatype Pool = Pool(clients: map<Id, Conn>, connToID: map<Conn, Id>)

  const EMPTY := Pool(map[], map[])

  /** The id of a connection; an unknown connection has the empty id. */
  function CurrentId(p: Pool, conn: Conn): Id {
    if conn in p.connToID then p.connToID[conn] else ""
  }

  function Register(p: Pool, conn: Conn, id: Id): Pool {
    Pool(p.clients[id := conn], p.connToID[conn := id])
  }

  function Unregister(p: Pool, conn: Conn): Pool {
    Pool(p.clients - {CurrentId(p, conn)}, p.connToID - {conn})
  }

  predicate CanRemap(p: Pool, oldId: Id, newId: Id) {
    oldId in p.clients && (newId in p.clients ==> p.clients[newId] == p.clients[oldId])
  }

  function Remap(p: Pool, oldId: Id, newId: Id): Pool {
    if !CanRemap(p, oldId, newId) then p
    else
      var conn := p.clients[oldId];
      Pool((p.clients - {oldId})[newId := conn], p.connToID[conn := newId])
  }

  // ---------------------------------------------------------------------------
  // The two maps are inverse
  // ---------------------------------------------------------------------------

  ghost predicate Inverse(p: Pool) {
    && (forall id | id in p.clients :: p.clients[id] in p.connToID && p.connToID[p.clients[id]] == id)
    && (forall c | c in p.connToID :: p.connToID[c] in p.clients && p.clients[p.connToID[c]] == c)
  }

  /** No two connections own one id, and no connection owns two. */
  lemma OneOwnerPerId(p: Pool, a: Conn, b: Conn)
    requires Inverse(p) && a in p.connToID && b in p.connToID && p.connToID[a] == p.connToID[b]
    ensures a == b
  {
    assert p.clients[p.connToID[a]] == a;
    assert p.clients[p.connToID[b]] == b;
  }

  /** Registration keeps the maps inverse exactly when neither the id nor the connection is in use for
    * something else. */
  lemma RegisterInverse(p: Pool, conn: Conn, id: Id)
    requires Inverse(p)
    ensures Inverse(Register(p, conn, id)) <==>
            (id in p.clients ==> p.clients[id] == conn) && (conn in p.connToID ==> p.connToID[conn] == id)
  {
    var p' := Register(p, conn, id);
    if id in p.clients && p.clients[id] != conn {
      assert p'.connToID[p.clients[id]] == id;
    }
    if conn in p.connToID && p.connToID[conn] != id {
      assert p'.clients[p.connToID[conn]] == conn;
    }
  }

  /** Taking over an id in use breaks them: `d` is remapped to `b`, then `c` registers under `b`. */
  lemma TakenIdBreaks(d: Conn, a: Id, c: Conn, b: Id)
    requires c != d && a != b
    ensures
      var p := Remap(Register(EMPTY, d, a), a, b);
      Inverse(p) && !Inverse(Register(p, c, b))
  {
    var p := Remap(Register(EMPTY, d, a), a, b);
    RegisterInverse(EMPTY, d, a);
    RemapInverse(Register(EMPTY, d, a), a, b);
    RegisterInverse(p, c, b);
  }

  /** Removing a connection that was never registered drops a client with the empty id. */
  lemma UnknownConnectionBreaks(c: Conn, d: Conn)
    requires c != d
    ensures
      var p := Register(EMPTY, d, "");
      Inverse(p) && !Inverse(Unregister(p, c))
  {
    RegisterInverse(EMPTY, d, "");
    UnregisterInverse(Register(EMPTY, d, ""), c);
  }

  /** Removing a known connection always does; removing an unknown one does unless the empty id is
    * in use, which it would drop. */
  lemma UnregisterInverse(p: Pool, conn: Conn)
    requires Inverse(p)
    ensures Inverse(Unregister(p, conn)) <==> (conn in p.connToID || "" !in p.clients)
  {
    var p' := Unregister(p, conn);
    if conn !in p.connToID && "" in p.clients {
      var other := p.clients[""];
      assert other in p'.connToID && p'.connToID[other] !in p'.clients;
    }
  }

  /** Remapping always does, and either changes nothing or gives the connection of `oldId` the id `newId`. */
  lemma RemapInverse(p: Pool, oldId: Id, newId: Id)
    requires Inverse(p)
    ensures Inverse(Remap(p, oldId, newId))
    ensures CanRemap(p, oldId, newId) ==>
              Remap(p, oldId, newId).connToID == p.connToID[p.clients[oldId] := newId]
  {
  }

  // ---------------------------------------------------------------------------
  // The pool object
  // ---------------------------------------------------------------------------

  class ConnectionPool {
    var clients: map<Id, Conn>
    var connToID: map<Conn, Id>

    ghost function View(): Pool
      reads this
    {
      Pool(clients, connToID)
    }

    constructor ()
      ensures View() == EMPTY && Inverse(View())
    {
      clients, connToID := map[], map[];
    }

    method RegisterConn(conn: Conn, clientID: Id)
      modifies this
      ensures View() == Register(old(View()), conn, clientID)
    {
      clients := clients[clientID := conn];
      connToID := connToID[conn := clientID];
    }

    method UnregisterConn(conn: Conn) returns (clientID: Id)
      modifies this
      ensures clientID == CurrentId(old(View()), conn) && View() == Unregister(old(View()), conn)
    {
      clientID := if conn in connToID then connToID[conn] else "";
      connToID := connToID - {conn};
      clients := clients - {clientID};
    }

    method CurrentID(conn: Conn) returns (id: Id)
      ensures id == CurrentId(View(), conn)
    {
      id := if conn in connToID then connToID[conn] else "";
    }

    method RemapClientID(oldID: Id, newID: Id) returns (ok: bool)
      modifies this
      ensures ok == CanRemap(old(View()), oldID, newID) && View() == Remap(old(View()), oldID, newID)
      ensures old(Inverse(View())) ==> Inverse(View())
    {
      ghost var before := View();
      if oldID !in clients {
        return false;
      }
      var conn := clients[oldID];
      if newID in clients && clients[newID] != conn {
        return false;
      }
      clients := clients - {oldID};
      clients := clients[newID := conn];
      connToID := connToID[conn := newID];
      if Inverse(before) {
        RemapInverse(before, oldID, newID);
      }
      return true;
    }
  }
}
