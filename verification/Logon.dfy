/** The logon use case: who is let in, and how the connection and the session change hands. */
module Logon {
  import opened Bytes
  import opened Wrappers
  import ConnPool
  import SessionStore
  import CacheClients

  type Id = string

  const USER_LEVEL := "#userLevel"

  datatype Code = LogonOK | BadCredentialsFormat | InvalidUser | InvalidPassword | Refused | InternalError

  datatype Credentials = Credentials(movieID: string, userID: Id, password: string)

  datatype Request = Request(connectionID: Id, senderID: Id, credentials: Option<Credentials>)

  datatype Reply = Reply(code: Code, userID: Id, userLevel: int, movieID: string)

  /** What the database answers: an account, no account, or an error. */
  datatype Account = Account(hash: string, level: int, banned: bool)
  datatype Lookup = Found(account: Account) | Missing | Failed

  datatype Payload = Payload(character: Id, level: int)

  /** The collaborators a decision depends on: password hashes are an opaque relation, and `tokens` is what
    * presenting a token would give. */
  datatype World = World(
    mode: string,
    defaultLevel: int,
    users: Id -> Lookup,
    matches: (string, string) -> bool,
    tokens: Option<string -> Option<Payload>>
  )

  // ---------------------------------------------------------------------------
  // Authentication
  // ---------------------------------------------------------------------------

  datatype Verdict = Accept(userID: Id, movieID: string, level: int) | Reject(code: Code, userID: Id)

  function ValidateCredentials(matches: (string, string) -> bool, a: Account, password: string): Code {
    if !matches(a.hash, password) then InvalidPassword
    else if a.banned then Refused
    else LogonOK
  }

  function Judge(w: World, userID: Id, password: string, movieID: string): Verdict {
    if w.mode == "none" then Accept(userID, movieID, w.defaultLevel)
    else if w.mode == "token" then
      if w.tokens.None? then Reject(InternalError, userID)
      else
        match w.tokens.value(password)
        case None => Reject(InvalidPassword, userID)
        case Some(payload) => Accept(payload.character, movieID, payload.level)
    else
      match w.users(userID)
      case Found(a) =>
        var code := ValidateCredentials(w.matches, a, password);
        if code != LogonOK then Reject(code, userID) else Accept(userID, movieID, a.level)
      case Missing =>
        if w.mode == "strict" then Reject(InvalidUser, userID) else Accept(userID, movieID, w.defaultLevel)
      case Failed =>
        if w.mode == "strict" then Reject(InvalidUser, userID) else Reject(InternalError, userID)
  }

  function Authenticate(w: World, req: Request): Verdict {
    match req.credentials
    case None =>
      if w.mode == "strict" || w.mode == "token" then Reject(BadCredentialsFormat, req.senderID)
      else Judge(w, req.senderID, "", "")
    case Some(c) => Judge(w, c.userID, c.password, c.movieID)
  }

  /** Who is let in, mode by mode. */
  ghost predicate Admitted(w: World, req: Request, userID: Id, level: int) {
    var claimed := if req.credentials.Some? then req.credentials.value.userID else req.senderID;
    var password := if req.credentials.Some? then req.credentials.value.password else "";
    var proven :=
      && w.users(claimed).Found?
      && w.matches(w.users(claimed).account.hash, password)
      && !w.users(claimed).account.banned
      && userID == claimed && level == w.users(claimed).account.level;
    if w.mode == "none" then userID == claimed && level == w.defaultLevel
    else if w.mode == "token" then
      req.credentials.Some? && w.tokens.Some? && w.tokens.value(password) == Some(Payload(userID, level))
    else if w.mode == "strict" then req.credentials.Some? && proven
    else proven || (w.users(claimed).Missing? && userID == claimed && level == w.defaultLevel)
  }

  /** Authentication accepts exactly the admitted identities, at their levels. */
  lemma AcceptedIffAdmitted(w: World, req: Request, userID: Id, level: int)
    ensures
      var v := Authenticate(w, req);
      (v.Accept? && v.userID == userID && v.level == level) <==> Admitted(w, req, userID, level)
  {
  }

  /** The account the request claims, if the mode looks accounts up for it. */
  ghost predicate LooksUp(w: World, req: Request) {
    w.mode != "none" && w.mode != "token" && (w.mode == "strict" ==> req.credentials.Some?)
  }

  /** Why a request is refused: each code for exactly one reason. An accepted request keeps its movie, and
    * a refused one the id it claims. */
  lemma RefusalCodes(w: World, req: Request)
    ensures
      var v := Authenticate(w, req);
      var claimed := if req.credentials.Some? then req.credentials.value.userID else req.senderID;
      var password := if req.credentials.Some? then req.credentials.value.password else "";
      var account := w.users(claimed);
      && (v.Accept? ==> v.movieID == if req.credentials.Some? then req.credentials.value.movieID else "")
      && (v.Reject? ==> v.userID == claimed && v.code != LogonOK)
      && (v == Reject(BadCredentialsFormat, claimed) <==>
            req.credentials.None? && (w.mode == "strict" || w.mode == "token"))
      && (v == Reject(InvalidUser, claimed) <==> w.mode == "strict" && LooksUp(w, req) && !account.Found?)
      && (v == Reject(InvalidPassword, claimed) <==>
            || (LooksUp(w, req) && account.Found? && !w.matches(account.account.hash, password))
            || (w.mode == "token" && req.credentials.Some? && w.tokens.Some? && w.tokens.value(password) == None))
      && (v == Reject(Refused, claimed) <==>
            LooksUp(w, req) && account.Found? && w.matches(account.account.hash, password) && account.account.banned)
      && (v == Reject(InternalError, claimed) <==>
            || (LooksUp(w, req) && w.mode != "strict" && account.Failed?)
            || (w.mode == "token" && req.credentials.Some? && w.tokens.None?))
  {
  }

  // ---------------------------------------------------------------------------
  // Establishing the session
  // ---------------------------------------------------------------------------

  /** The remote address of the session, kept from its first registration. */
  function SessionIp(store: SessionStore.Store, connectionID: Id): string {
    if connectionID in store.connections && store.connections[connectionID].ip != ""
    then store.connections[connectionID].ip
    else connectionID
  }

  function MoveSession(store: SessionStore.Store, connectionID: Id, userID: Id, level: int): SessionStore.Store {
    var ip := SessionIp(store, connectionID);
    var moved := SessionStore.Register(SessionStore.Unregister(store, connectionID), userID, ip);
    SessionStore.SetAttribute(moved, userID, USER_LEVEL, SessionStore.Level(ToInt32(level)))
  }

  /** The id is not taken by another session or, if there is a pool to remap in, another connection. */
  predicate FreeIn(pool: Option<ConnPool.Pool>, store: SessionStore.Store, connectionID: Id, userID: Id) {
    && (userID == connectionID || userID !in store.connections)
    && (pool.Some? ==> ConnPool.CanRemap(pool.value, connectionID, userID))
  }

  predicate Free(pool: ConnPool.Pool, store: SessionStore.Store, connectionID: Id, userID: Id) {
    FreeIn(Some(pool), store, connectionID, userID)
  }

  function RemapIn(pool: Option<ConnPool.Pool>, connectionID: Id, userID: Id): Option<ConnPool.Pool> {
    if pool.None? then None else Some(ConnPool.Remap(pool.value, connectionID, userID))
  }

  class LogonService {
    const mode: string
    const defaultLevel: int
    const users: Id -> Lookup
    const matches: (string, string) -> bool
    const sessions: SessionStore.MemorySessionStore
    const connWriter: ConnPool.ConnectionPool?
    const tokens: CacheClients.CacheTokenStore?<Payload>

    ghost function Config(now: int): World
      reads if tokens == null then {} else {tokens.cache}
    {
      World(mode, defaultLevel, users, matches,
            if tokens == null then None
            else
              var cache, codec := tokens.cache.View(), tokens.codec;
              Some(token => CacheClients.Validated(codec, cache, token, now).1))
    }

    ghost function PoolView(): Option<ConnPool.Pool>
      reads if connWriter == null then {} else {connWriter}
    {
      if connWriter == null then None else Some(connWriter.View())
    }

    constructor (
      sessions: SessionStore.MemorySessionStore, connWriter: ConnPool.ConnectionPool?,
      users: Id -> Lookup, matches: (string, string) -> bool,
      mode: string, defaultLevel: int, tokens: CacheClients.CacheTokenStore?<Payload>)
      ensures this.sessions == sessions && this.connWriter == connWriter && this.tokens == tokens
      ensures this.users == users && this.matches == matches && this.mode == mode && this.defaultLevel == defaultLevel
    {
      this.sessions, this.connWriter, this.users, this.matches := sessions, connWriter, users, matches;
      this.mode, this.defaultLevel, this.tokens := mode, defaultLevel, tokens;
    }

    /** The whole use case. Success needs an admitted identity and a free id, and moves the connection and
      * its session over; any other code leaves the pool and the session store as they were. A token is
      * presented, and so spent, exactly in token mode with credentials. */
    method Logon(req: Request, now: int) returns (res: Reply)
      modifies sessions
      modifies if connWriter == null then {} else {connWriter}
      modifies if tokens == null then {} else {tokens.cache}
      ensures
        var v := Authenticate(old(Config(now)), req);
        if v.Reject? then res.code == v.code != LogonOK && res.userID == v.userID
        else
          && res.userID == v.userID
          && (res.code == LogonOK <==> FreeIn(old(PoolView()), old(sessions.View()), req.connectionID, v.userID))
          && (res.code != LogonOK ==> res.code == Refused)
          && (res.code == LogonOK ==>
                && res.userLevel == v.level && res.movieID == v.movieID
                && PoolView() == RemapIn(old(PoolView()), req.connectionID, v.userID)
                && sessions.View() == MoveSession(old(sessions.View()), req.connectionID, v.userID, v.level))
      ensures res.code != LogonOK ==> PoolView() == old(PoolView()) && sessions.View() == old(sessions.View())
      ensures tokens != null ==>
                var before := old(tokens.cache.View());
                tokens.cache.View() ==
                if mode == "token" && req.credentials.Some?
                then CacheClients.Validated(tokens.codec, before, req.credentials.value.password, now).0
                else before
    {
      hide Authenticate, CacheClients.Validated, FreeIn, RemapIn, MoveSession;
      var v := Decide(req, now);
      if v.Reject? {
        return Reply(v.code, v.userID, 0, "");
      }
      res := EstablishSession(req.connectionID, v.userID, v.movieID, v.level);
    }

    /** The authentication switch; a presented token is spent whether or not it passes. */
    method Decide(req: Request, now: int) returns (v: Verdict)
      modifies if tokens == null then {} else {tokens.cache}
      ensures v == Authenticate(old(Config(now)), req) && (v.Reject? ==> v.code != LogonOK)
      ensures tokens != null ==>
                var before := old(tokens.cache.View());
                tokens.cache.View() ==
                if mode == "token" && req.credentials.Some?
                then CacheClients.Validated(tokens.codec, before, req.credentials.value.password, now).0
                else before
    {
      hide CacheClients.Validated;
      var userID, password, movieID := "", "", "";
      if req.credentials.None? {
        if mode == "strict" || mode == "token" {
          return Reject(BadCredentialsFormat, req.senderID);
        }
        userID := req.senderID;
      } else {
        userID := req.credentials.value.userID;
        password := req.credentials.value.password;
        movieID := req.credentials.value.movieID;
      }
      if mode == "none" {
        return Accept(userID, movieID, defaultLevel);
      } else if mode == "token" {
        if tokens == null {
          return Reject(InternalError, userID);
        }
        var presented := tokens.ValidateToken(password, now);
        if presented.None? {
          return Reject(InvalidPassword, userID);
        }
        return Accept(presented.value.character, movieID, presented.value.level);
      }
      match users(userID) {
        case Found(account) =>
          var code := CheckAccount(account, password);
          if code != LogonOK {
            return Reject(code, userID);
          }
          return Accept(userID, movieID, account.level);
        case Missing =>
          if mode == "strict" {
            return Reject(InvalidUser, userID);
          }
          return Accept(userID, movieID, defaultLevel);
        case Failed =>
          return Reject(if mode == "strict" then InvalidUser else InternalError, userID);
      }
    }

    method CheckAccount(account: Account, password: string) returns (code: Code)
      ensures code == ValidateCredentials(matches, account, password)
    {
      if !matches(account.hash, password) {
        return InvalidPassword;
      }
      if account.banned {
        return Refused;
      }
      return LogonOK;
    }

    method EstablishSession(connectionID: Id, userID: Id, movieID: string, userLevel: int) returns (res: Reply)
      modifies sessions
      modifies if connWriter == null then {} else {connWriter}
      ensures res.userID == userID
      ensures
        if FreeIn(old(PoolView()), old(sessions.View()), connectionID, userID) then
          && res == Reply(LogonOK, userID, userLevel, movieID)
          && PoolView() == RemapIn(old(PoolView()), connectionID, userID)
          && sessions.View() == MoveSession(old(sessions.View()), connectionID, userID, userLevel)
        else
          && res.code == Refused
          && PoolView() == old(PoolView())
          && sessions.View() == old(sessions.View())
    {
      hide SessionStore.Unregister, ConnPool.Remap;
      if userID != connectionID {
        var existing := sessions.GetConnection(userID);
        if existing.Some? {
          return Reply(Refused, userID, 0, "");
        }
      }
      if connWriter != null {
        var remapped := connWriter.RemapClientID(connectionID, userID);
        if !remapped {
          RefusedRemap(old(connWriter.View()), connectionID, userID);
          return Reply(Refused, userID, 0, "");
        }
      }
      var ip := connectionID;
      var existing := sessions.GetConnection(connectionID);
      if existing.Some? && existing.value.ip != "" {
        ip := existing.value.ip;
      }
      sessions.UnregisterConnection(connectionID);
      sessions.RegisterConnection(userID, ip);
      sessions.SetUserAttribute(userID, USER_LEVEL, SessionStore.Level(ToInt32(userLevel)));
      return Reply(LogonOK, userID, userLevel, movieID);
    }
  }

  lemma RefusedRemap(pool: ConnPool.Pool, oldId: Id, newId: Id)
    requires !ConnPool.CanRemap(pool, oldId, newId)
    ensures ConnPool.Remap(pool, oldId, newId) == pool
  {
  }
}
