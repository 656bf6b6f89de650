/** `WebSocketServer` (src/server.js): the dispatcher that turns a
    `[command, id, event]` frame into one service call, and the framing of
    the one reply it sends. */
module Server {
  import opened Json
  import opened Documents
  import Query
  import Events
  import Users
  import Permissions

  /** A received message after `JSON.parse`: `Unparsable` when parsing
      throws; `event` is `None` when `message[2]` is absent or null. */
  datatype Inbound = Unparsable | Message(id: Val, event: Option<Event>)

  /** Why a message ends in the `catch` of `handleMessage`, where it is only
      logged. */
  datatype Fault = Malformed | MissingFields | UndefinedService | NotImplemented | UnknownOps

  /** The service call `handleMessage` picks for a message. */
  datatype Action =
    | CreateUser(e: Event)
    | CreateEvent(e: Event)
    | AssignPermission(userId: Val, name: Option<string>, sig: Option<string>)
    | GetUserByPubkey(pubkey: Val)
    | ReadAllEvents(replyTo: Val, limit: int)
    | UpdateUser(pubkey: Val, updates: Option<map<string, Val>>)
    | DeleteUser(pubkey: Val)
    | Nothing
    | Fails(fault: Fault)

  /** A property of the event used as a query value: `undefined` is sent as
      null. */
  function KeyOf(user: Option<string>): Val {
    match user
    case None => Null
    case Some(s) => Str(s)
  }

  function Put(m: map<string, Val>, key: string, v: Option<Val>): (r: map<string, Val>)
    ensures forall k :: k in m && k != key ==> k in r && r[k] == m[k]
  {
    if v.Some? then m[key := v.value] else m
  }

  function TagValues(tags: seq<Tag>): seq<Val> {
    seq(|tags|, i requires 0 <= i < |tags| => Arr([Str(tags[i].key), tags[i].value]))
  }

  /** The event as the plain object it is in the source. */
  function EventObject(e: Event): (v: Val)
    ensures v.Obj? && "id" in v.fields && v.fields["id"] == Str(e.id)
  {
    var m := map["id" := Str(e.id)];
    var m := Put(m, "user", if e.user.Some? then Some(Str(e.user.value)) else None);
    var m := Put(m, "ops", if e.ops.Some? then Some(Str(e.ops.value)) else None);
    var m := Put(m, "code", if e.code.Some? then Some(Num(e.code.value)) else None);
    var m := Put(m, "data", if e.data.Some? then Some(Obj(e.data.value)) else None);
    var m := Put(m, "tags", if e.tags.Some? then Some(Arr(TagValues(e.tags.value))) else None);
    var m := Put(m, "created_at", if e.createdAt.Some? then Some(Num(e.createdAt.value)) else None);
    var m := Put(m, "sig", if e.sig.Some? then Some(Str(e.sig.value)) else None);
    Obj(m)
  }

  /** `handleMessage`'s case analysis over `ops` and `code`. */
  function Route(m: Inbound): Action {
    match m
    case Unparsable => Fails(Malformed)
    case Message(id, None) => Fails(Malformed)
    case Message(id, Some(e)) =>
      if !Filled(e.ops) || e.code.None? || e.code.value == 0 then Fails(MissingFields)
      else
        var c := e.code.value;
        match e.ops.value
        case "C" =>
          if 100 <= c < 200 then (if c == 100 then CreateUser(e) else Nothing)
          else if 200 <= c < 300 then
            (if c == 200 then CreateEvent(e) else if c == 203 then Fails(UndefinedService) else Nothing)
          else if 300 <= c < 400 then
            // one argument: the name and the signature are undefined
            (if c == 300 then AssignPermission(EventObject(e), None, None) else Nothing)
          else Nothing
        case "R" =>
          if 100 <= c < 200 then (if c == 103 then GetUserByPubkey(KeyOf(e.user)) else Nothing)
          else if 200 <= c < 300 then (if c == 203 then ReadAllEvents(id, Events.DEFAULT_LIMIT) else Nothing)
          else Nothing
        case "U" =>
          if 100 <= c < 200 then (if c == 101 then UpdateUser(KeyOf(e.user), e.data) else Nothing)
          else if 200 <= c < 300 then (if c == 201 then Fails(NotImplemented) else Nothing)
          else Nothing
        case "D" =>
          if 100 <= c < 200 then (if c == 102 then DeleteUser(KeyOf(e.user)) else Nothing)
          else if 200 <= c < 300 then (if c == 202 then Fails(NotImplemented) else Nothing)
          else Nothing
        case _ => Fails(UnknownOps)
  }

  /** What a reply carries: the service's answer, which may be missing. */
  datatype Response = Undefined | NullResponse | EventList(events: seq<Event>)

  /** A frame sent on the socket: `["RESP", messageId, payload]`. */
  datatype Frame = Resp(messageId: Val, payload: Response)

  /** `undefined` and `null` are replaced by an empty list. */
  function SafePayload(r: Response): (p: Response)
    ensures p.EventList?
    ensures r.EventList? ==> p == r
    ensures !r.EventList? ==> p == EventList([])
  {
    if r.Undefined? || r.NullResponse? then EventList([]) else r
  }

  /** The client end of a connection: the frames sent so far. */
  class Socket {
    var sent: seq<Frame>

    constructor ()
      ensures sent == []
    {
      sent := [];
    }
  }

  class WebSocketServer {
    const db: Database
    const events: Events.EventService
    const users: Users.UserService
    const permissions: Permissions.PermissionService

    /** The three services share one database. */
    ghost predicate Valid()
      reads this, db
    {
      events.db == db && users.db == db && permissions.db == db && db.Valid()
    }

    constructor (db: Database, adminPubkey: string, createEvents: int)
      requires db.Valid()
      ensures Valid() && this.db == db
      ensures events.adminPubkey == adminPubkey && events.createEvents == createEvents
      ensures permissions.adminPubkey == adminPubkey
    {
      this.db := db;
      events := new Events.EventService(db, adminPubkey, createEvents);
      users := new Users.UserService(db);
      permissions := new Permissions.PermissionService(db, adminPubkey);
    }

    /** Send exactly one frame. */
    method HandleResp(ws: Socket, messageId: Val, response: Response)
      modifies ws
      ensures ws.sent == old(ws.sent) + [Resp(messageId, SafePayload(response))]
    {
      var safe := response;
      if safe.Undefined? || safe.NullResponse? {
        safe := EventList([]);
      }
      ws.sent := ws.sent + [Resp(messageId, safe)];
    }

    /** Route the message and run the chosen service call. Every failure,
        from parsing to the service, ends here as a logged error; only the
        event read replies. */
    method HandleMessage(ws: Socket, m: Inbound, now: int, verify: Events.Verifier,
                         adminVerify: Permissions.AdminVerifier) returns (action: Action)
      requires Valid()
      modifies db, ws
      ensures Valid()
      ensures action == Route(m)
      ensures action.ReadAllEvents? ==>
        ws.sent == old(ws.sent) + [Resp(action.replyTo, EventList(Query.Window(old(db.events), Events.MatchAll(), 0, Events.DEFAULT_LIMIT)))]
      ensures !action.ReadAllEvents? ==> ws.sent == old(ws.sent)
      ensures !action.CreateEvent? ==> db.events == old(db.events)
      ensures action.CreateEvent? ==>
        db.events == if Events.Admission(action.e, now, old(db.permissions), events.adminPubkey,
                                         events.createEvents, verify).None?
                     then old(db.events) + [Events.Stamped(action.e, now)] else old(db.events)
      ensures db.permissions == old(db.permissions) && db.comments == old(db.comments) && db.likes == old(db.likes)
      ensures action.CreateUser? ==>
        db.users == if Users.CreateCheck(old(db.users), action.e, verify).None?
                    then old(db.users) + [Users.NewUser(action.e.user.value, action.e.data.value["email"], now)]
                    else old(db.users)
      ensures action.AssignPermission? ==>
        db.users == Permissions.Assigned(old(db.users), old(db.permissions), permissions.adminPubkey,
                                         action.userId, action.name, action.sig, now, adminVerify).0
      ensures action.UpdateUser? ==> db.users == Users.Update(old(db.users), action.pubkey, action.updates, now).0
      ensures action.DeleteUser? ==> db.users == Users.Deleted(old(db.users), action.pubkey, now)
      ensures (action.Nothing? || action.Fails? || action.CreateEvent? || action.GetUserByPubkey? ||
              action.ReadAllEvents?) ==>
        db.users == old(db.users)
    {
      action := Route(m);
      match action {
        case CreateUser(e) =>
          var _ := users.CreateUser(e, now, verify);
        case CreateEvent(e) =>
          var _ := events.CreateEvent(e, now, verify);
        case AssignPermission(userId, name, sig) =>
          var _ := permissions.AssignPermission(userId, name, sig, now, adminVerify);
        case GetUserByPubkey(pubkey) =>
          var _ := users.GetUserByPubkey(pubkey);
        case ReadAllEvents(replyTo, limit) =>
          var found := events.ReadEvents(Events.MatchAll(), Some(limit));
          HandleResp(ws, replyTo, EventList(found));
        case UpdateUser(pubkey, updates) =>
          var _ := users.UpdateUser(pubkey, updates, now);
        case DeleteUser(pubkey) =>
          var _, _ := users.DeleteUser(pubkey, now);
        case Nothing =>
        case Fails(_) =>
      }
    }
  }

  // ----- properties of the routing -----

  /** A message without `ops` or with a missing or zero `code` is refused
      before any service is chosen. */
  lemma FormatCheckedFirst(id: Val, e: Event)
    requires !Filled(e.ops) || e.code.None? || e.code == Some(0)
    ensures Route(Message(id, Some(e))) == Fails(MissingFields)
  {
  }

  /** The routing table. */
  lemma RoutingTable(id: Val, e: Event)
    ensures e.ops == Some("C") && e.code == Some(100) ==> Route(Message(id, Some(e))) == CreateUser(e)
    ensures e.ops == Some("C") && e.code == Some(200) ==> Route(Message(id, Some(e))) == CreateEvent(e)
    ensures e.ops == Some("C") && e.code == Some(300) ==>
      Route(Message(id, Some(e))) == AssignPermission(EventObject(e), None, None)
    ensures e.ops == Some("R") && e.code == Some(103) ==> Route(Message(id, Some(e))) == GetUserByPubkey(KeyOf(e.user))
    ensures e.ops == Some("R") && e.code == Some(203) ==> Route(Message(id, Some(e))) == ReadAllEvents(id, Events.DEFAULT_LIMIT)
    ensures e.ops == Some("U") && e.code == Some(101) ==>
      Route(Message(id, Some(e))) == UpdateUser(KeyOf(e.user), e.data)
    ensures e.ops == Some("D") && e.code == Some(102) ==> Route(Message(id, Some(e))) == DeleteUser(KeyOf(e.user))
  {
  }

  /** Updating and deleting events are not implemented, and C/203 calls a
      service field that does not exist: all three always fail. */
  lemma AlwaysFailing(id: Val, e: Event)
    ensures e.ops == Some("U") && e.code == Some(201) ==> Route(Message(id, Some(e))) == Fails(NotImplemented)
    ensures e.ops == Some("D") && e.code == Some(202) ==> Route(Message(id, Some(e))) == Fails(NotImplemented)
    ensures e.ops == Some("C") && e.code == Some(203) ==> Route(Message(id, Some(e))) == Fails(UndefinedService)
  {
  }

  /** An `ops` other than C, R, U and D is an error; a code that a known
      `ops` does not list calls nothing. */
  lemma UnlistedCodes(id: Val, e: Event)
    requires Filled(e.ops) && e.code.Some? && e.code.value != 0
    ensures e.ops.value !in {"C", "R", "U", "D"} ==> Route(Message(id, Some(e))) == Fails(UnknownOps)
    ensures e.ops.value in {"C", "R", "U", "D"} &&
            e.code.value !in {100, 200, 203, 300, 103, 101, 201, 102, 202} ==>
      Route(Message(id, Some(e))) == Nothing
  {
  }

  /** Only R/203 replies; every other message sends nothing. */
  lemma OnlyEventReadReplies(m: Inbound)
    ensures Route(m).ReadAllEvents? <==>
      m.Message? && m.event.Some? && m.event.value.ops == Some("R") && m.event.value.code == Some(203)
  {
  }

  /** The event passed as the user key of C/300 is an object, which equals no
      stored key: the assignment never changes a user. */
  lemma AssignFromDispatcherChangesNoUser(users: seq<UserDoc>, perms: seq<PermissionDoc>, admin: string,
                                          e: Event, now: int, verify: Permissions.AdminVerifier)
    requires forall u :: u in users ==> !PubkeyOf(u).Obj?
    ensures Permissions.Assigned(users, perms, admin, EventObject(e), None, None, now, verify).0 == users
  {
    var key := EventObject(e);
    forall k | 0 <= k < |users| ensures !Permissions.KeyIs(key)(users[k]) {
      assert users[k] in users;
    }
  }
}
