/** `EventService` (src/db/events.js): the admission pipeline for protocol
    events and the two event queries. */
module Events {
  import opened Json
  import opened Documents
  import Query

  datatype EventError = TimeOutOfRange | UnknownUser | NoPermission | BadSignature

  /** `verifyEvent(event, pubkey)` from the signing library: the Schnorr
      check itself is not part of this model. */
  type Verifier = (Event, Option<string>) -> bool

  /** The checks of `createEvent` in their order; `None` admits the event. */
  function Admission(event: Event, now: int, perms: seq<PermissionDoc>, admin: string,
                     createEvents: int, verify: Verifier): Option<EventError>
  {
    if SkewSecondsExceeds(event.createdAt, now) then Some(TimeOutOfRange)
    else match PermissionRecord(perms, event.user)
      case None => Some(UnknownUser)
      case Some(rec) =>
        if event.user != Some(admin) && rec.permissions != Some(createEvents) then Some(NoPermission)
        else if !verify(event, event.user) then Some(BadSignature)
        else None
  }

  /** The document `createEvent` stores and returns. */
  function Stamped(event: Event, now: int): (e: Event)
    ensures e.serverTimestamp == Some(now)
    ensures e.(serverTimestamp := event.serverTimestamp) == event
  {
    event.(serverTimestamp := Some(now))
  }

  /** The `{ tags: { $in: tags } }` filter of `getEventsByTags`. */
  function AnyTagFilter(tags: seq<Tag>): Event -> bool {
    (e: Event) => HasAnyTag(e.tags, tags)
  }

  function MatchAll(): Event -> bool {
    (e: Event) => true
  }

  /** The `limit` that `readEvents` and `getEventsByTags` use when none is passed. */
  const DEFAULT_LIMIT: int := 1000

  class EventService {
    const db: Database
    const adminPubkey: string
    /** `PERMISSIONS.CREATE_EVENTS`, a constant of the shared library. */
    const createEvents: int

    constructor (db: Database, adminPubkey: string, createEvents: int)
      ensures this.db == db && this.adminPubkey == adminPubkey && this.createEvents == createEvents
    {
      this.db := db;
      this.adminPubkey := adminPubkey;
      this.createEvents := createEvents;
    }

    /** Admit an event: time window, known user, permission, signature; then
        stamp it and append it to the events collection. */
    method CreateEvent(event: Event, now: int, verify: Verifier) returns (r: Result<Event, EventError>)
      modifies db`events
      ensures var check := Admission(event, now, db.permissions, adminPubkey, createEvents, verify);
        && (check.None? ==> r == Ok(Stamped(event, now)) && db.events == old(db.events) + [Stamped(event, now)])
        && (check.Some? ==> r == Err(check.value) && db.events == old(db.events))
    {
      if SkewSecondsExceeds(event.createdAt, now) {
        return Err(TimeOutOfRange);
      }
      var user := PermissionRecord(db.permissions, event.user);
      if user.None? {
        return Err(UnknownUser);
      }
      if event.user != Some(adminPubkey) && user.value.permissions != Some(createEvents) {
        return Err(NoPermission);
      }
      var isValid := verify(event, event.user);
      if !isValid {
        return Err(BadSignature);
      }
      var stored := event.(serverTimestamp := Some(now));
      db.events := db.events + [stored];
      r := Ok(stored);
    }

    /** `find(filter).limit(limit)`, where an absent `limit` is
        `DEFAULT_LIMIT`; the descending sort is not modelled. */
    method ReadEvents(filter: Event -> bool, limit: Option<int>) returns (r: seq<Event>)
      ensures r == Query.Window(db.events, filter, 0, limit.GetOr(DEFAULT_LIMIT))
      ensures limit.None? ==> |r| <= DEFAULT_LIMIT
      ensures limit.Some? && limit.value != 0 ==> |r| <= Abs(limit.value)
      ensures forall e :: e in r ==> e in db.events && filter(e)
    {
      r := Query.Find(db.events, filter, 0, limit.GetOr(DEFAULT_LIMIT));
    }

    method GetEventsByTags(tags: seq<Tag>, limit: Option<int>) returns (r: seq<Event>)
      ensures r == Query.Window(db.events, AnyTagFilter(tags), 0, limit.GetOr(DEFAULT_LIMIT))
      ensures limit.None? ==> |r| <= DEFAULT_LIMIT
      ensures forall e :: e in r ==> e in db.events && HasAnyTag(e.tags, tags)
    {
      r := ReadEvents(AnyTagFilter(tags), limit);
    }
  }

  // ----- properties of the admission pipeline -----

  /** The time check fails exactly when the clipped creation time is valid and
      lies more than 300000 units from the server time in seconds. */
  lemma TimeCheckRejectsIff(event: Event, now: int, perms: seq<PermissionDoc>, admin: string,
                            createEvents: int, verify: Verifier)
    ensures Admission(event, now, perms, admin, createEvents, verify) == Some(TimeOutOfRange)
        <==> (DateValue(event.createdAt).Some? &&
              Abs(now / 1000 - event.createdAt.value) > 300000)
  {
  }

  /** A difference of exactly 300000 passes the time check; 300001 does not. */
  lemma TimeBoundary(event: Event, now: int, perms: seq<PermissionDoc>, admin: string,
                     createEvents: int, verify: Verifier)
    requires event.createdAt == Some(now / 1000 - 300000) || event.createdAt == Some(now / 1000 + 300000)
    requires -MAX_TIME <= event.createdAt.value <= MAX_TIME
    ensures Admission(event, now, perms, admin, createEvents, verify) != Some(TimeOutOfRange)
    ensures Admission(event.(createdAt := Some(now / 1000 - 300001)), now, perms, admin, createEvents, verify)
            == Some(TimeOutOfRange) || now / 1000 - 300001 < -MAX_TIME
  {
  }

  /** The tolerance is 300000 seconds, not five minutes: an event created a
      full day before the server clock still passes the time check, while an
      event stamped in milliseconds at the very same instant fails it. */
  lemma SecondsAgainstMillisecondConstant(event: Event, perms: seq<PermissionDoc>, admin: string,
                                          createEvents: int, verify: Verifier)
    ensures var now := 1_700_000_000_000;
      Admission(event.(createdAt := Some(now / 1000 - 86400)), now, perms, admin, createEvents, verify)
        != Some(TimeOutOfRange) &&
      Admission(event.(createdAt := Some(now)), now, perms, admin, createEvents, verify)
        == Some(TimeOutOfRange)
  {
  }

  /** An absent `created_at` is an Invalid Date; the NaN difference never
      exceeds the tolerance, so the time check passes. */
  lemma MissingCreatedAtPassesTimeCheck(event: Event, now: int, perms: seq<PermissionDoc>, admin: string,
                                        createEvents: int, verify: Verifier)
    requires event.createdAt.None?
    ensures Admission(event, now, perms, admin, createEvents, verify) != Some(TimeOutOfRange)
  {
  }

  /** An author without a record in the permissions collection is rejected
      once the time check passed, whatever the signature. */
  lemma UnknownAuthorRejected(event: Event, now: int, perms: seq<PermissionDoc>, admin: string,
                              createEvents: int, verify: Verifier)
    requires !SkewSecondsExceeds(event.createdAt, now)
    requires forall p :: p in perms ==> p.pubkey != event.user
    ensures Admission(event, now, perms, admin, createEvents, verify) == Some(UnknownUser)
  {
  }

  /** For a non-admin author the permission test is equality with
      `CREATE_EVENTS`, not a bit test: any other value, including one that
      has the bit set among others, is rejected. */
  lemma PermissionIsEquality(event: Event, now: int, perms: seq<PermissionDoc>, admin: string,
                             createEvents: int, verify: Verifier)
    requires !SkewSecondsExceeds(event.createdAt, now)
    requires PermissionRecord(perms, event.user).Some?
    requires event.user != Some(admin)
    ensures Admission(event, now, perms, admin, createEvents, verify) == Some(NoPermission)
        <==> PermissionRecord(perms, event.user).value.permissions != Some(createEvents)
  {
  }

  /** The admin key skips the permission test. */
  lemma AdminSkipsPermission(event: Event, now: int, perms: seq<PermissionDoc>, admin: string,
                             createEvents: int, verify: Verifier)
    requires event.user == Some(admin)
    ensures Admission(event, now, perms, admin, createEvents, verify) != Some(NoPermission)
  {
  }

  /** A failed signature check rejects an event that passed the earlier checks. */
  lemma BadSignatureRejected(event: Event, now: int, perms: seq<PermissionDoc>, admin: string,
                             createEvents: int, verify: Verifier)
    requires !SkewSecondsExceeds(event.createdAt, now)
    requires PermissionRecord(perms, event.user).Some?
    requires event.user == Some(admin) || PermissionRecord(perms, event.user).value.permissions == Some(createEvents)
    requires !verify(event, event.user)
    ensures Admission(event, now, perms, admin, createEvents, verify) == Some(BadSignature)
  {
  }

  /** An event is admitted exactly when all four checks pass. */
  lemma AdmittedIff(event: Event, now: int, perms: seq<PermissionDoc>, admin: string,
                    createEvents: int, verify: Verifier)
    ensures Admission(event, now, perms, admin, createEvents, verify).None? <==>
      && !SkewSecondsExceeds(event.createdAt, now)
      && PermissionRecord(perms, event.user).Some?
      && (event.user == Some(admin) || PermissionRecord(perms, event.user).value.permissions == Some(createEvents))
      && verify(event, event.user)
  {
  }
}
