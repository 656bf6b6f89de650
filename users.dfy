/** `UserService` (src/db/users.js): registering a public key with an email
    address, looking users up, editing them and deleting them logically. */
module Users {
  import opened Json
  import opened Documents
  import Query

  /** The errors `createUser` and `updateUser` throw. `TypeError` is the
      runtime error of reading a property of an absent `data` or `updates`;
      `DuplicateKey` is a unique-index violation the service passes on. */
  datatype UserError =
    | MissingPubkey | MissingEmail | MissingSignature | InvalidEmail | BadSignature
    | PubkeyTaken | EmailTaken | TypeError | DuplicateKey

  /** `verifyEvent(userData, userData.user)` */
  type Verifier = (Event, Option<string>) -> bool

  // ----- the email pattern -----

  /** A non-empty run of non-whitespace characters: `\S+`. */
  predicate NonSpace(t: string) {
    |t| > 0 && forall k :: 0 <= k < |t| ==> !IsSpace(t[k])
  }

  /** A match of `/\S+@\S+\.\S+/` at `s[i..j]`, with the `@` at `a` and the
      `.` at `d`. */
  ghost predicate PatternAt(s: string, i: int, a: int, d: int, j: int) {
    0 <= i < a && a + 1 < d && d < j <= |s| &&
    NonSpace(s[i..a]) && s[a] == '@' && NonSpace(s[a + 1..d]) && s[d] == '.' && NonSpace(s[d + 1..j])
  }

  /** What `/\S+@\S+\.\S+/.test(s)` means: some substring of `s` is a run of
      non-space characters, an `@`, another run, a `.` and a third run. */
  ghost predicate PatternMatches(s: string) {
    exists i, a, d, j :: PatternAt(s, i, a, d, j)
  }

  /** The shortest match around an `@` at `a` and a `.` at `d`: one non-space
      character before the `@`, a run up to the `.`, and one after it. */
  predicate EmailAt(s: string, a: int, d: int) {
    0 < a && a + 1 < d && d + 1 < |s| &&
    s[a] == '@' && !IsSpace(s[a - 1]) && NonSpace(s[a + 1..d]) && s[d] == '.' && !IsSpace(s[d + 1])
  }

  /** The check the service runs. Each run of the pattern can be shrunk to
      the characters `EmailAt` asks for, so this is the same test (see
      `EmailPatternIff`). */
  predicate IsEmail(s: string) {
    exists a, d | 0 < a < |s| && 0 < d < |s| :: EmailAt(s, a, d)
  }

  /** The address field as the pattern sees it. A truthy value that is not a
      string converts to a string with no `@` unless it is an array, which is
      not modelled (see the README). */
  predicate EmailAccepted(v: Val) {
    v.Str? && IsEmail(v.s)
  }

  lemma EmailPatternIff(s: string)
    ensures IsEmail(s) <==> PatternMatches(s)
  {
    if IsEmail(s) {
      var a, d :| 0 < a < |s| && 0 < d < |s| && EmailAt(s, a, d);
      assert a + 1 < d && d + 1 < |s|;
      assert NonSpace(s[a - 1..a]) && NonSpace(s[d + 1..d + 2]);
      assert PatternAt(s, a - 1, a, d, d + 2);
    }
    if PatternMatches(s) {
      var i, a, d, j :| PatternAt(s, i, a, d, j);
      assert s[i..a][a - 1 - i] == s[a - 1];
      assert s[d + 1..j][0] == s[d + 1];
      assert EmailAt(s, a, d);
    }
  }

  /** The pattern is not anchored: text around an address is accepted, while
      a missing dot after the `@` is not. */
  lemma EmailExamples()
    ensures IsEmail("a@b.c")
    ensures IsEmail("mail me at x@y.org please")
    ensures !IsEmail("a@b")
    ensures !IsEmail("@b.c")
  {
    assert EmailAt("a@b.c", 1, 3) by {
      assert NonSpace("a@b.c"[2..3]);
    }
    var t := "mail me at x@y.org please";
    assert EmailAt(t, 12, 14) by {
      assert NonSpace(t[13..14]);
    }
    forall a, d | EmailAt("@b.c", a, d) ensures false {
    }
  }

  // ----- createUser -----

  /** `userData.data.email`; an absent key is `undefined`. */
  function EmailField(data: map<string, Val>): Option<Val> {
    if "email" in data then Some(data["email"]) else None
  }

  /** `{ pubkey: userData.user.pubkey }`: the key is read from the pubkey
      string itself, so it is `undefined`, sent as null, and the lookup finds
      a user document that has no `pubkey`. */
  predicate HasKeylessUser(users: seq<UserDoc>) {
    exists k :: 0 <= k < |users| && PubkeyOf(users[k]) == Null
  }

  predicate HasEmail(users: seq<UserDoc>, email: Val) {
    exists k :: 0 <= k < |users| && "email" in users[k] && users[k]["email"] == email
  }

  predicate HasPubkey(users: seq<UserDoc>, key: Val) {
    exists k :: 0 <= k < |users| && PubkeyOf(users[k]) == key
  }

  /** The checks of `createUser` in their order, including the unique index
      the insert runs into; `None` lets the insert succeed. */
  function CreateCheck(users: seq<UserDoc>, e: Event, verify: Verifier): Option<UserError> {
    if !Filled(e.user) then Some(MissingPubkey)
    else if e.data.None? then Some(TypeError)
    else
      var email := EmailField(e.data.value);
      if !Present(email) then Some(MissingEmail)
      else if !Filled(e.sig) then Some(MissingSignature)
      else if !EmailAccepted(email.value) then Some(InvalidEmail)
      else if !verify(e, e.user) then Some(BadSignature)
      else if HasKeylessUser(users) then Some(PubkeyTaken)
      else if HasEmail(users, email.value) then Some(EmailTaken)
      else if HasPubkey(users, Str(e.user.value)) then Some(PubkeyTaken)
      else None
  }

  /** The document `createUser` stores. */
  function NewUser(pubkey: string, email: Val, now: int): UserDoc {
    map["pubkey" := Str(pubkey), "email" := email, "createdAt" := Num(now), "updatedAt" := Num(now)]
  }

  // ----- updateUser and deleteUser -----

  /** `delete updates.pubkey` and `delete updates.email`, each only when the
      value is truthy. */
  function Stripped(updates: map<string, Val>): (r: map<string, Val>)
    ensures r.Keys <= updates.Keys
    ensures forall key :: key in r ==> r[key] == updates[key]
    ensures "pubkey" in r <==> "pubkey" in updates && !Truthy(updates["pubkey"])
    ensures "email" in r <==> "email" in updates && !Truthy(updates["email"])
    ensures forall key :: key in updates && key != "pubkey" && key != "email" ==> key in r
  {
    var u := if "pubkey" in updates && Truthy(updates["pubkey"]) then updates - {"pubkey"} else updates;
    if "email" in u && Truthy(u["email"]) then u - {"email"} else u
  }

  /** Another document already holds the key the written document would have. */
  predicate KeyClash(users: seq<UserDoc>, k: nat, doc: UserDoc) {
    exists j :: 0 <= j < |users| && j != k && PubkeyOf(users[j]) == PubkeyOf(doc)
  }

  /** The whole of `updateUser`: the collection after it and what it returns
      (`None` when no user has the key). */
  function Update(users: seq<UserDoc>, pubkey: Val, updates: Option<map<string, Val>>, now: int)
    : (seq<UserDoc>, Result<Option<UserDoc>, UserError>)
  {
    if updates.None? then (users, Err(TypeError))
    else
      var fields := Stripped(updates.value);
      var found := Query.FindOne(users, (u: UserDoc) => UserKeyIs(pubkey, u));
      if fields == map[] then (users, Ok(found))
      else match Query.FirstIndex(users, (u: UserDoc) => UserKeyIs(pubkey, u))
        case None => (users, Ok(None))
        case Some(k) =>
          var doc := users[k] + fields["updatedAt" := Num(now)];
          if KeyClash(users, k, doc) then (users, Err(DuplicateKey))
          else (users[k := doc], Ok(Some(doc)))
  }

  /** `updateOne({ pubkey }, { $set: { status: 'deleted', updatedAt } })`. */
  function Tombstone(u: UserDoc, now: int): UserDoc {
    u["status" := Str("deleted")]["updatedAt" := Num(now)]
  }

  /** The collection after `deleteUser`: the first user with the key is
      marked, nothing is removed. */
  function Deleted(users: seq<UserDoc>, pubkey: Val, now: int): seq<UserDoc> {
    match Query.FirstIndex(users, (u: UserDoc) => UserKeyIs(pubkey, u))
    case None => users
    case Some(k) => users[k := Tombstone(users[k], now)]
  }

  class UserService {
    const db: Database

    constructor (db: Database)
      ensures this.db == db
    {
      this.db := db;
    }

    /** Register `userData.user` with `userData.data.email`. */
    method CreateUser(e: Event, now: int, verify: Verifier) returns (r: Result<UserDoc, UserError>)
      requires db.Valid()
      modifies db`users
      ensures db.Valid()
      ensures CreateCheck(old(db.users), e, verify).Some? ==>
        r == Err(CreateCheck(old(db.users), e, verify).value) && db.users == old(db.users)
      ensures CreateCheck(old(db.users), e, verify).None? ==>
        var doc := NewUser(e.user.value, e.data.value["email"], now);
        r == Ok(doc) && db.users == old(db.users) + [doc]
    {
      if e.user.None? || e.user.value == "" {
        return Err(MissingPubkey);
      }
      if e.data.None? {
        return Err(TypeError);
      }
      var email := EmailField(e.data.value);
      if !Present(email) {
        return Err(MissingEmail);
      }
      if e.sig.None? || e.sig.value == "" {
        return Err(MissingSignature);
      }
      if !EmailAccepted(email.value) {
        return Err(InvalidEmail);
      }
      var isValid := verify(e, e.user);
      if !isValid {
        return Err(BadSignature);
      }
      var byPubkey := Query.FindOne(db.users, (u: UserDoc) => UserKeyIs(Null, u));
      if byPubkey.Some? {
        return Err(PubkeyTaken);
      }
      var byEmail := Query.FindOne(db.users, (u: UserDoc) => "email" in u && u["email"] == email.value);
      if byEmail.Some? {
        return Err(EmailTaken);
      }
      var doc := NewUser(e.user.value, email.value, now);
      // the unique index on `pubkey`, reported as error 11000 on `pubkey_1`
      var clash := Query.FindOne(db.users, (u: UserDoc) => UserKeyIs(Str(e.user.value), u));
      if clash.Some? {
        return Err(PubkeyTaken);
      }
      db.users := db.users + [doc];
      r := Ok(doc);
    }

    /** `find(filter || {}).limit(limit)` with `limit` defaulting to 1000; the
        sort is not modelled. */
    method ReadUsers(filter: Option<UserDoc -> bool>, limit: Option<int>) returns (r: seq<UserDoc>)
      ensures var p := if filter.Some? then filter.value else (u: UserDoc) => true;
        r == Query.Window(db.users, p, 0, limit.GetOr(1000))
      ensures limit.None? ==> |r| <= 1000
      ensures filter.Some? ==> forall u :: u in r ==> u in db.users && filter.value(u)
    {
      var p := if filter.Some? then filter.value else (u: UserDoc) => true;
      r := Query.Find(db.users, p, 0, limit.GetOr(1000));
    }

    method GetUserByPubkey(pubkey: Val) returns (r: Option<UserDoc>)
      ensures r.Some? <==> HasPubkey(db.users, pubkey)
      ensures r.Some? ==> r.value in db.users && PubkeyOf(r.value) == pubkey
    {
      r := Query.FindOne(db.users, (u: UserDoc) => UserKeyIs(pubkey, u));
    }

    /** `$set` the non-key fields of `updates` and a new `updatedAt` on the
        user with the key, and return the document after the write. */
    method UpdateUser(pubkey: Val, updates: Option<map<string, Val>>, now: int)
      returns (r: Result<Option<UserDoc>, UserError>)
      requires db.Valid()
      modifies db`users
      ensures db.Valid()
      ensures (db.users, r) == Update(old(db.users), pubkey, updates, now)
    {
      if updates.None? {
        return Err(TypeError);
      }
      var fields := Stripped(updates.value);
      if fields == map[] {
        var current := GetUserByPubkey(pubkey);
        return Ok(current);
      }
      var k := Query.FirstIndex(db.users, (u: UserDoc) => UserKeyIs(pubkey, u));
      if k.None? {
        return Ok(None);
      }
      var doc := db.users[k.value] + fields["updatedAt" := Num(now)];
      var clash := exists j :: 0 <= j < |db.users| && j != k.value && PubkeyOf(db.users[j]) == PubkeyOf(doc);
      if clash {
        return Err(DuplicateKey);
      }
      db.users := db.users[k.value := doc];
      r := Ok(Some(doc));
    }

    /** Mark the user with the key as deleted; returns the matched and
        modified counts. */
    method DeleteUser(pubkey: Val, now: int) returns (matched: nat, modified: nat)
      requires db.Valid()
      modifies db`users
      ensures db.Valid()
      ensures db.users == Deleted(old(db.users), pubkey, now)
      ensures |db.users| == |old(db.users)|
      ensures matched == 1 <==> HasPubkey(old(db.users), pubkey)
      ensures matched == 0 ==> db.users == old(db.users) && modified == 0
      ensures matched == 1 ==> var k := Query.FirstIndex(old(db.users), (u: UserDoc) => UserKeyIs(pubkey, u)).value;
        && db.users == old(db.users)[k := Tombstone(old(db.users)[k], now)]
        && (modified == 1 <==> Tombstone(old(db.users)[k], now) != old(db.users)[k])
    {
      var k := Query.FirstIndex(db.users, (u: UserDoc) => UserKeyIs(pubkey, u));
      if k.None? {
        return 0, 0;
      }
      var before := db.users[k.value];
      var after := Tombstone(before, now);
      db.users := db.users[k.value := after];
      TombstoneKeepsKeys(old(db.users), k.value, now);
      matched := 1;
      modified := if after != before then 1 else 0;
    }
  }

  // ----- properties -----

  /** `Tombstone` leaves the key of the document alone, so the unique index
      still holds. */
  lemma TombstoneKeepsKeys(users: seq<UserDoc>, k: nat, now: int)
    requires k < |users| && UniquePubkeys(users)
    ensures PubkeyOf(Tombstone(users[k], now)) == PubkeyOf(users[k])
    ensures UniquePubkeys(users[k := Tombstone(users[k], now)])
  {
    ReplaceKeepsUnique(users, k, Tombstone(users[k], now));
  }

  /** The required fields are checked in the order pubkey, email,
      signature, before the address pattern. */
  lemma RequiredFieldOrder(users: seq<UserDoc>, e: Event, verify: Verifier)
    ensures !Filled(e.user) ==> CreateCheck(users, e, verify) == Some(MissingPubkey)
    ensures Filled(e.user) && e.data.Some? && !Present(EmailField(e.data.value)) ==>
      CreateCheck(users, e, verify) == Some(MissingEmail)
    ensures (Filled(e.user) && e.data.Some? && Present(EmailField(e.data.value)) && !Filled(e.sig)) ==>
      CreateCheck(users, e, verify) == Some(MissingSignature)
    ensures (Filled(e.user) && e.data.Some? && Present(EmailField(e.data.value)) && Filled(e.sig) &&
             !EmailAccepted(EmailField(e.data.value).value)) ==>
      CreateCheck(users, e, verify) == Some(InvalidEmail)
  {
  }

  /** A bad signature is reported before any lookup, so no collection state
      changes the answer. */
  lemma SignatureBeforeLookups(users: seq<UserDoc>, others: seq<UserDoc>, e: Event, verify: Verifier)
    requires Filled(e.user) && e.data.Some? && Present(EmailField(e.data.value)) && Filled(e.sig)
    requires EmailAccepted(EmailField(e.data.value).value)
    requires !verify(e, e.user)
    ensures CreateCheck(users, e, verify) == CreateCheck(others, e, verify) == Some(BadSignature)
  {
  }

  /** An address that is already registered is refused, and so is a public
      key that is already registered: not by the lookup meant for it, which
      reads an undefined property, but by the unique index on insert. */
  lemma DuplicatesRefused(users: seq<UserDoc>, e: Event, verify: Verifier)
    requires CreateCheck(users, e, verify).None?
    ensures !HasEmail(users, e.data.value["email"])
    ensures !HasPubkey(users, Str(e.user.value))
  {
  }

  lemma DuplicateEmailRefused(users: seq<UserDoc>, e: Event, verify: Verifier)
    requires Filled(e.user) && e.data.Some? && Present(EmailField(e.data.value)) && Filled(e.sig)
    requires EmailAccepted(EmailField(e.data.value).value) && verify(e, e.user)
    requires HasEmail(users, e.data.value["email"])
    ensures CreateCheck(users, e, verify) == Some(PubkeyTaken) || CreateCheck(users, e, verify) == Some(EmailTaken)
    ensures !HasKeylessUser(users) ==> CreateCheck(users, e, verify) == Some(EmailTaken)
  {
  }

  /** One stored user without a `pubkey` field blocks every later
      registration with the "public key already registered" error. */
  lemma KeylessUserBlocksRegistration(users: seq<UserDoc>, e: Event, verify: Verifier)
    requires Filled(e.user) && e.data.Some? && Present(EmailField(e.data.value)) && Filled(e.sig)
    requires EmailAccepted(EmailField(e.data.value).value) && verify(e, e.user)
    requires exists u :: u in users && "pubkey" !in u
    ensures CreateCheck(users, e, verify) == Some(PubkeyTaken)
  {
    var u :| u in users && "pubkey" !in u;
    var k :| 0 <= k < |users| && users[k] == u;
    assert PubkeyOf(users[k]) == Null;
  }

  /** The stored document has exactly the key, the address and two
      timestamps: the signature and any other field of the request are not
      kept. */
  lemma NewUserShape(pubkey: string, email: Val, now: int)
    ensures NewUser(pubkey, email, now).Keys == {"pubkey", "email", "createdAt", "updatedAt"}
    ensures PubkeyOf(NewUser(pubkey, email, now)) == Str(pubkey)
    ensures "sig" !in NewUser(pubkey, email, now)
  {
  }

  /** Registration keeps the key unique. */
  lemma RegistrationKeepsKeysUnique(users: seq<UserDoc>, e: Event, verify: Verifier, now: int)
    requires UniquePubkeys(users)
    requires CreateCheck(users, e, verify).None?
    ensures UniquePubkeys(users + [NewUser(e.user.value, e.data.value["email"], now)])
  {
    var t := users + [NewUser(e.user.value, e.data.value["email"], now)];
    forall i, j | 0 <= i < j < |t| ensures PubkeyOf(t[i]) != PubkeyOf(t[j]) {
      if j == |users| {
        assert t[i] == users[i];
      } else {
        assert t[i] == users[i] && t[j] == users[j];
      }
    }
  }

  /** A truthy `pubkey` or `email` in the update is never written: the
      stored values stay as they were. */
  lemma UpdateKeepsTruthyKeys(users: seq<UserDoc>, pubkey: Val, updates: map<string, Val>, now: int, key: string)
    requires key == "pubkey" || key == "email"
    requires key in updates && Truthy(updates[key])
    requires Update(users, pubkey, Some(updates), now).1.Ok?
    requires Update(users, pubkey, Some(updates), now).1.value.Some?
    ensures var doc := Update(users, pubkey, Some(updates), now).1.value.value;
      var k := Query.FirstIndex(users, (u: UserDoc) => UserKeyIs(pubkey, u)).value;
      (key in doc <==> key in users[k]) && (key in doc ==> doc[key] == users[k][key])
  {
  }

  /** Only truthy values are stripped: an update with an empty `email` does
      overwrite the stored address. */
  lemma FalsyEmailIsWritten(now: int)
    ensures var users := [map["pubkey" := Str("pk"), "email" := Str("a@b.c")]];
      var (after, r) := Update(users, Str("pk"), Some(map["email" := Str("")]), now);
      r.Ok? && r.value.Some? && after[0]["email"] == Str("")
  {
    var users := [map["pubkey" := Str("pk"), "email" := Str("a@b.c")]];
    var p := (u: UserDoc) => UserKeyIs(Str("pk"), u);
    assert p(users[0]);
    assert Query.FirstIndex(users, p) == Some(0);
    assert Stripped(map["email" := Str("")]) == map["email" := Str("")];
  }

  /** With nothing left to write, `updateUser` writes nothing and answers the
      current document. */
  lemma EmptyUpdateWritesNothing(users: seq<UserDoc>, pubkey: Val, updates: map<string, Val>, now: int)
    requires Stripped(updates) == map[]
    ensures Update(users, pubkey, Some(updates), now).0 == users
    ensures var r := Update(users, pubkey, Some(updates), now).1;
      r.Ok? && (r.value.Some? <==> HasPubkey(users, pubkey)) &&
      (r.value.Some? ==> r.value.value in users && PubkeyOf(r.value.value) == pubkey)
  {
  }

  /** An update of only key fields with truthy values is empty. */
  lemma OnlyKeysIsEmpty(p: Val, m: Val)
    requires Truthy(p) && Truthy(m)
    ensures Stripped(map["pubkey" := p, "email" := m]) == map[]
  {
  }

  /** `updateUser` keeps the key unique: a write that would duplicate a key
      is refused. */
  lemma UpdateKeepsKeysUnique(users: seq<UserDoc>, pubkey: Val, updates: Option<map<string, Val>>, now: int)
    requires UniquePubkeys(users)
    ensures UniquePubkeys(Update(users, pubkey, updates, now).0)
  {
    if updates.Some? && Stripped(updates.value) != map[] {
      var p := (u: UserDoc) => UserKeyIs(pubkey, u);
      var k := Query.FirstIndex(users, p);
      if k.Some? {
        var doc := users[k.value] + Stripped(updates.value)["updatedAt" := Num(now)];
        if !KeyClash(users, k.value, doc) {
          var t := users[k.value := doc];
          forall i, j | 0 <= i < j < |t| ensures PubkeyOf(t[i]) != PubkeyOf(t[j]) {
            if i == k.value {
              assert !(0 <= j < |users| && j != k.value && PubkeyOf(users[j]) == PubkeyOf(doc));
            } else if j == k.value {
              assert !(0 <= i < |users| && i != k.value && PubkeyOf(users[i]) == PubkeyOf(doc));
            }
          }
        }
      }
    }
  }

  /** Delete is logical: the record stays, with every field it had, and
      gains `status: 'deleted'`. */
  lemma DeleteIsLogical(u: UserDoc, now: int)
    ensures Tombstone(u, now).Keys == u.Keys + {"status", "updatedAt"}
    ensures Tombstone(u, now)["status"] == Str("deleted")
    ensures forall key :: key in u && key != "status" && key != "updatedAt" ==> Tombstone(u, now)[key] == u[key]
  {
  }
}
