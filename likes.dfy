/** `LikeService` (src/db/likes.js): toggling a like on a piece of content
    and the two like queries. A like is stored as the protocol event that
    created it, with a `["liked", 0 | 1]` tag that each toggle rewrites. */
module Likes {
  import opened Json
  import opened Documents
  import Query

  /** The outcome of `toggleLike`: a refusal with its code, the new `liked`
      value, or a `TypeError` thrown from the service (a `tags` field that is
      absent where the code indexes or pushes into it). */
  datatype LikeStatus = WrongCode | TimeSkew | UnknownUser | BadSignature | Toggled(liked: int) | Thrown

  /** The `code` of the reply. `Thrown` stands for the TypeError that
      `toggleLike` raises on a like without tags; the source attaches no code
      to it, and the 500 here is only the model's label for a rejected
      promise. */
  function Code(s: LikeStatus): int {
    match s
    case WrongCode => 400
    case TimeSkew => 500
    case UnknownUser => 500
    case BadSignature => 500
    case Toggled(_) => 200
    case Thrown => 500
  }

  const LIKE_CODE: int := 600
  const READ_LIKES_CODE: int := 603

  /** `verifyEvent(likeEvent, likeEvent.user)` */
  type Verifier = (Event, Option<string>) -> bool

  /** The checks of `toggleLike` before any like is looked up, in their
      order; `None` lets the toggle go ahead. */
  function LikeCheck(e: Event, now: int, perms: seq<PermissionDoc>, verify: Verifier): Option<LikeStatus> {
    if e.code != Some(LIKE_CODE) then Some(WrongCode)
    else if SkewSecondsExceeds(e.createdAt, now) then Some(TimeSkew)
    else if PermissionRecord(perms, e.user).None? then Some(UnknownUser)
    else if !verify(e, e.user) then Some(BadSignature)
    else None
  }

  function KeyIs(key: string): Tag -> bool {
    (t: Tag) => t.key == key
  }

  /** `getTagValue`: the value of the first tag with the key, or `''` when
      the list is absent or no tag has the key. */
  function TagValue(tags: Option<seq<Tag>>, key: string): (v: Val)
    ensures tags.None? ==> v == Str("")
    ensures tags.Some? ==> match Query.FirstIndex(tags.value, KeyIs(key))
      case None => v == Str("")
      case Some(k) => v == tags.value[k].value
  {
    match tags
    case None => Str("")
    case Some(ts) =>
      match Query.FirstIndex(ts, KeyIs(key))
      case None => Str("")
      case Some(k) => ts[k].value
  }

  /** What `setTagsValue` leaves in the list: the first tag with the key gets
      the new value; `None` is its `undefined` result when no tag has the key. */
  function SetFirst(tags: seq<Tag>, key: string, value: Val): Option<seq<Tag>> {
    match Query.FirstIndex(tags, KeyIs(key))
    case None => None
    case Some(k) => Some(tags[k := Tag(key, value)])
  }

  /** `liked == 0 ? 1 : 0` */
  function Flip(liked: Val): int {
    if LooselyZero(liked) then 1 else 0
  }

  /** `{ tags: { $all: likeEvent.tags }, user: likeEvent.user }`: without
      tags only the user is compared, and an absent user matches the likes
      that have none. */
  function SameLike(e: Event): Event -> bool {
    (doc: Event) => (e.tags.Some? ==> HasAllTags(doc.tags, e.tags.value)) && doc.user == e.user
  }

  /** The filter of `readLikes` and `counts`. */
  function LikeQuery(e: Event): Event -> bool {
    (doc: Event) => (Filled(e.eventuser) ==> doc.user == e.eventuser) &&
                    (e.tags.Some? ==> HasAllTags(doc.tags, e.tags.value))
  }

  /** The like inserted on a first like: the event with `["liked", 1]` pushed
      onto its tags. */
  function FirstLike(e: Event): Event
    requires e.tags.Some?
  {
    e.(tags := Some(e.tags.value + [Tag("liked", Num(1))]))
  }

  /** The whole of `toggleLike`: its reply and the likes collection after it. */
  function Toggle(likes: seq<Event>, e: Event, now: int, perms: seq<PermissionDoc>, verify: Verifier)
    : (seq<Event>, LikeStatus)
  {
    match LikeCheck(e, now, perms, verify)
    case Some(refusal) => (likes, refusal)
    case None =>
      match Query.FirstIndex(likes, SameLike(e))
      case Some(k) =>
        var doc := likes[k];
        var liked := Flip(TagValue(doc.tags, "liked"));
        if doc.tags.None? then (likes, Thrown)
        else (likes[k := doc.(tags := SetFirst(doc.tags.value, "liked", Num(liked)), updateTime := Some(now))],
              Toggled(liked))
      case None =>
        if e.tags.None? then (likes, Thrown)
        else (likes + [FirstLike(e)], Toggled(1))
  }

  /** `setTagsValue(tags, key, value)`, in place on the array of tags the
      driver returned: the first tag with the key gets the value. */
  method SetTagsValue(tags: array<Tag>, key: string, value: Val) returns (found: bool)
    modifies tags
    ensures found <==> Query.FirstIndex(old(tags[..]), KeyIs(key)).Some?
    ensures found ==> Some(tags[..]) == SetFirst(old(tags[..]), key, value)
    ensures !found ==> tags[..] == old(tags[..])
  {
    var i := 0;
    while i < tags.Length
      invariant 0 <= i <= tags.Length
      invariant tags[..] == old(tags[..])
      invariant forall j :: 0 <= j < i ==> tags[j].key != key
    {
      if tags[i].key == key {
        FirstIndexAt(tags[..], KeyIs(key), i);
        tags[i] := Tag(tags[i].key, value);
        return true;
      }
      i := i + 1;
    }
    return false;
  }

  /** `FirstIndex` is the position of a match with no match before it. */
  lemma FirstIndexAt<T>(xs: seq<T>, p: T -> bool, i: nat)
    requires i < |xs| && p(xs[i])
    requires forall j :: 0 <= j < i ==> !p(xs[j])
    ensures Query.FirstIndex(xs, p) == Some(i)
  {
  }

  class LikeService {
    const db: Database

    constructor (db: Database)
      ensures this.db == db
    {
      this.db := db;
    }

    /** Flip the `liked` tag of the caller's like, or insert a first like. */
    method ToggleLike(e: Event, now: int, verify: Verifier) returns (status: LikeStatus)
      modifies db`likes
      ensures (db.likes, status) == Toggle(old(db.likes), e, now, db.permissions, verify)
    {
      if e.code != Some(LIKE_CODE) {
        return WrongCode;
      }
      if SkewSecondsExceeds(e.createdAt, now) {
        return TimeSkew;
      }
      var user := PermissionRecord(db.permissions, e.user);
      if user.None? {
        return UnknownUser;
      }
      var isValid := verify(e, e.user);
      if !isValid {
        return BadSignature;
      }
      var existing := Query.FirstIndex(db.likes, SameLike(e));
      if existing.Some? {
        var doc := db.likes[existing.value];
        var liked := Flip(TagValue(doc.tags, "liked"));
        if doc.tags.None? {
          return Thrown;
        }
        var stored := doc.tags.value;
        var tags := new Tag[|stored|](j requires 0 <= j < |stored| => stored[j]);
        assert tags[..] == stored;
        var found := SetTagsValue(tags, "liked", Num(liked));
        var written := if found then Some(tags[..]) else None;
        db.likes := db.likes[existing.value := doc.(tags := written, updateTime := Some(now))];
        status := Toggled(liked);
      } else {
        if e.tags.None? {
          return Thrown;
        }
        db.likes := db.likes + [FirstLike(e)];
        status := Toggled(1);
      }
    }

    /** `find(query)` after the 603 gate; the sort is not modelled. */
    method ReadLikes(e: Event) returns (r: Result<seq<Event>, int>)
      ensures e.code != Some(READ_LIKES_CODE) <==> r == Err(400)
      ensures r.Ok? ==> r.value == Query.Matching(db.likes, LikeQuery(e))
    {
      if e.code != Some(READ_LIKES_CODE) {
        return Err(400);
      }
      var found := Query.Find(db.likes, LikeQuery(e), 0, 0);
      return Ok(found);
    }

    /** `countDocuments(filter)`: no code gate. */
    method Counts(e: Event) returns (code: int, total: nat)
      ensures code == 200
      ensures total == |Query.Matching(db.likes, LikeQuery(e))|
      ensures total == 0 <==> forall doc :: doc in db.likes ==> !LikeQuery(e)(doc)
    {
      var all := Query.Find(db.likes, LikeQuery(e), 0, 0);
      forall doc | doc in db.likes && LikeQuery(e)(doc) ensures |all| > 0 {
        Query.MatchingComplete(db.likes, LikeQuery(e), doc);
      }
      if |all| > 0 {
        assert all[0] in all;
      }
      code, total := 200, |all|;
    }
  }

  // ----- properties -----

  /** Any code other than 600 is refused with 400 before every other check. */
  lemma CodeGateFirst(likes: seq<Event>, e: Event, now: int, perms: seq<PermissionDoc>, verify: Verifier)
    requires e.code != Some(600)
    ensures Toggle(likes, e, now, perms, verify) == (likes, WrongCode)
    ensures Code(WrongCode) == 400
  {
  }

  /** After the code gate: time, then user, then signature, each answered
      with 500 and no write. */
  lemma CheckOrder(likes: seq<Event>, e: Event, now: int, perms: seq<PermissionDoc>, verify: Verifier)
    requires e.code == Some(600)
    ensures SkewSecondsExceeds(e.createdAt, now) ==> Toggle(likes, e, now, perms, verify) == (likes, TimeSkew)
    ensures !SkewSecondsExceeds(e.createdAt, now) && PermissionRecord(perms, e.user).None? ==>
      Toggle(likes, e, now, perms, verify) == (likes, UnknownUser)
    ensures (!SkewSecondsExceeds(e.createdAt, now) && PermissionRecord(perms, e.user).Some? &&
             !verify(e, e.user)) ==> Toggle(likes, e, now, perms, verify) == (likes, BadSignature)
    ensures LikeCheck(e, now, perms, verify).Some? ==> Code(Toggle(likes, e, now, perms, verify).1) == 500
  {
  }

  /** `getTagValue` finds the first tag with the key. */
  lemma TagValueFirst(ts: seq<Tag>, key: string, i: nat)
    requires i < |ts| && ts[i].key == key
    requires forall j :: 0 <= j < i ==> ts[j].key != key
    ensures TagValue(Some(ts), key) == ts[i].value
  {
    FirstIndexAt(ts, KeyIs(key), i);
  }

  /** `setTagsValue` rewrites exactly the first tag with the key, after which
      `getTagValue` reads the new value back; every other tag is unchanged. */
  lemma SetThenGet(ts: seq<Tag>, key: string, value: Val)
    requires SetFirst(ts, key, value).Some?
    ensures var ts' := SetFirst(ts, key, value).value;
      && |ts'| == |ts|
      && TagValue(Some(ts'), key) == value
      && (forall j :: 0 <= j < |ts| && j != Query.FirstIndex(ts, KeyIs(key)).value ==> ts'[j] == ts[j])
  {
    var k := Query.FirstIndex(ts, KeyIs(key)).value;
    var ts' := ts[k := Tag(key, value)];
    TagValueFirst(ts', key, k);
  }

  /** Without a tag carrying the key, `setTagsValue` gives `undefined`. */
  lemma SetWithoutKey(ts: seq<Tag>, key: string, value: Val)
    requires forall t :: t in ts ==> t.key != key
    ensures SetFirst(ts, key, value).None?
    ensures TagValue(Some(ts), key) == Str("")
  {
  }

  /** 0 (and anything loosely equal to it, such as `''` or `"0"`) becomes 1;
      1 and any other value becomes 0. */
  lemma FlipValues()
    ensures Flip(Num(0)) == 1 && Flip(Num(1)) == 0
    ensures Flip(Str("")) == 1 && Flip(Str("0")) == 1 && Flip(Bool(false)) == 1
    ensures Flip(Null) == 0 && Flip(Num(7)) == 0 && Flip(Bool(true)) == 0
  {
    assert ZeroNumeral("") by {
      assert Blank(""[..0]) && Blank(""[0..]) && SignedZeros(""[0..0]);
    }
    assert ZeroNumeral("0") by {
      assert Blank("0"[..0]) && Blank("0"[1..]) && AllZeros("0"[0..1]);
    }
  }

  /** An existing like is the first one with the caller's user that carries
      every tag of the request. */
  lemma ExistingLikeIff(likes: seq<Event>, e: Event, doc: Event)
    requires doc in likes
    ensures SameLike(e)(doc) <==>
      doc.user == e.user && (e.tags.Some? ==> (doc.tags.Some? && |e.tags.value| > 0 &&
                                               forall w :: w in e.tags.value ==> w in doc.tags.value))
    ensures SameLike(e)(doc) ==> Query.FirstIndex(likes, SameLike(e)).Some?
  {
    var i :| 0 <= i < |likes| && likes[i] == doc;
  }

  /** A first like is stored with `["liked", 1]` as its last tag and answered
      with liked = 1. */
  lemma FirstLikeInserted(likes: seq<Event>, e: Event, now: int, perms: seq<PermissionDoc>, verify: Verifier)
    requires LikeCheck(e, now, perms, verify).None?
    requires forall doc :: doc in likes ==> !SameLike(e)(doc)
    requires e.tags.Some?
    ensures var (after, status) := Toggle(likes, e, now, perms, verify);
      && status == Toggled(1)
      && after == likes + [e.(tags := Some(e.tags.value + [Tag("liked", Num(1))]))]
  {
    forall k | 0 <= k < |likes| ensures !SameLike(e)(likes[k]) {
      assert likes[k] in likes;
    }
  }

  /** The tag is appended, not merged: a first like whose request already
      carries `["liked", 0]` is answered liked = 1 but stored with liked 0,
      since `getTagValue` reads the earlier tag. */
  lemma FirstLikeKeepsEarlierLikedTag(e: Event)
    requires e.tags == Some([Tag("liked", Num(0))])
    ensures TagValue(FirstLike(e).tags, "liked") == Num(0)
  {
    TagValueFirst(FirstLike(e).tags.value, "liked", 0);
  }

  /** Without a `tags` field the first like cannot be pushed and the service
      throws; nothing is written. */
  lemma FirstLikeWithoutTagsThrows(likes: seq<Event>, e: Event, now: int, perms: seq<PermissionDoc>,
                                   verify: Verifier)
    requires LikeCheck(e, now, perms, verify).None?
    requires e.tags.None?
    requires forall doc :: doc in likes ==> doc.user != e.user
    ensures Toggle(likes, e, now, perms, verify) == (likes, Thrown)
  {
    forall k | 0 <= k < |likes| ensures !SameLike(e)(likes[k]) {
      assert likes[k] in likes;
    }
  }

  /** The request's tags survive rewriting the `liked` tag when none of them
      is a `liked` tag. */
  lemma TagsSurviveSet(ts: seq<Tag>, want: seq<Tag>, value: Val)
    requires HasAllTags(Some(ts), want)
    requires forall w :: w in want ==> w.key != "liked"
    requires SetFirst(ts, "liked", value).Some?
    ensures HasAllTags(SetFirst(ts, "liked", value), want)
  {
    var k := Query.FirstIndex(ts, KeyIs("liked")).value;
    var ts' := ts[k := Tag("liked", value)];
    forall w | w in want ensures w in ts' {
      var m :| 0 <= m < |ts| && ts[m] == w;
      assert ts'[m] == w;
    }
  }

  /** The toggle of an existing like whose tags are present. */
  lemma ToggleExisting(likes: seq<Event>, e: Event, now: int, perms: seq<PermissionDoc>,
                       verify: Verifier, k: nat)
    requires LikeCheck(e, now, perms, verify).None?
    requires Query.FirstIndex(likes, SameLike(e)) == Some(k)
    requires likes[k].tags.Some?
    ensures var liked := Flip(TagValue(likes[k].tags, "liked"));
      Toggle(likes, e, now, perms, verify) ==
        (likes[k := likes[k].(tags := SetFirst(likes[k].tags.value, "liked", Num(liked)), updateTime := Some(now))],
         Toggled(liked))
  {
  }

  /** Setting the `liked` tag to 1 - b and then back to b gives the
      original list. */
  lemma SetLikedTwice(ts: seq<Tag>, b: int)
    requires b == 0 || b == 1
    requires TagValue(Some(ts), "liked") == Num(b)
    ensures SetFirst(ts, "liked", Num(1 - b)).Some?
    ensures var ts1 := SetFirst(ts, "liked", Num(1 - b)).value;
      TagValue(Some(ts1), "liked") == Num(1 - b) && SetFirst(ts1, "liked", Num(b)) == Some(ts)
  {
    var i := Query.FirstIndex(ts, KeyIs("liked")).value;
    var ts1 := ts[i := Tag("liked", Num(1 - b))];
    TagValueFirst(ts1, "liked", i);
    FirstIndexAt(ts1, KeyIs("liked"), i);
    assert ts1[i := Tag("liked", Num(b))] == ts;
  }

  /** A record whose `liked` tag is rewritten stays the first match when the
      request's tags do not mention `liked`. */
  lemma StillFirst(likes: seq<Event>, e: Event, k: nat, doc: Event, value: Val)
    requires Query.FirstIndex(likes, SameLike(e)) == Some(k)
    requires e.tags.Some? ==> forall w :: w in e.tags.value ==> w.key != "liked"
    requires likes[k].tags.Some? && SetFirst(likes[k].tags.value, "liked", value).Some?
    requires doc == likes[k].(tags := SetFirst(likes[k].tags.value, "liked", value), updateTime := doc.updateTime)
    ensures Query.FirstIndex(likes[k := doc], SameLike(e)) == Some(k)
  {
    if e.tags.Some? {
      TagsSurviveSet(likes[k].tags.value, e.tags.value, value);
    }
    FirstIndexAt(likes[k := doc], SameLike(e), k);
  }

  /** Toggling twice restores a `liked` tag of 0 or 1 and answers the two
      values in turn: the record ends as it was except for `updateTime`. This
      holds when the request's tags do not themselves pin the `liked` value
      (otherwise the flipped record no longer matches). */
  lemma ToggleTwiceRestores(likes: seq<Event>, e: Event, now: int, perms: seq<PermissionDoc>,
                            verify: Verifier, k: nat, b: int)
    requires LikeCheck(e, now, perms, verify).None?
    requires e.tags.Some? ==> forall w :: w in e.tags.value ==> w.key != "liked"
    requires b == 0 || b == 1
    requires Query.FirstIndex(likes, SameLike(e)) == Some(k)
    requires likes[k].tags.Some? && TagValue(likes[k].tags, "liked") == Num(b)
    ensures Toggle(likes, e, now, perms, verify).1 == Toggled(1 - b)
    ensures Toggle(Toggle(likes, e, now, perms, verify).0, e, now, perms, verify)
            == (likes[k := likes[k].(updateTime := Some(now))], Toggled(b))
  {
    var ts := likes[k].tags.value;
    SetLikedTwice(ts, b);
    var ts1 := SetFirst(ts, "liked", Num(1 - b)).value;
    var doc1 := likes[k].(tags := Some(ts1), updateTime := Some(now));
    var once := likes[k := doc1];
    assert Flip(Num(b)) == 1 - b;
    ToggleExisting(likes, e, now, perms, verify, k);
    assert Toggle(likes, e, now, perms, verify) == (once, Toggled(1 - b));
    StillFirst(likes, e, k, doc1, Num(1 - b));
    assert Flip(Num(1 - b)) == b;
    ToggleExisting(once, e, now, perms, verify, k);
    assert once[k := doc1.(tags := Some(ts), updateTime := Some(now))] == likes[k := likes[k].(updateTime := Some(now))];
  }

  /** At most one tag of the list carries the key `liked`. */
  predicate OneLikedTag(ts: seq<Tag>) {
    forall i, j :: 0 <= i < |ts| && 0 <= j < |ts| && ts[i].key == "liked" && ts[j].key == "liked" ==> i == j
  }

  /** Flipping the only `liked` tag of a list that carries `["liked", b]`
      removes that pair from the list. */
  lemma FlipRemovesPinned(ts: seq<Tag>, b: int)
    requires b == 0 || b == 1
    requires OneLikedTag(ts) && Tag("liked", Num(b)) in ts
    ensures TagValue(Some(ts), "liked") == Num(b)
    ensures SetFirst(ts, "liked", Num(1 - b)).Some?
    ensures Tag("liked", Num(b)) !in SetFirst(ts, "liked", Num(1 - b)).value
  {
    var pinned := Tag("liked", Num(b));
    var i :| 0 <= i < |ts| && ts[i] == pinned;
    TagValueFirst(ts, "liked", i);
    FirstIndexAt(ts, KeyIs("liked"), i);
    var ts1 := ts[i := Tag("liked", Num(1 - b))];
    forall m | 0 <= m < |ts1| ensures ts1[m] != pinned {
      if m != i {
        assert ts1[m] == ts[m];
      }
    }
  }

  /** A record without one of the requested tags is not the same like. */
  lemma PinnedMissing(e: Event, doc: Event, w: Tag)
    requires e.tags.Some? && w in e.tags.value
    requires doc.tags.Some? ==> w !in doc.tags.value
    ensures !SameLike(e)(doc)
  {
  }

  /** Once the only matching record stops matching, no record matches. */
  lemma NoMatchLeft(likes: seq<Event>, e: Event, k: nat, doc: Event)
    requires k < |likes|
    requires forall j :: 0 <= j < |likes| && j != k ==> !SameLike(e)(likes[j])
    requires !SameLike(e)(doc)
    ensures Query.FirstIndex(likes[k := doc], SameLike(e)).None?
  {
    var once := likes[k := doc];
    forall j | 0 <= j < |once| ensures !SameLike(e)(once[j]) {
      if j != k {
        assert once[j] == likes[j];
      }
    }
  }

  /** The toggle when no like matches: the event is inserted with
      `["liked", 1]` pushed onto its tags. */
  lemma ToggleFresh(likes: seq<Event>, e: Event, now: int, perms: seq<PermissionDoc>, verify: Verifier)
    requires LikeCheck(e, now, perms, verify).None?
    requires Query.FirstIndex(likes, SameLike(e)).None?
    requires e.tags.Some?
    ensures Toggle(likes, e, now, perms, verify) == (likes + [FirstLike(e)], Toggled(1))
  {
  }

  /** The first toggle of a request carrying `["liked", b]` flips the only
      `liked` tag of the one matching like, which then matches no more. */
  lemma PinnedFirstToggle(likes: seq<Event>, e: Event, now: int, perms: seq<PermissionDoc>,
                          verify: Verifier, k: nat, b: int)
    requires LikeCheck(e, now, perms, verify).None?
    requires b == 0 || b == 1
    requires e.tags.Some? && Tag("liked", Num(b)) in e.tags.value
    requires Query.FirstIndex(likes, SameLike(e)) == Some(k)
    requires forall j :: 0 <= j < |likes| && j != k ==> !SameLike(e)(likes[j])
    requires likes[k].tags.Some? && OneLikedTag(likes[k].tags.value)
    ensures var doc1 := likes[k].(tags := SetFirst(likes[k].tags.value, "liked", Num(1 - b)), updateTime := Some(now));
      && Toggle(likes, e, now, perms, verify) == (likes[k := doc1], Toggled(1 - b))
      && Query.FirstIndex(likes[k := doc1], SameLike(e)).None?
  {
    var ts := likes[k].tags.value;
    assert SameLike(e)(likes[k]);
    FlipRemovesPinned(ts, b);
    assert Flip(Num(b)) == 1 - b;
    var doc1 := likes[k].(tags := SetFirst(ts, "liked", Num(1 - b)), updateTime := Some(now));
    ToggleExisting(likes, e, now, perms, verify, k);
    PinnedMissing(e, doc1, Tag("liked", Num(b)));
    NoMatchLeft(likes, e, k, doc1);
  }

  /** When the request itself carries `["liked", b]`, as the documented
      request does, the round trip of `ToggleTwiceRestores` does not happen:
      the first toggle flips the only `liked` tag of the stored like, after
      which no record carries every requested tag, so the second toggle
      inserts a new like instead of restoring the old one. */
  lemma ToggleTwiceWithPinnedLiked(likes: seq<Event>, e: Event, now: int, perms: seq<PermissionDoc>,
                                   verify: Verifier, k: nat, b: int)
    requires LikeCheck(e, now, perms, verify).None?
    requires b == 0 || b == 1
    requires e.tags.Some? && Tag("liked", Num(b)) in e.tags.value
    requires Query.FirstIndex(likes, SameLike(e)) == Some(k)
    requires forall j :: 0 <= j < |likes| && j != k ==> !SameLike(e)(likes[j])
    requires likes[k].tags.Some? && OneLikedTag(likes[k].tags.value)
    ensures Toggle(likes, e, now, perms, verify).1 == Toggled(1 - b)
    ensures var once := Toggle(likes, e, now, perms, verify).0;
      Toggle(once, e, now, perms, verify) == (once + [FirstLike(e)], Toggled(1))
  {
    var doc1 := likes[k].(tags := SetFirst(likes[k].tags.value, "liked", Num(1 - b)), updateTime := Some(now));
    PinnedFirstToggle(likes, e, now, perms, verify, k, b);
    ToggleFresh(likes[k := doc1], e, now, perms, verify);
  }
}
