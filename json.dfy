/** JavaScript / MongoDB value semantics that the services rely on:
    truthiness, `String.prototype.trim` whitespace, tag pairs with the
    `$all` / `$in` operators, and `new Date(x)` validity. */
module Json {

  datatype Option<+T> = None | Some(value: T) {
    function GetOr(default: T): T {
      match this
      case Some(v) => v
      case None => default
    }
  }

  datatype Result<+T, +E> = Ok(value: T) | Err(error: E)

  /** The values a stored document, a tag or a query can hold. `Oid` is a
      MongoDB ObjectId (the `_id` of a stored document); `Obj` a plain object. */
  datatype Val =
    | Str(s: string) | Num(n: int) | Bool(b: bool) | Null | Oid(id: nat) | Arr(items: seq<Val>)
    | Obj(fields: map<string, Val>)

  /** JavaScript truthiness of a value; an absent field is `undefined`, which is falsy. */
  predicate Truthy(v: Val) {
    match v
    case Str(s) => s != ""
    case Num(n) => n != 0
    case Bool(b) => b
    case Null => false
    case Oid(_) => true
    case Arr(_) => true
    case Obj(_) => true
  }

  predicate Present(v: Option<Val>) {
    v.Some? && Truthy(v.value)
  }

  /** A string field is truthy when it is present and not empty. */
  predicate Filled(s: Option<string>) {
    s.Some? && s.value != ""
  }

  /** ECMAScript WhiteSpace and LineTerminator code points: the set `\s`
      matches and `trim()` removes. */
  predicate IsSpace(c: char) {
    var k := c as int;
    k == 9 || k == 10 || k == 11 || k == 12 || k == 13 || k == 32 ||
    k == 0xA0 || k == 0x1680 || (0x2000 <= k <= 0x200A) ||
    k == 0x2028 || k == 0x2029 || k == 0x202F || k == 0x205F ||
    k == 0x3000 || k == 0xFEFF
  }

  /** `s.trim() === ''` */
  predicate Blank(s: string) {
    forall i :: 0 <= i < |s| ==> IsSpace(s[i])
  }

  /** A tag is a two-element array `[key, value]`. */
  datatype Tag = Tag(key: string, value: Val)

  /** MongoDB `{ tags: { $all: want } }` on a document whose `tags` field is
      `have`: an absent field never matches, and an empty `$all` list matches
      no document. */
  predicate HasAllTags(have: Option<seq<Tag>>, want: seq<Tag>) {
    have.Some? && |want| > 0 && forall w :: w in want ==> w in have.value
  }

  /** MongoDB `{ tags: { $in: want } }`: some element of the array field is
      one of the listed values. */
  predicate HasAnyTag(have: Option<seq<Tag>>, want: seq<Tag>) {
    have.Some? && exists t :: t in have.value && t in want
  }

  /** Largest time value a JavaScript `Date` can hold (milliseconds). */
  const MAX_TIME: int := 8_640_000_000_000_000

  /** `new Date(x)` for a numeric or absent `x`: `None` is an Invalid Date,
      whose arithmetic yields NaN. */
  function DateValue(x: Option<int>): (d: Option<int>)
    ensures d.Some? <==> x.Some? && -MAX_TIME <= x.value <= MAX_TIME
    ensures d.Some? ==> d.value == x.value
  {
    if x.Some? && -MAX_TIME <= x.value <= MAX_TIME then x else None
  }

  function Abs(x: int): nat {
    if x < 0 then -x else x
  }

  /** The five-minute tolerance, written in the source as `5 * 60 * 1000`. */
  const TOLERANCE: int := 5 * 60 * 1000

  /** `Math.abs(Math.floor(Date.now() / 1000) - new Date(created_at)) > 5*60*1000`:
      a difference in SECONDS compared against a constant in milliseconds.
      A NaN difference (Invalid Date) compares false, so it never exceeds. */
  predicate SkewSecondsExceeds(createdAt: Option<int>, now: int) {
    match DateValue(createdAt)
    case None => false
    case Some(c) => Abs(now / 1000 - c) > TOLERANCE
  }

  /** `Math.abs(Date.now() - new Date(created_at).getTime()) > 5*60*1000`:
      milliseconds on both sides. */
  predicate SkewMillisExceeds(createdAt: Option<int>, now: int) {
    match DateValue(createdAt)
    case None => false
    case Some(c) => Abs(now - c) > TOLERANCE
  }

  /** Loose equality `v == 0`: numbers compare by value, booleans and strings
      are converted to numbers first (a blank string is 0), `null` is never
      equal to 0, an empty array converts to the empty string and a plain
      object to `"[object Object]"`, which is not a number. */
  predicate LooselyZero(v: Val) {
    match v
    case Num(n) => n == 0
    case Bool(b) => !b
    case Null => false
    case Oid(_) => false
    case Str(s) => ZeroNumeral(s)
    case Arr(items) => items == []
    case Obj(_) => false
  }

  /** A string whose `Number(...)` conversion is 0, restricted to blank
      strings and optionally signed runs of the digit 0, each with
      surrounding whitespace. */
  predicate ZeroNumeral(s: string) {
    exists i, j :: 0 <= i <= j <= |s| && Blank(s[..i]) && Blank(s[j..]) &&
      SignedZeros(s[i..j])
  }

  predicate SignedZeros(t: string) {
    t == "" ||
    (|t| > 0 && (t[0] == '+' || t[0] == '-') && |t| > 1 && AllZeros(t[1..])) ||
    AllZeros(t)
  }

  predicate AllZeros(t: string) {
    |t| > 0 && forall k :: 0 <= k < |t| ==> t[k] == '0'
  }
}
