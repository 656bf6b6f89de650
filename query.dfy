/** The part of MongoDB's `find(filter).skip(offset).limit(limit)` and
    `findOne(filter)` that the services depend on. The sort stage is not
    modelled: results come in collection order. */
module Query {
  import opened Json

  /** The documents of `xs` that satisfy `p`, in collection order. */
  function Matching<T>(xs: seq<T>, p: T -> bool): (r: seq<T>)
    ensures |r| <= |xs|
    ensures forall x :: x in r ==> x in xs && p(x)
  {
    if xs == [] then []
    else Matching(xs[..|xs| - 1], p) + (if p(xs[|xs| - 1]) then [xs[|xs| - 1]] else [])
  }

  lemma {:induction false} MatchingComplete<T>(xs: seq<T>, p: T -> bool, x: T)
    requires x in xs && p(x)
    ensures x in Matching(xs, p)
  {
    if xs[|xs| - 1] != x {
      assert x in xs[..|xs| - 1] by {
        var i :| 0 <= i < |xs| && xs[i] == x;
        assert i < |xs| - 1;
        assert xs[..|xs| - 1][i] == x;
      }
      MatchingComplete(xs[..|xs| - 1], p, x);
    }
  }

  /** `cursor.limit(n)`: 0 means no limit, a negative n returns |n| documents. */
  function EffectiveLimit(limit: int): (r: Option<nat>)
    ensures limit == 0 <==> r.None?
    ensures r.Some? ==> r.value == Abs(limit) && r.value > 0
  {
    if limit == 0 then None else Some(Abs(limit))
  }

  function Take<T>(xs: seq<T>, lim: Option<nat>): (r: seq<T>)
    ensures lim.None? ==> r == xs
    ensures lim.Some? ==> |r| == if |xs| <= lim.value then |xs| else lim.value
    ensures r <= xs
  {
    if lim.Some? && lim.value < |xs| then xs[..lim.value] else xs
  }

  function Drop<T>(xs: seq<T>, n: nat): seq<T> {
    if n < |xs| then xs[n..] else []
  }

  /** `find(p).skip(offset).limit(limit).toArray()` */
  function Window<T>(xs: seq<T>, p: T -> bool, offset: nat, limit: int): (r: seq<T>)
    ensures |r| <= |Matching(xs, p)|
    ensures EffectiveLimit(limit).Some? ==> |r| <= Abs(limit)
    ensures forall x :: x in r ==> x in xs && p(x)
  {
    var m := Matching(xs, p);
    var d := Drop(m, offset);
    var r := Take(d, EffectiveLimit(limit));
    assert forall x :: x in r ==> x in m by {
      forall x | x in r ensures x in m {
        var i :| 0 <= i < |r| && r[i] == x;
        assert d[i] == x;
        if offset < |m| { assert m[offset + i] == x; }
      }
    }
    r
  }

  /** The scan a cursor performs: walk the collection once, skip the first
      `offset` matches and stop once `limit` documents are collected. */
  method Find<T>(xs: seq<T>, p: T -> bool, offset: nat, limit: int) returns (r: seq<T>)
    ensures r == Window(xs, p, offset, limit)
  {
    var lim := EffectiveLimit(limit);
    var skipped: nat := 0;
    var all: seq<T> := [];
    r := [];
    var i := 0;
    while i < |xs| && (lim.None? || |r| < lim.value)
      invariant 0 <= i <= |xs|
      invariant all == Matching(xs[..i], p)
      invariant skipped == if |all| < offset then |all| else offset
      invariant r == Drop(all, offset)
      invariant lim.Some? ==> |r| <= lim.value
    {
      assert xs[..i + 1][..i] == xs[..i];
      if p(xs[i]) {
        if skipped < offset {
          skipped := skipped + 1;
        } else {
          r := r + [xs[i]];
        }
        all := all + [xs[i]];
      }
      i := i + 1;
    }
    assert r == Take(Drop(all, offset), lim);
    WindowOfPrefix(xs, p, offset, i, lim);
  }

  /** Once the window over a prefix is full, the rest of the collection does
      not change the window. */
  lemma WindowOfPrefix<T>(xs: seq<T>, p: T -> bool, offset: nat, i: nat, lim: Option<nat>)
    requires i <= |xs|
    requires i == |xs| || (lim.Some? && |Drop(Matching(xs[..i], p), offset)| >= lim.value)
    ensures Take(Drop(Matching(xs[..i], p), offset), lim) == Take(Drop(Matching(xs, p), offset), lim)
  {
    if i < |xs| {
      MatchingPrefix(xs, p, i);
      var a := Matching(xs[..i], p);
      var b := Matching(xs, p);
      assert a <= b;
      assert Drop(a, offset) <= Drop(b, offset);
    } else {
      assert xs[..i] == xs;
    }
  }

  lemma {:induction false} MatchingPrefix<T>(xs: seq<T>, p: T -> bool, i: nat)
    requires i <= |xs|
    ensures Matching(xs[..i], p) <= Matching(xs, p)
    decreases |xs| - i
  {
    if i < |xs| {
      MatchingPrefix(xs, p, i + 1);
      assert xs[..i + 1][..i] == xs[..i];
    } else {
      assert xs[..i] == xs;
    }
  }

  /** Index of the first document satisfying `p`: `findOne(p)` and the
      target of `updateOne(p, ...)`. */
  function FirstIndex<T>(xs: seq<T>, p: T -> bool): (r: Option<nat>)
    ensures r.Some? ==> r.value < |xs| && p(xs[r.value])
    ensures r.Some? ==> forall k :: 0 <= k < r.value ==> !p(xs[k])
    ensures r.None? ==> forall k :: 0 <= k < |xs| ==> !p(xs[k])
  {
    if xs == [] then None
    else if p(xs[0]) then Some(0)
    else match FirstIndex(xs[1..], p)
      case None => None
      case Some(k) => Some(k + 1)
  }

  function FindOne<T>(xs: seq<T>, p: T -> bool): (r: Option<T>)
    ensures r.Some? <==> exists k :: 0 <= k < |xs| && p(xs[k])
    ensures r.Some? ==> r.value in xs && p(r.value)
  {
    match FirstIndex(xs, p)
    case None => None
    case Some(k) => Some(xs[k])
  }
}
