/** When an entry of the cache is still there: it was used recently enough, and not too long ago. */
module CacheRetention {
  import opened TtlCache

  predicate KeysIn(s: seq<Entry>, keys: set<Key>) {
    forall i :: 0 <= i < |s| ==> s[i].key in keys
  }

  /** `e` is an entry, and whatever was used after it has one of these other keys. */
  ghost predicate Retains(s: seq<Entry>, e: Entry, used: set<Key>) {
    e.key !in used && exists pre, post :: s == pre + ([e] + post) && KeysIn(post, used)
  }

  lemma {:induction false} WithoutConcat(a: seq<Entry>, b: seq<Entry>, k: Key)
    ensures Without(a + b, k) == Without(a, k) + Without(b, k)
  {
    if a == [] {
      assert a + b == b;
    } else {
      assert (a + b)[1..] == a[1..] + b && (a + b)[0] == a[0];
      WithoutConcat(a[1..], b, k);
    }
  }

  lemma {:induction false} WithoutKeys(s: seq<Entry>, k: Key, keys: set<Key>)
    requires KeysIn(s, keys)
    ensures KeysIn(Without(s, k), keys)
  {
    forall i | 0 <= i < |Without(s, k)| ensures Without(s, k)[i].key in keys {
      WithoutMembers(s, k, Without(s, k)[i]);
    }
  }

  lemma {:induction false} DistinctCount(s: seq<Entry>, keys: set<Key>)
    requires DistinctKeys(s) && KeysIn(s, keys)
    ensures |s| <= |keys|
    decreases |s|
  {
    if s != [] {
      var n := |s| - 1;
      DistinctCount(s[..n], keys - {s[n].key});
    }
  }

  /** Taking a key out leaves an entry with another key where it was. */
  lemma {:induction false} WithoutRetains(s: seq<Entry>, e: Entry, used: set<Key>, k: Key)
    requires Retains(s, e, used) && k != e.key
    ensures Retains(Without(s, k), e, used)
  {
    var pre, post :| s == pre + ([e] + post) && KeysIn(post, used);
    WithoutConcat(pre, [e] + post, k);
    WithoutConcat([e], post, k);
    assert [e][1..] == [];
    WithoutKeys(post, k, used);
    assert Without(s, k) == Without(pre, k) + ([e] + Without(post, k));
  }

  lemma AppendRetains(s: seq<Entry>, e: Entry, used: set<Key>, last: Entry)
    requires Retains(s, e, used) && last.key != e.key
    ensures Retains(s + [last], e, used + {last.key})
  {
    var pre, post :| s == pre + ([e] + post) && KeysIn(post, used);
    assert s + [last] == pre + ([e] + (post + [last]));
    assert KeysIn(post + [last], used + {last.key});
  }

  lemma RetainsMore(s: seq<Entry>, e: Entry, used: set<Key>, more: set<Key>)
    requires Retains(s, e, used) && used <= more && e.key !in more
    ensures Retains(s, e, more)
  {
    var pre, post :| s == pre + ([e] + post) && KeysIn(post, used);
    assert KeysIn(post, more);
  }

  /** Dropping the oldest entries does not reach an entry with fewer than `cap` others after it. */
  lemma FitRetains(s: seq<Entry>, e: Entry, used: set<Key>, cap: nat)
    requires Retains(s, e, used) && DistinctKeys(s) && |used| < cap
    ensures Retains(Fit(s, cap), e, used)
  {
    var pre, post :| s == pre + ([e] + post) && KeysIn(post, used);
    if |s| > cap {
      var d := |s| - cap;
      assert post == s[|pre| + 1..];
      DistinctCount(post, used);
      assert s[d..] == pre[d..] + ([e] + post);
    }
  }

  lemma OtherRead(s: seq<Entry>, e: Entry, used: set<Key>, k: Key, ttl: real, now: real)
    requires Retains(s, e, used) && k != e.key
    ensures Retains(AfterGet(s, k, ttl, now), e, used + {k})
  {
    hide Retains, Without;
    WithoutRetains(s, e, used, k);
    if Fresh(s, k, ttl, now) {
      AppendRetains(Without(s, k), e, used, Lookup(s, k));
    } else {
      NotUsed(s, e, used);
      RetainsMore(Without(s, k), e, used, used + {k});
    }
  }

  lemma NotUsed(s: seq<Entry>, e: Entry, used: set<Key>)
    requires Retains(s, e, used)
    ensures e.key !in used
  {
  }

  lemma OtherWrite(s: seq<Entry>, e: Entry, used: set<Key>, k: Key, v: Value, now: real, cap: nat)
    requires Retains(s, e, used) && DistinctKeys(s) && k != e.key && |used + {k}| < cap
    ensures Retains(AfterSet(s, k, v, now, cap), e, used + {k})
  {
    hide Retains, Without, Fit;
    WithoutRetains(s, e, used, k);
    AppendRetains(Without(s, k), e, used, Entry(k, now, v));
    WithoutKeepsDistinct(s, k);
    WithoutRemoves(s, k);
    AppendKeepsDistinct(Without(s, k), Entry(k, now, v));
    FitRetains(Without(s, k) + [Entry(k, now, v)], e, used + {k}, cap);
  }

  lemma LastRetained(s: seq<Entry>, e: Entry)
    ensures Retains(s + [e], e, {})
  {
    assert s + [e] == s + ([e] + []);
  }

  /** A read of a young entry hits, and makes it the most recent one. */
  lemma OwnRead(s: seq<Entry>, e: Entry, used: set<Key>, ttl: real, now: real)
    requires Retains(s, e, used) && DistinctKeys(s) && now - e.at < ttl
    ensures GetAnswer(s, e.key, ttl, now) == Hit(e.value)
    ensures Retains(AfterGet(s, e.key, ttl, now), e, {})
  {
    var i := RetainedAt(s, e, used);
    hide Retains, Without;
    WithoutAt(s, i);
    assert Has(s, e.key);
    LastRetained(Without(s, e.key), e);
  }

  lemma RetainedAt(s: seq<Entry>, e: Entry, used: set<Key>) returns (i: nat)
    requires Retains(s, e, used)
    ensures i < |s| && s[i] == e
  {
    var pre, post :| s == pre + ([e] + post) && KeysIn(post, used);
    i := |pre|;
  }

  lemma OwnWrite(s: seq<Entry>, k: Key, v: Value, now: real, cap: nat)
    requires cap > 0
    ensures Retains(AfterSet(s, k, v, now, cap), Entry(k, now, v), {})
  {
    var e := Entry(k, now, v);
    var all := Without(s, k) + [e];
    LastRetained(Without(s, k), e);
    if |all| > cap {
      var d := |all| - cap;
      assert all[d..] == Without(s, k)[d..] + [e];
      LastRetained(Without(s, k)[d..], e);
    }
  }

  // Whole traces.

  /** The entry of one key, and the other keys used since it was. */
  datatype Track = Track(e: Entry, used: set<Key>)

  function After(op: Op, t: Track): Track {
    if op.k == t.e.key then (if op.Set? then Track(Entry(op.k, op.now, op.v), {}) else t.(used := {}))
    else t.(used := t.used + {op.k})
  }

  function Follow(ops: seq<Op>, t: Track): Track
    decreases |ops|
  {
    if ops == [] then t else Follow(ops[1..], After(ops[0], t))
  }

  /**
   * The key is never dropped: each read of it comes while its last write is young enough, and between two
   * uses of it fewer than `cap` other keys are used.
   */
  predicate Undisturbed(ops: seq<Op>, t: Track, cap: nat)
    decreases |ops|
  {
    ops != [] ==>
      var next := After(ops[0], t);
      && (ops[0].Get? && ops[0].k == t.e.key ==> ops[0].now - t.e.at < ops[0].ttl)
      && |next.used| < cap && Undisturbed(ops[1..], next, cap)
  }

  lemma ApplyKeepsDistinct(s: seq<Entry>, op: Op, cap: nat)
    requires DistinctKeys(s)
    ensures DistinctKeys(Apply(s, op, cap))
  {
    hide Without, Fresh;
    WithoutKeepsDistinct(s, op.k);
    WithoutRemoves(s, op.k);
    match op
    case Get(k, ttl, now) =>
      if Fresh(s, k, ttl, now) {
        FreshIsThere(s, k, ttl, now);
        AppendKeepsDistinct(Without(s, k), Lookup(s, k));
      }
    case Set(k, v, now) =>
      AppendKeepsDistinct(Without(s, k), Entry(k, now, v));
  }

  lemma FreshIsThere(s: seq<Entry>, k: Key, ttl: real, now: real)
    requires Fresh(s, k, ttl, now)
    ensures Has(s, k)
  {
  }

  lemma ApplyRetains(s: seq<Entry>, op: Op, t: Track, cap: nat)
    requires Retains(s, t.e, t.used) && DistinctKeys(s) && |After(op, t).used| < cap
    requires op.Get? && op.k == t.e.key ==> op.now - t.e.at < op.ttl
    ensures Retains(Apply(s, op, cap), After(op, t).e, After(op, t).used)
  {
    hide Retains, AfterGet, AfterSet, DistinctKeys;
    match op
    case Get(k, ttl, now) =>
      if k == t.e.key {
        OwnRead(s, t.e, t.used, ttl, now);
      } else {
        OtherRead(s, t.e, t.used, k, ttl, now);
      }
    case Set(k, v, now) =>
      if k == t.e.key {
        OwnWrite(s, k, v, now, cap);
      } else {
        OtherWrite(s, t.e, t.used, k, v, now, cap);
      }
  }

  /** An undisturbed entry stays, as last written, whatever else happens. */
  lemma {:induction false} RecentlyUsedStays(s: seq<Entry>, ops: seq<Op>, t: Track, cap: nat)
    requires Retains(s, t.e, t.used) && DistinctKeys(s) && Undisturbed(ops, t, cap)
    ensures Retains(Run(s, ops, cap), Follow(ops, t).e, Follow(ops, t).used) && DistinctKeys(Run(s, ops, cap))
    decreases |ops|
  {
    if ops != [] {
      hide Retains, Apply, After, DistinctKeys;
      ApplyKeepsDistinct(s, ops[0], cap);
      ApplyRetains(s, ops[0], t, cap);
      RecentlyUsedStays(Apply(s, ops[0], cap), ops[1..], After(ops[0], t), cap);
    }
  }

  /** So from a write on, a read within the allowed age hits, with the value last written. */
  lemma {:induction false} WrittenIsHit(s: seq<Entry>, k: Key, v: Value, now: real, ops: seq<Op>, cap: nat,
                                        ttl: real, later: real)
    requires DistinctKeys(s) && cap > 0 && Undisturbed(ops, Track(Entry(k, now, v), {}), cap)
    requires later - Follow(ops, Track(Entry(k, now, v), {})).e.at < ttl
    ensures GetAnswer(Run(AfterSet(s, k, v, now, cap), ops, cap), k, ttl, later)
         == Hit(Follow(ops, Track(Entry(k, now, v), {})).e.value)
  {
    var t := Track(Entry(k, now, v), {});
    hide Retains, AfterSet, DistinctKeys, After;
    OwnWrite(s, k, v, now, cap);
    ApplyKeepsDistinct(s, Op.Set(k, v, now), cap);
    assert Apply(s, Op.Set(k, v, now), cap) == AfterSet(s, k, v, now, cap);
    RecentlyUsedStays(AfterSet(s, k, v, now, cap), ops, t, cap);
    FollowKeepsKey(ops, t);
    OwnRead(Run(AfterSet(s, k, v, now, cap), ops, cap), Follow(ops, t).e, Follow(ops, t).used, ttl, later);
  }

  lemma {:induction false} FollowKeepsKey(ops: seq<Op>, t: Track)
    ensures Follow(ops, t).e.key == t.e.key
    decreases |ops|
  {
    if ops != [] {
      FollowKeepsKey(ops[1..], After(ops[0], t));
    }
  }

  lemma {:induction false} FourOps(s: seq<Entry>, a: Op, b: Op, c: Op, d: Op, cap: nat)
    ensures Run(s, [a, b, c, d], cap) == Apply(Apply(Apply(Apply(s, a, cap), b, cap), c, cap), d, cap)
  {
    hide Apply;
    assert [a, b, c, d][1..] == [b, c, d] && [b, c, d][1..] == [c, d] && [c, d][1..] == [d] && [d][1..] == [];
    var s2 := Apply(Apply(s, a, cap), b, cap);
    var s3 := Apply(s2, c, cap);
    assert Run(s3, [d], cap) == Apply(s3, d, cap);
    assert Run(s2, [c, d], cap) == Run(s3, [d], cap);
  }

  lemma ReadMoves(a: Entry, b: Entry, ttl: real, now: real)
    requires a.key != b.key && now - a.at < ttl
    ensures AfterGet([a, b], a.key, ttl, now) == [b, a]
  {
    var s := [a, b];
    assert s[0] == a;
    WithoutAt(s, 0);
    assert s[..0] + s[1..] == [b];
  }

  lemma WriteFits(s: seq<Entry>, k: Key, v: Value, now: real, cap: nat)
    requires forall i :: 0 <= i < |s| ==> s[i].key != k
    ensures AfterSet(s, k, v, now, cap) == Fit(s + [Entry(k, now, v)], cap)
  {
    WithoutAbsent(s, k);
  }

  /** Reads count as uses: one write drops an entry although no other key was written since it was. */
  lemma {:induction false} ReadsProtectOthers(j: Key, k: Key, l: Key, v: Value, ttl: real)
    requires j != k && k != l && j != l && ttl > 0.0
    ensures Run([], [Op.Set(j, v, 0.0), Op.Set(k, v, 0.0), Op.Get(j, ttl, 0.0), Op.Set(l, v, 0.0)], 2)
         == [Entry(j, 0.0, v), Entry(l, 0.0, v)]
  {
    hide Run, Without, AfterSet, AfterGet;
    var ej, ek, el := Entry(j, 0.0, v), Entry(k, 0.0, v), Entry(l, 0.0, v);
    FourOps([], Op.Set(j, v, 0.0), Op.Set(k, v, 0.0), Op.Get(j, ttl, 0.0), Op.Set(l, v, 0.0), 2);
    WriteFits([], j, v, 0.0, 2);
    assert Fit([] + [ej], 2) == [ej];
    WriteFits([ej], k, v, 0.0, 2);
    assert Fit([ej] + [ek], 2) == [ej, ek];
    ReadMoves(ej, ek, ttl, 0.0);
    WriteFits([ek, ej], l, v, 0.0, 2);
    assert Fit([ek, ej] + [el], 2) == [ej, el];
  }
}
