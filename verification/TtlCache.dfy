/**
 * The cache with expiry and least-recently-used eviction
 * (backend/app.py, TTLCache.get and TTLCache.set). The entries are listed from the least
 * to the most recently used; times are real numbers and need not move forward.
 */
module TtlCache {
  type Key = string
  type Value = int

  datatype Entry = Entry(key: Key, at: real, value: Value)

  datatype Answer = Hit(value: Value) | Miss

  predicate Has(s: seq<Entry>, k: Key) {
    exists i :: 0 <= i < |s| && s[i].key == k
  }

  function Lookup(s: seq<Entry>, k: Key): (e: Entry)
    requires Has(s, k)
    ensures e in s && e.key == k
  {
    if s[0].key == k then s[0] else Lookup(s[1..], k)
  }

  function Without(s: seq<Entry>, k: Key): (r: seq<Entry>)
    ensures |r| <= |s|
  {
    if s == [] then []
    else if s[0].key == k then Without(s[1..], k)
    else [s[0]] + Without(s[1..], k)
  }

  lemma {:induction false} WithoutMembers(s: seq<Entry>, k: Key, e: Entry)
    ensures e in Without(s, k) <==> e in s && e.key != k
  {
    if s != [] {
      WithoutMembers(s[1..], k, e);
      assert s == [s[0]] + s[1..];
    }
  }

  predicate DistinctKeys(s: seq<Entry>) {
    forall i, j :: 0 <= i < j < |s| ==> s[i].key != s[j].key
  }

  predicate Fresh(s: seq<Entry>, k: Key, ttl: real, now: real) {
    Has(s, k) && now - Lookup(s, k).at < ttl
  }

  function GetAnswer(s: seq<Entry>, k: Key, ttl: real, now: real): Answer {
    if Fresh(s, k, ttl, now) then Hit(Lookup(s, k).value) else Miss
  }

  /** A hit becomes the most recent entry; an expired entry goes. */
  function AfterGet(s: seq<Entry>, k: Key, ttl: real, now: real): seq<Entry> {
    if Fresh(s, k, ttl, now) then Without(s, k) + [Lookup(s, k)] else Without(s, k)
  }

  /** The most recent entries that fit. */
  function Fit(s: seq<Entry>, cap: nat): seq<Entry> {
    if |s| > cap then s[|s| - cap..] else s
  }

  function AfterSet(s: seq<Entry>, k: Key, v: Value, now: real, cap: nat): seq<Entry> {
    Fit(Without(s, k) + [Entry(k, now, v)], cap)
  }

  lemma {:induction false} WithoutKeepsDistinct(s: seq<Entry>, k: Key)
    requires DistinctKeys(s)
    ensures DistinctKeys(Without(s, k))
  {
    if s != [] {
      WithoutKeepsDistinct(s[1..], k);
      forall e | e in Without(s[1..], k) ensures e.key != s[0].key {
        WithoutMembers(s[1..], k, e);
        var i :| 0 <= i < |s[1..]| && s[1..][i] == e;
        assert s[i + 1] == e;
      }
    }
  }

  lemma {:induction false} WithoutAbsent(s: seq<Entry>, k: Key)
    requires !Has(s, k)
    ensures Without(s, k) == s
  {
    if s != [] {
      assert s[0].key != k;
      forall i | 0 <= i < |s[1..]| ensures s[1..][i].key != k {
        assert s[1..][i] == s[i + 1];
      }
      WithoutAbsent(s[1..], k);
    }
  }

  lemma {:induction false} WithoutAt(s: seq<Entry>, i: nat)
    requires DistinctKeys(s) && i < |s|
    ensures Without(s, s[i].key) == s[..i] + s[i + 1..] && Lookup(s, s[i].key) == s[i]
  {
    if i == 0 {
      assert !Has(s[1..], s[0].key) by {
        forall j | 0 <= j < |s[1..]| ensures s[1..][j].key != s[0].key {
          assert s[1..][j] == s[j + 1];
        }
      }
      WithoutAbsent(s[1..], s[0].key);
    } else {
      assert s[0].key != s[i].key;
      forall a, b | 0 <= a < b < |s[1..]| ensures s[1..][a].key != s[1..][b].key {
        assert s[1..][a] == s[a + 1] && s[1..][b] == s[b + 1];
      }
      WithoutAt(s[1..], i - 1);
      assert s[1..][i - 1] == s[i];
    }
  }

  class Cache {
    var data: seq<Entry>
    const cap: nat

    constructor (cap: nat)
      ensures data == [] && this.cap == cap
    {
      this.cap := cap;
      data := [];
    }

    ghost predicate Valid()
      reads this
    {
      DistinctKeys(data) && |data| <= cap
    }

    method Find(k: Key) returns (i: nat)
      ensures i <= |data|
      ensures i < |data| ==> data[i].key == k
      ensures i == |data| <==> !Has(data, k)
    {
      i := 0;
      while i < |data| && data[i].key != k
        invariant i <= |data|
        invariant forall j :: 0 <= j < i ==> data[j].key != k
      {
        i := i + 1;
      }
    }

    method Get(k: Key, ttl: real, now: real) returns (answer: Answer)
      requires Valid()
      modifies this
      ensures Valid()
      ensures answer == GetAnswer(old(data), k, ttl, now)
      ensures data == AfterGet(old(data), k, ttl, now)
    {
      var i := Find(k);
      if i == |data| {
        WithoutAbsent(data, k);
        return Miss;
      }
      WithoutKeepsDistinct(data, k);
      WithoutAt(data, i);
      var hit := data[i];
      data := data[..i] + data[i + 1..];
      if now - hit.at < ttl {
        data := data + [hit];
        return Hit(hit.value);
      }
      return Miss;
    }

    method Set(k: Key, v: Value, now: real)
      requires Valid()
      modifies this
      ensures Valid()
      ensures data == AfterSet(old(data), k, v, now, cap)
    {
      var i := Find(k);
      WithoutKeepsDistinct(data, k);
      if i < |data| {
        WithoutAt(data, i);
        data := data[..i] + data[i + 1..];
      } else {
        WithoutAbsent(data, k);
      }
      AppendKeepsDistinct(data, Entry(k, now, v));
      data := data + [Entry(k, now, v)];
      Evict();
    }

    method Evict()
      requires DistinctKeys(data)
      modifies this
      ensures Valid() && data == Fit(old(data), cap)
    {
      ghost var full := data;
      while |data| > cap
        invariant |data| <= |full| && data == full[|full| - |data|..]
        invariant |full| > cap ==> |data| >= cap
        invariant |full| <= cap ==> data == full
      {
        data := data[1..];
      }
    }
  }

  lemma AppendKeepsDistinct(s: seq<Entry>, e: Entry)
    requires DistinctKeys(s) && !Has(s, e.key)
    ensures DistinctKeys(s + [e])
  {
  }

  // Whole traces, on caches of different sizes.

  datatype Op = Get(k: Key, ttl: real, now: real) | Set(k: Key, v: Value, now: real)

  function Apply(s: seq<Entry>, op: Op, cap: nat): seq<Entry> {
    match op
    case Get(k, ttl, now) => AfterGet(s, k, ttl, now)
    case Set(k, v, now) => AfterSet(s, k, v, now, cap)
  }

  function Run(s: seq<Entry>, ops: seq<Op>, cap: nat): seq<Entry>
    decreases |ops|
  {
    if ops == [] then s else Run(Apply(s, ops[0], cap), ops[1..], cap)
  }

  /** a is b with some entries left out. */
  predicate Sub(a: seq<Entry>, b: seq<Entry>) {
    if a == [] then true
    else if b == [] then false
    else if a[0] == b[0] then Sub(a[1..], b[1..])
    else Sub(a, b[1..])
  }

  lemma {:induction false} SubMembers(a: seq<Entry>, b: seq<Entry>, e: Entry)
    requires Sub(a, b) && e in a
    ensures e in b
  {
    if a[0] != b[0] {
      SubMembers(a, b[1..], e);
    } else if e != a[0] {
      assert a == [a[0]] + a[1..];
      SubMembers(a[1..], b[1..], e);
    }
  }

  lemma {:induction false} SubLength(a: seq<Entry>, b: seq<Entry>)
    requires Sub(a, b)
    ensures |a| <= |b|
  {
    if a != [] {
      if a[0] == b[0] {
        SubLength(a[1..], b[1..]);
      } else {
        SubLength(a, b[1..]);
      }
    }
  }

  /** Leaving out more keeps the relation. */
  lemma {:induction false} SubTail(a: seq<Entry>, b: seq<Entry>)
    requires Sub(a, b) && a != []
    ensures Sub(a[1..], b)
    decreases |b|
  {
    if a[0] != b[0] {
      SubTail(a, b[1..]);
    }
    if a[1..] != [] && a[1..][0] == b[0] {
      SubTail(a[1..], b[1..]);
    }
  }

  lemma {:induction false} SubAppend(a: seq<Entry>, b: seq<Entry>, e: Entry)
    requires Sub(a, b)
    ensures Sub(a + [e], b + [e])
  {
    if a == [] {
      SubLast(b, e);
      assert [] + [e] == [e];
    } else if a[0] == b[0] {
      SubAppend(a[1..], b[1..], e);
      assert (a + [e])[1..] == a[1..] + [e] && (b + [e])[1..] == b[1..] + [e];
    } else {
      SubAppend(a, b[1..], e);
      assert (b + [e])[1..] == b[1..] + [e];
    }
  }

  lemma {:induction false} SubLast(b: seq<Entry>, e: Entry)
    ensures Sub([e], b + [e])
  {
    if b != [] {
      assert (b + [e])[1..] == b[1..] + [e];
      SubLast(b[1..], e);
    }
  }

  lemma {:induction false} SubSkip(a: seq<Entry>, b: seq<Entry>, e: Entry)
    requires Sub(a, b)
    ensures Sub(a, [e] + b)
  {
    assert ([e] + b)[1..] == b;
    if a != [] {
      SubTail(a, b);
    }
  }

  lemma {:induction false} SubBoth(a: seq<Entry>, b: seq<Entry>, e: Entry)
    requires Sub(a, b)
    ensures Sub([e] + a, [e] + b)
  {
    assert ([e] + a)[1..] == a && ([e] + b)[1..] == b;
  }

  lemma {:induction false} SubWithout(a: seq<Entry>, b: seq<Entry>, k: Key)
    requires Sub(a, b)
    ensures Sub(Without(a, k), Without(b, k))
  {
    if a != [] {
      var e := b[0];
      if a[0] == e {
        SubWithout(a[1..], b[1..], k);
        if e.key != k {
          SubBoth(Without(a[1..], k), Without(b[1..], k), e);
        }
      } else {
        SubWithout(a, b[1..], k);
        if e.key != k {
          SubSkip(Without(a, k), Without(b[1..], k), e);
        }
      }
    }
  }

  /** Dropping the oldest entries of both, and no fewer from the smaller. */
  lemma {:induction false} SubDrop(a: seq<Entry>, b: seq<Entry>, n: nat, m: nat)
    requires Sub(a, b) && m <= n <= |a| && m <= |b|
    ensures Sub(a[n..], b[m..])
    decreases n
  {
    if n > 0 {
      if m == 0 {
        SubTail(a, b);
        SubDrop(a[1..], b, n - 1, 0);
        assert a[1..][n - 1..] == a[n..];
      } else {
        SubHeads(a, b);
        SubDrop(a[1..], b[1..], n - 1, m - 1);
        assert a[1..][n - 1..] == a[n..] && b[1..][m - 1..] == b[m..];
      }
    }
  }

  lemma {:induction false} SubHeads(a: seq<Entry>, b: seq<Entry>)
    requires Sub(a, b) && a != []
    ensures b != [] && Sub(a[1..], b[1..])
  {
    if a[0] != b[0] {
      SubTail(a, b[1..]);
    }
  }

  /** The smaller cache holds some of the entries of the larger one, and fills up no later. */
  ghost predicate Nested(small: seq<Entry>, large: seq<Entry>, capS: nat, capL: nat) {
    && Sub(small, large) && DistinctKeys(small) && DistinctKeys(large)
    && |small| <= capS && |large| <= capL && |large| - |small| <= capL - capS
  }

  lemma {:induction false} WithoutLength(s: seq<Entry>, k: Key)
    requires DistinctKeys(s)
    ensures |Without(s, k)| == |s| - if Has(s, k) then 1 else 0
  {
    if Has(s, k) {
      var i :| 0 <= i < |s| && s[i].key == k;
      WithoutAt(s, i);
    } else {
      WithoutAbsent(s, k);
    }
  }

  lemma {:induction false} SubHas(a: seq<Entry>, b: seq<Entry>, k: Key)
    requires Sub(a, b) && DistinctKeys(b) && DistinctKeys(a) && Has(a, k)
    ensures Has(b, k) && Lookup(a, k) == Lookup(b, k)
  {
    var e := Lookup(a, k);
    SubMembers(a, b, e);
    var i :| 0 <= i < |b| && b[i] == e;
    WithoutAt(b, i);
  }

  lemma {:induction false} NestedWithout(a: seq<Entry>, b: seq<Entry>, k: Key)
    requires Sub(a, b) && DistinctKeys(a) && DistinctKeys(b)
    ensures Sub(Without(a, k), Without(b, k)) && DistinctKeys(Without(a, k)) && DistinctKeys(Without(b, k))
    ensures |Without(b, k)| - |Without(a, k)| <= |b| - |a|
    ensures !Has(Without(a, k), k) && !Has(Without(b, k), k)
  {
    SubWithout(a, b, k);
    WithoutKeepsDistinct(a, k);
    WithoutKeepsDistinct(b, k);
    WithoutLength(a, k);
    WithoutLength(b, k);
    if Has(a, k) {
      SubHas(a, b, k);
    }
    WithoutRemoves(a, k);
    WithoutRemoves(b, k);
  }

  lemma {:induction false} WithoutRemoves(s: seq<Entry>, k: Key)
    ensures !Has(Without(s, k), k)
  {
    if i :| 0 <= i < |Without(s, k)| && Without(s, k)[i].key == k {
      WithoutMembers(s, k, Without(s, k)[i]);
    }
  }

  lemma GetKeepsNested(a: seq<Entry>, b: seq<Entry>, capS: nat, capL: nat, k: Key, ttl: real, now: real)
    requires Nested(a, b, capS, capL)
    ensures Nested(AfterGet(a, k, ttl, now), AfterGet(b, k, ttl, now), capS, capL)
    ensures GetAnswer(a, k, ttl, now).Hit? ==> GetAnswer(b, k, ttl, now) == GetAnswer(a, k, ttl, now)
  {
    NestedWithout(a, b, k);
    WithoutLength(a, k);
    WithoutLength(b, k);
    if Has(a, k) {
      SubHas(a, b, k);
    }
    if Fresh(b, k, ttl, now) {
      var e := Lookup(b, k);
      AppendKeepsDistinct(Without(b, k), e);
      if Has(a, k) {
        AppendKeepsDistinct(Without(a, k), e);
        SubAppend(Without(a, k), Without(b, k), e);
      } else {
        SubGrow(Without(a, k), Without(b, k), e);
      }
    }
  }

  lemma {:induction false} SubGrow(a: seq<Entry>, b: seq<Entry>, e: Entry)
    requires Sub(a, b)
    ensures Sub(a, b + [e])
  {
    if a != [] {
      assert (b + [e])[1..] == b[1..] + [e];
      if a[0] == b[0] {
        SubGrow(a[1..], b[1..], e);
      } else {
        SubGrow(a, b[1..], e);
      }
    }
  }

  lemma SetKeepsNested(a: seq<Entry>, b: seq<Entry>, capS: nat, capL: nat, k: Key, v: Value, now: real)
    requires Nested(a, b, capS, capL) && capS <= capL
    ensures Nested(AfterSet(a, k, v, now, capS), AfterSet(b, k, v, now, capL), capS, capL)
  {
    hide Sub, Without;
    NestedWithout(a, b, k);
    var e := Entry(k, now, v);
    var s, l := Without(a, k) + [e], Without(b, k) + [e];
    SubAppend(Without(a, k), Without(b, k), e);
    AppendKeepsDistinct(Without(a, k), e);
    AppendKeepsDistinct(Without(b, k), e);
    SubDrop(s, l, if |s| > capS then |s| - capS else 0, if |l| > capL then |l| - capL else 0);
    assert s[0..] == s && l[0..] == l;
  }

  lemma {:induction false} RunKeepsNested(a: seq<Entry>, b: seq<Entry>, capS: nat, capL: nat, ops: seq<Op>)
    requires Nested(a, b, capS, capL) && capS <= capL
    ensures Nested(Run(a, ops, capS), Run(b, ops, capL), capS, capL)
    decreases |ops|
  {
    if ops != [] {
      match ops[0]
      case Get(k, ttl, now) =>
        GetKeepsNested(a, b, capS, capL, k, ttl, now);
        RunKeepsNested(AfterGet(a, k, ttl, now), AfterGet(b, k, ttl, now), capS, capL, ops[1..]);
      case Set(k, v, now) =>
        SetKeepsNested(a, b, capS, capL, k, v, now);
        RunKeepsNested(AfterSet(a, k, v, now, capS), AfterSet(b, k, v, now, capL), capS, capL, ops[1..]);
    }
  }

  /**
   * After the same trace, under any clock, the smaller cache holds some of the larger one's entries
   * in the same order; whatever hits in the smaller one hits in the larger one, with the same value.
   */
  lemma {:induction false} MoreRoomNeverHurts(ops: seq<Op>, capS: nat, capL: nat, k: Key, ttl: real, now: real)
    requires capS <= capL
    ensures Sub(Run([], ops, capS), Run([], ops, capL))
    ensures |Run([], ops, capS)| <= capS
    ensures GetAnswer(Run([], ops, capS), k, ttl, now).Hit? ==>
            GetAnswer(Run([], ops, capL), k, ttl, now) == GetAnswer(Run([], ops, capS), k, ttl, now)
  {
    RunKeepsNested([], [], capS, capL, ops);
    GetKeepsNested(Run([], ops, capS), Run([], ops, capL), capS, capL, k, ttl, now);
  }

  // What a hit means.

  datatype Stored = Never | At(at: real, value: Value)

  /** The last value given for a key, whatever happened to it since. */
  function LastSet(ops: seq<Op>, k: Key): Stored {
    if ops == [] then Never else
      var last := ops[|ops| - 1];
      if last.Set? && last.k == k then At(last.now, last.v) else LastSet(ops[..|ops| - 1], k)
  }

  lemma {:induction false} RunSplits(s: seq<Entry>, ops: seq<Op>, cap: nat)
    requires ops != []
    ensures Run(s, ops, cap) == Apply(Run(s, ops[..|ops| - 1], cap), ops[|ops| - 1], cap)
    decreases |ops|
  {
    if |ops| > 1 {
      RunSplits(Apply(s, ops[0], cap), ops[1..], cap);
      assert ops[1..][..|ops| - 2] == ops[..|ops| - 1][1..];
    }
  }

  lemma ApplyMembers(s: seq<Entry>, op: Op, cap: nat, e: Entry)
    requires e in Apply(s, op, cap)
    ensures e in s || (op.Set? && e == Entry(op.k, op.now, op.v))
    ensures op.Set? && e.key == op.k ==> e == Entry(op.k, op.now, op.v)
  {
    WithoutMembers(s, op.k, e);
  }

  /** Every entry is the last value given for its key, with the time it was given. */
  lemma {:induction false} EntriesAreLastSets(ops: seq<Op>, cap: nat, e: Entry)
    requires e in Run([], ops, cap)
    ensures LastSet(ops, e.key) == At(e.at, e.value)
    decreases |ops|
  {
    if ops != [] {
      var n := |ops| - 1;
      RunSplits([], ops, cap);
      ApplyMembers(Run([], ops[..n], cap), ops[n], cap, e);
      if !(ops[n].Set? && ops[n].k == e.key) {
        EntriesAreLastSets(ops[..n], cap, e);
      }
    }
  }

  /** A hit returns the last value given for the key, and that value is younger than the allowed age. */
  lemma {:induction false} HitsAreLastAndYoung(ops: seq<Op>, cap: nat, k: Key, ttl: real, now: real)
    requires GetAnswer(Run([], ops, cap), k, ttl, now).Hit?
    ensures LastSet(ops, k).At? && now - LastSet(ops, k).at < ttl
    ensures GetAnswer(Run([], ops, cap), k, ttl, now) == Hit(LastSet(ops, k).value)
  {
    EntriesAreLastSets(ops, cap, Lookup(Run([], ops, cap), k));
  }
}
