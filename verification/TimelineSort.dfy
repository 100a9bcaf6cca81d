/**
 * Stable sorting on a (time, identifier) key, as lineage projections and transition
 * histories do it. Identifiers are numbers here: only their equality and order matter.
 */
module TimelineSort {
  datatype Stamp = Stamp(time: int, id: int)

  predicate NotAfter(a: Stamp, b: Stamp) {
    a.time < b.time || (a.time == b.time && a.id <= b.id)
  }

  predicate Before(a: Stamp, b: Stamp) {
    NotAfter(a, b) && a != b
  }

  ghost predicate Ordered<T>(s: seq<T>, key: T -> Stamp) {
    forall i, j :: 0 <= i < j < |s| ==> NotAfter(key(s[i]), key(s[j]))
  }

  ghost predicate StrictlyOrdered<T>(s: seq<T>, key: T -> Stamp) {
    forall i, j :: 0 <= i < j < |s| ==> Before(key(s[i]), key(s[j]))
  }

  function Insert<T>(x: T, s: seq<T>, key: T -> Stamp): (r: seq<T>)
    ensures |r| == |s| + 1
  {
    if s == [] then [x]
    else if NotAfter(key(x), key(s[0])) then [x] + s
    else [s[0]] + Insert(x, s[1..], key)
  }

  function Sort<T>(s: seq<T>, key: T -> Stamp): (r: seq<T>)
    ensures |r| == |s|
  {
    if s == [] then [] else Insert(s[0], Sort(s[1..], key), key)
  }

  lemma {:induction false} InsertKeeps<T>(x: T, s: seq<T>, key: T -> Stamp)
    ensures multiset(Insert(x, s, key)) == multiset(s) + multiset{x}
  {
    if s != [] && !NotAfter(key(x), key(s[0])) {
      InsertKeeps(x, s[1..], key);
      assert s == [s[0]] + s[1..];
    }
  }

  lemma {:induction false} InsertOrders<T>(x: T, s: seq<T>, key: T -> Stamp)
    requires Ordered(s, key)
    ensures Ordered(Insert(x, s, key), key)
  {
    if s != [] && !NotAfter(key(x), key(s[0])) {
      InsertOrders(x, s[1..], key);
      InsertKeeps(x, s[1..], key);
      var rest := Insert(x, s[1..], key);
      forall j | 0 <= j < |rest| ensures NotAfter(key(s[0]), key(rest[j])) {
        assert rest[j] in multiset(rest);
        assert rest[j] == x || rest[j] in s[1..];
      }
    }
  }

  /** Sorting rearranges, and puts in order. */
  lemma {:induction false} SortSorts<T>(s: seq<T>, key: T -> Stamp)
    ensures multiset(Sort(s, key)) == multiset(s)
    ensures Ordered(Sort(s, key), key)
  {
    if s != [] {
      SortSorts(s[1..], key);
      InsertKeeps(s[0], Sort(s[1..], key), key);
      InsertOrders(s[0], Sort(s[1..], key), key);
      assert s == [s[0]] + s[1..];
    }
  }

  /** Only one ordered arrangement exists when the keys are distinct. */
  lemma TailsOrdered<T>(a: seq<T>, b: seq<T>, key: T -> Stamp)
    requires a != [] && b != [] && StrictlyOrdered(a, key) && Ordered(b, key)
    ensures StrictlyOrdered(a[1..], key) && Ordered(b[1..], key)
  {
  }

  lemma {:induction false} OneOrder<T>(a: seq<T>, b: seq<T>, key: T -> Stamp)
    requires multiset(a) == multiset(b)
    requires StrictlyOrdered(a, key) && Ordered(b, key)
    ensures a == b
  {
    assert |a| == |multiset(a)| == |multiset(b)| == |b|;
    if a != [] {
      SameHead(a, b, key);
      hide StrictlyOrdered, Ordered, Before, NotAfter;
      TailsOrdered(a, b, key);
      assert a == [a[0]] + a[1..] && b == [b[0]] + b[1..];
      assert multiset(a[1..]) == multiset(a) - multiset{a[0]};
      assert multiset(b[1..]) == multiset(b) - multiset{b[0]};
      OneOrder(a[1..], b[1..], key);
    }
  }

  lemma SameHead<T>(a: seq<T>, b: seq<T>, key: T -> Stamp)
    requires a != [] && b != [] && multiset(a) == multiset(b)
    requires StrictlyOrdered(a, key) && Ordered(b, key)
    ensures a[0] == b[0]
  {
    assert a[0] in multiset(b) && b[0] in multiset(a);
    var i :| 0 <= i < |b| && b[i] == a[0];
    var j :| 0 <= j < |a| && a[j] == b[0];
    if j > 0 {
      assert Before(key(a[0]), key(a[j]));
    }
  }

  /** A strictly ordered sequence is what sorting any rearrangement of it gives. */
  lemma {:induction false} SortsTo<T>(s: seq<T>, a: seq<T>, key: T -> Stamp)
    requires multiset(a) == multiset(s) && StrictlyOrdered(a, key)
    ensures Sort(s, key) == a
  {
    SortSorts(s, key);
    OneOrder(a, Sort(s, key), key);
  }

  ghost predicate DistinctKeys<T, K>(s: seq<T>, key: T -> K) {
    forall i, j :: 0 <= i < j < |s| ==> key(s[i]) != key(s[j])
  }

  /** With distinct keys the sorted sequence does not depend on the order of the input. */
  lemma {:induction false} SortIgnoresInputOrder<T>(s: seq<T>, t: seq<T>, key: T -> Stamp)
    requires multiset(s) == multiset(t) && DistinctKeys(s, key)
    ensures Sort(s, key) == Sort(t, key)
  {
    SortSorts(s, key);
    DistinctKeysMove(s, Sort(s, key), key);
    SortsTo(t, Sort(s, key), key);
  }

  /** Distinct keys survive rearranging and leaving elements out. */
  lemma DistinctKeysMove<T, K>(s: seq<T>, t: seq<T>, key: T -> K)
    requires multiset(t) <= multiset(s) && DistinctKeys(s, key)
    ensures DistinctKeys(t, key)
  {
    forall i, j | 0 <= i < j < |t| ensures key(t[i]) != key(t[j]) {
      if key(t[i]) == key(t[j]) {
        assert t[i] in multiset(t) && t[j] in multiset(t);
        assert t[i] in s && t[j] in s;
        TwiceCounted(t, i, j);
        OnceCounted(s, t[i], key);
      }
    }
  }

  lemma TwiceCounted<T>(t: seq<T>, i: nat, j: nat)
    requires i < j < |t| && t[i] == t[j]
    ensures multiset(t)[t[i]] >= 2
  {
    assert t == t[..i] + [t[i]] + t[i + 1..j] + [t[j]] + t[j + 1..];
  }

  lemma {:induction false} OnceCounted<T, K>(s: seq<T>, x: T, key: T -> K)
    requires DistinctKeys(s, key)
    ensures multiset(s)[x] <= 1
  {
    if s != [] {
      OnceCounted(s[1..], x, key);
      assert s == [s[0]] + s[1..];
      if s[0] == x {
        assert x !in s[1..];
      }
    }
  }

  // Stability: elements with equal keys keep their order.

  ghost predicate Precedes<T>(s: seq<T>, x: T, y: T) {
    exists i, j :: 0 <= i < j < |s| && s[i] == x && s[j] == y
  }

  lemma PrecedesConcat<T>(a: seq<T>, b: seq<T>, x: T, y: T)
    ensures Precedes(a + b, x, y) <==> Precedes(a, x, y) || Precedes(b, x, y) || (x in a && y in b)
  {
    var s := a + b;
    if Precedes(s, x, y) {
      var i, j :| 0 <= i < j < |s| && s[i] == x && s[j] == y;
      if |a| <= i {
        assert b[i - |a|] == x && b[j - |a|] == y;
      }
    }
    if Precedes(b, x, y) {
      var i, j :| 0 <= i < j < |b| && b[i] == x && b[j] == y;
      assert s[|a| + i] == x && s[|a| + j] == y;
    }
    if Precedes(a, x, y) {
      var i, j :| 0 <= i < j < |a| && a[i] == x && a[j] == y;
      assert s[i] == x && s[j] == y;
    }
    if x in a && y in b {
      var i :| 0 <= i < |a| && a[i] == x;
      var j :| 0 <= j < |b| && b[j] == y;
      assert s[i] == x && s[|a| + j] == y;
    }
  }

  lemma {:induction false} InsertPrecedes<T>(z: T, s: seq<T>, key: T -> Stamp, x: T, y: T)
    requires Precedes(s, x, y) || (x == z && y in s && NotAfter(key(x), key(y)))
    ensures Precedes(Insert(z, s, key), x, y)
  {
    assert s == [s[0]] + s[1..];
    PrecedesConcat([s[0]], s[1..], x, y);
    if NotAfter(key(z), key(s[0])) {
      PrecedesConcat([z], s, x, y);
    } else {
      var rest := Insert(z, s[1..], key);
      PrecedesConcat([s[0]], rest, x, y);
      if Precedes(s[1..], x, y) || (x == z && y in s[1..]) {
        InsertPrecedes(z, s[1..], key, x, y);
      } else {
        InsertKeeps(z, s[1..], key);
        assert y in multiset(rest);
      }
    }
  }

  lemma {:induction false} SortPrecedes<T>(s: seq<T>, key: T -> Stamp, x: T, y: T)
    requires Precedes(s, x, y) && NotAfter(key(x), key(y))
    ensures Precedes(Sort(s, key), x, y)
  {
    assert s == [s[0]] + s[1..];
    PrecedesConcat([s[0]], s[1..], x, y);
    if Precedes(s[1..], x, y) {
      SortPrecedes(s[1..], key, x, y);
    } else {
      SortSorts(s[1..], key);
      assert y in multiset(Sort(s[1..], key));
    }
    InsertPrecedes(s[0], Sort(s[1..], key), key, x, y);
  }
}
