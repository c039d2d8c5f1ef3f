/** The stable sort `Array.prototype.sort` performs (ECMA-262 requires
    stability from its 2019 edition on), for a comparator that orders
    elements by a string key ascending or descending and answers 0 on equal
    keys. */
module StableSort {
  import opened Text

  datatype Direction = Asc | Desc

  /** The comparator: negative when the element with key `ka` goes first,
      positive when it goes second, zero on equal keys. */
  function Compare(ka: string, kb: string, dir: Direction): (c: int)
    ensures c == 0 <==> ka == kb
    ensures c < 0 <==> (if dir == Asc then Less(ka, kb) else Less(kb, ka))
  {
    LessTrichotomy(ka, kb);
    if Less(ka, kb) then (if dir == Asc then -1 else 1)
    else if Less(kb, ka) then (if dir == Asc then 1 else -1)
    else 0
  }

  /** Exactly one of `ka < kb`, `ka == kb`, `kb < ka` holds. */
  lemma LessTrichotomy(ka: string, kb: string)
    ensures ka == kb <==> !Less(ka, kb) && !Less(kb, ka)
    ensures !(Less(ka, kb) && Less(kb, ka))
  {
    LessIrreflexive(ka);
    if ka != kb { LessTotal(ka, kb); }
    if Less(kb, ka) && Less(ka, kb) { LessTransitive(ka, kb, ka); }
  }

  /** The element with key `ka` must come strictly before the one with `kb`. */
  predicate Precedes(ka: string, kb: string, dir: Direction)
  {
    Compare(ka, kb, dir) < 0
  }

  /** The comparator is antisymmetric. */
  lemma CompareAntisymmetric(ka: string, kb: string, dir: Direction)
    ensures Compare(ka, kb, dir) == -Compare(kb, ka, dir)
  {
    LessTrichotomy(ka, kb);
  }

  /** Of two different keys exactly one precedes the other; equal keys tie. */
  lemma PrecedesTrichotomy(ka: string, kb: string, dir: Direction)
    ensures ka == kb <==> !Precedes(ka, kb, dir) && !Precedes(kb, ka, dir)
    ensures !(Precedes(ka, kb, dir) && Precedes(kb, ka, dir))
  {
    LessTrichotomy(ka, kb);
  }

  /** `Precedes` is a strict total order on keys. */
  lemma PrecedesTransitive(ka: string, kb: string, kc: string, dir: Direction)
    requires Precedes(ka, kb, dir) && Precedes(kb, kc, dir)
    ensures Precedes(ka, kc, dir)
  {
    if dir == Asc { LessTransitive(ka, kb, kc); } else { LessTransitive(kc, kb, ka); }
  }

  /** "Not after": `!Precedes(kb, ka)` is a total preorder whose ties are equal keys. */
  lemma NotAfterTransitive(ka: string, kb: string, kc: string, dir: Direction)
    requires !Precedes(kb, ka, dir) && !Precedes(kc, kb, dir)
    ensures !Precedes(kc, ka, dir)
  {
    if ka != kb && kb != kc {
      PrecedesTrichotomy(ka, kb, dir);
      PrecedesTrichotomy(kb, kc, dir);
      PrecedesTransitive(ka, kb, kc, dir);
      PrecedesTrichotomy(ka, kc, dir);
    }
  }

  /** No later element must precede an earlier one. */
  predicate SortedBy<T>(s: seq<T>, key: T -> string, dir: Direction)
  {
    forall i, j :: 0 <= i < j < |s| ==> !Precedes(key(s[j]), key(s[i]), dir)
  }

  /** The elements of `s` whose key is `k`, in order. */
  function WithKey<T>(s: seq<T>, key: T -> string, k: string): seq<T>
  {
    if s == [] then [] else (if key(s[0]) == k then [s[0]] else []) + WithKey(s[1..], key, k)
  }

  /** Inserts `x`, which came earlier than every element of `t`, into the
      sorted `t`: it goes after the elements that strictly precede it and
      before all others, its equals included. */
  function Insert<T>(x: T, t: seq<T>, key: T -> string, dir: Direction): seq<T>
  {
    if t == [] then [x]
    else if Precedes(key(t[0]), key(x), dir) then [t[0]] + Insert(x, t[1..], key, dir)
    else [x] + t
  }

  /** Insertion sort: the head goes into the sorted rest. */
  function Sort<T>(s: seq<T>, key: T -> string, dir: Direction): seq<T>
  {
    if s == [] then [] else Insert(s[0], Sort(s[1..], key, dir), key, dir)
  }

  lemma {:induction false} InsertPermutation<T>(x: T, t: seq<T>, key: T -> string, dir: Direction)
    ensures multiset(Insert(x, t, key, dir)) == multiset(t) + multiset{x}
  {
    if t != [] && Precedes(key(t[0]), key(x), dir) {
      InsertPermutation(x, t[1..], key, dir);
      assert t == [t[0]] + t[1..];
    }
  }

  /** The sort rearranges its input and neither loses nor adds an element. */
  lemma {:induction false} SortPermutation<T>(s: seq<T>, key: T -> string, dir: Direction)
    ensures multiset(Sort(s, key, dir)) == multiset(s)
  {
    if s != [] {
      SortPermutation(s[1..], key, dir);
      InsertPermutation(s[0], Sort(s[1..], key, dir), key, dir);
      assert s == [s[0]] + s[1..];
    }
  }

  lemma {:induction false} InsertSorted<T>(x: T, t: seq<T>, key: T -> string, dir: Direction)
    requires SortedBy(t, key, dir)
    ensures SortedBy(Insert(x, t, key, dir), key, dir)
  {
    if t == [] {
    } else if Precedes(key(t[0]), key(x), dir) {
      var rest := Insert(x, t[1..], key, dir);
      InsertSorted(x, t[1..], key, dir);
      InsertPermutation(x, t[1..], key, dir);
      forall j | 0 <= j < |rest|
        ensures !Precedes(key(rest[j]), key(t[0]), dir)
      {
        assert rest[j] in multiset(rest);
        if rest[j] != x {
          assert rest[j] in t[1..];
          var m :| 0 <= m < |t[1..]| && t[1..][m] == rest[j];
          assert t[m + 1] == rest[j];
        } else {
          PrecedesTrichotomy(key(t[0]), key(x), dir);
        }
      }
      var r := [t[0]] + rest;
      forall i, j | 0 <= i < j < |r|
        ensures !Precedes(key(r[j]), key(r[i]), dir)
      {
        if i > 0 {
          assert r[i] == rest[i - 1] && r[j] == rest[j - 1];
        } else {
          assert r[j] == rest[j - 1];
        }
      }
    } else {
      var r := [x] + t;
      forall i, j | 0 <= i < j < |r|
        ensures !Precedes(key(r[j]), key(r[i]), dir)
      {
        if i == 0 && j > 1 {
          NotAfterTransitive(key(x), key(t[0]), key(t[j - 1]), dir);
        }
      }
    }
  }

  /** The sort's output is ordered by the comparator. */
  lemma {:induction false} SortSorted<T>(s: seq<T>, key: T -> string, dir: Direction)
    ensures SortedBy(Sort(s, key, dir), key, dir)
  {
    if s != [] {
      SortSorted(s[1..], key, dir);
      InsertSorted(s[0], Sort(s[1..], key, dir), key, dir);
    }
  }

  lemma {:induction false} InsertWithKey<T>(x: T, t: seq<T>, key: T -> string, dir: Direction, k: string)
    ensures WithKey(Insert(x, t, key, dir), key, k)
         == (if key(x) == k then [x] else []) + WithKey(t, key, k)
  {
    if t != [] && Precedes(key(t[0]), key(x), dir) {
      InsertWithKey(x, t[1..], key, dir, k);
      var r := Insert(x, t, key, dir);
      assert r[0] == t[0] && r[1..] == Insert(x, t[1..], key, dir);
      assert !(key(x) == k && key(t[0]) == k);
    } else if t != [] {
      var r := [x] + t;
      assert r[1..] == t;
    }
  }

  /** Stability: the elements sharing one key come out in their input order,
      in both directions. */
  lemma {:induction false} SortStable<T>(s: seq<T>, key: T -> string, dir: Direction, k: string)
    ensures WithKey(Sort(s, key, dir), key, k) == WithKey(s, key, k)
  {
    if s != [] {
      SortStable(s[1..], key, dir, k);
      InsertWithKey(s[0], Sort(s[1..], key, dir), key, dir, k);
    }
  }

  lemma {:induction false} WithKeyMember<T>(s: seq<T>, key: T -> string, k: string, x: T)
    requires x in WithKey(s, key, k)
    ensures x in s && key(x) == k
  {
    if s != [] && !(key(s[0]) == k && x == s[0]) {
      WithKeyMember(s[1..], key, k, x);
    }
  }

  /** A non-empty sequence has an element with the key of its head. */
  lemma WithKeyHead<T>(s: seq<T>, key: T -> string)
    requires s != []
    ensures WithKey(s, key, key(s[0])) != []
  {
  }

  /** Two ordered sequences that agree key by key start with the same
      element, and their tails agree key by key. */
  lemma SortedHeadsAgree<T>(a: seq<T>, b: seq<T>, key: T -> string, dir: Direction)
    requires SortedBy(a, key, dir) && SortedBy(b, key, dir)
    requires a != [] && b != []
    requires forall k :: WithKey(a, key, k) == WithKey(b, key, k)
    ensures a[0] == b[0]
    ensures forall k :: WithKey(a[1..], key, k) == WithKey(b[1..], key, k)
  {
    var ka, kb := key(a[0]), key(b[0]);
    assert WithKey(a, key, ka)[0] == a[0];
    assert a[0] in WithKey(b, key, ka);
    WithKeyMember(b, key, ka, a[0]);
    var m :| 0 <= m < |b| && b[m] == a[0];
    assert WithKey(b, key, kb)[0] == b[0];
    assert b[0] in WithKey(a, key, kb);
    WithKeyMember(a, key, kb, b[0]);
    var n :| 0 <= n < |a| && a[n] == b[0];
    assert m > 0 ==> !Precedes(ka, kb, dir);
    assert n > 0 ==> !Precedes(kb, ka, dir);
    PrecedesTrichotomy(ka, kb, dir);
    assert ka == kb;
    assert a[0] == WithKey(a, key, ka)[0] == WithKey(b, key, ka)[0] == b[0];
    forall k
      ensures WithKey(a[1..], key, k) == WithKey(b[1..], key, k)
    {
      var h := if ka == k then [a[0]] else [];
      assert WithKey(a, key, k) == h + WithKey(a[1..], key, k);
      assert WithKey(b, key, k) == h + WithKey(b[1..], key, k);
      assert WithKey(a, key, k) == WithKey(b, key, k);
      assert WithKey(a[1..], key, k) == WithKey(a, key, k)[|h|..];
    }
  }

  /** Uniqueness: two sequences ordered by the comparator that agree, key by
      key, on the order of their elements are equal. */
  lemma {:induction false} SortedUnique<T>(a: seq<T>, b: seq<T>, key: T -> string, dir: Direction)
    requires SortedBy(a, key, dir) && SortedBy(b, key, dir)
    requires forall k :: WithKey(a, key, k) == WithKey(b, key, k)
    ensures a == b
    decreases |a|
  {
    if b != [] && a == [] {
      WithKeyHead(b, key);
    } else if a != [] && b == [] {
      WithKeyHead(a, key);
    } else if a != [] {
      SortedHeadsAgree(a, b, key, dir);
      SortedUnique(a[1..], b[1..], key, dir);
      assert a == [a[0]] + a[1..] && b == [b[0]] + b[1..];
    }
  }

  /** The sort is the stable sort: any sequence ordered by the comparator that
      keeps the input order among equal keys is `Sort(s)`. */
  lemma SortIsTheStableSort<T>(s: seq<T>, r: seq<T>, key: T -> string, dir: Direction)
    requires SortedBy(r, key, dir)
    requires forall k :: WithKey(r, key, k) == WithKey(s, key, k)
    ensures r == Sort(s, key, dir)
  {
    SortSorted(s, key, dir);
    forall k
      ensures WithKey(r, key, k) == WithKey(Sort(s, key, dir), key, k)
    {
      SortStable(s, key, dir, k);
    }
    SortedUnique(r, Sort(s, key, dir), key, dir);
  }
}
