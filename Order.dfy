/** Python's ordering of `str` values and of tuples `(rank, str, ...)`, and `sorted(...)` over
    such keys. */
module Order {

  /** `a < b` for Python strings: code point by code point, a proper prefix first. */
  predicate Less(a: string, b: string)
    decreases |a|
  {
    if a == [] then b != []
    else if b == [] then false
    else if a[0] != b[0] then a[0] < b[0]
    else Less(a[1..], b[1..])
  }

  lemma {:induction false} LessIrreflexive(a: string)
    ensures !Less(a, a)
    decreases |a|
  {
    if a != [] {
      LessIrreflexive(a[1..]);
    }
  }

  lemma {:induction false} LessTransitive(a: string, b: string, c: string)
    requires Less(a, b) && Less(b, c)
    ensures Less(a, c)
    decreases |a|
  {
    if a != [] && a[0] == b[0] && b[0] == c[0] {
      LessTransitive(a[1..], b[1..], c[1..]);
    }
  }

  lemma {:induction false} LessTotal(a: string, b: string)
    requires a != b
    ensures Less(a, b) || Less(b, a)
    decreases |a|
  {
    if a != [] && b != [] && a[0] == b[0] {
      assert a == [a[0]] + a[1..] && b == [b[0]] + b[1..];
      LessTotal(a[1..], b[1..]);
    }
  }

  /** A sort key: an integer rank followed by a tuple of strings, compared left to right. */
  datatype Key = Key(rank: int, fields: seq<string>)

  /** `<` on tuples of strings. */
  predicate FieldsLess(xs: seq<string>, ys: seq<string>)
    decreases |xs|
  {
    if xs == [] || ys == [] then |xs| < |ys|
    else if xs[0] != ys[0] then Less(xs[0], ys[0])
    else FieldsLess(xs[1..], ys[1..])
  }

  predicate KeyLess(a: Key, b: Key) {
    a.rank < b.rank || (a.rank == b.rank && FieldsLess(a.fields, b.fields))
  }

  lemma {:induction false} FieldsLessTransitive(xs: seq<string>, ys: seq<string>, zs: seq<string>)
    requires FieldsLess(xs, ys) && FieldsLess(ys, zs)
    ensures FieldsLess(xs, zs)
    decreases |xs|
  {
    if xs != [] && ys != [] && zs != [] {
      if xs[0] == ys[0] && ys[0] == zs[0] {
        FieldsLessTransitive(xs[1..], ys[1..], zs[1..]);
      } else if xs[0] != ys[0] && ys[0] != zs[0] {
        LessTransitive(xs[0], ys[0], zs[0]);
        if xs[0] == zs[0] {
          LessIrreflexive(xs[0]);
        }
      }
    }
  }

  lemma {:induction false} FieldsLessIrreflexive(xs: seq<string>)
    ensures !FieldsLess(xs, xs)
    decreases |xs|
  {
    if xs != [] {
      FieldsLessIrreflexive(xs[1..]);
    }
  }

  lemma {:induction false} FieldsLessTotal(xs: seq<string>, ys: seq<string>)
    requires xs != ys
    ensures FieldsLess(xs, ys) || FieldsLess(ys, xs)
    decreases |xs|
  {
    if xs != [] && ys != [] {
      if xs[0] == ys[0] {
        assert xs == [xs[0]] + xs[1..] && ys == [ys[0]] + ys[1..];
        FieldsLessTotal(xs[1..], ys[1..]);
      } else {
        LessTotal(xs[0], ys[0]);
      }
    }
  }

  /** Keys are strictly ordered: the order is transitive and irreflexive, and any two distinct
      keys are comparable. */
  lemma KeyLessTransitive(a: Key, b: Key, c: Key)
    requires KeyLess(a, b) && KeyLess(b, c)
    ensures KeyLess(a, c)
  {
    if a.rank == b.rank && b.rank == c.rank {
      FieldsLessTransitive(a.fields, b.fields, c.fields);
    }
  }

  lemma KeyChain(a: Key, b: Key, c: Key)
    ensures KeyLess(a, b) && KeyLess(b, c) ==> KeyLess(a, c)
  {
    if KeyLess(a, b) && KeyLess(b, c) {
      KeyLessTransitive(a, b, c);
    }
  }

  lemma KeyLessIrreflexive(a: Key)
    ensures !KeyLess(a, a)
  {
    FieldsLessIrreflexive(a.fields);
  }

  lemma KeyLessTotal(a: Key, b: Key)
    requires a != b
    ensures KeyLess(a, b) || KeyLess(b, a)
  {
    if a.rank == b.rank {
      FieldsLessTotal(a.fields, b.fields);
    }
  }

  /** No element is ordered before one that precedes it. */
  predicate SortedBy<T>(s: seq<T>, key: T -> Key) {
    forall i, j :: 0 <= i < j < |s| ==> !KeyLess(key(s[j]), key(s[i]))
  }

  /** Inserts `x` after every element whose key is not greater than its own. */
  function Insert<T>(x: T, s: seq<T>, key: T -> Key): (r: seq<T>)
    ensures multiset(r) == multiset(s) + multiset{x}
  {
    if s == [] || KeyLess(key(x), key(s[0])) then [x] + s
    else
      assert s == [s[0]] + s[1..];
      [s[0]] + Insert(x, s[1..], key)
  }

  lemma {:induction false} InsertSorted<T>(x: T, s: seq<T>, key: T -> Key)
    requires SortedBy(s, key)
    ensures SortedBy(Insert(x, s, key), key)
    decreases |s|
  {
    if s == [] || KeyLess(key(x), key(s[0])) {
      var r := [x] + s;
      forall i, j | 0 <= i < j < |r|
        ensures !KeyLess(key(r[j]), key(r[i]))
      {
        if i == 0 {
          assert r[j] == s[j - 1];
          KeyChain(key(r[j]), key(x), key(s[0]));
          KeyLessIrreflexive(key(s[0]));
        } else {
          assert r[i] == s[i - 1] && r[j] == s[j - 1];
        }
      }
    } else {
      var tail := Insert(x, s[1..], key);
      InsertSorted(x, s[1..], key);
      var r := [s[0]] + tail;
      assert multiset(tail) == multiset(s[1..]) + multiset{x};
      forall i, j | 0 <= i < j < |r|
        ensures !KeyLess(key(r[j]), key(r[i]))
      {
        if i == 0 {
          assert r[j] == tail[j - 1] && r[j] in multiset(tail);
          if r[j] != x {
            assert r[j] in s[1..];
            var k :| 0 <= k < |s[1..]| && s[1..][k] == r[j];
            assert s[k + 1] == r[j];
          }
        } else {
          assert r[i] == tail[i - 1] && r[j] == tail[j - 1];
        }
      }
    }
  }

  /** The elements of `s` whose key is `k`, in their order in `s`. */
  function WithKey<T>(s: seq<T>, key: T -> Key, k: Key): seq<T>
    decreases |s|
  {
    if s == [] then [] else (if key(s[0]) == k then [s[0]] else []) + WithKey(s[1..], key, k)
  }

  lemma {:induction false} WithKeyAppend<T>(a: seq<T>, b: seq<T>, key: T -> Key)
    ensures forall k :: WithKey(a + b, key, k) == WithKey(a, key, k) + WithKey(b, key, k)
    decreases |a|
  {
    if a == [] {
      assert a + b == b;
    } else {
      WithKeyAppend(a[1..], b, key);
      assert (a + b)[0] == a[0] && (a + b)[1..] == a[1..] + b;
    }
  }

  lemma WithKeySnoc<T>(a: seq<T>, x: T, key: T -> Key)
    ensures forall k :: WithKey(a + [x], key, k) == WithKey(a, key, k) + (if key(x) == k then [x] else [])
  {
    WithKeyAppend(a, [x], key);
    assert [x][1..] == [];
    forall k
      ensures WithKey([x], key, k) == (if key(x) == k then [x] else [])
    {
    }
  }

  lemma {:induction false} NoneWithKey<T>(s: seq<T>, key: T -> Key, k: Key)
    requires forall i :: 0 <= i < |s| ==> key(s[i]) != k
    ensures WithKey(s, key, k) == []
    decreases |s|
  {
    if s != [] {
      NoneWithKey(s[1..], key, k);
    }
  }

  /** Inserting into a sorted sequence puts `x` after every element with the same key. */
  lemma {:induction false} InsertKeepsKeyOrder<T>(x: T, s: seq<T>, key: T -> Key)
    requires SortedBy(s, key)
    ensures forall k :: WithKey(Insert(x, s, key), key, k) == WithKey(s, key, k) + (if key(x) == k then [x] else [])
    decreases |s|
  {
    if s == [] || KeyLess(key(x), key(s[0])) {
      forall i | 0 <= i < |s|
        ensures key(s[i]) != key(x)
      {
        KeyLessIrreflexive(key(x));
        if i > 0 {
          assert !KeyLess(key(s[i]), key(s[0]));
        }
      }
      NoneWithKey(s, key, key(x));
      assert ([x] + s)[0] == x && ([x] + s)[1..] == s;
    } else {
      var tail := Insert(x, s[1..], key);
      assert SortedBy(s[1..], key) by {
        forall i, j | 0 <= i < j < |s[1..]|
          ensures !KeyLess(key(s[1..][j]), key(s[1..][i]))
        {
          assert s[1..][i] == s[i + 1] && s[1..][j] == s[j + 1];
        }
      }
      InsertKeepsKeyOrder(x, s[1..], key);
      assert ([s[0]] + tail)[0] == s[0] && ([s[0]] + tail)[1..] == tail;
    }
  }

  /** `sorted(s, key=key)`: elements are inserted one at a time in their original order. The sort
      is stable: elements with equal keys keep their order in `s`. */
  function Sort<T>(s: seq<T>, key: T -> Key): (r: seq<T>)
    ensures multiset(r) == multiset(s)
    ensures SortedBy(r, key)
    ensures forall k :: WithKey(r, key, k) == WithKey(s, key, k)
  {
    if s == [] then []
    else
      var init := s[..|s| - 1];
      var last := s[|s| - 1];
      assert s == init + [last];
      InsertSorted(last, Sort(init, key), key);
      InsertKeepsKeyOrder(last, Sort(init, key), key);
      WithKeySnoc(init, last, key);
      Insert(last, Sort(init, key), key)
  }

  /** The key of a plain string in `sorted(strings)`. */
  function StrKey(s: string): Key {
    Key(0, [s])
  }

  /** The elements of `xs` with later duplicates dropped. */
  function Dedup(xs: seq<string>): (r: seq<string>)
    ensures forall x :: x in r <==> x in xs
    ensures forall i, j :: 0 <= i < j < |r| ==> r[i] != r[j]
  {
    if xs == [] then []
    else
      var rest := Dedup(xs[..|xs| - 1]);
      if xs[|xs| - 1] in rest then rest else rest + [xs[|xs| - 1]]
  }

  /** `sorted(set(xs))`: the distinct strings of `xs` in strictly increasing order. */
  function SortedUnique(xs: seq<string>): (r: seq<string>)
    ensures forall x :: x in r <==> x in xs
    ensures forall i, j :: 0 <= i < j < |r| ==> Less(r[i], r[j])
  {
    var d := Dedup(xs);
    var r := Sort(d, StrKey);
    assert forall x :: x in r <==> x in multiset(r);
    assert forall x :: x in d <==> x in multiset(d);
    DistinctSorted(d, r);
    r
  }

  lemma DistinctSorted(d: seq<string>, r: seq<string>)
    requires forall i, j :: 0 <= i < j < |d| ==> d[i] != d[j]
    requires multiset(r) == multiset(d) && SortedBy(r, StrKey)
    ensures forall i, j :: 0 <= i < j < |r| ==> Less(r[i], r[j])
  {
    forall i, j | 0 <= i < j < |r|
      ensures Less(r[i], r[j])
    {
      DistinctHasNoRepeat(d, r, i, j);
      KeyLessTotal(StrKey(r[i]), StrKey(r[j]));
    }
  }

  lemma DistinctHasNoRepeat(d: seq<string>, r: seq<string>, i: int, j: int)
    requires forall i, j :: 0 <= i < j < |d| ==> d[i] != d[j]
    requires multiset(r) == multiset(d)
    requires 0 <= i < j < |r|
    ensures r[i] != r[j]
  {
    if r[i] == r[j] {
      assert r == r[..i] + [r[i]] + r[i + 1..j] + [r[j]] + r[j + 1..];
      assert multiset(r)[r[i]] >= 2;
      CountAtMostOne(d, r[i]);
    }
  }

  lemma {:induction false} CountAtMostOne(d: seq<string>, x: string)
    requires forall i, j :: 0 <= i < j < |d| ==> d[i] != d[j]
    ensures multiset(d)[x] <= 1
    decreases |d|
  {
    if d != [] {
      assert d == [d[0]] + d[1..];
      CountAtMostOne(d[1..], x);
      if d[0] == x {
        assert x !in d[1..];
      }
    }
  }
}
