/** Python's `sorted(items, key=...)` for keys that are pairs of integers. */
module Sorting {
  type Key = (int, int)

  predicate AtMost(a: Key, b: Key) {
    a.0 < b.0 || (a.0 == b.0 && a.1 <= b.1)
  }

  /** Puts x in front of the first element whose key is not smaller, so equal keys keep their order. */
  function Insert<T>(key: T -> Key, x: T, s: seq<T>): seq<T> {
    if s == [] || AtMost(key(x), key(s[0])) then [x] + s
    else [s[0]] + Insert(key, x, s[1..])
  }

  function Sorted<T>(key: T -> Key, s: seq<T>): seq<T> {
    if s == [] then [] else Insert(key, s[0], Sorted(key, s[1..]))
  }

  ghost predicate Ascending<T>(key: T -> Key, s: seq<T>) {
    forall i, j | 0 <= i < j < |s| :: AtMost(key(s[i]), key(s[j]))
  }

  /** No two elements share a key: what makes a sort independent of its input order. */
  ghost predicate KeysDiffer<T>(key: T -> Key, s: seq<T>) {
    forall i, j | 0 <= i < j < |s| :: key(s[i]) != key(s[j])
  }

  lemma {:induction false} InsertContents<T>(key: T -> Key, x: T, s: seq<T>)
    ensures multiset(Insert(key, x, s)) == multiset{x} + multiset(s)
    ensures forall y :: y in Insert(key, x, s) <==> y == x || y in s
  {
    if s != [] && !AtMost(key(x), key(s[0])) {
      InsertContents(key, x, s[1..]);
      assert s == [s[0]] + s[1..];
    }
  }

  lemma {:induction false} InsertMember<T>(key: T -> Key, x: T, s: seq<T>, j: nat)
    requires j < |Insert(key, x, s)|
    ensures Insert(key, x, s)[j] == x || Insert(key, x, s)[j] in s
  {
    if s != [] && !AtMost(key(x), key(s[0])) && j > 0 {
      InsertMember(key, x, s[1..], j - 1);
    }
  }

  lemma {:induction false} SortedContents<T>(key: T -> Key, s: seq<T>)
    ensures multiset(Sorted(key, s)) == multiset(s)
    ensures |Sorted(key, s)| == |s|
    ensures forall y :: y in Sorted(key, s) <==> y in s
  {
    if s != [] {
      SortedContents(key, s[1..]);
      InsertContents(key, s[0], Sorted(key, s[1..]));
      assert s == [s[0]] + s[1..];
    }
    assert |multiset(Sorted(key, s))| == |multiset(s)|;
  }

  lemma {:induction false} InsertAscends<T>(key: T -> Key, x: T, s: seq<T>)
    requires Ascending(key, s)
    ensures Ascending(key, Insert(key, x, s))
  {
    if s != [] && !AtMost(key(x), key(s[0])) {
      var rest := Insert(key, x, s[1..]);
      InsertAscends(key, x, s[1..]);
      InsertContents(key, x, s[1..]);
      forall j | 0 <= j < |rest| ensures AtMost(key(s[0]), key(rest[j])) {
        var y := rest[j];
        InsertMember(key, x, s[1..], j);
        if y != x {
          var k :| 0 <= k < |s[1..]| && s[1..][k] == y;
          assert s[k + 1] == y;
        }
      }
    }
  }

  lemma {:induction false} SortedAscends<T>(key: T -> Key, s: seq<T>)
    ensures Ascending(key, Sorted(key, s))
  {
    if s != [] {
      SortedAscends(key, s[1..]);
      InsertAscends(key, s[0], Sorted(key, s[1..]));
    }
  }

  /** Permuting a sequence does not make two of its keys equal. */
  lemma KeysDifferSameContents<T>(key: T -> Key, a: seq<T>, b: seq<T>)
    requires multiset(a) == multiset(b) && KeysDiffer(key, a)
    ensures KeysDiffer(key, b)
  {
    forall i, j | 0 <= i < j < |b| ensures key(b[i]) != key(b[j]) {
      if key(b[i]) == key(b[j]) {
        assert b[i] in multiset(a) && b[j] in multiset(a);
        var p :| 0 <= p < |a| && a[p] == b[i];
        var q :| 0 <= q < |a| && a[q] == b[j];
        assert p == q;
        RepeatedElement(b, i, j);
        SingleElement(key, a, p);
        assert false;
      }
    }
  }

  lemma RepeatedElement<T>(s: seq<T>, i: nat, j: nat)
    requires i < j < |s| && s[i] == s[j]
    ensures multiset(s)[s[i]] >= 2
  {
    assert s == s[..j] + [s[j]] + s[j + 1..];
    assert s[..j][i] == s[i];
    assert s[i] in multiset(s[..j]);
  }

  lemma SingleElement<T>(key: T -> Key, s: seq<T>, p: nat)
    requires p < |s| && KeysDiffer(key, s)
    ensures multiset(s)[s[p]] == 1
  {
    assert s == s[..p] + [s[p]] + s[p + 1..];
    assert s[p] !in multiset(s[..p]);
    assert s[p] !in multiset(s[p + 1..]);
  }

  lemma SameHead<T>(key: T -> Key, a: seq<T>, b: seq<T>)
    requires a != [] && multiset(a) == multiset(b)
    requires Ascending(key, a) && Ascending(key, b) && KeysDiffer(key, a)
    ensures b != [] && a[0] == b[0]
  {
    assert a[0] in multiset(b);
    var q :| 0 <= q < |b| && b[q] == a[0];
    assert b[0] in multiset(a);
    var p :| 0 <= p < |a| && a[p] == b[0];
    assert key(a[0]) == key(a[p]);
  }

  lemma TailContents<T>(a: seq<T>, b: seq<T>)
    requires a != [] && b != [] && a[0] == b[0] && multiset(a) == multiset(b)
    ensures multiset(a[1..]) == multiset(b[1..])
  {
    assert a == [a[0]] + a[1..] && b == [a[0]] + b[1..];
    assert multiset(a[1..]) == multiset(a) - multiset{a[0]};
    assert multiset(b[1..]) == multiset(b) - multiset{a[0]};
  }

  lemma TailAscends<T>(key: T -> Key, a: seq<T>)
    requires a != [] && Ascending(key, a)
    ensures Ascending(key, a[1..])
    ensures KeysDiffer(key, a) ==> KeysDiffer(key, a[1..])
  {
  }

  lemma {:induction false} AscendingUnique<T>(key: T -> Key, a: seq<T>, b: seq<T>)
    requires multiset(a) == multiset(b)
    requires Ascending(key, a) && Ascending(key, b) && KeysDiffer(key, a)
    ensures a == b
    decreases |a|
  {
    if a == [] {
      assert |multiset(b)| == 0;
    } else {
      SameHead(key, a, b);
      TailContents(a, b);
      TailAscends(key, a);
      TailAscends(key, b);
      AscendingUnique(key, a[1..], b[1..]);
      assert a == [a[0]] + a[1..] && b == [b[0]] + b[1..];
    }
  }

  /** Sorting forgets the order its input arrived in. */
  lemma SortedIgnoresOrder<T>(key: T -> Key, a: seq<T>, b: seq<T>)
    requires multiset(a) == multiset(b) && KeysDiffer(key, a)
    ensures Sorted(key, a) == Sorted(key, b)
  {
    SortedContents(key, a);
    SortedContents(key, b);
    SortedAscends(key, a);
    SortedAscends(key, b);
    KeysDifferSameContents(key, a, Sorted(key, a));
    AscendingUnique(key, Sorted(key, a), Sorted(key, b));
  }
}
