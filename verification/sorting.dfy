/** A stable sort by key, ascending or descending: the behaviour
    `Array.prototype.sort` has (it is stable) when its comparator is a
    consistent three-way comparison of keys. */
module Sorting {
  import opened Seqs
  import JsText

  /** What a row is sorted by: an absent cell, a number or a string. */
  datatype SortKey = Missing | NumKey(n: int) | StrKey(s: string)

  datatype Direction = Asc | Desc

  function Rank(k: SortKey): nat
  {
    match k
    case Missing => 0
    case NumKey(_) => 1
    case StrKey(_) => 2
  }

  /** Numbers by value, strings lexicographically; keys of different kinds
      by kind (the pages never compare those, see `AttestationsTable`). */
  predicate KeyLt(a: SortKey, b: SortKey)
  {
    if a.NumKey? && b.NumKey? then a.n < b.n
    else if a.StrKey? && b.StrKey? then JsText.StrLt(a.s, b.s)
    else Rank(a) < Rank(b)
  }

  lemma KeyLtIrreflexive(a: SortKey)
    ensures !KeyLt(a, a)
  {
    if a.StrKey? {
      JsText.StrLtIrreflexive(a.s);
    }
  }

  lemma KeyLtTransitive(a: SortKey, b: SortKey, c: SortKey)
    requires KeyLt(a, b) && KeyLt(b, c)
    ensures KeyLt(a, c)
  {
    if a.StrKey? && b.StrKey? && c.StrKey? {
      JsText.StrLtTransitive(a.s, b.s, c.s);
    }
  }

  lemma KeyLtTotal(a: SortKey, b: SortKey)
    ensures a == b || KeyLt(a, b) || KeyLt(b, a)
  {
    if a.StrKey? && b.StrKey? {
      JsText.StrLtTotal(a.s, b.s);
    }
  }

  /** Key `a` goes strictly before key `b` in direction `d`. */
  predicate Precedes(d: Direction, a: SortKey, b: SortKey)
  {
    match d
    case Asc => KeyLt(a, b)
    case Desc => KeyLt(b, a)
  }

  lemma PrecedesIrreflexive(d: Direction, a: SortKey)
    ensures !Precedes(d, a, a)
  {
    KeyLtIrreflexive(a);
  }

  lemma PrecedesTransitive(d: Direction, a: SortKey, b: SortKey, c: SortKey)
    requires Precedes(d, a, b) && Precedes(d, b, c)
    ensures Precedes(d, a, c)
  {
    if d == Asc {
      KeyLtTransitive(a, b, c);
    } else {
      KeyLtTransitive(c, b, a);
    }
  }

  lemma PrecedesAsymmetric(d: Direction, a: SortKey, b: SortKey)
    requires Precedes(d, a, b)
    ensures !Precedes(d, b, a)
  {
    if Precedes(d, b, a) {
      PrecedesTransitive(d, a, b, a);
      PrecedesIrreflexive(d, a);
    }
  }

  /** "Not after" is transitive: it is the reflexive closure of a strict
      total order. */
  lemma NotPrecedesTransitive(d: Direction, a: SortKey, b: SortKey, c: SortKey)
    requires !Precedes(d, b, a) && !Precedes(d, c, b)
    ensures !Precedes(d, c, a)
  {
    KeyLtTotal(a, b);
    KeyLtTotal(b, c);
    if Precedes(d, c, a) {
      if a == b {
      } else {
        assert Precedes(d, a, b);
        PrecedesTransitive(d, c, a, b);
      }
    }
  }

  /** No element is preceded by a later one. */
  predicate Sorted<T>(s: seq<T>, key: T -> SortKey, d: Direction)
  {
    forall i, j :: 0 <= i < j < |s| ==> !Precedes(d, key(s[j]), key(s[i]))
  }

  /** Inserts `x` behind every element that does not strictly follow it. */
  function Insert<T>(s: seq<T>, x: T, key: T -> SortKey, d: Direction): (r: seq<T>)
    ensures |r| == |s| + 1
    ensures multiset(r) == multiset(s) + multiset{x}
    decreases |s|
  {
    if |s| == 0 then [x]
    else
      var front, last := s[..|s| - 1], s[|s| - 1];
      assert s == front + [last];
      if Precedes(d, key(x), key(last)) then Insert(front, x, key, d) + [last]
      else s + [x]
  }

  /** Insertion sort, taking the elements in their input order. */
  function SortBy<T>(xs: seq<T>, key: T -> SortKey, d: Direction): (r: seq<T>)
    ensures |r| == |xs|
    ensures multiset(r) == multiset(xs)
    decreases |xs|
  {
    if |xs| == 0 then []
    else
      var front, last := xs[..|xs| - 1], xs[|xs| - 1];
      assert xs == front + [last];
      Insert(SortBy(front, key, d), last, key, d)
  }

  lemma {:induction false} InsertSorted<T>(s: seq<T>, x: T, key: T -> SortKey, d: Direction)
    requires Sorted(s, key, d)
    ensures Sorted(Insert(s, x, key, d), key, d)
    decreases |s|
  {
    if |s| > 0 {
      var front, last := s[..|s| - 1], s[|s| - 1];
      var r := Insert(s, x, key, d);
      if Precedes(d, key(x), key(last)) {
        var mid := Insert(front, x, key, d);
        InsertSorted(front, x, key, d);
        forall i | 0 <= i < |mid|
          ensures !Precedes(d, key(last), key(mid[i]))
        {
          assert mid[i] in multiset(mid);
          if mid[i] == x {
            PrecedesAsymmetric(d, key(x), key(last));
          } else {
            assert mid[i] in multiset(front);
            var k :| 0 <= k < |front| && front[k] == mid[i];
            assert s[k] == mid[i];
          }
        }
        assert r == mid + [last];
      } else {
        forall i | 0 <= i < |s|
          ensures !Precedes(d, key(x), key(s[i]))
        {
          if i < |s| - 1 {
            NotPrecedesTransitive(d, key(s[i]), key(last), key(x));
          }
        }
        assert r == s + [x];
      }
    }
  }

  /** The sort orders its result. */
  lemma {:induction false} SortBySorted<T>(xs: seq<T>, key: T -> SortKey, d: Direction)
    ensures Sorted(SortBy(xs, key, d), key, d)
    decreases |xs|
  {
    if |xs| > 0 {
      SortBySorted(xs[..|xs| - 1], key, d);
      InsertSorted(SortBy(xs[..|xs| - 1], key, d), xs[|xs| - 1], key, d);
    }
  }

  /** The elements whose key is `k`. */
  function HasKey<T>(key: T -> SortKey, k: SortKey): T -> bool
  {
    x => key(x) == k
  }

  /** Inserting `x` puts it behind every element sharing its key and leaves
      the order within every key class as it was. */
  lemma {:induction false} InsertKeepsEqualKeysInOrder<T>(s: seq<T>, x: T, key: T -> SortKey, d: Direction, k: SortKey)
    ensures Filter(Insert(s, x, key, d), HasKey(key, k))
         == Filter(s, HasKey(key, k)) + (if key(x) == k then [x] else [])
    decreases |s|
  {
    var p := HasKey(key, k);
    if |s| == 0 {
      assert Filter([x], p) == if key(x) == k then [x] else [];
    } else {
      var front, last := s[..|s| - 1], s[|s| - 1];
      if Precedes(d, key(x), key(last)) {
        InsertKeepsEqualKeysInOrder(front, x, key, d, k);
        PrecedesIrreflexive(d, key(x));
        InsertPastLast(s, x, key, d, k);
      } else {
        assert Insert(s, x, key, d) == s + [x];
        FilterSnoc(s, x, p);
      }
    }
  }

  /** The step of that lemma where `x` moves in front of the last element,
      which cannot share its key. */
  lemma InsertPastLast<T>(s: seq<T>, x: T, key: T -> SortKey, d: Direction, k: SortKey)
    requires |s| > 0 && Precedes(d, key(x), key(s[|s| - 1]))
    requires key(x) == k ==> key(s[|s| - 1]) != k
    requires Filter(Insert(s[..|s| - 1], x, key, d), HasKey(key, k))
          == Filter(s[..|s| - 1], HasKey(key, k)) + (if key(x) == k then [x] else [])
    ensures Filter(Insert(s, x, key, d), HasKey(key, k))
         == Filter(s, HasKey(key, k)) + (if key(x) == k then [x] else [])
  {
    var p := HasKey(key, k);
    var front, last := s[..|s| - 1], s[|s| - 1];
    assert s == front + [last];
    var mid := Insert(front, x, key, d);
    assert Insert(s, x, key, d) == mid + [last];
    FilterSnoc(mid, last, p);
    FilterSnoc(front, last, p);
  }

  /** Stability: the elements sharing a key keep their input order. */
  lemma {:induction false} SortByStable<T>(xs: seq<T>, key: T -> SortKey, d: Direction, k: SortKey)
    ensures Filter(SortBy(xs, key, d), HasKey(key, k)) == Filter(xs, HasKey(key, k))
    decreases |xs|
  {
    if |xs| > 0 {
      var front, last := xs[..|xs| - 1], xs[|xs| - 1];
      assert xs == front + [last];
      SortByStable(front, key, d, k);
      InsertKeepsEqualKeysInOrder(SortBy(front, key, d), last, key, d, k);
      FilterSnoc(front, last, HasKey(key, k));
    }
  }

  /** When every key is the same the sort changes nothing. */
  lemma SortBySameKeys<T>(xs: seq<T>, key: T -> SortKey, d: Direction, k: SortKey)
    requires forall i :: 0 <= i < |xs| ==> key(xs[i]) == k
    ensures SortBy(xs, key, d) == xs
  {
    var r := SortBy(xs, key, d);
    SortByStable(xs, key, d, k);
    FilterKeepsAll(xs, HasKey(key, k));
    forall i | 0 <= i < |r|
      ensures HasKey(key, k)(r[i])
    {
      assert r[i] in multiset(xs);
    }
    FilterKeepsAll(r, HasKey(key, k));
  }
}
