/** The comparator sorts of the source (`Array.prototype.sort`, stable since
    ES2019) over sort keys that are numbers or strings. String comparison
    (`localeCompare`) is modelled as lexicographic order on code units. */
module Sorting {

  datatype Key = NumKey(n: real) | StrKey(s: string)

  datatype Order = Asc | Desc

  /** Lexicographic order on strings. */
  predicate StrLe(a: string, b: string) {
    if a == [] then true
    else if b == [] then false
    else if a[0] < b[0] then true
    else if a[0] > b[0] then false
    else StrLe(a[1..], b[1..])
  }

  /** Order on keys: numbers by value, strings lexicographically; a column
      never mixes the two, so where they meet is immaterial (numbers first). */
  predicate KeyLe(a: Key, b: Key) {
    match (a, b)
    case (NumKey(x), NumKey(y)) => x <= y
    case (StrKey(x), StrKey(y)) => StrLe(x, y)
    case (NumKey(_), StrKey(_)) => true
    case (StrKey(_), NumKey(_)) => false
  }

  /** `a` may come before `b` in a list sorted in order `o`. */
  predicate InOrder(a: Key, b: Key, o: Order) {
    if o == Asc then KeyLe(a, b) else KeyLe(b, a)
  }

  ghost predicate SortedBy<T>(s: seq<T>, key: T -> Key, o: Order) {
    forall i, j :: 0 <= i < j < |s| ==> InOrder(key(s[i]), key(s[j]), o)
  }

  lemma {:induction false} StrLeTotal(a: string, b: string)
    ensures StrLe(a, b) || StrLe(b, a)
  {
    if a != [] && b != [] && a[0] == b[0] {
      StrLeTotal(a[1..], b[1..]);
    }
  }

  lemma {:induction false} StrLeTransitive(a: string, b: string, c: string)
    requires StrLe(a, b) && StrLe(b, c)
    ensures StrLe(a, c)
  {
    if a != [] && b != [] && c != [] && a[0] == b[0] == c[0] {
      StrLeTransitive(a[1..], b[1..], c[1..]);
    }
  }

  lemma {:induction false} StrLeAntisymmetric(a: string, b: string)
    requires StrLe(a, b) && StrLe(b, a)
    ensures a == b
  {
    if a != [] && b != [] {
      StrLeAntisymmetric(a[1..], b[1..]);
      assert a == [a[0]] + a[1..] && b == [b[0]] + b[1..];
    }
  }

  lemma InOrderTotal(a: Key, b: Key, o: Order)
    ensures InOrder(a, b, o) || InOrder(b, a, o)
  {
    if a.StrKey? && b.StrKey? {
      StrLeTotal(a.s, b.s);
    }
  }

  lemma InOrderTransitive(a: Key, b: Key, c: Key, o: Order)
    requires InOrder(a, b, o) && InOrder(b, c, o)
    ensures InOrder(a, c, o)
  {
    if a.StrKey? && b.StrKey? && c.StrKey? {
      if o == Asc {
        StrLeTransitive(a.s, b.s, c.s);
      } else {
        StrLeTransitive(c.s, b.s, a.s);
      }
    }
  }

  /** Inserts `x` into a sorted list after every element that may precede it,
      so elements with equal keys keep their arrival order. */
  function Insert<T>(x: T, s: seq<T>, key: T -> Key, o: Order): (r: seq<T>)
    requires SortedBy(s, key, o)
    ensures SortedBy(r, key, o)
    ensures multiset(r) == multiset(s) + multiset{x}
    ensures |r| == |s| + 1
  {
    if s == [] then [x]
    else if InOrder(key(s[0]), key(x), o) then
      var tail := Insert(x, s[1..], key, o);
      assert s == [s[0]] + s[1..];
      assert forall k :: 0 <= k < |tail| ==> InOrder(key(s[0]), key(tail[k]), o) by {
        forall k | 0 <= k < |tail|
          ensures InOrder(key(s[0]), key(tail[k]), o)
        {
          assert tail[k] in multiset(tail);
          if tail[k] != x {
            assert tail[k] in multiset(s[1..]);
            var j :| 0 <= j < |s[1..]| && s[1..][j] == tail[k];
            assert s[j + 1] == tail[k];
          }
        }
      }
      [s[0]] + tail
    else
      InOrderTotal(key(s[0]), key(x), o);
      assert forall k :: 0 <= k < |s| ==> InOrder(key(x), key(s[k]), o) by {
        forall k | 0 <= k < |s|
          ensures InOrder(key(x), key(s[k]), o)
        {
          if k > 0 {
            InOrderTransitive(key(x), key(s[0]), key(s[k]), o);
          }
        }
      }
      [x] + s
  }

  /** Insertion sort: sorted in order `o` and a permutation of `s`. */
  function Sort<T>(s: seq<T>, key: T -> Key, o: Order): (r: seq<T>)
    ensures SortedBy(r, key, o)
    ensures multiset(r) == multiset(s)
    ensures |r| == |s|
  {
    if s == [] then []
    else
      var n := |s| - 1;
      assert s == s[..n] + [s[n]];
      Insert(s[n], Sort(s[..n], key, o), key, o)
  }
}
