/**
 Filtering and ordering of query results. A query set in the hotel API is a
 filtered view of a table, returned in the order its `ORDER BY` keys impose;
 rows with equal keys come back in an order the database does not promise.
 The model therefore states results as "a permutation of the filtered rows,
 sorted by the keys" and computes one such order by insertion sort.
 */
module Seqs {

  /** The elements of `s` satisfying `p`, in their original order. */
  function Filter<T(!new)>(s: seq<T>, p: T -> bool): (r: seq<T>)
    ensures |r| <= |s|
    ensures forall x :: x in r <==> x in s && p(x)
    ensures forall x :: multiset(r)[x] == if p(x) then multiset(s)[x] else 0
    decreases |s|
  {
    if |s| == 0 then []
    else
      var rest := Filter(s[1..], p);
      assert s == [s[0]] + s[1..];
      if p(s[0]) then [s[0]] + rest else rest
  }
}

module Ordering {
  import Text

  /** One component of a sort key: a text column or a numeric column. */
  datatype Atom = Txt(text: string) | Num(value: int)

  /** The values of the `ORDER BY` columns of one row, in column order. */
  type SortKey = seq<Atom>

  predicate AtomLe(a: Atom, b: Atom) {
    match (a, b)
    case (Txt(x), Txt(y)) => Text.TextLe(x, y)
    case (Num(x), Num(y)) => x <= y
    case (Txt(_), Num(_)) => true
    case (Num(_), Txt(_)) => false
  }

  /** Lexicographic comparison of sort keys, column by column. */
  predicate KeyLe(k1: SortKey, k2: SortKey)
    decreases |k1|
  {
    |k1| == 0
    || (|k2| > 0
        && ((k1[0] != k2[0] && AtomLe(k1[0], k2[0]))
            || (k1[0] == k2[0] && KeyLe(k1[1..], k2[1..]))))
  }

  lemma AtomLeTotal(a: Atom, b: Atom)
    ensures AtomLe(a, b) || AtomLe(b, a)
  {
    if a.Txt? && b.Txt? {
      Text.TextLeTotal(a.text, b.text);
    }
  }

  lemma AtomLeAntisymmetric(a: Atom, b: Atom)
    ensures AtomLe(a, b) && AtomLe(b, a) ==> a == b
  {
    if a.Txt? && b.Txt? {
      Text.TextLeAntisymmetric(a.text, b.text);
    }
  }

  lemma AtomLeTransitive(a: Atom, b: Atom, c: Atom)
    ensures AtomLe(a, b) && AtomLe(b, c) ==> AtomLe(a, c)
  {
    if a.Txt? && b.Txt? && c.Txt? {
      Text.TextLeTransitive(a.text, b.text, c.text);
    }
  }

  /** Any two keys are comparable, so every sequence has a sorted order. */
  lemma {:induction false} KeyLeTotal(k1: SortKey, k2: SortKey)
    ensures KeyLe(k1, k2) || KeyLe(k2, k1)
    decreases |k1|
  {
    if |k1| > 0 && |k2| > 0 {
      if k1[0] == k2[0] {
        KeyLeTotal(k1[1..], k2[1..]);
      } else {
        AtomLeTotal(k1[0], k2[0]);
      }
    }
  }

  /** Key comparison is transitive, so sortedness of neighbours carries over. */
  lemma {:induction false} KeyLeTransitive(k1: SortKey, k2: SortKey, k3: SortKey)
    ensures KeyLe(k1, k2) && KeyLe(k2, k3) ==> KeyLe(k1, k3)
    decreases |k1|
  {
    if |k1| > 0 && |k2| > 0 && |k3| > 0 && KeyLe(k1, k2) && KeyLe(k2, k3) {
      AtomLeTransitive(k1[0], k2[0], k3[0]);
      AtomLeAntisymmetric(k1[0], k2[0]);
      AtomLeAntisymmetric(k2[0], k3[0]);
      AtomLeAntisymmetric(k1[0], k3[0]);
      KeyLeTransitive(k1[1..], k2[1..], k3[1..]);
    }
  }

  /** Every earlier element's key is at most every later element's key. */
  predicate SortedBy<T>(s: seq<T>, key: T -> SortKey) {
    forall i, j | 0 <= i < j < |s| :: KeyLe(key(s[i]), key(s[j]))
  }

  /** Places `x` before the first element whose key is not below it. */
  function Insert<T>(x: T, s: seq<T>, key: T -> SortKey): (r: seq<T>)
    ensures multiset(r) == multiset(s) + multiset{x}
    ensures SortedBy(s, key) ==> SortedBy(r, key)
    decreases |s|
  {
    if |s| == 0 then [x]
    else if KeyLe(key(x), key(s[0])) then
      InsertFrontSorted(x, s, key);
      [x] + s
    else
      var rest := Insert(x, s[1..], key);
      assert s == [s[0]] + s[1..];
      InsertBehindSorted(x, s, rest, key);
      [s[0]] + rest
  }

  lemma InsertFrontSorted<T>(x: T, s: seq<T>, key: T -> SortKey)
    requires |s| > 0 && KeyLe(key(x), key(s[0]))
    ensures SortedBy(s, key) ==> SortedBy([x] + s, key)
  {
    if SortedBy(s, key) {
      var r := [x] + s;
      forall i, j | 0 <= i < j < |r|
        ensures KeyLe(key(r[i]), key(r[j]))
      {
        if i == 0 && j > 1 {
          KeyLeTransitive(key(x), key(s[0]), key(s[j - 1]));
        }
      }
    }
  }

  lemma InsertBehindSorted<T>(x: T, s: seq<T>, rest: seq<T>, key: T -> SortKey)
    requires |s| > 0 && !KeyLe(key(x), key(s[0]))
    requires multiset(rest) == multiset(s[1..]) + multiset{x}
    requires SortedBy(s[1..], key) ==> SortedBy(rest, key)
    ensures SortedBy(s, key) ==> SortedBy([s[0]] + rest, key)
  {
    if SortedBy(s, key) {
      KeyLeTotal(key(x), key(s[0]));
      var r := [s[0]] + rest;
      forall j | 1 <= j < |r|
        ensures KeyLe(key(s[0]), key(r[j]))
      {
        var y := r[j];
        assert y in multiset(rest);
        if y != x {
          assert y in multiset(s[1..]);
          var k :| 0 <= k < |s[1..]| && s[1..][k] == y;
          assert s[k + 1] == y;
        }
      }
      forall i, j | 0 <= i < j < |r|
        ensures KeyLe(key(r[i]), key(r[j]))
      {
        if i > 0 {
          assert r[i] == rest[i - 1] && r[j] == rest[j - 1];
        }
      }
    }
  }

  /** A sorted permutation of `s`. */
  function SortBy<T>(s: seq<T>, key: T -> SortKey): (r: seq<T>)
    ensures multiset(r) == multiset(s)
    ensures SortedBy(r, key)
    decreases |s|
  {
    if |s| == 0 then []
    else
      assert s == [s[0]] + s[1..];
      Insert(s[0], SortBy(s[1..], key), key)
  }
}
