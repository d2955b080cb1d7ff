/**
 One best entry per key: the dictionary that a loop builds when a strictly higher
 entry replaces the one it holds, and its values in the order of the keys.
 */
module BestPerKey {

  datatype Order<!E, K> = Order(key: E -> K, higher: (E, E) -> bool)

  function Better<E, K(==)>(o: Order<E, K>, best: map<K, E>, e: E): map<K, E> {
    if o.key(e) !in best || o.higher(e, best[o.key(e)]) then best[o.key(e) := e] else best
  }

  function Best<E, K(==)>(o: Order<E, K>, entries: seq<E>): map<K, E> {
    if entries == [] then map[]
    else Better(o, Best(o, entries[..|entries| - 1]), entries[|entries| - 1])
  }

  // Whether higher behaves on these entries as a strict total order within a key.
  ghost predicate Total<E(!new), K(!new)>(o: Order<E, K>, entries: seq<E>) {
    && (forall e :: e in entries ==> !o.higher(e, e))
    && (forall e, f :: e in entries && f in entries && o.key(e) == o.key(f) && e != f ==>
          o.higher(e, f) != o.higher(f, e))
    && (forall e, f, g :: e in entries && f in entries && g in entries && o.higher(e, f) && o.higher(f, g) ==>
          o.higher(e, g))
  }

  // For every key that occurs, an entry that no other exceeds.
  ghost predicate HoldsBest<E(!new), K(!new)>(o: Order<E, K>, entries: seq<E>, m: map<K, E>) {
    && (forall e :: e in entries ==> o.key(e) in m)
    && (forall k :: k in m ==> m[k] in entries && o.key(m[k]) == k)
    && (forall e :: e in entries ==> !o.higher(e, m[o.key(e)]))
  }

  lemma BetterHoldsBest<E(!new), K(!new)>(o: Order<E, K>, entries: seq<E>, m: map<K, E>, e: E)
    requires HoldsBest(o, entries, m) && Total(o, entries + [e])
    ensures HoldsBest(o, entries + [e], Better(o, m, e))
  {
    assert e in entries + [e] && forall f :: f in entries ==> f in entries + [e];
  }

  lemma {:induction false} BestHoldsBest<E(!new), K(!new)>(o: Order<E, K>, entries: seq<E>)
    requires Total(o, entries)
    ensures HoldsBest(o, entries, Best(o, entries))
  {
    if entries != [] {
      var n := |entries| - 1;
      assert entries == entries[..n] + [entries[n]];
      BestHoldsBest(o, entries[..n]);
      BetterHoldsBest(o, entries[..n], Best(o, entries[..n]), entries[n]);
    }
  }

  // The same entries in any order, repeated or not, have the same best ones.
  lemma BestIgnoresOrder<E(!new), K(!new)>(o: Order<E, K>, a: seq<E>, b: seq<E>)
    requires Total(o, a) && Total(o, b) && forall e :: e in a <==> e in b
    ensures Best(o, a) == Best(o, b)
  {
    BestHoldsBest(o, a);
    BestHoldsBest(o, b);
    var m, n := Best(o, a), Best(o, b);
    forall k | k in m
      ensures k in n && n[k] == m[k]
    {
      assert m[k] in b && n[k] in a;
      assert !o.higher(n[k], m[k]) && !o.higher(m[k], n[k]);
    }
    forall k | k in n
      ensures k in m
    {
      assert n[k] in a;
    }
  }

  // ------------------------------------------------------------ values in key order

  // least picks the first key of a set that is not empty.
  ghost predicate Picks<K(!new)>(least: set<K> -> K) {
    forall s: set<K> :: s != {} ==> least(s) in s
  }

  function Values<E, K(==)>(least: set<K> -> K, m: map<K, E>): seq<E> {
    if m == map[] || least(m.Keys) !in m then []
    else [m[least(m.Keys)]] + Values(least, m - {least(m.Keys)})
  }

  lemma {:induction false} ValuesElements<E(!new), K(!new)>(least: set<K> -> K, m: map<K, E>)
    requires Picks(least)
    ensures forall e :: e in Values(least, m) <==> exists k :: k in m && m[k] == e
  {
    if m != map[] {
      var first := least(m.Keys);
      var others := m - {first};
      ValuesElements(least, others);
      forall e
        ensures e in Values(least, m) <==> exists k :: k in m && m[k] == e
      {
        if k :| k in m && m[k] == e {
          if k != first {
            assert k in others && others[k] == e;
          }
        }
      }
    }
  }

  // Taking the best of the best again changes nothing.
  lemma BestOfValues<E(!new), K(!new)>(o: Order<E, K>, least: set<K> -> K, entries: seq<E>)
    requires Picks(least) && Total(o, entries)
    ensures Best(o, Values(least, Best(o, entries))) == Best(o, entries)
  {
    var m := Best(o, entries);
    BestHoldsBest(o, entries);
    ValuesElements(least, m);
    var once := Values(least, m);
    BestHoldsBest(o, once);
    var n := Best(o, once);
    forall k | k in m
      ensures k in n && n[k] == m[k]
    {
      assert m[k] in once;
      var j :| j in m && m[j] == n[k];
      assert j == k;
    }
    forall k | k in n
      ensures k in m
    {
      var j :| j in m && m[j] == n[k];
    }
    assert m == n;
  }

  // ------------------------------------------------------------ sorting first

  function Insert<E>(before: (E, E) -> bool, e: E, sorted: seq<E>): seq<E> {
    if sorted == [] || before(e, sorted[0]) then [e] + sorted else [sorted[0]] + Insert(before, e, sorted[1..])
  }

  function SortedBy<E>(before: (E, E) -> bool, entries: seq<E>): seq<E> {
    if entries == [] then [] else Insert(before, entries[0], SortedBy(before, entries[1..]))
  }

  lemma {:induction false} InsertElements<E>(before: (E, E) -> bool, e: E, sorted: seq<E>)
    ensures multiset(Insert(before, e, sorted)) == multiset(sorted) + multiset{e}
  {
    if sorted != [] && !before(e, sorted[0]) {
      InsertElements(before, e, sorted[1..]);
      assert sorted == [sorted[0]] + sorted[1..];
    }
  }

  lemma {:induction false} SortedElements<E>(before: (E, E) -> bool, entries: seq<E>)
    ensures multiset(SortedBy(before, entries)) == multiset(entries)
  {
    if entries != [] {
      SortedElements(before, entries[1..]);
      InsertElements(before, entries[0], SortedBy(before, entries[1..]));
      assert entries == [entries[0]] + entries[1..];
    }
  }

  // The order in which the loop meets the entries makes no difference.
  lemma BestOfSorted<E(!new), K(!new)>(o: Order<E, K>, before: (E, E) -> bool, entries: seq<E>)
    requires Total(o, entries)
    ensures Best(o, SortedBy(before, entries)) == Best(o, entries)
  {
    var sorted := SortedBy(before, entries);
    SortedElements(before, entries);
    forall e
      ensures e in sorted <==> e in entries
    {
      assert e in sorted <==> e in multiset(sorted);
      assert e in entries <==> e in multiset(entries);
    }
    BestIgnoresOrder(o, sorted, entries);
  }
}
