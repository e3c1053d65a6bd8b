/** Grouping a list by a key, keeping the order in which keys first appear. */
module Grouping {

  function Members<E, K(==)>(entries: seq<E>, key: E -> K, k: K): seq<E> {
    if entries == [] then []
    else
      var n := |entries| - 1;
      Members(entries[..n], key, k) + if key(entries[n]) == k then [entries[n]] else []
  }

  /** The keys in order of first appearance. */
  function Order<E, K(==)>(entries: seq<E>, key: E -> K): seq<K> {
    if entries == [] then []
    else
      var n := |entries| - 1;
      var before, k := Order(entries[..n], key), key(entries[n]);
      if k in before then before else before + [k]
  }

  lemma {:induction false} OrderIsDistinct<E, K>(entries: seq<E>, key: E -> K)
    ensures forall i, j :: 0 <= i < j < |Order(entries, key)| ==> Order(entries, key)[i] != Order(entries, key)[j]
    ensures forall k :: k in Order(entries, key) <==> exists e :: e in entries && key(e) == k
  {
    if entries != [] {
      var n := |entries| - 1;
      OrderIsDistinct(entries[..n], key);
      assert entries == entries[..n] + [entries[n]];
    }
  }

  lemma {:induction false} MembersAre<E, K>(entries: seq<E>, key: E -> K, k: K)
    ensures forall e :: e in Members(entries, key, k) <==> e in entries && key(e) == k
  {
    if entries != [] {
      var n := |entries| - 1;
      MembersAre(entries[..n], key, k);
      assert entries == entries[..n] + [entries[n]];
    }
  }

  lemma {:induction false} GroupsAreKept<E, K>(entries: seq<E>, key: E -> K, k: K)
    ensures Members(entries, key, k) != [] <==> k in Order(entries, key)
  {
    if entries != [] {
      GroupsAreKept(entries[..|entries| - 1], key, k);
    }
  }

  /** Every entry is in one group, and in no other. */
  lemma OneGroup<E, K(!new)>(entries: seq<E>, key: E -> K, e: E) returns (i: nat)
    requires e in entries
    ensures i < |Order(entries, key)| && e in Members(entries, key, Order(entries, key)[i])
    ensures forall j :: 0 <= j < |Order(entries, key)| && j != i ==> e !in Members(entries, key, Order(entries, key)[j])
  {
    var keys := Order(entries, key);
    OrderIsDistinct(entries, key);
    assert key(e) in keys;
    i :| 0 <= i < |keys| && keys[i] == key(e);
    MembersAre(entries, key, keys[i]);
    forall j | 0 <= j < |keys| && j != i
      ensures e !in Members(entries, key, keys[j])
    {
      MembersAre(entries, key, keys[j]);
    }
  }

  /** All groups one after the other. */
  function Concat<E, K(==)>(entries: seq<E>, key: E -> K, keys: seq<K>): seq<E> {
    if keys == [] then [] else Members(entries, key, keys[0]) + Concat(entries, key, keys[1..])
  }

  /** The groups partition the directory: together they are the entries, each as often as it occurs. */
  lemma {:induction false} GroupsPartition<E, K>(entries: seq<E>, key: E -> K)
    ensures multiset(Concat(entries, key, Order(entries, key))) == multiset(entries)
  {
    if entries == [] {
    } else {
      var n := |entries| - 1;
      var before, e, keys := entries[..n], entries[n], Order(entries[..n], key);
      GroupsPartition(before, key);
      OrderIsDistinct(before, key);
      assert entries == before + [e];
      var k := key(e);
      if k in keys {
        OneMore(entries, key, keys);
      } else {
        Unmoved(entries, key, keys);
        ConcatLast(entries, key, keys, k);
        GroupsAreKept(before, key, k);
        assert Members(entries, key, k) == [e];
      }
    }
  }

  lemma {:induction false} ConcatLast<E, K>(entries: seq<E>, key: E -> K, keys: seq<K>, k: K)
    ensures Concat(entries, key, keys + [k]) == Concat(entries, key, keys) + Members(entries, key, k)
    decreases |keys|
  {
    if keys == [] {
      assert ([k])[1..] == [];
      assert keys + [k] == [k];
    } else {
      assert (keys + [k])[0] == keys[0] && (keys + [k])[1..] == keys[1..] + [k];
      ConcatLast(entries, key, keys[1..], k);
      var first, mid, last := Members(entries, key, keys[0]), Concat(entries, key, keys[1..]), Members(entries, key, k);
      assert first + (mid + last) == first + mid + last;
    }
  }

  lemma {:induction false} Unmoved<E, K>(entries: seq<E>, key: E -> K, keys: seq<K>)
    requires entries != [] && key(entries[|entries| - 1]) !in keys
    ensures Concat(entries, key, keys) == Concat(entries[..|entries| - 1], key, keys)
    decreases |keys|
  {
    if keys != [] { Unmoved(entries, key, keys[1..]); }
  }

  lemma {:induction false} OneMore<E, K>(entries: seq<E>, key: E -> K, keys: seq<K>)
    requires entries != [] && key(entries[|entries| - 1]) in keys
    requires forall i, j :: 0 <= i < j < |keys| ==> keys[i] != keys[j]
    ensures multiset(Concat(entries, key, keys))
         == multiset(Concat(entries[..|entries| - 1], key, keys)) + multiset{entries[|entries| - 1]}
    decreases |keys|
  {
    var k := key(entries[|entries| - 1]);
    if keys[0] == k {
      assert k !in keys[1..];
      Unmoved(entries, key, keys[1..]);
    } else {
      assert keys == [keys[0]] + keys[1..];
      OneMore(entries, key, keys[1..]);
    }
  }

  /** order lists the keys of the entries and groups holds their groups. */
  ghost predicate Grouped<E, K(!new)>(groups: map<K, seq<E>>, order: seq<K>, entries: seq<E>, key: E -> K) {
    && order == Order(entries, key)
    && (forall k :: k in groups <==> k in order)
    && (forall k :: k in groups ==> groups[k] == Members(entries, key, k) != [])
  }

  lemma MembersSnoc<E, K>(entries: seq<E>, key: E -> K, e: E, k: K)
    ensures Members(entries + [e], key, k) == Members(entries, key, k) + if key(e) == k then [e] else []
  {
    assert (entries + [e])[..|entries|] == entries;
  }

  lemma OrderSnoc<E, K>(entries: seq<E>, key: E -> K, e: E)
    ensures var before, k := Order(entries, key), key(e);
            Order(entries + [e], key) == if k in before then before else before + [k]
  {
    assert (entries + [e])[..|entries|] == entries;
  }

  lemma GroupedOneMore<E, K(!new)>(groups: map<K, seq<E>>, order: seq<K>, entries: seq<E>, key: E -> K, e: E)
    requires Grouped(groups, order, entries, key)
    ensures var k := key(e);
            Grouped(groups[k := (if k in groups then groups[k] else []) + [e]],
                    if k in groups then order else order + [k], entries + [e], key)
  {
    var k := key(e);
    OrderSnoc(entries, key, e);
    GroupsAreKept(entries, key, k);
    var groups' := groups[k := (if k in groups then groups[k] else []) + [e]];
    forall j | j in groups'
      ensures groups'[j] == Members(entries + [e], key, j) != []
    {
      MembersSnoc(entries, key, e, j);
    }
  }

  method GroupEntries<E, K(==, !new)>(entries: seq<E>, key: E -> K) returns (groups: map<K, seq<E>>, order: seq<K>)
    ensures Grouped(groups, order, entries, key)
  {
    groups, order := map[], [];
    for i := 0 to |entries|
      invariant Grouped(groups, order, entries[..i], key)
    {
      var k := key(entries[i]);
      GroupedOneMore(groups, order, entries[..i], key, entries[i]);
      assert entries[..i + 1] == entries[..i] + [entries[i]];
      if k !in groups {
        order := order + [k];
      }
      groups := groups[k := (if k in groups then groups[k] else []) + [entries[i]]];
    }
    assert entries[..|entries|] == entries;
  }
}
