/** The parts of `std::collections::BTreeMap<u64, V>` that the measurement code
    relies on. The map is kept, as a B-tree keeps it, as its entries in
    ascending key order: `insert` overwrites the value under an existing key,
    and iteration walks the entries from the smallest key up. */
module OrderedMap {
  import opened Base

  /** The entries of a map, smallest key first. */
  type Entries<V> = seq<(nat, V)>

  predicate Sorted<V>(m: Entries<V>) {
    forall i, j :: 0 <= i < j < |m| ==> m[i].0 < m[j].0
  }

  /** `get`: the value stored under `k`. */
  function Get<V>(m: Entries<V>, k: nat): Option<V> {
    if m == [] then None
    else if m[0].0 == k then Some(m[0].1)
    else Get(m[1..], k)
  }

  /** `insert`: store `v` under `k`, replacing any value already there. */
  function Insert<V>(m: Entries<V>, k: nat, v: V): (r: Entries<V>)
    requires Sorted(m)
    ensures Sorted(r)
    ensures forall j :: Get(r, j) == if j == k then Some(v) else Get(m, j)
  {
    if m == [] then [(k, v)]
    else if m[0].0 == k then [(k, v)] + m[1..]
    else if k < m[0].0 then
      assert forall j :: j != m[0].0 && Get(m, j).Some? ==> m[0].0 < j by {
        forall j | j != m[0].0 && Get(m, j).Some? ensures m[0].0 < j {
          GetFindsEntry(m, j);
        }
      }
      [(k, v)] + m
    else
      var rest := Insert(m[1..], k, v);
      assert forall i :: 0 <= i < |rest| ==> m[0].0 < rest[i].0 by {
        forall i | 0 <= i < |rest| ensures m[0].0 < rest[i].0 {
          GetEntry(rest, i);
          if rest[i].0 != k {
            GetFindsEntry(m[1..], rest[i].0);
          }
        }
      }
      [m[0]] + rest
  }

  /** A value found under `k` is stored in an entry with key `k`. */
  lemma {:induction false} GetFindsEntry<V>(m: Entries<V>, k: nat)
    requires Get(m, k).Some?
    ensures exists i :: 0 <= i < |m| && m[i] == (k, Get(m, k).value)
  {
    if m[0].0 != k {
      GetFindsEntry(m[1..], k);
      var i :| 0 <= i < |m| - 1 && m[1..][i] == (k, Get(m, k).value);
      assert m[i + 1] == m[1..][i];
    }
  }

  /** In a sorted map every entry is what `get` finds under its key. */
  lemma {:induction false} GetEntry<V>(m: Entries<V>, i: nat)
    requires Sorted(m) && i < |m|
    ensures Get(m, m[i].0) == Some(m[i].1)
  {
    if i > 0 {
      GetEntry(m[1..], i - 1);
    }
  }

  /** The map left by inserting `entries` one after another into an empty
      map, as a loop of `insert` calls does. */
  function InsertAll<V>(entries: seq<(nat, V)>): (m: Entries<V>)
    ensures Sorted(m)
  {
    if entries == [] then []
    else
      var last := entries[|entries| - 1];
      Insert(InsertAll(entries[..|entries| - 1]), last.0, last.1)
  }

  /** The value of the last pair with key `k`, if any. */
  function LastWith<K(==), V>(entries: seq<(K, V)>, k: K): Option<V> {
    if entries == [] then None
    else if entries[|entries| - 1].0 == k then Some(entries[|entries| - 1].1)
    else LastWith(entries[..|entries| - 1], k)
  }

  /** `LastWith` finds a value exactly when some pair has key `k`. */
  lemma {:induction false} LastWithFinds<K, V>(entries: seq<(K, V)>, k: K)
    ensures LastWith(entries, k).Some? <==> exists i :: 0 <= i < |entries| && entries[i].0 == k
  {
    if entries != [] && entries[|entries| - 1].0 != k {
      var init := entries[..|entries| - 1];
      LastWithFinds(init, k);
      assert forall i :: 0 <= i < |init| ==> init[i] == entries[i];
    }
  }

  /** What `LastWith` finds is the value of a pair with key `k` after which
      no pair has key `k`. */
  lemma {:induction false} LastWithIsLast<K, V>(entries: seq<(K, V)>, k: K) returns (i: nat)
    requires LastWith(entries, k).Some?
    ensures i < |entries| && entries[i] == (k, LastWith(entries, k).value)
    ensures forall j :: i < j < |entries| ==> entries[j].0 != k
  {
    if entries[|entries| - 1].0 == k {
      i := |entries| - 1;
    } else {
      var init := entries[..|entries| - 1];
      i := LastWithIsLast(init, k);
      assert init[i] == entries[i];
    }
  }

  /** Inserting in order keeps, under every key, the value inserted last. */
  lemma {:induction false} InsertAllLastWins<V>(entries: seq<(nat, V)>, k: nat)
    ensures Get(InsertAll(entries), k) == LastWith(entries, k)
  {
    if entries != [] {
      InsertAllLastWins(entries[..|entries| - 1], k);
    }
  }

  /** Every inserted key is in the map (the converse is `EntryOrigin`). */
  lemma KeyInsertedIsInMap<V>(entries: seq<(nat, V)>, i: nat) returns (p: nat)
    requires i < |entries|
    ensures p < |InsertAll(entries)| && InsertAll(entries)[p].0 == entries[i].0
  {
    var m := InsertAll(entries);
    var k := entries[i].0;
    InsertAllLastWins(entries, k);
    LastWithFinds(entries, k);
    assert Get(m, k).Some?;
    GetFindsEntry(m, k);
    p :| 0 <= p < |m| && m[p] == (k, Get(m, k).value);
  }

  /** The keys of a map. */
  function KeySet<V>(m: Entries<V>): set<nat> {
    set i | 0 <= i < |m| :: m[i].0
  }

  /** A sorted map has as many entries as distinct keys. */
  lemma {:induction false} SortedSize<V>(m: Entries<V>)
    requires Sorted(m)
    ensures |KeySet(m)| == |m|
  {
    if m != [] {
      SortedSize(m[1..]);
      assert KeySet(m) == KeySet(m[1..]) + {m[0].0} by {
        forall k | k in KeySet(m) ensures k in KeySet(m[1..]) + {m[0].0} {
          var i :| 0 <= i < |m| && m[i].0 == k;
          if i > 0 { assert m[1..][i - 1].0 == k; }
        }
      }
      assert m[0].0 !in KeySet(m[1..]);
    }
  }

  /** Each entry of the map is the last pair inserted under its key. */
  lemma EntryOrigin<V>(entries: seq<(nat, V)>, p: nat) returns (idx: nat)
    requires p < |InsertAll(entries)|
    ensures idx < |entries| && entries[idx] == InsertAll(entries)[p]
    ensures forall j :: idx < j < |entries| ==> entries[j].0 != InsertAll(entries)[p].0
  {
    var m := InsertAll(entries);
    GetEntry(m, p);
    InsertAllLastWins(entries, m[p].0);
    idx := LastWithIsLast(entries, m[p].0);
  }

  /** The first entry has the least key of all pairs inserted: what
      `iter().next()` yields. */
  lemma FirstIsLeast<V>(entries: seq<(nat, V)>, i: nat)
    requires i < |entries|
    ensures |InsertAll(entries)| > 0
    ensures InsertAll(entries)[0].0 <= entries[i].0
  {
    var p := KeyInsertedIsInMap(entries, i);
  }
}
