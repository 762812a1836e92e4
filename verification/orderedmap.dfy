/** The bounded table both peer lists are: entries in order of first insertion, one for each address, updated in
    place (search/neighbors.c, server/registry.c). */
module OrderedMaps {
  import opened Addresses
  import opened Wrappers

  datatype Entry<V> = Entry(key: Addr, value: V)

  function Keys<V>(table: seq<Entry<V>>): (ks: seq<Addr>)
    ensures |ks| == |table| && forall i :: 0 <= i < |table| ==> ks[i] == table[i].key
  {
    seq(|table|, i requires 0 <= i < |table| => table[i].key)
  }

  /** The slot of a key, or the length of the table. */
  function Slot<V>(table: seq<Entry<V>>, key: Addr): (i: nat)
    ensures i <= |table|
    ensures i < |table| ==> table[i].key == key
    ensures forall j :: 0 <= j < i ==> table[j].key != key
  {
    if table == [] then 0
    else if table[0].key == key then 0
    else
      var i := Slot(table[1..], key);
      assert forall j :: 1 <= j < i + 1 ==> table[j] == table[1..][j - 1];
      i + 1
  }

  function Upsert<V>(table: seq<Entry<V>>, e: Entry<V>, capacity: nat): seq<Entry<V>> {
    var i := Slot(table, e.key);
    if i < |table| then table[i := e]
    else if |table| < capacity then table + [e]
    else table
  }

  function UpsertAll<V>(history: seq<Entry<V>>, capacity: nat): seq<Entry<V>> {
    if history == [] then []
    else Upsert(UpsertAll(history[..|history| - 1], capacity), history[|history| - 1], capacity)
  }

  ghost predicate NoDuplicates<T(!new)>(s: seq<T>) {
    forall i, j :: 0 <= i < j < |s| ==> s[i] != s[j]
  }

  // --- An independent account of what a history of insertions leaves behind ---

  /** The distinct keys of a history, in order of first appearance. */
  function Distinct(keys: seq<Addr>): seq<Addr> {
    if keys == [] then []
    else
      var earlier, last := Distinct(keys[..|keys| - 1]), keys[|keys| - 1];
      if last in earlier then earlier else earlier + [last]
  }

  function Latest<V>(history: seq<Entry<V>>, key: Addr): Option<V> {
    if history == [] then None
    else
      var last := history[|history| - 1];
      if last.key == key then Some(last.value) else Latest(history[..|history| - 1], key)
  }

  function Take<T>(s: seq<T>, n: nat): (t: seq<T>)
    ensures t <= s && |t| == if |s| <= n then |s| else n
  {
    if |s| <= n then s else s[..n]
  }

  lemma {:induction false} DistinctHasNoDuplicates(keys: seq<Addr>)
    ensures NoDuplicates(Distinct(keys))
    ensures forall k :: k in Distinct(keys) <==> k in keys
  {
    if keys != [] {
      var init, last := keys[..|keys| - 1], keys[|keys| - 1];
      DistinctHasNoDuplicates(init);
      assert keys == init + [last];
    }
  }

  lemma SlotOf<V>(table: seq<Entry<V>>, key: Addr)
    ensures Slot(table, key) < |table| <==> key in Keys(table)
  {
    var i := Slot(table, key);
    assert i < |table| ==> Keys(table)[i] == key;
    if key in Keys(table) {
      var j :| 0 <= j < |table| && Keys(table)[j] == key;
    }
  }

  lemma UpsertKeys<V>(table: seq<Entry<V>>, e: Entry<V>, capacity: nat)
    ensures Keys(Upsert(table, e, capacity))
         == if e.key in Keys(table) || |table| >= capacity then Keys(table) else Keys(table) + [e.key]
  {
    SlotOf(table, e.key);
  }

  lemma UpsertNoDuplicates<V>(table: seq<Entry<V>>, e: Entry<V>, capacity: nat)
    requires NoDuplicates(Keys(table)) && |table| <= capacity
    ensures NoDuplicates(Keys(Upsert(table, e, capacity))) && |Upsert(table, e, capacity)| <= capacity
  {
    UpsertKeys(table, e, capacity);
  }

  /** After any history the table holds the first `capacity` distinct keys, in order of first appearance and each
      once, every one with the value of its latest insertion. */
  lemma {:induction false} TableIsOrderedMap<V>(history: seq<Entry<V>>, capacity: nat)
    ensures Keys(UpsertAll(history, capacity)) == Take(Distinct(Keys(history)), capacity)
    ensures NoDuplicates(Keys(UpsertAll(history, capacity))) && |UpsertAll(history, capacity)| <= capacity
    ensures forall i :: 0 <= i < |UpsertAll(history, capacity)| ==>
      Latest(history, UpsertAll(history, capacity)[i].key) == Some(UpsertAll(history, capacity)[i].value)
  {
    DistinctHasNoDuplicates(Keys(history));
    if history != [] {
      var init, last := history[..|history| - 1], history[|history| - 1];
      TableIsOrderedMap(init, capacity);
      hide Upsert, Distinct, Latest, Keys, Take;
      UpsertNoDuplicates(UpsertAll(init, capacity), last, capacity);
      assert history == init + [last];
      KeysOfTable(history, init, last, capacity);
      ValuesOfTable(UpsertAll(init, capacity), init, history, last, capacity);
    }
  }

  lemma KeysOfTable<V>(history: seq<Entry<V>>, init: seq<Entry<V>>, last: Entry<V>, capacity: nat)
    requires history == init + [last]
    requires Keys(UpsertAll(init, capacity)) == Take(Distinct(Keys(init)), capacity)
    ensures Keys(UpsertAll(history, capacity)) == Take(Distinct(Keys(history)), capacity)
  {
    assert history[..|history| - 1] == init && Keys(history)[..|history| - 1] == Keys(init);
    var table, before := UpsertAll(init, capacity), Distinct(Keys(init));
    UpsertKeys(table, last, capacity);
    if last.key !in Keys(table) && |table| < capacity {
      assert Take(before, capacity) == before;
    } else if last.key in Keys(table) {
      assert last.key in before;
    }
  }

  lemma ValuesOfTable<V>(table: seq<Entry<V>>, init: seq<Entry<V>>, history: seq<Entry<V>>, last: Entry<V>, capacity: nat)
    requires history == init + [last]
    requires NoDuplicates(Keys(table)) && forall i :: 0 <= i < |table| ==> Latest(init, table[i].key) == Some(table[i].value)
    ensures forall i :: 0 <= i < |Upsert(table, last, capacity)| ==>
      Latest(history, Upsert(table, last, capacity)[i].key) == Some(Upsert(table, last, capacity)[i].value)
  {
    assert history[..|history| - 1] == init;
    var after := Upsert(table, last, capacity);
    forall i | 0 <= i < |after|
      ensures Latest(history, after[i].key) == Some(after[i].value)
    {
      if i < |table| && table[i].key != last.key {
        assert after[i] == table[i];
      }
      if i < |table| && table[i].key == last.key {
        var slot := Slot(table, last.key);
        assert slot <= i && Keys(table)[slot] == Keys(table)[i];
      }
    }
  }
}
