/** The key/value backend: named tables of byte blobs, changed in transactions. */
module Storage {
  import opened Options

  newtype byte = x: int | 0 <= x < 256
  type Bytes = seq<byte>
  newtype Key = k: int | 0 <= k < 0x1_0000_0000_0000_0000_0000_0000_0000_0000
  type Table = map<Key, Bytes>
  type Entry = (Key, Bytes)

  const TWO_64: Key := 0x1_0000_0000_0000_0000

  datatype StorageError = KeyExists(low: Key) | KeyNotFound(low: Key) | TableNotFound

  /** Upserting entries one by one. */
  function Upserts(t: Table, data: seq<Entry>): Table {
    if data == [] then t else Upserts(t, data[..|data| - 1])[data[|data| - 1].0 := data[|data| - 1].1]
  }

  /** The last value given for each key, as collecting into a hash map keeps it. */
  function LastValues(data: seq<Entry>): Table {
    Upserts(map[], data)
  }

  ghost predicate NamesKey(data: seq<Entry>, key: Key) {
    exists i :: 0 <= i < |data| && data[i].0 == key
  }

  lemma UpsertsSnoc(t: Table, data: seq<Entry>, e: Entry)
    ensures Upserts(t, data + [e]) == Upserts(t, data)[e.0 := e.1]
  {
    assert (data + [e])[..|data|] == data;
  }

  /** Entry `i` is the last one for its key. */
  ghost predicate LastFor(data: seq<Entry>, i: nat, key: Key) {
    i < |data| && data[i].0 == key && forall j :: i < j < |data| ==> data[j].0 != key
  }

  /** What upserting a list amounts to at one key: the last entry for it, else what was there. */
  lemma {:induction false} UpsertsAt(t: Table, data: seq<Entry>, key: Key)
    ensures NamesKey(data, key) ==>
              key in Upserts(t, data) && exists i: nat :: LastFor(data, i, key) && Upserts(t, data)[key] == data[i].1
    ensures !NamesKey(data, key) ==>
              (key in Upserts(t, data) <==> key in t) && (key in t ==> Upserts(t, data)[key] == t[key])
  {
    if data != [] {
      var pre, e := data[..|data| - 1], data[|data| - 1];
      UpsertsAt(t, pre, key);
      if e.0 == key {
        assert LastFor(data, |data| - 1, key);
      } else if NamesKey(pre, key) {
        var i: nat :| LastFor(pre, i, key) && Upserts(t, pre)[key] == pre[i].1;
        assert LastFor(data, i, key) && data[i] == pre[i];
      } else {
        assert forall i :: 0 <= i < |pre| ==> data[i] == pre[i];
      }
    }
  }

  /** Upserting one by one and merging in the last values in one go give the same table. */
  lemma {:induction false} UpsertsMerge(t: Table, data: seq<Entry>)
    ensures Upserts(t, data) == t + LastValues(data)
  {
    if data != [] {
      UpsertsMerge(t, data[..|data| - 1]);
    }
  }

  /** The order of entries with distinct keys does not matter. */
  lemma UpsertsOrder(t: Table, a: seq<Entry>, b: seq<Entry>)
    requires DistinctKeys(a) && DistinctKeys(b)
    requires forall e :: e in a <==> e in b
    ensures Upserts(t, a) == Upserts(t, b)
  {
    forall key: Key
      ensures key in Upserts(t, a) <==> key in Upserts(t, b)
      ensures key in Upserts(t, a) ==> Upserts(t, a)[key] == Upserts(t, b)[key]
    {
      hide Upserts, DistinctKeys;
      UpsertsOrderAt(t, a, b, key);
    }
  }

  lemma UpsertsOrderAt(t: Table, a: seq<Entry>, b: seq<Entry>, key: Key)
    requires DistinctKeys(a) && DistinctKeys(b)
    requires forall e :: e in a <==> e in b
    ensures key in Upserts(t, a) <==> key in Upserts(t, b)
    ensures key in Upserts(t, a) ==> Upserts(t, a)[key] == Upserts(t, b)[key]
  {
    hide Upserts;
    UpsertsAt(t, a, key);
    UpsertsAt(t, b, key);
    SameNames(a, b, key);
    SameNames(b, a, key);
    if NamesKey(a, key) {
      var i: nat :| LastFor(a, i, key) && Upserts(t, a)[key] == a[i].1;
      assert a[i] in a && a[i] in b;
    }
  }

  lemma SameNames(a: seq<Entry>, b: seq<Entry>, key: Key)
    requires forall e :: e in a ==> e in b
    ensures NamesKey(a, key) ==> NamesKey(b, key)
  {
    if NamesKey(a, key) {
      var i :| 0 <= i < |a| && a[i].0 == key;
      assert a[i] in a;
    }
  }

  ghost predicate DistinctKeys(data: seq<Entry>) {
    forall i, j :: 0 <= i < j < |data| ==> data[i].0 != data[j].0
  }

  predicate Ascending(keys: seq<Key>) {
    forall i, j :: 0 <= i < j < |keys| ==> keys[i] < keys[j]
  }

  function KeysOf(keys: seq<Key>): set<Key> {
    set k | k in keys
  }

  /** The part of `values` under the given keys, added to `t`. */
  ghost function Merged(t: Table, values: Table, keys: set<Key>): Table
    requires keys <= values.Keys
  {
    t + map k | k in keys :: values[k]
  }

  lemma MergedAll(t: Table, values: Table)
    ensures Merged(t, values, values.Keys) == t + values
  {
  }

  method CollectMap(data: seq<Entry>) returns (values: Table)
    ensures values == LastValues(data)
  {
    values := map[];
    for i := 0 to |data|
      invariant values == LastValues(data[..i])
    {
      assert data[..i + 1] == data[..i] + [data[i]];
      UpsertsSnoc(map[], data[..i], data[i]);
      values := values[data[i].0 := data[i].1];
    }
    assert data[..|data|] == data;
  }

  /** The keys in ascending order. */
  method SortKeys(keys: set<Key>) returns (sorted: seq<Key>)
    ensures Ascending(sorted) && KeysOf(sorted) == keys
  {
    sorted := [];
    var left := keys;
    while left != {}
      invariant Ascending(sorted) && left !! KeysOf(sorted) && left + KeysOf(sorted) == keys
      invariant forall k, l :: k in sorted && l in left ==> k < l
      decreases left
    {
      var k := Least(left);
      assert KeysOf(sorted + [k]) == KeysOf(sorted) + {k};
      assert forall i :: 0 <= i < |sorted| ==> sorted[i] in sorted && k in left;
      sorted, left := sorted + [k], left - {k};
    }
  }

  method Least(keys: set<Key>) returns (least: Key)
    requires keys != {}
    ensures least in keys && forall k :: k in keys ==> least <= k
  {
    least :| least in keys;
    var rest := keys - {least};
    while rest != {}
      invariant rest <= keys && least in keys
      invariant forall k :: k in keys && k !in rest ==> least <= k
      decreases rest
    {
      var k :| k in rest;
      if k < least {
        least := k;
      }
      rest := rest - {k};
    }
  }

  /** The table after putting the entries of the first `i` keys. */
  ghost function Put(t: Table, keymap: Table, keys: seq<Key>, i: nat): Table
    requires i <= |keys| && KeysOf(keys) == keymap.Keys
  {
    KeysSoFar(keys, i);
    Merged(t, keymap, KeysOf(keys[..i]))
  }

  lemma KeysSoFar(keys: seq<Key>, i: nat)
    requires i <= |keys|
    ensures KeysOf(keys[..i]) <= KeysOf(keys)
  {
  }

  lemma PutNone(t: Table, keymap: Table, keys: seq<Key>)
    requires KeysOf(keys) == keymap.Keys
    ensures Put(t, keymap, keys, 0) == t
  {
  }

  lemma PutStep(t: Table, keymap: Table, keys: seq<Key>, i: nat)
    requires i < |keys| && KeysOf(keys) == keymap.Keys
    ensures keys[i] in keymap
    ensures Put(t, keymap, keys, i + 1) == Put(t, keymap, keys, i)[keys[i] := keymap[keys[i]]]
  {
    KeysSoFar(keys, i);
    assert keys[i] in KeysOf(keys);
    assert KeysOf(keys[..i + 1]) == KeysOf(keys[..i]) + {keys[i]};
    hide KeysOf;
  }

  lemma PutEverything(t: Table, keymap: Table, keys: seq<Key>)
    requires KeysOf(keys) == keymap.Keys
    ensures Put(t, keymap, keys, |keys|) == t + keymap
  {
    assert keys[..|keys|] == keys;
    hide KeysOf;
    MergedAll(t, keymap);
  }

  /** A key not put yet is there only if it was there before. */
  lemma NotYetPut(t: Table, keymap: Table, keys: seq<Key>, i: nat)
    requires i < |keys| && KeysOf(keys) == keymap.Keys && Ascending(keys)
    ensures keys[i] in Put(t, keymap, keys, i) <==> keys[i] in t
  {
    assert keys[i] !in KeysOf(keys[..i]);
    hide KeysOf, Ascending;
  }

  /** Puts the entries of `keymap` one by one, in the order of the keys. */
  method PutAll(t: Table, keymap: Table, keys: seq<Key>) returns (txn: Table)
    requires KeysOf(keys) == keymap.Keys
    ensures txn == t + keymap
  {
    hide KeysOf, Put;
    txn := t;
    PutNone(t, keymap, keys);
    for i := 0 to |keys|
      invariant txn == Put(t, keymap, keys, i)
    {
      PutStep(t, keymap, keys, i);
      txn := txn[keys[i] := keymap[keys[i]]];
    }
    PutEverything(t, keymap, keys);
  }

  /** As `PutAll`, but stops at the first key that is taken. */
  method PutNew(t: Table, keymap: Table, keys: seq<Key>) returns (txn: Table, clash: nat)
    requires KeysOf(keys) == keymap.Keys && Ascending(keys)
    ensures clash <= |keys| && (forall j :: 0 <= j < clash ==> keys[j] !in t)
    ensures clash < |keys| ==> keys[clash] in t
    ensures clash == |keys| ==> keymap.Keys !! t.Keys && txn == t + keymap
  {
    hide KeysOf, Put, Ascending;
    txn := t;
    PutNone(t, keymap, keys);
    for i := 0 to |keys|
      invariant txn == Put(t, keymap, keys, i)
      invariant forall j :: 0 <= j < i ==> keys[j] !in t
    {
      PutStep(t, keymap, keys, i);
      NotYetPut(t, keymap, keys, i);
      if keys[i] in txn {
        return txn, i;
      }
      txn := txn[keys[i] := keymap[keys[i]]];
    }
    clash := |keys|;
    PutEverything(t, keymap, keys);
    NoneTaken(t, keymap, keys);
  }

  lemma NoneTaken(t: Table, keymap: Table, keys: seq<Key>)
    requires KeysOf(keys) == keymap.Keys && forall j :: 0 <= j < |keys| ==> keys[j] !in t
    ensures keymap.Keys !! t.Keys
  {
    assert forall k :: k in KeysOf(keys) ==> k !in t;
  }

  type Tables = map<string, Table>

  /** The table by that name, created empty if it is missing. */
  function Created(tables: Tables, table: string): Tables {
    if table in tables then tables else tables[table := map[]]
  }

  function Contents(tables: Tables, table: string): Table {
    if table in tables then tables[table] else map[]
  }

  /** Some key of the entries is taken in the table. */
  ghost predicate Taken(t: Table, data: seq<Entry>) {
    exists i :: 0 <= i < |data| && data[i].0 in t
  }

  lemma TakenIsShared(t: Table, data: seq<Entry>)
    ensures Taken(t, data) <==> !(LastValues(data).Keys !! t.Keys)
  {
    if Taken(t, data) {
      var i :| 0 <= i < |data| && data[i].0 in t;
      UpsertsAt(map[], data, data[i].0);
      assert data[i].0 in LastValues(data).Keys && data[i].0 in t.Keys;
    } else {
      forall k | k in LastValues(data).Keys
        ensures k !in t.Keys
      {
        UpsertsAt(map[], data, k);
      }
    }
  }

  class LmdbBackend {
    /** The environment: what every transaction sees once committed. */
    var tables: Tables
    /** Tables whose handle has been opened. */
    var handles: set<string>

    ghost predicate Valid()
      reads this
    {
      handles <= tables.Keys
    }

    /** Opens an environment, possibly one written by an earlier process; no handle is open yet. */
    constructor (stored: Tables)
      ensures Valid() && tables == stored
    {
      tables, handles := stored, {};
    }

    method OpenTable(table: string) returns (found: bool)
      requires Valid()
      modifies this`handles
      ensures Valid() && found == (table in tables)
    {
      if table in handles {
        return true;
      }
      found := table in tables;
      if found {
        handles := handles + {table};
      }
    }

    method OpenOrCreateTable(table: string)
      requires Valid()
      modifies this
      ensures Valid() && tables == Created(old(tables), table)
    {
      if table !in handles {
        if table !in tables {
          tables := tables[table := map[]];
        }
        handles := handles + {table};
      }
    }

    method Insert(table: string, key: Key, value: Bytes) returns (r: Result<(), StorageError>)
      requires Valid()
      modifies this
      ensures Valid()
      ensures var t := Contents(old(tables), table);
              if key in t then r == Err(KeyExists(key % TWO_64)) && tables == old(tables)
              else r == Ok(()) && tables == old(tables)[table := t[key := value]]
    {
      OpenOrCreateTable(table);
      var txn := tables[table];
      if key in txn {
        return Err(KeyExists(key % TWO_64));
      }
      txn := txn[key := value];
      tables := tables[table := txn];
      r := Ok(());
    }

    method Get(table: string, key: Key) returns (r: Result<Option<Bytes>, StorageError>)
      requires Valid()
      modifies this`handles
      ensures Valid() && (r.Err? <==> table !in tables) && (r.Err? ==> r.error == TableNotFound)
      ensures table in tables ==>
                r == Ok(if key in tables[table] then Some(tables[table][key]) else None)
    {
      var found := OpenTable(table);
      if !found {
        return Err(TableNotFound);
      }
      r := Ok(if key in tables[table] then Some(tables[table][key]) else None);
    }

    method Delete(table: string, key: Key) returns (r: Result<(), StorageError>)
      requires Valid()
      modifies this
      ensures Valid()
      ensures if table !in old(tables) then r == Err(TableNotFound) && tables == old(tables)
              else if key !in old(tables)[table] then r == Err(KeyNotFound(key % TWO_64)) && tables == old(tables)
              else r == Ok(()) && tables == old(tables)[table := old(tables)[table] - {key}]
    {
      var found := OpenTable(table);
      if !found {
        return Err(TableNotFound);
      }
      var txn := tables[table];
      if key !in txn {
        return Err(KeyNotFound(key % TWO_64));
      }
      txn := txn - {key};
      tables := tables[table := txn];
      r := Ok(());
    }

    method Update(table: string, key: Key, value: Bytes) returns (r: Result<(), StorageError>)
      requires Valid()
      modifies this
      ensures Valid()
      ensures if table !in old(tables) then r == Err(TableNotFound) && tables == old(tables)
              else if key !in old(tables)[table] then r == Err(KeyNotFound(key % TWO_64)) && tables == old(tables)
              else r == Ok(()) && tables == old(tables)[table := old(tables)[table][key := value]]
    {
      var found := OpenTable(table);
      if !found {
        return Err(TableNotFound);
      }
      var txn := tables[table];
      if key !in txn {
        return Err(KeyNotFound(key % TWO_64));
      }
      txn := txn[key := value];
      tables := tables[table := txn];
      r := Ok(());
    }

    method Upsert(table: string, key: Key, value: Bytes) returns (r: Result<bool, StorageError>)
      requires Valid()
      modifies this
      ensures Valid()
      ensures if table !in old(tables) then r == Err(TableNotFound) && tables == old(tables)
              else r == Ok(true) && tables == old(tables)[table := old(tables)[table][key := value]]
    {
      var found := OpenTable(table);
      if !found {
        return Err(TableNotFound);
      }
      var txn := tables[table];
      txn := txn[key := value];
      tables := tables[table := txn];
      r := Ok(true);
    }

    /** Writes all entries in one transaction, in key order: the same table as upserting them one by one in the
        order given, duplicates included. */
    method BatchUpsert(table: string, data: seq<Entry>) returns (r: Result<(), StorageError>)
      requires Valid()
      modifies this
      ensures Valid() && r == Ok(())
      ensures tables == old(tables)[table := Upserts(Contents(old(tables), table), data)]
    {
      OpenOrCreateTable(table);
      var keymap := CollectMap(data);
      var sortedKeys := SortKeys(keymap.Keys);
      var txn := PutAll(tables[table], keymap, sortedKeys);
      UpsertsMerge(tables[table], data);
      tables := tables[table := txn];
      r := Ok(());
    }

    /** As `BatchUpsert` when no key is taken; otherwise nothing is committed and the error names the least key
        that is taken. */
    method BatchInsert(table: string, data: seq<Entry>) returns (r: Result<(), StorageError>)
      requires Valid()
      modifies this
      ensures Valid()
      ensures var t := Contents(old(tables), table);
              if Taken(t, data)
              then tables == old(tables) && exists k :: LeastTaken(t, data, k) && r == Err(KeyExists(k % TWO_64))
              else r == Ok(()) && tables == old(tables)[table := Upserts(t, data)]
    {
      OpenOrCreateTable(table);
      var keymap := CollectMap(data);
      var sortedKeys := SortKeys(keymap.Keys);
      TakenIsShared(tables[table], data);
      var txn, clash := PutNew(tables[table], keymap, sortedKeys);
      if clash < |sortedKeys| {
        FirstTaken(tables[table], data, sortedKeys, clash);
        return Err(KeyExists(sortedKeys[clash] % TWO_64));
      }
      UpsertsMerge(tables[table], data);
      tables := tables[table := txn];
      r := Ok(());
    }

    method Exists(table: string, key: Key) returns (r: Result<bool, StorageError>)
      requires Valid()
      modifies this`handles
      ensures Valid()
      ensures r == if table in tables then Ok(key in tables[table]) else Err(TableNotFound)
    {
      var found := OpenTable(table);
      if !found {
        return Err(TableNotFound);
      }
      r := Ok(key in tables[table]);
    }

    method TableExists(table: string) returns (r: bool)
      requires Valid()
      modifies this`handles
      ensures Valid() && r == (table in tables)
    {
      r := OpenTable(table);
    }

    method BatchGet(table: string, keys: seq<Key>) returns (r: Result<seq<Option<Bytes>>, StorageError>)
      requires Valid()
      modifies this`handles
      ensures Valid() && (r.Err? <==> table !in tables) && (r.Err? ==> r.error == TableNotFound)
      ensures r.Ok? ==> |r.value| == |keys| && forall i :: 0 <= i < |keys| ==>
                r.value[i] == if keys[i] in tables[table] then Some(tables[table][keys[i]]) else None
    {
      var found := OpenTable(table);
      if !found {
        return Err(TableNotFound);
      }
      var txn := tables[table];
      var values: seq<Option<Bytes>> := [];
      for i := 0 to |keys|
        invariant |values| == i
        invariant forall j :: 0 <= j < i ==>
          values[j] == if keys[j] in tables[table] then Some(tables[table][keys[j]]) else None
      {
        values := values + [if keys[i] in txn then Some(txn[keys[i]]) else None];
      }
      r := Ok(values);
    }

    method CreateTable(table: string)
      requires Valid()
      modifies this
      ensures Valid() && tables == Created(old(tables), table)
    {
      OpenOrCreateTable(table);
    }
  }

  /** `k` is the least key of the entries that is taken. */
  ghost predicate LeastTaken(t: Table, data: seq<Entry>, k: Key) {
    k in t && NamesKey(data, k) && forall l :: l in t && NamesKey(data, l) ==> k <= l
  }

  lemma FirstTaken(t: Table, data: seq<Entry>, keys: seq<Key>, i: nat)
    requires Ascending(keys) && KeysOf(keys) == LastValues(data).Keys && i < |keys| && keys[i] in t
    requires forall j :: 0 <= j < i ==> keys[j] !in t
    ensures Taken(t, data) && LeastTaken(t, data, keys[i])
  {
    assert keys[i] in KeysOf(keys);
    UpsertsAt(map[], data, keys[i]);
    forall l | l in t && NamesKey(data, l)
      ensures keys[i] <= l
    {
      UpsertsAt(map[], data, l);
      assert l in KeysOf(keys);
      var j :| 0 <= j < |keys| && keys[j] == l;
      assert i <= j;
    }
  }

  /** Inserting one by one fails on a repeated key, inserting the batch keeps the last value: the two agree on
      every list without repeated keys. */
  function Inserts(t: Table, data: seq<Entry>): Option<Table> {
    if data == [] then Some(t)
    else
      var pre, e := Inserts(t, data[..|data| - 1]), data[|data| - 1];
      if pre.None? || e.0 in pre.value then None else Some(pre.value[e.0 := e.1])
  }

  lemma TakenSnoc(t: Table, pre: seq<Entry>, e: Entry)
    ensures Taken(t, pre + [e]) <==> Taken(t, pre) || e.0 in t
  {
    var data := pre + [e];
    assert forall i :: 0 <= i < |pre| ==> data[i] == pre[i];
    assert data[|pre|] == e;
  }

  lemma DistinctSnoc(pre: seq<Entry>, e: Entry)
    ensures DistinctKeys(pre + [e]) <==> DistinctKeys(pre) && !NamesKey(pre, e.0)
  {
    var data := pre + [e];
    assert forall i :: 0 <= i < |pre| ==> data[i] == pre[i];
    assert data[|pre|] == e;
  }

  /** A key is in the table after upserting if it was there before or an entry names it. */
  lemma UpsertedKeys(t: Table, data: seq<Entry>, key: Key)
    ensures key in Upserts(t, data) <==> NamesKey(data, key) || key in t
  {
    UpsertsAt(t, data, key);
  }

  /** Inserting one by one succeeds exactly when no key is taken and none is repeated, and then it gives the
      table of the batch. */
  lemma {:induction false} InsertsExactly(t: Table, data: seq<Entry>)
    ensures Inserts(t, data).Some? <==> !Taken(t, data) && DistinctKeys(data)
    ensures Inserts(t, data).Some? ==> Inserts(t, data) == Some(Upserts(t, data))
  {
    if data != [] {
      var pre, e := data[..|data| - 1], data[|data| - 1];
      assert data == pre + [e];
      InsertsExactly(t, pre);
      UpsertedKeys(t, pre, e.0);
      TakenSnoc(t, pre, e);
      DistinctSnoc(pre, e);
      hide Taken, DistinctKeys, NamesKey;
    }
  }
}
