/** The chained hash table map_s of general.c (5-98). */
module HashMap {
  import opened PjwHash

  /** A `void *` value. */
  type Pointer = nat
  const NULL: Pointer := 0

  class Record {
    const key: Key
    const value: Pointer
    var next: Record?

    constructor (key: Key, value: Pointer)
      ensures this.key == key && this.value == value && next == null
    {
      this.key, this.value := key, value;
      next := null;
    }
  }

  /** The records of `chain` are linked in order and null-terminated. */
  ghost predicate Linked(chain: seq<Record>)
    reads chain
  {
    && (forall i, k :: 0 <= i && k == i + 1 < |chain| ==> chain[i].next == chain[k])
    && (chain != [] ==> chain[|chain| - 1].next == null)
  }

  ghost function First(chain: seq<Record>): Record? {
    if chain == [] then null else chain[0]
  }

  lemma NextLinked(chain: seq<Record>, i: nat)
    requires Linked(chain) && i < |chain|
    ensures chain[i].next == if i + 1 < |chain| then chain[i + 1] else null
  {
  }

  ghost predicate HasKey(chain: seq<Record>, key: Key) {
    exists i :: 0 <= i < |chain| && chain[i].key == key
  }

  /** A function from keys to buckets.  The chains are proved correct for every one
      that stays in range; the map_ operations below use pjw_hash. */
  type Hashing = imap<Key, int>

  ghost predicate InRange(hash: Hashing) {
    forall k: Key :: k in hash && 0 <= hash[k] < HASH_TABLE_SIZE
  }

  /** Every key lives in its own bucket, and only once. */
  ghost predicate Placed(hash: Hashing, b: int, chain: seq<Record>)
    requires InRange(hash)
  {
    && (forall i :: 0 <= i < |chain| ==> hash[chain[i].key] == b)
    && (forall i, k :: 0 <= i < k < |chain| ==> chain[i].key != chain[k].key)
  }

  /** The buckets and the finite map have the same keys with the same values. */
  ghost predicate Agrees(hash: Hashing, chains: seq<seq<Record>>, contents: map<Key, Pointer>)
    requires InRange(hash) && |chains| == HASH_TABLE_SIZE
  {
    && (forall k {:trigger HasKey(chains[hash[k]], k)} :: k in contents ==> HasKey(chains[hash[k]], k))
    && (forall b, i :: 0 <= b < HASH_TABLE_SIZE && 0 <= i < |chains[b]| ==>
          chains[b][i].key in contents && contents[chains[b][i].key] == chains[b][i].value)
  }

  ghost predicate AllPlaced(hash: Hashing, chains: seq<seq<Record>>)
    requires InRange(hash)
  {
    forall b :: 0 <= b < |chains| ==> Placed(hash, b, chains[b])
  }

  lemma AgreesAfterInsert(hash: Hashing, chains: seq<seq<Record>>, contents: map<Key, Pointer>, r: Record)
    requires InRange(hash) && |chains| == HASH_TABLE_SIZE && AllPlaced(hash, chains)
    requires Agrees(hash, chains, contents) && !HasKey(chains[hash[r.key]], r.key)
    ensures var b := hash[r.key];
      var chains' := chains[b := chains[b] + [r]];
      AllPlaced(hash, chains') && Agrees(hash, chains', contents[r.key := r.value])
  {
    var b := hash[r.key];
    var chains' := chains[b := chains[b] + [r]];
    var contents' := contents[r.key := r.value];
    forall k | k in contents'
      ensures HasKey(chains'[hash[k]], k)
    {
      if k == r.key {
        assert chains'[b][|chains[b]|].key == k;
      } else {
        assert HasKey(chains[hash[k]], k);
        var i :| 0 <= i < |chains[hash[k]]| && chains[hash[k]][i].key == k;
        assert chains'[hash[k]][i].key == k;
      }
    }
  }

  function Without<T>(s: seq<T>, i: nat): seq<T>
    requires i < |s|
  {
    s[..i] + s[i + 1..]
  }

  lemma PlacedAfterDelete(hash: Hashing, b: int, chain: seq<Record>, i: nat)
    requires InRange(hash) && Placed(hash, b, chain) && i < |chain|
    ensures Placed(hash, b, Without(chain, i))
    ensures forall k :: HasKey(Without(chain, i), k) <==> HasKey(chain, k) && k != chain[i].key
  {
    forall k | HasKey(chain, k) && k != chain[i].key
      ensures HasKey(Without(chain, i), k)
    {
      var n :| 0 <= n < |chain| && chain[n].key == k;
      assert Without(chain, i)[if n < i then n else n - 1] == chain[n];
    }
  }

  lemma AgreesAfterDelete(hash: Hashing, chains: seq<seq<Record>>, contents: map<Key, Pointer>, b: int, i: nat)
    requires InRange(hash) && |chains| == HASH_TABLE_SIZE && AllPlaced(hash, chains) && Agrees(hash, chains, contents)
    requires 0 <= b < HASH_TABLE_SIZE && i < |chains[b]|
    ensures var chains' := chains[b := Without(chains[b], i)];
      AllPlaced(hash, chains') && Agrees(hash, chains', contents - {chains[b][i].key})
  {
    PlacedAfterDelete(hash, b, chains[b], i);
    assert hash[chains[b][i].key] == b;
  }

  /** The heads in `table` start null-terminated lists of exactly these chains. */
  ghost predicate Shaped(table: array<Record?>, chains: seq<seq<Record>>, records: set<Record>)
    reads table, records
  {
    && table.Length == |chains| == HASH_TABLE_SIZE
    && (forall b, r :: 0 <= b < HASH_TABLE_SIZE && r in chains[b] ==> r in records)
    && (forall b :: 0 <= b < HASH_TABLE_SIZE ==> table[b] == First(chains[b]) && Linked(chains[b]))
  }

  /** No record of bucket b is in another bucket, or twice in its own. */
  ghost predicate Separate(chains: seq<seq<Record>>, b: int)
    requires 0 <= b < |chains|
  {
    && (forall i, k :: 0 <= i < k < |chains[b]| ==> chains[b][i] != chains[b][k])
    && (forall c, r :: 0 <= c < |chains| && c != b && r in chains[b] ==> r !in chains[c])
  }

  lemma PlacedSeparate(hash: Hashing, chains: seq<seq<Record>>, b: int)
    requires InRange(hash) && AllPlaced(hash, chains) && 0 <= b < |chains|
    ensures Separate(chains, b)
  {
    forall c, r | 0 <= c < |chains| && c != b && r in chains[b]
      ensures r !in chains[c]
    {
      assert hash[r.key] == b;
    }
  }

  /** The assignments of map_insert: to `rec->next`, or to an empty bucket's head. */
  method Append(table: array<Record?>, ghost chains: seq<seq<Record>>, ghost records: set<Record>,
                b: int, last: Record?, nrec: Record)
    requires Shaped(table, chains, records) && 0 <= b < HASH_TABLE_SIZE && Separate(chains, b)
    requires last == if chains[b] == [] then null else chains[b][|chains[b]| - 1]
    requires nrec !in records && nrec.next == null
    modifies table, records`next
    ensures Shaped(table, chains[b := chains[b] + [nrec]], records + {nrec})
  {
    if last != null {
      last.next := nrec;
    } else {
      table[b] := nrec;
    }
  }

  /** The assignments of map_delete: to the bucket's head, or to the record before. */
  method Unlink(table: array<Record?>, ghost chains: seq<seq<Record>>, ghost records: set<Record>,
                b: int, ghost i: nat, bptr: Record, rec: Record)
    requires Shaped(table, chains, records) && 0 <= b < HASH_TABLE_SIZE && Separate(chains, b)
    requires i < |chains[b]| && rec == chains[b][i]
    requires bptr == if i > 0 then chains[b][i - 1] else rec
    modifies table, records`next
    ensures Shaped(table, chains[b := Without(chains[b], i)], records)
  {
    NextLinked(chains[b], i);
    if rec == bptr {
      table[b] := rec.next;
    } else {
      bptr.next := rec.next;
    }
    assert bptr in chains[b];
    ghost var rest := Without(chains[b], i);
    assert forall k :: 0 <= k < |rest| ==> rest[k] == chains[b][if k < i then k else k + 1];
    assert Linked(rest) && table[b] == First(rest);
  }

  class Table {
    var size: nat
    const table: array<Record?>
    ghost const hash: Hashing
    ghost var chains: seq<seq<Record>>      // the records of each bucket, in list order
    ghost var contents: map<Key, Pointer>   // the finite map the table stands for
    ghost var records: set<Record>          // every record the table has linked in

    ghost predicate Valid()
      reads this, table, records
    {
      && InRange(hash)
      && Shaped(table, chains, records)
      && AllPlaced(hash, chains)
      && Agrees(hash, chains, contents)
      && size == |contents|
    }

    /** map_init */
    constructor (ghost hash: Hashing)
      requires InRange(hash)
      ensures Valid() && contents == map[] && fresh(table) && records == {} && this.hash == hash
    {
      table := new Record?[HASH_TABLE_SIZE](_ => null);
      this.hash := hash;
      chains := seq(HASH_TABLE_SIZE, _ => []);
      contents, size, records := map[], 0, {};
    }

    /** Record what the heap now stands for. */
    ghost method Commit(chains': seq<seq<Record>>, contents': map<Key, Pointer>, records': set<Record>)
      requires InRange(hash) && Shaped(table, chains', records') && AllPlaced(hash, chains')
      requires Agrees(hash, chains', contents') && size == |contents'|
      modifies this`chains, this`contents, this`records
      ensures Valid() && chains == chains' && contents == contents' && records == records'
    {
      chains, contents, records := chains', contents', records';
    }

    /** The loop of map_insert: look for `key` up to the last record of its bucket. */
    method FindLast(b: int, key: Key) returns (last: Record?, duplicate: bool)
      requires Valid() && 0 <= b < HASH_TABLE_SIZE
      ensures duplicate <==> HasKey(chains[b], key)
      ensures !duplicate ==> last == if chains[b] == [] then null else chains[b][|chains[b]| - 1]
    {
      ghost var chain := chains[b];
      var rec := table[b];
      if rec != null {
        ghost var i := 0;
        while rec.next != null
          invariant 0 <= i < |chain| && rec == chain[i]
          invariant forall k :: 0 <= k < i ==> chain[k].key != key
          decreases |chain| - i
        {
          if rec.key == key {
            return null, true;
          }
          NextLinked(chain, i);
          rec := rec.next;
          i := i + 1;
        }
        NextLinked(chain, i);
        if rec.key == key {
          return null, true;
        }
      }
      return rec, false;
    }

    /** map_insert */
    method Insert(b: int, key: Key, value: Pointer) returns (result: int)
      requires Valid() && b == hash[key]
      modifies this, table, records`next
      ensures Valid()
      ensures result == if key in old(contents) then -1 else 0
      ensures result == 0 ==> contents == old(contents)[key := value]
      ensures result == -1 ==> unchanged(this) && unchanged(table) && unchanged(records)
      ensures fresh(records - old(records))
    {
      var last, duplicate := FindLast(b, key);
      if duplicate {
        return -1;
      }
      var nrec := new Record(key, value);
      Add(b, last, nrec);
      return 0;
    }

    /** Link in a record whose key is new, and count it. */
    method Add(b: int, last: Record?, nrec: Record)
      requires Valid() && b == hash[nrec.key] && !HasKey(chains[b], nrec.key)
      requires last == if chains[b] == [] then null else chains[b][|chains[b]| - 1]
      requires nrec !in records && nrec.next == null
      modifies this, table, records`next
      ensures Valid() && records == old(records) + {nrec}
      ensures contents == old(contents)[nrec.key := nrec.value]
    {
      PlacedSeparate(hash, chains, b);
      AgreesAfterInsert(hash, chains, contents, nrec);
      Append(table, chains, records, b, last, nrec);
      assert nrec.key !in contents;
      size := size + 1;
      Commit(chains[b := chains[b] + [nrec]], contents[nrec.key := nrec.value], records + {nrec});
    }

    /** map_get */
    method Get(b: int, key: Key) returns (value: Pointer)
      requires Valid() && b == hash[key]
      ensures value == if key in contents then contents[key] else NULL
    {
      ghost var chain := chains[b];
      var rec := table[b];
      ghost var i := 0;
      while rec != null
        invariant 0 <= i <= |chain| && rec == (if i < |chain| then chain[i] else null)
        invariant forall k :: 0 <= k < i ==> chain[k].key != key
        decreases |chain| - i
      {
        if rec.key == key {
          return rec.value;
        }
        NextLinked(chain, i);
        rec := rec.next;
        i := i + 1;
      }
      assert !HasKey(chains[hash[key]], key);
      return NULL;
    }

    /** The loop of map_delete: the record with `key`, and the one before it. */
    method Find(b: int, key: Key) returns (bptr: Record?, rec: Record?, ghost i: nat)
      requires Valid() && 0 <= b < HASH_TABLE_SIZE
      ensures (rec == null) <==> !HasKey(chains[b], key)
      ensures rec != null ==> i < |chains[b]| && rec == chains[b][i] && rec.key == key
      ensures rec != null ==> bptr == if i > 0 then chains[b][i - 1] else rec
    {
      ghost var chain := chains[b];
      rec := table[b];
      bptr := rec;
      i := 0;
      while rec != null
        invariant 0 <= i <= |chain| && rec == (if i < |chain| then chain[i] else null)
        invariant rec != null ==> bptr == if i > 0 then chain[i - 1] else rec
        invariant forall k :: 0 <= k < i ==> chain[k].key != key
        decreases |chain| - i
      {
        if rec.key == key {
          return;
        }
        NextLinked(chain, i);
        bptr := rec;
        rec := rec.next;
        i := i + 1;
      }
    }

    /** map_delete */
    method Delete(b: int, key: Key) returns (value: Pointer)
      requires Valid() && b == hash[key]
      modifies this, table, records`next
      ensures Valid() && records == old(records)
      ensures value == if key in old(contents) then old(contents)[key] else NULL
      ensures contents == old(contents) - {key}
      ensures key !in old(contents) ==> unchanged(this) && unchanged(table) && unchanged(records)
    {
      var bptr, rec, i := Find(b, key);
      if rec == null {
        return NULL;
      }
      value := rec.value;
      AgreesAfterDelete(hash, chains, contents, b, i);
      PlacedSeparate(hash, chains, b);
      Unlink(table, chains, records, b, i, bptr, rec);
      size := size - 1;
      Commit(chains[b := Without(chains[b], i)], contents - {key}, records);
    }
  }

  // ---- The operations of general.h: hash the key, then work on its bucket ----

  ghost function PjwHashing(): (hash: Hashing)
    ensures InRange(hash)
  {
    imap k: Key :: Bucket(k)
  }

  ghost predicate IsMap(t: Table)
    reads t, t.table, t.records
  {
    t.Valid() && t.hash == PjwHashing()
  }

  method MapInit() returns (t: Table)
    ensures IsMap(t) && t.contents == map[] && fresh(t) && fresh(t.table) && t.records == {}
  {
    t := new Table(PjwHashing());
  }

  method MapInsert(t: Table, key: Key, value: Pointer) returns (result: int)
    requires IsMap(t)
    modifies t, t.table, t.records`next
    ensures IsMap(t) && fresh(t.records - old(t.records))
    ensures result == if key in old(t.contents) then -1 else 0
    ensures result == 0 ==> t.contents == old(t.contents)[key := value]
    ensures result == -1 ==> unchanged(t) && unchanged(t.table) && unchanged(t.records)
  {
    var b := Hash(key);
    result := t.Insert(b, key, value);
  }

  method MapGet(t: Table, key: Key) returns (value: Pointer)
    requires IsMap(t)
    ensures value == if key in t.contents then t.contents[key] else NULL
  {
    var b := Hash(key);
    value := t.Get(b, key);
  }

  method MapDelete(t: Table, key: Key) returns (value: Pointer)
    requires IsMap(t)
    modifies t, t.table, t.records`next
    ensures IsMap(t) && t.records == old(t.records)
    ensures value == if key in old(t.contents) then old(t.contents)[key] else NULL
    ensures t.contents == old(t.contents) - {key}
    ensures key !in old(t.contents) ==> unchanged(t) && unchanged(t.table) && unchanged(t.records)
  {
    var b := Hash(key);
    value := t.Delete(b, key);
  }
}
