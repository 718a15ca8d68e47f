/** Whole sequences of map_insert, map_get and map_delete calls. */
module HashMapRuns {
  import opened PjwHash
  import opened HashMap

  datatype Call = InsertCall(key: Key, value: Pointer) | GetCall(key: Key) | DeleteCall(key: Key)

  /** The finite map after one call, and what the call returns. */
  function Next(m: map<Key, Pointer>, c: Call): map<Key, Pointer> {
    match c
    case InsertCall(k, v) => if k in m then m else m[k := v]
    case GetCall(_) => m
    case DeleteCall(k) => m - {k}
  }

  function Reply(m: map<Key, Pointer>, c: Call): int {
    match c
    case InsertCall(k, _) => if k in m then -1 else 0
    case GetCall(k) => if k in m then m[k] else NULL
    case DeleteCall(k) => if k in m then m[k] else NULL
  }

  function Final(m: map<Key, Pointer>, calls: seq<Call>): map<Key, Pointer>
    decreases |calls|
  {
    if calls == [] then m else Final(Next(m, calls[0]), calls[1..])
  }

  function Replies(m: map<Key, Pointer>, calls: seq<Call>): seq<int>
    decreases |calls|
  {
    if calls == [] then [] else [Reply(m, calls[0])] + Replies(Next(m, calls[0]), calls[1..])
  }

  method Perform(t: Table, c: Call) returns (r: int)
    requires IsMap(t)
    modifies t, t.table, t.records`next
    ensures IsMap(t) && fresh(t.records - old(t.records))
    ensures t.contents == Next(old(t.contents), c) && r == Reply(old(t.contents), c)
  {
    match c
    case InsertCall(k, v) => r := MapInsert(t, k, v);
    case GetCall(k) => r := MapGet(t, k);
    case DeleteCall(k) => r := MapDelete(t, k);
  }

  /** On every sequence of calls the chained table answers as the finite map does,
      and counts its keys. */
  method Replay(calls: seq<Call>) returns (t: Table, replies: seq<int>)
    ensures IsMap(t) && t.contents == Final(map[], calls) && t.size == |Final(map[], calls)|
    ensures replies == Replies(map[], calls)
  {
    t := MapInit();
    replies := [];
    var i := 0;
    while i < |calls|
      invariant 0 <= i <= |calls| && IsMap(t)
      invariant fresh(t) && fresh(t.table) && fresh(t.records)
      invariant Final(t.contents, calls[i..]) == Final(map[], calls)
      invariant replies + Replies(t.contents, calls[i..]) == Replies(map[], calls)
    {
      var r := Perform(t, calls[i]);
      assert calls[i..][1..] == calls[i + 1..];
      replies := replies + [r];
      i := i + 1;
    }
  }

  /** The value a key has at the end is the one given by the first insertion since
      the key was last deleted: later insertions of a present key are refused. */
  lemma FirstInsertWins(m: map<Key, Pointer>, key: Key, value: Pointer, calls: seq<Call>)
    requires key !in m && DeleteCall(key) !in calls
    ensures var end := Final(Next(m, InsertCall(key, value)), calls);
      key in end && end[key] == value
  {
    KeyStays(Next(m, InsertCall(key, value)), key, calls);
  }

  lemma {:induction false} KeyStays(m: map<Key, Pointer>, key: Key, calls: seq<Call>)
    requires key in m && DeleteCall(key) !in calls
    ensures key in Final(m, calls) && Final(m, calls)[key] == m[key]
    decreases |calls|
  {
    if calls != [] {
      assert calls[0] in calls;
      KeyStays(Next(m, calls[0]), key, calls[1..]);
    }
  }
}
