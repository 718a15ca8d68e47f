/** What each reply of the table says about the calls before it, without the finite map. */
module HashMapHistory {
  import opened PjwHash
  import opened HashMap
  import opened HashMapRuns

  /** Before the call at i, each insertion of k has been followed by a deletion. */
  ghost predicate Absent(calls: seq<Call>, i: nat, k: Key) {
    && i <= |calls|
    && forall j :: 0 <= j < i && calls[j].InsertCall? && calls[j].key == k ==> DeletedIn(calls, j, i, k)
  }

  ghost predicate DeletedIn(calls: seq<Call>, j: nat, i: nat, k: Key) {
    i <= |calls| && exists d :: j < d < i && calls[d] == DeleteCall(k)
  }

  /** The call at j inserts k, absent by then, with v, and before the call at i nothing
      deletes it. */
  ghost predicate Binds(calls: seq<Call>, j: nat, i: nat, k: Key, v: Pointer) {
    j < i <= |calls| && calls[j] == InsertCall(k, v) && Absent(calls, j, k) && !DeletedIn(calls, j, i, k)
  }

  lemma {:induction false} FinalSnoc(m: map<Key, Pointer>, calls: seq<Call>, c: Call)
    ensures Final(m, calls + [c]) == Next(Final(m, calls), c)
    decreases |calls|
  {
    if calls == [] {
      assert calls + [c] == [c];
    } else {
      assert (calls + [c])[1..] == calls[1..] + [c];
      FinalSnoc(Next(m, calls[0]), calls[1..], c);
    }
  }

  lemma AbsentStep(calls: seq<Call>, i: nat, k: Key)
    requires i < |calls|
    ensures Absent(calls, i + 1, k) <==>
      calls[i] == DeleteCall(k) || (Absent(calls, i, k) && !(calls[i].InsertCall? && calls[i].key == k))
  {
    forall j: nat | j < i
      ensures DeletedIn(calls, j, i + 1, k) <==> DeletedIn(calls, j, i, k) || calls[i] == DeleteCall(k)
    {
      if calls[i] == DeleteCall(k) {
        assert DeletedIn(calls, j, i + 1, k);
      }
    }
  }

  lemma BindsStep(calls: seq<Call>, j: nat, i: nat, k: Key, v: Pointer)
    requires i < |calls|
    ensures Binds(calls, j, i + 1, k, v) <==>
      if j == i then calls[i] == InsertCall(k, v) && Absent(calls, i, k)
      else Binds(calls, j, i, k, v) && calls[i] != DeleteCall(k)
  {
    if j < i && calls[i] == DeleteCall(k) {
      assert DeletedIn(calls, j, i + 1, k);
    }
  }

  /** Before the call at i, k has the value v. */
  ghost predicate Bound(calls: seq<Call>, i: nat, k: Key, v: Pointer) {
    exists j: nat :: Binds(calls, j, i, k, v)
  }

  lemma BoundStep(calls: seq<Call>, i: nat, k: Key, v: Pointer)
    requires i < |calls|
    ensures Bound(calls, i + 1, k, v) <==>
      || (Bound(calls, i, k, v) && calls[i] != DeleteCall(k))
      || (calls[i] == InsertCall(k, v) && Absent(calls, i, k))
  {
    var next := i + 1;
    if j: nat :| Binds(calls, j, i, k, v) {
      BindsStep(calls, j, i, k, v);
    }
    BindsStep(calls, i, i, k, v);
    if j: nat :| Binds(calls, j, next, k, v) {
      BindsStep(calls, j, i, k, v);
    }
  }

  /** The finite map holds exactly the bindings that the calls so far have left. */
  lemma {:induction false} FinalExactly(calls: seq<Call>, i: nat, k: Key)
    requires i <= |calls|
    ensures var m := Final(map[], calls[..i]);
      && (k in m <==> !Absent(calls, i, k))
      && forall v :: Bound(calls, i, k, v) <==> k in m && m[k] == v
    decreases i
  {
    if i > 0 {
      FinalExactly(calls, i - 1, k);
      AbsentStep(calls, i - 1, k);
      assert calls[..i] == calls[..i - 1] + [calls[i - 1]];
      FinalSnoc(map[], calls[..i - 1], calls[i - 1]);
      forall v
        ensures Bound(calls, i, k, v) <==>
          || (Bound(calls, i - 1, k, v) && calls[i - 1] != DeleteCall(k))
          || (calls[i - 1] == InsertCall(k, v) && Absent(calls, i - 1, k))
      {
        BoundStep(calls, i - 1, k, v);
      }
    }
  }

  lemma {:induction false} ReplyAt(m: map<Key, Pointer>, calls: seq<Call>, i: nat)
    requires i < |calls|
    ensures |Replies(m, calls)| == |calls| && Replies(m, calls)[i] == Reply(Final(m, calls[..i]), calls[i])
    decreases |calls|
  {
    if i > 0 {
      ReplyAt(Next(m, calls[0]), calls[1..], i - 1);
      assert calls[..i][1..] == calls[1..][..i - 1];
    } else {
      RepliesLength(m, calls);
    }
  }

  lemma {:induction false} RepliesLength(m: map<Key, Pointer>, calls: seq<Call>)
    ensures |Replies(m, calls)| == |calls|
    decreases |calls|
  {
    if calls != [] {
      RepliesLength(Next(m, calls[0]), calls[1..]);
    }
  }

  /** An insertion returns -1 exactly if its key is there, and a lookup or a deletion the
      value of the insertion that put it there, or NULL. */
  lemma RepliesExactly(calls: seq<Call>, i: nat)
    requires i < |calls|
    ensures |Replies(map[], calls)| == |calls|
    ensures var k, r := calls[i].key, Replies(map[], calls)[i];
      if calls[i].InsertCall? then r == if Absent(calls, i, k) then 0 else -1
      else if Absent(calls, i, k) then r == 0
      else r >= 0 && Bound(calls, i, k, r)
  {
    ReplyAt(map[], calls, i);
    FinalExactly(calls, i, calls[i].key);
  }
}
