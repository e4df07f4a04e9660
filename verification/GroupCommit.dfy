/** Group commit: writers queue up, the one in front logs for several, and the result is as if each had written
    alone. */
module GroupCommit {
  import opened Keys
  import opened Format
  import opened Store
  import opened WriteBatch

  /** A waiting writer; a writer without a batch only wants room made for it. */
  datatype Writer = Writer(id: nat, batch: Option<seq<Op>>, sync: bool)

  function ByteSize(ops: seq<Op>): nat {
    HEADER + |EncodeOps(ops)|
  }

  function Ids(ws: seq<Writer>): (r: seq<nat>)
    ensures |r| == |ws| && forall i :: 0 <= i < |ws| ==> r[i] == ws[i].id
  {
    seq(|ws|, i requires 0 <= i < |ws| => ws[i].id)
  }

  // ---- the group ------------------------------------------------------------------------------------

  /** The operations of the writers in ws, in order. */
  function Together(ws: seq<Writer>): seq<Op> {
    if ws == [] then [] else
      Together(ws[..|ws| - 1]) + (if ws[|ws| - 1].batch.Some? then ws[|ws| - 1].batch.value else [])
  }

  function Sizes(ws: seq<Writer>): nat {
    if ws == [] then 0 else
      Sizes(ws[..|ws| - 1]) + (if ws[|ws| - 1].batch.Some? then ByteSize(ws[|ws| - 1].batch.value) else 0)
  }

  function MaxSize(first: nat): nat {
    if first <= 0x2_0000 then first + 0x2_0000 else 0x10_0000
  }

  /** Writer n may not join the group of the first n: it wants a sync the leader does not do, or the batch grows too
      big. */
  predicate Stops(queue: seq<Writer>, n: nat)
    requires 0 < n < |queue| && queue[0].batch.Some?
  {
    || (queue[n].sync && !queue[0].sync)
    || (queue[n].batch.Some? && Sizes(queue[..n + 1]) > MaxSize(ByteSize(queue[0].batch.value)))
  }

  /** A group of several is at most a mebibyte, and behind a leader of at most 128 KiB at most 128 KiB longer than it.
      */
  lemma GroupIsBounded(queue: seq<Writer>, n: nat)
    requires 1 < n <= |queue| && queue[0].batch.Some? && queue[n - 1].batch.Some? && !Stops(queue, n - 1)
    ensures Sizes(queue[..n]) <= 1048576
    ensures ByteSize(queue[0].batch.value) <= 131072 ==> Sizes(queue[..n]) <= ByteSize(queue[0].batch.value) + 131072
    ensures ByteSize(queue[0].batch.value) == 12 + |EncodeOps(queue[0].batch.value)|
  {
    hide EncodeOps;
    hide Sizes;
  }

  /** And no smaller than that: a batch that fits is not turned away. */
  lemma StopsOnlyWhenFull(queue: seq<Writer>, n: nat)
    requires 0 < n < |queue| && queue[0].batch.Some? && Stops(queue, n) && (queue[n].sync ==> queue[0].sync)
    ensures queue[n].batch.Some?
    ensures if ByteSize(queue[0].batch.value) <= 131072
      then Sizes(queue[..n + 1]) > ByteSize(queue[0].batch.value) + 131072
      else Sizes(queue[..n + 1]) > 1048576
  {
    hide EncodeOps;
    hide Sizes;
  }

  lemma TogetherSnoc(ws: seq<Writer>, n: nat)
    requires n < |ws|
    ensures Together(ws[..n + 1]) == Together(ws[..n]) + (if ws[n].batch.Some? then ws[n].batch.value else [])
    ensures Sizes(ws[..n + 1]) == Sizes(ws[..n]) + (if ws[n].batch.Some? then ByteSize(ws[n].batch.value) else 0)
  {
    assert ws[..n + 1][..n] == ws[..n];
  }

  lemma NoneTogether()
    ensures Together([]) == [] && Sizes([]) == 0
  {
  }

  /** The longest run of waiting writers that may commit with the first, and their operations. */
  method BuildBatchGroup(queue: seq<Writer>) returns (n: nat, ops: seq<Op>)
    requires queue != [] && queue[0].batch.Some?
    ensures 0 < n <= |queue| && ops == Together(queue[..n])
    ensures forall i :: 0 < i < n ==> !Stops(queue, i)
    ensures n < |queue| ==> Stops(queue, n)
    ensures forall i :: 0 <= i < n ==> queue[i].sync ==> queue[0].sync
  {
    hide EncodeOps;
    hide Together;
    hide Sizes;
    NoneTogether();
    var first := queue[0];
    var size := ByteSize(first.batch.value);
    var maxSize := 0x10_0000;
    if size <= 0x2_0000 {
      maxSize := size + 0x2_0000;
    }
    TogetherSnoc(queue, 0);
    assert queue[..0] == [];
    assert queue[..1] == queue[..0 + 1];
    n, ops := 1, first.batch.value;
    assert [] + ops == ops;
    while n < |queue|
      invariant 0 < n <= |queue| && ops == Together(queue[..n]) && size == Sizes(queue[..n])
      invariant forall i :: 0 < i < n ==> !Stops(queue, i)
      invariant forall i :: 0 <= i < n ==> queue[i].sync ==> first.sync
    {
      var w := queue[n];
      TogetherSnoc(queue, n);
      if w.sync && !first.sync {
        break;
      }
      if w.batch.Some? {
        size := size + ByteSize(w.batch.value);
        if size > maxSize {
          break;
        }
        ops := ops + w.batch.value;
      } else {
        assert ops + [] == ops;
      }
      n := n + 1;
    }
  }

  // ---- committing alone ----------------------------------------------------------------------------------

  /** The records the writers would log one by one, from sequence number first on. */
  function Alone(ws: seq<Writer>, first: nat): seq<Record> {
    if ws == [] then [] else
      var front := ws[..|ws| - 1];
      Alone(front, first) +
        (if ws[|ws| - 1].batch.Some? then [Record(first + |Together(front)|, ws[|ws| - 1].batch.value)] else [])
  }

  lemma {:induction false} InsertOpsSplit(mem: seq<Entry>, first: nat, a: seq<Op>, b: seq<Op>, n: nat)
    requires n <= |b|
    ensures InsertOps(mem, Record(first, a + b), |a| + n) ==
      InsertOps(InsertRecord(mem, Record(first, a)), Record(first + |a|, b), n)
  {
    hide Insert;
    if n == 0 {
      InsertOpsFront(mem, first, a, b, |a|);
    } else {
      InsertOpsSplit(mem, first, a, b, n - 1);
      InsertOpsNext(mem, Record(first, a + b), |a| + n - 1);
      InsertOpsNext(InsertRecord(mem, Record(first, a)), Record(first + |a|, b), n - 1);
      assert (a + b)[|a| + n - 1] == b[n - 1];
    }
  }

  lemma {:induction false} InsertOpsFront(mem: seq<Entry>, first: nat, a: seq<Op>, b: seq<Op>, n: nat)
    requires n <= |a|
    ensures InsertOps(mem, Record(first, a + b), n) == InsertOps(mem, Record(first, a), n)
  {
    hide Insert;
    if n > 0 {
      InsertOpsFront(mem, first, a, b, n - 1);
      InsertOpsNext(mem, Record(first, a + b), n - 1);
      InsertOpsNext(mem, Record(first, a), n - 1);
      assert (a + b)[n - 1] == a[n - 1];
    }
  }

  /** One record for two batches inserts what two consecutive records insert. */
  lemma OneRecordOrTwo(mem: seq<Entry>, first: nat, a: seq<Op>, b: seq<Op>)
    ensures InsertRecord(mem, Record(first, a + b)) ==
      InsertRecord(InsertRecord(mem, Record(first, a)), Record(first + |a|, b))
  {
    hide InsertOps;
    InsertOpsSplit(mem, first, a, b, |b|);
  }

  lemma ReplayAppend(mem: seq<Entry>, rs: seq<Record>, r: Record)
    ensures Replay(mem, rs + [r]) == InsertRecord(Replay(mem, rs), r)
  {
    assert (rs + [r])[..|rs|] == rs;
  }

  lemma AloneSnoc(ws: seq<Writer>, w: Writer, first: nat)
    ensures Alone(ws + [w], first) ==
      Alone(ws, first) + (if w.batch.Some? then [Record(first + |Together(ws)|, w.batch.value)] else [])
    ensures Together(ws + [w]) == Together(ws) + (if w.batch.Some? then w.batch.value else [])
  {
    assert (ws + [w])[..|ws|] == ws;
  }

  /** After the writers ws, one record with the group's operations does what the group's writers do alone. */
  lemma {:induction false} GroupIsAlone(mem: seq<Entry>, ws: seq<Writer>, group: seq<Writer>, first: nat)
    ensures InsertRecord(Replay(mem, Alone(ws, first)), Record(first + |Together(ws)|, Together(group))) ==
      Replay(mem, Alone(ws + group, first))
    ensures Together(ws + group) == Together(ws) + Together(group)
  {
    hide InsertOps;
    hide Insert;
    var n := first + |Together(ws)|;
    var base := Replay(mem, Alone(ws, first));
    if group == [] {
      assert ws + group == ws;
      NoOperations(base, n);
      assert Together(ws) + [] == Together(ws);
    } else {
      var front, w := group[..|group| - 1], group[|group| - 1];
      GroupIsAlone(mem, ws, front, first);
      assert ws + front + [w] == ws + group && front + [w] == group;
      AloneSnoc(ws + front, w, first);
      AloneSnoc(front, w, first);
      if w.batch.Some? {
        OneRecordOrTwo(base, n, Together(front), w.batch.value);
        ReplayAppend(mem, Alone(ws + front, first), Record(first + |Together(ws + front)|, w.batch.value));
        Assoc3(Together(ws), Together(front), w.batch.value);
      } else {
        assert Alone(ws + front, first) + [] == Alone(ws + front, first);
        assert Together(front) + [] == Together(front);
        assert Together(ws + front) + [] == Together(ws + front);
      }
    }
  }

  lemma Assoc3(a: seq<Op>, b: seq<Op>, c: seq<Op>)
    ensures a + b + c == a + (b + c)
  {
  }

  lemma NoOperations(mem: seq<Entry>, n: nat)
    ensures InsertRecord(mem, Record(n, [])) == mem
  {
    InsertNone(mem, Record(n, []));
  }

  lemma TogetherAdds(ws: seq<Writer>, k: nat, n: nat)
    requires k + n <= |ws|
    ensures |Together(ws[..k + n])| == |Together(ws[..k])| + |Together(ws[k..k + n])|
  {
    hide Replay;
    hide Alone;
    hide Together;
    GroupIsAlone([], ws[..k], ws[k..k + n], 1);
    assert ws[..k + n] == ws[..k] + ws[k..k + n];
  }

  /** A log that replays like the first k writers alone, with one record for the next n, replays like k + n. */
  lemma Grouped(log: seq<Record>, ws: seq<Writer>, k: nat, n: nat)
    requires k + n <= |ws| && Replay([], log) == Replay([], Alone(ws[..k], 1))
    ensures Replay([], log + [Record(|Together(ws[..k])| + 1, Together(ws[k..k + n]))]) ==
      Replay([], Alone(ws[..k + n], 1))
  {
    hide Replay;
    hide Alone;
    hide Together;
    GroupIsAlone([], ws[..k], ws[k..k + n], 1);
    assert ws[..k + n] == ws[..k] + ws[k..k + n];
    ReplayAppend([], log, Record(|Together(ws[..k])| + 1, Together(ws[k..k + n])));
  }

  lemma NothingLogged(ws: seq<Writer>, k: nat)
    requires k < |ws| && ws[k].batch.None?
    ensures Alone(ws[..k + 1], 1) == Alone(ws[..k], 1)
  {
    AloneSnoc(ws[..k], ws[k], 1);
    assert ws[..k + 1] == ws[..k] + [ws[k]];
    assert Alone(ws[..k], 1) + [] == Alone(ws[..k], 1);
  }

  // ---- the queue ---------------------------------------------------------------------------------------------

  class WriteQueue {
    var queue: seq<Writer>
    var log: seq<Record>
    var lastSequence: nat
    /** How many writers at the front are being committed by the first of them, 0 when none is. */
    var group: nat
    var finished: seq<nat>
    /** Every writer that ever joined, in order. */
    ghost var arrived: seq<Writer>

    /** How many writers the log covers. */
    ghost function Covered(): int
      reads this
    {
      |arrived| - |queue| + group
    }

    ghost predicate Valid()
      reads this
    {
      && |queue| <= |arrived| && queue == arrived[|arrived| - |queue|..] && group <= |queue|
      && |finished| == |arrived| - |queue| && (forall i :: 0 <= i < |finished| ==> finished[i] == arrived[i].id)
      && 0 <= Covered() <= |arrived| && Replay([], log) == Replay([], Alone(arrived[..Covered()], 1))
      && lastSequence == |Together(arrived[..|finished|])|
    }

    constructor ()
      ensures Valid() && arrived == [] && log == []
    {
      queue, log, lastSequence, group, finished, arrived := [], [], 0, 0, [], [];
    }

    /** A writer joins, whatever the others are doing. */
    method Join(w: Writer)
      requires Valid()
      modifies this
      ensures Valid() && arrived == old(arrived) + [w] && queue == old(queue) + [w]
      ensures log == old(log) && lastSequence == old(lastSequence) && group == old(group) && finished == old(finished)
    {
      arrived := arrived + [w];
      queue := queue + [w];
      assert arrived[..Covered()] == old(arrived)[..old(Covered())];
      assert arrived[..|finished|] == old(arrived)[..|finished|];
    }

    /** The front writer takes its group and logs one record for it. The mutex is released from here to Complete. */
    method Lead()
      requires Valid() && queue != [] && group == 0
      modifies this
      ensures Valid() && 0 < group && arrived == old(arrived) && queue == old(queue) && finished == old(finished)
      ensures log == old(log) + (if queue[0].batch.None? then []
        else [Record(lastSequence + 1, Together(queue[..group]))])
      ensures queue[0].batch.None? ==> group == 1
      ensures forall i :: 0 <= i < group ==> queue[i].sync ==> queue[0].sync
    {
      hide Replay;
      hide Alone;
      hide Together;
      hide Stops;
      ghost var k := |finished|;
      if queue[0].batch.None? {
        group := 1;
        NothingLogged(arrived, k);
        assert log + [] == log;
      } else {
        var n, ops := BuildBatchGroup(queue);
        assert queue[..n] == arrived[k..k + n];
        Grouped(log, arrived, k, n);
        log := log + [Record(lastSequence + 1, ops)];
        group := n;
      }
    }

    /** Publish the new last sequence number and wake the group's writers, front first, each exactly once. */
    method Complete()
      requires Valid() && 0 < group
      modifies this
      ensures Valid() && group == 0 && arrived == old(arrived) && log == old(log)
      ensures queue == old(queue)[old(group)..]
      ensures finished == old(finished) + Ids(old(queue)[..old(group)])
    {
      hide Replay;
      hide Alone;
      hide Together;
      ghost var k := |finished|;
      lastSequence := lastSequence + |Together(queue[..group])|;
      assert queue[..group] == arrived[k..k + group];
      TogetherAdds(arrived, k, group);
      while group > 0
        invariant group <= old(group) && queue == old(queue)[old(group) - group..] && |queue| <= |arrived|
        invariant arrived == old(arrived) && log == old(log) && |finished| == |arrived| - |queue|
        invariant lastSequence == |Together(arrived[..k + old(group)])|
        invariant finished == old(finished) + Ids(old(queue)[..old(group) - group])
        decreases group
      {
        ghost var done := old(group) - group;
        assert queue[0] == old(queue)[done];
        assert Ids(old(queue)[..done + 1]) == Ids(old(queue)[..done]) + [old(queue)[done].id];
        finished := finished + [queue[0].id];
        queue := queue[1..];
        group := group - 1;
      }
    }
  }
}
