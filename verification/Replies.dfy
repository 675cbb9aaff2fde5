/** Serials and the dispatch of replies to the calls that wait for them, src/lib.rs. */
module Replies {
  import opened Utils

  // ----- Serials -----

  /** How many serials there are: all of u32 but 0. */
  const SERIALS := U32_LIMIT - 1

  /** The serial of the n-th draw. */
  function SerialOf(n: nat): Serial {
    n % SERIALS + 1
  }

  /** The counter after n draws. */
  function CounterAfter(n: nat): u32 {
    if n == 0 then 1 else (SerialOf(n - 1) + 1) % U32_LIMIT
  }

  /** Serials differ exactly as long as no more are drawn than there are. */
  lemma SerialsDistinctIff(n: nat)
    ensures n <= SERIALS <==> forall i, j :: 0 <= i < j < n ==> SerialOf(i) != SerialOf(j)
  {
    if n > SERIALS {
      assert SerialOf(0) == SerialOf(SERIALS);
    }
  }

  // ----- The protocol, step by step -----

  datatype Reply = Reply(serial: Serial, content: seq<byte>)

  /** The one-shot channel of a call as its receiver sees it. */
  datatype Chan = NoChannel | Empty | Full(reply: Reply) | Closed

  /** A call with its serial; `alive` while something holds its receiver. */
  datatype Call = Call(idx: Serial, chan: Chan, alive: bool, got: Option<Reply>, panicked: bool)

  predicate Waiting(c: Call) {
    c.alive && c.got.None?
  }

  /** `replyMap` has the calls whose sender is registered, `removals` the removals left to a spawned task. */
  datatype State = State(calls: seq<Call>, replyMap: map<Serial, nat>, removals: multiset<Serial>)

  const INIT := State([], map[], multiset{})

  /** The steps between which tasks interleave: each is atomic or done under the lock. */
  datatype Step =
    | Allocate
    | Insert(call: nat)
    | Read(reader: Option<nat>, reply: Reply)
    | Poll(call: nat)
    | Drop(call: nat, locked: bool)
    | Abandon(call: nat)
    | Remove(idx: Serial)

  /** A sender that goes unsent closes its channel. */
  function CloseSender(calls: seq<Call>, k: nat): (r: seq<Call>)
    ensures |r| == |calls|
  {
    if k < |calls| && calls[k].chan.Empty? then calls[k := calls[k].(chan := Closed)] else calls
  }

  function RemoveEntry(s: State, idx: Serial): (r: State)
    ensures |r.calls| == |s.calls| && r.removals == s.removals
  {
    if idx in s.replyMap then
      s.(calls := CloseSender(s.calls, s.replyMap[idx]), replyMap := s.replyMap - {idx})
    else s
  }

  function DoInsert(s: State, k: nat): (r: State)
    requires k < |s.calls|
    ensures |r.calls| == |s.calls|
  {
    var idx := s.calls[k].idx;
    var s' := RemoveEntry(s, idx);
    s'.(calls := s'.calls[k := s'.calls[k].(chan := Empty, alive := true)], replyMap := s'.replyMap[idx := k])
  }

  /** The reader takes the reply to its own call; any other goes to the sender registered for it, if there is one. */
  function DoRead(s: State, reader: Option<nat>, reply: Reply): (r: State)
    ensures |r.calls| == |s.calls|
  {
    if reader.Some? && reader.value < |s.calls| && s.calls[reader.value].idx == reply.serial then
      s.(calls := s.calls[reader.value := s.calls[reader.value].(got := Some(reply))])
    else if reply.serial in s.replyMap then
      var k := s.replyMap[reply.serial];
      var s' := s.(replyMap := s.replyMap - {reply.serial});
      if k < |s.calls| && s.calls[k].alive then s'.(calls := s.calls[k := s.calls[k].(chan := Full(reply))]) else s'
    else s
  }

  function DoPoll(c: Call): Call {
    match c.chan
    case Full(reply) => c.(got := Some(reply))
    case Closed => c.(panicked := true)
    case _ => c
  }

  predicate Enabled(s: State, step: Step) {
    match step
    case Allocate => true
    case Insert(k) => k < |s.calls| && s.calls[k].chan.NoChannel?
    case Read(reader, _) => reader.None? || (reader.value < |s.calls| && Waiting(s.calls[reader.value]))
    case Poll(k) => k < |s.calls| && Waiting(s.calls[k])
    case Drop(k, _) => k < |s.calls| && s.calls[k].alive
    case Abandon(k) => k < |s.calls| && s.calls[k].alive
    case Remove(idx) => idx in s.removals
  }

  /** What a step does; one that cannot happen does nothing. */
  function Apply(s: State, step: Step): (r: State)
    ensures |r.calls| == |s.calls| + if step.Allocate? then 1 else 0
  {
    if !Enabled(s, step) then s
    else
      match step
      case Allocate => s.(calls := s.calls + [Call(SerialOf(|s.calls|), NoChannel, false, None, false)])
      case Insert(k) => DoInsert(s, k)
      case Read(reader, reply) => DoRead(s, reader, reply)
      case Poll(k) => s.(calls := s.calls[k := DoPoll(s.calls[k])])
      case Drop(k, locked) =>
        var s' := s.(calls := s.calls[k := s.calls[k].(alive := false)]);
        var idx := s.calls[k].idx;
        if locked then RemoveEntry(s', idx) else s'.(removals := s.removals + multiset{idx})
      case Abandon(k) => s.(calls := s.calls[k := s.calls[k].(alive := false)])
      case Remove(idx) => RemoveEntry(s, idx).(removals := s.removals - multiset{idx})
  }

  function Run(s: State, steps: seq<Step>): (r: State)
    ensures |s.calls| <= |r.calls|
  {
    if steps == [] then s else Apply(Run(s, steps[..|steps| - 1]), steps[|steps| - 1])
  }

  lemma {:induction false} RunAppend(s: State, a: seq<Step>, b: seq<Step>)
    ensures Run(s, a + b) == Run(Run(s, a), b)
  {
    if b == [] {
      assert a + b == a;
    } else {
      assert (a + b)[..|a + b| - 1] == a + b[..|b| - 1];
      RunAppend(s, a, b[..|b| - 1]);
    }
  }

  // ----- What every step keeps -----

  /** The sender of a call is registered under its serial. */
  predicate Registered(s: State, k: nat) {
    k < |s.calls| && s.calls[k].idx in s.replyMap && s.replyMap[s.calls[k].idx] == k
  }

  predicate CallOk(s: State, k: nat)
    requires k < |s.calls|
  {
    var c := s.calls[k];
    && c.idx == SerialOf(k)
    && !c.panicked
    && (c.chan.NoChannel? ==> !c.alive && c.got.None?)
    && (c.chan.Full? ==> c.chan.reply.serial == c.idx)
    && (c.got.Some? ==> c.got.value.serial == c.idx)
    && (Waiting(c) ==> !c.chan.Closed?)
    && (Waiting(c) && c.chan.Empty? ==> Registered(s, k))
  }

  /** Every registered sender is that of its own call and was not used. */
  predicate MapOk(s: State) {
    forall idx :: idx in s.replyMap ==>
      s.replyMap[idx] < |s.calls| && s.calls[s.replyMap[idx]].idx == idx && s.calls[s.replyMap[idx]].chan.Empty?
  }

  predicate Dead(c: Call) {
    !c.alive && !c.chan.NoChannel?
  }

  predicate IsDead(s: State, k: nat) {
    k < |s.calls| && Dead(s.calls[k])
  }

  /** Removals are left over from dropped calls only. */
  ghost predicate RemovalsOk(s: State) {
    forall idx :: idx in s.removals ==> exists k: nat :: IsDead(s, k) && s.calls[k].idx == idx
  }

  ghost predicate Inv(s: State) {
    MapOk(s) && RemovalsOk(s) && forall k :: 0 <= k < |s.calls| ==> CallOk(s, k)
  }

  lemma IdxDistinct(s: State, i: nat, j: nat)
    requires Inv(s) && |s.calls| <= SERIALS && i < |s.calls| && j < |s.calls|
    ensures s.calls[i].idx == s.calls[j].idx ==> i == j
  {
    hide MapOk, RemovalsOk;
    SerialsDistinctIff(|s.calls|);
    assert CallOk(s, i) && CallOk(s, j);
  }

  /** Dead calls stay dead and keep their serial. */
  predicate DeadStay(s: State, s': State) {
    && |s.calls| <= |s'.calls|
    && forall k :: 0 <= k < |s.calls| ==>
         s'.calls[k].idx == s.calls[k].idx && (IsDead(s, k) ==> IsDead(s', k))
  }

  lemma RemovalsStay(s: State, s': State)
    requires RemovalsOk(s) && DeadStay(s, s')
    requires forall idx :: idx in s'.removals ==> idx in s.removals || exists k: nat :: IsDead(s', k) && s'.calls[k].idx == idx
    ensures RemovalsOk(s')
  {
    forall idx | idx in s'.removals ensures exists k: nat :: IsDead(s', k) && s'.calls[k].idx == idx {
      if idx in s.removals {
        var k: nat :| IsDead(s, k) && s.calls[k].idx == idx;
        assert IsDead(s', k);
      }
    }
  }

  lemma RemoveEntryKeeps(s: State, idx: Serial)
    requires MapOk(s) && |s.calls| <= SERIALS
    requires forall k :: 0 <= k < |s.calls| ==> CallOk(s, k)
    requires forall k :: 0 <= k < |s.calls| && s.calls[k].idx == idx ==> !Waiting(s.calls[k])
    ensures var s' := RemoveEntry(s, idx);
      MapOk(s') && DeadStay(s, s') && forall k :: 0 <= k < |s.calls| ==> CallOk(s', k)
  {
    var s' := RemoveEntry(s, idx);
    forall k | 0 <= k < |s.calls| ensures CallOk(s', k) {
      assert CallOk(s, k);
    }
  }

  lemma InsertKeeps(s: State, k: nat)
    requires Inv(s) && |s.calls| <= SERIALS && k < |s.calls| && s.calls[k].chan.NoChannel?
    ensures Inv(DoInsert(s, k))
  {
    var s' := DoInsert(s, k);
    var idx := s.calls[k].idx;
    if idx in s.replyMap { IdxDistinct(s, k, s.replyMap[idx]); }
    assert idx !in s.replyMap;
    forall i | 0 <= i < |s.calls| ensures CallOk(s', i) {
      assert CallOk(s, i);
      IdxDistinct(s, k, i);
    }
    RemovalsStay(s, s');
  }

  lemma ReadKeeps(s: State, reader: Option<nat>, reply: Reply)
    requires Inv(s) && |s.calls| <= SERIALS && Enabled(s, Read(reader, reply))
    ensures Inv(DoRead(s, reader, reply))
  {
    hide RemovalsOk, SerialOf;
    var s' := DoRead(s, reader, reply);
    forall i | 0 <= i < |s.calls| ensures CallOk(s', i) {
      assert CallOk(s, i);
    }
    RemovalsStay(s, s');
  }

  lemma DropKeeps(s: State, k: nat, locked: bool)
    requires Inv(s) && |s.calls| <= SERIALS && Enabled(s, Drop(k, locked))
    ensures Inv(Apply(s, Drop(k, locked)))
  {
    hide RemoveEntry, RemovalsOk, SerialOf;
    var s' := Apply(s, Drop(k, locked));
    var dropped := s.(calls := s.calls[k := s.calls[k].(alive := false)]);
    var idx := s.calls[k].idx;
    assert CallOk(s, k) && IsDead(dropped, k);
    forall i | 0 <= i < |s.calls| ensures CallOk(dropped, i) && (s.calls[i].idx == idx ==> i == k) {
      assert CallOk(s, i);
      IdxDistinct(s, k, i);
    }
    if locked {
      RemoveEntryKeeps(dropped, idx);
    } else {
      forall i | 0 <= i < |s.calls| ensures CallOk(s', i) { assert CallOk(dropped, i); }
      assert IsDead(s', k);
    }
    RemovalsStay(s, s');
  }

  lemma RemoveKeeps(s: State, idx: Serial)
    requires Inv(s) && |s.calls| <= SERIALS && idx in s.removals
    ensures Inv(Apply(s, Remove(idx)))
  {
    var s' := Apply(s, Remove(idx));
    var d: nat :| IsDead(s, d) && s.calls[d].idx == idx;
    forall i | 0 <= i < |s.calls| && s.calls[i].idx == idx ensures i == d { IdxDistinct(s, d, i); }
    RemoveEntryKeeps(s, idx);
    var r := RemoveEntry(s, idx);
    forall i | 0 <= i < |s.calls| ensures CallOk(s', i) { assert CallOk(r, i); }
    RemovalsStay(s, s');
  }

  /** A step on one call that leaves the map and the removals alone. */
  lemma OneCallKeeps(s: State, k: nat, c: Call)
    requires Inv(s) && k < |s.calls| && c.idx == s.calls[k].idx
    requires !s.calls[k].chan.NoChannel? && c.chan == s.calls[k].chan && (Dead(s.calls[k]) ==> Dead(c))
    requires CallOk(s.(calls := s.calls[k := c]), k)
    ensures Inv(s.(calls := s.calls[k := c]))
  {
    var s' := s.(calls := s.calls[k := c]);
    forall i | 0 <= i < |s.calls| ensures CallOk(s', i) { assert CallOk(s, i); }
    RemovalsStay(s, s');
  }

  lemma AllocateKeeps(s: State)
    requires Inv(s)
    ensures Inv(Apply(s, Allocate))
  {
    var s' := Apply(s, Allocate);
    forall i | 0 <= i < |s'.calls| ensures CallOk(s', i) { if i < |s.calls| { assert CallOk(s, i); } }
    RemovalsStay(s, s');
  }

  /** Every step of any task keeps the invariant, while there are serials left. */
  lemma ApplyKeepsInv(s: State, step: Step)
    requires Inv(s) && |Apply(s, step).calls| <= SERIALS
    ensures Inv(Apply(s, step))
  {
    hide Inv, CallOk, MapOk, RemovalsOk, DoInsert, DoRead, RemoveEntry;
    if Enabled(s, step) {
      match step
      case Allocate => AllocateKeeps(s);
      case Insert(k) => InsertKeeps(s, k);
      case Read(reader, reply) => ReadKeeps(s, reader, reply);
      case Poll(k) => PollKeeps(s, k);
      case Drop(k, locked) => DropKeeps(s, k, locked);
      case Abandon(k) => AbandonKeeps(s, k);
      case Remove(idx) => RemoveKeeps(s, idx);
    }
  }

  lemma PollKeeps(s: State, k: nat)
    requires Inv(s) && Enabled(s, Poll(k))
    ensures Inv(Apply(s, Poll(k)))
  {
    assert CallOk(s, k);
    OneCallKeeps(s, k, DoPoll(s.calls[k]));
  }

  lemma AbandonKeeps(s: State, k: nat)
    requires Inv(s) && Enabled(s, Abandon(k))
    ensures Inv(Apply(s, Abandon(k)))
  {
    assert CallOk(s, k);
    OneCallKeeps(s, k, s.calls[k].(alive := false));
  }

  // ----- Whole runs -----

  /** The replies with the serial of call `k` that were read since its sender was registered. */
  function Heard(steps: seq<Step>, k: nat): (r: seq<Reply>)
    ensures forall x :: x in r ==> x.serial == SerialOf(k)
  {
    if steps == [] then []
    else
      var before, last := steps[..|steps| - 1], steps[|steps| - 1];
      var s := Run(INIT, before);
      if last.Read? && Enabled(s, last) && last.reply.serial == SerialOf(k) && k < |s.calls| && !s.calls[k].chan.NoChannel?
      then Heard(before, k) + [last.reply]
      else Heard(before, k)
  }

  /** The answer a call has or will return. */
  function Answer(c: Call): Option<Reply> {
    if c.got.Some? then c.got else if c.chan.Full? then Some(c.chan.reply) else None
  }

  /** What a call was told by the replies for it: one that is waiting has an answer as soon as there was a reply. */
  predicate Told(c: Call, heard: seq<Reply>) {
    && (c.chan.NoChannel? ==> heard == [])
    && (c.got.Some? ==> c.got.value in heard)
    && (c.chan.Full? ==> c.chan.reply in heard)
    && (Waiting(c) && heard != [] ==> c.chan.Full?)
  }

  lemma RemoveEntryTells(s: State, idx: Serial, k: nat, heard: seq<Reply>)
    requires k < |s.calls| && Told(s.calls[k], heard)
    ensures Told(RemoveEntry(s, idx).calls[k], heard)
  {
  }

  lemma InsertTells(s: State, j: nat, k: nat, heard: seq<Reply>)
    requires j < |s.calls| && s.calls[j].chan.NoChannel? && k < |s.calls| && Told(s.calls[k], heard)
    ensures Told(DoInsert(s, j).calls[k], heard)
  {
    hide RemoveEntry;
    RemoveEntryTells(s, s.calls[j].idx, k, heard);
  }

  lemma ReadTells(s: State, reader: Option<nat>, reply: Reply, k: nat, heard: seq<Reply>)
    requires Inv(s) && |s.calls| <= SERIALS && k < |s.calls| && Told(s.calls[k], heard) && Enabled(s, Read(reader, reply))
    ensures var now := if reply.serial == SerialOf(k) && !s.calls[k].chan.NoChannel? then heard + [reply] else heard;
      Told(DoRead(s, reader, reply).calls[k], now)
  {
    hide RemovalsOk, SerialOf;
    assert CallOk(s, k);
    if reader.Some? { IdxDistinct(s, k, reader.value); assert CallOk(s, reader.value); }
  }

  lemma ApplyTells(s: State, step: Step, k: nat, heard: seq<Reply>)
    requires Inv(s) && |Apply(s, step).calls| <= SERIALS && k < |s.calls| && Told(s.calls[k], heard)
    ensures var now :=
        if step.Read? && Enabled(s, step) && step.reply.serial == SerialOf(k) && !s.calls[k].chan.NoChannel?
        then heard + [step.reply] else heard;
      Told(Apply(s, step).calls[k], now)
  {
    hide DoInsert, DoRead, RemoveEntry, SerialOf, Inv;
    if Enabled(s, step) {
      match step
      case Insert(j) => InsertTells(s, j, k, heard);
      case Read(reader, reply) => ReadTells(s, reader, reply, k, heard);
      case Drop(j, _) =>
        RemoveEntryTells(s.(calls := s.calls[j := s.calls[j].(alive := false)]), s.calls[j].idx, k, heard);
      case Remove(idx) => RemoveEntryTells(s, idx, k, heard);
      case _ =>
    }
  }

  /**
   Any interleaving of any tasks: the invariant holds, no waiting call finds its channel closed, a call gets replies
   to itself only, and one that still waits has its answer at hand once a reply to it was read.
   */
  lemma {:induction false} RunIsSafe(steps: seq<Step>)
    requires |Run(INIT, steps).calls| <= SERIALS
    ensures var s := Run(INIT, steps);
      && Inv(s)
      && (forall k :: 0 <= k < |s.calls| ==> Told(s.calls[k], Heard(steps, k)))
  {
    hide Inv, Told, Apply, Enabled;
    if steps == [] {
      InitIsSafe();
    } else {
      var before, last := steps[..|steps| - 1], steps[|steps| - 1];
      var s, s' := Run(INIT, before), Run(INIT, steps);
      RunIsSafe(before);
      ApplyKeepsInv(s, last);
      forall k | 0 <= k < |s'.calls| ensures Told(s'.calls[k], Heard(steps, k)) {
        if k < |s.calls| {
          ApplyTells(s, last, k, Heard(before, k));
        } else {
          NewIsTold(before, last);
        }
      }
    }
  }

  lemma InitIsSafe()
    ensures Inv(INIT)
  {
  }

  lemma NewIsTold(before: seq<Step>, last: Step)
    requires last.Allocate?
    ensures var s := Run(INIT, before);
      Told(Apply(s, last).calls[|s.calls|], Heard(before + [last], |s.calls|))
  {
    assert (before + [last])[..|before|] == before;
    NotHeardYet(before, |Run(INIT, before).calls|);
  }

  lemma {:induction false} NotHeardYet(steps: seq<Step>, k: nat)
    requires |Run(INIT, steps).calls| <= k
    ensures Heard(steps, k) == []
  {
    if steps != [] { NotHeardYet(steps[..|steps| - 1], k); }
  }

  lemma InsertGot(s: State, j: nat, k: nat)
    requires j < |s.calls| && k < |s.calls|
    ensures DoInsert(s, j).calls[k].got == s.calls[k].got
  {
  }

  lemma ReadGot(s: State, reader: Option<nat>, reply: Reply, k: nat)
    requires k < |s.calls| && s.calls[k].got.Some? && Enabled(s, Read(reader, reply))
    ensures DoRead(s, reader, reply).calls[k].got == s.calls[k].got
  {
  }

  /** What a call has returned does not change. */
  lemma ReturnsOnce(s: State, step: Step, k: nat)
    requires k < |s.calls| && s.calls[k].got.Some?
    ensures Apply(s, step).calls[k].got == s.calls[k].got
  {
    hide DoInsert, DoRead;
    if Enabled(s, step) {
      match step
      case Insert(j) => InsertGot(s, j, k);
      case Read(reader, reply) => ReadGot(s, reader, reply, k);
      case _ =>
    }
  }

  /** If the bus answers a call once, then that is what the call returns, and nothing is lost on the way. */
  lemma AnsweredOnce(steps: seq<Step>, k: nat, reply: Reply)
    requires |Run(INIT, steps).calls| <= SERIALS && k < |Run(INIT, steps).calls|
    requires Heard(steps, k) == [reply]
    ensures var c := Run(INIT, steps).calls[k];
      && (c.alive ==> Answer(c) == Some(reply))
      && (c.got.Some? ==> c.got.value == reply)
      && !c.panicked
  {
    hide Run, Heard, MapOk, RemovalsOk;
    RunIsSafe(steps);
    assert CallOk(Run(INIT, steps), k);
  }

  /**
   A call that waits returns an answer the next time it is polled, once a reply to it was read by anyone; it goes on
   waiting if none was. With one reply, that is what it returns.
   */
  lemma PollReturns(steps: seq<Step>, k: nat)
    requires |Run(INIT, steps).calls| <= SERIALS && k < |Run(INIT, steps).calls| && Waiting(Run(INIT, steps).calls[k])
    ensures var heard, got := Heard(steps, k), Run(INIT, steps + [Poll(k)]).calls[k].got;
      && (heard == [] ==> Run(INIT, steps + [Poll(k)]) == Run(INIT, steps) && got.None?)
      && (heard != [] ==> got.Some? && got.value in heard)
      && (|heard| == 1 ==> got == Some(heard[0]))
  {
    hide Heard, MapOk, RemovalsOk, Run, Apply;
    var s := Run(INIT, steps);
    RunIsSafe(steps);
    assert CallOk(s, k) && Told(s.calls[k], Heard(steps, k));
    RunOne(INIT, steps, Poll(k));
    PollUnfold(s, k);
    assert s.calls[k := s.calls[k]] == s.calls;
  }

  lemma RunOne(s: State, steps: seq<Step>, step: Step)
    ensures Run(s, steps + [step]) == Apply(Run(s, steps), step)
  {
    assert (steps + [step])[..|steps|] == steps;
  }

  lemma PollUnfold(s: State, k: nat)
    requires Enabled(s, Poll(k))
    ensures Apply(s, Poll(k)) == State(s.calls[k := DoPoll(s.calls[k])], s.replyMap, s.removals)
  {
  }

  /** A read by the call itself returns the reply at once. */
  lemma OwnReadReturns(s: State, k: nat, reply: Reply)
    requires Enabled(s, Read(Some(k), reply)) && s.calls[k].idx == reply.serial
    ensures Apply(s, Read(Some(k), reply)).calls[k].got == Some(reply)
  {
    ReadUnfold(s, Some(k), reply);
  }

  // ----- Nothing is left behind -----

  /** Every registered sender is of a call that lives, or its removal is left to a task. */
  ghost predicate NoLeak(s: State) {
    forall idx :: idx in s.replyMap && s.replyMap[idx] < |s.calls| ==> s.calls[s.replyMap[idx]].alive || idx in s.removals
  }

  /** The drop of a call takes its sender out of the map, at once or by the task it leaves behind. */
  lemma DropRemoves(s: State, k: nat)
    requires k < |s.calls| && s.calls[k].alive
    ensures var idx, now, later := s.calls[k].idx, Apply(s, Drop(k, true)), Apply(s, Drop(k, false));
      && now.replyMap == s.replyMap - {idx} && now.removals == s.removals
      && later.replyMap == s.replyMap && later.removals == s.removals + multiset{idx}
      && Apply(later, Remove(idx)).replyMap == s.replyMap - {idx} && Apply(later, Remove(idx)).removals == s.removals
  {
    hide CloseSender;
    var idx, later := s.calls[k].idx, Apply(s, Drop(k, false));
    assert s.removals + multiset{idx} - multiset{idx} == s.removals;
    assert idx !in s.replyMap ==> s.replyMap - {idx} == s.replyMap;
  }

  lemma ApplyLeaksNothing(s: State, step: Step)
    requires Inv(s) && NoLeak(s) && |Apply(s, step).calls| <= SERIALS && !step.Abandon?
    ensures NoLeak(Apply(s, step))
  {
    hide Inv, CallOk, DoInsert, DoRead, RemoveEntry;
    MapInRange(s);
    if Enabled(s, step) {
      match step
      case Insert(k) => InsertLeaksNothing(s, k);
      case Read(reader, reply) => ReadLeaksNothing(s, reader, reply);
      case Drop(k, locked) => DropLeaksNothing(s, k, locked);
      case Remove(idx) => EntryLeaksNothing(s, idx);
      case _ =>
    }
  }

  lemma MapInRange(s: State)
    requires Inv(s)
    ensures MapOk(s)
  {
  }

  lemma EntryLeaksNothing(s: State, idx: Serial)
    requires MapOk(s) && NoLeak(s)
    ensures RemoveEntry(s, idx).replyMap == s.replyMap - {idx}
    ensures forall i :: i in s.replyMap ==> RemoveEntry(s, idx).calls[s.replyMap[i]].alive == s.calls[s.replyMap[i]].alive
  {
  }

  lemma InsertLeaksNothing(s: State, k: nat)
    requires MapOk(s) && NoLeak(s) && k < |s.calls|
    ensures NoLeak(DoInsert(s, k))
  {
    hide RemoveEntry;
    EntryLeaksNothing(s, s.calls[k].idx);
  }

  lemma ReadLeaksNothing(s: State, reader: Option<nat>, reply: Reply)
    requires MapOk(s) && NoLeak(s)
    ensures NoLeak(DoRead(s, reader, reply))
  {
  }

  lemma DropLeaksNothing(s: State, k: nat, locked: bool)
    requires Inv(s) && NoLeak(s) && |s.calls| <= SERIALS && Enabled(s, Drop(k, locked))
    ensures NoLeak(Apply(s, Drop(k, locked)))
  {
    hide CallOk, Inv, RemovalsOk;
    MapInRange(s);
    DropRemoves(s, k);
    var s' := Apply(s, Drop(k, locked));
    forall idx | idx in s'.replyMap ensures s'.calls[s'.replyMap[idx]].alive || idx in s'.removals {
      assert s'.replyMap[idx] == s.replyMap[idx];
    }
  }

  /** Unless the future that sends is abandoned before there is one for the reply, no sender stays behind. */
  lemma {:induction false} RunLeaksNothing(steps: seq<Step>)
    requires |Run(INIT, steps).calls| <= SERIALS && forall i :: 0 <= i < |steps| ==> !steps[i].Abandon?
    ensures NoLeak(Run(INIT, steps))
  {
    hide Inv, Apply, NoLeak;
    if steps == [] {
      NoLeakAtFirst();
    } else {
      var before := steps[..|steps| - 1];
      RunIsSafe(before);
      RunLeaksNothing(before);
      ApplyLeaksNothing(Run(INIT, before), steps[|steps| - 1]);
    }
  }

  lemma NoLeakAtFirst()
    ensures NoLeak(INIT)
  {
  }

  // ----- More calls than serials -----

  function Allocations(n: nat): (r: seq<Step>)
    ensures |r| == n
  {
    if n == 0 then [] else Allocations(n - 1) + [Allocate]
  }

  /** `n` more serials were drawn and nothing else happened. */
  predicate Drawn(s: State, s': State, n: nat) {
    && |s'.calls| == |s.calls| + n && s'.replyMap == s.replyMap
    && (forall i :: 0 <= i < |s.calls| ==> s'.calls[i] == s.calls[i])
    && (forall i :: |s.calls| <= i < |s'.calls| ==> s'.calls[i].idx == SerialOf(i) && s'.calls[i].chan.NoChannel?)
  }

  lemma {:induction false} RunAllocations(s: State, n: nat)
    ensures Drawn(s, Run(s, Allocations(n)), n)
  {
    if n == 0 {
      assert Run(s, []) == s;
    } else {
      hide Run, Apply, SerialOf, Allocations, Drawn;
      RunAllocations(s, n - 1);
      NextAllocation(s, n);
      AllocateDraws(s, Run(s, Allocations(n - 1)), n - 1);
    }
  }

  lemma AllocateDraws(s: State, s': State, n: nat)
    requires Drawn(s, s', n)
    ensures Drawn(s, Apply(s', Allocate), n + 1)
  {
    hide SerialOf;
  }

  lemma NextAllocation(s: State, n: nat)
    requires n > 0
    ensures Run(s, Allocations(n)) == Apply(Run(s, Allocations(n - 1)), Allocate)
  {
    hide Apply;
    assert Allocations(n)[..n - 1] == Allocations(n - 1);
  }

  /** The bound is needed: a call that waits while all serials are drawn loses its channel to the next call of its serial. */
  lemma WrappedSerialPanics() returns (steps: seq<Step>)
    ensures |Run(INIT, steps).calls| == SERIALS + 1
    ensures Run(INIT, steps).calls[0].panicked
  {
    hide Run, SerialOf, Allocations;
    assert SerialOf(0) == SerialOf(SERIALS) == 1 by { SerialsDistinctZero(); }
    var first, many, last := [Allocate, Insert(0)], Allocations(SERIALS), [Insert(SERIALS), Poll(0)];
    var c := Call(1, Empty, true, None, false);
    TwoSteps(INIT, Allocate, Insert(0));
    var s := Run(INIT, first);
    assert s.calls == [c] && s.replyMap == map[1 := 0];
    RunAllocations(s, SERIALS);
    var s' := Run(s, many);
    assert s'.calls[0] == c;
    TwoSteps(s', Insert(SERIALS), Poll(0));
    RunAppend(INIT, first, many);
    RunAppend(INIT, first + many, last);
    steps := first + many + last;
  }

  lemma SerialsDistinctZero()
    ensures SerialOf(0) == 1 && SerialOf(SERIALS) == 1
  {
  }

  lemma TwoSteps(s: State, a: Step, b: Step)
    ensures Run(s, [a, b]) == Apply(Apply(s, a), b)
  {
    hide Apply;
    assert [a, b][..1] == [a];
    assert Run(s, [a]) == Apply(Run(s, [a][..0]), a);
  }

  // ----- The connection -----

  /**
   What the connection reads; `wanted` if the waiter that reads it takes it, `handled` if the call hierarchy does. A
   reply or error may lack the serial of what it replies to.
   */
  datatype Incoming = ReplyMsg(reply: Reply) | NoSerial | SignalMsg(wanted: bool) | CallMsg(wanted: bool, handled: bool)

  /** How the loop ends: nothing more to read, a message for the waiter, a call to be refused, or a panic. */
  datatype Ending = WouldBlock | ForWaiter(msg: Incoming) | ToRefuse(msg: Incoming) | Panics

  /** The replies among the messages, as steps of the reader. */
  function Reads(msgs: seq<Incoming>, reader: Option<nat>): seq<Step> {
    if msgs == [] then []
    else
      Reads(msgs[..|msgs| - 1], reader) +
      match msgs[|msgs| - 1] case ReplyMsg(reply) => [Read(reader, reply)] case _ => []
  }

  /** `RpcConn` with the calls of its tasks. */
  class RpcConn {
    var serial: u32
    var replyMap: map<Serial, nat>
    var calls: seq<Call>
    var removals: multiset<Serial>

    function View(): State
      reads this
    {
      State(calls, replyMap, removals)
    }

    predicate Valid()
      reads this
    {
      serial == CounterAfter(|calls|)
    }

    constructor ()
      ensures Valid() && View() == INIT
    {
      serial, replyMap, calls, removals := 1, map[], [], multiset{};
    }

    method AllocateIdx() returns (idx: Serial)
      requires Valid()
      modifies this
      ensures Valid() && View() == Apply(old(View()), Allocate)
      ensures idx == SerialOf(old(|calls|))
    {
      var i: u32 := 0;
      ghost var n := |calls|;
      while i == 0
        invariant i == 0 ==> serial == 0 || serial == SerialOf(n)
        invariant i == 0 && serial == 0 ==> SerialOf(n) == 1
        invariant i != 0 ==> i == SerialOf(n) && serial == (i + 1) % U32_LIMIT
        invariant calls == old(calls) && replyMap == old(replyMap) && removals == old(removals)
        decreases if i != 0 then 0 else if serial == 0 then 2 else 1
      {
        i, serial := serial, (serial + 1) % U32_LIMIT;
      }
      idx := i;
      calls := calls + [Call(idx, NoChannel, false, None, false)];
    }

    method GetRecvAndInsertSender(k: nat)
      requires Valid() && Enabled(View(), Insert(k))
      modifies this
      ensures Valid() && View() == Apply(old(View()), Insert(k)) && |calls| == |old(calls)|
      ensures calls[k] == old(calls[k]).(chan := Empty, alive := true) && replyMap == old(replyMap)[old(calls[k].idx) := k]
    {
      var idx := calls[k].idx;
      if idx in replyMap {
        calls := CloseSender(calls, replyMap[idx]);
      }
      calls := calls[k := calls[k].(chan := Empty, alive := true)];
      replyMap := replyMap[idx := k];
      assert replyMap == RemoveEntry(old(View()), idx).replyMap[idx := k];
    }

    /** The predicate of the waiter. */
    predicate Takes(reader: Option<nat>, m: Incoming)
      reads this
    {
      match m
      case ReplyMsg(reply) => reader.Some? && reader.value < |calls| && calls[reader.value].idx == reply.serial
      case NoSerial => false // the waiter for a reply panics on it, and any other leaves it
      case SignalMsg(wanted) => reader.None? && wanted
      case CallMsg(wanted, _) => reader.None? && wanted
    }

    /** The loop goes on after this message. */
    predicate PassesBy(reader: Option<nat>, m: Incoming)
      reads this
    {
      !Takes(reader, m) && !m.NoSerial? && (m.CallMsg? ==> m.handled)
    }

    /**
     Reads messages until one is for the waiter, or a call needs an error reply, or there are no more. It panics exactly
     if a reply without a reply serial comes first, whoever reads it.
     */
    method QueueMsg(incoming: seq<Incoming>, reader: Option<nat>) returns (end: Ending, used: nat)
      requires Valid() && (reader.Some? ==> reader.value < |calls| && Waiting(calls[reader.value]))
      modifies this
      ensures Valid() && used <= |incoming|
      ensures View() == Run(old(View()), Reads(incoming[..used], reader))
      ensures if end.WouldBlock? then used == |incoming| && forall i :: 0 <= i < used ==> old(PassesBy(reader, incoming[i]))
        else
          && used > 0 && (forall i :: 0 <= i < used - 1 ==> old(PassesBy(reader, incoming[i])))
          && var last := incoming[used - 1];
             end == if last.NoSerial? then Panics else if old(Takes(reader, last)) then ForWaiter(last) else ToRefuse(last)
      ensures end.ToRefuse? ==> end.msg.CallMsg? && !end.msg.handled
    {
      hide Run, DoRead, Reads, Apply, CounterAfter;
      used := 0;
      ReadsNone(View(), incoming, reader);
      while used < |incoming|
        invariant used <= |incoming| && Valid()
        invariant View() == Run(old(View()), Reads(incoming[..used], reader))
        invariant |calls| == |old(calls)| && forall i :: 0 <= i < |calls| ==> calls[i].idx == old(calls[i].idx)
        invariant reader.Some? ==> Waiting(calls[reader.value])
        invariant forall i :: 0 <= i < used ==> old(PassesBy(reader, incoming[i]))
      {
        var m := incoming[used];
        ReadsNext(old(View()), incoming, used, reader);
        if m.ReplyMsg? { ReadUnfold(View(), reader, m.reply); }
        used := used + 1;
        if m.NoSerial? { return Panics, used; }
        if Takes(reader, m) {
          if m.ReplyMsg? {
            calls := calls[reader.value := calls[reader.value].(got := Some(m.reply))];
          }
          return ForWaiter(m), used;
        }
        match m
        case SignalMsg(_) =>
        case ReplyMsg(reply) =>
          if reply.serial in replyMap {
            var k := replyMap[reply.serial];
            replyMap := replyMap - {reply.serial};
            if k < |calls| && calls[k].alive {
              calls := calls[k := calls[k].(chan := Full(reply))];
            }
          }
        case CallMsg(_, handled) =>
          if !handled { return ToRefuse(m), used; }
      }
      return WouldBlock, used;
    }

    /** A poll of the response future, without the reading. */
    method PollFuture(k: nat) returns (r: Option<Reply>)
      requires Valid() && Enabled(View(), Poll(k))
      modifies this
      ensures Valid() && View() == Apply(old(View()), Poll(k))
      ensures r == if old(calls[k].chan.Full?) then Some(old(calls[k].chan.reply)) else None
      ensures calls[k].got == r && (r.None? ==> calls[k].alive && calls[k].chan == old(calls[k].chan))
      ensures calls[k].panicked == (old(calls[k].panicked) || old(calls[k].chan.Closed?))
    {
      calls := calls[k := DoPoll(calls[k])];
      r := calls[k].got;
    }

    /** The drop of a response future, which may find the lock taken. */
    method DropFuture(k: nat, locked: bool)
      requires Valid() && Enabled(View(), Drop(k, locked))
      modifies this
      ensures Valid() && View() == Apply(old(View()), Drop(k, locked)) && !calls[k].alive
      ensures locked ==> replyMap == old(replyMap) - {old(calls[k].idx)} && removals == old(removals)
      ensures !locked ==> replyMap == old(replyMap) && removals == old(removals) + multiset{old(calls[k].idx)}
    {
      var idx := calls[k].idx;
      calls := calls[k := calls[k].(alive := false)];
      if locked { RemoveReply(idx); } else { removals := removals + multiset{idx}; }
    }

    method RemoveReply(idx: Serial)
      requires Valid()
      modifies this
      ensures Valid() && View() == RemoveEntry(old(View()), idx)
      ensures serial == old(serial)
    {
      if idx in replyMap {
        calls, replyMap := CloseSender(calls, replyMap[idx]), replyMap - {idx};
      }
    }

    /** The task that a drop left behind. */
    method RunRemoval(idx: Serial)
      requires Valid() && Enabled(View(), Remove(idx))
      modifies this
      ensures Valid() && View() == Apply(old(View()), Remove(idx)) && idx !in replyMap && removals == old(removals) - multiset{idx}
    {
      RemoveReply(idx);
      removals := removals - multiset{idx};
    }
  }

  lemma ReadsNone(s: State, msgs: seq<Incoming>, reader: Option<nat>)
    ensures Run(s, Reads(msgs[..0], reader)) == s
  {
  }

  lemma ReadsNext(s: State, msgs: seq<Incoming>, i: nat, reader: Option<nat>)
    requires i < |msgs|
    ensures Run(s, Reads(msgs[..i + 1], reader)) ==
      if msgs[i].ReplyMsg? then Apply(Run(s, Reads(msgs[..i], reader)), Read(reader, msgs[i].reply))
      else Run(s, Reads(msgs[..i], reader))
  {
    hide Apply;
    assert msgs[..i + 1][..i] == msgs[..i];
    var steps := Reads(msgs[..i], reader);
    if msgs[i].ReplyMsg? {
      assert (steps + [Read(reader, msgs[i].reply)])[..|steps|] == steps;
    } else {
      assert steps + [] == steps;
    }
  }

  lemma ReadUnfold(s: State, reader: Option<nat>, reply: Reply)
    requires Enabled(s, Read(reader, reply))
    ensures Apply(s, Read(reader, reply)) ==
      if reader.Some? && s.calls[reader.value].idx == reply.serial then
        State(s.calls[reader.value := s.calls[reader.value].(got := Some(reply))], s.replyMap, s.removals)
      else if reply.serial in s.replyMap then
        var k := s.replyMap[reply.serial];
        var cs := if k < |s.calls| && s.calls[k].alive then s.calls[k := s.calls[k].(chan := Full(reply))] else s.calls;
        State(cs, s.replyMap - {reply.serial}, s.removals)
      else s
  {
  }
}
