/** The queue of partially written messages, src/conn/sender.rs. */
module Sender {
  import opened Utils
  import opened HeaderCodec
  import opened Descriptors

  /** A message on its way out: its bytes, how many of them were written, its descriptors. */
  datatype RawOut = RawOut(written: nat, header: seq<byte>, body: seq<byte>, fds: seq<int>)

  function Bytes(out: RawOut): seq<byte> {
    out.header + out.body
  }

  /** Something of it is left to write. */
  predicate Unfinished(out: RawOut) {
    out.written < |Bytes(out)| && out.header != []
  }

  predicate AllUnfinished(queue: seq<RawOut>) {
    forall i :: 0 <= i < |queue| ==> Unfinished(queue[i])
  }

  function ToWrite(out: RawOut): int {
    |out.header| + |out.body| - out.written
  }

  function Rest(out: RawOut): seq<byte>
    requires out.written <= |Bytes(out)|
  {
    Bytes(out)[out.written..]
  }

  /** Carries descriptors, which go with its first byte, and that has not been written. */
  predicate HoldsFds(out: RawOut) {
    out.written == 0 && out.fds != []
  }

  /** The bytes the queue still has to write, in order. */
  function Pending(queue: seq<RawOut>): seq<byte>
    requires AllUnfinished(queue)
  {
    if queue == [] then [] else Rest(queue[0]) + Pending(queue[1..])
  }

  function Flatten(ios: seq<seq<byte>>): seq<byte> {
    if ios == [] then [] else Flatten(ios[..|ios| - 1]) + ios[|ios| - 1]
  }

  /** The one or two slices that are left of a message. */
  function BufsLeft(out: RawOut): (bufs: (seq<byte>, Option<seq<byte>>))
    requires out.written <= |Bytes(out)|
    ensures Rest(out) == bufs.0 + if bufs.1.Some? then bufs.1.value else []
    ensures Unfinished(out) ==> bufs.0 != []
  {
    if out.written < |out.header| then
      (out.header[out.written..], if out.body == [] then None else Some(out.body))
    else
      (out.body[out.written - |out.header|..], None)
  }

  /** `RawOut::advance`: counts bytes as written, first of the header and then of the body. */
  method Advance(out: RawOut, adv: nat) returns (out': RawOut, left: nat)
    requires Unfinished(out)
    ensures var n := if adv < ToWrite(out) then adv else ToWrite(out);
      out' == out.(written := out.written + n) && left == adv - n
  {
    out', left := out, adv;
    var firstRem := if |out.header| > out.written then |out.header| - out.written else 0;
    if firstRem > 0 {
      var toAdv := if firstRem < left then firstRem else left;
      left := left - toAdv;
      out' := out'.(written := out'.written + toAdv);
    }
    if left == 0 {
      return out', 0;
    }
    var secondRem := ToWrite(out');
    if secondRem > 0 {
      var toAdv := if secondRem < left then secondRem else left;
      left := left - toAdv;
      out' := out'.(written := out'.written + toAdv);
    }
  }

  /** Adds what is left of a message to a scatter list with room for `cap` slices. */
  function Push(ios: seq<seq<byte>>, out: RawOut, cap: nat): seq<seq<byte>>
    requires Unfinished(out)
  {
    var (buf0, buf1) := BufsLeft(out);
    var with0 := ios + [buf0];
    if buf1.Some? && |with0| < cap then with0 + [buf1.value] else with0
  }

  /** The scatter list for a queue: it ends when it is full, or before a message that needs a write of its own. */
  function Gather(queue: seq<RawOut>, ios: seq<seq<byte>>, cap: nat): seq<seq<byte>>
    requires AllUnfinished(queue)
  {
    if queue == [] || |ios| >= cap || (HoldsFds(queue[0]) && ios != []) then ios
    else Gather(queue[1..], Push(ios, queue[0], cap), cap)
  }

  /** Descriptors that go with the write: those of the first message, if it starts with it. */
  function Attached(queue: seq<RawOut>): seq<int> {
    if queue != [] then FdsLeft(queue[0]) else []
  }

  /** `populate`. */
  method Populate(queue: seq<RawOut>, cap: nat) returns (ios: seq<seq<byte>>, fds: seq<int>)
    requires cap > 0 && AllUnfinished(queue)
    ensures ios == Gather(queue, [], cap) && fds == Attached(queue)
  {
    ios, fds := [], [];
    var i := 0;
    while i < |queue|
      invariant 0 <= i <= |queue|
      invariant Gather(queue[i..], ios, cap) == Gather(queue, [], cap)
      invariant i == 0 <==> ios == []
      invariant i == 0 ==> fds == []
      invariant i > 0 ==> fds == Attached(queue)
    {
      var out := queue[i];
      if |ios| >= cap { return; }
      if HoldsFds(out) {
        if ios == [] { fds := out.fds; } else { return; }
      }
      ios := Push(ios, out, cap);
      assert queue[i..][1..] == queue[i + 1..];
      i := i + 1;
    }
  }

  lemma FlattenPush(ios: seq<seq<byte>>, b: seq<byte>)
    ensures Flatten(ios + [b]) == Flatten(ios) + b
  {
    assert (ios + [b])[..|ios|] == ios;
  }

  /** One message pushed: all that is left of it, unless the list is full after its header. */
  lemma PushFlatten(ios: seq<seq<byte>>, out: RawOut, cap: nat)
    requires Unfinished(out) && |ios| < cap
    ensures var more := Push(ios, out, cap);
      && |ios| < |more| <= cap && |Flatten(more)| > |Flatten(ios)|
      && Flatten(ios) <= Flatten(more) <= Flatten(ios) + Rest(out)
      && (|more| < cap ==> Flatten(more) == Flatten(ios) + Rest(out))
  {
    var (buf0, buf1) := BufsLeft(out);
    FlattenPush(ios, buf0);
    if buf1.Some? && |ios| + 1 < cap {
      FlattenPush(ios + [buf0], buf1.value);
      assert Flatten(ios) + buf0 + buf1.value == Flatten(ios) + Rest(out);
    }
  }

  /** How many messages can share one write. */
  function Sharing(queue: seq<RawOut>, first: bool): (k: nat)
    ensures k <= |queue|
  {
    if queue == [] || (HoldsFds(queue[0]) && !first) then 0 else 1 + Sharing(queue[1..], false)
  }

  /** No message behind the first one needs a write of its own. */
  predicate Clear(queue: seq<RawOut>) {
    Sharing(queue, true) == |queue|
  }

  /**
   What a scatter list holds: always a prefix of the bytes of the messages that can share a write, and all of
   them when there is room left in it. It is not empty when something is pending.
   */
  lemma {:induction false} GatherHolds(queue: seq<RawOut>, ios: seq<seq<byte>>, cap: nat)
    requires AllUnfinished(queue) && |ios| < cap
    ensures var g, shared := Gather(queue, ios, cap), Flatten(ios) + Pending(queue[..Sharing(queue, ios == [])]);
      && |ios| <= |g| <= cap
      && |Flatten(ios)| <= |Flatten(g)|
      && Flatten(g) <= shared
      && (|g| < cap ==> Flatten(g) == shared)
      && (queue != [] && ios == [] ==> Flatten(g) != [] && g != [])
  {
    hide Push, Rest, Flatten;
    var k := Sharing(queue, ios == []);
    if k == 0 {
      assert Pending(queue[..k]) == [];
    } else {
      var more, rest := Push(ios, queue[0], cap), queue[1..];
      PushFlatten(ios, queue[0], cap);
      assert queue[..k][1..] == rest[..k - 1];
      assert Flatten(ios) + Rest(queue[0]) + Pending(rest[..k - 1]) == Flatten(ios) + Pending(queue[..k]);
      if |more| < cap {
        GatherHolds(rest, more, cap);
      }
    }
  }

  lemma {:induction false} PendingAppend(a: seq<RawOut>, b: seq<RawOut>)
    requires AllUnfinished(a) && AllUnfinished(b)
    ensures AllUnfinished(a + b) && Pending(a + b) == Pending(a) + Pending(b)
  {
    hide Rest;
    if a == [] {
      assert a + b == b;
    } else {
      assert (a + b)[1..] == a[1..] + b;
      PendingAppend(a[1..], b);
    }
  }

  /** The queue after `n` of its bytes were written. */
  function Written(queue: seq<RawOut>, n: nat): (after: seq<RawOut>)
    requires AllUnfinished(queue)
    ensures AllUnfinished(after)
  {
    if queue == [] || n == 0 then queue
    else if n < ToWrite(queue[0]) then [queue[0].(written := queue[0].written + n)] + queue[1..]
    else Written(queue[1..], n - ToWrite(queue[0]))
  }

  lemma RestLen(out: RawOut)
    requires Unfinished(out)
    ensures |Rest(out)| == ToWrite(out) > 0
    ensures forall n: nat {:trigger out.(written := out.written + n)} :: n < ToWrite(out) ==> Rest(out.(written := out.written + n)) == Rest(out)[n..]
  {
    forall n: nat | n < ToWrite(out) ensures Rest(out.(written := out.written + n)) == Rest(out)[n..] {
      assert Bytes(out.(written := out.written + n)) == Bytes(out);
    }
  }

  /** Writing bytes removes exactly them from the front of what is pending. */
  lemma {:induction false} WrittenPending(queue: seq<RawOut>, n: nat)
    requires AllUnfinished(queue) && n <= |Pending(queue)|
    ensures AllUnfinished(Written(queue, n)) && Pending(Written(queue, n)) == Pending(queue)[n..]
  {
    if queue != [] && n > 0 {
      var q := queue[0];
      RestLen(q);
      hide Rest;
      if n >= ToWrite(q) {
        WrittenPending(queue[1..], n - ToWrite(q));
      }
    }
  }

  /** `update_written`: takes written bytes off the front of the queue. */
  method UpdateWritten(queue: seq<RawOut>, written: nat) returns (queue': seq<RawOut>, left: nat)
    requires AllUnfinished(queue)
    ensures var n := if written < |Pending(queue)| then written else |Pending(queue)|;
      queue' == Written(queue, n) && left == written - n
  {
    queue', left := queue, written;
    while queue' != []
      invariant AllUnfinished(queue') && left <= written
      invariant |Pending(queue)| - |Pending(queue')| == written - left
      invariant forall n: nat :: written - left <= n ==> Written(queue, n) == Written(queue', n - (written - left))
      decreases |queue'|
    {
      var out := queue'[0];
      RestLen(out);
      ghost var tail := queue'[1..];
      var out', left' := Advance(out, left);
      if left' == 0 {
        queue' := if ToWrite(out') == 0 then queue'[1..] else queue'[0 := out'];
        left := 0;
        break;
      }
      queue', left := queue'[1..], left';
    }
  }

  /** Where in a stream of `total` bytes, of which the queue's are the last, each of its messages ends. */
  function EndsOf(queue: seq<RawOut>, total: int): (e: seq<int>)
    requires AllUnfinished(queue)
    ensures |e| == |queue|
  {
    if queue == [] then [] else [total - |Pending(queue[1..])|] + EndsOf(queue[1..], total)
  }

  function FdsLeft(out: RawOut): seq<int> {
    if out.written == 0 then out.fds else []
  }

  /** The descriptors that the queue still has to send. */
  function MarksOf(queue: seq<RawOut>, total: int): seq<Mark>
    requires AllUnfinished(queue)
  {
    if queue == [] then []
    else MarkAt(total - |Pending(queue)|, FdsLeft(queue[0])) + MarksOf(queue[1..], total)
  }

  /** Messages leave the queue exactly when their last byte was written. */
  lemma {:induction false} WrittenEnds(queue: seq<RawOut>, n: nat, total: int)
    requires AllUnfinished(queue) && n <= |Pending(queue)|
    ensures var after := Written(queue, n);
      && AllUnfinished(after) && |after| <= |queue|
      && EndsOf(after, total) == EndsOf(queue, total)[|queue| - |after|..]
      && forall i :: 0 <= i < |queue| - |after| ==> EndsOf(queue, total)[i] <= total - |Pending(after)|
  {
    WrittenPending(queue, n);
    if queue != [] && n > 0 {
      var k, e, rest, after := ToWrite(queue[0]), EndsOf(queue, total), EndsOf(queue[1..], total), Written(queue, n);
      EndsStep(queue, total);
      if n >= k {
        RestLen(queue[0]);
        hide Rest, EndsOf;
        WrittenPending(queue[1..], n - k);
        WrittenEnds(queue[1..], n - k, total);
        hide Written, Pending;
        var d := |queue| - |after|;
        assert e[d..] == rest[d - 1..];
      } else {
        EndsStep(after, total);
        hide EndsOf;
        assert after[1..] == queue[1..];
      }
    }
  }

  lemma EndsStep(queue: seq<RawOut>, total: int)
    requires AllUnfinished(queue) && queue != []
    ensures EndsOf(queue, total) == [total - |Pending(queue[1..])|] + EndsOf(queue[1..], total)
  {
  }

  lemma {:induction false} UnfinishedEnds(queue: seq<RawOut>, total: int)
    requires AllUnfinished(queue)
    ensures forall i :: 0 <= i < |queue| ==> EndsOf(queue, total)[i] > total - |Pending(queue)|
  {
    if queue != [] {
      RestLen(queue[0]);
      hide Rest;
      UnfinishedEnds(queue[1..], total);
      assert forall i :: 0 < i < |queue| ==> EndsOf(queue, total)[i] == EndsOf(queue[1..], total)[i - 1];
    }
  }

  /** Messages that can follow in a write carry no descriptors that are still to be sent. */
  lemma {:induction false} WrittenKeepsMarks(queue: seq<RawOut>, n: nat, total: int)
    requires AllUnfinished(queue) && n <= |Pending(queue[..Sharing(queue, false)])|
    ensures AllUnfinished(Written(queue, n)) && MarksOf(Written(queue, n), total) == MarksOf(queue, total)
  {
    hide Rest, MarkAt, Written, MarksOf, Pending;
    NothingWritten(queue);
    if queue != [] && n > 0 {
      EmptyPending();
      var k, q, rest := Sharing(queue, false), queue[0], queue[1..];
      RestLen(q);
      assert queue[..k][1..] == rest[..k - 1];
      PendingUnfold(queue[..k], rest[..k - 1]);
      MarksUnfold(queue, rest, total);
      NoMark(total - |Pending(queue)|);
      WrittenUnfold(queue, rest, n);
      if n >= ToWrite(q) {
        WrittenKeepsMarks(rest, n - ToWrite(q), total);
      } else {
        PartlyWrittenMarks(queue, n, total);
      }
    }
  }

  lemma NothingWritten(queue: seq<RawOut>)
    requires AllUnfinished(queue)
    ensures Written(queue, 0) == queue
    ensures forall n: nat :: Written([], n) == []
  {
  }

  /** A write takes along the descriptors of the message it starts with and no others. */
  lemma WrittenMarks(queue: seq<RawOut>, n: nat, total: int)
    requires AllUnfinished(queue) && 0 < n <= |Pending(queue[..Sharing(queue, true)])|
    ensures AllUnfinished(Written(queue, n)) && n <= |Pending(queue)|
    ensures MarksOf(queue, total) == MarkAt(total - |Pending(queue)|, Attached(queue)) + MarksOf(Written(queue, n), total)
  {
    hide Rest, MarkAt, Written, MarksOf, Pending;
    EmptyPending();
    SharedIsPending(queue, true);
    var k, q, rest := Sharing(queue, true), queue[0], queue[1..];
    RestLen(q);
    assert queue[..k][1..] == rest[..k - 1];
    PendingUnfold(queue[..k], rest[..k - 1]);
    MarksUnfold(queue, rest, total);
    WrittenUnfold(queue, rest, n);
    if n >= ToWrite(q) {
      WrittenKeepsMarks(rest, n - ToWrite(q), total);
    } else {
      PartlyWrittenMarks(queue, n, total);
    }
  }

  lemma MarksUnfold(queue: seq<RawOut>, rest: seq<RawOut>, total: int)
    requires AllUnfinished(queue) && queue != [] && rest == queue[1..]
    ensures MarksOf(queue, total) == MarkAt(total - |Pending(queue)|, Attached(queue)) + MarksOf(rest, total)
  {
  }

  lemma WrittenUnfold(queue: seq<RawOut>, rest: seq<RawOut>, n: nat)
    requires AllUnfinished(queue) && queue != [] && rest == queue[1..] && n > 0
    ensures n >= ToWrite(queue[0]) ==> Written(queue, n) == Written(rest, n - ToWrite(queue[0]))
  {
  }

  lemma SharedIsPending(queue: seq<RawOut>, first: bool)
    requires AllUnfinished(queue)
    ensures Pending(queue[..Sharing(queue, first)]) <= Pending(queue)
  {
    var k := Sharing(queue, first);
    PendingAppend(queue[..k], queue[k..]);
    assert queue[..k] + queue[k..] == queue;
  }

  lemma NoMark(at: int)
    ensures MarkAt(at, []) == []
  {
  }

  lemma PartlyWrittenMarks(queue: seq<RawOut>, n: nat, total: int)
    requires AllUnfinished(queue) && queue != [] && 0 < n < ToWrite(queue[0])
    ensures AllUnfinished(Written(queue, n)) && MarksOf(Written(queue, n), total) == MarksOf(queue[1..], total)
  {
    hide Pending;
    var after := Written(queue, n);
    assert after[1..] == queue[1..];
  }

  lemma {:induction false} AppendEnds(queue: seq<RawOut>, out: RawOut, total: int)
    requires AllUnfinished(queue) && Unfinished(out)
    ensures AllUnfinished(queue + [out])
    ensures Pending(queue + [out]) == Pending(queue) + Rest(out)
    ensures EndsOf(queue + [out], total + |Rest(out)|) == EndsOf(queue, total) + [total + |Rest(out)|]
  {
    var all, t := queue + [out], total + |Rest(out)|;
    PendingOne(out);
    PendingAppend(queue, [out]);
    EndsStep(all, t);
    if queue == [] {
      assert all[1..] == [];
      EmptyPending();
    } else {
      EndsStep(queue, total);
      hide EndsOf, Pending, Rest;
      assert all[1..] == queue[1..] + [out];
      AppendEnds(queue[1..], out, total);
    }
  }

  lemma PendingOne(out: RawOut)
    requires Unfinished(out)
    ensures Pending([out]) == Rest(out)
  {
    hide Rest;
    assert Pending([out]) == Rest(out) + Pending([]);
  }

  lemma {:induction false} AppendMarks(queue: seq<RawOut>, out: RawOut, total: int)
    requires AllUnfinished(queue) && Unfinished(out)
    ensures AllUnfinished(queue + [out])
    ensures MarksOf(queue + [out], total + |Rest(out)|)
         == MarksOf(queue, total) + MarkAt(total, FdsLeft(out))
  {
    hide Rest, MarkAt, Pending, FdsLeft;
    var all, t := queue + [out], total + |Rest(out)|;
    AppendEnds(queue, out, total);
    if queue != [] {
      assert all[1..] == queue[1..] + [out];
      AppendMarks(queue[1..], out, total);
      var head := MarkAt(total - |Pending(queue)|, FdsLeft(queue[0]));
      assert MarksOf(all, t) == head + MarksOf(all[1..], t);
      assert head + (MarksOf(queue[1..], total) + MarkAt(total, FdsLeft(out))) == head + MarksOf(queue[1..], total) + MarkAt(total, FdsLeft(out));
    } else {
      EmptyPending();
      assert all == [out] && all[1..] == [];
    }
  }

  lemma EmptyPending()
    ensures Pending([]) == []
  {
  }

  /** How many of `len` bytes the socket takes now: `None` if it would block. */
  function Takes(schedule: seq<nat>, len: nat): (n: Option<nat>)
    ensures n.Some? && len > 0 ==> 0 < n.value <= len
  {
    if schedule == [] || schedule[0] == 0 then None else Some(if schedule[0] < len then schedule[0] else len)
  }

  /** The writing end of the socket: what was sent, and an arbitrary schedule of short writes (0: would block). */
  class OutStream {
    var sent: seq<byte>
    var marks: seq<Mark>
    var schedule: seq<nat>

    constructor (schedule: seq<nat>)
      ensures sent == [] && marks == [] && this.schedule == schedule
    {
      sent, marks, this.schedule := [], [], schedule;
    }

    /** Takes at least one byte or would block; descriptors go with the first byte taken. */
    method Send(ios: seq<seq<byte>>, fds: seq<int>) returns (n: Option<nat>)
      requires Flatten(ios) != []
      modifies this
      ensures n == Takes(old(schedule), |Flatten(ios)|) && schedule == Later(old(schedule))
      ensures n.Some? ==> 0 < n.value <= |Flatten(ios)| && |schedule| < |old(schedule)|
      ensures n.Some? ==> sent == old(sent) + Flatten(ios)[..n.value] && marks == old(marks) + MarkAt(|old(sent)|, fds)
      ensures n.None? ==> sent == old(sent) && marks == old(marks)
    {
      if schedule == [] || schedule[0] == 0 {
        schedule := if schedule == [] then [] else schedule[1..];
        return None;
      }
      var all := Flatten(ios);
      var k := if schedule[0] < |all| then schedule[0] else |all|;
      schedule := schedule[1..];
      marks := marks + MarkAt(|sent|, fds);
      sent := sent + all[..k];
      return Some(k);
    }
  }

  // ----- One write -----

  const QUEUE_SLICES := 32
  const OFFER_SLICES := 34

  /** A write of the queue alone keeps the order of bytes and descriptors. */
  lemma QueueWriteInOrder(queue: seq<RawOut>, cap: nat, n: nat, total: int)
    requires AllUnfinished(queue) && queue != [] && cap > 0 && 0 < n <= |Flatten(Gather(queue, [], cap))|
    ensures n <= |Pending(queue)| && AllUnfinished(Written(queue, n))
    ensures Flatten(Gather(queue, [], cap))[..n] + Pending(Written(queue, n)) == Pending(queue)
    ensures MarksOf(queue, total) == MarkAt(total - |Pending(queue)|, Attached(queue)) + MarksOf(Written(queue, n), total)
  {
    hide Rest, Gather, Written, Flatten, MarksOf, MarkAt, Sharing, Pending, Attached;
    GatherShared(queue, cap);
    WrittenMarks(queue, n, total);
    WrittenPending(queue, n);
    PrefixThenRest(Flatten(Gather(queue, [], cap)), Pending(queue), n);
  }

  lemma GatherShared(queue: seq<RawOut>, cap: nat)
    requires AllUnfinished(queue) && cap > 0
    ensures Flatten(Gather(queue, [], cap)) <= Pending(queue[..Sharing(queue, true)]) <= Pending(queue)
  {
    hide Rest, Gather, Flatten, Sharing, Pending;
    EmptyFlatten();
    GatherHolds(queue, [], cap);
    SharedIsPending(queue, true);
    var shared := Pending(queue[..Sharing(queue, true)]);
    assert [] + shared == shared;
  }

  lemma EmptyFlatten()
    ensures Flatten([]) == []
  {
  }

  /** The new message is added to the list if there is room, alone if it carries descriptors. */
  predicate Joins(queue: seq<RawOut>, out: RawOut)
    requires AllUnfinished(queue)
  {
    var ios := Gather(queue, [], OFFER_SLICES);
    |ios| < OFFER_SLICES && (out.fds == [] || ios == [])
  }

  /** The scatter list of a queue and a new message behind it. */
  function Offer(queue: seq<RawOut>, out: RawOut): seq<seq<byte>>
    requires AllUnfinished(queue) && Unfinished(out)
  {
    var ios := Gather(queue, [], OFFER_SLICES);
    if Joins(queue, out) then Push(ios, out, OFFER_SLICES) else ios
  }

  function OfferFds(queue: seq<RawOut>, out: RawOut): seq<int>
    requires AllUnfinished(queue) && Unfinished(out)
  {
    if Joins(queue, out) && HoldsFds(out) then out.fds else Attached(queue)
  }

  /** What a write of the queue and the message behind it leaves of them. */
  lemma TakenOff(queue: seq<RawOut>, out: RawOut, n: nat)
    requires AllUnfinished(queue) && Unfinished(out) && (out.written > 0 ==> queue == []) && n <= |Pending(queue)| + |Rest(out)|
    ensures var queue', out' := QueueAfter(queue, n), OutAfter(queue, out, n);
      && out' == out.(written := out'.written) && out'.written <= |Bytes(out)| && (out'.written > 0 ==> queue' == [])
      && |Pending(queue')| + |Rest(out')| == |Pending(queue)| + |Rest(out)| - n
      && (Clear(queue) ==> Clear(queue')) && (MayFollow(queue, out) ==> MayFollow(queue', out'))
  {
    hide Rest, Clear, QueueAfter, Pending, MayFollow;
    QueueAfterPending(queue, n);
    RestAfter(queue, out, n);
    OutStays(queue, out, n);
    StillFollows(queue, QueueAfter(queue, n), out, OutAfter(queue, out, n));
    if queue == [] { EmptyQueue(n, 0); }
  }

  /** The queue may share a write with a new message behind it. */
  predicate MayFollow(queue: seq<RawOut>, out: RawOut) {
    Clear(queue) || out.fds != []
  }

  /** What is offered to the socket, for any queue: something, and not more than there is. */
  lemma OfferBounds(queue: seq<RawOut>, out: RawOut)
    requires AllUnfinished(queue) && Unfinished(out)
    ensures var all := Flatten(Offer(queue, out));
      && all != []
      && |all| <= |Pending(queue)| + |Rest(out)|
      && (!Joins(queue, out) ==> all <= Pending(queue) && queue != [])
      && (Joins(queue, out) && out.fds != [] ==> queue == [])
      && (Joins(queue, out) && MayFollow(queue, out) ==> all <= Pending(queue) + Rest(out))
  {
    hide Rest, Push, Flatten, Pending, Sharing, Gather;
    var ios := Gather(queue, [], OFFER_SLICES);
    EmptyFlatten();
    EmptyGather(OFFER_SLICES);
    EmptyPending();
    GatherHolds(queue, [], OFFER_SLICES);
    SharedIsPending(queue, true);
    var shared := Pending(queue[..Sharing(queue, true)]);
    assert [] + shared == shared;
    if Joins(queue, out) {
      PushFlatten(ios, out, OFFER_SLICES);
      if Clear(queue) {
        assert queue[..|queue|] == queue;
      }
    }
  }

  lemma EmptyGather(cap: nat)
    ensures Gather([], [], cap) == []
  {
  }

  /** The queue, and the message behind it, after `n` bytes of an offer were taken. */
  function OutAfter(queue: seq<RawOut>, out: RawOut, n: nat): RawOut
    requires AllUnfinished(queue)
  {
    if n <= |Pending(queue)| then out else out.(written := out.written + n - |Pending(queue)|)
  }

  function QueueAfter(queue: seq<RawOut>, n: nat): (after: seq<RawOut>)
    requires AllUnfinished(queue)
    ensures AllUnfinished(after)
  {
    Written(queue, if n <= |Pending(queue)| then n else |Pending(queue)|)
  }

  lemma QueueAfterPending(queue: seq<RawOut>, n: nat)
    requires AllUnfinished(queue)
    ensures AllUnfinished(QueueAfter(queue, n))
    ensures Pending(QueueAfter(queue, n)) == if n <= |Pending(queue)| then Pending(queue)[n..] else []
    ensures n >= |Pending(queue)| ==> QueueAfter(queue, n) == []
  {
    hide Rest;
    var k := if n <= |Pending(queue)| then n else |Pending(queue)|;
    WrittenPending(queue, k);
    var after := Written(queue, k);
    if after != [] {
      RestLen(after[0]);
    }
  }

  /** What a run of writes leaves of the queue and of the message behind it, and the bytes it sent. */
  datatype Writes = Writes(queue: seq<RawOut>, out: RawOut, bytes: seq<byte>)

  function OutOf(msg: Message, serial: Serial): RawOut {
    RawOut(0, EncodeHeader(msg, serial), msg.body, msg.fds)
  }

  /** All the writes of a new message behind the queue, on a socket with this schedule. */
  function WriteRun(queue: seq<RawOut>, out: RawOut, schedule: seq<nat>): (w: Writes)
    requires AllUnfinished(queue)
    ensures AllUnfinished(w.queue) && w.out == out.(written := w.out.written)
    decreases |schedule|
  {
    if !Unfinished(out) then Writes(queue, out, [])
    else
      var offer := Flatten(Offer(queue, out));
      var n := Takes(schedule, |offer|);
      if n.None? then Writes(queue, out, [])
      else
        var w := WriteRun(QueueAfter(queue, n.value), OutAfter(queue, out, n.value), Later(schedule));
        w.(bytes := Prefix(offer, n.value) + w.bytes)
  }

  lemma WriteStep(queue: seq<RawOut>, out: RawOut, schedule: seq<nat>)
    requires AllUnfinished(queue) && Unfinished(out)
    ensures WriteRun(queue, out, schedule) ==
      var offer := Flatten(Offer(queue, out));
      var n := Takes(schedule, |offer|);
      if n.None? then Writes(queue, out, [])
      else
        var w := WriteRun(QueueAfter(queue, n.value), OutAfter(queue, out, n.value), Later(schedule));
        Writes(w.queue, w.out, Prefix(offer, n.value) + w.bytes)
  {
  }

  lemma WriteDone(queue: seq<RawOut>, out: RawOut, schedule: seq<nat>)
    requires AllUnfinished(queue) && !Unfinished(out)
    ensures WriteRun(queue, out, schedule) == Writes(queue, out, [])
  {
  }

  /** The run so far has sent `wrote`, and goes on from here. */
  predicate Continues(run: Writes, wrote: seq<byte>, queue: seq<RawOut>, out: RawOut, schedule: seq<nat>)
    requires AllUnfinished(queue)
  {
    var w := WriteRun(queue, out, schedule);
    run.queue == w.queue && run.out == w.out && run.bytes == wrote + w.bytes
  }

  lemma NotBegun(queue: seq<RawOut>, out: RawOut, schedule: seq<nat>)
    requires AllUnfinished(queue)
    ensures Continues(WriteRun(queue, out, schedule), [], queue, out, schedule)
  {
  }

  lemma GoesOn(run: Writes, wrote: seq<byte>, queue: seq<RawOut>, out: RawOut, schedule: seq<nat>)
    requires AllUnfinished(queue) && Unfinished(out) && Continues(run, wrote, queue, out, schedule)
    ensures var offer := Flatten(Offer(queue, out)); var n := Takes(schedule, |offer|);
      if n.None? then run == Writes(queue, out, wrote)
      else Continues(run, wrote + Prefix(offer, n.value), QueueAfter(queue, n.value), OutAfter(queue, out, n.value), Later(schedule))
  {
    hide WriteRun, Flatten, Offer, QueueAfter, OutAfter, Takes, Prefix, Unfinished;
    WriteStep(queue, out, schedule);
  }

  lemma Ends(run: Writes, wrote: seq<byte>, queue: seq<RawOut>, out: RawOut, schedule: seq<nat>)
    requires AllUnfinished(queue) && out.written >= |Bytes(out)| && Continues(run, wrote, queue, out, schedule)
    ensures run == Writes(queue, out, wrote)
  {
    hide WriteRun;
    WriteDone(queue, out, schedule);
  }

  /** All the writes of a flush. */
  function FlushRun(queue: seq<RawOut>, schedule: seq<nat>): (w: (seq<RawOut>, seq<byte>))
    requires AllUnfinished(queue)
    ensures AllUnfinished(w.0)
    decreases |schedule|
  {
    var offer := Flatten(Gather(queue, [], QUEUE_SLICES));
    var n := if queue == [] then None else Takes(schedule, |offer|);
    if n.None? then (queue, [])
    else
      var w := FlushRun(QueueAfter(queue, n.value), Later(schedule));
      (w.0, Prefix(offer, n.value) + w.1)
  }

  lemma FlushStep(queue: seq<RawOut>, schedule: seq<nat>)
    requires AllUnfinished(queue)
    ensures FlushRun(queue, schedule) ==
      var offer := Flatten(Gather(queue, [], QUEUE_SLICES));
      var n := if queue == [] then None else Takes(schedule, |offer|);
      if n.None? then (queue, [])
      else
        var w := FlushRun(QueueAfter(queue, n.value), Later(schedule));
        (w.0, Prefix(offer, n.value) + w.1)
  {
  }

  /** On a socket that goes along a new message is written in full, and the queue before it. */
  lemma {:induction false} WriteEmpties(queue: seq<RawOut>, out: RawOut, schedule: seq<nat>)
    requires AllUnfinished(queue) && out.written <= |Bytes(out)| && out.header != [] && (out.written > 0 ==> queue == [])
    requires Generous(schedule, |Pending(queue)| + |Rest(out)|)
    ensures Enqueued(WriteRun(queue, out, schedule)) == []
    decreases |schedule|
  {
    hide WriteRun, Offer, Flatten, Pending, QueueAfter, OutAfter, Rest, Clear, MayFollow;
    if !Unfinished(out) {
      WriteDone(queue, out, schedule);
    } else {
      OfferBounds(queue, out);
      WriteStep(queue, out, schedule);
      var n := Takes(schedule, |Flatten(Offer(queue, out))|).value;
      TakenOff(queue, out, n);
      WriteEmpties(QueueAfter(queue, n), OutAfter(queue, out, n), Later(schedule));
    }
  }

  /** A flush on a socket that goes along empties the queue. */
  lemma {:induction false} FlushEmpties(queue: seq<RawOut>, schedule: seq<nat>)
    requires AllUnfinished(queue) && Generous(schedule, |Pending(queue)|)
    ensures FlushRun(queue, schedule).0 == []
    decreases |schedule|
  {
    hide FlushRun, Gather, Flatten, Pending, QueueAfter;
    FlushStep(queue, schedule);
    if queue != [] {
      PendingPositive(queue);
      GatherNotEmpty(queue, QUEUE_SLICES);
      var n := Takes(schedule, |Flatten(Gather(queue, [], QUEUE_SLICES))|).value;
      QueueAfterPending(queue, n);
      FlushEmpties(QueueAfter(queue, n), Later(schedule));
    }
  }

  function Prefix(bytes: seq<byte>, n: nat): seq<byte> {
    if n <= |bytes| then bytes[..n] else bytes
  }

  /** The queue with the message, if something of it is left. */
  function Enqueued(w: Writes): (queue: seq<RawOut>)
    requires AllUnfinished(w.queue)
    ensures AllUnfinished(queue)
  {
    if Unfinished(w.out) then w.queue + [w.out] else w.queue
  }

  /** A write of the queue and a message that may follow it keeps the order of the bytes. */
  lemma OfferKeepsBytes(queue: seq<RawOut>, out: RawOut, n: nat)
    requires AllUnfinished(queue) && Unfinished(out) && MayFollow(queue, out)
    requires 0 < n <= |Flatten(Offer(queue, out))|
    ensures AllUnfinished(QueueAfter(queue, n)) && OutAfter(queue, out, n).written <= |Bytes(out)|
    ensures Flatten(Offer(queue, out))[..n] + (Pending(QueueAfter(queue, n)) + Rest(OutAfter(queue, out, n))) == Pending(queue) + Rest(out)
  {
    hide Flatten, Pending, Sharing, Gather, QueueAfter, OutAfter, Rest, Offer, Joins, MayFollow;
    OfferBounds(queue, out);
    QueueAfterPending(queue, n);
    RestBehind(out);
    RestAfter(queue, out, n);
    CutSum(Pending(queue), Rest(out), n);
    PrefixThenRest(Flatten(Offer(queue, out)), Pending(queue) + Rest(out), n);
  }

  lemma RestAfter(queue: seq<RawOut>, out: RawOut, n: nat)
    requires AllUnfinished(queue) && Unfinished(out) && n <= |Pending(queue)| + |Rest(out)|
    ensures OutAfter(queue, out, n).written <= |Bytes(out)|
    ensures Rest(OutAfter(queue, out, n)) == if n <= |Pending(queue)| then Rest(out) else Rest(out)[n - |Pending(queue)|..]
  {
    hide Pending;
  }

  lemma CutSum(a: seq<byte>, b: seq<byte>, n: nat)
    requires n <= |a| + |b|
    ensures (a + b)[n..] == if n <= |a| then a[n..] + b else b[n - |a|..]
  {
  }

  /** And the order of the descriptors: those of the first message of a write go with it, and no others. */
  lemma OfferKeepsMarks(queue: seq<RawOut>, out: RawOut, n: nat, total: int)
    requires AllUnfinished(queue) && Unfinished(out) && MayFollow(queue, out)
    requires 0 < n <= |Flatten(Offer(queue, out))|
    requires out.written > 0 ==> queue == []
    ensures AllUnfinished(QueueAfter(queue, n))
    ensures MarkAt(total - |Pending(queue)|, OfferFds(queue, out)) + (MarksOf(QueueAfter(queue, n), total) + MarkAt(total, FdsLeft(OutAfter(queue, out, n))))
         == MarksOf(queue, total) + MarkAt(total, FdsLeft(out))
  {
    hide Flatten, Sharing, Gather, Written, Offer, Rest, MarkAt, Pending, MarksOf;
    OfferBounds(queue, out);
    NoMark(total);
    NoMark(total - |Pending(queue)|);
    if queue == [] {
      EmptyQueue(n, total);
    } else {
      var k := if n <= |Pending(queue)| then n else |Pending(queue)|;
      PendingPositive(queue);
      TakenIsShared(queue, out, n);
      assert queue[..|queue|] == queue;
      WrittenMarks(queue, k, total);
    }
  }

  lemma EmptyQueue(n: nat, total: int)
    ensures Pending([]) == [] && MarksOf([], total) == [] && QueueAfter([], n) == [] && Gather([], [], OFFER_SLICES) == []
  {
  }

  lemma PendingPositive(queue: seq<RawOut>)
    requires AllUnfinished(queue) && queue != []
    ensures |Pending(queue)| > 0
  {
    RestLen(queue[0]);
  }

  /** One write: bytes that were in order before it are in order after it. */
  lemma BytesStayInOrder(sent: seq<byte>, queue: seq<RawOut>, out: RawOut, n: nat, all: seq<byte>)
    requires AllUnfinished(queue) && Unfinished(out) && MayFollow(queue, out)
    requires 0 < n <= |Flatten(Offer(queue, out))|
    requires sent + (Pending(queue) + Rest(out)) == all
    ensures AllUnfinished(QueueAfter(queue, n)) && OutAfter(queue, out, n).written <= |Bytes(out)|
    ensures (sent + Flatten(Offer(queue, out))[..n]) + (Pending(QueueAfter(queue, n)) + Rest(OutAfter(queue, out, n))) == all
  {
    hide Rest, Clear, Flatten, Pending, Offer, QueueAfter, MayFollow;
    OfferKeepsBytes(queue, out, n);
    var taken, left := Flatten(Offer(queue, out))[..n], Pending(QueueAfter(queue, n)) + Rest(OutAfter(queue, out, n));
    assert sent + taken + left == sent + (taken + left);
  }

  /** And so are the descriptors, where `at` is the number of bytes sent before. */
  lemma MarksStayInOrder(at: nat, marks: seq<Mark>, queue: seq<RawOut>, out: RawOut, n: nat, due: seq<Mark>, total: int)
    requires AllUnfinished(queue) && Unfinished(out) && MayFollow(queue, out)
    requires 0 < n <= |Flatten(Offer(queue, out))|
    requires if out.written > 0 then queue == [] else at == total - |Pending(queue)|
    requires marks + (MarksOf(queue, total) + MarkAt(total, FdsLeft(out))) == due
    ensures AllUnfinished(QueueAfter(queue, n))
    ensures (marks + MarkAt(at, OfferFds(queue, out)))
      + (MarksOf(QueueAfter(queue, n), total) + MarkAt(total, FdsLeft(OutAfter(queue, out, n)))) == due
  {
    hide MarksOf, Clear, Flatten, Pending, MarkAt, Offer, QueueAfter, OutAfter, MayFollow, Gather;
    OfferKeepsMarks(queue, out, n, total);
    if out.written > 0 {
      NoMark(at);
      NoMark(total - |Pending(queue)|);
    }
    var mark, left := MarkAt(at, OfferFds(queue, out)), MarksOf(QueueAfter(queue, n), total) + MarkAt(total, FdsLeft(OutAfter(queue, out, n)));
    assert marks + mark + left == marks + (mark + left);
  }

  /** Of the queue's bytes, an offer takes only those of messages that can share a write. */
  lemma TakenIsShared(queue: seq<RawOut>, out: RawOut, n: nat)
    requires AllUnfinished(queue) && Unfinished(out) && MayFollow(queue, out) && queue != []
    requires 0 < n <= |Flatten(Offer(queue, out))|
    ensures n <= |Pending(queue)| ==> n <= |Pending(queue[..Sharing(queue, true)])|
    ensures n > |Pending(queue)| ==> Sharing(queue, true) == |queue| && out.fds == []
    ensures Pending(queue[..|queue|]) == Pending(queue)
  {
    hide Flatten, Gather, Rest, Push, Pending;
    assert queue[..|queue|] == queue;
    OfferBounds(queue, out);
    EmptyFlatten();
    GatherHolds(queue, [], OFFER_SLICES);
    var shared := Pending(queue[..Sharing(queue, true)]);
    assert [] + shared == shared;
  }

  /** Headers are told apart by their fixed part, which holds the serial. */
  ghost predicate DistinctHeader(queue: seq<RawOut>, out: RawOut) {
    && |out.header| >= HEADER_LEN
    && forall i :: 0 <= i < |queue| && HoldsFds(queue[i]) ==>
         |queue[i].header| >= HEADER_LEN && queue[i].header[..HEADER_LEN] != out.header[..HEADER_LEN]
  }

  /**
   Exactly when a write with a new message keeps the order of the bytes: when the message may follow the queue,
   or when the queue alone fills the list. Otherwise the message overtakes one that carries descriptors.
   */
  lemma OfferInOrderIff(queue: seq<RawOut>, out: RawOut)
    requires AllUnfinished(queue) && Unfinished(out) && out.written == 0 && DistinctHeader(queue, out)
    ensures Flatten(Offer(queue, out)) <= Pending(queue) + Rest(out)
       <==> MayFollow(queue, out) || |Gather(queue, [], OFFER_SLICES)| == OFFER_SLICES
  {
    EmptyFlatten();
    GatherHolds(queue, [], OFFER_SLICES);
    OfferBounds(queue, out);
    if !MayFollow(queue, out) && |Gather(queue, [], OFFER_SLICES)| < OFFER_SLICES {
      OfferOvertakes(queue, out);
    }
  }

  lemma OfferOvertakes(queue: seq<RawOut>, out: RawOut)
    requires AllUnfinished(queue) && Unfinished(out) && out.written == 0 && DistinctHeader(queue, out)
    requires !MayFollow(queue, out) && |Gather(queue, [], OFFER_SLICES)| < OFFER_SLICES
    ensures !(Flatten(Offer(queue, out)) <= Pending(queue) + Rest(out))
  {
    hide Gather, Sharing, Flatten, Pending, Rest, Offer;
    var k, ios := Sharing(queue, true), Gather(queue, [], OFFER_SLICES);
    SharingEnds(queue, true);
    GatherHolds(queue, [], OFFER_SLICES);
    EmptyFlatten();
    PendingAt(queue, k);
    OverlongOffer(queue, out);
    FreshRest(queue[k]);
    hide Clear;
    var before := Pending(queue[..k]);
    assert Flatten(ios) == before by { assert [] + before == before; }
    DifferentHeads(before, queue[k], Pending(queue[k + 1..]), out.header, Rest(out), Flatten(Offer(queue, out)));
  }

  /** A new message that joins the list starts right behind what the list holds. */
  lemma OverlongOffer(queue: seq<RawOut>, out: RawOut)
    requires AllUnfinished(queue) && Unfinished(out) && out.written == 0 && Joins(queue, out)
    ensures Flatten(Gather(queue, [], OFFER_SLICES)) + out.header <= Flatten(Offer(queue, out))
  {
    hide Gather, Flatten, Push;
    StartsWithHeader(Gather(queue, [], OFFER_SLICES), out);
  }

  lemma PendingAt(queue: seq<RawOut>, k: nat)
    requires AllUnfinished(queue) && k < |queue|
    ensures Pending(queue) == Pending(queue[..k]) + (Rest(queue[k]) + Pending(queue[k + 1..]))
  {
    hide Rest, Pending;
    PendingUnfold(queue[k..], queue[k + 1..]);
    assert queue[..k] + queue[k..] == queue;
    PendingAppend(queue[..k], queue[k..]);
  }

  lemma PendingUnfold(tail: seq<RawOut>, rest: seq<RawOut>)
    requires AllUnfinished(tail) && tail != [] && rest == tail[1..]
    ensures Pending(tail) == Rest(tail[0]) + Pending(rest)
  {
  }

  lemma {:induction false} SharingEnds(queue: seq<RawOut>, first: bool)
    requires Sharing(queue, first) < |queue|
    ensures HoldsFds(queue[Sharing(queue, first)])
  {
    if Sharing(queue, first) > 0 {
      SharingEnds(queue[1..], false);
    }
  }

  lemma StartsWithHeader(ios: seq<seq<byte>>, out: RawOut)
    requires Unfinished(out) && out.written == 0 && |ios| < OFFER_SLICES
    ensures Flatten(ios) + out.header <= Flatten(Push(ios, out, OFFER_SLICES))
  {
    var (buf0, buf1) := BufsLeft(out);
    assert buf0 == out.header;
    FlattenPush(ios, buf0);
    if buf1.Some? && |ios| + 1 < OFFER_SLICES {
      FlattenPush(ios + [buf0], buf1.value);
    }
  }

  lemma DifferentHeads(before: seq<byte>, blocked: RawOut, after: seq<byte>, header: seq<byte>, rest: seq<byte>, offer: seq<byte>)
    requires |blocked.header| >= HEADER_LEN && |header| >= HEADER_LEN && blocked.header[..HEADER_LEN] != header[..HEADER_LEN]
    requires before + header <= offer
    ensures !(offer <= before + (Bytes(blocked) + after) + rest)
  {
    var i :| 0 <= i < HEADER_LEN && blocked.header[i] != header[i];
    assert offer[|before| + i] == header[i];
    assert (before + (Bytes(blocked) + after) + rest)[|before| + i] == blocked.header[i];
  }

  // ----- A whole call -----

  /** After the writes of a new message, bytes sent and bytes left are those that were due, in order. */
  ghost predicate KeepsOrder(queue: seq<RawOut>, out: RawOut, schedule: seq<nat>)
    requires AllUnfinished(queue) && out.written <= |Bytes(out)|
  {
    var w := WriteRun(queue, out, schedule);
    w.bytes + Pending(Enqueued(w)) == Pending(queue) + Rest(out)
  }

  lemma {:induction false} FollowerKeepsOrder(queue: seq<RawOut>, out: RawOut, schedule: seq<nat>)
    requires AllUnfinished(queue) && out.written <= |Bytes(out)| && out.header != [] && MayFollow(queue, out)
    ensures KeepsOrder(queue, out, schedule)
    decreases |schedule|
  {
    hide WriteRun, Offer, Flatten, QueueAfter, OutAfter, Pending, Rest, MayFollow, Clear;
    if !Unfinished(out) {
      WriteDone(queue, out, schedule);
      NothingLeft(queue, out);
    } else {
      WriteStep(queue, out, schedule);
      OfferBounds(queue, out);
      var offer := Flatten(Offer(queue, out));
      var n := Takes(schedule, |offer|);
      if n.None? {
        AppendEnds(queue, out, 0);
        assert [] + (Pending(queue) + Rest(out)) == Pending(queue) + Rest(out);
      } else {
        var queue', out' := QueueAfter(queue, n.value), OutAfter(queue, out, n.value);
        OfferKeepsBytes(queue, out, n.value);
        OutStays(queue, out, n.value);
        StillFollows(queue, queue', out, out');
        hide KeepsOrder;
        FollowerKeepsOrder(queue', out', Later(schedule));
        OneWriteFurther(queue, out, schedule, n.value);
      }
    }
  }

  lemma OneWriteFurther(queue: seq<RawOut>, out: RawOut, schedule: seq<nat>, n: nat)
    requires AllUnfinished(queue) && Unfinished(out)
    requires var offer := Flatten(Offer(queue, out)); 0 < n <= |offer| && Takes(schedule, |offer|) == Some(n)
    requires var queue', out' := QueueAfter(queue, n), OutAfter(queue, out, n);
      && out'.written <= |Bytes(out')| && KeepsOrder(queue', out', Later(schedule))
      && Flatten(Offer(queue, out))[..n] + (Pending(queue') + Rest(out')) == Pending(queue) + Rest(out)
    ensures KeepsOrder(queue, out, schedule)
  {
    hide WriteRun, Offer, Flatten, QueueAfter, OutAfter, Pending, Rest, Takes, Unfinished;
    WriteStep(queue, out, schedule);
    var part, w := Flatten(Offer(queue, out))[..n], WriteRun(QueueAfter(queue, n), OutAfter(queue, out, n), Later(schedule));
    assert part + w.bytes + Pending(Enqueued(w)) == part + (w.bytes + Pending(Enqueued(w)));
  }

  lemma NothingLeft(queue: seq<RawOut>, out: RawOut)
    requires AllUnfinished(queue) && out.written == |Bytes(out)|
    ensures [] + Pending(queue) == Pending(queue) + Rest(out)
  {
  }

  lemma OutStays(queue: seq<RawOut>, out: RawOut, n: nat)
    requires AllUnfinished(queue)
    ensures OutAfter(queue, out, n) == out.(written := OutAfter(queue, out, n).written)
    ensures Clear(queue) ==> Clear(QueueAfter(queue, n))
  {
    WrittenClear(queue, if n <= |Pending(queue)| then n else |Pending(queue)|);
  }

  /** A full list has room for the first message and one behind it, so that the blocked one is further back. */
  lemma FullList(queue: seq<RawOut>)
    requires AllUnfinished(queue) && queue != [] && |Gather(queue, [], OFFER_SLICES)| == OFFER_SLICES
    ensures |queue| > 1 && !HoldsFds(queue[1])
    ensures ToWrite(queue[0]) <= |Flatten(Gather(queue, [], OFFER_SLICES))|
  {
    hide Rest, Flatten, Pending;
    var more := Push([], queue[0], OFFER_SLICES);
    PushFlatten([], queue[0], OFFER_SLICES);
    RestLen(queue[0]);
    assert |more| <= 2;
    EmptyFlatten();
    GatherHolds(queue[1..], more, OFFER_SLICES);
  }

  /** Short writes that clear the queue message by message until the list has room, and then all that it offers. */
  function OvertakingSchedule(queue: seq<RawOut>, out: RawOut): seq<nat>
    requires AllUnfinished(queue) && Unfinished(out)
  {
    if queue == [] || |Gather(queue, [], OFFER_SLICES)| < OFFER_SLICES then [|Flatten(Offer(queue, out))|]
    else [ToWrite(queue[0])] + OvertakingSchedule(queue[1..], out)
  }

  /** If the new message may not follow the queue, then this sequence of short writes makes it overtake. */
  lemma {:induction false} Overtakes(queue: seq<RawOut>, out: RawOut)
    requires AllUnfinished(queue) && Unfinished(out) && out.written == 0 && DistinctHeader(queue, out)
    requires !MayFollow(queue, out)
    ensures !(WriteRun(queue, out, OvertakingSchedule(queue, out)).bytes <= Pending(queue) + Rest(out))
    decreases |queue|
  {
    hide WriteRun, Offer, Flatten, Gather, Pending, Rest, Sharing;
    EmptySharing();
    OfferBounds(queue, out);
    var offer, schedule := Flatten(Offer(queue, out)), OvertakingSchedule(queue, out);
    if |Gather(queue, [], OFFER_SLICES)| < OFFER_SLICES {
      OfferOvertakes(queue, out);
      WriteStep(queue, out, schedule);
      WriteStops(QueueAfter(queue, |offer|), OutAfter(queue, out, |offer|));
      assert offer[..|offer|] + [] == offer;
    } else {
      OfferListBound(queue);
      FullList(queue);
      SharingSkips(queue);
      var k, rest := ToWrite(queue[0]), queue[1..];
      var later := OvertakingSchedule(rest, out);
      Overtakes(rest, out);
      FirstWritten(queue, out);
      WriteStep(queue, out, schedule);
      assert Takes(schedule, |offer|) == Some(k) && Later(schedule) == later;
      var bytes := WriteRun(rest, out, later).bytes;
      PendingUnfold(queue, rest);
      NotBehindPrefix(Rest(queue[0]), bytes, Pending(rest), Rest(out));
    }
  }

  lemma EmptySharing()
    ensures Sharing([], true) == 0
  {
  }

  lemma OfferListBound(queue: seq<RawOut>)
    requires AllUnfinished(queue)
    ensures |Gather(queue, [], OFFER_SLICES)| <= OFFER_SLICES
  {
    GatherHolds(queue, [], OFFER_SLICES);
  }

  lemma SharingSkips(queue: seq<RawOut>)
    requires |queue| > 1 && !HoldsFds(queue[1])
    ensures Sharing(queue, true) == 1 + Sharing(queue[1..], true)
  {
  }

  lemma WriteStops(queue: seq<RawOut>, out: RawOut)
    requires AllUnfinished(queue)
    ensures WriteRun(queue, out, []).bytes == []
  {
  }

  /** Exactly the first message is written of a queue that fills the list. */
  lemma FirstWritten(queue: seq<RawOut>, out: RawOut)
    requires AllUnfinished(queue) && queue != [] && Unfinished(out)
    requires |Gather(queue, [], OFFER_SLICES)| == OFFER_SLICES && ToWrite(queue[0]) <= |Flatten(Gather(queue, [], OFFER_SLICES))|
    ensures var k, offer := ToWrite(queue[0]), Flatten(Offer(queue, out));
      && 0 < k <= |offer| && offer[..k] == Rest(queue[0])
      && QueueAfter(queue, k) == queue[1..] && OutAfter(queue, out, k) == out
  {
    hide Gather, Flatten, Rest, Sharing, Pending;
    GatherShared(queue, OFFER_SLICES);
    RestLen(queue[0]);
    PendingUnfold(queue, queue[1..]);
    assert Written(queue, ToWrite(queue[0])) == Written(queue[1..], 0);
  }

  lemma NotBehindPrefix(a: seq<byte>, bytes: seq<byte>, pending: seq<byte>, rest: seq<byte>)
    requires !(bytes <= pending + rest)
    ensures !(a + bytes <= a + pending + rest)
  {
    var all := a + pending + rest;
    assert all[|a|..] == pending + rest;
    assert (a + bytes)[|a|..] == bytes;
  }

  /**
   Exactly when a call that sends a new message keeps the order of the bytes, whatever the socket does: when the
   message may follow the queue, that is carries descriptors itself or no message behind the head does.
   */
  lemma OrderKeptIff(queue: seq<RawOut>, out: RawOut)
    requires AllUnfinished(queue) && Unfinished(out) && out.written == 0 && DistinctHeader(queue, out)
    ensures MayFollow(queue, out) <==> forall schedule :: KeepsOrder(queue, out, schedule)
  {
    hide MayFollow, WriteRun;
    if MayFollow(queue, out) {
      forall schedule ensures KeepsOrder(queue, out, schedule) { FollowerKeepsOrder(queue, out, schedule); }
    } else {
      Overtakes(queue, out);
      assert !KeepsOrder(queue, out, OvertakingSchedule(queue, out));
    }
  }

  /** The table of message ends fits the queue: those of queued messages come last, all others are behind us. */
  ghost predicate EndsFit(ends: seq<int>, queue: seq<RawOut>, total: int)
    requires AllUnfinished(queue)
  {
    && |queue| <= |ends|
    && ends[|ends| - |queue|..] == EndsOf(queue, total)
    && forall i :: 0 <= i < |ends| - |queue| ==> ends[i] <= total - |Pending(queue)|
  }

  lemma EndsKept(ends: seq<int>, queue: seq<RawOut>, n: nat, total: int)
    requires AllUnfinished(queue) && EndsFit(ends, queue, total) && n <= |Pending(queue)|
    ensures AllUnfinished(Written(queue, n)) && EndsFit(ends, Written(queue, n), total)
    ensures |Written(queue, n)| <= |queue|
  {
    hide Rest, Pending, Written, EndsOf;
    WrittenPending(queue, n);
    WrittenEnds(queue, n, total);
    var after, cut := Written(queue, n), |ends| - |queue|;
    assert ends[|ends| - |after|..] == ends[cut..][|queue| - |after|..];
    forall i | cut <= i < |ends| - |after|
      ensures ends[i] <= total - |Pending(after)|
    {
      assert ends[i] == ends[cut..][i - cut];
    }
  }

  datatype SendError = MarshalFailure(fault: MarshalError) | TooManyFds

  /** Why a message is refused: its first invalid name, before its descriptors. */
  function Refusal(msg: Message, rules: Rules): SendError {
    if FirstFault(msg.dyn, rules).Some? then MarshalFailure(FirstFault(msg.dyn, rules).value) else TooManyFds
  }

  class SendState {
    const withFd: bool
    var idx: nat
    var queue: seq<RawOut>
    ghost var promised: seq<byte>  // header and body of every accepted message, in order of acceptance
    ghost var dueMarks: seq<Mark>  // their descriptors, each at the first byte of its message
    ghost var ends: seq<int>       // where in `promised` the message with a given index ends

    constructor (withFd: bool)
      ensures this.withFd == withFd && idx == 0 && queue == [] && promised == [] && dueMarks == [] && ends == []
      ensures Valid()
    {
      this.withFd, idx, queue, promised, dueMarks, ends := withFd, 0, [], [], [], [];
    }

    ghost predicate Valid()
      reads this
    {
      && AllUnfinished(queue)
      && (forall i :: 0 <= i < |queue| ==> |queue[i].fds| <= if withFd then MAX_FDS else 0)
      && idx == |ends|
      && EndsFit(ends, queue, |promised|)
    }

    /** As many bytes were sent and are still to be sent as were promised. */
    ghost predicate Counts(stream: OutStream)
      reads this, stream
      requires AllUnfinished(queue)
    {
      |stream.sent| + |Pending(queue)| == |promised|
    }

    /** Bytes sent and bytes still to be sent are what was promised, in order, and so are the descriptors. */
    ghost predicate InOrder(stream: OutStream)
      reads this, stream
      requires AllUnfinished(queue)
    {
      && stream.sent + Pending(queue) == promised
      && stream.marks + MarksOf(queue, |promised|) == dueMarks
    }

    /** As `InOrder`, while a new message is being written behind the queue. */
    ghost predicate InOrderWith(stream: OutStream, out0: RawOut, out: RawOut)
      reads this, stream
      requires AllUnfinished(queue) && out.written <= |Bytes(out)|
    {
      && stream.sent + (Pending(queue) + Rest(out)) == promised + Bytes(out0)
      && stream.marks + (MarksOf(queue, |promised|) + MarkAt(|promised|, FdsLeft(out))) == dueMarks + MarkAt(|promised|, out0.fds)
    }

    lemma StartInOrder(stream: OutStream, out0: RawOut)
      requires AllUnfinished(queue) && InOrder(stream) && out0.written == 0
      ensures InOrderWith(stream, out0, out0)
    {
      hide MarkAt, Pending, MarksOf;
      assert Rest(out0) == Bytes(out0);
      assert stream.sent + Pending(queue) + Bytes(out0) == promised + Bytes(out0);
      assert stream.marks + MarksOf(queue, |promised|) + MarkAt(|promised|, out0.fds) == dueMarks + MarkAt(|promised|, out0.fds);
    }

    function CurrentIdx(): int
      reads this
    {
      idx - |queue|
    }

    /** A message has been written in full exactly when the current index has passed its own. */
    lemma TransmittedIffPassed(stream: OutStream, i: nat)
      requires Valid() && Counts(stream) && i < idx
      ensures ends[i] <= |stream.sent| <==> CurrentIdx() > i
    {
      UnfinishedEnds(queue, |promised|);
      if i >= CurrentIdx() {
        assert ends[i] == ends[idx - |queue|..][i - CurrentIdx()];
      }
    }

    /** Bytes of the queue were written. */
    method Wrote(stream: OutStream, n: nat) returns (left: nat)
      requires Valid()
      modifies this`queue
      ensures Valid()
      ensures var k := if n < |Pending(old(queue))| then n else |Pending(old(queue))|;
        && queue == Written(old(queue), k) && left == n - k
        && Pending(queue) == Pending(old(queue))[k..]
        && |queue| <= |old(queue)|
    {
      hide Rest, Pending, Written, EndsOf;
      ghost var k := if n < |Pending(queue)| then n else |Pending(queue)|;
      WrittenPending(queue, k);
      WrittenFds(queue, k, if withFd then MAX_FDS else 0);
      EndsKept(ends, queue, k, |promised|);
      queue, left := UpdateWritten(queue, n);
    }

    /**
     `finish_sending_next`: writes the queue as far as the socket goes along. Nothing is promised anew, and
     what was promised is kept, in order.
     */
    method FinishSendingNext(stream: OutStream) returns (current: int)
      requires Valid() && Counts(stream)
      modifies this`queue, stream
      ensures Valid() && Counts(stream) && (old(InOrder(stream)) ==> InOrder(stream))
      ensures current == CurrentIdx() >= old(CurrentIdx()) && old(stream.sent) <= stream.sent
      ensures old(Clear(queue)) ==> Clear(queue)
      ensures var w := FlushRun(old(queue), old(stream.schedule)); queue == w.0 && stream.sent == old(stream.sent) + w.1
    {
      hide Rest, Gather, Written, MarksOf, Clear, EndsOf, Flatten, Pending, FlushRun;
      ghost var run, wrote: seq<byte> := FlushRun(queue, stream.schedule), [];
      while queue != []
        invariant Valid() && Counts(stream) && (old(InOrder(stream)) ==> InOrder(stream))
        invariant CurrentIdx() >= old(CurrentIdx()) && stream.sent == old(stream.sent) + wrote
        invariant old(Clear(queue)) ==> Clear(queue)
        invariant var w := FlushRun(queue, stream.schedule); run.0 == w.0 && run.1 == wrote + w.1
        decreases |stream.schedule|
      {
        FlushStep(queue, stream.schedule);
        GatherNotEmpty(queue, QUEUE_SLICES);
        ghost var before := FlushRun(queue, stream.schedule);
        var more := FlushOnce(stream);
        if !more {
          assert run.1 == wrote;
          break;
        }
        ghost var part := stream.sent[|old(stream.sent) + wrote|..];
        assert before.1 == part + FlushRun(queue, stream.schedule).1;
        wrote := wrote + part;
      }
      FlushStep(queue, stream.schedule);
      current := CurrentIdx();
    }

    /** One write of the queue. */
    method FlushOnce(stream: OutStream) returns (more: bool)
      requires Valid() && Counts(stream) && queue != []
      modifies this`queue, stream
      ensures Valid() && Counts(stream) && (old(InOrder(stream)) ==> InOrder(stream))
      ensures |queue| <= |old(queue)| && stream.schedule == Later(old(stream.schedule))
      ensures old(Clear(queue)) ==> Clear(queue)
      ensures var offer := Flatten(Gather(old(queue), [], QUEUE_SLICES)); var n := Takes(old(stream.schedule), |offer|);
        && more == n.Some?
        && (more ==> queue == QueueAfter(old(queue), n.value) && stream.sent == old(stream.sent) + Prefix(offer, n.value))
        && (!more ==> queue == old(queue) && stream.sent == old(stream.sent))
      ensures more ==> |stream.schedule| < |old(stream.schedule)|
    {
      hide Rest, Gather, Written, MarksOf, Clear, EndsOf, Flatten, Pending;
      var ios, fds := Populate(queue, QUEUE_SLICES);
      GatherNotEmpty(queue, QUEUE_SLICES);
      var n := stream.Send(ios, fds);
      if n.None? { return false; }
      QueueWriteInOrder(queue, QUEUE_SLICES, n.value, |promised|);
      WrittenClear(queue, n.value);
      var left := Wrote(stream, n.value);
      assert left == 0;
      return true;
    }

    /** A new message is being written behind the queue: the queue goes first, and all bytes are counted. */
    ghost predicate Midway(stream: OutStream, out0: RawOut, out: RawOut)
      reads this, stream
    {
      && Valid()
      && out == out0.(written := out.written) && out.written <= |Bytes(out0)|
      && (out.written > 0 ==> queue == [])
      && |stream.sent| + |Pending(queue)| + |Rest(out)| == |promised| + |Bytes(out0)|
    }

    /** Hands the queue, and the new message behind it if it may join, to the socket. */
    method SendOffer(stream: OutStream, out: RawOut) returns (n: Option<nat>)
      requires AllUnfinished(queue) && Unfinished(out)
      modifies stream
      ensures n == Takes(old(stream.schedule), |Flatten(Offer(queue, out))|) && stream.schedule == Later(old(stream.schedule))
      ensures n.Some? ==> 0 < n.value <= |Flatten(Offer(queue, out))| && |stream.schedule| < |old(stream.schedule)|
      ensures n.Some? ==> stream.sent == old(stream.sent) + Flatten(Offer(queue, out))[..n.value]
      ensures n.Some? ==> stream.marks == old(stream.marks) + MarkAt(|old(stream.sent)|, OfferFds(queue, out))
      ensures n.None? ==> stream.sent == old(stream.sent) && stream.marks == old(stream.marks)
    {
      hide Rest, Gather, Flatten, Pending, Push, MarkAt;
      var ios, fds := Populate(queue, OFFER_SLICES);
      if |ios| < OFFER_SLICES && (out.fds == [] || ios == []) {
        if HoldsFds(out) { fds := out.fds; }
        ios := Push(ios, out, OFFER_SLICES);
      }
      OfferBounds(queue, out);
      n := stream.Send(ios, fds);
    }

    /** One write of the queue and the new message behind it. */
    method OfferOnce(stream: OutStream, ghost out0: RawOut, out: RawOut) returns (taken: bool, out': RawOut)
      requires Midway(stream, out0, out) && Unfinished(out)
      modifies this`queue, stream
      ensures Midway(stream, out0, out')
      ensures old(InOrderWith(stream, out0, out)) && MayFollow(old(queue), out) ==> InOrderWith(stream, out0, out') && MayFollow(queue, out')
      ensures |queue| <= |old(queue)| && old(stream.sent) <= stream.sent
      ensures old(Clear(queue)) ==> Clear(queue)
      ensures if taken then |stream.schedule| < |old(stream.schedule)| else out' == out
      ensures stream.schedule == Later(old(stream.schedule))
      ensures var offer := Flatten(Offer(old(queue), out)); var n := Takes(old(stream.schedule), |offer|);
        && taken == n.Some?
        && (taken ==> queue == QueueAfter(old(queue), n.value) && out' == OutAfter(old(queue), out, n.value))
        && (taken ==> stream.sent == old(stream.sent) + Prefix(offer, n.value))
        && (!taken ==> queue == old(queue) && stream.sent == old(stream.sent))
    {
      hide Rest, MarksOf, Clear, EndsFit, Flatten, Pending, MarkAt, Offer, OfferFds, MayFollow, QueueAfter, OutAfter, FdsLeft, Takes, Later;
      ghost var sent, marks, before := stream.sent, stream.marks, queue;
      var n := SendOffer(stream, out);
      if n.None? { return false, out; }
      OfferBounds(queue, out);
      if old(InOrderWith(stream, out0, out)) && MayFollow(before, out) {
        if out.written == 0 { FreshRest(out); }
        BytesStayInOrder(sent, before, out, n.value, promised + Bytes(out0));
        MarksStayInOrder(|sent|, marks, before, out, n.value, dueMarks + MarkAt(|promised|, out0.fds), |promised|);
      }
      taken := true;
      out' := TakeOff(stream, out, n.value);
    }

    /** Written bytes are taken off the queue, and then off the message behind it. */
    method TakeOff(stream: OutStream, out: RawOut, n: nat) returns (out': RawOut)
      requires Valid() && Unfinished(out) && (out.written > 0 ==> queue == []) && n <= |Pending(queue)| + |Rest(out)|
      modifies this`queue
      ensures Valid() && queue == QueueAfter(old(queue), n) && out' == OutAfter(old(queue), out, n)
      ensures out' == out.(written := out'.written) && out'.written <= |Bytes(out)| && (out'.written > 0 ==> queue == [])
      ensures |Pending(queue)| + |Rest(out')| == |Pending(old(queue))| + |Rest(out)| - n
      ensures |queue| <= |old(queue)| && (Clear(old(queue)) ==> Clear(queue)) && (MayFollow(old(queue), out) ==> MayFollow(queue, out'))
    {
      hide Rest, Clear, Written, EndsOf, EndsFit, Pending, MayFollow, Unfinished, Bytes;
      TakenOff(queue, out, n);
      var left := Wrote(stream, n);
      out' := out.(written := out.written + left);
    }

    /** Offers the queue and the new message behind it to the socket, as long as it goes along. */
    method SendBehindQueue(stream: OutStream, out0: RawOut) returns (out: RawOut)
      requires Valid() && Counts(stream) && Unfinished(out0) && out0.written == 0
      modifies this`queue, stream
      ensures Midway(stream, out0, out)
      ensures old(InOrder(stream)) && MayFollow(old(queue), out0) ==> InOrderWith(stream, out0, out)
      ensures |queue| <= |old(queue)| && old(stream.sent) <= stream.sent
      ensures old(Clear(queue)) ==> Clear(queue)
      ensures var w := WriteRun(old(queue), out0, old(stream.schedule));
        queue == w.queue && out == w.out && stream.sent == old(stream.sent) + w.bytes
    {
      hide Rest, MarksOf, Clear, EndsOf, Pending, MarkAt, MayFollow, Unfinished, WriteRun, Flatten, Offer, QueueAfter, OutAfter, Takes, Prefix;
      out := out0;
      FreshRest(out0);
      hide EndsFit, Continues;
      ghost var run, wrote: seq<byte> := WriteRun(queue, out0, stream.schedule), [];
      NotBegun(queue, out0, stream.schedule);
      ghost var fine := InOrder(stream) && MayFollow(queue, out0);
      if fine { StartInOrder(stream, out0); }
      while out.written != |Bytes(out0)|
        invariant Midway(stream, out0, out)
        invariant fine ==> MayFollow(queue, out) && InOrderWith(stream, out0, out)
        invariant |queue| <= |old(queue)| && stream.sent == old(stream.sent) + wrote
        invariant old(Clear(queue)) ==> Clear(queue)
        invariant Continues(run, wrote, queue, out, stream.schedule)
        decreases |stream.schedule|
      {
        StillUnfinished(out0, out);
        GoesOn(run, wrote, queue, out, stream.schedule);
        var taken;
        taken, out := OfferOnce(stream, out0, out);
        if !taken { break; }
        wrote := wrote + stream.sent[|old(stream.sent) + wrote|..];
      }
      if out.written == |Bytes(out0)| { Ends(run, wrote, queue, out, stream.schedule); }
    }

    /**
     `write_next_message`: marshals the header, writes what the socket takes, and queues the message if something
     of it is left. The index of a queued message is returned. Order is kept if the message may follow the queue,
     which without descriptors it always may.
     */
    method WriteNextMessage(stream: OutStream, msg: Message, serial: Serial, rules: Rules) returns (r: Result<Option<nat>, SendError>)
      requires Valid() && Counts(stream)
      modifies this`idx, this`queue, this`promised, this`dueMarks, this`ends, stream
      ensures Valid() && Counts(stream)
      ensures r.Err? <==> FirstFault(msg.dyn, rules).Some? || (!withFd && msg.fds != []) || |msg.fds| > MAX_FDS
      ensures r.Err? ==> unchanged(this) && unchanged(stream) && r.error == Refusal(msg, rules)
      ensures r.Ok? ==> promised == old(promised) + EncodeHeader(msg, serial) + msg.body
      ensures r.Ok? ==> dueMarks == old(dueMarks) + MarkAt(|old(promised)|, msg.fds)
      ensures r == Ok(None) ==> queue == [] && idx == old(idx) && ends == old(ends)
      ensures r.Ok? && r.value.Some? ==> queue != [] && r.value.value == old(idx) && idx == old(idx) + 1 && ends == old(ends) + [|promised|]
      ensures CurrentIdx() >= old(CurrentIdx()) && old(stream.sent) <= stream.sent
      ensures r.Ok? && old(InOrder(stream)) && (Clear(old(queue)) || msg.fds != []) ==> InOrder(stream)
      ensures r.Ok? ==> var w := WriteRun(old(queue), OutOf(msg, serial), old(stream.schedule));
        queue == Enqueued(w) && stream.sent == old(stream.sent) + w.bytes
      ensures r.Ok? && old(Clear(queue)) && msg.fds == [] ==> Clear(queue)
    {
      hide Rest, MarksOf, EndsOf, Pending, MarkAt, EncodeHeader, Sharing, WriteRun;
      var buf := new ByteBuf();
      var fault := MarshalHeader(msg, serial, buf, rules);
      if fault.Some? {
        return Err(MarshalFailure(fault.value));
      }
      if (!withFd && msg.fds != []) || |msg.fds| > MAX_FDS {
        return Err(TooManyFds);
      }
      HeaderNotEmpty(msg, serial);
      ghost var out0 := RawOut(0, buf.data, msg.body, msg.fds);
      var out := SendBehindQueue(stream, RawOut(0, buf.data, msg.body, msg.fds));
      if out.written == |buf.data| + |msg.body| {
        AcceptSent(stream, out0, out);
        return Ok(None);
      }
      if Clear(queue) && msg.fds == [] { SharingAppend(queue, out, true); }
      var i := Enqueue(stream, out0, out);
      return Ok(Some(i));
    }

    /** The new message was written in full: the queue is empty. */
    ghost method AcceptSent(stream: OutStream, out0: RawOut, out: RawOut)
      requires Midway(stream, out0, out) && out.written == |Bytes(out0)| > 0
      modifies this`promised, this`dueMarks
      ensures Valid() && Counts(stream) && queue == []
      ensures promised == old(promised) + Bytes(out0) && dueMarks == old(dueMarks) + MarkAt(|old(promised)|, out0.fds)
      ensures old(InOrderWith(stream, out0, out)) ==> InOrder(stream)
    {
      hide MarkAt;
      assert Rest(out) == [];
      assert FdsLeft(out) == [];
      NoMark(|promised|);
      dueMarks := dueMarks + MarkAt(|promised|, out0.fds);
      promised := promised + Bytes(out0);
    }

    /** Something of the new message is left: it goes to the end of the queue and gets the next index. */
    method Enqueue(stream: OutStream, ghost out0: RawOut, out: RawOut) returns (i: nat)
      requires Midway(stream, out0, out) && Unfinished(out) && |out.fds| <= if withFd then MAX_FDS else 0
      modifies this`idx, this`queue, this`promised, this`dueMarks, this`ends
      ensures Valid() && Counts(stream)
      ensures i == old(idx) && idx == old(idx) + 1 && queue == old(queue) + [out] && ends == old(ends) + [|promised|]
      ensures promised == old(promised) + Bytes(out0) && dueMarks == old(dueMarks) + MarkAt(|old(promised)|, out0.fds)
      ensures old(InOrderWith(stream, out0, out)) ==> InOrder(stream)
    {
      hide MarkAt, MarksOf, EndsOf, EndsFit, Pending, Rest, FdsLeft, Unfinished;
      QueuedEnds(ends, queue, out, |promised|);
      QueuedBytes(queue, out);
      QueuedMarks(queue, out, |promised|);
      dueMarks := dueMarks + MarkAt(|promised|, out0.fds);
      promised := promised + Bytes(out0);
      ends := ends + [|promised|];
      queue := queue + [out];
      i := idx;
      idx := idx + 1;
    }
  }

  /** A message partly written already is alone, and its end is where it would be if it had waited in full. */
  lemma QueuedEnds(ends: seq<int>, queue: seq<RawOut>, out: RawOut, total: int)
    requires AllUnfinished(queue) && Unfinished(out) && (out.written > 0 ==> queue == [])
    requires EndsFit(ends, queue, total)
    ensures AllUnfinished(queue + [out])
    ensures EndsFit(ends + [total + |Bytes(out)|], queue + [out], total + |Bytes(out)|)
  {
    hide MarkAt, MarksOf, Rest, FdsLeft, EndsOf, Pending;
    AppendEnds(queue, out, total + out.written);
    RestBehind(out);
    ShiftEmpty(queue, out, total);
    var e := total + |Bytes(out)|;
    assert (ends + [e])[|ends| - |queue|..] == ends[|ends| - |queue|..] + [e];
  }

  lemma QueuedBytes(queue: seq<RawOut>, out: RawOut)
    requires AllUnfinished(queue) && Unfinished(out)
    ensures AllUnfinished(queue + [out])
    ensures Pending(queue + [out]) == Pending(queue) + Rest(out)
  {
    AppendEnds(queue, out, 0);
  }

  lemma QueuedMarks(queue: seq<RawOut>, out: RawOut, total: int)
    requires AllUnfinished(queue) && Unfinished(out) && (out.written > 0 ==> queue == [])
    ensures AllUnfinished(queue + [out])
    ensures MarksOf(queue + [out], total + |Bytes(out)|) == MarksOf(queue, total) + MarkAt(total, FdsLeft(out))
  {
    hide MarkAt, MarksOf, Rest, FdsLeft;
    AppendMarks(queue, out, total + out.written);
    RestBehind(out);
    ShiftEmpty(queue, out, total);
  }

  lemma ShiftEmpty(queue: seq<RawOut>, out: RawOut, total: int)
    requires AllUnfinished(queue) && (out.written > 0 ==> queue == [])
    ensures EndsOf(queue, total + out.written) == EndsOf(queue, total)
    ensures MarksOf(queue, total + out.written) == MarksOf(queue, total)
    ensures MarkAt(total + out.written, FdsLeft(out)) == MarkAt(total, FdsLeft(out))
  {
  }

  lemma {:induction false} SharingAppend(queue: seq<RawOut>, out: RawOut, first: bool)
    requires Sharing(queue, first) == |queue| && !HoldsFds(out)
    ensures Sharing(queue + [out], first) == |queue| + 1
  {
    if queue != [] {
      assert (queue + [out])[1..] == queue[1..] + [out];
      SharingAppend(queue[1..], out, false);
    }
  }

  lemma HeaderNotEmpty(msg: Message, serial: Serial)
    ensures EncodeHeader(msg, serial) != []
  {
    hide ArrayBytes;
  }

  lemma StillUnfinished(out0: RawOut, out: RawOut)
    requires Unfinished(out0) && out == out0.(written := out.written) && out.written < |Bytes(out0)|
    ensures Unfinished(out)
  {
  }

  lemma StillFollows(queue: seq<RawOut>, queue': seq<RawOut>, out: RawOut, out': RawOut)
    requires (Clear(queue) ==> Clear(queue')) && out'.fds == out.fds
    ensures MayFollow(queue, out) ==> MayFollow(queue', out')
  {
    hide Clear;
  }

  lemma {:induction false} WrittenFds(queue: seq<RawOut>, n: nat, limit: nat)
    requires AllUnfinished(queue) && forall i :: 0 <= i < |queue| ==> |queue[i].fds| <= limit
    ensures forall i :: 0 <= i < |Written(queue, n)| ==> |Written(queue, n)[i].fds| <= limit
  {
    if queue != [] && n >= ToWrite(queue[0]) > 0 {
      WrittenFds(queue[1..], n - ToWrite(queue[0]), limit);
    }
  }

  lemma FreshRest(out: RawOut)
    requires out.written == 0
    ensures Rest(out) == Bytes(out)
  {
  }

  lemma RestBehind(out: RawOut)
    requires out.written <= |Bytes(out)|
    ensures |Rest(out)| == |Bytes(out)| - out.written
  {
  }

  lemma GatherNotEmpty(queue: seq<RawOut>, cap: nat)
    requires AllUnfinished(queue) && queue != [] && cap > 0
    ensures Flatten(Gather(queue, [], cap)) != []
  {
    GatherHolds(queue, [], cap);
  }

  lemma {:induction false} WrittenShares(queue: seq<RawOut>, n: nat)
    requires AllUnfinished(queue) && Sharing(queue, false) == |queue|
    ensures Sharing(Written(queue, n), false) == |Written(queue, n)|
  {
    if queue != [] && n > 0 {
      var rest := queue[1..];
      if n >= ToWrite(queue[0]) {
        WrittenShares(rest, n - ToWrite(queue[0]));
      } else {
        assert Written(queue, n)[1..] == rest;
      }
    }
  }

  lemma SharesFirst(queue: seq<RawOut>)
    requires Sharing(queue, false) == |queue|
    ensures Clear(queue)
  {
  }

  lemma WrittenClear(queue: seq<RawOut>, n: nat)
    requires AllUnfinished(queue)
    ensures Clear(queue) ==> Clear(Written(queue, n))
  {
    if Clear(queue) && queue != [] && n > 0 {
      var rest := queue[1..];
      if n >= ToWrite(queue[0]) {
        WrittenShares(rest, n - ToWrite(queue[0]));
        SharesFirst(Written(queue, n));
      } else {
        assert Written(queue, n)[1..] == rest;
      }
    }
  }

  // ----- Queues without descriptors, and descriptors still to come -----

  lemma {:induction false} ClearAfterWrite(queue: seq<RawOut>, out: RawOut, schedule: seq<nat>)
    requires AllUnfinished(queue) && Clear(queue) && out.fds == []
    ensures Clear(Enqueued(WriteRun(queue, out, schedule)))
    decreases |schedule|
  {
    hide WriteRun, Offer, Flatten, QueueAfter, OutAfter, Sharing;
    if !Unfinished(out) {
      WriteDone(queue, out, schedule);
    } else {
      WriteStep(queue, out, schedule);
      var n := Takes(schedule, |Flatten(Offer(queue, out))|);
      if n.None? {
        SharingAppend(queue, out, true);
      } else {
        OutStays(queue, out, n.value);
        ClearAfterWrite(QueueAfter(queue, n.value), OutAfter(queue, out, n.value), Later(schedule));
      }
    }
  }

  lemma {:induction false} ClearAfterFlush(queue: seq<RawOut>, schedule: seq<nat>)
    requires AllUnfinished(queue) && Clear(queue)
    ensures Clear(FlushRun(queue, schedule).0)
    decreases |schedule|
  {
    hide FlushRun, Gather, Flatten, QueueAfter, OutAfter, Sharing;
    FlushStep(queue, schedule);
    var n := if queue == [] then None else Takes(schedule, |Flatten(Gather(queue, [], QUEUE_SLICES))|);
    if n.Some? {
      OutStays(queue, RawOut(0, [], [], []), n.value);
      ClearAfterFlush(QueueAfter(queue, n.value), Later(schedule));
    }
  }

  /** Descriptors still to be sent stand at bytes still to be sent. */
  lemma {:induction false} MarksAhead(queue: seq<RawOut>, total: int)
    requires AllUnfinished(queue)
    ensures forall i :: 0 <= i < |MarksOf(queue, total)| ==> MarksOf(queue, total)[i].at >= total - |Pending(queue)|
  {
    if queue != [] {
      PendingUnfold(queue, queue[1..]);
      MarksAhead(queue[1..], total);
    }
  }

  // ----- Overtaking happens -----

  lemma HeaderLength(m: Message, serial: Serial)
    ensures |EncodeHeader(m, serial)| >= HEADER_LEN + 4
  {
    hide ArrayBytes, EncodeU32;
  }

  /** The first twelve bytes of a header tell messages with different serials apart. */
  lemma SerialsShow(a: Message, b: Message, i: Serial, j: Serial)
    requires i != j
    ensures |EncodeHeader(a, i)| >= HEADER_LEN + 4 && |EncodeHeader(b, j)| >= HEADER_LEN + 4
    ensures EncodeHeader(a, i)[..HEADER_LEN] != EncodeHeader(b, j)[..HEADER_LEN]
  {
    hide ArrayBytes, EncodeU32, ParseU32, ParseFixed;
    var x, y := EncodeHeader(a, i), EncodeHeader(b, j);
    assert x[..HEADER_LEN] == FixedBytes(a, i) && y[..HEADER_LEN] == FixedBytes(b, j);
    FixedSerials(a, b, i, j);
  }

  lemma FixedSerials(a: Message, b: Message, i: Serial, j: Serial)
    requires i != j
    ensures FixedBytes(a, i) != FixedBytes(b, j)
  {
    hide EncodeU32, ParseU32;
    assert FixedBytes(a, i)[8..] == EncodeU32(i, a.bo) && FixedBytes(b, j)[8..] == EncodeU32(j, b.bo);
    assert a.bo != b.bo ==> FixedBytes(a, i)[0] != FixedBytes(b, j)[0];
    U32RoundTrip(i, a.bo);
    U32RoundTrip(j, b.bo);
  }

  /** One byte written of a message that is alone. */
  lemma OneByte(out: RawOut)
    requires Unfinished(out) && out.written == 0 && |Bytes(out)| > 1
    ensures WriteRun([], out, [1]).queue == [] && WriteRun([], out, [1]).out == out.(written := 1)
  {
    hide Flatten, Offer, WriteRun;
    OfferBounds([], out);
    EmptyQueue(1, 0);
    WriteStep([], out, [1]);
    assert Later([1]) == [];
    WriteStep([], out.(written := 1), []);
  }

  /** A partly written message and one with descriptors behind it. */
  lemma BlockedQueue(a: RawOut, f: RawOut, b: RawOut)
    requires a.written == 1 && HoldsFds(f) && b.fds == []
    ensures !MayFollow([a, f], b) && Clear([a])
  {
    assert [a, f][1..] == [f] && [a][1..] == [];
    assert Sharing([f], false) == 0;
    assert Sharing([a, f], true) == 1 + Sharing([f], false);
  }

  /** A single write that breaks the order: the new message joins the list in place of the one with descriptors. */
  lemma OvertakingOffer(a: RawOut, f: RawOut, b: RawOut)
    requires Unfinished(a) && Unfinished(f) && Unfinished(b) && DistinctHeader([a, f], b)
    requires a.written == 1 && HoldsFds(f) && b.written == 0 && b.fds == []
    ensures !(Flatten(Offer([a, f], b)) <= Pending([a, f]) + Rest(b))
  {
    hide Gather, Offer, Flatten, Pending, Rest, Sharing;
    BlockedQueue(a, f, b);
    OfferListBound([a, f]);
    if |Gather([a, f], [], OFFER_SLICES)| == OFFER_SLICES { FullList([a, f]); }
    OfferInOrderIff([a, f], b);
  }

  /** The first byte of one message is written, and another one is queued behind it. */
  method Block(a: Message, f: Message, i: Serial, j: Serial, rules: Rules) returns (snd: SendState, stream: OutStream)
    requires FirstFault(a.dyn, rules).None? && FirstFault(f.dyn, rules).None?
    requires a.fds == [] && 0 < |f.fds| <= MAX_FDS
    ensures fresh(snd) && fresh(stream) && snd.withFd
    ensures snd.Valid() && snd.Counts(stream) && snd.InOrder(stream)
    ensures snd.queue == [OutOf(a, i).(written := 1), OutOf(f, j)]
  {
    hide WriteRun, FirstFault, EncodeHeader, Pending, MarksOf, EndsOf, EndsFit, Clear, Rest, MarkAt, Sharing;
    snd := new SendState(true);
    stream := new OutStream([1]);
    var p, q := OutOf(a, i), OutOf(f, j);
    HeaderLength(a, i);
    HeaderLength(f, j);
    EmptyQueue(0, 0);
    OneByte(p);
    BlockedQueue(p.(written := 1), q, p);
    NothingQueued();
    var _ := snd.WriteNextMessage(stream, a, i, rules);
    assert snd.queue == [p.(written := 1)];
    stream.schedule := [];
    WriteStep(snd.queue, q, []);
    var _ := snd.WriteNextMessage(stream, f, j, rules);
  }

  lemma NothingQueued()
    ensures Clear([])
  {
  }

  /**
   Any three messages will do: the first is partly written, the second carries descriptors and waits behind it, and
   the third, without descriptors, then overtakes the second on a socket that takes the right numbers of bytes.
   */
  method Overtake(a: Message, f: Message, b: Message, i: Serial, j: Serial, k: Serial, rules: Rules)
    returns (snd: SendState, stream: OutStream)
    requires FirstFault(a.dyn, rules).None? && FirstFault(f.dyn, rules).None? && FirstFault(b.dyn, rules).None?
    requires a.fds == [] && 0 < |f.fds| <= MAX_FDS && b.fds == [] && j != k
    ensures snd.Valid() && snd.Counts(stream) && !snd.InOrder(stream)
  {
    hide WriteRun, FirstFault, EncodeHeader, Pending, MarksOf, EndsOf, EndsFit, Clear, Rest, MarkAt, OvertakingSchedule, MayFollow, Enqueued;
    snd, stream := Block(a, f, i, j, rules);
    var p, q, o := OutOf(a, i).(written := 1), OutOf(f, j), OutOf(b, k);
    HeaderLength(b, k);
    SerialsShow(f, b, j, k);
    BlockedQueue(p, q, o);
    ghost var before, pending := stream.sent, Pending(snd.queue);
    stream.schedule := OvertakingSchedule(snd.queue, o);
    Overtakes(snd.queue, o);
    FreshRest(o);
    ghost var w := WriteRun(snd.queue, o, stream.schedule);
    var _ := snd.WriteNextMessage(stream, b, k, rules);
    NotBehindPrefix(before, w.bytes, pending, Bytes(o));
    assert snd.promised == before + pending + Bytes(o);
  }
}
