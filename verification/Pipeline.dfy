/** Both ends of the wire together: what is sent is what is received. */
module Pipeline {
  import opened Utils
  import opened HeaderCodec
  import opened Framing
  import opened Descriptors
  import Sender
  import Receiver

  /** A message with the serial it was given. */
  datatype Numbered = Numbered(msg: Message, serial: Serial)

  function Encode(m: Numbered): seq<byte> {
    EncodeHeader(m.msg, m.serial) + m.msg.body
  }

  function EncodeAll(ms: seq<Numbered>): seq<byte> {
    if ms == [] then [] else EncodeAll(ms[..|ms| - 1]) + Encode(ms[|ms| - 1])
  }

  /** What the other side has to make of a message. */
  function Expected(m: Numbered): Raw {
    Raw(Head(FixedHeader(m.msg.bo, m.msg.typ, m.msg.flags, |m.msg.body| % U32_LIMIT, m.serial),
             AsReceived(m.msg).(serial := Some(m.serial))),
        m.msg.body)
  }

  function ExpectedAll(ms: seq<Numbered>): (es: seq<Raw>)
    ensures |es| == |ms|
  {
    seq(|ms|, i requires 0 <= i < |ms| => Expected(ms[i]))
  }

  /** A message whose parts fit together: its type is set, and its body is one of its signature. */
  ghost predicate Proper(m: Message, rules: Rules) {
    && !m.typ.Invalid?
    && |ArrayBytes(m)| < U32_LIMIT
    && |m.body| < U32_LIMIT
    && (m.body != [] ==> rules.signatureOk(m.sig) && rules.bodyOk(m.bo, m.sig, m.body))
  }

  /** `write_next_message` takes it. */
  predicate Accepted(m: Message, rules: Rules, withFd: bool) {
    FirstFault(m.dyn, rules).None? && (withFd || m.fds == []) && |m.fds| <= MAX_FDS
  }

  lemma HeadRoundTrip(m: Numbered, rules: Rules, withFd: bool)
    requires Coherent(rules) && Proper(m.msg, rules) && Accepted(m.msg, rules, withFd)
    ensures DecodeHead(EncodeHeader(m.msg, m.serial), rules, withFd) == Done(Expected(m).head, |EncodeHeader(m.msg, m.serial)|)
  {
    hide ParseHeader, ParseFixed, EncodeHeader, FirstFault, ArrayBytes, Coherent, EncodeU32, ParseU32;
    var b := EncodeHeader(m.msg, m.serial);
    EncodedParts(m.msg, m.serial, b);
    assert FixedBytes(m.msg, m.serial) <= b;
    FixedRoundTrip(m.msg, m.serial, b);
    HeaderRoundTrip(m.msg, m.serial, rules);
    U32RoundTrip(|ArrayBytes(m.msg)|, m.msg.bo);
    assert b[..|b|] == b;
    EndAligned(b);
  }

  lemma EndAligned(b: seq<byte>)
    requires |b| % 8 == 0
    ensures AlignOffset(8, b, |b|).Ok?
  {
  }

  /** A sent message is read back from the front of any stream that starts with it. */
  lemma MessageRoundTrip(m: Numbered, tail: seq<byte>, rules: Rules, withFd: bool)
    requires Coherent(rules) && Proper(m.msg, rules) && Accepted(m.msg, rules, withFd)
    ensures Decode(Encode(m) + tail, rules, withFd) == Done(Expected(m), |Encode(m)|)
    ensures BodyOk(Expected(m), rules)
  {
    hide DecodeHead, FirstFault, ArrayBytes, EncodeHeader, Coherent;
    var head, body := EncodeHeader(m.msg, m.serial), m.msg.body;
    HeadRoundTrip(m, rules, withFd);
    DecodeHeadExtends(head, body, rules, withFd);
    assert Encode(m)[|head|..|head| + |body|] == body;
    assert |body| % U32_LIMIT == |body|;
    DecodeExtends(Encode(m), tail, rules, withFd);
  }

  /** The one-shot framing of the sent messages gives them all back, in order. */
  lemma {:induction false} StreamRoundTrip(ms: seq<Numbered>, rules: Rules, withFd: bool)
    requires Coherent(rules) && forall m :: m in ms ==> Proper(m.msg, rules) && Accepted(m.msg, rules, withFd)
    ensures Frames(EncodeAll(ms), rules, withFd) == Framed(ExpectedAll(ms), [], None)
  {
    hide Decode, BodyOk, Proper, Accepted, Encode, Expected, Frames;
    if ms == [] {
      EmptyDecode(rules, withFd);
      FramesUnfold([], rules, withFd);
    } else {
      var before, last := ms[..|ms| - 1], ms[|ms| - 1];
      StreamRoundTrip(before, rules, withFd);
      MessageRoundTrip(last, [], rules, withFd);
      assert Encode(last) + [] == Encode(last);
      FramesOne(Encode(last), Expected(last), rules, withFd);
      FramesAppend(EncodeAll(before), Encode(last), rules, withFd);
      assert ExpectedAll(ms) == ExpectedAll(before) + [Expected(last)];
    }
  }

  /** Any first part of a clean stream is clean, and its messages are the first of the stream's. */
  lemma {:induction false} FramesOfPrefix(p: seq<byte>, b: seq<byte>, rules: Rules, withFd: bool)
    requires p <= b && Frames(b, rules, withFd).fault == None
    ensures Frames(p, rules, withFd).fault == None
    ensures Frames(p, rules, withFd).msgs <= Frames(b, rules, withFd).msgs
    decreases |p|
  {
    hide Decode, BodyOk, Frames;
    var x := b[|p|..];
    assert p + x == b;
    FramesUnfold(p, rules, withFd);
    FramesUnfold(b, rules, withFd);
    if !Decode(p, rules, withFd).More? {
      DecodeExtends(p, x, rules, withFd);
      if Decode(p, rules, withFd).Done? && BodyOk(Decode(p, rules, withFd).value, rules) {
        var n := Decode(p, rules, withFd).len;
        assert b[n..] == p[n..] + x;
        FramesOfPrefix(p[n..], b[n..], rules, withFd);
      }
    }
  }

  lemma EncodeAllSnoc(ms: seq<Numbered>, m: Numbered)
    ensures EncodeAll(ms + [m]) == EncodeAll(ms) + Encode(m)
  {
    assert (ms + [m])[..|ms|] == ms;
  }

  // ----- Tasks that send -----

  /** What one of several tasks does while it holds the sending side. */
  datatype Job = Write(msg: Message, serial: Serial, writes: seq<nat>) | Flush(writes: seq<nat>)

  /** The job hands over a message that is taken. */
  predicate Taken(job: Job, rules: Rules, withFd: bool) {
    job.Write? && Accepted(job.msg, rules, withFd)
  }

  /** What a job leaves of the queue. */
  function AfterJob(queue: seq<Sender.RawOut>, job: Job, rules: Rules, withFd: bool): (after: seq<Sender.RawOut>)
    requires Sender.AllUnfinished(queue)
    ensures Sender.AllUnfinished(after)
  {
    match job
    case Write(msg, serial, writes) =>
      if Taken(job, rules, withFd) then Sender.Enqueued(Sender.WriteRun(queue, Sender.OutOf(msg, serial), writes)) else queue
    case Flush(writes) => Sender.FlushRun(queue, writes).0
  }

  function AfterJobs(queue: seq<Sender.RawOut>, jobs: seq<Job>, rules: Rules, withFd: bool): (after: seq<Sender.RawOut>)
    requires Sender.AllUnfinished(queue)
    ensures Sender.AllUnfinished(after)
    decreases |jobs|
  {
    if jobs == [] then queue else AfterJobs(AfterJob(queue, jobs[0], rules, withFd), jobs[1..], rules, withFd)
  }

  /** A message that is handed over carries descriptors itself, or no queued message behind the first one does. */
  predicate OrderlyJob(queue: seq<Sender.RawOut>, job: Job, rules: Rules, withFd: bool) {
    Taken(job, rules, withFd) ==> Sender.MayFollow(queue, Sender.OutOf(job.msg, job.serial))
  }

  /** No job lets a message overtake one with descriptors. */
  predicate Orderly(queue: seq<Sender.RawOut>, jobs: seq<Job>, rules: Rules, withFd: bool)
    requires Sender.AllUnfinished(queue)
    decreases |jobs|
  {
    jobs == [] ||
    (OrderlyJob(queue, jobs[0], rules, withFd) && Orderly(AfterJob(queue, jobs[0], rules, withFd), jobs[1..], rules, withFd))
  }

  lemma {:induction false} OrderlySplit(queue: seq<Sender.RawOut>, a: seq<Job>, b: seq<Job>, rules: Rules, withFd: bool)
    requires Sender.AllUnfinished(queue)
    ensures Orderly(queue, a + b, rules, withFd) <==>
      Orderly(queue, a, rules, withFd) && Orderly(AfterJobs(queue, a, rules, withFd), b, rules, withFd)
    decreases |a|
  {
    hide AfterJob, OrderlyJob;
    if a == [] {
      assert a + b == b;
    } else {
      assert (a + b)[1..] == a[1..] + b;
      OrderlySplit(AfterJob(queue, a[0], rules, withFd), a[1..], b, rules, withFd);
    }
  }

  /** Messages that are taken carry no descriptors. */
  predicate NoFds(jobs: seq<Job>, rules: Rules, withFd: bool) {
    forall i :: 0 <= i < |jobs| && Taken(jobs[i], rules, withFd) ==> jobs[i].msg.fds == []
  }

  /** Without descriptors every run is orderly: in particular on a connection that has none. */
  lemma {:induction false} OrderlyWithoutFds(queue: seq<Sender.RawOut>, jobs: seq<Job>, rules: Rules, withFd: bool)
    requires Sender.AllUnfinished(queue) && Sender.Clear(queue) && NoFds(jobs, rules, withFd)
    ensures Orderly(queue, jobs, rules, withFd)
    decreases |jobs|
  {
    hide Sender.WriteRun, Sender.FlushRun, Sender.Sharing, FirstFault, EncodeHeader, Sender.Enqueued;
    if jobs != [] {
      var next := AfterJob(queue, jobs[0], rules, withFd);
      if Taken(jobs[0], rules, withFd) {
        Sender.ClearAfterWrite(queue, Sender.OutOf(jobs[0].msg, jobs[0].serial), jobs[0].writes);
      } else if jobs[0].Flush? {
        Sender.ClearAfterFlush(queue, jobs[0].writes);
      }
      OrderlyWithoutFds(next, jobs[1..], rules, withFd);
    }
  }

  lemma NoFdsWithout(jobs: seq<Job>, rules: Rules)
    ensures NoFds(jobs, rules, false)
  {
  }

  /** The sending side between two jobs. */
  ghost predicate Sound(snd: Sender.SendState, out: Sender.OutStream)
    reads snd, out
  {
    snd.Valid() && snd.Counts(out)
  }

  method Perform(snd: Sender.SendState, out: Sender.OutStream, job: Job, rules: Rules) returns (taken: bool)
    requires Sound(snd, out)
    modifies snd, out
    ensures Sound(snd, out) && snd.queue == AfterJob(old(snd.queue), job, rules, snd.withFd)
    ensures taken == Taken(job, rules, snd.withFd)
    ensures snd.promised == old(snd.promised) + if taken then Encode(Numbered(job.msg, job.serial)) else []
    ensures snd.dueMarks == old(snd.dueMarks) + if taken then MarkAt(|old(snd.promised)|, job.msg.fds) else []
    ensures old(snd.InOrder(out)) && OrderlyJob(old(snd.queue), job, rules, snd.withFd) ==> snd.InOrder(out)
    ensures old(snd.ends) <= snd.ends && snd.CurrentIdx() >= old(snd.CurrentIdx()) && old(out.sent) <= out.sent
  {
    hide Sender.Clear, Sender.EndsFit, Sender.Pending, Sender.MarksOf, EncodeHeader, FirstFault, Sender.WriteRun, Sender.FlushRun, Sender.Enqueued, MarkAt;
    out.schedule := job.writes;
    if job.Write? {
      var r := snd.WriteNextMessage(out, job.msg, job.serial, rules);
      taken := r.Ok?;
    } else {
      var _ := snd.FinishSendingNext(out);
      taken := false;
    }
  }

  /** One time a task gets hold of the sending side, after what other tasks did with it. */
  datatype LockTurn = LockTurn(others: seq<Job>, writes: seq<nat>)

  /** The jobs of a task that sends one message, and of the others: it writes the message once and flushes from then on. */
  function JobsOf(msg: Message, serial: Serial, written: bool, turns: seq<LockTurn>): seq<Job>
    decreases |turns|
  {
    if turns == [] then []
    else
      turns[0].others
      + ([if written then Flush(turns[0].writes) else Write(msg, serial, turns[0].writes)] + JobsOf(msg, serial, true, turns[1..]))
  }

  /**
   `send_msg_loop`, among other tasks that send: when it reports success and the run was orderly, all bytes of the
   message are on the wire, in one piece, from `start` on.
   */
  method SendMsgLoop(snd: Sender.SendState, out: Sender.OutStream, msg: Message, serial: Serial, rules: Rules, turns: seq<LockTurn>)
    returns (r: Result<bool, Sender.SendError>, ghost start: nat)
    requires Sound(snd, out)
    modifies snd, out
    ensures Sound(snd, out)
    ensures r == Ok(true) && old(snd.InOrder(out)) && Orderly(old(snd.queue), JobsOf(msg, serial, false, turns), rules, snd.withFd) ==>
      Sent(out, start, Encode(Numbered(msg, serial)))
    ensures r == Ok(false) && turns != [] ==> Waits(snd, out, start, Encode(Numbered(msg, serial)))
    ensures r.Err? ==> !Accepted(msg, rules, snd.withFd) && r.error == Sender.Refusal(msg, rules)
    // a turn on a socket that goes along is the last
    ensures turns != [] && Generous(turns[|turns| - 1].writes, |snd.promised|) ==> r != Ok(false)
  {
    hide Encode, Accepted, Orderly, OrderlyJob, AfterJob, Placed, Sent, Sender.Pending, Sender.MarksOf, Sender.EndsFit;
    var sendIdx: Option<nat> := None;
    start := 0;
    ghost var bytes := Encode(Numbered(msg, serial));
    ghost var fine := snd.InOrder(out) && Orderly(snd.queue, JobsOf(msg, serial, false, turns), rules, snd.withFd);
    var t := 0;
    assert turns[0..] == turns;
    while t < |turns|
      invariant 0 <= t <= |turns|
      invariant Sound(snd, out)
      invariant fine ==> snd.InOrder(out) && Orderly(snd.queue, JobsOf(msg, serial, sendIdx.Some?, turns[t..]), rules, snd.withFd)
      invariant sendIdx.Some? ==> Placed(snd, sendIdx.value, start, bytes) && snd.CurrentIdx() <= sendIdx.value
      invariant t > 0 ==> sendIdx.Some? && !Generous(turns[t - 1].writes, |snd.promised|)
    {
      assert turns[t..][1..] == turns[t + 1..];
      ghost var own := if sendIdx.Some? then Flush(turns[t].writes) else Write(msg, serial, turns[t].writes);
      ghost var later := JobsOf(msg, serial, true, turns[t + 1..]);
      OrderlySplit(snd.queue, turns[t].others, [own] + later, rules, snd.withFd);
      OthersWork(snd, out, turns[t].others, rules, sendIdx, start, bytes);
      if fine { OrderlyNext(snd.queue, own, later, rules, snd.withFd); }
      match sendIdx {
        case Some(i) =>
          var done := FlushAgain(snd, out, i, turns[t].writes, rules, start, bytes);
          if done { return Ok(true), start; }
        case None =>
          var w;
          w, start := WriteFirst(snd, out, msg, serial, turns[t].writes, rules);
          if w.Err? { return Err(w.error), start; }
          if w.value.None? { return Ok(true), start; }
          sendIdx := w.value;
      }
      t := t + 1;
    }
    if sendIdx.Some? { StillWaits(snd, out, sendIdx.value, start, bytes); }
    return Ok(false), start;
  }

  lemma StillWaits(snd: Sender.SendState, out: Sender.OutStream, i: nat, start: nat, bytes: seq<byte>)
    requires Sound(snd, out) && Placed(snd, i, start, bytes) && snd.CurrentIdx() <= i
    ensures Waits(snd, out, start, bytes)
  {
    hide Sender.EndsFit, Sender.Pending;
    snd.TransmittedIffPassed(out, i);
  }

  /** The turn in which the message is written. */
  method WriteFirst(snd: Sender.SendState, out: Sender.OutStream, msg: Message, serial: Serial, writes: seq<nat>, rules: Rules)
    returns (w: Result<Option<nat>, Sender.SendError>, ghost start: nat)
    requires Sound(snd, out)
    modifies snd, out
    ensures Sound(snd, out) && (w.Err? ==> !Accepted(msg, rules, snd.withFd) && w.error == Sender.Refusal(msg, rules))
    ensures w.Ok? && w.value.Some? ==> !Generous(writes, |snd.promised|)
    ensures w.Ok? ==> snd.queue == AfterJob(old(snd.queue), Write(msg, serial, writes), rules, snd.withFd)
    ensures w.Ok? && w.value.Some? ==> Placed(snd, w.value.value, start, Encode(Numbered(msg, serial))) && snd.CurrentIdx() <= w.value.value
    ensures w.Ok? && old(snd.InOrder(out)) && OrderlyJob(old(snd.queue), Write(msg, serial, writes), rules, snd.withFd) ==>
      snd.InOrder(out) && (w.value.None? ==> Sent(out, start, Encode(Numbered(msg, serial))))
  {
    hide Sender.Clear, Sender.EndsFit, Sender.Pending, Sender.MarksOf, EncodeHeader, FirstFault, Sender.WriteRun,
      Sender.Enqueued, MarkAt, OrderlyJob, AfterJob;
    start := |snd.promised|;
    out.schedule := writes;
    WriteIs(snd.queue, msg, serial, writes, rules, snd.withFd);
    WritesAll(snd.queue, msg, serial, writes);
    w := snd.WriteNextMessage(out, msg, serial, rules);
    assert w.Ok? ==> snd.promised[start..] == Encode(Numbered(msg, serial));
    if w == Ok(None) && snd.InOrder(out) { AllWritten(snd, out); }
  }

  lemma WritesAll(queue: seq<Sender.RawOut>, msg: Message, serial: Serial, writes: seq<nat>)
    requires Sender.AllUnfinished(queue)
    ensures Generous(writes, |Sender.Pending(queue)| + |Encode(Numbered(msg, serial))|) ==>
      Sender.Enqueued(Sender.WriteRun(queue, Sender.OutOf(msg, serial), writes)) == []
  {
    hide Sender.Pending, Sender.WriteRun, EncodeHeader;
    var out := Sender.OutOf(msg, serial);
    Sender.HeaderLength(msg, serial);
    Sender.FreshRest(out);
    if Generous(writes, |Sender.Pending(queue)| + |Encode(Numbered(msg, serial))|) { Sender.WriteEmpties(queue, out, writes); }
  }

  /** A turn after that; `done` if all of the message was written by whomever. */
  method FlushAgain(snd: Sender.SendState, out: Sender.OutStream, i: nat, writes: seq<nat>, rules: Rules, ghost start: nat, ghost bytes: seq<byte>)
    returns (done: bool)
    requires Sound(snd, out) && Placed(snd, i, start, bytes)
    modifies snd, out
    ensures Sound(snd, out) && Placed(snd, i, start, bytes)
    ensures !done ==> !Generous(writes, |snd.promised|) && snd.CurrentIdx() <= i && snd.queue == AfterJob(old(snd.queue), Flush(writes), rules, snd.withFd)
    ensures old(snd.InOrder(out)) ==> snd.InOrder(out) && (done ==> Sent(out, start, bytes))
  {
    hide Sender.Clear, Sender.EndsFit, Sender.Pending, Sender.MarksOf, Sender.FlushRun;
    if snd.CurrentIdx() > i {
      if snd.InOrder(out) { Written(snd, out, i, start, bytes); }
      return true;
    }
    out.schedule := writes;
    if Generous(writes, |snd.promised|) { Sender.FlushEmpties(snd.queue, writes); }
    var current := snd.FinishSendingNext(out);
    if current > i {
      if snd.InOrder(out) { Written(snd, out, i, start, bytes); }
      return true;
    }
    return false;
  }

  /** The bytes are on the wire, in one piece. */
  ghost predicate Sent(out: Sender.OutStream, start: nat, bytes: seq<byte>)
    reads out
  {
    start + |bytes| <= |out.sent| && out.sent[start..start + |bytes|] == bytes
  }

  /** The message was accepted, and its last byte at least is still to be written. */
  ghost predicate Waits(snd: Sender.SendState, out: Sender.OutStream, start: nat, bytes: seq<byte>)
    reads snd, out
  {
    |out.sent| < start + |bytes| <= |snd.promised| && snd.promised[start..start + |bytes|] == bytes
  }

  lemma OrderlyNext(queue: seq<Sender.RawOut>, job: Job, later: seq<Job>, rules: Rules, withFd: bool)
    requires Sender.AllUnfinished(queue) && Orderly(queue, [job] + later, rules, withFd)
    ensures OrderlyJob(queue, job, rules, withFd) && Orderly(AfterJob(queue, job, rules, withFd), later, rules, withFd)
  {
    assert ([job] + later)[1..] == later;
  }

  lemma WriteIs(queue: seq<Sender.RawOut>, msg: Message, serial: Serial, writes: seq<nat>, rules: Rules, withFd: bool)
    requires Sender.AllUnfinished(queue)
    ensures Accepted(msg, rules, withFd) ==>
      && AfterJob(queue, Write(msg, serial, writes), rules, withFd) == Sender.Enqueued(Sender.WriteRun(queue, Sender.OutOf(msg, serial), writes))
      && (OrderlyJob(queue, Write(msg, serial, writes), rules, withFd) <==> Sender.Clear(queue) || msg.fds != [])
  {
  }

  /** The message with index `i` is the promised bytes from `start` on. */
  ghost predicate Placed(snd: Sender.SendState, i: nat, start: nat, bytes: seq<byte>)
    reads snd
  {
    && i < |snd.ends|
    && snd.ends[i] == start + |bytes| <= |snd.promised|
    && snd.promised[start..start + |bytes|] == bytes
  }

  method OthersWork(snd: Sender.SendState, out: Sender.OutStream, jobs: seq<Job>, rules: Rules,
                    ghost idx: Option<nat>, ghost start: nat, ghost bytes: seq<byte>)
    requires Sound(snd, out) && (idx.Some? ==> Placed(snd, idx.value, start, bytes))
    modifies snd, out
    ensures Sound(snd, out) && (idx.Some? ==> Placed(snd, idx.value, start, bytes))
    ensures snd.queue == AfterJobs(old(snd.queue), jobs, rules, snd.withFd)
    ensures old(snd.InOrder(out)) && Orderly(old(snd.queue), jobs, rules, snd.withFd) ==> snd.InOrder(out)
  {
    hide Sound, Encode, Accepted, AfterJob, OrderlyJob;
    assert Sound(snd, out) ==> Sender.AllUnfinished(snd.queue) by { SoundQueue(snd, out); }
    ghost var fine := snd.InOrder(out) && Orderly(snd.queue, jobs, rules, snd.withFd);
    var j := 0;
    assert jobs[0..] == jobs;
    while j < |jobs|
      invariant 0 <= j <= |jobs|
      invariant Sound(snd, out) && (idx.Some? ==> Placed(snd, idx.value, start, bytes)) && Sender.AllUnfinished(snd.queue)
      invariant AfterJobs(snd.queue, jobs[j..], rules, snd.withFd) == AfterJobs(old(snd.queue), jobs, rules, snd.withFd)
      invariant fine ==> snd.InOrder(out) && Orderly(snd.queue, jobs[j..], rules, snd.withFd)
    {
      assert jobs[j..][1..] == jobs[j + 1..];
      var _ := Perform(snd, out, jobs[j], rules);
      SoundQueue(snd, out);
      j := j + 1;
    }
  }

  lemma SoundQueue(snd: Sender.SendState, out: Sender.OutStream)
    requires Sound(snd, out)
    ensures Sender.AllUnfinished(snd.queue)
  {
  }

  lemma Written(snd: Sender.SendState, out: Sender.OutStream, i: nat, start: nat, bytes: seq<byte>)
    requires Sound(snd, out) && snd.InOrder(out) && Placed(snd, i, start, bytes) && snd.CurrentIdx() > i
    ensures Sent(out, start, bytes)
  {
    hide Sender.EndsFit, Sender.MarksOf, Sender.Pending;
    snd.TransmittedIffPassed(out, i);
    assert snd.promised[..|out.sent|] == out.sent;
    SubSlice(snd.promised, 0, out.sent, start, start + |bytes|);
  }

  lemma AllWritten(snd: Sender.SendState, out: Sender.OutStream)
    requires Sound(snd, out) && snd.InOrder(out) && snd.queue == []
    ensures out.sent == snd.promised
  {
  }

  // ----- What a clean stream holds -----

  /** The receiver has read the start of a clean stream: there is no fault, and it has only sent messages. */
  lemma ReceivedIsClean(received: seq<byte>, sent: seq<Numbered>, rules: Rules, withFd: bool)
    requires Coherent(rules) && AllProper(sent, rules, withFd) && received <= EncodeAll(sent)
    ensures Frames(received, rules, withFd).fault == None
    ensures Frames(received, rules, withFd).msgs <= ExpectedAll(sent)
  {
    hide Proper, Accepted, Frames, Coherent;
    StreamRoundTrip(sent, rules, withFd);
    FramesOfPrefix(received, EncodeAll(sent), rules, withFd);
  }

  ghost predicate AllProper(ms: seq<Numbered>, rules: Rules, withFd: bool) {
    forall m :: m in ms ==> Proper(m.msg, rules) && Accepted(m.msg, rules, withFd)
  }

  lemma {:induction false} EncodeAllPrefix(ms: seq<Numbered>, k: nat)
    requires k <= |ms|
    ensures EncodeAll(ms[..k]) <= EncodeAll(ms)
    ensures k < |ms| ==> EncodeAll(ms[..k]) + Encode(ms[k]) <= EncodeAll(ms)
  {
    hide Encode;
    if k < |ms| {
      var before := ms[..|ms| - 1];
      assert before[..k] == ms[..k];
      if k < |before| {
        EncodeAllPrefix(before, k);
      }
    } else {
      assert ms[..k] == ms;
    }
  }

  /** Nothing but whole messages, and none: nothing. */
  lemma NothingFramed(x: seq<byte>, rules: Rules, withFd: bool)
    requires Frames(x, rules, withFd).msgs == [] && Frames(x, rules, withFd).rest == []
    ensures x == []
  {
    hide Decode, BodyOk, Frames;
    FramesUnfold(x, rules, withFd);
  }

  /** Of two starts of a stream with the same messages and nothing left over, none is longer. */
  lemma SameMessages(p: seq<byte>, q: seq<byte>, rules: Rules, withFd: bool)
    requires p <= q && Frames(p, rules, withFd).rest == [] && Frames(p, rules, withFd).fault == None
    requires Frames(q, rules, withFd).rest == [] && Frames(q, rules, withFd).msgs == Frames(p, rules, withFd).msgs
    ensures p == q
  {
    hide Frames;
    var x := q[|p|..];
    assert p + x == q;
    FramesAppend(p, x, rules, withFd);
    NothingFramed(x, rules, withFd);
  }

  /** The bytes that were returned as messages are those of the first messages sent. */
  lemma DoneIsEncoded(done: seq<byte>, msgs: seq<Raw>, sent: seq<Numbered>, rules: Rules, withFd: bool)
    requires Coherent(rules) && AllProper(sent, rules, withFd) && done <= EncodeAll(sent)
    requires Frames(done, rules, withFd) == Framed(msgs, [], None)
    ensures |msgs| <= |sent| && msgs == ExpectedAll(sent[..|msgs|]) && done == EncodeAll(sent[..|msgs|])
  {
    hide Proper, Accepted, Frames, Coherent, Encode, Expected;
    ReceivedIsClean(done, sent, rules, withFd);
    var k := |msgs|;
    var e := EncodeAll(sent[..k]);
    EncodeAllPrefix(sent, k);
    StreamRoundTrip(sent[..k], rules, withFd);
    assert ExpectedAll(sent)[..k] == ExpectedAll(sent[..k]);
    var all := EncodeAll(sent);
    if |done| <= |e| {
      assert done == all[..|done|] == e[..|done|];
      SameMessages(done, e, rules, withFd);
    } else {
      assert e == all[..|e|] == done[..|e|];
      SameMessages(e, done, rules, withFd);
    }
  }

  /** What is read of a message that is not complete yet stays within it, where nothing is read ahead. */
  lemma PartOfNext(whole: seq<byte>, k: nat, sent: seq<Numbered>, rules: Rules, withFd: bool)
    requires Coherent(rules) && AllProper(sent, rules, withFd) && k <= |sent|
    requires EncodeAll(sent[..k]) + whole <= EncodeAll(sent) && Receiver.NotBeyond(whole, rules, withFd)
    ensures k == |sent| ==> whole == []
    ensures k < |sent| ==> |whole| <= |Encode(sent[k])|
    ensures k < |sent| && Decode(whole, rules, withFd).Done? ==> Decode(whole, rules, withFd).value == Expected(sent[k])
  {
    hide Proper, Accepted, Coherent, Decode, Encode, Expected;
    if k == |sent| {
      assert sent[..k] == sent;
    } else {
      EncodeAllPrefix(sent, k);
      var start, all := EncodeAll(sent[..k]), EncodeAll(sent);
      var tail := all[|start|..];
      assert all == start + tail;
      assert Encode(sent[k]) <= tail && whole <= tail;
      var rest := tail[|Encode(sent[k])|..];
      assert tail == Encode(sent[k]) + rest;
      MessageRoundTrip(sent[k], rest, rules, withFd);
      var x := tail[|whole|..];
      assert whole + x == tail;
      if Decode(whole, rules, withFd).Done? { DecodeExtends(whole, x, rules, withFd); }
    }
  }

  // ----- Descriptors and the messages they belong to -----

  /** The descriptors of sent messages, each at the first byte of its message. */
  function DueMarks(ms: seq<Numbered>): seq<Mark> {
    if ms == [] then []
    else DueMarks(ms[..|ms| - 1]) + MarkAt(|EncodeAll(ms[..|ms| - 1])|, ms[|ms| - 1].msg.fds)
  }

  lemma EncodeNotEmpty(m: Numbered)
    ensures |Encode(m)| > 0
  {
    Sender.HeaderLength(m.msg, m.serial);
  }

  lemma {:induction false} DueMarksAscend(ms: seq<Numbered>)
    ensures Ascending(DueMarks(ms)) && Between(DueMarks(ms), 0, |EncodeAll(ms)|)
  {
    hide Encode, MarkAt, Ascending, Between;
    if ms == [] {
      NoDueMarks();
    } else {
      var before, last := ms[..|ms| - 1], ms[|ms| - 1];
      DueMarksAscend(before);
      EncodeNotEmpty(last);
      AscendingSnoc(DueMarks(before), |EncodeAll(before)|, last.msg.fds, |EncodeAll(ms)|);
    }
  }

  lemma DueMarksSnoc(ms: seq<Numbered>, m: Numbered)
    ensures DueMarks(ms + [m]) == DueMarks(ms) + MarkAt(|EncodeAll(ms)|, m.msg.fds)
  {
    assert (ms + [m])[..|ms|] == ms;
  }

  lemma NoDueMarks()
    ensures Ascending(DueMarks([])) && Between(DueMarks([]), 0, 0)
  {
  }

  /** The descriptors attached to a part of a message: its own with its first byte, and else none. */
  lemma {:induction false} FdsOfPart(ms: seq<Numbered>, k: nat, from: nat, to: nat)
    requires k < |ms|
    requires var start := |EncodeAll(ms[..k])|; start <= from <= to <= start + |Encode(ms[k])|
    ensures FdsIn(DueMarks(ms), from, to) == if from == |EncodeAll(ms[..k])| < to then ms[k].msg.fds else []
  {
    hide Encode, MarkAt, EncodeAll, DueMarks, FdsIn;
    var before, last := ms[..|ms| - 1], ms[|ms| - 1];
    var at := |EncodeAll(before)|;
    assert ms == before + [last];
    DueMarksSnoc(before, last);
    FdsInAppend(DueMarks(before), MarkAt(at, last.msg.fds), from, to);
    OneMark(at, last.msg.fds, from, to);
    if k < |before| {
      assert before[..k] == ms[..k] && before[k] == ms[k];
      EncodeAllPrefix(before, k);
      FdsOfPart(before, k, from, to);
    } else {
      assert ms[..k] == before;
      DueMarksAscend(before);
      FdsInNone(DueMarks(before), from, to);
    }
  }

  lemma OneMark(at: int, fds: seq<int>, from: int, to: int)
    ensures FdsIn(MarkAt(at, fds), from, to) == if from <= at < to then fds else []
  {
    if fds != [] {
      assert [Mark(at, fds)][1..] == [];
      assert FdsIn([], from, to) == [];
    }
  }

  /** Reading on in a message, its descriptors come with its first byte. */
  lemma FdsArrive(ms: seq<Numbered>, k: nat, before: nat, n: nat, held: seq<int>)
    requires k <= |ms| && (before > 0 ==> k < |ms|) && held == if before == 0 then [] else ms[k].msg.fds
    requires before + n > 0 ==> k < |ms| && before + n <= |Encode(ms[k])|
    ensures var from := |EncodeAll(ms[..k])| + before;
      held + FdsIn(DueMarks(ms), from, from + n) == if before + n == 0 then [] else ms[k].msg.fds
  {
    hide Encode, DueMarks;
    var from := |EncodeAll(ms[..k])| + before;
    if before + n == 0 {
      FdsInNone(DueMarks(ms), from, from);
    } else {
      FdsOfPart(ms, k, from, from + n);
    }
  }

  lemma AcceptedFds(ms: seq<Numbered>, k: nat, rules: Rules, withFd: bool)
    requires AllProper(ms, rules, withFd) && k < |ms|
    ensures |ms[k].msg.fds| <= MAX_FDS && (!withFd ==> ms[k].msg.fds == [])
  {
    assert ms[k] in ms;
  }

  lemma OwnCount(m: Numbered)
    ensures |m.msg.fds| <= MAX_FDS ==> FdCount(Expected(m)) == |m.msg.fds|
  {
  }

  lemma NothingMore(done: seq<byte>, whole: seq<byte>, msgs: seq<Raw>, rules: Rules, withFd: bool)
    requires Frames(done, rules, withFd) == Framed(msgs, [], None)
    requires Frames(done + whole, rules, withFd) == Framed(msgs, whole, None)
    ensures Decode(whole, rules, withFd).More?
  {
    hide Decode, BodyOk, Frames;
    FramesAppend(done, whole, rules, withFd);
    var f := Frames(whole, rules, withFd);
    assert |msgs + f.msgs| == |msgs| && f.fault == None;
    FramesUnfold(whole, rules, withFd);
    assert |f.msgs| == 0;
  }

  /** Marks that the queue still has to send do not matter to bytes that are on the wire. */
  lemma WireMarks(snd: Sender.SendState, out: Sender.OutStream, from: nat, to: nat)
    requires Sound(snd, out) && snd.InOrder(out) && Ascending(snd.dueMarks) && to <= |out.sent|
    ensures Ascending(out.marks) && FdsIn(out.marks, from, to) == FdsIn(snd.dueMarks, from, to)
  {
    hide Sender.EndsFit, Sender.Pending, Sender.MarksOf, FdsIn;
    var ahead := Sender.MarksOf(snd.queue, |snd.promised|);
    Sender.MarksAhead(snd.queue, |snd.promised|);
    FdsInNone(ahead, from, to);
    FdsInAppend(out.marks, ahead, from, to);
    assert forall i :: 0 <= i < |out.marks| ==> out.marks[i] == snd.dueMarks[i];
  }

  // ----- Whole runs -----

  /** One step of a run: something is done on the sending side, or the other side reads once. */
  datatype Step = Sending(job: Job) | Receiving(limits: seq<nat>)

  /** The jobs of a run, in order. */
  function JobsIn(steps: seq<Step>): seq<Job>
    decreases |steps|
  {
    if steps == [] then []
    else (if steps[0].Sending? then [steps[0].job] else []) + JobsIn(steps[1..])
  }

  /** The messages a run sends: those its jobs offer and that are taken, in order. */
  function SentBy(steps: seq<Step>, rules: Rules, withFd: bool): seq<Numbered> {
    if steps == [] then [] else
    var before, last := SentBy(steps[..|steps| - 1], rules, withFd), steps[|steps| - 1];
    if last.Sending? && Taken(last.job, rules, withFd)
    then before + [Numbered(last.job.msg, last.job.serial)] else before
  }

  /** Every message offered is put together properly; whether it is accepted is left open. */
  ghost predicate ProperSteps(steps: seq<Step>, rules: Rules) {
    forall i :: 0 <= i < |steps| && steps[i].Sending? && steps[i].job.Write? ==> Proper(steps[i].job.msg, rules)
  }

  /** The received messages are the first of those sent, in order, each with its own descriptors. */
  ghost predicate FirstOf(got: seq<Receiver.Delivered>, sent: seq<Numbered>) {
    |got| <= |sent| && forall i :: 0 <= i < |got| ==>
      got[i].raw == Expected(sent[i]) && got[i].fds == sent[i].msg.fds && got[i].sig == SigOf(got[i].raw.head.dyn)
  }

  /** Both ends of a connection, and the socket between them. */
  class Link {
    const rules: Rules
    const withFd: bool
    const snd: Sender.SendState
    const out: Sender.OutStream
    const rcv: Receiver.RecvState
    const inp: Receiver.InStream
    var moved: nat                   // bytes the socket has carried over
    var got: seq<Receiver.Delivered> // messages received
    var broken: bool                 // the receiver has found a fault
    ghost var sent: seq<Numbered>    // messages accepted for sending
    ghost var fine: bool             // no message was let to overtake one with descriptors

    constructor (rules: Rules, withFd: bool, capacity: nat)
      requires Coherent(rules)
      ensures this.rules == rules && this.withFd == withFd && Valid() && sent == [] && got == [] && fine && snd.queue == []
      ensures fresh(snd) && fresh(out) && fresh(rcv) && fresh(inp)
    {
      hide Proper, Accepted, Frames, Decode, Sender.EndsFit, Sender.Sharing, Receiver.StateOf, Coherent, EncodeHeader, FirstFault;
      this.rules, this.withFd := rules, withFd;
      snd := new Sender.SendState(withFd);
      out := new Sender.OutStream([]);
      rcv := new Receiver.RecvState(withFd, rules, capacity);
      inp := new Receiver.InStream([], [], [], false);
      moved, got, broken, sent, fine := 0, [], false, [], true;
    }

    ghost predicate Valid()
      reads this, snd, out, rcv, inp
    {
      && Coherent(rules) && AllProper(sent, rules, withFd)
      && SendingSide()
      && (!broken ==> ReceivingSide())
      && (fine ==> !broken && snd.InOrder(out) && FirstOf(got, sent) && |got| == |rcv.out| && HoldsOwn())
    }

    ghost predicate SendingSide()
      reads this`sent, snd, out
    {
      && Sound(snd, out) && snd.withFd == withFd
      && snd.promised == EncodeAll(sent) && snd.dueMarks == DueMarks(sent)
    }

    ghost predicate ReceivingSide()
      reads this`moved, out, rcv, inp
    {
      && rcv.AtRest() && rcv.withFd == withFd && rcv.rules == rules
      && moved <= |out.sent| && rcv.Received() + inp.unread == out.sent[..moved] && inp.at == |rcv.Received()|
    }

    /** The descriptors the receiver holds are those of the message it has begun to read. */
    ghost predicate HoldsOwn()
      reads this`sent, rcv
    {
      && rcv.remLoc <= |rcv.remaining|
      && (withFd ==>
            && (rcv.Pending() != [] ==> |rcv.out| < |sent|)
            && rcv.inFds == if rcv.Pending() == [] then [] else sent[|rcv.out|].msg.fds)
    }

    /** Nothing is queued, nothing is on the wire, and what the receiver holds is no message. */
    ghost predicate Quiet()
      reads this, snd, out, rcv, inp
    {
      && snd.queue == [] && moved == |out.sent| && inp.unread == []
      && rcv.remLoc <= |rcv.remaining| && Decode(rcv.Pending(), rules, withFd).More?
    }

    /** In a fine run everything sent was received exactly when the connection is quiet. */
    lemma AllReceivedIff()
      requires Valid() && fine
      ensures Quiet() <==> |got| == |sent|
    {
      hide Coherent, Proper, Accepted, Decode, Frames, Expected, EncodeAll, DueMarks, BodyOk, Receiver.StateOf, Sender.EndsFit, Sender.Pending, Sender.MarksOf;
      var all, pending := EncodeAll(sent), rcv.Pending();
      assert rcv.done <= rcv.Received() <= out.sent <= all;
      DoneIsEncoded(rcv.done, rcv.out, sent, rules, withFd);
      StreamRoundTrip(sent, rules, withFd);
      FramesAppend(rcv.done, pending, rules, withFd);
      if Quiet() {
        AllWritten(snd, out);
        assert rcv.Received() == all;
        FramesUnfold(pending, rules, withFd);
      }
      if |got| == |sent| {
        assert sent[..|sent|] == sent;
        assert rcv.done == all && pending == [];
        EmptyDecode(rules, withFd);
        if snd.queue != [] { Sender.PendingPositive(snd.queue); }
      }
    }

    /** A job of a sending task. */
    method Send(job: Job) returns (taken: bool)
      requires Valid() && (job.Write? ==> Proper(job.msg, rules))
      modifies this`sent, this`fine, snd, out
      ensures Valid() && got == old(got)
      ensures taken == Taken(job, rules, withFd)
      ensures sent == old(sent) + if taken then [Numbered(job.msg, job.serial)] else []
      ensures snd.queue == AfterJob(old(snd.queue), job, rules, withFd)
      ensures fine == (old(fine) && OrderlyJob(old(snd.queue), job, rules, withFd))
    {
      hide Proper, Accepted, Frames, Decode, Sender.EndsFit, Sender.Pending, Sender.MarksOf, Receiver.StateOf, Coherent, EncodeAll,
        Encode, DueMarks, MarkAt, AfterJob, OrderlyJob, Expected, FdsIn;
      fine := fine && OrderlyJob(snd.queue, job, rules, withFd);
      taken := Perform(snd, out, job, rules);
      assert !broken ==> out.sent[..moved] == old(out.sent)[..moved];
      if taken {
        EncodeAllSnoc(sent, Numbered(job.msg, job.serial));
        DueMarksSnoc(sent, Numbered(job.msg, job.serial));
        sent := sent + [Numbered(job.msg, job.serial)];
      }
    }

    /** What the receiver has from the wire is the start of what was sent. */
    lemma DoneNow(done0: seq<byte>, out0: seq<Raw>, whole: seq<byte>)
      requires Coherent(rules) && AllProper(sent, rules, withFd) && SendingSide() && snd.InOrder(out)
      requires done0 + whole <= out.sent && Frames(done0, rules, withFd) == Framed(out0, [], None)
      ensures done0 + whole <= EncodeAll(sent) && Ascending(snd.dueMarks)
      ensures |out0| <= |sent| && out0 == ExpectedAll(sent[..|out0|]) && done0 == EncodeAll(sent[..|out0|])
    {
      hide Sender.EndsFit, Sender.Pending, Sender.MarksOf, Coherent, AllProper, Frames, Ascending;
      assert out.sent <= EncodeAll(sent);
      assert done0 <= done0 + whole;
      DoneIsEncoded(done0, out0, sent, rules, withFd);
      DueMarksAscend(sent);
    }

    lemma NextOnWire(done0: seq<byte>, out0: seq<Raw>, whole: seq<byte>)
      requires Coherent(rules) && AllProper(sent, rules, withFd)
      requires |out0| <= |sent| && done0 == EncodeAll(sent[..|out0|]) && done0 + whole <= EncodeAll(sent)
      requires Receiver.NotBeyond(whole, rules, withFd)
      ensures whole != [] ==> |out0| < |sent| && |whole| <= |Encode(sent[|out0|])|
    {
      hide Coherent, AllProper, Receiver.NotBeyond, Encode, Decode;
      PartOfNext(whole, |out0|, sent, rules, withFd);
    }

    /** A message that is returned is the next one sent, with its descriptors. */
    lemma Arrived(m: Receiver.Delivered, whole: seq<byte>, came: seq<int>, done0: seq<byte>, out0: seq<Raw>)
      requires Coherent(rules) && AllProper(sent, rules, withFd) && FirstOf(got, sent) && |got| == |out0|
      requires rcv.withFd == withFd && rcv.rules == rules && rcv.Outcome(Ok(m), whole, came, done0, out0)
      requires |out0| <= |sent| && done0 == EncodeAll(sent[..|out0|]) && done0 + whole <= EncodeAll(sent)
      requires withFd ==> rcv.remaining == []
      requires withFd ==> (whole != [] ==> |out0| < |sent|) && came == if whole == [] then [] else sent[|out0|].msg.fds
      ensures FirstOf(got + [m], sent) && |got| + 1 == |rcv.out| && HoldsOwn()
    {
      hide Coherent, AllProper, Encode, Decode, Frames, Expected, EncodeAll, Receiver.StateOf;
      var k := |out0|;
      assert rcv.done <= rcv.Received() <= EncodeAll(sent);
      DoneIsEncoded(rcv.done, rcv.out, sent, rules, withFd);
      assert rcv.out[k] == m.raw == Expected(sent[k]);
      if withFd {
        assert rcv.Pending() == [] && rcv.done == done0 + whole;
        EncodeAllSnoc(sent[..k], sent[k]);
        assert sent[..k + 1] == sent[..k] + [sent[k]];
        EncodeNotEmpty(sent[k]);
        assert whole != [];
      } else {
        OwnCount(sent[k]);
        assert sent[k] in sent;
        AcceptedFds(sent, k, rules, withFd);
      }
    }

    /** And there are no faults. */
    lemma NoFault(e: Receiver.RecvError, whole: seq<byte>, came: seq<int>, done0: seq<byte>, out0: seq<Raw>)
      requires Coherent(rules) && AllProper(sent, rules, withFd) && |got| == |out0|
      requires rcv.withFd == withFd && rcv.rules == rules && rcv.Outcome(Err(e), whole, came, done0, out0)
      requires |out0| <= |sent| && done0 == EncodeAll(sent[..|out0|]) && done0 + whole <= EncodeAll(sent)
      requires withFd ==> rcv.remaining == [] && Receiver.NotBeyond(whole, rules, withFd)
      requires withFd ==> (whole != [] ==> |out0| < |sent|) && came == if whole == [] then [] else sent[|out0|].msg.fds
      ensures Receiver.NoInput(e) && |got| == |rcv.out| && HoldsOwn() && Decode(rcv.Pending(), rules, withFd).More?
    {
      hide Coherent, AllProper, Encode, Decode, Frames, Expected, EncodeAll, Receiver.StateOf, Receiver.NotBeyond;
      var k := |out0|;
      ReceivedIsClean(done0 + whole, sent, rules, withFd);
      if withFd {
        PartOfNext(whole, k, sent, rules, withFd);
        EmptyDecode(rules, withFd);
        if k < |sent| {
          AcceptedFds(sent, k, rules, withFd);
          OwnCount(sent[k]);
        }
      }
      if Receiver.NoInput(e) {
        assert rcv.done <= rcv.Received() <= EncodeAll(sent);
        DoneIsEncoded(rcv.done, rcv.out, sent, rules, withFd);
        assert rcv.done == done0;
        assert rcv.Pending() == (done0 + rcv.Pending())[|done0|..] == (done0 + whole)[|done0|..] == whole;
        NothingMore(done0, whole, rcv.out, rules, withFd);
      }
    }

    lemma SideAfter(r: Result<Receiver.Delivered, Receiver.RecvError>, whole: seq<byte>, came: seq<int>, done0: seq<byte>, out0: seq<Raw>)
      requires rcv.Outcome(r, whole, came, done0, out0)
      ensures r.Ok? || Receiver.NoInput(r.error) ==> rcv.AtRest() && rcv.remLoc <= |rcv.remaining| && rcv.Received() == done0 + whole
    {
    }

    /** One read in a fine run, in which the receiver had `pending0` and gets `bytes`. */
    lemma FineRead(r: Result<Receiver.Delivered, Receiver.RecvError>, whole: seq<byte>, pending0: seq<byte>, bytes: seq<byte>,
                   held: seq<int>, from: nat, came: seq<int>, done0: seq<byte>, out0: seq<Raw>)
      requires Coherent(rules) && AllProper(sent, rules, withFd) && SendingSide() && snd.InOrder(out) && FirstOf(got, sent)
      requires rcv.withFd == withFd && rcv.rules == rules && rcv.Outcome(r, whole, came, done0, out0) && |got| == |out0|
      requires whole == pending0 + bytes && done0 + whole <= out.sent && Frames(done0, rules, withFd) == Framed(out0, [], None)
      requires from == |done0| + |pending0| && inp.at == from + |bytes| && inp.marks == out.marks
      requires withFd ==> rcv.remaining == [] && Receiver.NotBeyond(whole, rules, withFd)
      requires withFd ==> (pending0 != [] ==> |out0| < |sent|) && held == if pending0 == [] then [] else sent[|out0|].msg.fds
      requires Ascending(inp.marks) ==> came == held + FdsIn(inp.marks, from, inp.at)
      ensures GoodRead(r)
    {
      hide Sender.Pending, Sender.MarksOf, Receiver.StateOf, Coherent, EncodeAll, Encode, Decode, Frames, Sender.EndsFit,
        DueMarks, Expected, FdsIn, Receiver.NotBeyond, Receiver.WellFormed, BodyOk, Ascending, AllProper,
        Receiver.RecvState.Outcome, FirstOf, HoldsOwn;
      DoneNow(done0, out0, whole);
      if withFd { CameWith(whole, pending0, bytes, held, from, came, done0, out0); }
      hide SendingSide, Link.GoodRead;
      if r.Ok? { Arrived(r.value, whole, came, done0, out0); } else { NoFault(r.error, whole, came, done0, out0); }
      GoodReadIs(r);
    }

    lemma GoodReadIs(r: Result<Receiver.Delivered, Receiver.RecvError>)
      requires r.Ok? ==> FirstOf(got + [r.value], sent) && |got| + 1 == |rcv.out| && HoldsOwn()
      requires r.Err? ==> Receiver.NoInput(r.error) && |got| == |rcv.out| && HoldsOwn()
      requires r.Err? ==> Decode(rcv.Pending(), rules, withFd).More?
      ensures GoodRead(r)
    {
    }

    /** The descriptors that came are those of the message being read, if any of it was read. */
    lemma CameWith(whole: seq<byte>, pending0: seq<byte>, bytes: seq<byte>, held: seq<int>, from: nat, came: seq<int>, done0: seq<byte>, out0: seq<Raw>)
      requires Coherent(rules) && AllProper(sent, rules, withFd) && SendingSide() && snd.InOrder(out) && Ascending(snd.dueMarks)
      requires whole == pending0 + bytes && done0 + whole <= out.sent && done0 + whole <= EncodeAll(sent)
      requires |out0| <= |sent| && done0 == EncodeAll(sent[..|out0|]) && Receiver.NotBeyond(whole, rules, withFd)
      requires from == |done0| + |pending0| && inp.at == from + |bytes| && inp.marks == out.marks
      requires (pending0 != [] ==> |out0| < |sent|) && held == if pending0 == [] then [] else sent[|out0|].msg.fds
      requires Ascending(inp.marks) ==> came == held + FdsIn(inp.marks, from, inp.at)
      ensures (whole != [] ==> |out0| < |sent|) && came == if whole == [] then [] else sent[|out0|].msg.fds
    {
      hide Sender.Pending, Sender.MarksOf, Coherent, EncodeAll, Encode, Decode, Sender.EndsFit, DueMarks, FdsIn, Receiver.NotBeyond, Ascending, AllProper;
      NextOnWire(done0, out0, whole);
      WireMarks(snd, out, from, inp.at);
      FdsArrive(sent, |out0|, |pending0|, |bytes|, held);
    }

    /** The socket carries over what was written, and the receiver has a go at it. */
    method ReadWire(limits: seq<nat>) returns (r: Result<Receiver.Delivered, Receiver.RecvError>, ghost whole: seq<byte>, ghost came: seq<int>)
      requires Valid() && !broken
      modifies this`moved, rcv, inp
      ensures moved == |out.sent| && inp.at == |old(rcv.done) + whole| && old(rcv.done) + whole + inp.unread == out.sent
      ensures rcv.Outcome(r, whole, came, old(rcv.done), old(rcv.out))
      ensures r.Err? && Receiver.NoInput(r.error) && Generous(limits, |out.sent| + 1) ==> inp.unread == []
      ensures fine ==> GoodRead(r)
    {
      hide Proper, Accepted, Frames, Decode, Sender.EndsFit, Sender.Pending, Sender.MarksOf, Receiver.StateOf, Coherent, EncodeAll,
        DueMarks, Expected, FdsIn, Receiver.NotBeyond, Receiver.WellFormed, BodyOk, Ascending, AllProper,
        Receiver.RecvState.Outcome, FirstOf, Sound, GoodRead;
      inp.unread := inp.unread + out.sent[moved..];
      assert rcv.Received() + inp.unread == out.sent;
      moved, inp.marks, inp.schedule := |out.sent|, out.marks, limits;
      ghost var done0, out0, pending0 := rcv.done, rcv.out, rcv.Pending();
      ghost var held, from, bytes := rcv.inFds, inp.at, [];
      r, bytes, came := rcv.GetNextMessage(inp);
      whole := pending0 + bytes;
      assert done0 + whole == done0 + pending0 + bytes;
      assert done0 + whole + inp.unread == out.sent;
      if fine {
        FineRead(r, whole, pending0, bytes, held, from, came, done0, out0);
      }
    }

    /** The result of a read that agrees with what was sent. */
    ghost predicate GoodRead(r: Result<Receiver.Delivered, Receiver.RecvError>)
      reads this`got, this`sent, rcv
    {
      match r
      case Ok(m) => FirstOf(got + [m], sent) && |got| + 1 == |rcv.out| && HoldsOwn()
      case Err(e) => Receiver.NoInput(e) && |got| == |rcv.out| && HoldsOwn() && Decode(rcv.Pending(), rules, withFd).More?
    }

    /**
     The socket carries over what was written, and the other side reads once: it gets a message or finds nothing
     more. In a fine run it never finds a fault.
     */
    method Receive(limits: seq<nat>) returns (msg: Option<Receiver.Delivered>)
      requires Valid()
      modifies this`moved, this`got, this`broken, rcv, inp
      ensures Valid() && got == old(got) + if msg.Some? then [msg.value] else []
      ensures fine && msg.None? ==> rcv.remLoc <= |rcv.remaining| && Decode(rcv.Pending(), rules, withFd).More?
      ensures fine && msg.None? && Generous(limits, |out.sent| + 1) ==> inp.unread == [] && moved == |out.sent|
    {
      hide Proper, Accepted, Frames, Decode, Sender.EndsFit, Sender.Pending, Sender.MarksOf, Receiver.StateOf, Coherent, EncodeAll,
        DueMarks, Expected, FdsIn, Receiver.NotBeyond, Receiver.WellFormed, BodyOk, Ascending, AllProper,
        Receiver.RecvState.Outcome, Receiver.RecvState.AtRest, FirstOf, HoldsOwn, Sound, SendingSide, Sender.SendState.InOrder, Generous;
      if broken { return None; }
      ghost var done0, out0 := rcv.done, rcv.out;
      var r, whole, came := ReadWire(limits);
      SideAfter(r, whole, came, done0, out0);
      match r
      case Ok(m) =>
        got := got + [m];
        return Some(m);
      case Err(e) =>
        broken := !Receiver.NoInput(e);
        return None;
    }
  }

  /**
   End to end, over any run: sends, flushes and reads in any order, with any short writes and short reads, with the
   socket blocking anywhere, with descriptors or without. If no message is let to overtake one with descriptors, then
   the messages received are the first of those sent, in order, each with its own descriptors; there is no fault; and
   they are all of them exactly when nothing is queued, nothing is on the wire, and the receiver holds no message.
   */
  method RunConnection(steps: seq<Step>, rules: Rules, withFd: bool, capacity: nat) returns (link: Link)
    requires Coherent(rules) && ProperSteps(steps, rules)
    ensures fresh(link) && fresh(link.snd) && fresh(link.out) && fresh(link.rcv) && fresh(link.inp)
    ensures link.Valid() && link.rules == rules && link.withFd == withFd && link.sent == SentBy(steps, rules, withFd)
    ensures Sender.AllUnfinished(link.snd.queue) && link.snd.queue == AfterJobs([], JobsIn(steps), rules, withFd)
    ensures Orderly([], JobsIn(steps), rules, withFd) ==>
      link.fine && !link.broken && FirstOf(link.got, link.sent) && (link.Quiet() <==> |link.got| == |link.sent|)
  {
    hide Proper, Taken, Expected, Coherent, Link.Valid, FirstOf, Orderly, OrderlyJob, AfterJob, AfterJobs, Link.Quiet;
    link := new Link(rules, withFd, capacity);
    ghost var orderly := Orderly([], JobsIn(steps), rules, withFd);
    var k := 0;
    assert steps[0..] == steps;
    while k < |steps|
      invariant 0 <= k <= |steps|
      invariant link.Valid() && link.rules == rules && link.withFd == withFd && link.sent == SentBy(steps[..k], rules, withFd)
      invariant Sender.AllUnfinished(link.snd.queue)
      invariant AfterJobs(link.snd.queue, JobsIn(steps[k..]), rules, withFd) == AfterJobs([], JobsIn(steps), rules, withFd)
      invariant orderly ==> link.fine && Orderly(link.snd.queue, JobsIn(steps[k..]), rules, withFd)
      invariant fresh(link) && fresh(link.snd) && fresh(link.out) && fresh(link.rcv) && fresh(link.inp)
    {
      assert steps[..k + 1][..k] == steps[..k];
      assert steps[k..][1..] == steps[k + 1..];
      NextJob(link.snd.queue, steps[k..], rules, withFd);
      match steps[k] {
        case Sending(job) =>
          var _ := link.Send(job);
        case Receiving(limits) =>
          var _ := link.Receive(limits);
      }
      k := k + 1;
    }
    assert steps[..|steps|] == steps;
    LastJob(link.snd.queue, rules, withFd);
    if orderly { FineLink(link); }
  }

  /** Any orderly run, continued on a socket that goes along: all is flushed and read, and every message arrives. */
  method RunToTheEnd(steps: seq<Step>, rules: Rules, withFd: bool, capacity: nat) returns (link: Link)
    requires Coherent(rules) && ProperSteps(steps, rules) && Orderly([], JobsIn(steps), rules, withFd)
    ensures link.Valid() && link.sent == SentBy(steps, rules, withFd)
    ensures FirstOf(link.got, link.sent) && |link.got| == |link.sent|
  {
    hide Proper, Taken, Expected, Coherent, Link.Valid, FirstOf, Orderly, OrderlyJob, AfterJob, AfterJobs, Sender.Pending, EncodeAll, Link.Quiet;
    link := RunConnection(steps, rules, withFd, capacity);
    var flush := Flush(seq(|Sender.Pending(link.snd.queue)|, i => 1));
    FlushEnds(link.snd.queue, flush, rules, withFd);
    var _ := link.Send(flush);
    var limits := seq(|link.out.sent| + 1, i => 1);
    var more := true;
    FineLink(link);
    while more
      invariant link.Valid() && link.fine && link.rules == rules && link.withFd == withFd
      invariant link.sent == SentBy(steps, rules, withFd) && link.snd.queue == [] && |link.got| <= |link.sent|
      invariant !more ==> |link.got| == |link.sent|
      invariant fresh(link) && fresh(link.rcv) && fresh(link.inp) && |limits| == |link.out.sent| + 1
      decreases |link.sent| - |link.got|, if more then 1 else 0
    {
      var msg := link.Receive(limits);
      FineLink(link);
      more := msg.Some?;
      if !more { NowQuiet(link); }
    }
    FineLink(link);
  }

  lemma NowQuiet(link: Link)
    requires link.snd.queue == [] && link.moved == |link.out.sent| && link.inp.unread == []
    requires link.rcv.remLoc <= |link.rcv.remaining| && Decode(link.rcv.Pending(), link.rules, link.withFd).More?
    ensures link.Quiet()
  {
  }

  lemma FlushEnds(queue: seq<Sender.RawOut>, flush: Job, rules: Rules, withFd: bool)
    requires Sender.AllUnfinished(queue) && flush.Flush? && Generous(flush.writes, |Sender.Pending(queue)|)
    ensures AfterJob(queue, flush, rules, withFd) == [] && !Taken(flush, rules, withFd) && OrderlyJob(queue, flush, rules, withFd)
  {
    hide Sender.Pending, Sender.FlushRun;
    Sender.FlushEmpties(queue, flush.writes);
  }

  lemma FineLink(link: Link)
    requires link.Valid() && link.fine
    ensures !link.broken && FirstOf(link.got, link.sent) && |link.got| <= |link.sent| && (link.Quiet() <==> |link.got| == |link.sent|)
  {
    hide Link.Quiet;
    link.AllReceivedIff();
  }

  lemma NextJob(queue: seq<Sender.RawOut>, steps: seq<Step>, rules: Rules, withFd: bool)
    requires Sender.AllUnfinished(queue) && steps != []
    ensures steps[0].Receiving? ==> JobsIn(steps) == JobsIn(steps[1..])
    ensures steps[0].Sending? ==>
      var next := AfterJob(queue, steps[0].job, rules, withFd);
      && AfterJobs(queue, JobsIn(steps), rules, withFd) == AfterJobs(next, JobsIn(steps[1..]), rules, withFd)
      && (Orderly(queue, JobsIn(steps), rules, withFd) <==>
            OrderlyJob(queue, steps[0].job, rules, withFd) && Orderly(next, JobsIn(steps[1..]), rules, withFd))
  {
    hide AfterJob, OrderlyJob;
    var later := JobsIn(steps[1..]);
    if steps[0].Sending? {
      assert ([steps[0].job] + later)[1..] == later;
    } else {
      assert [] + later == later;
    }
  }

  lemma LastJob(queue: seq<Sender.RawOut>, rules: Rules, withFd: bool)
    requires Sender.AllUnfinished(queue)
    ensures AfterJobs(queue, JobsIn([]), rules, withFd) == queue
  {
  }

  /** Any run without descriptors is orderly, on any connection; and any run on a connection that has none. */
  lemma RunsWithoutFds(steps: seq<Step>, rules: Rules, withFd: bool)
    requires withFd ==> NoFds(JobsIn(steps), rules, withFd)
    ensures Orderly([], JobsIn(steps), rules, withFd)
  {
    hide Taken, Sender.Sharing, Orderly;
    if !withFd { NoFdsWithout(JobsIn(steps), rules); }
    Sender.NothingQueued();
    OrderlyWithoutFds([], JobsIn(steps), rules, withFd);
  }
}
