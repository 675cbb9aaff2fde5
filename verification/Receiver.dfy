/** The incremental framer, src/conn/recv.rs. */
module Receiver {
  import opened Utils
  import opened HeaderCodec
  import opened Framing
  import opened Descriptors

  /** A received message (`MarshalledMessage`). */
  datatype Delivered = Delivered(raw: Raw, sig: Text, fds: seq<int>)

  datatype InState =
    | Header(buf: seq<byte>)
    | DynHdr(fixed: FixedHeader, buf: seq<byte>)
    | Finishing(fixed: FixedHeader, dyn: DynamicHeader, buf: seq<byte>)

  /** How many bytes the current state can take directly from the socket. */
  function BytesNeeded(s: InState): int {
    match s
    case Header(b) => HEADER_LEN + 4 - |b|
    case DynHdr(fixed, b) =>
      if |b| < HEADER_LEN + 4 then HEADER_LEN + 4 - |b| else HeadLen(b, fixed.bo) - |b|
    case Finishing(fixed, _, b) => fixed.bodyLen - |b|
  }

  /** The state reached when `taken` are the bytes of the current message that were taken in. */
  ghost predicate StateOf(s: InState, taken: seq<byte>, rules: Rules, withFd: bool) {
    match s
    case Header(b) => b == taken && |b| <= HEADER_LEN + 4
    case DynHdr(fixed, b) =>
      && b == taken
      && |taken| >= HEADER_LEN
      && ParseFixed(taken) == Ok(fixed)
      && (|taken| >= HEADER_LEN + 4 ==> |taken| <= HeadLen(taken, fixed.bo))
    case Finishing(fixed, dyn, b) =>
      var head := DecodeHead(taken, rules, withFd);
      && head.Done?
      && head.value == Head(fixed, dyn)
      && b == taken[head.len..]
      && |b| <= fixed.bodyLen
  }

  /** Nothing more can be made of the bytes taken in: the next step is a read. */
  ghost predicate Starved(s: InState) {
    match s
    case Header(b) => |b| < HEADER_LEN
    case DynHdr(fixed, b) => |b| < HEADER_LEN + 4 || |b| < HeadLen(b, fixed.bo)
    case Finishing(fixed, _, b) => |b| < fixed.bodyLen
  }

  lemma StarvedNeedsMore(s: InState, taken: seq<byte>, rules: Rules, withFd: bool)
    requires StateOf(s, taken, rules, withFd) && Starved(s)
    ensures Decode(taken, rules, withFd) == More && BytesNeeded(s) > 0
  {
    hide CheckHead, HeadLen, ParseHeader;
  }

  /**
   Exact reads: the bytes asked for never reach beyond the message being received, and the last request
   covers exactly what is left of it: that for the body, or for the header of a message without one.
   */
  lemma RequestsStayInMessage(s: InState, taken: seq<byte>, x: seq<byte>, rules: Rules, withFd: bool)
    requires StateOf(s, taken, rules, withFd) && Starved(s)
    requires Decode(taken + x, rules, withFd).Done?
    ensures |taken| + BytesNeeded(s) <= Decode(taken + x, rules, withFd).len
    ensures s.Finishing? || (s.DynHdr? && |taken| >= HEADER_LEN + 4 && s.fixed.bodyLen == 0) ==>
      |taken| + BytesNeeded(s) == Decode(taken + x, rules, withFd).len
  {
    hide CheckHead, HeadLen, ParseHeader, ParseFixed;
    if s.DynHdr? {
      FixedExtends(taken, x);
      if |taken| >= HEADER_LEN + 4 {
        HeadLenExtends(taken, x, s.fixed.bo);
      }
    } else if s.Finishing? {
      DecodeHeadExtends(taken, x, rules, withFd);
    }
  }

  /** Nothing was taken in that is not part of the current message. */
  ghost predicate NotBeyond(taken: seq<byte>, rules: Rules, withFd: bool) {
    forall x: seq<byte> :: Decode(taken + x, rules, withFd).Done? ==> |taken| <= Decode(taken + x, rules, withFd).len
  }

  lemma StateNotBeyond(s: InState, taken: seq<byte>, rules: Rules, withFd: bool)
    requires StateOf(s, taken, rules, withFd)
    ensures NotBeyond(taken, rules, withFd)
  {
    forall x | Decode(taken + x, rules, withFd).Done? ensures |taken| <= Decode(taken + x, rules, withFd).len {
      StateFits(s, taken, x, rules, withFd);
    }
  }

  lemma StateFits(s: InState, taken: seq<byte>, x: seq<byte>, rules: Rules, withFd: bool)
    requires StateOf(s, taken, rules, withFd) && Decode(taken + x, rules, withFd).Done?
    ensures |taken| <= Decode(taken + x, rules, withFd).len
  {
    hide CheckHead, HeadLen, ParseHeader, ParseFixed;
    if s.DynHdr? {
      FixedExtends(taken, x);
      if |taken| >= HEADER_LEN + 4 {
        HeadLenExtends(taken, x, s.fixed.bo);
      }
    } else if s.Finishing? {
      DecodeHeadExtends(taken, x, rules, withFd);
    }
  }

  /** What one receive on the socket yields. */
  datatype Receipt = Got(bytes: seq<byte>, fds: seq<int>) | WouldBlock | HungUp

  /**
   The reading end of the socket: the bytes to come from position `at` on, the descriptors attached to bytes, and an
   arbitrary schedule of short reads (0: would block).
   */
  class InStream {
    var unread: seq<byte>
    var at: nat
    var marks: seq<Mark>
    var schedule: seq<nat>
    const closed: bool

    constructor (bytes: seq<byte>, marks: seq<Mark>, schedule: seq<nat>, closed: bool)
      ensures unread == bytes && at == 0 && this.marks == marks && this.schedule == schedule && this.closed == closed
    {
      unread, at := bytes, 0;
      this.marks := marks;
      this.schedule := schedule;
      this.closed := closed;
    }

    /** Hands out at least one and at most `max` bytes, if any are there, and the descriptors attached to them. */
    method Recv(max: nat) returns (r: Receipt)
      requires max > 0
      modifies this`unread, this`at, this`schedule
      ensures r.Got? ==> 0 < |r.bytes| <= max && old(unread) == r.bytes + unread && |schedule| < |old(schedule)|
      ensures r.Got? ==> at == old(at) + |r.bytes| && r.fds == FdsIn(marks, old(at), at)
      ensures !r.Got? ==> unread == old(unread) && at == old(at)
      ensures r.HungUp? <==> HangsUp(old(unread), old(schedule), closed)
      ensures r.WouldBlock? <==> Idle(old(schedule)) || (old(unread) == [] && !closed)
      ensures schedule == Later(old(schedule))
    {
      if Idle(schedule) {
        schedule := Later(schedule);
        return WouldBlock;
      }
      var limit := schedule[0];
      schedule := Later(schedule);
      if unread == [] {
        return if closed then HungUp else WouldBlock;
      }
      var n := if limit < max then limit else max;
      n := if |unread| < n then |unread| else n;
      r := Got(unread[..n], FdsIn(marks, at, at + n));
      unread, at := unread[n..], at + n;
    }
  }

  /** The socket will not block before all bytes are read and what comes behind them is seen. */
  predicate Goes(unread: seq<byte>, schedule: seq<nat>) {
    Generous(schedule, |unread| + 1)
  }

  /** The other side has closed the connection, and all it sent was read. */
  predicate HangsUp(unread: seq<byte>, schedule: seq<nat>, closed: bool) {
    !Idle(schedule) && unread == [] && closed
  }

  /** Of a schedule that came down to `after`, the last turn was one that blocks. */
  ghost predicate Stalled(before: seq<nat>, after: seq<nat>) {
    exists k :: 0 <= k <= |before| && Idle(before[k..]) && after == Later(before[k..])
  }

  /** What is left of a schedule. */
  predicate Cut(before: seq<nat>, after: seq<nat>) {
    |after| <= |before| && after == before[|before| - |after|..]
  }

  lemma CutAll(schedule: seq<nat>)
    ensures Cut(schedule, schedule)
  {
  }

  lemma CutLater(before: seq<nat>, now: seq<nat>)
    requires Cut(before, now)
    ensures Cut(before, Later(now))
    ensures Idle(now) ==> Stalled(before, Later(now))
  {
    assert before[|before| - |now|..] == now;
  }

  lemma GoesOn(unread: seq<byte>, schedule: seq<nat>)
    requires Goes(unread, schedule)
    ensures !Idle(schedule)
    ensures forall n :: 0 < n <= |unread| ==> Goes(unread[n..], Later(schedule))
  {
  }

  /** `extend_max`: moves bytes of `buf` from `loc` on into `vec` until it has `target` of them. */
  method ExtendMax(vec: seq<byte>, buf: seq<byte>, loc: nat, target: nat) returns (vec': seq<byte>, loc': nat, full: bool)
    requires loc <= |buf|
    ensures loc <= loc' <= |buf| && vec' == vec + buf[loc..loc']
    ensures full <==> |vec| + |buf| - loc >= target
    ensures full ==> |vec'| == if |vec| < target then target else |vec|
    ensures !full ==> loc' == |buf|
  {
    if |vec| >= target {
      return vec, loc, true;
    }
    var needed := target - |vec|;
    if needed > |buf| - loc {
      return vec + buf[loc..], |buf|, false;
    } else {
      return vec + buf[loc..loc + needed], loc + needed, true;
    }
  }

  /** Bytes read directly into the buffer of the current state. */
  function WithBuf(s: InState, b: seq<byte>): InState {
    match s
    case Header(_) => Header(b)
    case DynHdr(fixed, _) => DynHdr(fixed, b)
    case Finishing(fixed, dyn, _) => Finishing(fixed, dyn, b)
  }

  lemma TakeDirectly(s: InState, taken: seq<byte>, x: seq<byte>, rules: Rules, withFd: bool)
    requires StateOf(s, taken, rules, withFd) && |x| <= BytesNeeded(s)
    ensures StateOf(WithBuf(s, s.buf + x), taken + x, rules, withFd)
  {
    hide CheckHead, HeadLen, ParseHeader, ParseFixed;
    if s.DynHdr? {
      FixedExtends(taken, x);
      if |taken| >= HEADER_LEN + 4 {
        HeadLenExtends(taken, x, s.fixed.bo);
      }
    } else if s.Finishing? {
      DecodeHeadExtends(taken, x, rules, withFd);
      var n := DecodeHead(taken, rules, withFd).len;
      assert (taken + x)[n..] == taken[n..] + x;
    }
  }

  datatype RecvError = Blocked | BrokenPipe | Protocol(fault: Fault) | TooManyFds | WrongFdCount

  /** The socket has nothing now, or nothing any more. */
  predicate NoInput(e: RecvError) {
    e.Blocked? || e.BrokenPipe?
  }

  predicate FdTrouble(e: RecvError) {
    e.TooManyFds? || e.WrongFdCount?
  }

  /** The signature is the header's, and the message carries as many descriptors as its header says. */
  predicate WellFormed(m: Delivered) {
    m.sig == SigOf(m.raw.head.dyn) && |m.fds| == FdCount(m.raw)
  }

  /**
   What an answer without a message says about the socket: broken pipe that the other side has closed it and all was
   read, would-block that it would block, or is open and all was read.
   */
  ghost predicate SocketSays(r: Result<Delivered, RecvError>, unread0: seq<byte>, schedule0: seq<nat>,
                             unread: seq<byte>, schedule: seq<nat>, closed: bool) {
    && (r == Err(BrokenPipe) ==> closed && unread == [])
    && (r == Err(Blocked) ==> Stalled(schedule0, schedule) || (!closed && unread == []))
    && (Goes(unread0, schedule0) && r.Err? && NoInput(r.error) ==> unread == [] && r.error == if closed then BrokenPipe else Blocked)
  }

  lemma Says(r: Result<Delivered, RecvError>, unread0: seq<byte>, schedule0: seq<nat>, unread: seq<byte>, schedule: seq<nat>,
             unread': seq<byte>, schedule': seq<nat>, closed: bool)
    requires Cut(schedule0, schedule) && schedule' == Later(schedule) && (Goes(unread0, schedule0) ==> Goes(unread, schedule))
    requires r == Err(BrokenPipe) <==> HangsUp(unread, schedule, closed)
    requires r == Err(Blocked) <==> Idle(schedule) || (unread == [] && !closed)
    requires r.Err? && NoInput(r.error) ==> unread' == unread
    ensures SocketSays(r, unread0, schedule0, unread', schedule', closed)
  {
    CutLater(schedule0, schedule);
    if Goes(unread, schedule) { GoesOn(unread, schedule); }
  }

  class RecvState {
    const withFd: bool
    const rules: Rules
    const capacity: nat // spare room of `remaining`
    var inState: InState
    var inFds: seq<int>
    var remaining: seq<byte>
    var remLoc: nat
    ghost var taken: seq<byte> // bytes of the current message that were taken in
    ghost var done: seq<byte>  // bytes of the messages that were returned
    ghost var out: seq<Raw>    // those messages

    constructor (withFd: bool, rules: Rules, capacity: nat)
      ensures this.withFd == withFd && this.rules == rules
      ensures AtRest() && Received() == [] && out == [] && inFds == []
    {
      this.withFd, this.rules, this.capacity := withFd, rules, capacity;
      inState, inFds, remaining, remLoc := Header([]), [], [], 0;
      taken, done, out := [], [], [];
      new;
      EmptyDecode(rules, withFd);
    }

    ghost predicate Valid()
      reads this
    {
      && remLoc <= |remaining|
      && StateOf(inState, taken, rules, withFd)
      && (if withFd then remaining == [] else inFds == [])
      && |inFds| <= MAX_FDS
    }

    /** Bytes received and not yet returned in a message. */
    ghost function Pending(): seq<byte>
      reads this
      requires remLoc <= |remaining|
    {
      taken + remaining[remLoc..]
    }

    /** All bytes received so far. */
    ghost function Received(): seq<byte>
      reads this
      requires remLoc <= |remaining|
    {
      done + Pending()
    }

    /** Between two calls: what was returned is the framing of the bytes it was made from. */
    ghost predicate AtRest()
      reads this
    {
      && Valid()
      && Decode(taken, rules, withFd) == More
      && Frames(done, rules, withFd) == Framed(out, [], None)
    }

    method TakeHeader() returns (r: Result<bool, Fault>)
      requires Valid() && inState.Header?
      modifies this`inState, this`remLoc, this`taken
      ensures Valid() && Pending() == old(Pending())
      ensures r == Ok(false) ==> inState.Header? && Starved(inState) && remLoc == |remaining|
      ensures r == Ok(true) ==> inState.DynHdr?
      ensures r.Err? ==> Decode(Pending(), rules, withFd) == Bad(r.error)
    {
      hide HeadLen, CheckHead, ParseFixed;
      var buf, loc, full := ExtendMax(inState.buf, remaining, remLoc, HEADER_LEN);
      assert buf + remaining[loc..] == Pending();
      inState, remLoc, taken := Header(buf), loc, buf;
      if !full {
        return Ok(false);
      }
      match ParseFixed(buf)
      case Err(e) =>
        DecodeExtends(taken, remaining[remLoc..], rules, withFd);
        return Err(BadFixedHeader(e));
      case Ok(fixed) =>
        inState := DynHdr(fixed, buf);
        return Ok(true);
    }

    /** Parses the header fields once the header is complete. */
    method ReadHead(b: seq<byte>, fixed: FixedHeader) returns (r: Result<DynamicHeader, Fault>)
      requires |b| >= HEADER_LEN
      ensures r == CheckHead(b, fixed, rules, withFd)
    {
      hide ParseHeader, AlignOffset;
      var parsed := Unmarshal(b, HEADER_LEN, fixed.bo, rules);
      if parsed.Err? { return Err(BadFields(parsed.error)); }
      var (end, dyn) := parsed.value;
      if fixed.serial == 0 { return Err(ZeroSerial); }
      if AlignOffset(8, b, end).Err? { return Err(DataInPadding); }
      if dyn.numFds.Some? && dyn.numFds.value > 0 && !withFd { return Err(FdsNotNegotiated); }
      return Ok(dyn.(serial := Some(fixed.serial)));
    }

    /** Moves bytes into the header buffer up to `target`, which may not be known to be the header's length yet. */
    method FillDynHdr(target: nat) returns (full: bool)
      requires Valid() && inState.DynHdr? && HEADER_LEN + 4 <= target
      requires target == HEADER_LEN + 4 || (|taken| >= HEADER_LEN + 4 && target == HeadLen(taken, inState.fixed.bo))
      modifies this`inState, this`remLoc, this`taken
      ensures Valid() && inState.DynHdr? && inState.fixed == old(inState.fixed) && Pending() == old(Pending())
      ensures |taken| >= |old(taken)| && taken[..|old(taken)|] == old(taken)
      ensures full ==> |taken| == if |old(taken)| < target then target else |old(taken)|
      ensures !full ==> |taken| < target && remLoc == |remaining|
    {
      hide HeadLen, CheckHead, ParseFixed;
      var fixed := inState.fixed;
      var buf, loc;
      buf, loc, full := ExtendMax(inState.buf, remaining, remLoc, target);
      assert buf + remaining[loc..] == Pending();
      FixedExtends(taken, remaining[remLoc..loc]);
      if |taken| >= HEADER_LEN + 4 {
        HeadLenExtends(taken, remaining[remLoc..loc], fixed.bo);
      }
      inState, remLoc, taken := DynHdr(fixed, buf), loc, buf;
    }

    method TakeDynHdr() returns (r: Result<bool, Fault>)
      requires Valid() && inState.DynHdr?
      modifies this`inState, this`remLoc, this`taken
      ensures Valid() && Pending() == old(Pending())
      ensures r == Ok(false) ==> inState.DynHdr? && Starved(inState) && remLoc == |remaining|
      ensures r == Ok(true) ==> inState.Finishing?
      ensures r.Err? ==> Decode(Pending(), rules, withFd) == Bad(r.error)
    {
      hide HeadLen, CheckHead, ParseFixed;
      var full := FillDynHdr(HEADER_LEN + 4);
      if !full { return Ok(false); }
      var fixed := inState.fixed;
      var headLen := HeadLen(inState.buf, fixed.bo);
      ghost var start := taken;
      full := FillDynHdr(headLen);
      assert taken == start + taken[|start|..];
      HeadLenExtends(start, taken[|start|..], fixed.bo);
      if !full { return Ok(false); }
      var all := inState.buf;
      assert all[..headLen] == all;
      var head := ReadHead(all, fixed);
      if head.Err? {
        DecodeExtends(taken, remaining[remLoc..], rules, withFd);
        return Err(head.error);
      }
      inState := Finishing(fixed, head.value, []);
      return Ok(true);
    }

    method TakeBody() returns (r: Option<Raw>)
      requires Valid() && inState.Finishing?
      modifies this`inState, this`remLoc, this`taken
      ensures Valid()
      ensures r.None? ==> inState.Finishing? && Starved(inState) && remLoc == |remaining| && Pending() == old(Pending())
      ensures r.Some? ==> taken == [] && inState == Header([]) && Decode(old(Pending()), rules, withFd).Done?
      ensures r.Some? ==> var p := Decode(old(Pending()), rules, withFd); p.value == r.value && Pending() == old(Pending())[p.len..]
    {
      hide DecodeHead;
      var fixed, dyn := inState.fixed, inState.dyn;
      ghost var before := Pending();
      var body, loc, full := ExtendMax(inState.buf, remaining, remLoc, fixed.bodyLen);
      ghost var x := remaining[remLoc..loc];
      DecodeHeadExtends(taken, x, rules, withFd);
      ghost var n := DecodeHead(taken, rules, withFd).len;
      assert (taken + x)[n..] == taken[n..] + x;
      assert taken + x + remaining[loc..] == before;
      inState, remLoc, taken := Finishing(fixed, dyn, body), loc, taken + x;
      if !full {
        return None;
      }
      r := Some(Raw(Head(fixed, dyn), body));
      DecodeExtends(taken, remaining[remLoc..], rules, withFd);
      assert before[|taken|..] == remaining[remLoc..];
      inState, taken := Header([]), [];
    }

    /** `try_get_msg`: goes on with the current message from `remaining`, as far as that lasts. */
    method TryBlock() returns (r: Result<Option<Raw>, Fault>)
      requires Valid()
      modifies this`inState, this`remLoc, this`taken
      ensures r == Ok(None) ==> Valid() && Starved(inState) && remLoc == |remaining| && Pending() == old(Pending())
      ensures r.Ok? && r.value.Some? ==> Valid() && taken == [] && inState == Header([]) && Decode(old(Pending()), rules, withFd).Done?
      ensures r.Ok? && r.value.Some? ==>
        var p := Decode(old(Pending()), rules, withFd); p.value == r.value.value && Pending() == old(Pending())[p.len..]
      ensures r.Err? ==> Decode(old(Pending()), rules, withFd) == Bad(r.error)
      decreases if inState.Header? then 2 else if inState.DynHdr? then 1 else 0
    {
      hide StateOf, Decode, Starved;
      if inState.Header? {
        var more :- TakeHeader();
        if !more { return Ok(None); }
        r := TryBlock();
      } else if inState.DynHdr? {
        var more :- TakeDynHdr();
        if !more { return Ok(None); }
        r := TryBlock();
      } else {
        var raw := TakeBody();
        return Ok(raw);
      }
    }

    /** A fault drops the descriptors and the partial message; the stream is shut down. */
    method TryGetMsg() returns (r: Result<Option<Raw>, Fault>)
      requires Valid()
      modifies this`inState, this`inFds, this`remLoc, this`taken
      ensures r == Ok(None) ==> Valid() && Starved(inState) && remLoc == |remaining| && Pending() == old(Pending())
      ensures r.Ok? && r.value.Some? ==> Valid() && taken == [] && inState == Header([]) && Decode(old(Pending()), rules, withFd).Done?
      ensures r.Ok? && r.value.Some? ==>
        var p := Decode(old(Pending()), rules, withFd); p.value == r.value.value && Pending() == old(Pending())[p.len..]
      ensures r.Err? ==> Decode(old(Pending()), rules, withFd) == Bad(r.error)
      ensures r.Err? ==> inState == Header([]) && inFds == []
      ensures r.Ok? ==> inFds == old(inFds)
    {
      hide StateOf, Decode, Starved;
      r := TryBlock();
      if r.Err? {
        inFds := [];
        inState := Header([]);
      }
    }

    /** Checks and returns a complete message. */
    method Deliver(raw: Raw, fds: seq<int>, ghost whole: seq<byte>) returns (r: Result<Delivered, RecvError>)
      requires Valid() && taken == [] && Frames(done, rules, withFd) == Framed(out, [], None)
      requires Decode(whole, rules, withFd).Done? && Decode(whole, rules, withFd).value == raw
      requires Pending() == whole[Decode(whole, rules, withFd).len..]
      modifies this`done, this`out
      ensures r == if BodyOk(raw, rules) then Ok(Delivered(raw, SigOf(raw.head.dyn), fds)) else Err(Protocol(BadBody))
      ensures r.Ok? ==> AtRest() && out == old(out) + [raw] && Received() == old(done) + whole
      ensures r.Err? ==> out == old(out) && done == old(done)
    {
      hide StateOf, Decode, BodyOk;
      if !BodyOk(raw, rules) {
        return Err(Protocol(BadBody));
      }
      ghost var n := Decode(whole, rules, withFd).len;
      FramesNext(done, out, whole, rules, withFd);
      assert done + whole[..n] + Pending() == done + whole by {
        assert whole == whole[..n] + whole[n..];
      }
      done, out := done + whole[..n], out + [raw];
      EmptyDecode(rules, withFd);
      return Ok(Delivered(raw, SigOf(raw.head.dyn), fds));
    }

    /**
     One receive: the bytes go to the buffer of the current state, and what does not fit there to `remaining`,
     which is offered as a second buffer only when no descriptors can come.
     */
    method Fill(stream: InStream) returns (failure: Option<RecvError>, got: seq<byte>)
      requires Valid() && Starved(inState) && remLoc == |remaining|
      modifies this`inState, this`inFds, this`remaining, this`remLoc, this`taken, stream`unread, stream`at, stream`schedule
      ensures old(stream.unread) == got + stream.unread && stream.at == old(stream.at) + |got|
      ensures failure.None? && Goes(old(stream.unread), old(stream.schedule)) ==> Goes(stream.unread, stream.schedule)
      ensures failure == Some(BrokenPipe) <==> HangsUp(old(stream.unread), old(stream.schedule), stream.closed)
      ensures failure == Some(Blocked) <==> Idle(old(stream.schedule)) || (old(stream.unread) == [] && !stream.closed)
      ensures stream.schedule == Later(old(stream.schedule))
      ensures withFd && failure != Some(TooManyFds) ==> inFds == old(inFds) + FdsIn(stream.marks, old(stream.at), stream.at)
      ensures failure == Some(TooManyFds) ==> Fresh() && |old(inFds) + FdsIn(stream.marks, old(stream.at), stream.at)| > MAX_FDS
      ensures withFd ==> NotBeyond(old(taken) + got, rules, withFd)
      ensures failure.None? ==> Valid() && Pending() == old(taken) + got && |stream.schedule| < old(|stream.schedule|)
      ensures failure.Some? ==> NoInput(failure.value) || (failure.value == TooManyFds && withFd)
      ensures failure.Some? && failure.value != TooManyFds ==>
        got == [] && Valid() && Decode(taken, rules, withFd) == More && taken == old(taken) && remaining == []
      ensures withFd ==> remaining == []
    {
      hide StateOf, Decode, Starved, NotBeyond, Goes, FdsIn, Idle;
      if Goes(stream.unread, stream.schedule) { GoesOn(stream.unread, stream.schedule); }
      StarvedNeedsMore(inState, taken, rules, withFd);
      StateNotBeyond(inState, taken, rules, withFd);
      remaining, remLoc := [], 0;
      var needed := BytesNeeded(inState);
      var recv := stream.Recv(needed + if withFd then 0 else capacity);
      if !recv.Got? {
        assert taken + [] == taken;
        FdsInNone(stream.marks, stream.at, stream.at);
        return Some(if recv.HungUp? then BrokenPipe else Blocked), [];
      }
      got := recv.bytes;
      assert stream.unread == old(stream.unread)[|got|..];
      var tooMany := TakeIn(got, recv.fds);
      return if tooMany then Some(TooManyFds) else None, got;
    }

    /** Ready for a new message. */
    predicate Fresh()
      reads this
    {
      inState == Header([]) && inFds == []
    }

    /** Bytes that were read, and the descriptors that came with them. */
    method TakeIn(bytes: seq<byte>, fds: seq<int>) returns (tooMany: bool)
      requires Valid() && remaining == [] && remLoc == 0 && BytesNeeded(inState) > 0
      requires withFd ==> |bytes| <= BytesNeeded(inState)
      modifies this`inState, this`inFds, this`remaining, this`taken
      ensures tooMany ==> withFd && |old(inFds) + fds| > MAX_FDS && Fresh()
      ensures !tooMany ==> Valid() && Pending() == old(taken) + bytes && (withFd ==> inFds == old(inFds) + fds)
      ensures withFd ==> remaining == [] && NotBeyond(old(taken) + bytes, rules, withFd)
    {
      hide StateOf, Decode, NotBeyond;
      var needed := BytesNeeded(inState);
      var direct := if |bytes| > needed then needed else |bytes|;
      assert bytes == bytes[..direct] + bytes[direct..];
      assert direct == |bytes| ==> bytes[..direct] == bytes;
      TakeDirectly(inState, taken, bytes[..direct], rules, withFd);
      inState := WithBuf(inState, inState.buf + bytes[..direct]);
      taken := taken + bytes[..direct];
      remaining := bytes[direct..];
      StateNotBeyond(inState, taken, rules, withFd);
      if withFd {
        inFds := inFds + fds;
        if |inFds| > MAX_FDS {
          inState, inFds := Header([]), [];
          return true;
        }
      }
      return false;
    }

    lemma NothingRemains()
      requires AtRest() && withFd
      ensures Decode(Pending(), rules, withFd).More?
    {
      assert Pending() == taken;
    }

    /** The bytes start with this message, and its body is one of its signature. */
    ghost predicate IsMessage(raw: Raw, whole: seq<byte>) {
      var d, sig := Decode(whole, rules, withFd), SigOf(raw.head.dyn);
      && d.Done? && d.value == raw
      && ((sig == [] && raw.body == []) || rules.bodyOk(raw.head.fixed.bo, sig, raw.body))
    }

    lemma ValidBody(raw: Raw, whole: seq<byte>)
      requires Decode(whole, rules, withFd).Done? && Decode(whole, rules, withFd).value == raw && BodyOk(raw, rules)
      ensures IsMessage(raw, whole)
    {
    }

    /** A message that is already there in full. With descriptors there never is one: none can be lost here. */
    method FromRemaining(ghost whole: seq<byte>) returns (r: Option<Result<Delivered, RecvError>>)
      requires AtRest() && Pending() == whole
      modifies this`inState, this`inFds, this`remLoc, this`taken, this`done, this`out
      ensures r.None? ==> Valid() && Starved(inState) && remLoc == |remaining| && taken == whole && inFds == old(inFds)
      ensures withFd ==> r.None?
      ensures r.None? || r.value.Err? ==> out == old(out) && done == old(done)
      ensures r.Some? && r.value.Ok? ==> AtRest() && out == old(out) + [r.value.value.raw] && Received() == old(done) + whole
      ensures r.Some? && r.value.Ok? ==> WellFormed(r.value.value) && IsMessage(r.value.value.raw, whole) && !withFd
      ensures r.Some? ==> !Decode(whole, rules, withFd).More?
      ensures r.Some? && r.value.Err? ==> r.value.error.Protocol? && Fresh()
      ensures r.Some? && r.value.Err? ==>
        Frames(old(done) + whole, rules, withFd) == Framed(out, whole, Some(r.value.error.fault))
    {
      hide StateOf, Decode, Starved, Frames, BodyOk;
      if withFd { NothingRemains(); }
      var res := TryGetMsg();
      if res.Err? {
        FramesStop(done, out, whole, rules, withFd);
        return Some(Err(Protocol(res.error)));
      }
      if res.value.None? {
        return None;
      }
      assert !withFd;
      NoFdsUnlessNegotiated(whole, rules, withFd);
      var msg := Deliver(res.value.value, [], whole);
      if msg.Err? { FramesStop(done, out, whole, rules, withFd); } else { ValidBody(msg.value.raw, whole); }
      return Some(msg);
    }

    /** What follows a receive: nothing yet, a message, or the end of the stream. */
    method Advance(ghost whole: seq<byte>) returns (r: Option<Result<Delivered, RecvError>>)
      requires Valid() && Pending() == whole && Frames(done, rules, withFd) == Framed(out, [], None)
      modifies this`inState, this`inFds, this`remLoc, this`taken, this`done, this`out
      ensures r.None? ==> Valid() && Starved(inState) && remLoc == |remaining| && taken == whole
      ensures r.None? || r.value.Err? ==> out == old(out) && done == old(done)
      ensures r.Some? && r.value.Ok? ==> AtRest() && out == old(out) + [r.value.value.raw] && Received() == old(done) + whole
      ensures r.None? ==> inFds == old(inFds)
      ensures r.Some? && r.value.Ok? ==> WellFormed(r.value.value) && IsMessage(r.value.value.raw, whole)
      ensures r.Some? && r.value.Ok? ==> r.value.value.fds == old(inFds) && inFds == [] && taken == []
      ensures r.Some? ==> !Decode(whole, rules, withFd).More?
      ensures r.Some? && r.value.Err? ==> Fresh() && (r.value.error.Protocol? || (r.value.error.WrongFdCount? && withFd))
      ensures r == Some(Err(Protocol(BadBody))) && withFd && Decode(whole, rules, withFd).Done? ==>
        |old(inFds)| == FdCount(Decode(whole, rules, withFd).value)
      ensures r.Some? && r.value == Err(WrongFdCount) ==>
        Decode(whole, rules, withFd).Done? && |old(inFds)| != FdCount(Decode(whole, rules, withFd).value)
      ensures r.Some? && r.value.Err? && r.value.error.Protocol? ==>
        Frames(old(done) + whole, rules, withFd) == Framed(out, whole, Some(r.value.error.fault))
    {
      hide StateOf, Decode, Starved, Frames, BodyOk;
      var next := TryGetMsg();
      if next.Err? {
        FramesStop(done, out, whole, rules, withFd);
        return Some(Err(Protocol(next.error)));
      }
      if next.value.None? {
        return None;
      }
      var raw := next.value.value;
      NoFdsUnlessNegotiated(whole, rules, withFd);
      if |inFds| != FdCount(raw) {
        inFds := [];
        return Some(Err(WrongFdCount));
      }
      var fds := inFds;
      inFds := [];
      var msg := Deliver(raw, fds, whole);
      if msg.Err? { FramesStop(done, out, whole, rules, withFd); } else { ValidBody(msg.value.raw, whole); }
      return Some(msg);
    }

    /**
     How a call ends that has the bytes `whole` for the current message and `came` as its descriptors, after the
     messages `out0` made of `done0`.
     */
    ghost predicate Outcome(r: Result<Delivered, RecvError>, whole: seq<byte>, came: seq<int>, done0: seq<byte>, out0: seq<Raw>)
      reads this
    {
      match r
      case Ok(m) =>
        && AtRest() && out == out0 + [m.raw] && Received() == done0 + whole && WellFormed(m) && IsMessage(m.raw, whole)
        && (withFd ==> m.fds == came && inFds == [] && taken == [])
      case Err(e) =>
        && out == out0
        && (NoInput(e) ==>
              && AtRest() && Received() == done0 + whole
              && Frames(done0 + whole, rules, withFd) == Framed(out, whole, None)
              && (withFd ==> inFds == came))
        && (e.Protocol? ==>
              Frames(done0 + whole, rules, withFd) == Framed(out, whole, Some(e.fault)) && !Decode(whole, rules, withFd).More?)
        && (NoInput(e) || Fresh()) // an error other than these drops the message and its descriptors
        && (e == Protocol(BadBody) && withFd && Decode(whole, rules, withFd).Done? ==> // the descriptors are counted first
              |came| == FdCount(Decode(whole, rules, withFd).value))
        && (FdTrouble(e) ==> withFd)
        && (e.TooManyFds? ==> |came| > MAX_FDS)
        && (e.WrongFdCount? ==>
              Decode(whole, rules, withFd).Done? && |came| != FdCount(Decode(whole, rules, withFd).value))
    }

    lemma EarlyOutcome(r: Result<Delivered, RecvError>, whole: seq<byte>, came: seq<int>, done0: seq<byte>, out0: seq<Raw>)
      requires r.Ok? ==> AtRest() && out == out0 + [r.value.raw] && Received() == done0 + whole
      requires r.Ok? ==> WellFormed(r.value) && IsMessage(r.value.raw, whole) && !withFd
      requires r.Err? ==> r.error.Protocol? && Fresh() && !withFd && out == out0 && !Decode(whole, rules, withFd).More?
      requires r.Err? ==> Frames(done0 + whole, rules, withFd) == Framed(out, whole, Some(r.error.fault))
      ensures Outcome(r, whole, came, done0, out0)
    {
    }

    /** A call that gives anything but "no input" has seen what it gives, and more bytes do not change that. */
    lemma NotMore(r: Result<Delivered, RecvError>, whole: seq<byte>, came: seq<int>, done0: seq<byte>, out0: seq<Raw>, rest: seq<byte>)
      requires Outcome(r, whole, came, done0, out0)
      ensures Decode(whole + rest, rules, withFd).More? ==> r.Err? && (NoInput(r.error) || r.error.TooManyFds?)
    {
      hide Decode;
      if !Decode(whole, rules, withFd).More? { DecodeExtends(whole, rest, rules, withFd); }
    }

    /** One receive, and what follows it. */
    method ReadOnce(stream: InStream, ghost held: seq<int>) returns (r: Option<Result<Delivered, RecvError>>, got: seq<byte>)
      requires Valid() && Starved(inState) && remLoc == |remaining| && Frames(done, rules, withFd) == Framed(out, [], None)
      requires withFd ==> inFds == held
      modifies this, stream`unread, stream`at, stream`schedule
      ensures old(stream.unread) == got + stream.unread && stream.at == old(stream.at) + |got|
      ensures r.None? && Goes(old(stream.unread), old(stream.schedule)) ==> Goes(stream.unread, stream.schedule)
      ensures stream.schedule == Later(old(stream.schedule))
      ensures withFd ==> remaining == [] && NotBeyond(old(taken) + got, rules, withFd)
      ensures r.None? ==> Valid() && Starved(inState) && remLoc == |remaining| && taken == old(taken) + got
      ensures r.None? ==> out == old(out) && done == old(done) && |stream.schedule| < |old(stream.schedule)|
      ensures r.Some? && r.value.Err? && NoInput(r.value.error) ==> got == []
      ensures r == Some(Err(BrokenPipe)) <==> HangsUp(old(stream.unread), old(stream.schedule), stream.closed)
      ensures r == Some(Err(Blocked)) <==> Idle(old(stream.schedule)) || (old(stream.unread) == [] && !stream.closed)
      ensures r.None? && withFd ==> inFds == held + FdsIn(stream.marks, old(stream.at), stream.at)
      ensures r.Some? ==>
        Outcome(r.value, old(taken) + got, held + FdsIn(stream.marks, old(stream.at), stream.at), old(done), old(out))
    {
      hide StateOf, Decode, Starved, Frames, BodyOk, NotBeyond, FdsIn, Goes, Idle, HangsUp, RecvState.IsMessage;
      ghost var before := taken;
      var failure;
      failure, got := Fill(stream);
      ghost var whole := before + got;
      if failure.Some? {
        if failure.value != TooManyFds {
          assert whole == taken && Pending() == taken;
          FramesStop(done, out, taken, rules, withFd);
        }
        return Some(Err(failure.value)), got;
      }
      r := Advance(whole);
    }

    /** The loop of `get_next_message`. */
    method ReadOn(stream: InStream) returns (r: Result<Delivered, RecvError>, ghost got: seq<byte>, ghost came: seq<int>)
      requires Valid() && Starved(inState) && remLoc == |remaining| && Frames(done, rules, withFd) == Framed(out, [], None)
      requires withFd ==> NotBeyond(taken, rules, withFd)
      modifies this, stream`unread, stream`at, stream`schedule
      ensures old(stream.unread) == got + stream.unread && stream.at == old(stream.at) + |got|
      ensures Outcome(r, old(taken) + got, came, old(done), old(out))
      ensures SocketSays(r, old(stream.unread), old(stream.schedule), stream.unread, stream.schedule, stream.closed)
      ensures Ascending(stream.marks) ==> came == old(inFds) + FdsIn(stream.marks, old(stream.at), stream.at)
      ensures withFd ==> remaining == [] && NotBeyond(old(taken) + got, rules, withFd)
    {
      hide StateOf, Decode, Starved, Frames, BodyOk, NotBeyond, FdsIn, Goes, Idle, HangsUp, Later, Cut, SocketSays, RecvState.Outcome;
      ghost var before, held := taken, inFds;
      ghost var unread0, schedule0 := stream.unread, stream.schedule;
      got, came := [], inFds;
      FdsInNone(stream.marks, stream.at, stream.at);
      assert before + got == before && held + [] == held;
      CutAll(stream.schedule);
      while true
        invariant Valid() && Starved(inState) && remLoc == |remaining|
        invariant out == old(out) && done == old(done) && Frames(done, rules, withFd) == Framed(out, [], None)
        invariant taken == before + got && unread0 == got + stream.unread && stream.at == old(stream.at) + |got|
        invariant Goes(unread0, schedule0) ==> Goes(stream.unread, stream.schedule)
        invariant Cut(schedule0, stream.schedule)
        invariant withFd ==> inFds == came && NotBeyond(before + got, rules, withFd)
        invariant Ascending(stream.marks) ==> came == held + FdsIn(stream.marks, old(stream.at), stream.at)
        decreases |stream.schedule|
      {
        ghost var mid, unread, schedule := stream.at, stream.unread, stream.schedule;
        CutLater(schedule0, schedule);
        var r', chunk := ReadOnce(stream, came);
        if Ascending(stream.marks) {
          FdsInSplit(stream.marks, old(stream.at), mid, stream.at);
          assert came + FdsIn(stream.marks, mid, stream.at) == held + FdsIn(stream.marks, old(stream.at), stream.at);
        }
        came := came + FdsIn(stream.marks, mid, stream.at);
        assert before + (got + chunk) == before + got + chunk;
        got := got + chunk;
        if r'.Some? {
          Says(r'.value, unread0, schedule0, unread, schedule, stream.unread, stream.schedule, stream.closed);
          return r'.value, got, came;
        }
      }
    }

    /**
     `get_next_message`. Whatever the schedule of reads, what is returned agrees with the one-shot framing of
     all bytes received; `got` are the bytes read by this call.
     */
    method GetNextMessage(stream: InStream) returns (r: Result<Delivered, RecvError>, ghost got: seq<byte>, ghost came: seq<int>)
      requires AtRest()
      modifies this, stream`unread, stream`at, stream`schedule
      ensures old(stream.unread) == got + stream.unread && stream.at == old(stream.at) + |got|
      ensures Outcome(r, old(Pending()) + got, came, old(done), old(out))
      ensures SocketSays(r, old(stream.unread), old(stream.schedule), stream.unread, stream.schedule, stream.closed)
      // where there is no message, a socket that goes along tells the end of the stream from a pause
      ensures Goes(old(stream.unread), old(stream.schedule)) && Decode(old(Pending()) + old(stream.unread), rules, withFd).More? ==>
        r == Err(TooManyFds) || r == Err(if stream.closed then BrokenPipe else Blocked)
      ensures Ascending(stream.marks) ==> came == old(inFds) + FdsIn(stream.marks, old(stream.at), stream.at)
      ensures withFd ==> remaining == [] && NotBeyond(old(Pending()) + got, rules, withFd) // nothing beyond the message was read
    {
      hide StateOf, Decode, Starved, Frames, BodyOk, NotBeyond, FdsIn, Goes, RecvState.IsMessage, RecvState.Outcome, Stalled;
      ghost var before, unread := Pending(), stream.unread;
      got, came := [], inFds;
      FdsInNone(stream.marks, stream.at, stream.at);
      assert before + got == before && inFds + [] == inFds;
      var early := FromRemaining(before);
      if early.Some? {
        EarlyOutcome(early.value, before, came, old(done), old(out));
        NotMore(early.value, before, came, old(done), old(out), stream.unread);
        return early.value, got, came;
      }
      StateNotBeyond(inState, taken, rules, withFd);
      r, got, came := ReadOn(stream);
      assert before + unread == (before + got) + stream.unread;
      NotMore(r, before + got, came, old(done), old(out), stream.unread);
    }
  }
}
