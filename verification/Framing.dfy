/** One-shot parsing of a byte stream: what the incremental receiver has to agree with. */
module Framing {
  import opened Utils
  import opened HeaderCodec

  datatype Head = Head(fixed: FixedHeader, dyn: DynamicHeader)

  /** A framed message: both headers and the body bytes. */
  datatype Raw = Raw(head: Head, body: seq<byte>)

  datatype Fault =
    | BadFixedHeader(fixed: FixedError)
    | BadFields(fields: ParseError)
    | ZeroSerial
    | DataInPadding
    | FdsNotNegotiated
    | BadBody

  /** Bytes so far: not enough for one `T`, one `T` in the first `len` of them, or no `T` at all. */
  datatype Progress<+T> = More | Done(value: T, len: nat) | Bad(fault: Fault)

  /** Length of both header parts, padding included. */
  function HeadLen(b: seq<byte>, bo: ByteOrder): (n: nat)
    requires |b| >= HEADER_LEN + 4
    ensures n >= HEADER_LEN + 4
  {
    AlignNum(HEADER_LEN + 4 + ParseU32(b[HEADER_LEN..HEADER_LEN + 4], bo), 8)
  }

  /** The header fields of a complete header. */
  function CheckHead(b: seq<byte>, fixed: FixedHeader, rules: Rules, withFd: bool): Result<DynamicHeader, Fault>
    requires |b| >= HEADER_LEN
  {
    match ParseHeader(b, HEADER_LEN, fixed.bo, rules)
    case Err(e) => Err(BadFields(e))
    case Ok((end, dyn)) =>
      if fixed.serial == 0 then Err(ZeroSerial)
      else if AlignOffset(8, b, end).Err? then Err(DataInPadding)
      else if dyn.numFds.Some? && dyn.numFds.value > 0 && !withFd then Err(FdsNotNegotiated)
      else Ok(dyn.(serial := Some(fixed.serial)))
  }

  function DecodeHead(b: seq<byte>, rules: Rules, withFd: bool): (p: Progress<Head>)
    ensures p.Done? ==> HEADER_LEN + 4 <= p.len <= |b|
  {
    if |b| < HEADER_LEN then More else
    match ParseFixed(b)
    case Err(e) => Bad(BadFixedHeader(e))
    case Ok(fixed) =>
      if |b| < HEADER_LEN + 4 || |b| < HeadLen(b, fixed.bo) then More else
      var len := HeadLen(b, fixed.bo);
      match CheckHead(b[..len], fixed, rules, withFd)
      case Err(e) => Bad(e)
      case Ok(dyn) => Done(Head(fixed, dyn), len)
  }

  function Decode(b: seq<byte>, rules: Rules, withFd: bool): (p: Progress<Raw>)
    ensures p.Done? ==> HEADER_LEN + 4 <= p.len <= |b|
  {
    match DecodeHead(b, rules, withFd)
    case More => More
    case Bad(e) => Bad(e)
    case Done(head, n) =>
      var end := n + head.fixed.bodyLen;
      if |b| < end then More else Done(Raw(head, b[n..end]), end)
  }

  function SigOf(dyn: DynamicHeader): Text {
    if dyn.signature.Some? then dyn.signature.value else []
  }

  /** `MarshalledMessageBody::validate`. */
  predicate BodyOk(raw: Raw, rules: Rules) {
    var sig := SigOf(raw.head.dyn);
    (sig == [] && raw.body == []) || rules.bodyOk(raw.head.fixed.bo, sig, raw.body)
  }

  /** A stream cut into messages, the bytes left over, and the fault that ended it, if any. */
  datatype Framed = Framed(msgs: seq<Raw>, rest: seq<byte>, fault: Option<Fault>)

  function Frames(b: seq<byte>, rules: Rules, withFd: bool): Framed
    decreases |b|
  {
    match Decode(b, rules, withFd)
    case More => Framed([], b, None)
    case Bad(e) => Framed([], b, Some(e))
    case Done(raw, n) =>
      if !BodyOk(raw, rules) then Framed([], b, Some(BadBody)) else
      var tail := Frames(b[n..], rules, withFd);
      Framed([raw] + tail.msgs, tail.rest, tail.fault)
  }

  // ----- What follows a message does not change how it is read -----

  lemma FixedExtends(b: seq<byte>, x: seq<byte>)
    requires |b| >= HEADER_LEN
    ensures ParseFixed(b + x) == ParseFixed(b)
  {
    hide ParseU32;
    assert (b + x)[4..8] == b[4..8] && (b + x)[8..12] == b[8..12];
  }

  lemma HeadLenExtends(b: seq<byte>, x: seq<byte>, bo: ByteOrder)
    requires |b| >= HEADER_LEN + 4
    ensures HeadLen(b + x, bo) == HeadLen(b, bo)
  {
    hide ParseU32, AlignNum;
    assert (b + x)[HEADER_LEN..HEADER_LEN + 4] == b[HEADER_LEN..HEADER_LEN + 4];
  }

  lemma DecodeHeadExtends(b: seq<byte>, x: seq<byte>, rules: Rules, withFd: bool)
    requires !DecodeHead(b, rules, withFd).More?
    ensures DecodeHead(b + x, rules, withFd) == DecodeHead(b, rules, withFd)
  {
    hide ParseFixed, HeadLen, CheckHead;
    FixedExtends(b, x);
    if ParseFixed(b).Ok? {
      var bo := ParseFixed(b).value.bo;
      HeadLenExtends(b, x, bo);
      assert (b + x)[..HeadLen(b, bo)] == b[..HeadLen(b, bo)];
    }
  }

  lemma DecodeExtends(b: seq<byte>, x: seq<byte>, rules: Rules, withFd: bool)
    requires !Decode(b, rules, withFd).More?
    ensures Decode(b + x, rules, withFd) == Decode(b, rules, withFd)
  {
    hide DecodeHead;
    DecodeHeadExtends(b, x, rules, withFd);
    if Decode(b, rules, withFd).Done? {
      var n, end := DecodeHead(b, rules, withFd).len, Decode(b, rules, withFd).len;
      assert (b + x)[n..end] == b[n..end];
    }
  }

  /** A message is read from exactly its own bytes. */
  lemma DecodeExact(b: seq<byte>, rules: Rules, withFd: bool)
    requires Decode(b, rules, withFd).Done?
    ensures Decode(b[..Decode(b, rules, withFd).len], rules, withFd) == Decode(b, rules, withFd)
  {
    hide DecodeHead;
    var n := Decode(b, rules, withFd).len;
    var own := b[..n];
    DecodeHeadExact(b, n, rules, withFd);
    var len := DecodeHead(b, rules, withFd).len;
    assert own[len..n] == b[len..n];
  }

  lemma DecodeHeadExact(b: seq<byte>, n: nat, rules: Rules, withFd: bool)
    requires DecodeHead(b, rules, withFd).Done? && DecodeHead(b, rules, withFd).len <= n <= |b|
    ensures DecodeHead(b[..n], rules, withFd) == DecodeHead(b, rules, withFd)
  {
    hide ParseFixed, HeadLen, CheckHead;
    var own := b[..n];
    assert own + b[n..] == b;
    FixedExtends(own, b[n..]);
    var fixed := ParseFixed(b).value;
    HeadLenExtends(own, b[n..], fixed.bo);
    assert own[..HeadLen(b, fixed.bo)] == b[..HeadLen(b, fixed.bo)];
  }

  /** Framing goes through concatenation once the first part is cut up without remainder. */
  lemma {:induction false} FramesAppend(b: seq<byte>, x: seq<byte>, rules: Rules, withFd: bool)
    requires Frames(b, rules, withFd).rest == [] && Frames(b, rules, withFd).fault == None
    ensures var f := Frames(x, rules, withFd);
      Frames(b + x, rules, withFd) == Framed(Frames(b, rules, withFd).msgs + f.msgs, f.rest, f.fault)
    decreases |b|
  {
    hide Decode, BodyOk, Frames;
    FramesUnfold(b, rules, withFd);
    if b == [] {
      EmptyDecode(rules, withFd);
      assert b + x == x;
    } else {
      var n := Decode(b, rules, withFd).len;
      DecodeExtends(b, x, rules, withFd);
      FramesUnfold(b + x, rules, withFd);
      assert (b + x)[n..] == b[n..] + x;
      FramesAppend(b[n..], x, rules, withFd);
    }
  }

  lemma FramesUnfold(b: seq<byte>, rules: Rules, withFd: bool)
    ensures var d := Decode(b, rules, withFd);
      if d.Done? && BodyOk(d.value, rules) then
        var tail := Frames(b[d.len..], rules, withFd);
        Frames(b, rules, withFd) == Framed([d.value] + tail.msgs, tail.rest, tail.fault)
      else
        Frames(b, rules, withFd) == Framed([], b, if d.More? then None else if d.Bad? then Some(d.fault) else Some(BadBody))
  {
    hide Decode, BodyOk;
  }

  lemma EmptyDecode(rules: Rules, withFd: bool)
    ensures Decode([], rules, withFd) == More
  {
  }

  /** A whole message framed alone. */
  lemma FramesOne(b: seq<byte>, raw: Raw, rules: Rules, withFd: bool)
    requires Decode(b, rules, withFd) == Done(raw, |b|) && BodyOk(raw, rules)
    ensures Frames(b, rules, withFd) == Framed([raw], [], None)
  {
    hide Decode, BodyOk;
    EmptyDecode(rules, withFd);
    assert b[|b|..] == [];
    assert Frames([], rules, withFd) == Framed([], [], None);
  }

  /** Bytes cut up so far, and the next message behind them. */
  lemma FramesNext(done: seq<byte>, msgs: seq<Raw>, p: seq<byte>, rules: Rules, withFd: bool)
    requires Frames(done, rules, withFd) == Framed(msgs, [], None)
    requires Decode(p, rules, withFd).Done? && BodyOk(Decode(p, rules, withFd).value, rules)
    ensures var n := Decode(p, rules, withFd).len;
      Frames(done + p[..n], rules, withFd) == Framed(msgs + [Decode(p, rules, withFd).value], [], None)
  {
    hide Decode, BodyOk, Frames;
    var n := Decode(p, rules, withFd).len;
    DecodeExact(p, rules, withFd);
    FramesOne(p[..n], Decode(p, rules, withFd).value, rules, withFd);
    FramesAppend(done, p[..n], rules, withFd);
  }

  /** Bytes cut up so far, and bytes behind them that are not an acceptable message. */
  lemma FramesStop(done: seq<byte>, msgs: seq<Raw>, p: seq<byte>, rules: Rules, withFd: bool)
    requires Frames(done, rules, withFd) == Framed(msgs, [], None)
    requires var d := Decode(p, rules, withFd); d.Done? ==> !BodyOk(d.value, rules)
    ensures Frames(done + p, rules, withFd) ==
      match Decode(p, rules, withFd)
      case More => Framed(msgs, p, None)
      case Bad(e) => Framed(msgs, p, Some(e))
      case Done(_, _) => Framed(msgs, p, Some(BadBody))
  {
    hide Decode, BodyOk;
    FramesAppend(done, p, rules, withFd);
  }

  /** The number of descriptors a message says it comes with. */
  function FdCount(raw: Raw): nat {
    if raw.head.dyn.numFds.Some? then raw.head.dyn.numFds.value else 0
  }

  lemma NoFdsUnlessNegotiated(b: seq<byte>, rules: Rules, withFd: bool)
    requires Decode(b, rules, withFd).Done?
    ensures !withFd ==> FdCount(Decode(b, rules, withFd).value) == 0
  {
    hide ParseHeader, ParseFixed, HeadLen;
  }
}
