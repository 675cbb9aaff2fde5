/**
 The message header: printing (`MarshalledMessage::marshal_header`) and parsing
 (`DynamicHeader::unmarshal`), src/rustbus_core/message_builder/mod.rs.

 The encoding of single values is that of the D-Bus Specification, sections "Marshaling (Wire Format)"
 and "Message Format".
 */
module HeaderCodec {
  import opened Utils

  type Text = seq<byte>

  datatype MessageType = Invalid | Call | Reply | Error | Signal

  datatype DynamicHeader = DynamicHeader(
    interface: Option<Text>,
    member: Option<Text>,
    objectPath: Option<Text>,
    destination: Option<Text>,
    serial: Option<Serial>,
    sender: Option<Text>,
    signature: Option<Text>,
    errorName: Option<Text>,
    responseSerial: Option<Serial>,
    numFds: Option<u32>)

  /** A message about to be sent: header fields, marshalled body, its signature and its file descriptors. */
  datatype Message = Message(
    typ: MessageType,
    flags: byte,
    bo: ByteOrder,
    dyn: DynamicHeader,
    body: seq<byte>,
    sig: Text,
    fds: seq<int>)

  /** The validators of the `rustbus` crate, which are not part of this model: any predicates will do. */
  datatype Rules = Rules(
    pathOk: Text -> bool,
    interfaceOk: Text -> bool,
    memberOk: Text -> bool,
    errorNameOk: Text -> bool,
    busNameOk: Text -> bool,
    signatureOk: Text -> bool,
    textOk: Text -> bool,
    bodyOk: (ByteOrder, Text, seq<byte>) -> bool)

  /** Names are strings the string reader accepts, and a signature's length fits one byte. */
  ghost predicate Coherent(rules: Rules) {
    && (forall x :: rules.pathOk(x) ==> rules.textOk(x))
    && (forall x :: rules.interfaceOk(x) ==> rules.textOk(x))
    && (forall x :: rules.memberOk(x) ==> rules.textOk(x))
    && (forall x :: rules.errorNameOk(x) ==> rules.textOk(x))
    && (forall x :: rules.busNameOk(x) ==> rules.textOk(x))
    && (forall x :: rules.signatureOk(x) ==> rules.textOk(x) && |x| <= 255)
  }

  /** The variants a header field can hold. */
  datatype HdrVar = Path(path: Text) | Str(str: Text) | Num(num: u32) | Sig(sig: Text)

  const HEADER_LEN := 12
  const CODES := 10

  function Zeros(n: nat): (z: seq<byte>)
    ensures |z| == n && forall k :: 0 <= k < n ==> z[k] == 0
  {
    seq(n, _ => 0)
  }

  function Padding(len: nat, alignment: nat): (z: seq<byte>)
    requires alignment > 0
    ensures len + |z| == AlignNum(len, alignment)
    ensures forall k :: 0 <= k < |z| ==> z[k] == 0
  {
    Zeros(AlignNum(len, alignment) - len)
  }

  // ----- Printing -----

  const LITTLE: byte := 'l' as int
  const BIG: byte := 'B' as int

  function TypeByte(t: MessageType): byte {
    match t
    case Invalid => 0
    case Call => 1
    case Reply => 2
    case Error => 3
    case Signal => 4
  }

  function FixedBytes(m: Message, serial: Serial): (b: seq<byte>)
    ensures |b| == HEADER_LEN
  {
    [if m.bo.LittleEndian? then LITTLE else BIG, TypeByte(m.typ), m.flags, 1]
    + EncodeU32(|m.body| % U32_LIMIT, m.bo)
    + EncodeU32(serial, m.bo)
  }

  function TypeCode(v: HdrVar): byte {
    match v
    case Path(_) => 'o' as int
    case Str(_) => 's' as int
    case Num(_) => 'u' as int
    case Sig(_) => 'g' as int
  }

  function ValueBytes(v: HdrVar, bo: ByteOrder): seq<byte> {
    match v
    case Path(s) => EncodeU32(|s| % U32_LIMIT, bo) + s + [0]
    case Str(s) => EncodeU32(|s| % U32_LIMIT, bo) + s + [0]
    case Num(n) => EncodeU32(n, bo)
    case Sig(s) => [|s| % 0x100] + s + [0]
  }

  /** A `(code, variant)` structure placed at a multiple of eight, so that its value is aligned as well. */
  function FieldBytes(code: byte, v: HdrVar, bo: ByteOrder): seq<byte> {
    [code, 1, TypeCode(v), 0] + ValueBytes(v, bo)
  }

  function AsPath(s: Option<Text>): Option<HdrVar> {
    if s.Some? then Some(Path(s.value)) else None
  }

  function AsSerial(n: Option<Serial>): Option<HdrVar> {
    if n.Some? then Some(Num(n.value)) else None
  }

  function AsCount(n: u32): Option<HdrVar> {
    if n != 0 then Some(Num(n)) else None
  }

  function AsText(s: Option<Text>): Option<HdrVar> {
    if s.Some? then Some(Str(s.value)) else None
  }

  /** The variant each header field code carries, if the field is present. */
  function FieldTable(m: Message): (t: seq<Option<HdrVar>>)
    ensures |t| == CODES && t[0] == None
  {
    [ None,
      AsPath(m.dyn.objectPath),
      AsText(m.dyn.interface),
      AsText(m.dyn.member),
      AsText(m.dyn.errorName),
      AsSerial(m.dyn.responseSerial),
      AsText(m.dyn.destination),
      AsText(m.dyn.sender),
      if m.body != [] then Some(Sig(m.sig)) else None,
      AsCount(|m.fds| % U32_LIMIT) ]
  }

  /** The bytes of the fields with a code below `i`; the array starts at a multiple of eight. */
  function FieldArray(t: seq<Option<HdrVar>>, i: nat, bo: ByteOrder): (b: seq<byte>)
    requires |t| == CODES && i <= CODES
  {
    if i == 0 then [] else
    var before := FieldArray(t, i - 1, bo);
    match t[i - 1]
    case None => before
    case Some(v) => before + Padding(|before|, 8) + FieldBytes(i - 1, v, bo)
  }

  function ArrayBytes(m: Message): seq<byte> {
    FieldArray(FieldTable(m), CODES, m.bo)
  }

  /** The whole header as it travels. */
  function EncodeHeader(m: Message, serial: Serial): seq<byte> {
    var fields := ArrayBytes(m);
    FixedBytes(m, serial) + EncodeU32(|fields| % U32_LIMIT, m.bo) + fields + Padding(HEADER_LEN + 4 + |fields|, 8)
  }

  datatype MarshalError = BadObjectPath | BadInterface | BadMember | BadErrorName | BadBusName

  predicate Allows(ok: Text -> bool, s: Option<Text>) {
    s.Some? ==> ok(s.value)
  }

  /** The first field, in code order, that its validator refuses. */
  function FirstFault(h: DynamicHeader, rules: Rules): Option<MarshalError> {
    if !Allows(rules.pathOk, h.objectPath) then Some(BadObjectPath)
    else if !Allows(rules.interfaceOk, h.interface) then Some(BadInterface)
    else if !Allows(rules.memberOk, h.member) then Some(BadMember)
    else if !Allows(rules.errorNameOk, h.errorName) then Some(BadErrorName)
    else if !Allows(rules.busNameOk, h.destination) then Some(BadBusName)
    else if !Allows(rules.busNameOk, h.sender) then Some(BadBusName)
    else None
  }

  /** The growing byte vector that the marshalling context writes to. */
  class ByteBuf {
    var data: seq<byte>

    constructor ()
      ensures data == []
    {
      data := [];
    }

    method Append(bytes: seq<byte>)
      modifies this
      ensures data == old(data) + bytes
    {
      data := data + bytes;
    }

    method AlignTo(alignment: nat)
      requires alignment > 0
      modifies this
      ensures data == old(data) + Padding(|old(data)|, alignment)
    {
      data := data + Padding(|data|, alignment);
    }

    /** `insert_u32`: overwrites four bytes in place. */
    method PatchU32(at: nat, n: u32, bo: ByteOrder)
      requires at + 4 <= |data|
      modifies this
      ensures data == old(data)[..at] + EncodeU32(n, bo) + old(data)[at + 4..]
    {
      data := data[..at] + EncodeU32(n, bo) + data[at + 4..];
    }
  }

  lemma AlignShift(n: nat)
    ensures AlignNum(HEADER_LEN + 4 + n, 8) == HEADER_LEN + 4 + AlignNum(n, 8)
  {
    assert (HEADER_LEN + 4 + n) % 8 == n % 8;
  }

  lemma FieldAppended(start: seq<byte>, t: seq<Option<HdrVar>>, code: byte, v: HdrVar, bo: ByteOrder)
    requires |t| == CODES && code < CODES && t[code] == Some(v)
    requires |start| == HEADER_LEN + 4
    ensures var prev := start + FieldArray(t, code, bo);
      start + FieldArray(t, code + 1, bo) == prev + Padding(|prev|, 8) + FieldBytes(code, v, bo)
  {
    var before := FieldArray(t, code, bo);
    AlignShift(|before|);
    var pad, field := Padding(|before|, 8), FieldBytes(code, v, bo);
    assert FieldArray(t, code + 1, bo) == before + pad + field;
    assert start + (before + pad + field) == start + before + pad + field;
  }

  /** One `if let Some(..)` of the source: appends the field if it is there. */
  method PutField(buf: ByteBuf, code: byte, v: Option<HdrVar>, bo: ByteOrder, ghost t: seq<Option<HdrVar>>, ghost start: seq<byte>)
    requires |t| == CODES && code < CODES && t[code] == v
    requires |start| == HEADER_LEN + 4 && buf.data == start + FieldArray(t, code, bo)
    modifies buf
    ensures buf.data == start + FieldArray(t, code + 1, bo)
  {
    if v.Some? {
      buf.AlignTo(8);
      buf.Append(FieldBytes(code, v.value, bo));
      FieldAppended(start, t, code, v.value, bo);
    }
  }

  /** The header fields, each validated before it is appended. */
  method MarshalFields(m: Message, buf: ByteBuf, rules: Rules) returns (fault: Option<MarshalError>)
    requires |buf.data| == HEADER_LEN + 4
    modifies buf
    ensures fault == FirstFault(m.dyn, rules)
    ensures fault.None? ==> buf.data == old(buf.data) + ArrayBytes(m)
  {
    hide FieldArray, AsPath, AsText, AsSerial, AsCount, Allows;
    var bo := m.bo;
    ghost var start, t := buf.data, FieldTable(m);
    FieldArrayStart(t, bo);
    FieldAbsent(t, 0, bo);
    if !Allows(rules.pathOk, m.dyn.objectPath) { return Some(BadObjectPath); }
    PutField(buf, 1, AsPath(m.dyn.objectPath), bo, t, start);
    if !Allows(rules.interfaceOk, m.dyn.interface) { return Some(BadInterface); }
    PutField(buf, 2, AsText(m.dyn.interface), bo, t, start);
    if !Allows(rules.memberOk, m.dyn.member) { return Some(BadMember); }
    PutField(buf, 3, AsText(m.dyn.member), bo, t, start);
    if !Allows(rules.errorNameOk, m.dyn.errorName) { return Some(BadErrorName); }
    PutField(buf, 4, AsText(m.dyn.errorName), bo, t, start);
    PutField(buf, 5, AsSerial(m.dyn.responseSerial), bo, t, start);
    if !Allows(rules.busNameOk, m.dyn.destination) { return Some(BadBusName); }
    PutField(buf, 6, AsText(m.dyn.destination), bo, t, start);
    if !Allows(rules.busNameOk, m.dyn.sender) { return Some(BadBusName); }
    PutField(buf, 7, AsText(m.dyn.sender), bo, t, start);
    PutField(buf, 8, if m.body != [] then Some(Sig(m.sig)) else None, bo, t, start);
    PutField(buf, 9, AsCount(|m.fds| % U32_LIMIT), bo, t, start);
    return None;
  }

  /**
   Writes the header into the buffer: the array length is first written as zero and patched once the
   fields are there.
   */
  method MarshalHeader(m: Message, serial: Serial, buf: ByteBuf, rules: Rules) returns (fault: Option<MarshalError>)
    modifies buf
    ensures fault == FirstFault(m.dyn, rules)
    ensures fault.None? ==> buf.data == EncodeHeader(m, serial)
  {
    buf.data := [];
    buf.Append(FixedBytes(m, serial));
    buf.Append(EncodeU32(0, m.bo));
    fault := MarshalFields(m, buf, rules);
    if fault.None? {
      ghost var fields := ArrayBytes(m);
      var len := |buf.data| - (HEADER_LEN + 4);
      buf.PatchU32(HEADER_LEN, len % U32_LIMIT, m.bo);
      assert buf.data == FixedBytes(m, serial) + EncodeU32(|fields| % U32_LIMIT, m.bo) + fields;
      buf.AlignTo(8);
    }
  }

  // ----- Parsing -----

  datatype ParseError =
    | NotEnoughBytes
    | NotEnoughBytesForCollection
    | PaddingContainedData
    | BadText
    | BadSignature
    | InvalidHeaderField
    | UnknownVariant
    | FieldCodePanic // the source indexes a ten-element array with the field code

  /** A parsed value and the offset behind it. */
  type Parsed<+T> = Result<(nat, T), ParseError>

  predicate AllZero(b: seq<byte>) {
    forall k :: 0 <= k < |b| ==> b[k] == 0
  }

  function AlignOffset(alignment: nat, buf: seq<byte>, off: nat): (r: Result<nat, ParseError>)
    requires alignment > 0 && off <= |buf|
    ensures r.Ok? ==> off <= r.value <= |buf|
  {
    var next := AlignNum(off, alignment);
    if next > |buf| then Err(NotEnoughBytes)
    else if AllZero(buf[off..next]) then Ok(next)
    else Err(PaddingContainedData)
  }

  function ReadU32(buf: seq<byte>, off: nat, bo: ByteOrder): (r: Parsed<u32>)
    requires off <= |buf|
    ensures r.Ok? ==> off < r.value.0 <= |buf|
  {
    var at :- AlignOffset(4, buf, off);
    if at + 4 > |buf| then Err(NotEnoughBytes) else Ok((at + 4, ParseU32(buf[at..at + 4], bo)))
  }

  /** `n` bytes and the NUL behind them. */
  function ReadTerminated(buf: seq<byte>, off: nat, n: nat, rules: Rules): (r: Parsed<Text>)
    requires off <= |buf|
    ensures r.Ok? ==> off < r.value.0 <= |buf|
  {
    if off + n + 1 > |buf| then Err(NotEnoughBytes)
    else if buf[off + n] != 0 || !rules.textOk(buf[off..off + n]) then Err(BadText)
    else Ok((off + n + 1, buf[off..off + n]))
  }

  function ReadText(buf: seq<byte>, off: nat, bo: ByteOrder, rules: Rules): (r: Parsed<Text>)
    requires off <= |buf|
    ensures r.Ok? ==> off < r.value.0 <= |buf|
  {
    var (at, n) :- ReadU32(buf, off, bo);
    ReadTerminated(buf, at, n, rules)
  }

  function ReadSig(buf: seq<byte>, off: nat, rules: Rules): (r: Parsed<Text>)
    requires off <= |buf|
    ensures r.Ok? ==> off < r.value.0 <= |buf|
  {
    if off == |buf| then Err(NotEnoughBytes) else ReadTerminated(buf, off + 1, buf[off], rules)
  }

  /** A value of the type that the variant's signature announces. */
  function ReadValue(typ: byte, buf: seq<byte>, off: nat, bo: ByteOrder, rules: Rules): (r: Parsed<HdrVar>)
    requires off <= |buf|
    ensures r.Ok? ==> off < r.value.0 <= |buf|
  {
    if typ == 'o' as int then
      var (end, s) :- ReadText(buf, off, bo, rules);
      if rules.pathOk(s) then Ok((end, Path(s))) else Err(BadText)
    else if typ == 's' as int then
      var (end, s) :- ReadText(buf, off, bo, rules);
      Ok((end, Str(s)))
    else if typ == 'u' as int then
      var (end, n) :- ReadU32(buf, off, bo);
      Ok((end, Num(n)))
    else if typ == 'g' as int then
      var (end, s) :- ReadSig(buf, off, rules);
      if rules.signatureOk(s) then Ok((end, Sig(s))) else Err(BadSignature)
    else Err(UnknownVariant)
  }

  /** A one-letter signature (its length, the letter, NUL) and the value. */
  function ReadVariant(buf: seq<byte>, off: nat, bo: ByteOrder, rules: Rules): (r: Parsed<HdrVar>)
    requires off <= |buf|
    ensures r.Ok? ==> off < r.value.0 <= |buf|
  {
    if off + 3 > |buf| then Err(NotEnoughBytes)
    else if buf[off] != 1 || buf[off + 2] != 0 then Err(UnknownVariant)
    else ReadValue(buf[off + 1], buf, off + 3, bo, rules)
  }

  /** `<(u8, HdrVar)>::unmarshal`. */
  function ReadField(buf: seq<byte>, off: nat, bo: ByteOrder, rules: Rules): (r: Parsed<(byte, HdrVar)>)
    requires off <= |buf|
    ensures r.Ok? ==> off < r.value.0 <= |buf|
  {
    var at :- AlignOffset(8, buf, off);
    if at == |buf| then Err(NotEnoughBytes) else
    var (end, v) :- ReadVariant(buf, at + 1, bo, rules);
    Ok((end, (buf[at], v)))
  }

  function ParseFields(buf: seq<byte>, off: nat, used: nat, len: nat, t: seq<Option<HdrVar>>, bo: ByteOrder, rules: Rules):
    (r: Parsed<seq<Option<HdrVar>>>)
    requires off <= |buf| && |t| == CODES
    ensures r.Ok? ==> off <= r.value.0 <= |buf| && |r.value.1| == CODES
    decreases len - used
  {
    if used == len then Ok((off, t))
    else if used > len then Err(NotEnoughBytesForCollection)
    else
      var (end, field) :- ReadField(buf, off, bo, rules);
      if field.0 >= CODES then Err(FieldCodePanic)
      else ParseFields(buf, end, used + (end - off), len, t[field.0 := Some(field.1)], bo, rules)
  }

  /** Each field holds the variant its code asks for; a reply serial is not zero. */
  predicate KindsOk(t: seq<Option<HdrVar>>)
    requires |t| == CODES
  {
    && (t[1].Some? ==> t[1].value.Path?)
    && (forall k :: k in {2, 3, 4, 6, 7} && t[k].Some? ==> t[k].value.Str?)
    && (t[5].Some? ==> t[5].value.Num? && t[5].value.num != 0)
    && (t[8].Some? ==> t[8].value.Sig?)
    && (t[9].Some? ==> t[9].value.Num?)
  }

  function StrOf(v: Option<HdrVar>): Option<Text>
    requires v.Some? ==> v.value.Str?
  {
    if v.Some? then Some(v.value.str) else None
  }

  /** `DynamicHeader::validate`. */
  predicate Validates(h: DynamicHeader, rules: Rules) {
    && Allows(rules.interfaceOk, h.interface)
    && Allows(rules.pathOk, h.objectPath)
    && Allows(rules.memberOk, h.member)
    && Allows(rules.errorNameOk, h.errorName)
    && Allows(rules.busNameOk, h.destination)
    && Allows(rules.busNameOk, h.sender)
    && Allows(rules.signatureOk, h.signature)
  }

  function FromTable(t: seq<Option<HdrVar>>, rules: Rules): Result<DynamicHeader, ParseError>
    requires |t| == CODES
  {
    if !KindsOk(t) then Err(InvalidHeaderField) else
    var h := DynamicHeader(
      interface := StrOf(t[2]),
      member := StrOf(t[3]),
      objectPath := if t[1].Some? then Some(t[1].value.path) else None,
      destination := StrOf(t[6]),
      serial := None,
      sender := StrOf(t[7]),
      signature := if t[8].Some? then Some(t[8].value.sig) else None,
      errorName := StrOf(t[4]),
      responseSerial := if t[5].Some? then Some(t[5].value.num) else None,
      numFds := if t[9].Some? then Some(t[9].value.num) else None);
    if Validates(h, rules) then Ok(h) else Err(InvalidHeaderField)
  }

  const EMPTY_TABLE: seq<Option<HdrVar>> := [None, None, None, None, None, None, None, None, None, None]

  /** The array of header fields at `off`, with the padding behind it. */
  function ParseHeader(buf: seq<byte>, off: nat, bo: ByteOrder, rules: Rules): (r: Parsed<DynamicHeader>)
    requires off <= |buf|
    ensures r.Ok? ==> off <= r.value.0 <= |buf|
  {
    var (start, len) :- ReadU32(buf, off, bo);
    if AlignNum(start + len, 8) > |buf| then Err(NotEnoughBytes) else
    var (end, t) :- ParseFields(buf, start, 0, len, EMPTY_TABLE, bo, rules);
    var h :- FromTable(t, rules);
    var next :- AlignOffset(8, buf, end);
    Ok((next, h))
  }

  /** The loop of `unmarshal`: it fills a ten-element array, and the last field of a code wins. */
  method UnmarshalFields(buf: seq<byte>, start: nat, len: nat, bo: ByteOrder, rules: Rules) returns (r: Parsed<seq<Option<HdrVar>>>)
    requires start <= |buf|
    ensures r == ParseFields(buf, start, 0, len, EMPTY_TABLE, bo, rules)
  {
    hide ReadField;
    var offset: nat, used: nat := start, 0;
    var fields := new Option<HdrVar>[CODES](_ => None);
    assert fields[..] == EMPTY_TABLE;
    while used < len
      invariant offset <= |buf|
      invariant ParseFields(buf, offset, used, len, fields[..], bo, rules) == ParseFields(buf, start, 0, len, EMPTY_TABLE, bo, rules)
      decreases len - used
    {
      var entry :- ReadField(buf, offset, bo, rules);
      var (end, field) := entry;
      if field.0 >= CODES { return Err(FieldCodePanic); }
      ghost var t := fields[..];
      fields[field.0] := Some(field.1);
      assert fields[..] == t[field.0 := Some(field.1)];
      offset, used := end, used + (end - offset);
    }
    return if used != len then Err(NotEnoughBytesForCollection) else Ok((offset, fields[..]));
  }

  /** `DynamicHeader::unmarshal`. */
  method Unmarshal(buf: seq<byte>, off: nat, bo: ByteOrder, rules: Rules) returns (r: Parsed<DynamicHeader>)
    requires off <= |buf|
    ensures r == ParseHeader(buf, off, bo, rules)
  {
    hide ReadU32, ParseFields, FromTable, AlignOffset, AlignNum;
    var length :- ReadU32(buf, off, bo);
    var (start, len) := length;
    if AlignNum(start + len, 8) > |buf| { return Err(NotEnoughBytes); }
    var fields := UnmarshalFields(buf, start, len, bo, rules);
    var read :- fields;
    var h :- FromTable(read.1, rules);
    var next :- AlignOffset(8, buf, read.0);
    return Ok((next, h));
  }

  // ----- Round trip -----

  /** What a receiver reads back: the signature of a non-empty body and the number of descriptors. */
  function AsReceived(m: Message): DynamicHeader {
    m.dyn.(serial := None,
           signature := if m.body != [] then Some(m.sig) else None,
           numFds := if |m.fds| % U32_LIMIT != 0 then Some(|m.fds| % U32_LIMIT) else None)
  }

  /** The condition under which a header can be sent: its names validate and its parts fit their length fields. */
  ghost predicate Sendable(m: Message, rules: Rules) {
    && FirstFault(m.dyn, rules).None?
    && (m.body != [] ==> rules.signatureOk(m.sig))
    && |ArrayBytes(m)| < U32_LIMIT
    && |m.body| < U32_LIMIT
  }

  ghost predicate Readable(v: HdrVar, rules: Rules) {
    match v
    case Path(s) => rules.pathOk(s) && rules.textOk(s) && |s| < U32_LIMIT
    case Str(s) => rules.textOk(s) && |s| < U32_LIMIT
    case Num(_) => true
    case Sig(s) => rules.signatureOk(s) && rules.textOk(s) && |s| <= 255
  }

  lemma ReadTerminatedBack(buf: seq<byte>, off: nat, s: Text, rules: Rules)
    requires off + |s| + 1 <= |buf| && buf[off..off + |s| + 1] == s + [0] && rules.textOk(s)
    ensures ReadTerminated(buf, off, |s|, rules) == Ok((off + |s| + 1, s))
  {
    assert buf[off..off + |s|] == buf[off..off + |s| + 1][..|s|] == s;
    assert buf[off + |s|] == buf[off..off + |s| + 1][|s|] == 0;
  }

  lemma ReadU32Back(buf: seq<byte>, off: nat, n: u32, bo: ByteOrder)
    requires off % 4 == 0 && off + 4 <= |buf| && buf[off..off + 4] == EncodeU32(n, bo)
    ensures ReadU32(buf, off, bo) == Ok((off + 4, n))
  {
    U32RoundTrip(n, bo);
  }

  lemma ReadTextBack(buf: seq<byte>, off: nat, s: Text, bo: ByteOrder, rules: Rules)
    requires off % 4 == 0 && |s| < U32_LIMIT && rules.textOk(s)
    requires off + |s| + 5 <= |buf| && buf[off..off + |s| + 5] == EncodeU32(|s|, bo) + s + [0]
    ensures ReadText(buf, off, bo, rules) == Ok((off + |s| + 5, s))
  {
    hide EncodeU32, ParseU32;
    var b := buf[off..off + |s| + 5];
    assert buf[off..off + 4] == b[..4] == EncodeU32(|s|, bo);
    ReadU32Back(buf, off, |s|, bo);
    assert buf[off + 4..off + 4 + |s| + 1] == b[4..] == s + [0];
    ReadTerminatedBack(buf, off + 4, s, rules);
  }

  lemma ReadSigBack(buf: seq<byte>, off: nat, s: Text, rules: Rules)
    requires |s| <= 255 && rules.textOk(s)
    requires off + |s| + 2 <= |buf| && buf[off..off + |s| + 2] == [|s|] + s + [0]
    ensures ReadSig(buf, off, rules) == Ok((off + |s| + 2, s))
  {
    var b := buf[off..off + |s| + 2];
    assert buf[off] == b[0] == |s|;
    assert buf[off + 1..off + |s| + 2] == b[1..] == s + [0];
    ReadTerminatedBack(buf, off + 1, s, rules);
  }

  lemma ReadValueBack(buf: seq<byte>, off: nat, v: HdrVar, bo: ByteOrder, rules: Rules)
    requires off % 4 == 0 && Readable(v, rules)
    requires off + |ValueBytes(v, bo)| <= |buf| && buf[off..off + |ValueBytes(v, bo)|] == ValueBytes(v, bo)
    ensures ReadValue(TypeCode(v), buf, off, bo, rules) == Ok((off + |ValueBytes(v, bo)|, v))
  {
    hide EncodeU32, AlignNum, AllZero, ReadTerminated;
    if v.Path? {
      ReadTextBack(buf, off, v.path, bo, rules);
    } else if v.Str? {
      ReadTextBack(buf, off, v.str, bo, rules);
    } else if v.Num? {
      ReadU32Back(buf, off, v.num, bo);
    } else {
      ReadSigBack(buf, off, v.sig, rules);
    }
  }

  /** The offset behind the padding is a multiple of four, and so is the one behind a field's first four bytes. */
  lemma PaddedOffset(buf: seq<byte>, off: nat)
    requires AlignNum(off, 8) <= |buf| && buf[off..AlignNum(off, 8)] == Padding(off, 8)
    ensures AlignOffset(8, buf, off) == Ok(off + |Padding(off, 8)|)
    ensures (off + |Padding(off, 8)| + 4) % 4 == 0
  {
    hide Zeros;
    Aligned8(off);
  }

  lemma Aligned8(off: nat)
    ensures off <= AlignNum(off, 8) && AlignNum(off, 8) % 4 == 0
  {
  }

  lemma FieldAt(buf: seq<byte>, at: nat, code: byte, v: HdrVar, bo: ByteOrder)
    requires at + |FieldBytes(code, v, bo)| <= |buf| && buf[at..at + |FieldBytes(code, v, bo)|] == FieldBytes(code, v, bo)
    ensures buf[at] == code && buf[at + 1] == 1 && buf[at + 2] == TypeCode(v) && buf[at + 3] == 0
    ensures buf[at + 4..at + 4 + |ValueBytes(v, bo)|] == ValueBytes(v, bo)
  {
    var f := buf[at..at + |FieldBytes(code, v, bo)|];
    assert buf[at] == f[0] && buf[at + 1] == f[1] && buf[at + 2] == f[2] && buf[at + 3] == f[3];
    assert buf[at + 4..at + 4 + |ValueBytes(v, bo)|] == f[4..] == ValueBytes(v, bo);
  }

  lemma ReadFieldBack(buf: seq<byte>, off: nat, code: byte, v: HdrVar, bo: ByteOrder, rules: Rules)
    requires off <= |buf| && Readable(v, rules)
    requires var b := Padding(off, 8) + FieldBytes(code, v, bo);
      off + |b| <= |buf| && buf[off..off + |b|] == b
    ensures ReadField(buf, off, bo, rules) == Ok((off + |Padding(off, 8)| + |FieldBytes(code, v, bo)|, (code, v)))
  {
    hide ReadField, ValueBytes, AlignNum, Padding, AlignOffset, Readable, TypeCode;
    var pad, field := Padding(off, 8), FieldBytes(code, v, bo);
    var at, b := off + |pad|, buf[off..off + |pad| + |field|];
    assert buf[off..at] == b[..|pad|] == pad;
    assert buf[at..at + |field|] == b[|pad|..] == field;
    PaddedOffset(buf, off);
    FieldAt(buf, at, code, v, bo);
    ReadFieldAt(buf, off, at, code, v, bo, rules);
  }

  lemma ReadFieldAt(buf: seq<byte>, off: nat, at: nat, code: byte, v: HdrVar, bo: ByteOrder, rules: Rules)
    requires off <= |buf| && AlignOffset(8, buf, off) == Ok(at) && (at + 4) % 4 == 0 && Readable(v, rules)
    requires at + 4 + |ValueBytes(v, bo)| <= |buf|
    requires buf[at] == code && buf[at + 1] == 1 && buf[at + 2] == TypeCode(v) && buf[at + 3] == 0
    requires buf[at + 4..at + 4 + |ValueBytes(v, bo)|] == ValueBytes(v, bo)
    ensures ReadField(buf, off, bo, rules) == Ok((at + 4 + |ValueBytes(v, bo)|, (code, v)))
  {
    hide AlignOffset, ReadValue, ValueBytes, Readable, TypeCode;
    ReadValueBack(buf, at + 4, v, bo, rules);
    var p := ReadVariant(buf, at + 1, bo, rules);
    assert p == Ok((at + 4 + |ValueBytes(v, bo)|, v));
  }

  lemma {:induction false} FieldArrayPrefix(t: seq<Option<HdrVar>>, i: nat, j: nat, bo: ByteOrder)
    requires |t| == CODES && i <= j <= CODES
    ensures FieldArray(t, i, bo) <= FieldArray(t, j, bo)
  {
    hide FieldBytes, Padding;
    if i < j {
      FieldArrayPrefix(t, i, j - 1, bo);
    }
  }

  /** The table as the parser has filled it when it has read the fields with a code below `i`. */
  function Upto(t: seq<Option<HdrVar>>, i: nat): (u: seq<Option<HdrVar>>)
    requires |t| == CODES
  {
    seq(CODES, k => if 0 <= k < i && k < CODES then t[k] else None)
  }

  lemma FieldAbsent(t: seq<Option<HdrVar>>, i: nat, bo: ByteOrder)
    requires |t| == CODES && i < CODES && t[i].None?
    ensures FieldArray(t, i + 1, bo) == FieldArray(t, i, bo)
  {
  }

  /** One field that is present: the parser reads it and is where it is before the next one. */
  lemma ParseOneField(buf: seq<byte>, t: seq<Option<HdrVar>>, i: nat, bo: ByteOrder, rules: Rules)
    requires |t| == CODES && i < CODES && t[i].Some? && Readable(t[i].value, rules)
    requires var all := FieldArray(t, CODES, bo);
      HEADER_LEN + 4 + |all| <= |buf| && buf[HEADER_LEN + 4..HEADER_LEN + 4 + |all|] == all
    ensures var off, end := HEADER_LEN + 4 + |FieldArray(t, i, bo)|, HEADER_LEN + 4 + |FieldArray(t, i + 1, bo)|;
      off <= |buf| && ReadField(buf, off, bo, rules) == Ok((end, (i, t[i].value)))
  {
    hide ReadField, Readable, FieldBytes;
    var all, here, next := FieldArray(t, CODES, bo), FieldArray(t, i, bo), FieldArray(t, i + 1, bo);
    var off := HEADER_LEN + 4 + |here|;
    var b := Padding(|here|, 8) + FieldBytes(i, t[i].value, bo);
    FieldArrayPrefix(t, i + 1, CODES, bo);
    assert next == here + b;
    AlignShift(|here|);
    assert Padding(off, 8) == Padding(|here|, 8);
    SubSlice(buf, HEADER_LEN + 4, all, |here|, |next|);
    PrefixSlice(here, b, all);
    ReadFieldBack(buf, off, i, t[i].value, bo, rules);
  }

  lemma {:induction false} ParseFieldsBack(buf: seq<byte>, t: seq<Option<HdrVar>>, i: nat, bo: ByteOrder, rules: Rules)
    requires |t| == CODES && i <= CODES
    requires forall k :: 0 <= k < CODES && t[k].Some? ==> Readable(t[k].value, rules)
    requires var all := FieldArray(t, CODES, bo);
      HEADER_LEN + 4 + |all| <= |buf| && buf[HEADER_LEN + 4..HEADER_LEN + 4 + |all|] == all
    ensures |FieldArray(t, i, bo)| <= |FieldArray(t, CODES, bo)|
    ensures var len, done := |FieldArray(t, CODES, bo)|, |FieldArray(t, i, bo)|;
      ParseFields(buf, HEADER_LEN + 4 + done, done, len, Upto(t, i), bo, rules) == Ok((HEADER_LEN + 4 + len, t))
    decreases CODES - i
  {
    hide ReadField, Readable, FieldBytes, FieldArray;
    FieldArrayPrefix(t, i, CODES, bo);
    if i == CODES {
      assert Upto(t, i) == t;
    } else {
      ParseFieldsBack(buf, t, i + 1, bo, rules);
      if t[i].None? {
        FieldAbsent(t, i, bo);
        assert Upto(t, i) == Upto(t, i + 1);
      } else {
        ParseOneField(buf, t, i, bo, rules);
        assert Upto(t, i + 1) == Upto(t, i)[i := t[i]];
      }
    }
  }

  lemma ValueInArray(t: seq<Option<HdrVar>>, k: nat, bo: ByteOrder)
    requires |t| == CODES && k < CODES && t[k].Some?
    ensures |ValueBytes(t[k].value, bo)| <= |FieldArray(t, CODES, bo)|
  {
    FieldArrayPrefix(t, k + 1, CODES, bo);
  }

  lemma FieldValid(m: Message, k: nat, rules: Rules)
    requires Coherent(rules) && Sendable(m, rules) && k < CODES && FieldTable(m)[k].Some?
    ensures match FieldTable(m)[k].value
      case Path(s) => rules.pathOk(s) && rules.textOk(s)
      case Str(s) => rules.textOk(s)
      case Num(_) => true
      case Sig(s) => rules.signatureOk(s) && rules.textOk(s) && |s| <= 255
  {
    hide FieldArray, EncodeU32, ArrayBytes;
  }

  /** Every field of a message that can be sent can be read. */
  lemma FieldReadable(m: Message, k: nat, rules: Rules)
    requires Coherent(rules) && Sendable(m, rules) && k < CODES && FieldTable(m)[k].Some?
    ensures Readable(FieldTable(m)[k].value, rules)
  {
    hide FieldArray, EncodeU32, FieldTable;
    ValueInArray(FieldTable(m), k, m.bo);
    FieldValid(m, k, rules);
  }

  /** The table gives back the header, with the signature and the descriptor count that travelled. */
  lemma FromTableBack(m: Message, rules: Rules)
    requires Sendable(m, rules)
    ensures FromTable(FieldTable(m), rules) == Ok(AsReceived(m))
  {
    hide FieldArray;
  }

  lemma {:induction false} FieldArrayStart(t: seq<Option<HdrVar>>, bo: ByteOrder)
    requires |t| == CODES
    ensures FieldArray(t, 0, bo) == [] && Upto(t, 0) == EMPTY_TABLE
  {
  }

  /** The parts of an encoded header, by offset; anything may follow it. */
  lemma EncodedParts(m: Message, serial: Serial, buf: seq<byte>)
    requires EncodeHeader(m, serial) <= buf
    ensures var fields := ArrayBytes(m);
      && |EncodeHeader(m, serial)| == AlignNum(HEADER_LEN + 4 + |fields|, 8)
      && buf[..HEADER_LEN] == FixedBytes(m, serial)
      && buf[HEADER_LEN..HEADER_LEN + 4] == EncodeU32(|fields| % U32_LIMIT, m.bo)
      && buf[HEADER_LEN + 4..HEADER_LEN + 4 + |fields|] == fields
      && buf[HEADER_LEN + 4 + |fields|..|EncodeHeader(m, serial)|] == Padding(HEADER_LEN + 4 + |fields|, 8)
  {
    hide FixedBytes, EncodeU32, ArrayBytes;
    var fixed, len, fields := FixedBytes(m, serial), EncodeU32(|ArrayBytes(m)| % U32_LIMIT, m.bo), ArrayBytes(m);
    var pad, all := Padding(HEADER_LEN + 4 + |fields|, 8), EncodeHeader(m, serial);
    assert all == fixed + len + fields + pad;
    assert buf[..|all|] == all;
    PrefixSlice([], fixed, buf);
    PrefixSlice(fixed, len, buf);
    PrefixSlice(fixed + len, fields, buf);
    PrefixSlice(fixed + len + fields, pad, buf);
  }

  lemma FieldsRoundTrip(m: Message, buf: seq<byte>, rules: Rules)
    requires Coherent(rules) && Sendable(m, rules)
    requires var fields := ArrayBytes(m);
      HEADER_LEN + 4 + |fields| <= |buf| && buf[HEADER_LEN + 4..HEADER_LEN + 4 + |fields|] == fields
    ensures ParseFields(buf, HEADER_LEN + 4, 0, |ArrayBytes(m)|, EMPTY_TABLE, m.bo, rules)
         == Ok((HEADER_LEN + 4 + |ArrayBytes(m)|, FieldTable(m)))
  {
    hide Sendable, FieldTable, Readable, Coherent, FieldArray, ParseFields;
    var t := FieldTable(m);
    forall k | 0 <= k < CODES && t[k].Some?
      ensures Readable(t[k].value, rules)
    {
      FieldReadable(m, k, rules);
    }
    FieldArrayStart(t, m.bo);
    ParseFieldsBack(buf, t, 0, m.bo, rules);
  }

  lemma EndOfHeader(buf: seq<byte>, off: nat)
    requires off <= AlignNum(off, 8) == |buf| && buf[off..|buf|] == Padding(off, 8)
    ensures AlignOffset(8, buf, off) == Ok(|buf|)
  {
  }

  /**
   Header round trip, in both byte orders: parsing what was printed consumes all of it, padding included,
   and gives the header back. The parser's buffer ends with the header, as the receiver's does.
   */
  lemma HeaderRoundTrip(m: Message, serial: Serial, rules: Rules)
    requires Coherent(rules) && Sendable(m, rules)
    ensures var all := EncodeHeader(m, serial);
      && |all| == AlignNum(HEADER_LEN + 4 + |ArrayBytes(m)|, 8)
      && ParseHeader(all, HEADER_LEN, m.bo, rules) == Ok((|all|, AsReceived(m)))
  {
    hide EncodeHeader, ReadU32, FromTable, AlignOffset, FieldTable, ParseFields, FieldArray, FirstFault, ArrayBytes, Coherent;
    var all, fields := EncodeHeader(m, serial), ArrayBytes(m);
    EncodedParts(m, serial, all);
    assert |fields| % U32_LIMIT == |fields|;
    ReadU32Back(all, HEADER_LEN, |fields|, m.bo);
    FieldsRoundTrip(m, all, rules);
    FromTableBack(m, rules);
    EndOfHeader(all, HEADER_LEN + 4 + |fields|);
  }

  // ----- The fixed part -----

  datatype FixedHeader = FixedHeader(bo: ByteOrder, typ: MessageType, flags: byte, bodyLen: u32, serial: u32)

  datatype FixedError = InvalidByteOrder | InvalidMessageType

  /** `unmarshal_header` of the `rustbus` crate: the first twelve bytes of a message. */
  function ParseFixed(b: seq<byte>): Result<FixedHeader, FixedError>
    requires |b| >= HEADER_LEN
  {
    if b[0] != LITTLE && b[0] != BIG then Err(InvalidByteOrder)
    else if !(1 <= b[1] <= 4) then Err(InvalidMessageType)
    else
      var bo := if b[0] == LITTLE then LittleEndian else BigEndian;
      var typ := if b[1] == 1 then Call else if b[1] == 2 then Reply else if b[1] == 3 then Error else Signal;
      Ok(FixedHeader(bo, typ, b[2], ParseU32(b[4..8], bo), ParseU32(b[8..12], bo)))
  }

  lemma FixedRoundTrip(m: Message, serial: Serial, buf: seq<byte>)
    requires FixedBytes(m, serial) <= buf
    ensures ParseFixed(buf) ==
      if m.typ.Invalid? then Err(InvalidMessageType)
      else Ok(FixedHeader(m.bo, m.typ, m.flags, |m.body| % U32_LIMIT, serial))
  {
    hide EncodeU32, ParseU32;
    var b := FixedBytes(m, serial);
    var first, len, ser := b[..4], EncodeU32(|m.body| % U32_LIMIT, m.bo), EncodeU32(serial, m.bo);
    assert b == first + len + ser;
    PrefixSlice(first, len, buf);
    PrefixSlice(first + len, ser, buf);
    U32RoundTrip(|m.body| % U32_LIMIT, m.bo);
    U32RoundTrip(serial, m.bo);
    assert buf[0] == b[0] && buf[1] == b[1] && buf[2] == b[2];
  }
}
