/** What the parsers accept, exactly: messages as the D-Bus Specification lays them out, section "Message Format". */
module Grammar {
  import opened Utils
  import opened HeaderCodec
  import opened Framing

  // ----- Header fields, in any order -----

  /** A header field: its code and its value. */
  type Field = (byte, HdrVar)

  const START := HEADER_LEN + 4

  /** Fields one behind the other, each at a multiple of eight. */
  function FieldSeq(fs: seq<Field>, bo: ByteOrder): (b: seq<byte>) {
    if fs == [] then [] else
    var before, f := FieldSeq(fs[..|fs| - 1], bo), fs[|fs| - 1];
    before + Padding(|before|, 8) + FieldBytes(f.0, f.1, bo)
  }

  ghost predicate Known(fs: seq<Field>, rules: Rules) {
    forall i :: 0 <= i < |fs| ==> fs[i].0 < CODES && Readable(fs[i].1, rules)
  }

  /** The value of each code: that of its last field. */
  function LastOf(fs: seq<Field>): (t: seq<Option<HdrVar>>)
    ensures |t| == CODES
  {
    if fs == [] then EMPTY_TABLE else
    var t, f := LastOf(fs[..|fs| - 1]), fs[|fs| - 1];
    if f.0 < CODES then t[f.0 := Some(f.1)] else t
  }

  lemma {:induction false} FieldSeqPrefix(fs: seq<Field>, k: nat, bo: ByteOrder)
    requires k <= |fs|
    ensures FieldSeq(fs[..k], bo) <= FieldSeq(fs, bo)
  {
    hide FieldBytes, Padding;
    if k < |fs| {
      var before := fs[..|fs| - 1];
      assert before[..k] == fs[..k];
      FieldSeqPrefix(before, k, bo);
    } else {
      assert fs[..k] == fs;
    }
  }

  /** The bytes of `buf` from the start of the array are these fields. */
  predicate ArrayIs(buf: seq<byte>, all: seq<byte>) {
    START + |all| <= |buf| && buf[START..START + |all|] == all
  }

  /** One field is read back wherever it stands. */
  lemma ReadNext(buf: seq<byte>, fs: seq<Field>, k: nat, bo: ByteOrder, rules: Rules)
    requires k < |fs| && Readable(fs[k].1, rules) && ArrayIs(buf, FieldSeq(fs, bo))
    ensures var off, end := START + |FieldSeq(fs[..k], bo)|, START + |FieldSeq(fs[..k + 1], bo)|;
      off < end <= |buf| && ReadField(buf, off, bo, rules) == Ok((end, fs[k]))
  {
    hide ReadField, Readable, FieldBytes, Padding, FieldSeq;
    var all, here, next := FieldSeq(fs, bo), FieldSeq(fs[..k], bo), FieldSeq(fs[..k + 1], bo);
    var off := START + |here|;
    var b := Padding(|here|, 8) + FieldBytes(fs[k].0, fs[k].1, bo);
    FieldSeqPrefix(fs, k + 1, bo);
    NextField(fs, k, bo);
    SamePadding(|here|);
    SubSlice(buf, START, all, |here|, |next|);
    PrefixSlice(here, b, all);
    FieldNotEmpty(fs[k].0, fs[k].1, bo);
    ReadFieldBack(buf, off, fs[k].0, fs[k].1, bo, rules);
  }

  lemma FieldNotEmpty(code: byte, v: HdrVar, bo: ByteOrder)
    ensures |FieldBytes(code, v, bo)| > 0
  {
  }

  lemma NextField(fs: seq<Field>, k: nat, bo: ByteOrder)
    requires k < |fs|
    ensures FieldSeq(fs[..k + 1], bo) ==
      FieldSeq(fs[..k], bo) + (Padding(|FieldSeq(fs[..k], bo)|, 8) + FieldBytes(fs[k].0, fs[k].1, bo))
    ensures LastOf(fs[..k + 1]) == if fs[k].0 < CODES then LastOf(fs[..k])[fs[k].0 := Some(fs[k].1)] else LastOf(fs[..k])
  {
    hide FieldBytes, Padding;
    var upto := fs[..k + 1];
    assert upto[..k] == fs[..k] && upto[k] == fs[k];
  }

  lemma SamePadding(n: nat)
    ensures Padding(START + n, 8) == Padding(n, 8)
  {
    AlignShift(n);
  }

  /** Any fields, in any order and with repeated codes, are read back: the last field of a code wins. */
  lemma {:induction false} FieldsBack(buf: seq<byte>, fs: seq<Field>, k: nat, bo: ByteOrder, rules: Rules)
    requires k <= |fs| && Known(fs, rules) && ArrayIs(buf, FieldSeq(fs, bo))
    ensures |FieldSeq(fs[..k], bo)| <= |FieldSeq(fs, bo)|
    ensures var done, len := |FieldSeq(fs[..k], bo)|, |FieldSeq(fs, bo)|;
      ParseFields(buf, START + done, done, len, LastOf(fs[..k]), bo, rules) == Ok((START + len, LastOf(fs)))
    decreases |fs| - k
  {
    hide ReadField, Readable, FieldSeq, LastOf;
    FieldSeqPrefix(fs, k, bo);
    if k == |fs| {
      assert fs[..k] == fs;
    } else {
      FieldsBack(buf, fs, k + 1, bo, rules);
      ReadNext(buf, fs, k, bo, rules);
      NextField(fs, k, bo);
    }
  }

  /** A field with a code from ten on ends in the source's out-of-bounds access, whatever stands behind it. */
  lemma {:induction false} UnknownCode(buf: seq<byte>, fs: seq<Field>, k: nat, u: nat, bo: ByteOrder, rules: Rules)
    requires k <= u < |fs| && Known(fs[..u], rules) && Readable(fs[u].1, rules) && fs[u].0 >= CODES && ArrayIs(buf, FieldSeq(fs, bo))
    ensures |FieldSeq(fs[..k], bo)| <= |FieldSeq(fs, bo)|
    ensures var done, len := |FieldSeq(fs[..k], bo)|, |FieldSeq(fs, bo)|;
      ParseFields(buf, START + done, done, len, LastOf(fs[..k]), bo, rules) == Err(FieldCodePanic)
    decreases u - k
  {
    hide ReadField, Readable, FieldSeq, LastOf;
    FieldSeqPrefix(fs, k, bo);
    FieldSeqPrefix(fs, k + 1, bo);
    assert k < u ==> fs[..u][k] == fs[k];
    ReadNext(buf, fs, k, bo, rules);
    NextField(fs, k, bo);
    if k < u { UnknownCode(buf, fs, k + 1, u, bo, rules); }
  }

  // ----- And nothing else is read -----

  lemma ZeroPadding(b: seq<byte>, off: nat, alignment: nat)
    requires alignment > 0 && AllZero(b) && |b| == |Padding(off, alignment)|
    ensures b == Padding(off, alignment)
  {
  }

  lemma AlignedRead(buf: seq<byte>, off: nat, bo: ByteOrder)
    requires off <= |buf| && off % 4 == 0 && ReadU32(buf, off, bo).Ok?
    ensures var (end, n) := ReadU32(buf, off, bo).value; end == off + 4 && buf[off..end] == EncodeU32(n, bo)
  {
    hide EncodeU32, ParseU32;
    U32Back(buf[off..off + 4], bo);
  }

  lemma TerminatedExact(buf: seq<byte>, off: nat, n: nat, rules: Rules)
    requires off <= |buf| && ReadTerminated(buf, off, n, rules).Ok?
    ensures var (end, s) := ReadTerminated(buf, off, n, rules).value;
      end == off + n + 1 && |s| == n && rules.textOk(s) && buf[off..end] == s + [0]
  {
  }

  lemma TextExact(buf: seq<byte>, off: nat, bo: ByteOrder, rules: Rules)
    requires off <= |buf| && off % 4 == 0 && ReadText(buf, off, bo, rules).Ok?
    ensures var (end, s) := ReadText(buf, off, bo, rules).value;
      |s| < U32_LIMIT && rules.textOk(s) && buf[off..end] == EncodeU32(|s|, bo) + s + [0]
  {
    hide EncodeU32, ReadTerminated, ReadU32;
    AlignedRead(buf, off, bo);
    var (at, n) := ReadU32(buf, off, bo).value;
    TerminatedExact(buf, at, n, rules);
    var (end, s) := ReadText(buf, off, bo, rules).value;
    assert buf[off..end] == buf[off..at] + buf[at..end];
    assert EncodeU32(|s|, bo) + s + [0] == EncodeU32(|s|, bo) + (s + [0]);
  }

  lemma SigExact(buf: seq<byte>, off: nat, rules: Rules)
    requires off <= |buf| && ReadSig(buf, off, rules).Ok?
    ensures var (end, s) := ReadSig(buf, off, rules).value;
      |s| <= 255 && rules.textOk(s) && buf[off..end] == [|s|] + s + [0]
  {
    hide ReadTerminated;
    TerminatedExact(buf, off + 1, buf[off], rules);
    var (end, s) := ReadSig(buf, off, rules).value;
    assert buf[off..end] == [buf[off]] + buf[off + 1..end];
    assert [|s|] + s + [0] == [|s|] + (s + [0]);
  }

  lemma ValueExact(typ: byte, buf: seq<byte>, off: nat, bo: ByteOrder, rules: Rules)
    requires off <= |buf| && off % 4 == 0 && ReadValue(typ, buf, off, bo, rules).Ok?
    ensures var (end, v) := ReadValue(typ, buf, off, bo, rules).value;
      TypeCode(v) == typ && Readable(v, rules) && buf[off..end] == ValueBytes(v, bo)
  {
    hide EncodeU32, ReadText, ReadSig, ReadU32;
    if typ == 'o' as int || typ == 's' as int {
      TextExact(buf, off, bo, rules);
    } else if typ == 'u' as int {
      AlignedRead(buf, off, bo);
    } else {
      SigExact(buf, off, rules);
    }
  }

  /** A field that is read is one that could have been written: its padding is zero, and so on. */
  lemma FieldExact(buf: seq<byte>, off: nat, bo: ByteOrder, rules: Rules)
    requires off <= |buf| && ReadField(buf, off, bo, rules).Ok?
    ensures var (end, f) := ReadField(buf, off, bo, rules).value;
      off < end <= |buf| && Readable(f.1, rules) && buf[off..end] == Padding(off, 8) + FieldBytes(f.0, f.1, bo)
  {
    hide ReadValue, Readable, ValueBytes, Padding, AlignNum, AllZero, TypeCode;
    var (end, f) := ReadField(buf, off, bo, rules).value;
    var at := AlignNum(off, 8);
    Aligned8(off);
    ZeroPadding(buf[off..at], off, 8);
    ValueExact(buf[at + 2], buf, at + 4, bo, rules);
    assert buf[off..end] == buf[off..at] + ([buf[at], buf[at + 1], buf[at + 2], buf[at + 3]] + buf[at + 4..end]);
  }

  /** An array that is read is one of fields that could have been written. */
  lemma {:induction false} FieldsExact(buf: seq<byte>, done: seq<Field>, len: nat, bo: ByteOrder, rules: Rules) returns (fs: seq<Field>)
    requires Known(done, rules) && ArrayIs(buf, FieldSeq(done, bo)) && START + len <= |buf|
    requires ParseFields(buf, START + |FieldSeq(done, bo)|, |FieldSeq(done, bo)|, len, LastOf(done), bo, rules).Ok?
    ensures Known(fs, rules) && FieldSeq(fs, bo) == buf[START..START + len]
    ensures ParseFields(buf, START + |FieldSeq(done, bo)|, |FieldSeq(done, bo)|, len, LastOf(done), bo, rules)
         == Ok((START + len, LastOf(fs)))
    decreases if |FieldSeq(done, bo)| <= len then len - |FieldSeq(done, bo)| else 0
  {
    hide ReadField, Readable, FieldSeq, LastOf, FieldBytes, Padding;
    var used := |FieldSeq(done, bo)|;
    if used == len {
      fs := done;
    } else {
      var off := START + used;
      FieldExact(buf, off, bo, rules);
      var (end, f) := ReadField(buf, off, bo, rules).value;
      var next := done + [f];
      assert next[..|done|] == done && next[..|next|] == next;
      NextField(next, |done|, bo);
      SamePadding(used);
      assert buf[START..end] == buf[START..off] + buf[off..end];
      fs := FieldsExact(buf, next, len, bo, rules);
    }
  }

  /** The field array is accepted exactly if it is one of known fields; the last field of each code is taken. */
  lemma FieldsIff(buf: seq<byte>, len: nat, t: seq<Option<HdrVar>>, end: nat, bo: ByteOrder, rules: Rules)
    requires START + len <= |buf|
    ensures ParseFields(buf, START, 0, len, EMPTY_TABLE, bo, rules) == Ok((end, t)) <==>
      end == START + len && exists fs: seq<Field> ::
        Known(fs, rules) && FieldSeq(fs, bo) == buf[START..START + len] && LastOf(fs) == t
  {
    hide ReadField, Readable, ParseFields, FieldBytes, Padding;
    var none: seq<Field> := [];
    assert FieldSeq(none, bo) == [] && LastOf(none) == EMPTY_TABLE;
    if ParseFields(buf, START, 0, len, EMPTY_TABLE, bo, rules) == Ok((end, t)) {
      var fs := FieldsExact(buf, none, len, bo, rules);
    }
    if fs: seq<Field> :| Known(fs, rules) && FieldSeq(fs, bo) == buf[START..START + len] && LastOf(fs) == t {
      assert fs[..0] == none;
      FieldsBack(buf, fs, 0, bo, rules);
    }
  }

  // ----- Headers -----

  /** The first twelve bytes; the reader does not look at the version. */
  function Lead(fixed: FixedHeader, version: byte): (b: seq<byte>)
    ensures |b| == HEADER_LEN
  {
    [if fixed.bo.LittleEndian? then LITTLE else BIG, TypeByte(fixed.typ), fixed.flags, version]
    + EncodeU32(fixed.bodyLen, fixed.bo)
    + EncodeU32(fixed.serial, fixed.bo)
  }

  lemma LeadParts(fixed: FixedHeader, version: byte)
    ensures var b := Lead(fixed, version);
      && b[0] == (if fixed.bo.LittleEndian? then LITTLE else BIG) && b[1] == TypeByte(fixed.typ) && b[2] == fixed.flags && b[3] == version
      && b[4..8] == EncodeU32(fixed.bodyLen, fixed.bo) && b[8..12] == EncodeU32(fixed.serial, fixed.bo)
  {
    hide EncodeU32;
  }

  lemma FixedIff(b: seq<byte>, fixed: FixedHeader)
    requires |b| >= HEADER_LEN
    ensures ParseFixed(b) == Ok(fixed) <==> !fixed.typ.Invalid? && b[..HEADER_LEN] == Lead(fixed, b[3])
  {
    hide EncodeU32, ParseU32;
    LeadParts(fixed, b[3]);
    var first := b[..HEADER_LEN];
    assert first[4..8] == b[4..8] && first[8..12] == b[8..12];
    if ParseFixed(b) == Ok(fixed) {
      U32Back(b[4..8], fixed.bo);
      U32Back(b[8..12], fixed.bo);
      assert first == [b[0], b[1], b[2], b[3]] + b[4..8] + b[8..12];
    }
    if b[..HEADER_LEN] == Lead(fixed, b[3]) {
      assert b[0] == first[0] && b[1] == first[1] && b[2] == first[2];
      U32RoundTrip(fixed.bodyLen, fixed.bo);
      U32RoundTrip(fixed.serial, fixed.bo);
    }
  }

  /** Which of the first twelve bytes are refused. */
  lemma FixedFaults(b: seq<byte>)
    requires |b| >= HEADER_LEN
    ensures ParseFixed(b) == Err(InvalidByteOrder) <==> b[0] != LITTLE && b[0] != BIG
    ensures ParseFixed(b) == Err(InvalidMessageType) <==> (b[0] == LITTLE || b[0] == BIG) && !(1 <= b[1] <= 4)
  {
  }

  /** The fields as the header they make up: each of its kind, the names valid. */
  predicate HeaderIs(fs: seq<Field>, dyn: DynamicHeader, rules: Rules) {
    FromTable(LastOf(fs), rules) == Ok(dyn)
  }

  /** The header bytes: the first twelve, the length of the field array, the array, and zeros up to a multiple of eight. */
  function HeadBytes(fixed: FixedHeader, version: byte, fs: seq<Field>): (b: seq<byte>) {
    var fields := FieldSeq(fs, fixed.bo);
    Lead(fixed, version) + EncodeU32(|fields| % U32_LIMIT, fixed.bo) + fields + Padding(START + |fields|, 8)
  }

  /** These fields make up a header that is accepted: it has a serial, and announces no descriptors that cannot come. */
  ghost predicate HeadIs(head: Head, fs: seq<Field>, rules: Rules, withFd: bool) {
    && !head.fixed.typ.Invalid? && |FieldSeq(fs, head.fixed.bo)| < U32_LIMIT && Known(fs, rules)
    && head.fixed.serial != 0
    && exists dyn :: HeaderIs(fs, dyn, rules) && head.dyn == dyn.(serial := Some(head.fixed.serial))
         && (dyn.numFds.Some? && dyn.numFds.value > 0 ==> withFd)
  }

  lemma HeadParts(fixed: FixedHeader, version: byte, fs: seq<Field>, b: seq<byte>)
    requires HeadBytes(fixed, version, fs) <= b && |FieldSeq(fs, fixed.bo)| < U32_LIMIT
    ensures var len := |FieldSeq(fs, fixed.bo)|;
      && b[..HEADER_LEN] == Lead(fixed, version) && b[HEADER_LEN..START] == EncodeU32(len, fixed.bo)
      && b[START..START + len] == FieldSeq(fs, fixed.bo)
      && |HeadBytes(fixed, version, fs)| == AlignNum(START + len, 8)
      && b[START + len..AlignNum(START + len, 8)] == Padding(START + len, 8)
  {
    hide Lead, EncodeU32, FieldSeq;
    var lead, fields := Lead(fixed, version), FieldSeq(fs, fixed.bo);
    var len, pad := EncodeU32(|fields| % U32_LIMIT, fixed.bo), Padding(START + |fields|, 8);
    assert HeadBytes(fixed, version, fs) == lead + len + fields + pad;
    PrefixSlice([], lead, b);
    PrefixSlice(lead, len, b);
    PrefixSlice(lead + len, fields, b);
    PrefixSlice(lead + len + fields, pad, b);
  }

  lemma PaddingZero(off: nat)
    ensures AllZero(Padding(off, 8))
  {
  }

  /** A header of this form is read. */
  lemma HeadBack(b: seq<byte>, head: Head, version: byte, fs: seq<Field>, rules: Rules, withFd: bool)
    requires HeadIs(head, fs, rules, withFd) && HeadBytes(head.fixed, version, fs) <= b
    ensures DecodeHead(b, rules, withFd) == Done(head, |HeadBytes(head.fixed, version, fs)|)
  {
    hide Lead, EncodeU32, ParseU32, FieldSeq, FromTable, ParseFields, HeadBytes, Known, ParseFixed, LastOf;
    var n, len := |HeadBytes(head.fixed, version, fs)|, |FieldSeq(fs, head.fixed.bo)|;
    var own := b[..n];
    HeadParts(head.fixed, version, fs, b);
    HeadParts(head.fixed, version, fs, own);
    FixedOf(b, head.fixed, version);
    U32RoundTrip(len, head.fixed.bo);
    assert b[HEADER_LEN..HEADER_LEN + 4] == b[HEADER_LEN..START];
    ReadU32Back(own, HEADER_LEN, len, head.fixed.bo);
    FieldsIff(own, len, LastOf(fs), START + len, head.fixed.bo, rules);
    PaddingZero(START + len);
    EndOfHeader(own, START + len);
    assert AlignOffset(8, own, |own|) == Ok(|own|) by { EndAt(own); }
  }

  lemma EndAt(b: seq<byte>)
    requires exists n :: |b| == AlignNum(n, 8)
    ensures AlignOffset(8, b, |b|) == Ok(|b|)
  {
  }

  lemma FixedOf(b: seq<byte>, fixed: FixedHeader, version: byte)
    requires |b| >= HEADER_LEN && b[..HEADER_LEN] == Lead(fixed, version) && !fixed.typ.Invalid?
    ensures ParseFixed(b) == Ok(fixed)
  {
    hide Lead, ParseFixed;
    LeadParts(fixed, version);
    assert b[3] == b[..HEADER_LEN][3];
    FixedIff(b, fixed);
  }

  /** The field array of a header that is read, with its length and padding. */
  lemma HeaderExact(own: seq<byte>, bo: ByteOrder, rules: Rules) returns (fs: seq<Field>)
    requires |own| >= START && ParseHeader(own, HEADER_LEN, bo, rules).Ok?
    ensures var (end, dyn) := ParseHeader(own, HEADER_LEN, bo, rules).value;
      var fields := FieldSeq(fs, bo);
      && Known(fs, rules) && HeaderIs(fs, dyn, rules) && |fields| < U32_LIMIT
      && end == AlignNum(START + |fields|, 8) <= |own|
      && own[HEADER_LEN..START] == EncodeU32(|fields|, bo) && ParseU32(own[HEADER_LEN..START], bo) == |fields|
      && own[START..START + |fields|] == fields && own[START + |fields|..end] == Padding(START + |fields|, 8)
  {
    hide EncodeU32, ParseU32, FieldSeq, FromTable, ParseFields, Known, LastOf, AllZero, Padding;
    AlignedRead(own, HEADER_LEN, bo);
    var len := ReadU32(own, HEADER_LEN, bo).value.1;
    var (stop, t) := ParseFields(own, START, 0, len, EMPTY_TABLE, bo, rules).value;
    FieldsIff(own, len, t, stop, bo, rules);
    fs :| Known(fs, rules) && FieldSeq(fs, bo) == own[START..START + len] && LastOf(fs) == t;
    ZeroPadding(own[START + len..AlignNum(START + len, 8)], START + len, 8);
    U32RoundTrip(len, bo);
  }

  /** A header that is read is of this form. */
  lemma HeadExact(b: seq<byte>, rules: Rules, withFd: bool) returns (version: byte, fs: seq<Field>)
    requires DecodeHead(b, rules, withFd).Done?
    ensures var d := DecodeHead(b, rules, withFd);
      HeadIs(d.value, fs, rules, withFd) && b[..d.len] == HeadBytes(d.value.fixed, version, fs)
  {
    hide Lead, EncodeU32, ParseU32, FieldSeq, ParseHeader, Known, ParseFixed, LastOf, Padding, HeaderIs, HeadBytes, AlignNum, AlignOffset;
    var d := DecodeHead(b, rules, withFd);
    var fixed := d.value.fixed;
    version := b[3];
    FixedIff(b, fixed);
    var own := b[..d.len];
    assert own[HEADER_LEN..START] == b[HEADER_LEN..HEADER_LEN + 4];
    fs := HeaderExact(own, fixed.bo, rules);
    assert own[..HEADER_LEN] == b[..HEADER_LEN];
    PutTogether(own, fixed, version, fs);
  }

  lemma PutTogether(own: seq<byte>, fixed: FixedHeader, version: byte, fs: seq<Field>)
    requires var len := |FieldSeq(fs, fixed.bo)|;
      && len < U32_LIMIT && |own| == AlignNum(START + len, 8) >= START + len
      && own[..HEADER_LEN] == Lead(fixed, version) && own[HEADER_LEN..START] == EncodeU32(len, fixed.bo)
      && own[START..START + len] == FieldSeq(fs, fixed.bo) && own[START + len..] == Padding(START + len, 8)
    ensures own == HeadBytes(fixed, version, fs)
  {
    hide Lead, EncodeU32, FieldSeq, Padding, AlignNum;
    var len := |FieldSeq(fs, fixed.bo)|;
    assert own == own[..HEADER_LEN] + own[HEADER_LEN..START] + own[START..START + len] + own[START + len..];
  }

  // ----- What is refused -----

  predicate Holds(v: Option<HdrVar>, ok: Text -> bool) {
    v.Some? ==> v.value.Str? && ok(v.value.str)
  }

  /** Fields make up a header exactly if each holds what its code asks for, valid; a reply serial is not zero. */
  lemma HeaderIff(t: seq<Option<HdrVar>>, rules: Rules)
    requires |t| == CODES
    ensures FromTable(t, rules).Ok? <==>
      && (t[1].Some? ==> t[1].value.Path? && rules.pathOk(t[1].value.path))
      && Holds(t[2], rules.interfaceOk) && Holds(t[3], rules.memberOk) && Holds(t[4], rules.errorNameOk)
      && (t[5].Some? ==> t[5].value.Num? && t[5].value.num != 0)
      && Holds(t[6], rules.busNameOk) && Holds(t[7], rules.busNameOk)
      && (t[8].Some? ==> t[8].value.Sig? && rules.signatureOk(t[8].value.sig))
      && (t[9].Some? ==> t[9].value.Num?)
    ensures FromTable(t, rules).Err? ==> FromTable(t, rules) == Err(InvalidHeaderField)
  {
  }

  /** The header has the values of the fields: path, interface, member, error name, reply serial, destination, sender, signature, count. */
  lemma HeaderValues(t: seq<Option<HdrVar>>, rules: Rules)
    requires |t| == CODES && FromTable(t, rules).Ok?
    ensures var h := FromTable(t, rules).value;
      && t[1] == AsPath(h.objectPath) && t[2] == AsText(h.interface) && t[3] == AsText(h.member) && t[4] == AsText(h.errorName)
      && t[5] == AsSerial(h.responseSerial) && t[6] == AsText(h.destination) && t[7] == AsText(h.sender)
      && (h.signature.Some? <==> t[8].Some?) && (h.signature.Some? ==> t[8].value == Sig(h.signature.value))
      && (h.numFds.Some? <==> t[9].Some?) && (h.numFds.Some? ==> t[9].value == Num(h.numFds.value))
  {
  }

  /** Why a whole header is refused. Data in the padding is found with the fields, never behind them. */
  lemma HeadFaults(b: seq<byte>, rules: Rules, withFd: bool)
    requires |b| >= START && ParseFixed(b).Ok? && |b| >= HeadLen(b, ParseFixed(b).value.bo)
    ensures var fixed := ParseFixed(b).value;
      var p, d := ParseHeader(b[..HeadLen(b, fixed.bo)], HEADER_LEN, fixed.bo, rules), DecodeHead(b, rules, withFd);
      && (p.Err? ==> d == Bad(BadFields(p.error)))
      && (p.Ok? && fixed.serial == 0 ==> d == Bad(ZeroSerial))
      && (p.Ok? && fixed.serial != 0 && !withFd && p.value.1.numFds.Some? && p.value.1.numFds.value > 0 ==> d == Bad(FdsNotNegotiated))
      && (p.Ok? && fixed.serial != 0 && (withFd || p.value.1.numFds.None? || p.value.1.numFds.value == 0) ==> d.Done?)
  {
    hide ParseFixed, ParseHeader, HeadLen, AlignOffset;
    var fixed := ParseFixed(b).value;
    var own := b[..HeadLen(b, fixed.bo)];
    var p := ParseHeader(own, HEADER_LEN, fixed.bo, rules);
    if p.Ok? {
      HeaderEnds(own, fixed.bo, rules);
      AlignedEnd(own, p.value.0);
    }
  }

  lemma HeaderEnds(b: seq<byte>, bo: ByteOrder, rules: Rules)
    requires |b| >= HEADER_LEN && ParseHeader(b, HEADER_LEN, bo, rules).Ok?
    ensures ParseHeader(b, HEADER_LEN, bo, rules).value.0 % 8 == 0
  {
    hide ReadU32, ParseFields, FromTable, AlignNum, AllZero;
    var (start, len) := ReadU32(b, HEADER_LEN, bo).value;
    MultipleOf8(ParseFields(b, start, 0, len, EMPTY_TABLE, bo, rules).value.0);
  }

  lemma MultipleOf8(n: nat)
    ensures AlignNum(n, 8) % 8 == 0
  {
  }

  lemma AlignedEnd(b: seq<byte>, end: nat)
    requires end <= |b| && end % 8 == 0
    ensures AlignOffset(8, b, end) == Ok(end)
  {
  }

  /** A message is not sent exactly if one of its names is invalid; the first of them is reported. */
  lemma FaultIff(h: DynamicHeader, rules: Rules)
    ensures FirstFault(h, rules) == Some(BadObjectPath) <==> h.objectPath.Some? && !rules.pathOk(h.objectPath.value)
    ensures FirstFault(h, rules) == Some(BadInterface) <==>
      Allows(rules.pathOk, h.objectPath) && h.interface.Some? && !rules.interfaceOk(h.interface.value)
    ensures FirstFault(h, rules) == Some(BadMember) <==>
      Allows(rules.pathOk, h.objectPath) && Allows(rules.interfaceOk, h.interface) && h.member.Some? && !rules.memberOk(h.member.value)
    ensures FirstFault(h, rules) == Some(BadErrorName) <==>
      && Allows(rules.pathOk, h.objectPath) && Allows(rules.interfaceOk, h.interface) && Allows(rules.memberOk, h.member)
      && h.errorName.Some? && !rules.errorNameOk(h.errorName.value)
    ensures FirstFault(h, rules) == None <==>
      && Allows(rules.pathOk, h.objectPath) && Allows(rules.interfaceOk, h.interface) && Allows(rules.memberOk, h.member)
      && Allows(rules.errorNameOk, h.errorName) && Allows(rules.busNameOk, h.destination) && Allows(rules.busNameOk, h.sender)
  {
  }

  // ----- What the sender writes, byte by byte -----

  /** The number in the four bytes from `at` on. */
  function NumberAt(b: seq<byte>, at: nat, bo: ByteOrder): int
    requires at + 4 <= |b|
  {
    var p, q, r, s: int := b[at], b[at + 1], b[at + 2], b[at + 3];
    if bo.LittleEndian? then p + 0x100 * q + 0x1_0000 * r + 0x100_0000 * s
    else s + 0x100 * r + 0x1_0000 * q + 0x100_0000 * p
  }

  lemma NumberOf(b: seq<byte>, at: nat, n: u32, bo: ByteOrder)
    requires at + 4 <= |b| && b[at..at + 4] == EncodeU32(n, bo)
    ensures NumberAt(b, at, bo) == n
  {
    hide EncodeU32;
    U32RoundTrip(n, bo);
    var f := b[at..at + 4];
    assert f[0] == b[at] && f[1] == b[at + 1] && f[2] == b[at + 2] && f[3] == b[at + 3];
  }

  /** The first sixteen bytes of a header: byte order, type, flags, version one, and three numbers. */
  lemma HeaderByOffset(m: Message, serial: Serial)
    ensures var b := EncodeHeader(m, serial);
      && |b| >= START
      && b[0] == (if m.bo.LittleEndian? then 'l' else 'B') as int
      && b[1] == (if m.typ.Call? then 1 else if m.typ.Reply? then 2 else if m.typ.Error? then 3 else if m.typ.Signal? then 4 else 0)
      && b[2] == m.flags && b[3] == 1
      && NumberAt(b, 4, m.bo) == |m.body| % U32_LIMIT && NumberAt(b, 8, m.bo) == serial
      && NumberAt(b, 12, m.bo) == |ArrayBytes(m)| % U32_LIMIT
  {
    hide EncodeU32, ArrayBytes, EncodeHeader, NumberAt;
    var b := EncodeHeader(m, serial);
    EncodedParts(m, serial, b);
    var first := b[..HEADER_LEN];
    FixedLayout(m, serial);
    assert b[0] == first[0] && b[1] == first[1] && b[2] == first[2] && b[3] == first[3];
    assert b[4..8] == first[4..8] && b[8..12] == first[8..12];
    NumberOf(b, 4, |m.body| % U32_LIMIT, m.bo);
    NumberOf(b, 8, serial, m.bo);
    NumberOf(b, 12, |ArrayBytes(m)| % U32_LIMIT, m.bo);
  }

  lemma FixedLayout(m: Message, serial: Serial)
    ensures FixedBytes(m, serial)[4..8] == EncodeU32(|m.body| % U32_LIMIT, m.bo) && FixedBytes(m, serial)[8..12] == EncodeU32(serial, m.bo)
  {
    hide EncodeU32;
  }

  /** A field is its code, the one-letter signature of its value, and the value: strings behind their length, with a NUL. */
  lemma FieldLayout(code: byte, v: HdrVar, bo: ByteOrder)
    ensures var b := FieldBytes(code, v, bo);
      && |b| >= 5 && b[0] == code && b[1] == 1 && b[3] == 0
      && b[2] == (if v.Path? then 'o' else if v.Str? then 's' else if v.Num? then 'u' else 'g') as int
      && (v.Num? ==> |b| == 8 && NumberAt(b, 4, bo) == v.num)
      && (v.Sig? ==> |b| == |v.sig| + 6 && b[4] == |v.sig| % 0x100 && b[5..|b| - 1] == v.sig && b[|b| - 1] == 0)
      && (v.Path? ==> |b| == |v.path| + 9 && NumberAt(b, 4, bo) == |v.path| % U32_LIMIT && b[8..|b| - 1] == v.path && b[|b| - 1] == 0)
      && (v.Str? ==> |b| == |v.str| + 9 && NumberAt(b, 4, bo) == |v.str| % U32_LIMIT && b[8..|b| - 1] == v.str && b[|b| - 1] == 0)
  {
    hide EncodeU32, NumberAt;
    var b := FieldBytes(code, v, bo);
    if v.Num? {
      assert b[4..8] == EncodeU32(v.num, bo);
      NumberOf(b, 4, v.num, bo);
    } else if !v.Sig? {
      var s := if v.Path? then v.path else v.str;
      assert b[4..8] == EncodeU32(|s| % U32_LIMIT, bo);
      NumberOf(b, 4, |s| % U32_LIMIT, bo);
    }
  }

  /** The fields of a message, in the order in which they are written. */
  function FieldsOf(m: Message): seq<Field> {
    var h := m.dyn;
    (if h.objectPath.Some? then [(1, Path(h.objectPath.value))] else [])
    + (if h.interface.Some? then [(2, Str(h.interface.value))] else [])
    + (if h.member.Some? then [(3, Str(h.member.value))] else [])
    + (if h.errorName.Some? then [(4, Str(h.errorName.value))] else [])
    + (if h.responseSerial.Some? then [(5, Num(h.responseSerial.value))] else [])
    + (if h.destination.Some? then [(6, Str(h.destination.value))] else [])
    + (if h.sender.Some? then [(7, Str(h.sender.value))] else [])
    + (if m.body != [] then [(8, Sig(m.sig))] else [])
    + (if |m.fds| % U32_LIMIT != 0 then [(9, Num(|m.fds| % U32_LIMIT))] else [])
  }

  function Present(t: seq<Option<HdrVar>>, i: nat): seq<Field>
    requires i <= |t| == CODES
  {
    if i == 0 then [] else Present(t, i - 1) + Slot(t, i - 1)
  }

  function Slot(t: seq<Option<HdrVar>>, i: nat): seq<Field>
    requires i < |t| == CODES
  {
    if t[i].Some? then [(i, t[i].value)] else []
  }

  lemma {:induction false} ArrayIsFields(t: seq<Option<HdrVar>>, i: nat, bo: ByteOrder)
    requires i <= |t| == CODES
    ensures FieldArray(t, i, bo) == FieldSeq(Present(t, i), bo)
  {
    hide FieldBytes, Padding;
    if i > 0 {
      ArrayIsFields(t, i - 1, bo);
      var before := Present(t, i - 1);
      if t[i - 1].Some? {
        assert (before + [(i - 1, t[i - 1].value)])[..|before|] == before;
        var pad, field := Padding(|FieldSeq(before, bo)|, 8), FieldBytes(i - 1, t[i - 1].value, bo);
      } else {
        assert before + [] == before;
      }
    }
  }

  /** The field array of a message that is sent. */
  lemma WrittenFields(m: Message)
    ensures ArrayBytes(m) == FieldSeq(FieldsOf(m), m.bo)
  {
    hide FieldSeq, FieldArray, Present;
    var t := FieldTable(m);
    ArrayIsFields(t, CODES, m.bo);
    PresentAll(t);
    assert Slot(t, 0) == [];
    assert [] + Slot(t, 0) + Slot(t, 1) == Slot(t, 1);
  }

  lemma PresentAll(t: seq<Option<HdrVar>>)
    requires |t| == CODES
    ensures Present(t, CODES) == [] + Slot(t, 0) + Slot(t, 1) + Slot(t, 2) + Slot(t, 3) + Slot(t, 4)
      + Slot(t, 5) + Slot(t, 6) + Slot(t, 7) + Slot(t, 8) + Slot(t, 9)
  {
    hide Slot;
    assert Present(t, 0) == [];
    assert Present(t, 3) == Present(t, 2) + Slot(t, 2) == Present(t, 1) + Slot(t, 1) + Slot(t, 2) == [] + Slot(t, 0) + Slot(t, 1) + Slot(t, 2);
    assert Present(t, 5) == Present(t, 4) + Slot(t, 4) == Present(t, 3) + Slot(t, 3) + Slot(t, 4);
    assert Present(t, 7) == Present(t, 6) + Slot(t, 6) == Present(t, 5) + Slot(t, 5) + Slot(t, 6);
    assert Present(t, 9) == Present(t, 8) + Slot(t, 8) == Present(t, 7) + Slot(t, 7) + Slot(t, 8);
    assert Present(t, 10) == Present(t, 9) + Slot(t, 9);
  }

  // ----- Messages -----

  /** The bytes of a whole message. */
  function MessageBytes(raw: Raw, version: byte, fs: seq<Field>): seq<byte> {
    HeadBytes(raw.head.fixed, version, fs) + raw.body
  }

  /**
   What is read as a message, exactly: `raw` stands at the front of `b` if and only if it is written there with some
   header fields that make up its header, and with a body of the announced length.
   */
  lemma MessageIff(b: seq<byte>, raw: Raw, n: nat, rules: Rules, withFd: bool)
    ensures Decode(b, rules, withFd) == Done(raw, n) <==>
      n <= |b| && raw.head.fixed.bodyLen == |raw.body| && exists version: byte, fs: seq<Field> ::
        HeadIs(raw.head, fs, rules, withFd) && MessageBytes(raw, version, fs) == b[..n]
  {
    hide HeadBytes, HeadIs, DecodeHead;
    if Decode(b, rules, withFd) == Done(raw, n) {
      var version, fs := HeadExact(b, rules, withFd);
      var head := DecodeHead(b, rules, withFd);
      assert b[..n] == b[..head.len] + b[head.len..n];
      assert MessageBytes(raw, version, fs) == b[..n];
    }
    if n <= |b| && raw.head.fixed.bodyLen == |raw.body| {
      if version: byte, fs: seq<Field> :| HeadIs(raw.head, fs, rules, withFd) && MessageBytes(raw, version, fs) == b[..n] {
        var len := |HeadBytes(raw.head.fixed, version, fs)|;
        assert HeadBytes(raw.head.fixed, version, fs) == b[..n][..len] == b[..len];
        HeadBack(b, raw.head, version, fs, rules, withFd);
        assert raw.body == b[..n][len..] == b[len..n];
      }
    }
  }
}
