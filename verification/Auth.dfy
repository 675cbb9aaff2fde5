/** The EXTERNAL mechanism of the handshake, src/conn/mod.rs: the user id in decimal, each digit as two hex digits. */
module Auth {
  import opened Utils

  const ZERO: byte := 0x30
  const THREE: byte := 0x33

  /** The bytes of an ASCII string. */
  function Ascii(s: string): (b: seq<byte>)
    requires forall i :: 0 <= i < |s| ==> s[i] < 128 as char
    ensures |b| == |s| && forall i :: 0 <= i < |s| ==> b[i] == s[i] as int
  {
    if s == "" then [] else [s[0] as int] + Ascii(s[1..])
  }

  const COMMAND: seq<byte> := Ascii("AUTH EXTERNAL ")
  const LINE_END: seq<byte> := Ascii("\r\n")

  function Pow10(k: nat): (p: nat)
    ensures p >= 1
  {
    if k == 0 then 1 else 10 * Pow10(k - 1)
  }

  predicate IsDigit(b: byte) {
    ZERO <= b < ZERO + 10
  }

  /** The number that ASCII digits denote. */
  function Value(ds: seq<byte>): int {
    if ds == [] then 0 else 10 * Value(ds[..|ds| - 1]) + (ds[|ds| - 1] - ZERO)
  }

  /** The ASCII digits are those of `n`, without a leading zero. */
  predicate IsDecimal(ds: seq<byte>, n: int) {
    && ds != [] && (forall d :: d in ds ==> IsDigit(d))
    && Value(ds) == n
    && (|ds| > 1 ==> ds[0] != ZERO)
  }

  lemma {:induction false} ValueBounds(ds: seq<byte>)
    requires ds != [] && (forall d :: d in ds ==> IsDigit(d))
    ensures 0 <= Value(ds)
    ensures ds[0] != ZERO ==> Value(ds) >= Pow10(|ds| - 1)
  {
    if |ds| > 1 {
      var rest := ds[..|ds| - 1];
      assert rest[0] == ds[0];
      ValueBounds(rest);
      assert ds[|ds| - 1] in ds;
    } else {
      assert ds[0] in ds;
    }
  }

  /** There is one decimal form of a number. */
  lemma {:induction false} DecimalUnique(a: seq<byte>, b: seq<byte>, n: int)
    requires IsDecimal(a, n) && IsDecimal(b, n)
    ensures a == b
    decreases |a|
  {
    var a', b' := a[..|a| - 1], b[..|b| - 1];
    assert a == a' + [a[|a| - 1]] && b == b' + [b[|b| - 1]];
    assert IsDigit(a[|a| - 1]) && IsDigit(b[|b| - 1]);
    assert a[|a| - 1] == b[|b| - 1] && Value(a') == Value(b');
    if a' != [] { ValueBounds(a'); assert a'[0] == a[0]; }
    if b' != [] { ValueBounds(b'); assert b'[0] == b[0]; }
    if a' != [] && b' != [] { DecimalUnique(a', b', Value(a')); }
  }

  // ----- Hex -----

  function HexDigit(v: int): byte
    requires 0 <= v < 16
  {
    if v < 10 then ZERO + v else 97 + v - 10
  }

  function Hex(bs: seq<byte>): seq<byte> {
    if bs == [] then [] else Hex(bs[..|bs| - 1]) + [HexDigit(bs[|bs| - 1] / 16), HexDigit(bs[|bs| - 1] % 16)]
  }

  function HexValue(b: byte): Option<int> {
    if ZERO <= b < ZERO + 10 then Some(b - ZERO) else if 97 <= b < 103 then Some(b - 97 + 10) else None
  }

  function UnHex(hs: seq<byte>): Option<seq<byte>>
    decreases |hs|
  {
    if hs == [] then Some([])
    else if |hs| == 1 then None
    else
      var n := |hs| - 2;
      var rest, hi, lo := UnHex(hs[..n]), HexValue(hs[n]), HexValue(hs[n + 1]);
      if rest.Some? && hi.Some? && lo.Some? then Some(rest.value + [16 * hi.value + lo.value]) else None
  }

  lemma UnHexLast(hs: seq<byte>)
    requires |hs| >= 2
    ensures var n := |hs| - 2;
      var rest, hi, lo := UnHex(hs[..n]), HexValue(hs[n]), HexValue(hs[n + 1]);
      UnHex(hs) == if rest.Some? && hi.Some? && lo.Some? then Some(rest.value + [16 * hi.value + lo.value]) else None
  {
  }

  lemma UnHexNext(hs: seq<byte>, hi: byte, lo: byte)
    requires UnHex(hs).Some? && HexValue(hi).Some? && HexValue(lo).Some?
    requires 16 * HexValue(hi).value + HexValue(lo).value < 256
    ensures UnHex(hs + [hi, lo]) == Some(UnHex(hs).value + [16 * HexValue(hi).value + HexValue(lo).value])
  {
    hide UnHex, HexValue;
    var all := hs + [hi, lo];
    assert all[..|all| - 2] == hs && all[|all| - 2] == hi && all[|all| - 1] == lo;
    UnHexLast(all);
  }

  lemma HexNext(bs: seq<byte>, b: byte)
    requires UnHex(Hex(bs)) == Some(bs)
    ensures UnHex(Hex(bs + [b])) == Some(bs + [b])
  {
    hide UnHex;
    assert (bs + [b])[..|bs|] == bs;
    UnHexNext(Hex(bs), HexDigit(b / 16), HexDigit(b % 16));
  }

  lemma {:induction false} HexRoundTrip(bs: seq<byte>)
    ensures UnHex(Hex(bs)) == Some(bs)
  {
    if bs != [] {
      var n := |bs| - 1;
      HexRoundTrip(bs[..n]);
      HexNext(bs[..n], bs[n]);
      assert bs == bs[..n] + [bs[n]];
    }
  }

  // ----- The command -----

  /** What the bus reads from the line: the number whose decimal form is sent in hex. */
  function DecodeLine(line: seq<byte>): Option<int> {
    var n := |COMMAND|;
    if |line| < n + 2 || line[..n] != COMMAND || line[|line| - 2..] != LINE_END then None
    else
      var ds := UnHex(line[n..|line| - 2]);
      if ds.Some? then Some(Value(ds.value)) else None
  }

  lemma DecodeEncoded(ds: seq<byte>)
    ensures DecodeLine(COMMAND + Hex(ds) + LINE_END) == Some(Value(ds))
  {
    hide Ascii, UnHex, Hex, Value;
    var line := COMMAND + Hex(ds) + LINE_END;
    assert line[..|COMMAND|] == COMMAND && line[|line| - 2..] == LINE_END;
    assert line[|COMMAND|..|line| - 2] == Hex(ds);
    HexRoundTrip(ds);
  }

  lemma HexOfDigit(ds: seq<byte>, d: int)
    requires 0 <= d < 10
    ensures Hex(ds + [ZERO + d]) == Hex(ds) + [THREE, ZERO + d]
    ensures Value(ds + [ZERO + d]) == 10 * Value(ds) + d
  {
    assert (ds + [ZERO + d])[..|ds|] == ds;
  }

  lemma NextDigit(v: int, order: int, pid: int, uid: int)
    requires order > 0 && v * (10 * order) + pid == uid && 0 <= pid < 10 * order
    ensures var d := pid / order;
      0 <= d < 10 && 0 <= pid - d * order < order && (10 * v + d) * order + (pid - d * order) == uid
  {
    assert (10 * v) * order == v * (10 * order);
  }

  lemma Pow10Bound(k: nat)
    requires k <= 9
    ensures Pow10(k) <= 1_000_000_000 && (k < 9 ==> 10 * Pow10(k) <= 1_000_000_000)
    ensures Pow10(9) == 1_000_000_000
  {
    Pow10Scale(k, 9 - k);
    assert Pow10(3) == 1000;
    Pow10Scale(3, 3);
    Pow10Scale(6, 3);
    if k < 9 { Pow10Scale(k + 1, 8 - k); }
  }

  lemma {:induction false} Pow10Scale(a: nat, b: nat)
    ensures Pow10(a + b) == Pow10(a) * Pow10(b) >= Pow10(a)
  {
    if b > 0 {
      Pow10Scale(a, b - 1);
    }
  }

  /** The largest power of ten that fits; `None` where `order * 10` overflows u32. */
  method LargestOrder(uid: u32) returns (order: Option<u32>, ghost k: nat)
    ensures order.Some? <==> uid < 1_000_000_000
    ensures order.Some? ==> order.value == Pow10(k) && uid < 10 * order.value && (order.value <= uid || order.value == 1)
  {
    var o: u32 := 1;
    k := 0;
    while true
      invariant k <= 9 && o == Pow10(k) && (o <= uid || o == 1)
      decreases 9 - k
    {
      Pow10Bound(k);
      if o * 10 >= U32_LIMIT { return None, k; }
      var next := o * 10;
      if uid / next == 0 { return Some(o), k; }
      o, k := next, k + 1;
      Pow10Bound(k);
    }
  }

  /** `do_external_auth`: what is written to the bus. */
  method ExternalAuth(uid: u32) returns (line: Option<seq<byte>>)
    ensures line.Some? <==> uid < 1_000_000_000
    ensures line.Some? ==> exists ds :: IsDecimal(ds, uid) && line.value == COMMAND + Hex(ds) + LINE_END
    ensures line.Some? ==> DecodeLine(line.value) == Some(uid)
  {
    hide DecodeLine, UnHex, Hex, Value, Ascii;
    var o, k := LargestOrder(uid);
    if o.None? { return None; }
    var order: u32, pid: u32, toWrite := o.value, uid, COMMAND;
    ghost var ds: seq<byte> := [];
    assert Value(ds) == 0 && Hex(ds) == [] by { EmptyForms(); }
    while order > 0
      invariant order > 0 ==> order == Pow10(k) && Value(ds) * (10 * order) + pid == uid && 0 <= pid < 10 * order
      invariant order == 0 ==> ds != [] && Value(ds) == uid
      invariant toWrite == COMMAND + Hex(ds)
      invariant forall d :: d in ds ==> IsDigit(d)
      invariant ds == [] ==> pid == uid && (order <= uid || order == 1)
      invariant ds != [] && ds[0] == ZERO ==> order == 0 && |ds| == 1
    {
      var digit := pid / order;
      NextDigit(Value(ds), order, pid, uid);
      HexOfDigit(ds, digit);
      toWrite := toWrite + [THREE] + [ZERO + digit];
      ds := ds + [ZERO + digit];
      pid := pid - digit * order;
      if k > 0 { k := k - 1; }
      order := order / 10;
    }
    DecodeEncoded(ds);
    assert IsDecimal(ds, uid);
    assert toWrite + LINE_END == COMMAND + Hex(ds) + LINE_END;
    return Some(toWrite + LINE_END);
  }

  lemma EmptyForms()
    ensures Value([]) == 0 && Hex([]) == []
  {
  }
}
