/** Arithmetic and result types shared by the sending and the receiving side (src/utils.rs). */
module Utils {

  datatype Option<+T> = None | Some(value: T)

  /** The source's `Result`; usable with `:-`. */
  datatype Result<+T, +E> = Ok(value: T) | Err(error: E) {
    predicate IsFailure() {
      Err?
    }

    function PropagateFailure<U>(): Result<U, E>
      requires Err?
    {
      Err(error)
    }

    function Extract(): T
      requires Ok?
    {
      value
    }
  }

  type byte = x: int | 0 <= x < 256

  const U32_LIMIT := 0x1_0000_0000

  type u32 = x: int | 0 <= x < U32_LIMIT

  /** `NonZeroU32`. */
  type Serial = x: int | 0 < x < U32_LIMIT witness 1

  datatype ByteOrder = LittleEndian | BigEndian

  /** Four bytes as a number, most significant first (`u32::from_be_bytes`). */
  function FromBytes(b0: byte, b1: byte, b2: byte, b3: byte): u32 {
    var n: int := b3; // the sum is over `int`: no partial sum is a byte
    n + 0x100 * (b2 as int) + 0x1_0000 * (b1 as int) + 0x100_0000 * (b0 as int)
  }

  function ParseU32(b: seq<byte>, bo: ByteOrder): u32
    requires |b| == 4
  {
    match bo
    case LittleEndian => FromBytes(b[3], b[2], b[1], b[0])
    case BigEndian => FromBytes(b[0], b[1], b[2], b[3])
  }

  /** A number as four bytes; `as u32` truncation is the caller's business. */
  function EncodeU32(n: u32, bo: ByteOrder): (b: seq<byte>)
    ensures |b| == 4
  {
    var n1 := n / 0x100;
    var n2 := n1 / 0x100;
    var b0, b1, b2, b3 := n % 0x100, n1 % 0x100, n2 % 0x100, n2 / 0x100;
    match bo
    case LittleEndian => [b0, b1, b2, b3]
    case BigEndian => [b3, b2, b1, b0]
  }

  lemma U32RoundTrip(n: u32, bo: ByteOrder)
    ensures ParseU32(EncodeU32(n, bo), bo) == n
  {
  }

  lemma LastDigit(low: byte, high: nat)
    ensures var n := low + 0x100 * high; n % 0x100 == low && n / 0x100 == high
  {
  }

  lemma U32Back(b: seq<byte>, bo: ByteOrder)
    requires |b| == 4
    ensures EncodeU32(ParseU32(b, bo), bo) == b
  {
    var c := if bo.LittleEndian? then b else [b[3], b[2], b[1], b[0]];
    var n2: nat := c[2] + 0x100 * (c[3] as int);
    var n1: nat := c[1] + 0x100 * n2;
    LastDigit(c[2], c[3]);
    LastDigit(c[1], n2);
    LastDigit(c[0], n1);
    assert ParseU32(b, bo) == c[0] + 0x100 * n1;
    BackFrom(c[0] + 0x100 * n1, n1, n2, c, bo);
  }

  lemma BackFrom(n: u32, n1: nat, n2: nat, c: seq<byte>, bo: ByteOrder)
    requires |c| == 4 && n / 0x100 == n1 && n1 / 0x100 == n2
    requires n % 0x100 == c[0] && n1 % 0x100 == c[1] && n2 % 0x100 == c[2] && n2 / 0x100 == c[3]
    ensures EncodeU32(n, bo) == if bo.LittleEndian? then c else [c[3], c[2], c[1], c[0]]
  {
  }

  function AlignNum(num: nat, alignment: nat): nat
    requires alignment > 0
  {
    (alignment - num % alignment) % alignment + num
  }

  lemma MulOrder(a: nat, b: nat, d: nat)
    requires a <= b
    ensures a * d <= b * d
  {
  }

  /** Quotient and remainder are unique. */
  lemma DivModUnique(n: nat, d: nat, q: nat, r: nat)
    requires 0 <= r < d && n == q * d + r
    ensures n / d == q && n % d == r
  {
    var k, s := n / d, n % d;
    QuotientUnique(d, q, r, k, s);
  }

  lemma QuotientUnique(d: nat, q: nat, r: nat, k: nat, s: nat)
    requires 0 <= r < d && 0 <= s < d && q * d + r == k * d + s
    ensures k == q && s == r
  {
    if k < q {
      MulOrder(k + 1, q, d);
    }
    if q < k {
      MulOrder(q + 1, k, d);
    }
  }

  /** `AlignNum` is the least multiple of the alignment that is not below the number. */
  lemma AlignNumIsLeastMultiple(num: nat, alignment: nat, m: nat)
    requires alignment > 0
    ensures AlignNum(num, alignment) % alignment == 0
    ensures num <= AlignNum(num, alignment) < num + alignment
    ensures num <= m && m % alignment == 0 ==> AlignNum(num, alignment) <= m
  {
    var q, r := num / alignment, num % alignment;
    var k, up := AlignedQuotient(num, alignment, q, r);
    DivModUnique(k * alignment, alignment, k, 0);
    if num <= m && m % alignment == 0 {
      NoMultipleBetween(num, alignment, m / alignment, k);
    }
  }

  lemma AlignedQuotient(num: nat, alignment: nat, q: nat, r: nat) returns (k: nat, up: nat)
    requires alignment > 0 && q == num / alignment && r == num % alignment
    ensures AlignNum(num, alignment) == k * alignment == num + up && up < alignment
  {
    if r == 0 {
      k, up := q, 0;
      DivModUnique(alignment, alignment, 1, 0);
    } else {
      k, up := q + 1, alignment - r;
      DivModUnique(alignment - r, alignment, 0, alignment - r);
    }
  }

  lemma NoMultipleBetween(num: nat, alignment: nat, j: nat, k: nat)
    requires num <= j * alignment && k * alignment < num + alignment
    ensures k * alignment <= j * alignment
  {
    if j < k {
      MulOrder(j + 1, k, alignment);
    } else {
      MulOrder(k, j, alignment);
    }
  }

  lemma SubSlice<T>(buf: seq<T>, base: nat, all: seq<T>, from: nat, to: nat)
    requires base + |all| <= |buf| && buf[base..base + |all|] == all && from <= to <= |all|
    ensures buf[base + from..base + to] == all[from..to]
  {
    var a := buf[base + from..base + to];
    assert forall k :: 0 <= k < |a| ==> a[k] == all[from + k];
  }

  /** What is left of the schedule of a socket after one turn. */
  function Later(schedule: seq<nat>): seq<nat> {
    if schedule == [] then [] else schedule[1..]
  }

  /** The socket would block now. */
  predicate Idle(schedule: seq<nat>) {
    schedule == [] || schedule[0] == 0
  }

  /** The socket goes along at least `n` times. */
  predicate Generous(schedule: seq<nat>, n: nat) {
    |schedule| >= n && forall i :: 0 <= i < |schedule| ==> schedule[i] > 0
  }

  lemma PrefixThenRest<T>(a: seq<T>, b: seq<T>, n: nat)
    requires a <= b && n <= |a|
    ensures a[..n] + b[n..] == b
  {
  }

  lemma PrefixSlice<T>(a: seq<T>, b: seq<T>, all: seq<T>)
    requires a + b <= all
    ensures all[|a|..|a + b|] == b
  {
    assert all[..|a + b|] == a + b;
    assert all[|a|..|a + b|] == all[..|a + b|][|a|..];
  }
}
