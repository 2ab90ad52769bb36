/**
  * The primitive encodings of the protobuf wire format: base-128 varints, the fixed-size redundant
  * varint used to backfill nested message lengths, zigzag and little-endian fixed-size integers.
  *
  * Machine words are integers in an explicit range; wrap-around is written out.
  */
module WireFormat {

  type byte = b: int | 0 <= b < 256
  type u32 = x: int | 0 <= x < 0x1_0000_0000
  type u64 = x: int | 0 <= x < 0x1_0000_0000_0000_0000
  type i64 = x: int | -0x8000_0000_0000_0000 <= x < 0x8000_0000_0000_0000

  const U32 := 0x1_0000_0000
  const U64 := 0x1_0000_0000_0000_0000
  const MESSAGE_LENGTH_FIELD_SIZE := 4
  const MAX_MESSAGE_LENGTH := 0x0FFF_FFFF
  const MAX_TAG_ENCODED_SIZE := 5
  const MAX_SIMPLE_FIELD_ENCODED_SIZE := MAX_TAG_ENCODED_SIZE + 10

  // ---------- Shifts and powers ----------

  /** `x << n`, before it is cut to the word size. */
  function Shl(x: nat, n: nat): nat
    decreases n
  {
    if n == 0 then x else Shl(2 * x, n - 1)
  }

  lemma {:induction false} ShlSucc(x: nat, n: nat)
    ensures Shl(x, n + 1) == 2 * Shl(x, n)
    decreases n
  {
    if n > 0 {
      ShlSucc(2 * x, n - 1);
    }
  }

  lemma {:induction false} ShlSeven(x: nat, n: nat)
    ensures Shl(x, n + 7) == 128 * Shl(x, n)
  {
    ShlSucc(x, n);
    ShlSucc(x, n + 1);
    ShlSucc(x, n + 2);
    ShlSucc(x, n + 3);
    ShlSucc(x, n + 4);
    ShlSucc(x, n + 5);
    ShlSucc(x, n + 6);
  }

  /** `x >> n`. */
  function Shr(x: nat, n: nat): nat
    decreases n
  {
    if n == 0 then x else Shr(x / 2, n - 1)
  }

  lemma {:induction false} ShrSucc(x: nat, n: nat)
    ensures Shr(x, n + 1) == Shr(x / 2, n)
  {
  }

  lemma {:induction false} ShrSeven(x: nat, n: nat)
    ensures Shr(x, n + 7) == Shr(x / 128, n)
  {
    ShrSucc(x, n + 6);
    ShrSucc(x / 2, n + 5);
    ShrSucc(x / 4, n + 4);
    ShrSucc(x / 8, n + 3);
    ShrSucc(x / 16, n + 2);
    ShrSucc(x / 32, n + 1);
    ShrSucc(x / 64, n);
  }

  lemma {:induction false} ShrEight(x: nat, n: nat)
    ensures Shr(x, n + 8) == Shr(x / 256, n)
  {
    ShrSeven(x, n + 1);
    ShrSucc(x / 128, n);
    assert x / 128 / 2 == x / 256;
  }

  function Pow128(n: nat): (r: nat)
    ensures r >= 1
  {
    if n == 0 then 1 else 128 * Pow128(n - 1)
  }

  // ---------- Varints ----------

  /** The canonical varint of a value: seven bits per byte, least significant group first. */
  function VarInt(v: nat): (s: seq<byte>)
    ensures |s| >= 1
  {
    if v < 128 then [v] else [v % 128 + 128] + VarInt(v / 128)
  }

  /** The number a string of varint bytes stands for, continuation bits ignored. */
  function Horner(s: seq<byte>): nat {
    if s == [] then 0 else s[0] % 128 + 128 * Horner(s[1..])
  }

  /** Length of the varint at the start of `s`, terminator included; 0 if it does not end within `k` bytes. */
  function TermLen(s: seq<byte>, k: nat): (n: nat)
    ensures n <= |s| && n <= k
    ensures n > 0 ==> s[n - 1] < 128
    ensures forall i :: 0 <= i < n - 1 ==> s[i] >= 128
    ensures n == 0 ==> forall i :: 0 <= i < |s| && i < k ==> s[i] >= 128
  {
    if s == [] || k == 0 then 0
    else if s[0] < 128 then 1
    else
      var r := TermLen(s[1..], k - 1);
      if r == 0 then 0 else r + 1
  }

  datatype ParsedVarInt = NoVarInt | VarIntOf(value: u64, size: nat)

  /** What parsing the bytes up to the end of the buffer yields: at most ten bytes, the value cut to 64 bits. */
  function ParseVarInt(s: seq<byte>): (r: ParsedVarInt)
    ensures r.VarIntOf? ==> 1 <= r.size <= |s| && r.size <= 10
  {
    var n := TermLen(s, 10);
    if n == 0 then NoVarInt else VarIntOf(Horner(s[..n]) % U64, n)
  }

  lemma {:induction false} HornerOfNothing(s: seq<byte>)
    requires s == []
    ensures Horner(s) == 0
  {
  }

  lemma {:induction false} HornerSnoc(s: seq<byte>, b: byte)
    ensures Horner(s + [b]) == Horner(s) + Shl(b % 128, 7 * |s|)
  {
    if s == [] {
      assert ([] + [b])[1..] == [];
    } else {
      HornerSnoc(s[1..], b);
      assert (s + [b])[1..] == s[1..] + [b];
      ShlSeven(b % 128, 7 * (|s| - 1));
    }
  }

  lemma {:induction false} HornerOfVarInt(v: nat)
    ensures Horner(VarInt(v)) == v
    decreases v
  {
    if v >= 128 {
      HornerOfVarInt(v / 128);
      assert VarInt(v)[1..] == VarInt(v / 128);
    } else {
      assert VarInt(v)[1..] == [];
    }
  }

  /** Byte `k` holds the bits from 7 k on, and says whether more follow. */
  lemma {:induction false} VarIntBytes(v: nat, k: nat)
    requires k < |VarInt(v)|
    ensures VarInt(v)[k] == Shr(v, 7 * k) % 128 + if k + 1 < |VarInt(v)| then 128 else 0
    decreases k
  {
    if k == 0 {
      assert Shr(v, 0) == v;
    } else {
      VarIntBytes(v / 128, k - 1);
      ShrSeven(v, 7 * k - 7);
    }
  }

  /** A varint takes at most `n` bytes exactly when its value fits in `7 n` bits. */
  lemma {:induction false} VarIntSize(v: nat, n: nat)
    requires n >= 1
    ensures |VarInt(v)| <= n <==> v < Pow128(n)
    decreases v
  {
    if v >= 128 {
      if n == 1 {
        assert Pow128(1) == 128 * Pow128(0);
      } else {
        VarIntSize(v / 128, n - 1);
      }
    } else if n > 1 {
      assert Pow128(n) == 128 * Pow128(n - 1);
    } else {
      assert Pow128(1) == 128 * Pow128(0);
    }
  }

  /** Sizes that the buffers of the encoder rely on. */
  lemma {:induction false} VarIntBounds(v: nat)
    ensures v < 0x80 ==> |VarInt(v)| == 1
    ensures v < 0x4000 ==> |VarInt(v)| <= 2
    ensures v < 0x20_0000 ==> |VarInt(v)| <= 3
    ensures v < 0x1000_0000 ==> |VarInt(v)| <= 4
    ensures v < U32 ==> |VarInt(v)| <= 5
    ensures v < U64 ==> |VarInt(v)| <= 10
  {
    VarIntSize(v, 2);
    VarIntSize(v, 3);
    VarIntSize(v, 4);
    VarIntSize(v, 5);
    VarIntSize(v, 10);
    Pow128Values();
  }

  lemma {:induction false} Pow128Values()
    ensures Pow128(2) == 0x4000 && Pow128(3) == 0x20_0000 && Pow128(4) == 0x1000_0000
    ensures Pow128(5) == 0x8_0000_0000 && Pow128(9) == 0x8000_0000_0000_0000
    ensures Pow128(10) == 128 * 0x8000_0000_0000_0000
  {
    assert Pow128(1) == 128 * Pow128(0);
    assert Pow128(2) == 128 * Pow128(1);
    assert Pow128(3) == 128 * Pow128(2);
    assert Pow128(4) == 128 * Pow128(3);
    assert Pow128(5) == 128 * Pow128(4);
    assert Pow128(6) == 128 * Pow128(5);
    assert Pow128(7) == 128 * Pow128(6);
    assert Pow128(8) == 128 * Pow128(7);
    assert Pow128(9) == 128 * Pow128(8);
  }

  lemma {:induction false} TermLenOfVarInt(v: nat, rest: seq<byte>, k: nat)
    requires |VarInt(v)| <= k
    ensures TermLen(VarInt(v) + rest, k) == |VarInt(v)|
    decreases v
  {
    if v >= 128 {
      assert (VarInt(v) + rest)[1..] == VarInt(v / 128) + rest;
      TermLenOfVarInt(v / 128, rest, k - 1);
    }
  }

  /** Parsing undoes writing, whatever bytes follow. */
  lemma {:induction false} VarIntRoundTrip(v: u64, rest: seq<byte>)
    ensures ParseVarInt(VarInt(v) + rest) == VarIntOf(v, |VarInt(v)|)
  {
    hide VarInt, TermLen, Horner;
    VarIntBounds(v);
    TermLenOfVarInt(v, rest, 10);
    assert (VarInt(v) + rest)[..|VarInt(v)|] == VarInt(v);
    HornerOfVarInt(v);
  }

  lemma {:induction false} TermLenPrefix(a: seq<byte>, b: seq<byte>, k: nat)
    requires TermLen(a, k) > 0
    ensures TermLen(a + b, k) == TermLen(a, k)
  {
    if a[0] >= 128 {
      assert (a + b)[1..] == a[1..] + b;
      TermLenPrefix(a[1..], b, k - 1);
    }
  }

  /** A varint that parses keeps parsing to the same thing when more bytes follow. */
  lemma {:induction false} ParseVarIntPrefix(a: seq<byte>, b: seq<byte>)
    requires ParseVarInt(a).VarIntOf?
    ensures ParseVarInt(a + b) == ParseVarInt(a)
  {
    TermLenPrefix(a, b, 10);
    var n := TermLen(a, 10);
    assert (a + b)[..n] == a[..n];
  }

  lemma {:induction false} VarIntStep(v: nat)
    ensures VarInt(v) == if v < 128 then [v] else [v % 128 + 128] + VarInt(v / 128)
  {
  }

  lemma {:induction false} Regroup(done: seq<byte>, b: byte, rest: seq<byte>)
    ensures done + ([b] + rest) == (done + [b]) + rest
  {
  }

  /** The writing loop: bytes with the continuation bit while the value has more than seven bits. */
  method WriteVarInt(value: u64, buf: array<byte>, target: nat) returns (next: nat)
    requires target + |VarInt(value)| <= buf.Length
    modifies buf
    ensures next == target + |VarInt(value)| && buf[target..next] == VarInt(value)
    ensures forall i :: 0 <= i < target || next <= i < buf.Length ==> buf[i] == old(buf[i])
  {
    hide VarInt;
    var v := value;
    next := target;
    while v >= 0x80
      invariant target <= next
      invariant next + |VarInt(v)| == target + |VarInt(value)|
      invariant buf[target..next] + VarInt(v) == VarInt(value)
      invariant forall i :: 0 <= i < target || next <= i < buf.Length ==> buf[i] == old(buf[i])
      decreases v
    {
      VarIntStep(v);
      ghost var done, b, rest := buf[target..next], v % 128 + 128, VarInt(v / 128);
      buf[next] := v % 128 + 128;
      next := next + 1;
      assert buf[target..next] == done + [b];
      Regroup(done, b, rest);
      v := v / 128;
    }
    VarIntStep(v);
    ghost var done := buf[target..next];
    buf[next] := v;
    next := next + 1;
    assert buf[target..next] == done + [v];
  }

  lemma {:induction false} HornerStep(done: seq<byte>, b: byte)
    ensures (Horner(done) % U64 + Shl(b % 128, 7 * |done|)) % U64 == Horner(done + [b]) % U64
  {
    HornerSnoc(done, b);
    ModAdd64(Horner(done), Shl(b % 128, 7 * |done|));
  }

  lemma {:induction false} ModAdd64(a: nat, b: nat)
    ensures (a % U64 + b) % U64 == (a + b) % U64
  {
  }

  /** Bitwise or. */
  function Or(a: nat, b: nat): nat {
    if a == 0 then b
    else if b == 0 then a
    else 2 * Or(a / 2, b / 2) + if a % 2 == 1 || b % 2 == 1 then 1 else 0
  }

  /** Bits that do not overlap are added. */
  lemma {:induction false} OrIsSum(a: nat, x: nat, n: nat)
    requires a < Shl(1, n)
    ensures Or(a, Shl(x, n)) == a + Shl(x, n)
    decreases n
  {
    if n > 0 {
      ShlSucc(1, n - 1);
      ShlSucc(x, n - 1);
      OrIsSum(a / 2, x, n - 1);
    }
  }

  /** The weight of the k-th seven-bit group. */
  function Weight(k: nat): nat {
    match k
    case 0 => 1
    case 1 => 0x80
    case 2 => 0x4000
    case 3 => 0x20_0000
    case 4 => 0x1000_0000
    case 5 => 0x8_0000_0000
    case 6 => 0x400_0000_0000
    case 7 => 0x2_0000_0000_0000
    case 8 => 0x100_0000_0000_0000
    case _ => 0x8000_0000_0000_0000
  }

  lemma {:induction false} ShlWeighs(x: nat, k: nat)
    requires k <= 9
    ensures Shl(x, 7 * k) == x * Weight(k)
  {
    hide Shl;
    if k == 0 {
      assert Shl(x, 0) == x by { ShlNothing(x); }
    } else {
      ShlWeighs(x, k - 1);
      ShlSeven(x, 7 * (k - 1));
    }
  }

  lemma {:induction false} ShlNothing(x: nat)
    ensures Shl(x, 0) == x
  {
  }

  /**
    * Or-ing a group in, cut to the word, adds it modulo 2^64: below 2^63 nothing is cut, and of the
    * tenth group only one bit is left.
    */
  lemma {:induction false} OrGroup(value: nat, c: nat, k: nat)
    requires k <= 9 && value < Weight(k) && c < 128
    ensures Or(value, Shl(c, 7 * k) % U64) == (value + Shl(c, 7 * k)) % U64
    ensures k < 9 ==> (value + Shl(c, 7 * k)) % U64 < Weight(k + 1)
  {
    hide Shl, Or;
    ShlWeighs(1, k);
    ShlWeighs(c, k);
    if k < 9 {
      hide Weight;
      NextWeight(k);
      AtMost127(c, Weight(k));
      OrIsSum(value, c, 7 * k);
    } else {
      LastGroup(value, c);
    }
  }

  lemma {:induction false} NextWeight(k: nat)
    requires k < 9
    ensures 128 * Weight(k) == Weight(k + 1) <= 0x8000_0000_0000_0000
  {
  }

  lemma {:induction false} AtMost127(c: nat, w: nat)
    requires c <= 127
    ensures 0 <= c * w <= 127 * w
  {
    assert (127 - c) * w >= 0;
  }

  lemma {:induction false} LastGroup(value: nat, c: nat)
    requires value < 0x8000_0000_0000_0000 && c < 128
    ensures Or(value, Shl(c, 63) % U64) == (value + Shl(c, 63)) % U64
  {
    hide Shl, Or;
    ShlWeighs(1, 9);
    ShlWeighs(c, 9);
    ShlWeighs(c % 2, 9);
    OrIsSum(value, c % 2, 63);
    assert c * 0x8000_0000_0000_0000 == c / 2 * U64 + c % 2 * 0x8000_0000_0000_0000;
  }

  /** The parsing loop. */
  method ParseVarIntLoop(buf: seq<byte>, start: nat) returns (next: nat, value: u64)
    requires start <= |buf|
    ensures var p := ParseVarInt(buf[start..]);
            if p.VarIntOf? then next == start + p.size && value == p.value
            else next == start && value == 0
  {
    hide Horner, Shl, TermLen;
    var pos, shift := start, 0;
    value := 0;
    assert Horner(buf[start..start]) == 0 by { HornerOfNothing(buf[start..start]); }
    while pos < |buf| && shift < 64
      invariant start <= pos <= |buf|
      invariant shift == 7 * (pos - start) && pos - start <= 10
      invariant forall i :: 0 <= i < pos - start ==> buf[start..][i] >= 128
      invariant value == Horner(buf[start..pos]) % U64
      invariant pos - start <= 9 ==> value < Weight(pos - start)
    {
      var cur := buf[pos];
      ghost var done := buf[start..pos];
      assert buf[start..pos + 1] == done + [cur];
      HornerStep(done, cur);
      OrGroup(value, cur % 128, pos - start);
      value := Or(value, Shl(cur % 128, shift) % U64);
      pos := pos + 1;
      if cur < 128 {
        TermLenIs(buf[start..], 10, pos - start);
        assert buf[start..][..pos - start] == buf[start..pos];
        return pos, value;
      }
      assert buf[start..][pos - 1 - start] == cur;
      shift := shift + 7;
    }
    assert TermLen(buf[start..], 10) == 0;
    return start, 0;
  }

  lemma {:induction false} TermLenIs(s: seq<byte>, k: nat, n: nat)
    requires 1 <= n <= |s| && n <= k
    requires s[n - 1] < 128
    requires forall i :: 0 <= i < n - 1 ==> s[i] >= 128
    ensures TermLen(s, k) == n
  {
    if n > 1 {
      assert s[0] >= 128;
      TermLenIs(s[1..], k - 1, n - 1);
    }
  }

  // ---------- The four-byte redundant varint ----------

  /** Four bytes, the first three with the continuation bit; the last is not masked. */
  function RedundantVarInt(v: u32): (s: seq<byte>)
    ensures |s| == MESSAGE_LENGTH_FIELD_SIZE
  {
    [v % 128 + 128, v / 128 % 128 + 128, v / 16384 % 128 + 128, v / 2097152 % 256]
  }

  /** The backfill is read back as the value written exactly when the value is below 2^28. */
  lemma {:induction false} RedundantVarIntRoundTrip(v: u32, rest: seq<byte>)
    ensures ParseVarInt(RedundantVarInt(v) + rest) == VarIntOf(v, 4) <==> v < 0x1000_0000
  {
    hide Horner, TermLen, RedundantVarInt;
    var r := RedundantVarInt(v);
    assert r[0] >= 128 && r[1] >= 128 && r[2] >= 128 && r[3] == v / 2097152 % 256 by { RedundantBytes(v); }
    var s := r + rest;
    if v / 2097152 % 256 < 128 {
      TermLenIs(s, 10, 4);
      assert s[..4] == r;
      RedundantValue(v);
    } else {
      assert s[3] == r[3];
    }
  }

  lemma {:induction false} RedundantBytes(v: u32)
    ensures var r := RedundantVarInt(v);
            r[0] >= 128 && r[1] >= 128 && r[2] >= 128 && r[3] == v / 2097152 % 256
  {
  }

  lemma {:induction false} RedundantValue(v: u32)
    ensures Horner(RedundantVarInt(v)) == v % 0x1000_0000
  {
    hide Horner;
    var r := RedundantVarInt(v);
    HornerOfFour(r[0], r[1], r[2], r[3]);
    SevenBitGroups(v);
  }

  lemma {:induction false} SevenBitGroups(v: u32)
    ensures v % 128 + 128 * (v / 128 % 128) + 16384 * (v / 16384 % 128) + 2097152 * (v / 2097152 % 256 % 128)
            == v % 0x1000_0000
  {
    var a, b, c := v / 128, v / 16384, v / 2097152;
    assert a / 128 == b;
    assert b / 128 == c;
    assert c / 128 == v / 0x1000_0000;
    assert c % 256 % 128 == c % 128;
  }

  lemma {:induction false} HornerOfFour(a: byte, b: byte, c: byte, d: byte)
    ensures Horner([a, b, c, d]) == a % 128 + 128 * (b % 128) + 16384 * (c % 128) + 2097152 * (d % 128)
  {
    assert [a, b, c, d][1..] == [b, c, d];
    assert [b, c, d][1..] == [c, d];
    assert [c, d][1..] == [d];
    assert [d][1..] == [];
    assert Horner([d]) == d % 128;
    assert Horner([c, d]) == c % 128 + 128 * Horner([d]);
    assert Horner([b, c, d]) == b % 128 + 128 * Horner([c, d]);
  }

  method WriteRedundantVarInt(value: u32, buf: array<byte>, at: nat)
    requires at + 4 <= buf.Length
    modifies buf
    ensures buf[at..at + 4] == RedundantVarInt(value)
    ensures forall i :: 0 <= i < at || at + 4 <= i < buf.Length ==> buf[i] == old(buf[i])
  {
    var v := value;
    ghost var r := RedundantVarInt(value);
    var i := 0;
    while i < 4
      invariant 0 <= i <= 4
      invariant v == if i == 0 then value else if i == 1 then value / 128 else if i == 2 then value / 16384
                     else if i == 3 then value / 2097152 else value / 268435456
      invariant forall j :: 0 <= j < i ==> buf[at + j] == r[j]
      invariant forall j :: 0 <= j < at || at + 4 <= j < buf.Length ==> buf[j] == old(buf[j])
    {
      // The low byte with the continuation bit set is the low seven bits plus 128.
      buf[at + i] := if i < 3 then v % 128 + 128 else v % 256;
      v := v / 128;
      i := i + 1;
    }
    assert buf[at..at + 4] == r;
  }

  // ---------- Signed integers ----------

  ghost predicate Word(m: int) { m == U32 || m == U64 }

  /** Two's complement reading of a signed value as an unsigned word of `m` values. */
  function ToUnsigned(v: int, m: int): (u: int)
    requires m > 0
    ensures 0 <= u < m
  {
    v % m
  }

  function ToSigned(u: int, m: int): (v: int) {
    if u < m / 2 then u else u - m
  }

  /** `(v << 1) ^ (v >> (bits - 1))`: the arithmetic shift is all zeros or all ones. */
  function ZigZagEncode(v: int, m: int): (u: int)
    requires Word(m) && -m / 2 <= v < m / 2
  {
    var shifted := 2 * ToUnsigned(v, m) % m;
    if v < 0 then m - 1 - shifted else shifted
  }

  /** `(u >> 1) ^ -(u & 1)`. */
  function ZigZagDecode(u: int, m: int): (v: int)
    requires Word(m) && 0 <= u < m
  {
    ToSigned(if u % 2 == 1 then m - 1 - u / 2 else u / 2, m)
  }

  /** Zigzag numbers 0, -1, 1, -2, ... as 0, 1, 2, 3, ... and the two functions undo each other. */
  lemma {:induction false} ZigZagInverse(v: int, u: int, m: int)
    requires Word(m) && -m / 2 <= v < m / 2 && 0 <= u < m
    ensures ZigZagEncode(v, m) == if v >= 0 then 2 * v else -2 * v - 1
    ensures 0 <= ZigZagEncode(v, m) < m && ZigZagDecode(ZigZagEncode(v, m), m) == v
    ensures -m / 2 <= ZigZagDecode(u, m) < m / 2 && ZigZagEncode(ZigZagDecode(u, m), m) == u
  {
    assert ZigZagEncode(v, m) == if v >= 0 then 2 * v else -2 * v - 1 by {
      ZigZagClosedForm(v, m);
    }
    ZigZagClosedForm(ZigZagDecode(u, m), m);
  }

  lemma {:induction false} ZigZagClosedForm(v: int, m: int)
    requires Word(m) && -m / 2 <= v < m / 2
    ensures ZigZagEncode(v, m) == if v >= 0 then 2 * v else -2 * v - 1
  {
    if m == U32 {
      assert v % U32 == if v >= 0 then v else v + U32;
    } else {
      assert v % U64 == if v >= 0 then v else v + U64;
    }
  }

  // ---------- Fixed-size integers ----------

  /** Little-endian bytes of the low `n` bytes of `v`. */
  function Fixed(v: nat, n: nat): (s: seq<byte>)
    ensures |s| == n
  {
    if n == 0 then [] else [v % 256] + Fixed(v / 256, n - 1)
  }

  function FixedValue(s: seq<byte>): nat {
    if s == [] then 0 else s[0] + 256 * FixedValue(s[1..])
  }

  function Pow256(n: nat): (r: nat)
    ensures r >= 1
  {
    if n == 0 then 1 else 256 * Pow256(n - 1)
  }

  lemma {:induction false} FixedRoundTrip(v: nat, n: nat)
    requires v < Pow256(n)
    ensures FixedValue(Fixed(v, n)) == v
    decreases n
  {
    if n > 0 {
      FixedRoundTrip(v / 256, n - 1);
      assert Fixed(v, n)[1..] == Fixed(v / 256, n - 1);
    }
  }

  /** Byte `k` holds the bits from 8 k on. */
  lemma {:induction false} FixedBytes(v: nat, n: nat, k: nat)
    requires k < n
    ensures Fixed(v, n)[k] == Shr(v, 8 * k) % 256
    decreases k
  {
    if k == 0 {
      assert Shr(v, 0) == v;
    } else {
      hide Shr;
      FixedBytes(v / 256, n - 1, k - 1);
      assert Fixed(v, n)[k] == Fixed(v / 256, n - 1)[k - 1];
      ShrEight(v, 8 * k - 8);
    }
  }

  lemma {:induction false} FixedValueBound(s: seq<byte>)
    ensures FixedValue(s) < Pow256(|s|)
  {
    if s != [] {
      FixedValueBound(s[1..]);
    }
  }

  lemma {:induction false} Pow256Values()
    ensures Pow256(4) == U32 && Pow256(8) == U64
  {
    assert Pow256(1) == 256 * Pow256(0);
    assert Pow256(2) == 256 * Pow256(1);
    assert Pow256(3) == 256 * Pow256(2);
    assert Pow256(4) == 256 * Pow256(3);
    assert Pow256(5) == 256 * Pow256(4);
    assert Pow256(6) == 256 * Pow256(5);
    assert Pow256(7) == 256 * Pow256(6);
  }
}
