/** The byte helpers of src/io.rs: NUL-terminated strings and the base-128
    "compressed integer", each as a specification function, the loop that
    implements it, and the facts that tie writer and reader together.

    Strings are byte strings: the UTF-8 check the source applies when it turns
    the bytes into a `String` is not part of this model. */
module Io {
  import opened Stream

  // ---------------------------------------------------------------------------
  // NUL-terminated strings

  /** write_cstring: the bytes of `s`, then one 0x00. */
  function EncodeCString(s: seq<byte>): (bs: seq<byte>)
    ensures |bs| == |s| + 1 && bs[|s|] == 0
  {
    s + [0]
  }

  /** Position of the first 0x00 at or after `p`, or the end of the stream. */
  function NulIndex(data: seq<byte>, p: nat): (e: nat)
    requires p <= |data|
    ensures p <= e <= |data|
    ensures e < |data| ==> data[e] == 0
    decreases |data| - p
  {
    if p == |data| || data[p] == 0 then p else NulIndex(data, p + 1)
  }

  /** No 0x00 lies between `p` and the NUL found, and a 0x00 at `p` is found at once. */
  lemma {:induction false} NulIndexScan(data: seq<byte>, p: nat)
    requires p <= |data|
    ensures forall k :: p <= k < NulIndex(data, p) ==> data[k] != 0
    ensures (p < |data| && data[p] == 0) <==> (NulIndex(data, p) == p && p < |data|)
    decreases |data| - p
  {
    if p < |data| && data[p] != 0 {
      NulIndexScan(data, p + 1);
    }
  }

  /** The first 0x00 at or after `p` is the one at `e` when none comes before it. */
  lemma {:induction false} NulIndexAt(data: seq<byte>, p: nat, e: nat)
    requires p <= e < |data| && data[e] == 0
    requires forall k :: p <= k < e ==> data[k] != 0
    ensures NulIndex(data, p) == e
    decreases e - p
  {
    if p < e {
      NulIndexAt(data, p + 1, e);
    }
  }

  /** read_cstring: the bytes before the first 0x00, with the 0x00 consumed;
      a stream that ends first yields everything that is left. It never fails. */
  function ParseCString(data: seq<byte>, p: nat): (r: Parsed<seq<byte>>)
    requires p <= |data|
    ensures r.Done? && p <= r.next <= |data|
  {
    var e := NulIndex(data, p);
    Done(data[p..e], if e < |data| then e + 1 else e)
  }

  /** What read_cstring returns: the NUL-free bytes from `p` on, stopped by the first
      0x00, which is consumed, or by the end of the stream. */
  lemma CStringContents(data: seq<byte>, p: nat)
    requires p <= |data|
    ensures var r := ParseCString(data, p);
      && p + |r.value| <= |data| && r.value == data[p..p + |r.value|] && 0 !in r.value
      && (p + |r.value| < |data| ==> data[p + |r.value|] == 0 && r.next == p + |r.value| + 1)
      && (p + |r.value| == |data| ==> r.next == |data|)
  {
    NulIndexScan(data, p);
  }

  /** The loop of read_cstring: push bytes until a 0x00 or the end of the stream. */
  method ReadCString(data: seq<byte>, pos: nat) returns (r: Parsed<seq<byte>>)
    requires pos <= |data|
    ensures r == ParseCString(data, pos)
  {
    var bytes: seq<byte> := [];
    var p := pos;
    while p < |data|
      invariant pos <= p <= |data|
      invariant bytes == data[pos..p]
      invariant NulIndex(data, pos) == NulIndex(data, p)
    {
      var b := data[p];
      p := p + 1;
      if b == 0 {
        return Done(bytes, p);
      }
      bytes := bytes + [b];
    }
    return Done(bytes, p);
  }

  /** What write_cstring wrote, read_cstring reads back, and nothing more. */
  lemma CStringRoundTrip(data: seq<byte>, p: nat, s: seq<byte>)
    requires 0 !in s
    requires At(data, p, EncodeCString(s))
    ensures ParseCString(data, p) == Done(s, p + |s| + 1)
  {
    AtConcat(data, p, s, [0]);
    assert forall k :: p <= k < p + |s| ==> data[k] == s[k - p];
    assert data[p + |s|] == 0;
    NulIndexAt(data, p, p + |s|);
  }

  lemma CStringExample()
    ensures EncodeCString([0x61, 0x62, 0x63]) == [0x61, 0x62, 0x63, 0x00]
    ensures ParseCString([0x61, 0x62, 0x63, 0x00], 0) == Done([0x61, 0x62, 0x63], 4)
  {
    CStringRoundTrip([0x61, 0x62, 0x63, 0x00], 0, [0x61, 0x62, 0x63]);
  }

  // ---------------------------------------------------------------------------
  // Compressed integers: 7-bit groups, low group first, bit 0x80 = "more follows"

  /** `y << (7 * i)` on unbounded integers: `y` moved up by `i` groups. */
  function ShiftGroups(y: nat, i: nat): nat {
    if i == 0 then y else 0x80 * ShiftGroups(y, i - 1)
  }

  lemma {:induction false} ShiftAtLeast(y: nat, i: nat)
    ensures y <= ShiftGroups(y, i)
  {
    if i > 0 {
      ShiftAtLeast(y, i - 1);
    }
  }

  lemma {:induction false} ShiftAdd(a: nat, b: nat, i: nat)
    ensures ShiftGroups(a + b, i) == ShiftGroups(a, i) + ShiftGroups(b, i)
  {
    if i > 0 {
      ShiftAdd(a, b, i - 1);
    }
  }

  lemma ShiftMono(a: nat, b: nat, i: nat)
    requires a <= b
    ensures ShiftGroups(a, i) <= ShiftGroups(b, i)
  {
    ShiftAdd(a, b - a, i);
  }

  /** Moving up by one group is multiplying by 0x80 first. */
  lemma {:induction false} ShiftNext(y: nat, i: nat)
    ensures ShiftGroups(0x80 * y, i) == ShiftGroups(y, i + 1)
  {
    if i > 0 {
      ShiftNext(y, i - 1);
    }
  }

  /** A 7-bit group added at place `i` to bits below it stays below place `i + 1`. */
  lemma GroupFits(a: nat, g: nat, i: nat)
    requires g < 0x80 && a < ShiftGroups(1, i)
    ensures a + ShiftGroups(g, i) < ShiftGroups(1, i + 1)
  {
    ShiftMono(g, 0x7f, i);
    ShiftAdd(0x7f, 1, i);
    ShiftNext(1, i);
    ShiftAtLeast(1, i);
  }

  /** A number seen at place `i` is its low group there plus the rest one place up. */
  lemma SplitLowGroup(y: nat, i: nat)
    ensures ShiftGroups(y, i) == ShiftGroups(y % 0x80, i) + ShiftGroups(y / 0x80, i + 1)
  {
    ShiftAdd(y % 0x80, 0x80 * (y / 0x80), i);
    ShiftNext(y / 0x80, i);
  }

  /** The fifth group, the last one a u32 reaches, sits at bit 28. */
  lemma {:induction false} PlaceBound(i: nat)
    requires i <= 4
    ensures 1 <= ShiftGroups(1, i) <= 0x1000_0000
  {
    if i > 0 {
      PlaceBound(i - 1);
    }
  }

  lemma ShiftFour(y: nat)
    ensures ShiftGroups(y, 4) == y * 0x1000_0000
  {
    assert ShiftGroups(y, 1) == 0x80 * y;
    assert ShiftGroups(y, 2) == 0x80 * ShiftGroups(y, 1);
    assert ShiftGroups(y, 3) == 0x80 * ShiftGroups(y, 2);
    assert ShiftGroups(y, 4) == 0x80 * ShiftGroups(y, 3);
  }

  /** write_compressed_int: while more than 7 bits remain, emit the low 7 with
      0x80 set (`0x80 | temp & 0x7f`) and drop them (`temp &= !0x7f; temp >>= 7`),
      then emit the rest. */
  function EncodeVarint(x: u32): (bs: seq<byte>)
    ensures 1 <= |bs|
    decreases x
  {
    if x <= 0x7f then [x] else [0x80 + x % 0x80] + EncodeVarint(x / 0x80)
  }

  /** The number whose base-128 digits, low digit first, are the low 7 bits of `bs`. */
  function GroupsValue(bs: seq<byte>): nat {
    if bs == [] then 0 else bs[0] % 0x80 + 0x80 * GroupsValue(bs[1..])
  }

  /** Every byte but the last carries the continuation bit 0x80; the last does not. */
  lemma {:induction false} VarintShape(x: u32)
    ensures EncodeVarint(x)[|EncodeVarint(x)| - 1] < 0x80
    ensures forall k :: 0 <= k < |EncodeVarint(x)| - 1 ==> EncodeVarint(x)[k] >= 0x80
    decreases x
  {
    if x > 0x7f {
      var bs := EncodeVarint(x);
      var rest := EncodeVarint(x / 0x80);
      assert bs == [0x80 + x % 0x80] + rest;
      VarintShape(x / 0x80);
      forall k | 1 <= k < |bs| - 1
        ensures bs[k] >= 0x80
      {
        assert bs[k] == rest[k - 1];
      }
    }
  }

  /** The groups of EncodeVarint(x), low group first, spell x in base 128. */
  lemma {:induction false} VarintGroupsSpellValue(x: u32)
    ensures GroupsValue(EncodeVarint(x)) == x
    decreases x
  {
    if x > 0x7f {
      var bs := EncodeVarint(x);
      assert bs[1..] == EncodeVarint(x / 0x80);
      VarintGroupsSpellValue(x / 0x80);
    }
  }

  /** A u32 needs at most five groups: the fifth holds its top four bits. */
  lemma {:induction false} VarintLength(x: u32, k: nat)
    requires k <= 4 && x < ShiftGroups(1, k + 1)
    ensures |EncodeVarint(x)| <= k + 1
  {
    if x > 0x7f {
      VarintLength(x / 0x80, k - 1);
    }
  }

  lemma VarintAtMostFiveBytes(x: u32)
    ensures 1 <= |EncodeVarint(x)| <= 5
  {
    VarintLength(x, 4);
  }

  /** The loop of write_compressed_int; `n` is the byte count it returns. */
  method WriteCompressedInt(x: u32) returns (out: seq<byte>, n: nat)
    ensures out == EncodeVarint(x) && n == |out|
  {
    var temp := x;
    var len := 0;
    out := [];
    while temp > 0x7f
      invariant out + EncodeVarint(temp) == EncodeVarint(x)
      invariant len == |out|
    {
      assert EncodeVarint(temp) == [0x80 + temp % 0x80] + EncodeVarint(temp / 0x80);
      assert out + EncodeVarint(temp) == (out + [0x80 + temp % 0x80]) + EncodeVarint(temp / 0x80);
      out := out + [0x80 + temp % 0x80];
      len := len + 1;
      temp := temp / 0x80;
    }
    out := out + [temp];
    n := len + 1;
  }

  /** compressed_int_len: the same loop, counting instead of writing. */
  method CompressedIntLen(x: u32) returns (n: nat)
    ensures n == |EncodeVarint(x)|
    ensures 1 <= n <= 5
  {
    var temp := x;
    var len := 0;
    while temp > 0x7f
      invariant len + |EncodeVarint(temp)| == |EncodeVarint(x)|
    {
      len := len + 1;
      temp := temp / 0x80;
    }
    n := len + 1;
    VarintAtMostFiveBytes(x);
  }

  /** `acc | ((b & 0x7f) << (7 * i))` on u32, where `acc` holds only bits below 7 * i:
      the bit groups do not overlap, so the OR is a sum; at the fifth byte the
      shift by 28 keeps only the low four of the seven bits. */
  function OrGroup(acc: u32, b: byte, i: nat): (r: u32)
    requires i <= 4 && acc < ShiftGroups(1, i)
    ensures i < 4 ==> r == acc + ShiftGroups(b % 0x80, i) < ShiftGroups(1, i + 1)
  {
    if i < 4 then
      GroupFits(acc, b % 0x80, i);
      PlaceBound(i + 1);
      acc + ShiftGroups(b % 0x80, i)
    else
      assert ShiftGroups(1, 4) == 0x1000_0000;
      acc + (b % 0x10) * 0x1000_0000
  }

  /** OrGroup is the u32 sum of `acc` and the shifted group: the bits that the
      shift pushes past bit 31 are lost. */
  lemma OrGroupWraps(acc: u32, b: byte, i: nat)
    requires i <= 4 && acc < ShiftGroups(1, i)
    ensures OrGroup(acc, b, i) == (acc + ShiftGroups(b % 0x80, i)) % U32_LIMIT
  {
    var g := b % 0x80;
    if i == 4 {
      ShiftFour(g);
      assert ShiftGroups(1, 4) == 0x1000_0000;
      TopGroupWraps(acc, g);
      LowNibble(b);
    } else {
      PlaceBound(i + 1);
    }
  }

  /** The low four bits of a byte are those of its low seven. */
  lemma LowNibble(b: byte)
    ensures (b % 0x80) % 0x10 == b % 0x10
  {
    var g := b % 0x80;
    assert b == 0x10 * (8 * (b / 0x80) + g / 0x10) + g % 0x10;
    ModUnique(b, 0x10, 8 * (b / 0x80) + g / 0x10, g % 0x10);
  }

  /** Shifting a 7-bit group by 28 bits on u32 keeps its low four bits. */
  lemma TopGroupWraps(acc: nat, g: nat)
    requires acc < 0x1000_0000 && g < 0x80
    ensures (acc + g * 0x1000_0000) % U32_LIMIT == acc + (g % 0x10) * 0x1000_0000
  {
    var low := acc + (g % 0x10) * 0x1000_0000;
    assert g == g % 0x10 + 0x10 * (g / 0x10);
    assert acc + g * 0x1000_0000 == low + (g / 0x10) * U32_LIMIT;
    assert 0 <= low < U32_LIMIT;
  }

  // ---------------------------------------------------------------------------
  // The source's bit operators on u32, bit by bit, and why OrGroup is them

  /** `a | b`: a bit is set when it is set in `a` or in `b`. */
  function BitOr(a: nat, b: nat): nat
    decreases a + b
  {
    if a == 0 then b
    else if b == 0 then a
    else 2 * BitOr(a / 2, b / 2) + (if a % 2 == 1 || b % 2 == 1 then 1 else 0)
  }

  /** `a & b`: a bit is set when it is set in both. */
  function BitAnd(a: nat, b: nat): nat
    decreases a + b
  {
    if a == 0 || b == 0 then 0
    else 2 * BitAnd(a / 2, b / 2) + (if a % 2 == 1 && b % 2 == 1 then 1 else 0)
  }

  function Pow2(k: nat): (r: nat)
    ensures 1 <= r
  {
    if k == 0 then 1 else 2 * Pow2(k - 1)
  }

  /** `x << k` on u32, for `k < 32`: the bits moved past bit 31 are lost. */
  function Shl32(x: nat, k: nat): nat {
    (x * Pow2(k)) % U32_LIMIT
  }

  lemma {:induction false} Pow2Add(a: nat, b: nat)
    ensures Pow2(a + b) == Pow2(a) * Pow2(b)
  {
    if a > 0 {
      Pow2Add(a - 1, b);
    }
  }

  /** Moving up by `i` groups is shifting left by `7 * i` bits. */
  lemma {:induction false} ShiftGroupsIsShift(y: nat, i: nat)
    ensures ShiftGroups(y, i) == y * Pow2(7 * i)
  {
    if i > 0 {
      ShiftGroupsIsShift(y, i - 1);
      Pow2Add(7, 7 * (i - 1));
      assert Pow2(7) == 0x80;
    }
  }

  /** `d * c` is at least one `d` above `d * a` when `a < c`. */
  lemma MulGap(d: nat, a: nat, c: nat)
    ensures a < c ==> d * c >= d * a + d
  {
    if a < c {
      assert d * c == d * a + d * (c - a);
      assert d * (c - a) == d * (c - a - 1) + d;
    }
  }

  /** The remainder is the `r` of any `b == d * q + r` with `0 <= r < d`. */
  lemma ModUnique(b: nat, d: nat, q: nat, r: nat)
    requires 0 <= r < d && b == d * q + r
    ensures b % d == r
  {
    assert b == d * (b / d) + b % d;
    MulGap(d, q, b / d);
    MulGap(d, b / d, q);
  }

  /** The low bits of `b` below `2 * m` are its lowest bit and the low bits of `b / 2`. */
  lemma HalfMod(b: nat, m: nat)
    requires m >= 1
    ensures b % (2 * m) == 2 * ((b / 2) % m) + b % 2
  {
    var q := (b / 2) / m;
    var r := (b / 2) % m;
    assert b / 2 == m * q + r;
    assert b == (2 * m) * q + (2 * r + b % 2);
    ModUnique(b, 2 * m, q, 2 * r + b % 2);
  }

  /** Or-ing a number into bits that are all clear adds it. */
  lemma {:induction false} BitOrDisjoint(a: nat, y: nat, k: nat)
    requires a < Pow2(k)
    ensures BitOr(a, y * Pow2(k)) == a + y * Pow2(k)
  {
    if k > 0 && a != 0 && y != 0 {
      var half := y * Pow2(k - 1);
      assert y * Pow2(k) == 2 * half;
      BitOrDisjoint(a / 2, y, k - 1);
    }
  }

  /** And-ing with `k` one bits keeps the low `k` bits. */
  lemma {:induction false} BitAndLow(b: nat, k: nat)
    ensures BitAnd(b, Pow2(k) - 1) == b % Pow2(k)
  {
    if k == 0 {
      ModUnique(b, 1, b, 0);
    } else if b == 0 {
      ModUnique(0, Pow2(k), 0, 0);
    } else {
      var half := Pow2(k - 1);
      var m := 2 * half - 1;
      assert Pow2(k) == 2 * half;
      assert m % 2 == 1 && m / 2 == half - 1;
      assert BitAnd(b, m) == 2 * BitAnd(b / 2, half - 1) + b % 2;
      BitAndLow(b / 2, k - 1);
      assert BitAnd(b / 2, half - 1) == (b / 2) % half;
      HalfMod(b, half);
      assert BitAnd(b, m) == b % (2 * half);
    }
  }

  /** `b & 0x7f` is the low 7-bit group of `b`. */
  lemma MaskLowGroup(b: nat)
    ensures BitAnd(b, 0x7f) == b % 0x80
  {
    BitAndLow(b, 7);
    assert Pow2(7) == 0x80;
  }

  /** Below the fifth byte the shifted group fits in u32 and lands above `acc`. */
  lemma LowGroupOr(acc: nat, g: nat, i: nat)
    requires i < 4 && g < 0x80 && acc < ShiftGroups(1, i)
    ensures BitOr(acc, Shl32(g, 7 * i)) == acc + ShiftGroups(g, i)
  {
    var shifted := g * Pow2(7 * i);
    ShiftGroupsIsShift(1, i);
    ShiftGroupsIsShift(g, i);
    GroupFits(0, g, i);
    PlaceBound(i + 1);
    assert shifted == ShiftGroups(g, i) < U32_LIMIT;
    ModUnique(shifted, U32_LIMIT, 0, shifted);
    BitOrDisjoint(acc, g, 7 * i);
  }

  /** At the fifth byte the shift by 28 keeps four bits of the group, above `acc`. */
  lemma TopGroupOr(acc: nat, g: nat)
    requires acc < 0x1000_0000 && g < 0x80
    ensures BitOr(acc, Shl32(g, 28)) == acc + (g % 0x10) * 0x1000_0000
  {
    ShiftGroupsIsShift(1, 4);
    ShiftFour(1);
    TopGroupWraps(0, g);
    BitOrDisjoint(acc, g % 0x10, 28);
  }

  /** `result | ((b & 0x7f) << (i * 7))` on u32, where `result` holds only bits below
      `7 * i`, is what OrGroup computes. */
  lemma OrGroupIsOr(acc: u32, b: byte, i: nat)
    requires i <= 4 && acc < ShiftGroups(1, i)
    ensures OrGroup(acc, b, i) == BitOr(acc, Shl32(BitAnd(b, 0x7f), 7 * i))
  {
    var g := b % 0x80;
    MaskLowGroup(b);
    assert BitAnd(b, 0x7f) == g;
    if i < 4 {
      LowGroupOr(acc, g, i);
      assert OrGroup(acc, b, i) == acc + ShiftGroups(g, i);
    } else {
      TopGroupIsOr(acc, b);
    }
  }

  /** The fifth byte: OrGroup is the OR of `acc` with the group shifted by 28 on u32. */
  lemma TopGroupIsOr(acc: u32, b: byte)
    requires acc < ShiftGroups(1, 4)
    ensures OrGroup(acc, b, 4) == BitOr(acc, Shl32(b % 0x80, 28))
  {
    var g := b % 0x80;
    ShiftFour(1);
    TopGroupOr(acc, g);
    LowNibble(b);
    assert OrGroup(acc, b, 4) == acc + (b % 0x10) * 0x1000_0000;
  }

  /** The definitions on small values: 0b1100 OR 0b1010, 0b1100 AND 0b1010, and
      3 shifted left by 7. */
  lemma BitExamples()
    ensures BitOr(0xC, 0xA) == 0xE && BitAnd(0xC, 0xA) == 0x8
    ensures Shl32(3, 7) == 0x180
  {
    assert BitOr(1, 1) == 2 * BitOr(0, 0) + 1 == 1;
    assert BitOr(3, 2) == 2 * BitOr(1, 1) + 1 == 3;
    assert BitOr(6, 5) == 2 * BitOr(3, 2) + 1 == 7;
    assert BitAnd(1, 1) == 1;
    assert BitAnd(3, 2) == 2 * BitAnd(1, 1) == 2;
    assert BitAnd(6, 5) == 2 * BitAnd(3, 2) == 4;
    assert Pow2(7) == 0x80;
  }

  /** write_compressed_int's `0x80 | temp & 0x7f`: the low group with 0x80 set. */
  lemma ContinuationByte(x: u32)
    ensures BitOr(0x80, BitAnd(x, 0x7f)) == 0x80 + x % 0x80
  {
    BitAndLow(x, 7);
    assert Pow2(7) == 0x80;
    BitOrDisjoint(x % 0x80, 1, 7);
    BitOrComm(x % 0x80, 0x80);
  }

  lemma {:induction false} BitOrComm(a: nat, b: nat)
    ensures BitOr(a, b) == BitOr(b, a)
    decreases a + b
  {
    if a != 0 && b != 0 {
      BitOrComm(a / 2, b / 2);
    }
  }

  /** The loop of read_compressed_int from its `i`-th byte on, with `acc` so far.
      The end of the stream ends the loop without an error. Reaching a sixth byte
      would shift by 35 bits, which overflows the u32 shift: here that is an error. */
  function ParseVarintFrom(data: seq<byte>, p: nat, i: nat, acc: u32): (r: Parsed<u32>)
    requires p <= |data| && i <= 5 && acc < ShiftGroups(1, i)
    ensures r.Done? ==> p <= r.next <= |data|
    ensures r.Fail? ==> r.error == VarintOverflow
    decreases |data| - p
  {
    if p == |data| then Done(acc, p)
    else if i == 5 then Fail(VarintOverflow)
    else
      var b := data[p];
      var acc' := OrGroup(acc, b, i);
      if b < 0x80 then Done(acc', p + 1)
      else ParseVarintFrom(data, p + 1, i + 1, acc')
  }

  /** Where the loop stops: every byte it consumed but the last carries 0x80, the
      last one does not unless the stream ended, and it fails exactly when five
      continuation bytes are followed by a sixth byte. */
  lemma {:induction false} VarintScan(data: seq<byte>, p: nat, i: nat, acc: u32)
    requires p <= |data| && i <= 5 && acc < ShiftGroups(1, i)
    ensures var r := ParseVarintFrom(data, p, i, acc);
      && (r.Done? ==> forall k :: p <= k < r.next - 1 ==> data[k] >= 0x80)
      && (r.Done? && r.next < |data| ==> p < r.next && data[r.next - 1] < 0x80)
      && (r.Fail? <==> p + 5 - i < |data| && forall k :: p <= k < p + 5 - i ==> data[k] >= 0x80)
    decreases |data| - p
  {
    if p < |data| && i < 5 && data[p] >= 0x80 {
      var acc' := OrGroup(acc, data[p], i);
      VarintScan(data, p + 1, i + 1, acc');
    }
  }

  /** read_compressed_int: it stops right after the first byte below 0x80, or at the
      end of the stream, and fails only on a sixth byte after five continuation bytes. */
  function ParseVarint(data: seq<byte>, p: nat): (r: Parsed<u32>)
    requires p <= |data|
    ensures r.Done? ==> p <= r.next <= |data|
    ensures r.Fail? ==> r.error == VarintOverflow
  {
    ParseVarintFrom(data, p, 0, 0)
  }

  /** The loop of read_compressed_int over the stream's bytes. */
  method ReadCompressedInt(data: seq<byte>, pos: nat) returns (r: Parsed<u32>)
    requires pos <= |data|
    ensures r == ParseVarint(data, pos)
  {
    var i := 0;
    var result: u32 := 0;
    var p := pos;
    while p < |data|
      invariant pos <= p <= |data| && i <= 5 && result < ShiftGroups(1, i)
      invariant ParseVarint(data, pos) == ParseVarintFrom(data, p, i, result)
      decreases |data| - p
    {
      if i == 5 {
        return Fail(VarintOverflow);
      }
      var b := data[p];
      p := p + 1;
      result := OrGroup(result, b, i);
      if b < 0x80 {
        return Done(result, p);
      }
      i := i + 1;
    }
    return Done(result, p);
  }

  /** A byte below 0x80 ends the number: its group is added at place `i`. */
  lemma VarintLastGroup(data: seq<byte>, p: nat, i: nat, acc: u32, y: nat)
    requires y <= 0x7f && i <= 4 && acc < ShiftGroups(1, i)
    requires acc + ShiftGroups(y, i) < U32_LIMIT
    requires p < |data| && data[p] == y
    ensures ParseVarintFrom(data, p, i, acc) == Done(acc + ShiftGroups(y, i), p + 1)
  {
    assert data[p] % 0x80 == y;
    if i == 4 {
      ShiftFour(y);
      assert y < 0x10;
    }
  }

  /** A byte with 0x80 set adds the low group of `y` and moves on to place `i + 1`,
      where the encoding of the remaining groups follows. */
  lemma VarintMoreGroup(data: seq<byte>, p: nat, i: nat, acc: u32, y: u32)
    requires 0x7f < y && i + |EncodeVarint(y)| <= 5 && acc < ShiftGroups(1, i)
    requires At(data, p, EncodeVarint(y))
    ensures i < 4 && acc + ShiftGroups(y % 0x80, i) < ShiftGroups(1, i + 1) <= 0x1000_0000
    ensures |EncodeVarint(y)| == 1 + |EncodeVarint(y / 0x80)|
    ensures At(data, p + 1, EncodeVarint(y / 0x80))
    ensures ParseVarintFrom(data, p, i, acc)
            == ParseVarintFrom(data, p + 1, i + 1, acc + ShiftGroups(y % 0x80, i))
    ensures ShiftGroups(y, i) == ShiftGroups(y % 0x80, i) + ShiftGroups(y / 0x80, i + 1)
  {
    var b := 0x80 + y % 0x80;
    assert EncodeVarint(y) == [b] + EncodeVarint(y / 0x80);
    AtConcat(data, p, [b], EncodeVarint(y / 0x80));
    assert data[p] == b && data[p] % 0x80 == y % 0x80;
    GroupFits(acc, y % 0x80, i);
    PlaceBound(i + 1);
    SplitLowGroup(y, i);
  }

  /** Reading from the `i`-th group on, where the groups of `y` were written. */
  lemma {:induction false} ParseVarintFromEncoding(data: seq<byte>, p: nat, i: nat, acc: u32, y: u32)
    requires i + |EncodeVarint(y)| <= 5 && acc < ShiftGroups(1, i)
    requires acc + ShiftGroups(y, i) < U32_LIMIT
    requires At(data, p, EncodeVarint(y))
    ensures ParseVarintFrom(data, p, i, acc) == Done(acc + ShiftGroups(y, i), p + |EncodeVarint(y)|)
    decreases y
  {
    if y <= 0x7f {
      assert data[p] == EncodeVarint(y)[0];
      VarintLastGroup(data, p, i, acc, y);
    } else {
      VarintMoreGroup(data, p, i, acc, y);
      ParseVarintFromEncoding(data, p + 1, i + 1, acc + ShiftGroups(y % 0x80, i), y / 0x80);
    }
  }

  /** read_compressed_int reads back what write_compressed_int wrote, for every u32. */
  lemma VarintRoundTrip(data: seq<byte>, p: nat, x: u32)
    requires At(data, p, EncodeVarint(x))
    ensures ParseVarint(data, p) == Done(x, p + |EncodeVarint(x)|)
  {
    VarintAtMostFiveBytes(x);
    ParseVarintFromEncoding(data, p, 0, 0, x);
  }

  lemma VarintExample()
    ensures EncodeVarint(300) == [0xAC, 0x02]
    ensures ParseVarint([0xAC, 0x02], 0) == Done(300, 2)
  {
    VarintRoundTrip([0xAC, 0x02], 0, 300);
  }
}
