/** Byte-stream vocabulary shared by the codec: bytes, little-endian u32 fields,
    fixed-size reads that fail at end of stream, and the parse result type.

    A stream is a `seq<byte>` and a cursor `p`: a reader takes both and returns
    the value it read together with the cursor after it, or the error that
    aborted the read. */
module Stream {

  type byte = x: int | 0 <= x < 0x100
  type u32 = x: int | 0 <= x < 0x1_0000_0000

  const U32_LIMIT: int := 0x1_0000_0000

  /** Rust's `n as u32`: only the low 32 bits of a length survive. */
  function Truncate32(n: nat): (r: u32)
    ensures n < U32_LIMIT ==> r == n
  {
    n % U32_LIMIT
  }

  /** Why a read stopped. */
  datatype Error =
    | UnexpectedEof               // the stream ended inside a fixed-size field
    | BadMagic(found: seq<byte>)  // a section did not start with its 4-byte magic
    | BadVertexCount(count: u32)  // a face declared a vertex count other than 3 or 4
    | VarintOverflow              // a compressed integer ran past its fifth byte

  /** The result of reading from position `p`: the value and the position after it,
      or the error. `:-` propagates the error, as `?` does in the source. */
  datatype Parsed<+T> = Done(value: T, next: nat) | Fail(error: Error) {
    predicate IsFailure() { Fail? }

    function PropagateFailure<U>(): Parsed<U>
      requires Fail?
    {
      Fail(error)
    }

    function Extract(): (T, nat)
      requires Done?
    {
      (value, next)
    }
  }

  // ---------------------------------------------------------------------------
  // Little-endian u32 (byteorder's read_u32 / write_u32 with LittleEndian)

  function LeBytes(x: u32): (bs: seq<byte>)
    ensures |bs| == 4
  {
    [x % 0x100, x / 0x100 % 0x100, x / 0x1_0000 % 0x100, x / 0x100_0000]
  }

  function LeValue(b0: byte, b1: byte, b2: byte, b3: byte): u32 {
    b0 + 0x100 * b1 + 0x1_0000 * b2 + 0x100_0000 * b3
  }

  lemma LeValueOfLeBytes(x: u32)
    ensures LeValue(LeBytes(x)[0], LeBytes(x)[1], LeBytes(x)[2], LeBytes(x)[3]) == x
  {
    var bs := LeBytes(x);
    assert x == x % 0x100 + 0x100 * (x / 0x100);
    assert x / 0x100 == x / 0x100 % 0x100 + 0x100 * (x / 0x1_0000);
    assert x / 0x1_0000 == x / 0x1_0000 % 0x100 + 0x100 * (x / 0x100_0000);
  }

  lemma LeBytesOfLeValue(b0: byte, b1: byte, b2: byte, b3: byte)
    ensures LeBytes(LeValue(b0, b1, b2, b3)) == [b0, b1, b2, b3]
  {
    var x := LeValue(b0, b1, b2, b3);
    assert x / 0x100 == b1 + 0x100 * b2 + 0x1_0000 * b3;
    assert x / 0x1_0000 == b2 + 0x100 * b3;
    assert x / 0x100_0000 == b3;
  }

  /** The u32 stored at `p`, when four bytes are there. */
  function U32At(data: seq<byte>, p: nat): u32
    requires p + 4 <= |data|
  {
    LeValue(data[p], data[p + 1], data[p + 2], data[p + 3])
  }

  /** read_u32::<LittleEndian>: four bytes, or UnexpectedEof when fewer remain. */
  function ReadU32(data: seq<byte>, p: nat): (r: Parsed<u32>)
    ensures r.Done? <==> p + 4 <= |data|
    ensures r.Done? ==> r.next == p + 4
    ensures r.Fail? ==> r.error == UnexpectedEof
  {
    if p + 4 <= |data| then Done(U32At(data, p), p + 4) else Fail(UnexpectedEof)
  }

  /** The value read is the one whose little-endian bytes are the four bytes at `p`. */
  lemma ReadU32Bytes(data: seq<byte>, p: nat)
    requires p + 4 <= |data|
    ensures LeBytes(ReadU32(data, p).value) == data[p..p + 4]
  {
    LeBytesOfLeValue(data[p], data[p + 1], data[p + 2], data[p + 3]);
  }

  /** read_exact into an `n`-byte buffer. */
  function ReadExact(data: seq<byte>, p: nat, n: nat): (r: Parsed<seq<byte>>)
    ensures r.Done? <==> p + n <= |data|
    ensures r.Done? ==> r.next == p + n && r.value == data[p..p + n]
  {
    if p + n <= |data| then Done(data[p..p + n], p + n) else Fail(UnexpectedEof)
  }

  /** Draining up to `k` bytes through `bytes()` (`nth(k - 1)`, `next()`):
      whatever is there is dropped unread, and a short stream is no error. */
  function SkipUpTo(data: seq<byte>, p: nat, k: nat): (q: nat)
    requires p <= |data|
    ensures p <= q <= |data|
    ensures p + k <= |data| ==> q == p + k
    ensures |data| < p + k ==> q == |data|
  {
    if p + k <= |data| then p + k else |data|
  }

  // ---------------------------------------------------------------------------
  // Where a byte string sits in the stream

  /** `bs` occurs in `data` at position `p`. */
  predicate At(data: seq<byte>, p: nat, bs: seq<byte>) {
    p + |bs| <= |data| && data[p..p + |bs|] == bs
  }

  lemma AtConcat(data: seq<byte>, p: nat, a: seq<byte>, b: seq<byte>)
    requires At(data, p, a + b)
    ensures At(data, p, a) && At(data, p + |a|, b)
  {
    var whole := data[p..p + |a| + |b|];
    assert data[p..p + |a|] == whole[..|a|];
    assert data[p + |a|..p + |a| + |b|] == whole[|a|..];
  }

  lemma ReadU32At(data: seq<byte>, p: nat, x: u32)
    requires At(data, p, LeBytes(x))
    ensures ReadU32(data, p) == Done(x, p + 4)
  {
    LeValueOfLeBytes(x);
    assert data[p..p + 4][0] == data[p];
  }

  // ---------------------------------------------------------------------------
  // Arrays of records: written back to back, read by count

  /** The records of `xs`, each encoded by `enc`, one after the other. */
  function Flatten<T>(xs: seq<T>, enc: T -> seq<byte>): seq<byte> {
    if xs == [] then [] else enc(xs[0]) + Flatten(xs[1..], enc)
  }

  lemma {:induction false} FlattenSnoc<T>(xs: seq<T>, x: T, enc: T -> seq<byte>)
    ensures Flatten(xs + [x], enc) == Flatten(xs, enc) + enc(x)
  {
    if xs == [] {
      assert [x][1..] == [];
    } else {
      assert (xs + [x])[1..] == xs[1..] + [x];
      FlattenSnoc(xs[1..], x, enc);
    }
  }

  /** The step a writer loop takes from the first `i` records to the first `i + 1`. */
  lemma FlattenPrefix<T>(xs: seq<T>, i: nat, enc: T -> seq<byte>)
    requires i < |xs|
    ensures Flatten(xs[..i + 1], enc) == Flatten(xs[..i], enc) + enc(xs[i])
  {
    assert xs[..i + 1] == xs[..i] + [xs[i]];
    FlattenSnoc(xs[..i], xs[i], enc);
  }

  lemma {:induction false} FlattenLength<T>(xs: seq<T>, enc: T -> seq<byte>, k: nat)
    requires forall x :: |enc(x)| == k
    ensures |Flatten(xs, enc)| == k * |xs|
  {
    if xs != [] {
      FlattenLength(xs[1..], enc, k);
    }
  }

  /** A counted `for` loop that pushes `n` records read by `parse`, starting
      with `acc` already collected; the first failing record aborts it. */
  function ParseMany<T>(data: seq<byte>, p: nat, n: nat, acc: seq<T>,
                        parse: (seq<byte>, nat) -> Parsed<T>): (r: Parsed<seq<T>>)
    ensures r.Done? ==> |r.value| == |acc| + n
    decreases n
  {
    if n == 0 then Done(acc, p)
    else
      var x :- parse(data, p);
      ParseMany(data, x.1, n - 1, acc + [x.0], parse)
  }

  /** One turn of the counted loop: the first record is read, the rest follow it. */
  lemma ParseManyStep<T>(data: seq<byte>, p: nat, n: nat, acc: seq<T>,
                         parse: (seq<byte>, nat) -> Parsed<T>, x: T, q: nat)
    requires parse(data, p) == Done(x, q)
    ensures ParseMany(data, p, n + 1, acc, parse) == ParseMany(data, q, n, acc + [x], parse)
  {
  }

  /** A failing record aborts the counted loop with its error. */
  lemma ParseManyFail<T>(data: seq<byte>, p: nat, n: nat, acc: seq<T>,
                         parse: (seq<byte>, nat) -> Parsed<T>)
    requires parse(data, p).Fail?
    ensures ParseMany(data, p, n + 1, acc, parse) == Fail(parse(data, p).error)
  {
  }

  /** A record parser that reads back what `enc` wrote, for every record that `valid` admits. */
  ghost predicate Inverts<T(!new)>(data: seq<byte>, enc: T -> seq<byte>,
                             parse: (seq<byte>, nat) -> Parsed<T>, valid: T -> bool)
  {
    forall x, q: nat :: valid(x) && At(data, q, enc(x)) ==> parse(data, q) == Done(x, q + |enc(x)|)
  }

  /** A record parser whose every record, wherever it reads one, satisfies `valid`. */
  ghost predicate Yields<T(!new)>(data: seq<byte>, parse: (seq<byte>, nat) -> Parsed<T>,
                                  valid: T -> bool)
  {
    forall q: nat :: parse(data, q).Done? ==> valid(parse(data, q).value)
  }

  /** A counted loop over such a parser returns only records that satisfy `valid`. */
  lemma {:induction false} ParseManyYields<T(!new)>(data: seq<byte>, p: nat, n: nat, acc: seq<T>,
                                              parse: (seq<byte>, nat) -> Parsed<T>,
                                              valid: T -> bool)
    requires Yields(data, parse, valid)
    requires forall i :: 0 <= i < |acc| ==> valid(acc[i])
    ensures ParseMany(data, p, n, acc, parse).Done?
            ==> forall i :: 0 <= i < |ParseMany(data, p, n, acc, parse).value|
                            ==> valid(ParseMany(data, p, n, acc, parse).value[i])
    decreases n
  {
    if n > 0 {
      var x := parse(data, p);
      if x.Done? {
        var more := acc + [x.value];
        assert valid(x.value);
        assert forall i :: 0 <= i < |more| ==> valid(more[i]) by {
          forall i | 0 <= i < |more|
            ensures valid(more[i])
          {
            if i < |acc| {
              assert more[i] == acc[i];
            }
          }
        }
        ParseManyYields(data, x.next, n - 1, more, parse, valid);
      }
    }
  }

  lemma AppendHead<T>(acc: seq<T>, xs: seq<T>)
    requires xs != []
    ensures acc + [xs[0]] + xs[1..] == acc + xs
  {
    assert [xs[0]] + xs[1..] == xs;
  }

  /** The first record of a flattened array, and the rest right after it. */
  lemma FlattenHead<T>(data: seq<byte>, p: nat, xs: seq<T>, enc: T -> seq<byte>)
    requires xs != [] && At(data, p, Flatten(xs, enc))
    ensures At(data, p, enc(xs[0])) && At(data, p + |enc(xs[0])|, Flatten(xs[1..], enc))
    ensures |Flatten(xs, enc)| == |enc(xs[0])| + |Flatten(xs[1..], enc)|
  {
    AtConcat(data, p, enc(xs[0]), Flatten(xs[1..], enc));
  }

  /** Reading `|xs|` records from where `Flatten(xs, enc)` was written gives back `xs`. */
  lemma {:induction false} ParseManyFlatten<T(!new)>(data: seq<byte>, p: nat, xs: seq<T>, acc: seq<T>,
                                               enc: T -> seq<byte>,
                                               parse: (seq<byte>, nat) -> Parsed<T>,
                                               valid: T -> bool)
    requires Inverts(data, enc, parse, valid)
    requires forall i :: 0 <= i < |xs| ==> valid(xs[i])
    requires At(data, p, Flatten(xs, enc))
    ensures ParseMany(data, p, |xs|, acc, parse) == Done(acc + xs, p + |Flatten(xs, enc)|)
    decreases |xs|
  {
    if xs == [] {
      assert acc + xs == acc;
    } else {
      var x, rest := xs[0], xs[1..];
      var q := p + |enc(x)|;
      FlattenHead(data, p, xs, enc);
      assert valid(x);
      assert parse(data, p) == Done(x, q);
      ParseManyStep(data, p, |rest|, acc, parse, x, q);
      assert forall i :: 0 <= i < |rest| ==> valid(rest[i]) by {
        forall i | 0 <= i < |rest| ensures valid(rest[i]) {
          assert rest[i] == xs[i + 1];
        }
      }
      ParseManyFlatten(data, q, rest, acc + [x], enc, parse, valid);
      AppendHead(acc, xs);
    }
  }
}
