/**
 MD5 as a stream: a context fed in chunks of any size, around any compression function on 64-byte
 blocks. Padding and length as sections 3.1 and 3.2 of RFC 1321 have them.
 */
module Md5 {
  import opened Bytes

  datatype Chain = Chain(a: nat, b: nat, c: nat, d: nat)

  type Compression = (Chain, seq<byte>) -> Chain

  const BLOCK: nat := 64

  const Seed := Chain(0x67452301, 0xefcdab89, 0x98badcfe, 0x10325476)

  /** The compression function over the whole blocks of `s`, first to last. */
  function Fold(f: Compression, h: Chain, s: seq<byte>): (r: Chain)
    decreases |s|
  {
    if |s| < BLOCK then h else Fold(f, f(h, s[..BLOCK]), s[BLOCK..])
  }

  function Zeros(n: nat): (s: seq<byte>)
    ensures |s| == n
  {
    seq(n, _ => 0)
  }

  /** Zeros between the single bit and the length. */
  function Gap(length: nat): (n: nat)
  {
    if length % BLOCK < 56 then 55 - length % BLOCK else 119 - length % BLOCK
  }

  /** One bit, zeros to 56 modulo 64, and the length in bits, low byte first. */
  function Padded(m: seq<byte>): (s: seq<byte>)
  {
    m + [0x80] + Zeros(Gap(|m|)) + LittleEndian(8, 8 * |m| % TWO64)
  }

  function Output(h: Chain): (digest: seq<byte>)
    ensures |digest| == 16
  {
    LittleEndian(4, h.a) + LittleEndian(4, h.b) + LittleEndian(4, h.c) + LittleEndian(4, h.d)
  }

  /** The digest of a message, with no mention of chunks. */
  function Digest(f: Compression, m: seq<byte>): (digest: seq<byte>)
  {
    Output(Fold(f, Seed, Padded(m)))
  }

  // ---------------------------------------------------------------------------
  // Blocks
  // ---------------------------------------------------------------------------

  /** The part of a message in whole blocks. */
  function Whole(m: seq<byte>): (s: seq<byte>)
    ensures |s| == |m| - |m| % BLOCK
  {
    m[..|m| - |m| % BLOCK]
  }

  function Rest(m: seq<byte>): (s: seq<byte>)
    ensures |s| == |m| % BLOCK
  {
    m[|m| - |m| % BLOCK..]
  }

  lemma {:induction false} FoldJoin(f: Compression, h: Chain, a: seq<byte>, b: seq<byte>)
    requires |a| % BLOCK == 0
    ensures Fold(f, h, a + b) == Fold(f, Fold(f, h, a), b)
    decreases |a|
  {
    if a == [] {
      assert a + b == b;
    } else {
      assert (a + b)[..BLOCK] == a[..BLOCK] && (a + b)[BLOCK..] == a[BLOCK..] + b;
      FoldJoin(f, f(h, a[..BLOCK]), a[BLOCK..], b);
    }
  }

  lemma FoldBlock(f: Compression, h: Chain, a: seq<byte>, block: seq<byte>)
    requires |a| % BLOCK == 0 && |block| == BLOCK
    ensures Fold(f, h, a + block) == f(Fold(f, h, a), block)
  {
    FoldJoin(f, h, a, block);
    assert block[..BLOCK] == block && block[BLOCK..] == [];
  }

  /** The padded message: the message, a single bit, as few zeros as will do, and the length. */
  lemma PaddedLength(m: seq<byte>)
    ensures |Padded(m)| % 64 == 0 && |m| + 9 <= |Padded(m)| < |m| + 9 + 64
    ensures Padded(m)[..|m|] == m && Padded(m)[|m|] == 0x80
    ensures forall i | |m| < i < |Padded(m)| - 8 :: Padded(m)[i] == 0
    ensures Padded(m)[|Padded(m)| - 8..] == LittleEndian(8, 8 * |m| % TWO64)
  {
    hide LittleEndian;
    var n := |m|;
    var blocks := n / BLOCK + if n % BLOCK < 56 then 1 else 2;
    ModUnique(n + 1 + Gap(n) + 8, BLOCK, blocks, 0);
  }

  /** Different messages are padded differently. */
  lemma PaddingIsInjective(m: seq<byte>, n: seq<byte>)
    requires |m| < TWO64 / 8 && |n| < TWO64 / 8 && Padded(m) == Padded(n)
    ensures m == n
  {
    hide Padded, LittleEndian, FromLittleEndian, Pow256;
    Pow256Values();
    PaddedLength(m);
    PaddedLength(n);
    ModSmall(8 * |m|, TWO64);
    ModSmall(8 * |n|, TWO64);
    LittleEndianExact(8, 8 * |m|);
    LittleEndianExact(8, 8 * |n|);
  }

  /** The digest is the four words of the last chaining value, in order, low byte first. */
  lemma DigestWords(f: Compression, m: seq<byte>)
    ensures var d, h := Digest(f, m), Fold(f, Seed, Padded(m));
            && |d| == 16
            && FromLittleEndian(d[0..4]) == h.a % TWO32 && FromLittleEndian(d[4..8]) == h.b % TWO32
            && FromLittleEndian(d[8..12]) == h.c % TWO32 && FromLittleEndian(d[12..16]) == h.d % TWO32
  {
    hide LittleEndian, FromLittleEndian, Fold, Padded;
    var h := Fold(f, Seed, Padded(m));
    var d := Output(h);
    Pow256Values();
    LittleEndianRoundTrip(4, h.a);
    LittleEndianRoundTrip(4, h.b);
    LittleEndianRoundTrip(4, h.c);
    LittleEndianRoundTrip(4, h.d);
    assert d[0..4] == LittleEndian(4, h.a) && d[4..8] == LittleEndian(4, h.b);
    assert d[8..12] == LittleEndian(4, h.c) && d[12..16] == LittleEndian(4, h.d);
  }

  lemma {:induction false} FoldKeeps(f: Compression, h: Chain, s: seq<byte>)
    requires forall c: Chain, b: seq<byte> :: f(c, b) == c
    ensures Fold(f, h, s) == h
    decreases |s|
  {
    if |s| >= BLOCK {
      FoldKeeps(f, f(h, s[..BLOCK]), s[BLOCK..]);
    }
  }

  /** Around a compression that changes nothing, every digest shows the four initial words of section 3.3
      of RFC 1321. */
  lemma DigestStartsFrom(f: Compression, m: seq<byte>)
    requires forall c: Chain, b: seq<byte> :: f(c, b) == c
    ensures var d := Digest(f, m);
            && FromLittleEndian(d[0..4]) == 0x67452301 && FromLittleEndian(d[4..8]) == 0xefcdab89
            && FromLittleEndian(d[8..12]) == 0x98badcfe && FromLittleEndian(d[12..16]) == 0x10325476
  {
    hide Fold, Padded, Digest, FromLittleEndian;
    FoldKeeps(f, Seed, Padded(m));
    DigestWords(f, m);
  }

  lemma {:induction false} LittleEndianJoin(n: nat, lo: nat, k: nat, hi: nat)
    requires lo < Pow256(n)
    ensures LittleEndian(n + k, lo + Pow256(n) * hi) == LittleEndian(n, lo) + LittleEndian(k, hi)
  {
    if n > 0 {
      TimesPower(hi, n);
      LittleEndianJoin(n - 1, lo / 256, k, hi);
      ModUnique(lo + Pow256(n) * hi, 256, lo / 256 + Pow256(n - 1) * hi, lo % 256);
    }
  }

  // ---------------------------------------------------------------------------
  // The two-word bit counter
  // ---------------------------------------------------------------------------

  function Mod32(v: nat): (r: nat)
    ensures r < TWO32
  {
    v % TWO32
  }

  ghost predicate Counts(bits0: nat, bits1: nat, length: nat)
  {
    bits0 < TWO32 && bits1 < TWO32 && bits0 + TWO32 * bits1 == 8 * length % TWO64
  }

  lemma ShiftedLength(len: nat)
    ensures Mod32(8 * Mod32(len)) + TWO32 * (len / 0x2000_0000) == 8 * len
  {
    var low := len % 0x2000_0000;
    ModUnique(8 * Mod32(len), TWO32, len / 0x2000_0000 - 8 * (len / TWO32), 8 * low);
  }

  lemma HighWord(a: nat, b: nat)
    ensures Mod32(Mod32(a) + Mod32(b)) == Mod32(a + b)
  {
    var q := a / TWO32 + b / TWO32;
    ModUnique(Mod32(a) + Mod32(b), TWO32, (a + b) / TWO32 - q, Mod32(a + b));
  }

  lemma LowWord(a: nat, b: nat)
    requires a < TWO32 && b < TWO32
    ensures var low := Mod32(a + b); a + b == low + TWO32 * if low < a then 1 else 0
  {
    ModUnique(a + b, TWO32, if a + b < TWO32 then 0 else 1, if a + b < TWO32 then a + b else a + b - TWO32);
  }

  /** Two words that make up a sum, the high one of them reduced. */
  lemma TwoWords(low: nat, high: nat, length: nat, q: nat)
    requires low < TWO32 && low + TWO32 * high + TWO64 * q == 8 * length
    ensures Counts(low, Mod32(high), length)
  {
    ModUnique(8 * length, TWO64, q + high / TWO32, low + TWO32 * Mod32(high));
  }

  /** Adding the length of a chunk to the counter, with the carry. */
  lemma CounterAdds(bits0: nat, bits1: nat, length: nat, len: nat)
    requires Counts(bits0, bits1, length) && len < TWO64
    ensures var low := Mod32(bits0 + Mod32(8 * Mod32(len)));
            var carry := if low < bits0 then 1 else 0;
            Counts(low, Mod32(Mod32(bits1 + carry) + Mod32(len / 0x2000_0000)), length + len)
  {
    hide Mod32;
    ShiftedLength(len);
    var xl, xh := Mod32(8 * Mod32(len)), len / 0x2000_0000;
    var low := Mod32(bits0 + xl);
    var carry := if low < bits0 then 1 else 0;
    LowWord(bits0, xl);
    HighWord(bits1 + carry, xh);
    TwoWords(low, bits1 + carry + xh, length + len, 8 * length / TWO64);
  }

  /** A counter word is its own low 32 bits. */
  lemma SameWord(bits0: nat, bits1: nat, length: nat)
    requires Counts(bits0, bits1, length)
    ensures Mod32(bits1) == bits1
  {
  }

  lemma CountInBlock(bits0: nat, bits1: nat, length: nat)
    requires Counts(bits0, bits1, length)
    ensures bits0 / 8 % BLOCK == length % BLOCK
  {
    var q := 8 * length / TWO64;
    var low := bits0 / 8;
    assert 8 * length == TWO64 * q + bits0 + TWO32 * bits1;
    ModUnique(length, BLOCK, 0x80_0000_0000_0000 * q + 0x80_0000 * bits1 + low / BLOCK, low % BLOCK);
  }

  lemma StaysInBlock(m: seq<byte>, d: seq<byte>)
    requires |m| % BLOCK + |d| < BLOCK
    ensures Whole(m + d) == Whole(m) && Rest(m + d) == Rest(m) + d
  {
    ModUnique(|m + d|, BLOCK, |m| / BLOCK, |m| % BLOCK + |d|);
    assert m == Whole(m) + Rest(m);
  }

  lemma FillsBlock(m: seq<byte>, d: seq<byte>)
    requires |m| % BLOCK + |d| == BLOCK
    ensures Whole(m + d) == Whole(m) + (Rest(m) + d) && Rest(m + d) == []
    ensures |Whole(m)| % BLOCK == 0
  {
    ModUnique(|m + d|, BLOCK, |m| / BLOCK + 1, 0);
    ModUnique(|Whole(m)|, BLOCK, |m| / BLOCK, 0);
    assert m == Whole(m) + Rest(m);
  }

  /** Completing a block and compressing it. */
  lemma CompressFull(f: Compression, m: seq<byte>, d: seq<byte>)
    requires |m| % BLOCK + |d| == BLOCK
    ensures Fold(f, Seed, Whole(m + d)) == f(Fold(f, Seed, Whole(m)), Rest(m) + d)
    ensures |m + d| % BLOCK == 0
  {
    hide Fold;
    FillsBlock(m, d);
    FoldBlock(f, Seed, Whole(m), Rest(m) + d);
  }

  function LengthBytes(bits0: nat, bits1: nat): (s: seq<byte>)
    ensures |s| == 8
  {
    LittleEndian(4, bits0) + LittleEndian(4, bits1)
  }

  lemma CounterIsLength(bits0: nat, bits1: nat, length: nat)
    requires Counts(bits0, bits1, length)
    ensures LengthBytes(bits0, bits1) == LittleEndian(8, 8 * length % TWO64)
  {
    Pow256Values();
    LittleEndianJoin(4, bits0, 4, bits1);
  }

  /** The last block, when the length still fits behind the rest of the message. */
  lemma OneBlockLeft(f: Compression, m: seq<byte>, length: seq<byte>)
    requires |m| % BLOCK < 56 && length == LittleEndian(8, 8 * |m| % TWO64)
    ensures var last := Rest(m) + [0x80] + Zeros(55 - |m| % BLOCK) + length;
            |last| == BLOCK && Fold(f, Seed, Padded(m)) == f(Fold(f, Seed, Whole(m)), last)
  {
    hide Fold, LittleEndian;
    var last := Rest(m) + [0x80] + Zeros(55 - |m| % BLOCK) + length;
    ModUnique(|Whole(m)|, BLOCK, |m| / BLOCK, 0);
    assert m == Whole(m) + Rest(m);
    assert Padded(m) == Whole(m) + last;
    FoldBlock(f, Seed, Whole(m), last);
  }

  /** The last two blocks, when it does not. */
  lemma TwoBlocksLeft(f: Compression, m: seq<byte>, length: seq<byte>)
    requires |m| % BLOCK >= 56 && length == LittleEndian(8, 8 * |m| % TWO64)
    ensures var first, last := Rest(m) + [0x80] + Zeros(63 - |m| % BLOCK), Zeros(56) + length;
            && |first| == BLOCK && |last| == BLOCK
            && Fold(f, Seed, Padded(m)) == f(f(Fold(f, Seed, Whole(m)), first), last)
  {
    hide Fold, LittleEndian;
    var first, last := Rest(m) + [0x80] + Zeros(63 - |m| % BLOCK), Zeros(56) + length;
    ModUnique(|Whole(m)|, BLOCK, |m| / BLOCK, 0);
    ModUnique(|Whole(m) + first|, BLOCK, |m| / BLOCK + 1, 0);
    assert m == Whole(m) + Rest(m);
    assert Padded(m) == Whole(m) + first + last;
    FoldBlock(f, Seed, Whole(m), first);
    FoldBlock(f, Seed, Whole(m) + first, last);
  }

  // ---------------------------------------------------------------------------
  // The context
  // ---------------------------------------------------------------------------

  class Context {
    const transform: Compression
    const input: array<byte>
    var buf: Chain
    var bits0: nat
    var bits1: nat

    /** Everything fed in since the context was initialised. */
    ghost var message: seq<byte>

    ghost predicate Valid()
      reads this, input
    {
      && input.Length == BLOCK
      && Counts(bits0, bits1, |message|)
      && buf == Fold(transform, Seed, Whole(message))
      && input[..|message| % BLOCK] == Rest(message)
    }

    constructor (f: Compression)
      ensures transform == f && input.Length == BLOCK && fresh(input)
    {
      transform := f;
      input := new byte[BLOCK](_ => 0);
    }

    method Init()
      requires input.Length == BLOCK
      modifies this
      ensures Valid() && message == []
    {
      buf := Seed;
      bits0, bits1 := 0, 0;
      message := [];
    }

    /** `memcpy` into the block buffer. */
    method CopyIn(at: nat, data: seq<byte>)
      requires at + |data| <= input.Length
      modifies input
      ensures input[..at + |data|] == old(input[..at]) + data
      ensures input[at + |data|..] == old(input[at + |data|..])
    {
      forall i | 0 <= i < |data| {
        input[at + i] := data[i];
      }
    }

    method CountBits(len: nat)
      requires len < TWO64 && Counts(bits0, bits1, |message|)
      modifies this`bits0, this`bits1
      ensures Counts(bits0, bits1, |message| + len)
    {
      hide Mod32, Counts;
      CounterAdds(bits0, bits1, |message|, len);
      SameWord(bits0, bits1, |message|);
      var t := bits0;
      bits0 := Mod32(t + Mod32(8 * Mod32(len)));
      if bits0 < t {
        bits1 := Mod32(bits1 + 1);
      }
      bits1 := Mod32(bits1 + Mod32(len / 0x2000_0000));
    }

    /** `d` completes the block that holds `at` bytes already. */
    method Complete(at: nat, d: seq<byte>)
      requires input.Length == BLOCK && at == |message| % BLOCK && at + |d| == BLOCK
      requires buf == Fold(transform, Seed, Whole(message)) && input[..at] == Rest(message)
      modifies this`buf, this`message, input
      ensures message == old(message) + d && |message| % BLOCK == 0
      ensures buf == Fold(transform, Seed, Whole(message))
    {
      hide Fold;
      CompressFull(transform, message, d);
      CopyIn(at, d);
      assert input[..] == input[..BLOCK];
      buf := transform(buf, input[..]);
      message := message + d;
    }

    /** Keeps `d` for later; it does not complete the block. */
    method Keep(at: nat, d: seq<byte>)
      requires input.Length == BLOCK && at == |message| % BLOCK && at + |d| < BLOCK
      requires buf == Fold(transform, Seed, Whole(message)) && input[..at] == Rest(message)
      modifies this`message, input
      ensures message == old(message) + d
      ensures buf == Fold(transform, Seed, Whole(message)) && input[..|message| % BLOCK] == Rest(message)
    {
      hide Fold;
      StaysInBlock(message, d);
      CopyIn(at, d);
      message := message + d;
    }

    /** Whole blocks straight from the data, then what is left. */
    method Feed(data: seq<byte>)
      requires input.Length == BLOCK && |message| % BLOCK == 0 && buf == Fold(transform, Seed, Whole(message))
      modifies this`buf, this`message, input
      ensures message == old(message) + data
      ensures buf == Fold(transform, Seed, Whole(message)) && input[..|message| % BLOCK] == Rest(message)
    {
      hide Fold;
      var pos := 0;
      while |data| - pos >= BLOCK
        invariant pos <= |data| && message == old(message) + data[..pos] && |message| % BLOCK == 0
        invariant buf == Fold(transform, Seed, Whole(message))
      {
        Complete(0, data[pos..pos + BLOCK]);
        assert data[..pos + BLOCK] == data[..pos] + data[pos..pos + BLOCK];
        pos := pos + BLOCK;
      }
      Keep(0, data[pos..]);
      assert data == data[..pos] + data[pos..];
    }

    /** Feeding a chunk appends it to the message, whatever came before and however it was cut. */
    method Update(data: seq<byte>)
      requires Valid() && |data| < TWO64
      modifies this`buf, this`bits0, this`bits1, this`message, input
      ensures Valid() && message == old(message) + data
    {
      hide Fold, Counts;
      CountInBlock(bits0, bits1, |message|);
      var at := bits0 / 8 % BLOCK;
      CountBits(|data|);
      if at == 0 {
        Feed(data);
      } else {
        var left := BLOCK - at;
        if |data| < left {
          Keep(at, data);
        } else {
          Complete(at, data[..left]);
          Feed(data[left..]);
          assert data == data[..left] + data[left..];
        }
      }
    }

    /** Pads the buffer and folds it in; the chaining value is that of the padded message. */
    method Wrap()
      requires Valid()
      modifies this`buf, input
      ensures buf == Fold(transform, Seed, Padded(message))
    {
      hide Fold, Counts, Padded, LengthBytes, Zeros;
      CountInBlock(bits0, bits1, |message|);
      CounterIsLength(bits0, bits1, |message|);
      var count := bits0 / 8 % BLOCK;
      ghost var rest := Rest(message);
      CopyIn(count, [0x80]);
      var left := BLOCK - 1 - count;
      if left < 8 {
        TwoBlocksLeft(transform, message, LengthBytes(bits0, bits1));
        CopyIn(count + 1, Zeros(left));
        assert input[..] == input[..BLOCK];
        buf := transform(buf, input[..]);
        CopyIn(0, Zeros(56));
        assert [] + Zeros(56) == Zeros(56);
      } else {
        OneBlockLeft(transform, message, LengthBytes(bits0, bits1));
        CopyIn(count + 1, Zeros(left - 8));
      }
      CopyIn(56, LengthBytes(bits0, bits1));
      assert input[..] == input[..BLOCK];
      buf := transform(buf, input[..]);
    }

    /** The digest of the whole message; the context is wiped. */
    method Final() returns (digest: seq<byte>)
      requires Valid()
      modifies this, input
      ensures digest == Digest(transform, old(message))
      ensures buf == Chain(0, 0, 0, 0) && bits0 == 0 && bits1 == 0 && input[..] == Zeros(BLOCK)
    {
      hide Fold, Counts, Padded, Zeros;
      Wrap();
      digest := Output(buf);
      buf, bits0, bits1 := Chain(0, 0, 0, 0), 0, 0;
      CopyIn(0, Zeros(BLOCK));
      assert input[..] == input[..BLOCK] && [] + Zeros(BLOCK) == Zeros(BLOCK);
    }

    /** The digest so far, from a copy; the context goes on as before. */
    method IntermediateFinal() returns (digest: seq<byte>)
      requires Valid()
      ensures digest == Digest(transform, message)
    {
      hide Fold, Counts, Digest;
      var copy := new Context(transform);
      copy.buf, copy.bits0, copy.bits1 := buf, bits0, bits1;
      copy.message := message;
      copy.CopyIn(0, input[..]);
      assert copy.input[..] == copy.input[..BLOCK] && [] + input[..] == input[..];
      assert copy.input[..|message| % BLOCK] == input[..][..|message| % BLOCK];
      digest := copy.Final();
    }
  }

  method Sum(f: Compression, data: seq<byte>) returns (digest: seq<byte>)
    requires |data| < TWO64
    ensures digest == Digest(f, data)
  {
    hide Digest;
    var context := new Context(f);
    context.Init();
    context.Update(data);
    assert [] + data == data;
    digest := context.Final();
  }

  function Concat(chunks: seq<seq<byte>>): (s: seq<byte>)
  {
    if chunks == [] then [] else Concat(chunks[..|chunks| - 1]) + chunks[|chunks| - 1]
  }

  /** However a message is cut into chunks, the stream's digest is the message's. */
  method SumOfChunks(f: Compression, chunks: seq<seq<byte>>) returns (digest: seq<byte>)
    requires forall i | 0 <= i < |chunks| :: |chunks[i]| < TWO64
    ensures digest == Digest(f, Concat(chunks))
  {
    hide Digest;
    var context := new Context(f);
    context.Init();
    for i := 0 to |chunks|
      invariant context.Valid() && context.message == Concat(chunks[..i])
      invariant fresh(context) && fresh(context.input)
    {
      context.Update(chunks[i]);
      assert chunks[..i + 1][..i] == chunks[..i];
    }
    assert chunks[..|chunks|] == chunks;
    digest := context.Final();
  }
}
