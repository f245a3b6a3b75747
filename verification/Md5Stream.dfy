/** What a message digest is: the padded message, folded block by block. */
module Md5Spec {
  import opened Md5Block

  const TWO32 := 0x1_0000_0000
  const TWO64 := 0x1_0000_0000_0000_0000

  const INITIAL: Regs := Regs(0x67452301, 0xefcdab89, 0x98badcfe, 0x10325476)

  /** The whole blocks of `bytes`, folded in order; a tail shorter than a block is left alone. */
  function Absorb<S>(f: (S, Block) -> S, s: S, bytes: seq<Octet>): S
    decreases |bytes|
  {
    if |bytes| < 64 then s else Absorb(f, f(s, bytes[..64]), bytes[64..])
  }

  function Zeros(n: nat): (s: seq<Octet>)
    ensures |s| == n
  {
    seq(n, _ => 0)
  }

  /** Section 3.1 of RFC 1321: a one bit, then zero bits up to 56 bytes modulo 64; at least one bit is added. */
  function PadLength(n: nat): nat {
    if n % 64 < 56 then 56 - n % 64 else 120 - n % 64
  }

  function Padding(n: nat): (s: seq<Octet>)
    ensures |s| == PadLength(n)
  {
    [0x80] + Zeros(PadLength(n) - 1)
  }

  /** Section 3.2: the number of bits modulo 2^64, as two words, the low one first. */
  function LengthBytes(n: nat): (s: seq<Octet>)
    ensures |s| == 8
  {
    var bits := (8 * n) % TWO64;
    Encode([(bits % TWO32) as Word, (bits / TWO32) as Word])
  }

  function Padded(message: seq<Octet>): seq<Octet> {
    message + Padding(|message|) + LengthBytes(|message|)
  }

  function EncodeRegs(r: Regs): seq<Octet> {
    Encode([r.a, r.b, r.c, r.d])
  }

  /** Sections 3.1 to 3.5, over any block function. */
  function DigestWith(f: (Regs, Block) -> Regs, message: seq<Octet>): seq<Octet> {
    EncodeRegs(Absorb(f, INITIAL, Padded(message)))
  }

  function Digest(message: seq<Octet>): seq<Octet> {
    DigestWith(Compress, message)
  }

  // ---------------------------------------------------------------- folding in pieces

  lemma Mod64Bytes(x: int, q: int, r: int)
    requires x == 64 * q + r && 0 <= r < 64
    ensures x % 64 == r && x / 64 == q
  {
  }

  lemma PaddedIsWhole(message: seq<Octet>)
    ensures |Padded(message)| % 64 == 0
  {
    var n := |message|;
    Mod64Bytes(n + PadLength(n) + 8, if n % 64 < 56 then n / 64 + 1 else n / 64 + 2, 0);
  }

  lemma {:induction false} AbsorbJoin<S>(f: (S, Block) -> S, s: S, p: seq<Octet>, q: seq<Octet>)
    requires |p| % 64 == 0
    ensures Absorb(f, s, p + q) == Absorb(f, Absorb(f, s, p), q)
    decreases |p|
  {
    if p == [] {
      assert p + q == q;
    } else {
      AbsorbJoin(f, f(s, p[..64]), p[64..], q);
      assert (p + q)[..64] == p[..64] && (p + q)[64..] == p[64..] + q;
    }
  }

  lemma AbsorbBlock<S>(f: (S, Block) -> S, s: S, p: seq<Octet>, b: Block)
    requires |p| % 64 == 0
    ensures Absorb(f, s, p + b) == f(Absorb(f, s, p), b)
  {
    AbsorbJoin(f, s, p, b);
    var s1 := Absorb(f, s, p);
    assert b[..64] == b && b[64..] == [];
    assert Absorb(f, f(s1, b), []) == f(s1, b);
  }

  lemma AbsorbTail<S>(f: (S, Block) -> S, s: S, p: seq<Octet>, tail: seq<Octet>)
    requires |p| % 64 == 0 && |tail| < 64
    ensures Absorb(f, s, p + tail) == Absorb(f, s, p)
  {
    AbsorbJoin(f, s, p, tail);
  }

  // ---------------------------------------------------------------- the split bit count

  ghost predicate CountIs(lo: int, hi: int, n: nat) {
    0 <= lo < TWO32 && 0 <= hi < TWO32 && lo + TWO32 * hi == (8 * n) % TWO64
  }

  lemma Mod64(x: int, q: int, r: int)
    requires x == TWO64 * q + r && 0 <= r < TWO64
    ensures x % TWO64 == r
  {
  }

  /** The two statements that add `len` bytes to the count, carry included. */
  function AddLow(lo: int, len: int): int {
    (lo + (len * 8) % TWO32) % TWO32
  }

  function AddHigh(lo: int, hi: int, len: int): int {
    var hi1 := if AddLow(lo, len) < (len * 8) % TWO32 then (hi + 1) % TWO32 else hi;
    (hi1 + len / 0x2000_0000) % TWO32
  }

  lemma Shifted(len: nat)
    requires len < TWO32
    ensures len * 8 == (len * 8) % TWO32 + TWO32 * (len / 0x2000_0000) && len / 0x2000_0000 < 8
  {
  }

  lemma LowAdds(lo: int, l8: int)
    requires 0 <= lo < TWO32 && 0 <= l8 < TWO32
    ensures (lo + l8) % TWO32 == if lo + l8 >= TWO32 then lo + l8 - TWO32 else lo + l8
  {
  }

  lemma HighAdds(hi: int, c: int, h8: int)
    requires 0 <= hi < TWO32 && 0 <= c <= 1 && 0 <= h8 < 8
    ensures ((if c == 1 then (hi + 1) % TWO32 else hi) + h8) % TWO32 ==
            if hi + c + h8 >= TWO32 then hi + c + h8 - TWO32 else hi + c + h8
  {
  }

  lemma CountSum(lo: int, hi: int, n: nat, len: nat, l8: int, h8: int, c: int, d: int)
    requires CountIs(lo, hi, n) && len * 8 == l8 + TWO32 * h8
    requires 0 <= lo + l8 - TWO32 * c < TWO32 && 0 <= hi + c + h8 - TWO32 * d < TWO32
    ensures CountIs(lo + l8 - TWO32 * c, hi + c + h8 - TWO32 * d, n + len)
  {
    var q := (8 * n) / TWO64;
    assert 8 * n == TWO64 * q + lo + TWO32 * hi;
    Mod64(8 * (n + len), q + d, (lo + l8 - TWO32 * c) + TWO32 * (hi + c + h8 - TWO32 * d));
  }

  lemma CountAdds(lo: int, hi: int, n: nat, len: nat)
    requires CountIs(lo, hi, n) && len < TWO32
    ensures CountIs(AddLow(lo, len), AddHigh(lo, hi, len), n + len)
  {
    var l8, h8 := (len * 8) % TWO32, len / 0x2000_0000;
    var c := if lo + l8 >= TWO32 then 1 else 0;
    var d := if hi + c + h8 >= TWO32 then 1 else 0;
    Shifted(len);
    LowAdds(lo, l8);
    HighAdds(hi, c, h8);
    CountSum(lo, hi, n, len, l8, h8, c, d);
  }

  lemma CountHalves(lo: int, hi: int, n: nat)
    requires CountIs(lo, hi, n)
    ensures ((8 * n) % TWO64) % TWO32 == lo && ((8 * n) % TWO64) / TWO32 == hi
  {
  }

  lemma IndexIs(lo: int, hi: int, n: nat)
    requires CountIs(lo, hi, n)
    ensures (lo / 8) % 64 == n % 64
  {
    var q := (8 * n) / TWO64;
    assert 8 * n == TWO64 * q + lo + TWO32 * hi;
    var k := n - 0x2000_0000_0000_0000 * q - 0x2000_0000 * hi;
    assert lo == 8 * k;
    var j := 0x80_0000_0000_0000 * q + 0x80_0000 * hi;
    assert n == k + 64 * j;
    Mod64Bytes(n, k / 64 + j, k % 64);
  }

  // ---------------------------------------------------------------- the guard of the block loop

  /** Where the block loop stops: the last whole block of the input ends here. */
  function ScanEnd(index: nat, len: nat): int {
    len - (index + len) % 64
  }

  /** `i + 63 < inputLen` in 32 bits asks whether a whole block is left exactly when the addition does not wrap. */
  lemma GuardExactIff(i: nat, len: nat)
    requires i <= len < TWO32
    ensures ((i + 63) % TWO32 < len <==> i + 64 <= len) <==> i + 63 < TWO32
  {
  }

  /** Where the block loop stands after `k` turns, in 32 bits: it starts behind the block that the buffer completes. */
  function LoopPosition(n: nat, k: nat): nat {
    (64 - n % 64 + 64 * k) % TWO32
  }

  predicate LoopGoesOn(n: nat, len: nat, k: nat) {
    (LoopPosition(n, k) + 63) % TWO32 < len
  }

  lemma PositionClass(n: nat, k: nat)
    ensures (n + LoopPosition(n, k)) % 64 == 0
  {
    var p := 64 - n % 64 + 64 * k;
    assert (n + p) % 64 == 0;
    assert p == LoopPosition(n, k) + TWO32 * (p / TWO32);
  }

  lemma ScanEndClass(n: nat, len: nat)
    ensures (n + ScanEnd(n, len)) % 64 == 0
  {
  }

  lemma GuardHolds(n: nat, len: nat, q: nat)
    requires len < TWO32 && q < TWO32 && (n + q) % 64 == 0 && ScanEnd(n, len) + 63 >= TWO32
    ensures (q + 63) % TWO32 < len
  {
    ScanEndClass(n, len);
    if q + 63 < TWO32 {
      assert q <= ScanEnd(n, len) - 64;
    } else {
      assert (q + 63) % TWO32 == q + 63 - TWO32;
    }
  }

  /** The block loop, once entered, ends if and only if the last whole block lies below the wrap. */
  lemma LoopEndsIff(n: nat, len: nat)
    requires n % 64 + len >= 64 && len < TWO32
    ensures (exists k: nat :: !LoopGoesOn(n, len, k)) <==> ScanEnd(n, len) + 63 < TWO32
  {
    if ScanEnd(n, len) + 63 < TWO32 {
      ScanEndClass(n, len);
      var k := (ScanEnd(n, len) - (64 - n % 64)) / 64;
      assert 64 - n % 64 + 64 * k == ScanEnd(n, len);
      assert !LoopGoesOn(n, len, k);
    } else {
      forall k: nat ensures LoopGoesOn(n, len, k) {
        PositionClass(n, k);
        GuardHolds(n, len, LoopPosition(n, k));
      }
    }
  }

  /** Behind one byte, the loop on 2^32 - 1 bytes never ends. */
  lemma LoopNeverEnds(k: nat)
    ensures LoopGoesOn(1, TWO32 - 1, k)
  {
    LoopEndsIff(1, TWO32 - 1);
  }

  /** The first update of a message, whatever its length, stays below the wrap. */
  lemma FirstUpdateNeverWraps(len: nat)
    requires len < TWO32
    ensures ScanEnd(0, len) + 63 < TWO32
  {
  }

  lemma ShortInputsNeverWrap(index: nat, len: nat)
    requires len < TWO32 - 63
    ensures ScanEnd(index, len) + 63 < TWO32
  {
  }
}

/** The streaming interface.  Blocks are folded by `Transform`; most proofs know it by a name only. */
module Md5Object {
  import opened Md5Block
  import opened Md5Spec

  type BlockFunction = (Regs, Block) -> Regs

  /** `f` is a name for the compression of section 3.4 of RFC 1321. */
  ghost predicate Folds(f: BlockFunction) {
    forall s: Regs, b: Block {:trigger Compress(s, b)} :: f(s, b) == Compress(s, b)
  }

  method Fold(s: Regs, b: Block, ghost f: BlockFunction) returns (s': Regs)
    requires Folds(f)
    ensures s' == f(s, b)
  {
    s' := Transform(s, b);
  }

  /** The bytes of a message that wait in the buffer. */
  function Pending(message: seq<Octet>): seq<Octet> {
    message[|message| - |message| % 64..]
  }

  function Whole(message: seq<Octet>): (w: seq<Octet>)
    ensures |w| % 64 == 0
  {
    message[..|message| - |message| % 64]
  }

  lemma Parts(message: seq<Octet>, chunk: seq<Octet>)
    ensures message == Whole(message) + Pending(message) && |Pending(message)| == |message| % 64
    ensures message + chunk == Whole(message) + (Pending(message) + chunk)
  {
  }

  lemma SplitAt(message: seq<Octet>, input: seq<Octet>, i: nat)
    requires i <= |input|
    ensures message + input == (message + input[..i]) + input[i..]
  {
  }

  lemma Slices(message: seq<Octet>, input: seq<Octet>, i: nat, j: nat)
    requires i <= j <= |input|
    ensures message + input[..j] == (message + input[..i]) + input[i..j]
  {
  }

  /** A message that ends with fewer than 64 bytes behind whole blocks has them pending. */
  lemma PendingIs(whole: seq<Octet>, tail: seq<Octet>)
    requires |whole| % 64 == 0 && |tail| < 64
    ensures Pending(whole + tail) == tail && |whole + tail| % 64 == |tail|
  {
    assert |whole + tail| % 64 == |tail|;
  }

  lemma FirstBlock<S>(f: (S, Block) -> S, s0: S, message: seq<Octet>, chunk: seq<Octet>)
    requires |message| % 64 + |chunk| == 64
    ensures |Pending(message) + chunk| == 64 && |message + chunk| % 64 == 0
    ensures Absorb(f, s0, message + chunk) == f(Absorb(f, s0, message), Pending(message) + chunk)
  {
    Parts(message, chunk);
    AbsorbTail(f, s0, Whole(message), Pending(message));
    AbsorbBlock(f, s0, Whole(message), Pending(message) + chunk);
  }

  lemma FewBytes<S>(f: (S, Block) -> S, s0: S, message: seq<Octet>, input: seq<Octet>)
    requires |message| % 64 + |input| < 64
    ensures Absorb(f, s0, message + input) == Absorb(f, s0, message)
    ensures Pending(message + input) == Pending(message) + input && |message + input| % 64 == |message| % 64 + |input|
  {
    Parts(message, input);
    AbsorbTail(f, s0, Whole(message), Pending(message));
    AbsorbTail(f, s0, Whole(message), Pending(message) + input);
    PendingIs(Whole(message), Pending(message) + input);
  }

  /** MD5_memcpy into the buffer. */
  method CopyInto(buffer: array<Octet>, at: nat, chunk: seq<Octet>)
    requires at + |chunk| <= buffer.Length
    modifies buffer
    ensures buffer[..at + |chunk|] == old(buffer[..at]) + chunk
  {
    for i := 0 to |chunk|
      invariant buffer[..at + i] == old(buffer[..at]) + chunk[..i]
    {
      buffer[at + i] := chunk[i];
    }
  }

  class Md5Context {
    ghost const f: BlockFunction
    var state: Regs
    var count0: int
    var count1: int
    const buffer: array<Octet>

    // Everything fed in since the context was initialised.
    ghost var message: seq<Octet>

    ghost predicate Valid()
      reads this, buffer
    {
      && Folds(f) && buffer.Length == 64
      && CountIs(count0, count1, |message|)
      && state == Absorb(f, INITIAL, message)
      && buffer[..|message| % 64] == Pending(message)
    }

    /** `MD5Init` */
    constructor (ghost f: BlockFunction)
      requires Folds(f)
      ensures Valid() && message == [] && fresh(buffer) && this.f == f
    {
      this.f := f;
      count0, count1 := 0, 0;
      state := INITIAL;
      buffer := new Octet[64];
      message := [];
    }

    /** `MD5Update`, on inputs whose block loop does not wrap its 32-bit guard. */
    method Update(input: seq<Octet>)
      requires Valid() && |input| < TWO32
      requires ScanEnd(|message|, |input|) + 63 < TWO32
      modifies this, buffer
      ensures Valid() && message == old(message) + input
    {
      IndexIs(count0, count1, |message|);
      var index := (count0 / 8) % 64;
      AddToCount(|input|);
      Feed(input, index);
      message := message + input;
    }

    method AddToCount(inputLen: nat)
      requires CountIs(count0, count1, |message|) && inputLen < TWO32
      modifies this`count0, this`count1
      ensures CountIs(count0, count1, |message| + inputLen)
    {
      CountAdds(count0, count1, |message|, inputLen);
      var shifted := (inputLen * 8) % TWO32;
      count0 := (count0 + shifted) % TWO32;
      if count0 < shifted {
        count1 := (count1 + 1) % TWO32;
      }
      count1 := (count1 + inputLen / 0x2000_0000) % TWO32;
    }

    method Feed(input: seq<Octet>, index: nat)
      requires Folds(f) && buffer.Length == 64 && index == |message| % 64 && |input| < TWO32
      requires state == Absorb(f, INITIAL, message) && buffer[..index] == Pending(message)
      requires ScanEnd(|message|, |input|) + 63 < TWO32
      modifies this`state, buffer
      ensures state == Absorb(f, INITIAL, message + input)
      ensures buffer[..|message + input| % 64] == Pending(message + input)
    {
      var partLen := 64 - index;
      if |input| >= partLen {
        var i := WholeBlocks(input, index, partLen);
        SplitAt(message, input, i);
        AbsorbTail(f, INITIAL, message + input[..i], input[i..]);
        PendingIs(message + input[..i], input[i..]);
        CopyInto(buffer, 0, input[i..]);
      } else {
        FewBytes(f, INITIAL, message, input);
        CopyInto(buffer, index, input[0..]);
      }
    }

    /** Completes the block in the buffer, then takes whole blocks straight from the input. */
    method WholeBlocks(input: seq<Octet>, index: nat, partLen: nat) returns (i: nat)
      requires Folds(f) && buffer.Length == 64 && index == |message| % 64 && partLen == 64 - index <= |input| < TWO32
      requires state == Absorb(f, INITIAL, message) && buffer[..index] == Pending(message)
      requires ScanEnd(|message|, |input|) + 63 < TWO32
      modifies this`state, buffer
      ensures i <= |input| && |input| - i < 64 && (|message| + i) % 64 == 0
      ensures state == Absorb(f, INITIAL, message + input[..i])
    {
      FirstBlock(f, INITIAL, message, input[..partLen]);
      CopyInto(buffer, index, input[..partLen]);
      assert buffer[..] == buffer[..64];
      state := Fold(state, buffer[..], f);
      i := Blocks(input, partLen, message);
    }

    method FoldOne(block: Block, ghost fed: seq<Octet>)
      requires Folds(f) && |fed| % 64 == 0 && state == Absorb(f, INITIAL, fed)
      modifies this`state
      ensures state == Absorb(f, INITIAL, fed + block)
    {
      AbsorbBlock(f, INITIAL, fed, block);
      state := Fold(state, block, f);
    }

    /** The block loop of `MD5Update`. */
    method Blocks(input: seq<Octet>, start: nat, ghost m: seq<Octet>) returns (i: nat)
      requires Folds(f) && start <= |input| < TWO32 && (|m| + start) % 64 == 0
      requires ScanEnd(|m|, |input|) + 63 < TWO32
      requires state == Absorb(f, INITIAL, m + input[..start])
      modifies this`state
      ensures start <= i <= |input| && |input| - i < 64 && (|m| + i) % 64 == 0
      ensures state == Absorb(f, INITIAL, m + input[..i])
    {
      i := start;
      ghost var fed := m + input[..i];
      while (i + 63) % TWO32 < |input|
        invariant start <= i <= |input| && (|m| + i) % 64 == 0
        invariant fed == m + input[..i] && state == Absorb(f, INITIAL, fed)
        decreases |input| - i
      {
        StillABlock(|m|, i, |input|);
        var block := input[i..i + 64];
        Slices(m, input, i, i + 64);
        FoldOne(block, fed);
        fed := fed + block;
        i := i + 64;
      }
    }

    /** `MD5Final`: the digest of everything fed in, after which the context holds zeros. */
    method Final() returns (digest: seq<Octet>)
      requires Valid()
      modifies this, buffer
      ensures digest == DigestWith(f, old(message))
      ensures state == Regs(0, 0, 0, 0) && count0 == count1 == 0 && buffer[..] == Zeros(64)
    {
      var bits := CountBytes();
      Pad();
      ShortInputsNeverWrap(|message|, 8);
      Update(bits);
      digest := StateBytes();
      Wipe();
    }

    method CountBytes() returns (bits: seq<Octet>)
      requires CountIs(count0, count1, |message|)
      ensures bits == LengthBytes(|message|)
    {
      CountHalves(count0, count1, |message|);
      bits := EncodeLoop([count0 as Word, count1 as Word]);
    }

    method StateBytes() returns (bytes: seq<Octet>)
      ensures bytes == EncodeRegs(state)
    {
      bytes := EncodeLoop([state.a, state.b, state.c, state.d]);
    }

    method Pad()
      requires Valid()
      modifies this, buffer
      ensures Valid() && message == old(message) + Padding(|old(message)|)
    {
      IndexIs(count0, count1, |message|);
      var index := (count0 / 8) % 64;
      var padLen := if index < 56 then 56 - index else 120 - index;
      PaddingPrefix(|message|);
      ShortInputsNeverWrap(|message|, padLen);
      Update(PADDING[..padLen]);
    }

    /** MD5_memset over the context. */
    method Wipe()
      requires buffer.Length == 64
      modifies this, buffer
      ensures state == Regs(0, 0, 0, 0) && count0 == count1 == 0 && buffer[..] == Zeros(64)
    {
      for i := 0 to 64
        invariant forall j :: 0 <= j < i ==> buffer[j] == 0
      {
        buffer[i] := 0;
      }
      state, count0, count1 := Regs(0, 0, 0, 0), 0, 0;
    }
  }

  const PADDING: seq<Octet> := [0x80] + Zeros(63)

  lemma PaddingPrefix(n: nat)
    ensures PadLength(n) <= 64 && PADDING[..PadLength(n)] == Padding(n)
  {
  }

  lemma StillABlock(n: nat, i: nat, len: nat)
    requires i <= len < TWO32 && (n + i) % 64 == 0 && ScanEnd(n, len) + 63 < TWO32
    ensures i + 63 < TWO32
  {
  }

  // ---------------------------------------------------------------- whole messages

  function Concat(chunks: seq<seq<Octet>>): seq<Octet> {
    if chunks == [] then [] else Concat(chunks[..|chunks| - 1]) + chunks[|chunks| - 1]
  }

  /** The block loop of every update ends. */
  ghost predicate UpdatesEnd(chunks: seq<seq<Octet>>) {
    forall i {:trigger chunks[i]} ::
      0 <= i < |chunks| ==> |chunks[i]| < TWO32 && ScanEnd(|Concat(chunks[..i])|, |chunks[i]|) + 63 < TWO32
  }

  method DigestChunksWith(ghost f: BlockFunction, chunks: seq<seq<Octet>>) returns (digest: seq<Octet>)
    requires Folds(f) && UpdatesEnd(chunks)
    ensures digest == DigestWith(f, Concat(chunks))
  {
    var context := new Md5Context(f);
    for i := 0 to |chunks|
      invariant context.Valid() && fresh(context) && fresh(context.buffer) && context.f == f
      invariant context.message == Concat(chunks[..i])
    {
      context.Update(chunks[i]);
      assert chunks[..i + 1][..i] == chunks[..i];
    }
    assert chunks[..|chunks|] == chunks;
    digest := context.Final();
  }

  /** However a message is cut into updates, the digest is that of the whole message. */
  method DigestChunks(chunks: seq<seq<Octet>>) returns (digest: seq<Octet>)
    requires UpdatesEnd(chunks)
    ensures digest == Digest(Concat(chunks))
  {
    digest := DigestChunksWith(Compress, chunks);
  }

  method DigestBufferWith(ghost f: BlockFunction, buffer: seq<Octet>) returns (digest: seq<Octet>)
    requires Folds(f) && |buffer| < TWO32
    ensures digest == DigestWith(f, buffer)
  {
    var context := new Md5Context(f);
    FirstUpdateNeverWraps(|buffer|);
    context.Update(buffer);
    assert [] + buffer == buffer;
    digest := context.Final();
  }

  /** `MD5Buffer`, on every length that its argument can hold. */
  method DigestBuffer(buffer: seq<Octet>) returns (digest: seq<Octet>)
    requires |buffer| < TWO32
    ensures digest == Digest(buffer)
  {
    digest := DigestBufferWith(Compress, buffer);
  }

  method DigestFileWith(ghost f: BlockFunction, content: seq<Octet>) returns (digest: seq<Octet>)
    requires Folds(f)
    ensures digest == DigestWith(f, content)
  {
    var context := new Md5Context(f);
    var pos := 0;
    while pos < |content|
      invariant 0 <= pos <= |content|
      invariant context.Valid() && fresh(context) && fresh(context.buffer) && context.f == f
      invariant context.message == content[..pos]
    {
      pos := ReadPiece(context, content, pos);
    }
    assert content[..|content|] == content;
    digest := context.Final();
  }

  method ReadPiece(context: Md5Context, content: seq<Octet>, pos: nat) returns (next: nat)
    requires context.Valid() && pos < |content| && context.message == content[..pos]
    modifies context, context.buffer
    ensures context.Valid() && pos < next <= |content| && next - pos <= 1024 && context.message == content[..next]
  {
    var len := if |content| - pos < 1024 then |content| - pos else 1024;
    ShortInputsNeverWrap(|context.message|, len);
    context.Update(content[pos..pos + len]);
    next := pos + len;
    assert content[..pos] + content[pos..next] == content[..next];
  }

  /** `MD5File`: reads of at most 1024 bytes until the content is used up. */
  method DigestFile(content: seq<Octet>) returns (digest: seq<Octet>)
    ensures digest == Digest(content)
  {
    digest := DigestFileWith(Compress, content);
  }
}
