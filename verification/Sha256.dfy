/** The streaming SHA-256 class, compared with FIPS 180-4. */
module Sha256 {

  type Byte = x: int | 0 <= x < 256

  /** A uint32_t; addition wraps around. */
  type Word = bv32

  /** The round constants of section 4.2.2 of FIPS 180-4, eight in a row. */
  function K(t: nat): Word
    requires t < 64
  {
    KRow(t / 8)[t % 8]
  }

  function KRow(r: nat): (ks: seq<Word>)
    requires r < 8
    ensures |ks| == 8
  {
    match r
    case 0 => [0x428a2f98, 0x71374491, 0xb5c0fbcf, 0xe9b5dba5, 0x3956c25b, 0x59f111f1, 0x923f82a4, 0xab1c5ed5]
    case 1 => [0xd807aa98, 0x12835b01, 0x243185be, 0x550c7dc3, 0x72be5d74, 0x80deb1fe, 0x9bdc06a7, 0xc19bf174]
    case 2 => [0xe49b69c1, 0xefbe4786, 0x0fc19dc6, 0x240ca1cc, 0x2de92c6f, 0x4a7484aa, 0x5cb0a9dc, 0x76f988da]
    case 3 => [0x983e5152, 0xa831c66d, 0xb00327c8, 0xbf597fc7, 0xc6e00bf3, 0xd5a79147, 0x06ca6351, 0x14292967]
    case 4 => [0x27b70a85, 0x2e1b2138, 0x4d2c6dfc, 0x53380d13, 0x650a7354, 0x766a0abb, 0x81c2c92e, 0x92722c85]
    case 5 => [0xa2bfe8a1, 0xa81a664b, 0xc24b8b70, 0xc76c51a3, 0xd192e819, 0xd6990624, 0xf40e3585, 0x106aa070]
    case 6 => [0x19a4c116, 0x1e376c08, 0x2748774c, 0x34b0bcb5, 0x391c0cb3, 0x4ed8aa4a, 0x5b9cca4f, 0x682e6ff3]
    case _ => [0x748f82ee, 0x78a5636f, 0x84c87814, 0x8cc70208, 0x90befffa, 0xa4506ceb, 0xbef9a3f7, 0xc67178f2]
  }

  // ----- section 4.1.2 and section 6.2.2 of FIPS 180-4 -----

  function Add(x: Word, y: Word): Word { x + y }
  function Xor(x: Word, y: Word): Word { x ^ y }
  function And(x: Word, y: Word): Word { x & y }
  function Or(x: Word, y: Word): Word { x | y }
  function Not(x: Word): Word { !x }

  function Widen(b: Byte): Word { b as Word }

  function Shr(x: Word, n: nat): Word
    requires n <= 32
  {
    x >> n
  }

  function Shl(x: Word, n: nat): Word
    requires n <= 32
  {
    x << n
  }

  function Rotr(x: Word, n: nat): Word
    requires n <= 32
  {
    Or(Shr(x, n), Shl(x, 32 - n))
  }

  function Ch(x: Word, y: Word, z: Word): Word { Xor(And(x, y), And(Not(x), z)) }
  function Maj(x: Word, y: Word, z: Word): Word { Xor(Xor(And(x, y), And(x, z)), And(y, z)) }
  function BigSigma0(x: Word): Word { Xor(Xor(Rotr(x, 2), Rotr(x, 13)), Rotr(x, 22)) }
  function BigSigma1(x: Word): Word { Xor(Xor(Rotr(x, 6), Rotr(x, 11)), Rotr(x, 25)) }
  function SmallSigma0(x: Word): Word { Xor(Xor(Rotr(x, 7), Rotr(x, 18)), Shr(x, 3)) }
  function SmallSigma1(x: Word): Word { Xor(Xor(Rotr(x, 17), Rotr(x, 19)), Shr(x, 10)) }

  function Sum3(p: Word, q: Word, r: Word): Word { Add(Add(p, q), r) }
  function Sum4(p: Word, q: Word, r: Word, s: Word): Word { Add(Sum3(p, q, r), s) }
  function Sum5(p: Word, q: Word, r: Word, s: Word, t: Word): Word { Add(Sum4(p, q, r, s), t) }

  type Block = b: seq<Byte> | |b| == 64 witness seq(64, i => 0)

  function BigEndian(b: Block, i: nat): Word
    requires i < 16
  {
    Or(Or(Or(Shl(Widen(b[i * 4]), 24), Shl(Widen(b[i * 4 + 1]), 16)), Shl(Widen(b[i * 4 + 2]), 8)), Widen(b[i * 4 + 3]))
  }

  /** The message schedule; addition is commutative, and the order here is the code's. */
  function W(b: Block, t: nat): Word
    requires t < 64
  {
    if t < 16 then BigEndian(b, t)
    else Sum4(W(b, t - 16), SmallSigma0(W(b, t - 15)), W(b, t - 7), SmallSigma1(W(b, t - 2)))
  }

  /** The eight working variables, also used for a hash value. */
  datatype Vars = Vars(a: Word, b: Word, c: Word, d: Word, e: Word, f: Word, g: Word, h: Word)

  function Round(v: Vars, k: Word, w: Word): Vars {
    var t1 := Sum5(v.h, BigSigma1(v.e), Ch(v.e, v.f, v.g), k, w);
    var t2 := Add(BigSigma0(v.a), Maj(v.a, v.b, v.c));
    Vars(Add(t1, t2), v.a, v.b, v.c, Add(v.d, t1), v.e, v.f, v.g)
  }

  function Rounds(v: Vars, b: Block, t: nat): Vars
    requires t <= 64
  {
    if t == 0 then v else Round(Rounds(v, b, t - 1), K(t - 1), W(b, t - 1))
  }

  function Compress(v: Vars, b: Block): Vars {
    var r := Rounds(v, b, 64);
    Vars(Add(v.a, r.a), Add(v.b, r.b), Add(v.c, r.c), Add(v.d, r.d),
         Add(v.e, r.e), Add(v.f, r.f), Add(v.g, r.g), Add(v.h, r.h))
  }

  const H0 := Vars(0x6a09e667, 0xbb67ae85, 0x3c6ef372, 0xa54ff53a, 0x510e527f, 0x9b05688c, 0x1f83d9ab, 0x5be0cd19)

  // ----- block folding -----

  type Bytes = seq<Byte>

  /** Compresses every complete block; what is left is shorter than a block. */
  function Blocks(v: Vars, msg: Bytes): (r: (Vars, Bytes))
    ensures |r.1| == |msg| % 64
    decreases |msg|
  {
    if |msg| < 64 then (v, msg)
    else
      assert (|msg| - 64) % 64 == |msg| % 64;
      Blocks(Compress(v, msg[..64]), msg[64..])
  }

  lemma {:induction false} BlocksAppend(v: Vars, msg: Bytes, more: Bytes)
    ensures var (v1, rest) := Blocks(v, msg); Blocks(v, msg + more) == Blocks(v1, rest + more)
    decreases |msg|
  {
    if |msg| >= 64 {
      assert (msg + more)[..64] == msg[..64] && (msg + more)[64..] == msg[64..] + more;
      BlocksAppend(Compress(v, msg[..64]), msg[64..], more);
    }
  }

  const TWO_64 := 0x1_0000_0000_0000_0000

  /** The abstract state of the hasher. */
  datatype Context = Context(state: Vars, pending: Bytes, bitLen: nat)

  function Feed(c: Context, data: Bytes): Context {
    var (v, rest) := Blocks(c.state, c.pending + data);
    Context(v, rest, (c.bitLen + |data| * 8) % TWO_64)
  }

  /** Two updates are one update with the concatenation: splits of a message do not matter. */
  lemma FeedSplit(c: Context, x: Bytes, y: Bytes)
    ensures Feed(Feed(c, x), y) == Feed(c, x + y)
  {
    hide Blocks;
    BlocksAppend(c.state, c.pending + x, y);
    assert c.pending + (x + y) == (c.pending + x) + y;
    ModAdd(c.bitLen + |x| * 8, |y| * 8);
  }

  lemma ModAdd(a: nat, b: nat)
    ensures (a % TWO_64 + b) % TWO_64 == (a + b) % TWO_64
  {
    var q := a / TWO_64;
    assert a == q * TWO_64 + a % TWO_64;
    ModShift(a % TWO_64 + b, q);
  }

  lemma {:induction false} ModShift(x: nat, q: nat)
    ensures (x + q * TWO_64) % TWO_64 == x % TWO_64
  {
    if q > 0 {
      ModShift(x, q - 1);
      assert x + q * TWO_64 == (x + (q - 1) * TWO_64) + TWO_64;
    }
  }

  // ----- padding -----

  function PadLen(n: nat): nat {
    if n % 64 < 56 then 56 - n % 64 else 64 + 56 - n % 64
  }

  function Pad(n: nat): (p: Bytes)
    ensures |p| == PadLen(n)
  {
    [0x80] + seq(PadLen(n) - 1, _ => 0)
  }

  function Shifted(x: nat, bytes: nat): nat {
    if bytes == 0 then x else Shifted(x, bytes - 1) / 256
  }

  /** Eight bytes, most significant first. */
  function LengthField(x: nat): (r: Bytes)
    ensures |r| == 8
  {
    seq(8, i requires 0 <= i < 8 => Shifted(x, 7 - i) % 256)
  }

  /** The padded message of section 5.1.1: the length field holds the message length in bits. */
  function FipsPadded(msg: Bytes): Bytes {
    msg + Pad(|msg|) + LengthField(|msg| * 8 % TWO_64)
  }

  /** The padded message of the code: the padding has already been counted when the length
      field is written. */
  function CodedPadded(msg: Bytes): Bytes {
    msg + Pad(|msg|) + LengthField((|msg| + PadLen(|msg|)) * 8 % TWO_64)
  }

  lemma PaddedIsWholeBlocks(msg: Bytes)
    ensures |CodedPadded(msg)| == |FipsPadded(msg)| && |CodedPadded(msg)| % 64 == 0
    ensures 1 <= PadLen(|msg|) <= 64 && (|msg| + PadLen(|msg|)) % 64 == 56
  {
    hide PadLen, Shifted;
    PadFills(|msg|);
  }

  lemma PadFills(n: nat)
    ensures 1 <= PadLen(n) <= 64 && (n + PadLen(n)) % 64 == 56
  {
    assert n == 64 * (n / 64) + n % 64;
  }

  function Pow256(n: nat): nat { if n == 0 then 1 else 256 * Pow256(n - 1) }

  lemma {:induction false} ShiftedBound(x: nat, bytes: nat, n: nat)
    requires bytes <= n && x < Pow256(n)
    ensures Shifted(x, bytes) < Pow256(n - bytes)
  {
    if bytes > 0 {
      ShiftedBound(x, bytes - 1, n);
    }
  }

  lemma ShiftedBytes(x: nat)
    requires x < TWO_64
    ensures x == Shifted(x, 0) && Shifted(x, 8) == 0
    ensures forall i :: 0 <= i < 8 ==> Shifted(x, i) == Shifted(x, i + 1) * 256 + Shifted(x, i) % 256
  {
    assert Pow256(4) == 0x1_0000_0000;
    assert Pow256(8) == TWO_64;
    ShiftedBound(x, 8, 8);
    assert forall i :: 0 <= i < 8 ==> Shifted(x, i + 1) == Shifted(x, i) / 256;
  }

  lemma LengthFieldInjective(x: nat, y: nat)
    requires x < TWO_64 && y < TWO_64 && LengthField(x) == LengthField(y)
    ensures x == y
  {
    ShiftedBytes(x);
    ShiftedBytes(y);
    var i := 8;
    while i > 0
      invariant 0 <= i <= 8 && Shifted(x, i) == Shifted(y, i)
    {
      i := i - 1;
      assert LengthField(x)[7 - i] == LengthField(y)[7 - i];
    }
  }

  /** The code's length field exceeds the one of section 5.1.1 by the size of the padding, so
      no message at all is padded as the standard prescribes. */
  lemma LengthFieldDiffers(msg: Bytes)
    ensures var n := |msg| * 8 % TWO_64;
            CodedPadded(msg) == msg + Pad(|msg|) + LengthField((n + PadLen(|msg|) * 8) % TWO_64)
    ensures CodedPadded(msg) != FipsPadded(msg)
    ensures CodedPadded(msg)[..|msg| + PadLen(|msg|)] == FipsPadded(msg)[..|msg| + PadLen(|msg|)]
  {
    var n, p := |msg| * 8 % TWO_64, PadLen(|msg|) * 8;
    ModAdd(|msg| * 8, p);
    assert (|msg| + PadLen(|msg|)) * 8 == |msg| * 8 + p;
    var head := msg + Pad(|msg|);
    assert CodedPadded(msg)[|head|..] == LengthField((n + p) % TWO_64);
    assert FipsPadded(msg)[|head|..] == LengthField(n);
    assert (n + p) % TWO_64 != n;
    if LengthField((n + p) % TWO_64) == LengthField(n) {
      LengthFieldInjective((n + p) % TWO_64, n);
    }
    assert CodedPadded(msg)[..|head|] == head == FipsPadded(msg)[..|head|];
  }

  // ----- the digest -----

  function HexDigit(w: Word, shift: nat): char
    requires shift <= 28
  {
    "0123456789abcdef"[And(Shr(w, shift), 0xf) as nat]
  }

  function HexWord(w: Word): string {
    seq(8, i requires 0 <= i < 8 => HexDigit(w, 28 - 4 * i))
  }

  function Hex(v: Vars): string {
    HexWord(v.a) + HexWord(v.b) + HexWord(v.c) + HexWord(v.d) +
    HexWord(v.e) + HexWord(v.f) + HexWord(v.g) + HexWord(v.h)
  }

  /** The digest of a message: the block fold over its padded form. */
  function Digest(msg: Bytes): string {
    Hex(Blocks(H0, CodedPadded(msg)).0)
  }

  // ----- the class -----

  class SHA256 {
    var bitLen: nat
    var state: Vars
    var bufferSize: nat
    const buffer: array<Byte>

    ghost predicate Valid()
      reads this, buffer
    {
      buffer.Length == 64 && bufferSize < 64 && bitLen < TWO_64
    }

    ghost function Ctx(): Context
      reads this, buffer
      requires buffer.Length == 64 && bufferSize <= 64
    {
      Context(state, buffer[..bufferSize], bitLen)
    }

    constructor ()
      ensures Valid() && fresh(buffer) && Ctx() == Context(H0, [], 0)
    {
      bitLen, state, bufferSize := 0, H0, 0;
      buffer := new Byte[64](_ => 0);
    }

    method Update(data: Bytes)
      requires Valid()
      modifies this, buffer
      ensures Valid() && Ctx() == Feed(old(Ctx()), data)
    {
      hide Blocks, Compress;
      ghost var c0 := Ctx();
      bitLen := (bitLen + |data| * 8) % TWO_64;
      var pos, len := 0, |data|;
      assert data[0..] == data;
      while len > 0
        invariant 0 <= len && 0 <= pos && pos + len == |data| && buffer.Length == 64 && bufferSize < 64
        invariant Blocks(state, buffer[..bufferSize] + data[pos..]) == Blocks(c0.state, c0.pending + data)
        invariant bitLen == (c0.bitLen + |data| * 8) % TWO_64
      {
        var toCopy := if len < 64 - bufferSize then len else 64 - bufferSize;
        ghost var pending := buffer[..bufferSize];
        Fill(data, pos, toCopy);
        MoveSplit(pending, data, pos, toCopy);
        bufferSize := bufferSize + toCopy;
        pos, len := pos + toCopy, len - toCopy;
        if bufferSize == 64 {
          FullBlock(state, buffer[..], data[pos..]);
          assert buffer[..64] == buffer[..];
          ProcessBlock();
          bufferSize := 0;
          assert buffer[..0] + data[pos..] == data[pos..];
        }
      }
      assert buffer[..bufferSize] + data[pos..] == buffer[..bufferSize];
      ShortIsPending(state, buffer[..bufferSize]);
    }

    /** Copies the next bytes behind those in the buffer. */
    method Fill(data: Bytes, pos: nat, toCopy: nat)
      requires buffer.Length == 64 && bufferSize + toCopy <= 64 && pos + toCopy <= |data|
      modifies buffer
      ensures buffer[..bufferSize + toCopy] == old(buffer[..bufferSize]) + data[pos..pos + toCopy]
    {
      forall k | 0 <= k < toCopy {
        buffer[bufferSize + k] := data[pos + k];
      }
      assert buffer[bufferSize..bufferSize + toCopy] == data[pos..pos + toCopy];
      assert buffer[..bufferSize + toCopy] == buffer[..bufferSize] + buffer[bufferSize..bufferSize + toCopy];
    }

    /** One application of the compression function to the buffer. */
    method ProcessBlock()
      requires buffer.Length == 64
      modifies this`state
      ensures state == Compress(old(state), buffer[..])
    {
      hide Add, Xor, And, Or, Not, Shr, Shl, Widen, Rotr, W, Rounds, K;
      ghost var block: Block := buffer[..];
      ghost var v0 := state;
      var w := new Word[64];
      for i := 0 to 16
        invariant state == v0 && forall t :: 0 <= t < i ==> w[t] == W(block, t)
      {
        ScheduleStart(block, i);
        w[i] := Or(Or(Or(Shl(Widen(buffer[i * 4]), 24), Shl(Widen(buffer[i * 4 + 1]), 16)),
                      Shl(Widen(buffer[i * 4 + 2]), 8)), Widen(buffer[i * 4 + 3]));
      }
      for i := 16 to 64
        invariant state == v0 && forall t :: 0 <= t < i ==> w[t] == W(block, t)
      {
        ScheduleStep(block, i);
        var s0 := Xor(Xor(Rotr(w[i - 15], 7), Rotr(w[i - 15], 18)), Shr(w[i - 15], 3));
        var s1 := Xor(Xor(Rotr(w[i - 2], 17), Rotr(w[i - 2], 19)), Shr(w[i - 2], 10));
        w[i] := Sum4(w[i - 16], s0, w[i - 7], s1);
      }
      var a, b, c, d := state.a, state.b, state.c, state.d;
      var e, f, g, h := state.e, state.f, state.g, state.h;
      RoundsStart(v0, block);
      for i := 0 to 64
        invariant Vars(a, b, c, d, e, f, g, h) == Rounds(v0, block, i) && state == v0
        invariant forall t :: 0 <= t < 64 ==> w[t] == W(block, t)
      {
        RoundsStep(v0, block, i);
        var S1 := Xor(Xor(Rotr(e, 6), Rotr(e, 11)), Rotr(e, 25));
        var ch := Xor(And(e, f), And(Not(e), g));
        var temp1 := Sum5(h, S1, ch, K(i), w[i]);
        var S0 := Xor(Xor(Rotr(a, 2), Rotr(a, 13)), Rotr(a, 22));
        var maj := Xor(Xor(And(a, b), And(a, c)), And(b, c));
        var temp2 := Add(S0, maj);
        h := g;
        g := f;
        f := e;
        e := Add(d, temp1);
        d := c;
        c := b;
        b := a;
        a := Add(temp1, temp2);
      }
      state := Vars(Add(state.a, a), Add(state.b, b), Add(state.c, c), Add(state.d, d),
                    Add(state.e, e), Add(state.f, f), Add(state.g, g), Add(state.h, h));
    }

    /** Padding, length field and hexadecimal digest. The length field is taken from bitLen
        after the padding has been fed in. */
    method FinalHex() returns (hex: string)
      requires Valid()
      modifies this, buffer
      ensures hex == Hex(Blocks(old(state), old(buffer[..bufferSize]) + Pad(old(bufferSize)) +
                                LengthField((old(bitLen) + PadLen(old(bufferSize)) * 8) % TWO_64)).0)
    {
      hide Blocks, Shifted, Hex, Feed;
      ghost var c0 := Ctx();
      var pad := new Byte[64](i => if i == 0 then 0x80 else 0);
      var mod := bufferSize % 64;
      var padLen := if mod < 56 then 56 - mod else 64 + 56 - mod;
      assert pad[..padLen] == Pad(bufferSize);
      Update(pad[..padLen]);

      var lenBytes := new Byte[8](_ => 0);
      for i := 0 to 8
        invariant Valid() && Ctx() == Feed(c0, Pad(old(bufferSize)))
        invariant forall k :: 0 <= k < i ==> lenBytes[7 - k] == Shifted(bitLen, k) % 256
      {
        lenBytes[7 - i] := Shifted(bitLen, i) % 256;
      }
      assert lenBytes[..] == LengthField(bitLen);
      FedTwice(c0, Pad(old(bufferSize)), LengthField(bitLen));
      Update(lenBytes[..]);
      hex := Hex(state);
    }
  }

  /** The fields of a context that was fed in two parts. */
  lemma FedTwice(c: Context, x: Bytes, y: Bytes)
    ensures Feed(c, x).bitLen == (c.bitLen + |x| * 8) % TWO_64
    ensures Feed(Feed(c, x), y).state == Blocks(c.state, c.pending + x + y).0
  {
    hide Blocks;
    FeedSplit(c, x, y);
    assert c.pending + (x + y) == c.pending + x + y;
  }

  lemma ShortIsPending(v: Vars, msg: Bytes)
    requires |msg| < 64
    ensures Blocks(v, msg) == (v, msg)
  {
  }

  lemma FullBlock(v: Vars, block: Bytes, more: Bytes)
    requires |block| == 64
    ensures Blocks(v, block + more) == Blocks(Compress(v, block), more)
  {
    assert (block + more)[..64] == block && (block + more)[64..] == more;
  }

  lemma ScheduleStart(b: Block, i: nat)
    requires i < 16
    ensures W(b, i) == BigEndian(b, i)
  {
  }

  lemma ScheduleStep(b: Block, i: nat)
    requires 16 <= i < 64
    ensures W(b, i) == Sum4(W(b, i - 16), SmallSigma0(W(b, i - 15)), W(b, i - 7), SmallSigma1(W(b, i - 2)))
  {
    hide Sum4, SmallSigma0, SmallSigma1;
  }

  lemma RoundsStart(v: Vars, b: Block)
    ensures Rounds(v, b, 0) == v
  {
  }

  lemma RoundsStep(v: Vars, b: Block, i: nat)
    requires i < 64
    ensures Rounds(v, b, i + 1) == Round(Rounds(v, b, i), K(i), W(b, i))
  {
    hide Round, W, K;
  }

  // ----- whole messages -----

  function Concat(chunks: seq<Bytes>): Bytes {
    if chunks == [] then [] else Concat(chunks[..|chunks| - 1]) + chunks[|chunks| - 1]
  }

  lemma SamePadding(n: nat, m: nat)
    requires n % 64 == m % 64
    ensures Pad(n) == Pad(m) && PadLen(n) == PadLen(m)
  {
  }

  /** The buffer of a hasher that was fed msg determines the padding of msg. */
  lemma FinalIsDigest(msg: Bytes)
    ensures var c := Feed(Context(H0, [], 0), msg);
            && |c.pending| < 64
            && Digest(msg) == Hex(Blocks(c.state, c.pending + Pad(|c.pending|) +
                                         LengthField((c.bitLen + PadLen(|c.pending|) * 8) % TWO_64)).0)
  {
    hide Blocks, Shifted, Hex, LengthField, Pad, PadLen, CodedPadded;
    var c := Feed(Context(H0, [], 0), msg);
    assert [] + msg == msg;
    SamePadding(|c.pending|, |msg|);
    LengthFieldDiffers(msg);
    var pad, field := Pad(|msg|), LengthField((c.bitLen + PadLen(|msg|) * 8) % TWO_64);
    BlocksAppend(H0, msg, pad + field);
    Associate(msg, pad, field);
    Associate(c.pending, pad, field);
  }

  lemma Associate(a: Bytes, b: Bytes, c: Bytes)
    ensures a + (b + c) == a + b + c
  {
  }

  lemma NothingFed()
    ensures Feed(Context(H0, [], 0), []) == Context(H0, [], 0)
  {
    assert [] + [] == Context(H0, [], 0).pending;
  }

  lemma MoveSplit(pending: Bytes, data: Bytes, pos: nat, n: nat)
    requires pos + n <= |data|
    ensures pending + data[pos..] == (pending + data[pos..pos + n]) + data[pos + n..]
  {
    assert data[pos..] == data[pos..pos + n] + data[pos + n..];
  }

  /** Hashing a message in any number of pieces of any size, as sha256File does with its
      4096-byte reads, yields the digest of the whole message. */
  method HashChunks(chunks: seq<Bytes>) returns (hex: string)
    ensures hex == Digest(Concat(chunks))
  {
    hide Blocks, Feed, Hex, CodedPadded, Digest;
    NothingFed();
    var ctx := new SHA256();
    for i := 0 to |chunks|
      invariant ctx.Valid() && fresh(ctx) && fresh(ctx.buffer)
      invariant ctx.Ctx() == Feed(Context(H0, [], 0), Concat(chunks[..i]))
    {
      FeedSplit(Context(H0, [], 0), Concat(chunks[..i]), chunks[i]);
      assert chunks[..i + 1][..i] == chunks[..i];
      ctx.Update(chunks[i]);
    }
    assert chunks[..|chunks|] == chunks;
    FinalIsDigest(Concat(chunks));
    hex := ctx.FinalHex();
  }

  // ----- where the constants come from -----

  /** The first 64 primes, eight in a row. */
  function PrimeRow(r: nat): (ps: seq<nat>)
    requires r < 8
    ensures |ps| == 8
  {
    match r
    case 0 => [2, 3, 5, 7, 11, 13, 17, 19]
    case 1 => [23, 29, 31, 37, 41, 43, 47, 53]
    case 2 => [59, 61, 67, 71, 73, 79, 83, 89]
    case 3 => [97, 101, 103, 107, 109, 113, 127, 131]
    case 4 => [137, 139, 149, 151, 157, 163, 167, 173]
    case 5 => [179, 181, 191, 193, 197, 199, 211, 223]
    case 6 => [227, 229, 233, 239, 241, 251, 257, 263]
    case _ => [269, 271, 277, 281, 283, 293, 307, 311]
  }

  function Prime(t: nat): nat
    requires t < 64
  {
    PrimeRow(t / 8)[t % 8]
  }

  /** The integer part of the cube root of a number below 343. */
  function CubeRoot(p: nat): nat {
    if p < 8 then 1 else if p < 27 then 2 else if p < 64 then 3 else if p < 125 then 4 else if p < 216 then 5 else 6
  }

  /** k is the first 32 bits of the fraction of the cube root of p. */
  predicate CubeRootBits(k: nat, p: nat) {
    var r := CubeRoot(p) * 0x1_0000_0000 + k;
    && k < 0x1_0000_0000
    && r * r * r <= p * 0x1_0000_0000_0000_0000_0000_0000 < (r + 1) * (r + 1) * (r + 1)
  }

  lemma FirstRows(r: nat)
    requires r < 4
    ensures forall j :: 0 <= j < 8 ==> CubeRootBits(KRow(r)[j] as nat, PrimeRow(r)[j])
  {
    match r
    case 0 =>
    case 1 =>
    case 2 =>
    case _ =>
  }

  lemma LastRows(r: nat)
    requires 4 <= r < 8
    ensures forall j :: 0 <= j < 8 ==> CubeRootBits(KRow(r)[j] as nat, PrimeRow(r)[j])
  {
    match r
    case 4 =>
    case 5 =>
    case 6 =>
    case _ =>
  }

  /** The round constants are the first 32 bits of the fractions of the cube roots of the first
      64 primes. */
  lemma ConstantIs(t: nat)
    requires t < 64
    ensures CubeRootBits(K(t) as nat, Prime(t))
  {
    hide CubeRootBits, KRow, PrimeRow;
    if t < 32 {
      FirstRows(t / 8);
    } else {
      LastRows(t / 8);
    }
  }

  /** h is the first 32 bits of the fraction of the square root of p, whose integer part is c. */
  predicate SquareRootBits(h: Word, p: nat, c: nat) {
    var r := c * 0x1_0000_0000 + h as nat;
    r * r <= p * 0x1_0000_0000_0000_0000 < (r + 1) * (r + 1)
  }

  /** So is the initial hash value, of the square roots of the first eight primes. */
  lemma InitialValueIs()
    ensures SquareRootBits(H0.a, 2, 1) && SquareRootBits(H0.b, 3, 1) && SquareRootBits(H0.c, 5, 2) && SquareRootBits(H0.d, 7, 2)
    ensures SquareRootBits(H0.e, 11, 3) && SquareRootBits(H0.f, 13, 3)
    ensures SquareRootBits(H0.g, 17, 4) && SquareRootBits(H0.h, 19, 4)
  {
  }

  /** Ch takes y where x has ones, and z where it has none. */
  lemma ChIs(y: Word, z: Word)
    ensures Ch(0xffff_ffff, y, z) == y
    ensures Ch(0, y, z) == z
  {
  }

  /** Maj follows two arguments that agree. */
  lemma MajFirstTwo(x: Word, y: Word)
    ensures Maj(x, x, y) == x
  {
  }

  lemma MajOuterTwo(x: Word, y: Word)
    ensures Maj(x, y, x) == x
  {
  }

  lemma MajLastTwo(x: Word, y: Word)
    ensures Maj(y, x, x) == x
  {
  }

  /** Where the sigma functions move the highest bit, and the lowest. */
  lemma BigSigma0Moves()
    ensures BigSigma0(0x8000_0000) == 0x2004_0200
    ensures BigSigma0(1) == 0x4008_0400
  {
    assert Rotr(0x8000_0000, 2) == 0x2000_0000;
    assert Rotr(0x8000_0000, 13) == 0x0004_0000;
    assert Rotr(0x8000_0000, 22) == 0x0000_0200;
    assert Rotr(1, 2) == 0x4000_0000;
    assert Rotr(1, 13) == 0x0008_0000;
    assert Rotr(1, 22) == 0x0000_0400;
    hide Rotr, Shr;
  }

  lemma BigSigma1Moves()
    ensures BigSigma1(0x8000_0000) == 0x0210_0040
    ensures BigSigma1(1) == 0x0420_0080
  {
    assert Rotr(0x8000_0000, 6) == 0x0200_0000;
    assert Rotr(0x8000_0000, 11) == 0x0010_0000;
    assert Rotr(0x8000_0000, 25) == 0x0000_0040;
    assert Rotr(1, 6) == 0x0400_0000;
    assert Rotr(1, 11) == 0x0020_0000;
    assert Rotr(1, 25) == 0x0000_0080;
    hide Rotr, Shr;
  }

  lemma SmallSigma0Moves()
    ensures SmallSigma0(0x8000_0000) == 0x1100_2000
    ensures SmallSigma0(1) == 0x0200_4000
  {
    assert Rotr(0x8000_0000, 7) == 0x0100_0000;
    assert Rotr(0x8000_0000, 18) == 0x0000_2000;
    assert Shr(0x8000_0000, 3) == 0x1000_0000;
    assert Rotr(1, 7) == 0x0200_0000;
    assert Rotr(1, 18) == 0x0000_4000;
    assert Shr(1, 3) == 0x0000_0000;
    hide Rotr, Shr;
  }

  lemma SmallSigma1Moves()
    ensures SmallSigma1(0x8000_0000) == 0x0020_5000
    ensures SmallSigma1(1) == 0x0000_a000
  {
    assert Rotr(0x8000_0000, 17) == 0x0000_4000;
    assert Rotr(0x8000_0000, 19) == 0x0000_1000;
    assert Shr(0x8000_0000, 10) == 0x0020_0000;
    assert Rotr(1, 17) == 0x0000_8000;
    assert Rotr(1, 19) == 0x0000_2000;
    assert Shr(1, 10) == 0x0000_0000;
    hide Rotr, Shr;
  }

  /** Sums of words take every operand, and wrap around. */
  lemma AddIs(p: Word, q: Word)
    ensures Add(p, q) == p + q
    ensures Add(0xffff_ffff, 1) == 0
  {
  }

  lemma SumsTakeAll()
    ensures Sum3(1, 2, 4) == 7 && Sum4(1, 2, 4, 8) == 15 && Sum5(1, 2, 4, 8, 16) == 31
  {
  }

  // ----- the text of a digest -----

  lemma EightDigits(w: Word)
    ensures |HexWord(w)| == 8
  {
  }

  lemma LeftPieces(a: string, b: string, c: string, d: string, e: string, f: string, g: string, h: string)
    requires |a| == |b| == |c| == |d| == |e| == |f| == |g| == |h| == 8
    ensures var all := a + b + c + d + e + f + g + h;
            |all| == 64 && all[..8] == a && all[8..16] == b && all[16..24] == c && all[24..32] == d
  {
  }

  lemma RightPieces(a: string, b: string, c: string, d: string, e: string, f: string, g: string, h: string)
    requires |a| == |b| == |c| == |d| == |e| == |f| == |g| == |h| == 8
    ensures var all := a + b + c + d + e + f + g + h;
            |all| == 64 && all[32..40] == e && all[40..48] == f && all[48..56] == g && all[56..64] == h
  {
  }

  /** A digest is printed word by word, eight digits each. */
  lemma HexPieces(v: Vars)
    ensures var h := Hex(v);
            && |h| == 64
            && h[..8] == HexWord(v.a) && h[8..16] == HexWord(v.b) && h[16..24] == HexWord(v.c) && h[24..32] == HexWord(v.d)
            && h[32..40] == HexWord(v.e) && h[40..48] == HexWord(v.f) && h[48..56] == HexWord(v.g) && h[56..64] == HexWord(v.h)
  {
    hide HexWord;
    EightDigits(v.a);
    EightDigits(v.b);
    EightDigits(v.c);
    EightDigits(v.d);
    EightDigits(v.e);
    EightDigits(v.f);
    EightDigits(v.g);
    EightDigits(v.h);
    LeftPieces(HexWord(v.a), HexWord(v.b), HexWord(v.c), HexWord(v.d), HexWord(v.e), HexWord(v.f), HexWord(v.g), HexWord(v.h));
    RightPieces(HexWord(v.a), HexWord(v.b), HexWord(v.c), HexWord(v.d), HexWord(v.e), HexWord(v.f), HexWord(v.g), HexWord(v.h));
  }

  lemma HexDigitsOf(w: Word)
    ensures |HexWord(w)| == 8 && HexWord(w)[0] == HexDigit(w, 28) && HexWord(w)[1] == HexDigit(w, 24)
    ensures HexWord(w)[2] == HexDigit(w, 20) && HexWord(w)[3] == HexDigit(w, 16) && HexWord(w)[4] == HexDigit(w, 12)
    ensures HexWord(w)[5] == HexDigit(w, 8) && HexWord(w)[6] == HexDigit(w, 4) && HexWord(w)[7] == HexDigit(w, 0)
  {
  }

  /** Every digit once. */
  lemma HexExamples()
    ensures HexWord(0x0123_4567) == "01234567" && HexWord(0x89ab_cdef) == "89abcdef"
  {
    hide HexWord;
    HexDigitsOf(0x0123_4567);
    HexDigitsOf(0x89ab_cdef);
  }
}
