/** Incremental MD5 (src/md5.c) and the `-R` digest made with it (src/line.c),
    against RFC 1321 applied to the whole message at once. */
module Md5 {
  import opened Bytes
  import Comparator

  const TWO64 := 0x1_0000_0000_0000_0000

  datatype State = State(a: bv32, b: bv32, c: bv32, d: bv32)

  const INIT := State(0x67452301, 0xefcdab89, 0x98badcfe, 0x10325476)

  // The table of section 3.4 of RFC 1321, a part for each round.
  const K1: seq<bv32> := [
    0xd76aa478, 0xe8c7b756, 0x242070db, 0xc1bdceee, 0xf57c0faf, 0x4787c62a, 0xa8304613, 0xfd469501,
    0x698098d8, 0x8b44f7af, 0xffff5bb1, 0x895cd7be, 0x6b901122, 0xfd987193, 0xa679438e, 0x49b40821]

  const K2: seq<bv32> := [
    0xf61e2562, 0xc040b340, 0x265e5a51, 0xe9b6c7aa, 0xd62f105d, 0x02441453, 0xd8a1e681, 0xe7d3fbc8,
    0x21e1cde6, 0xc33707d6, 0xf4d50d87, 0x455a14ed, 0xa9e3e905, 0xfcefa3f8, 0x676f02d9, 0x8d2a4c8a]

  const K3: seq<bv32> := [
    0xfffa3942, 0x8771f681, 0x6d9d6122, 0xfde5380c, 0xa4beea44, 0x4bdecfa9, 0xf6bb4b60, 0xbebfbc70,
    0x289b7ec6, 0xeaa127fa, 0xd4ef3085, 0x04881d05, 0xd9d4d039, 0xe6db99e5, 0x1fa27cf8, 0xc4ac5665]

  const K4: seq<bv32> := [
    0xf4292244, 0x432aff97, 0xab9423a7, 0xfc93a039, 0x655b59c3, 0x8f0ccc92, 0xffeff47d, 0x85845dd1,
    0x6fa87e4f, 0xfe2ce6e0, 0xa3014314, 0x4e0811a1, 0xf7537e82, 0xbd3af235, 0x2ad7d2bb, 0xeb86d391]

  /** Shift amounts: four to a round, each used four times. */
  const SHIFTS: seq<bv6> := [7, 12, 17, 22, 5, 9, 14, 20, 4, 11, 16, 23, 6, 10, 15, 21]

  /** Addition modulo 2 to the 32. */
  function Add(x: bv32, y: bv32): bv32 {
    x + y
  }

  function Rotl(x: bv32, s: bv6): bv32
    requires 0 < s < 32
  {
    (x << s) | (x >> (32 - s))
  }

  function Shift(i: nat): (s: bv6)
    requires i < 64
    ensures 0 < s < 32
  {
    SHIFTS[(i / 16) * 4 + i % 4]
  }

  /** The auxiliary function of step `i`. */
  function Aux(i: nat, x: bv32, y: bv32, z: bv32): bv32 {
    if i < 16 then (x & y) | (!x & z)
    else if i < 32 then (z & x) | (!z & y)
    else if i < 48 then x ^ y ^ z
    else y ^ (x | !z)
  }

  /** The word that step `i` adds. */
  function WordIndex(i: nat): (g: nat)
    ensures g < 16
  {
    if i < 16 then i else if i < 32 then (5 * i + 1) % 16 else if i < 48 then (3 * i + 5) % 16 else (7 * i) % 16
  }

  function Constant(i: nat): bv32
    requires i < 64
  {
    if i < 16 then K1[i] else if i < 32 then K2[i - 16] else if i < 48 then K3[i - 32] else K4[i - 48]
  }

  function Step(s: State, m: seq<bv32>, i: nat): State
    requires |m| == 16 && i < 64
  {
    State(s.d, Add(s.b, Rotl(Add(Add(Add(s.a, Aux(i, s.b, s.c, s.d)), Constant(i)), m[WordIndex(i)]), Shift(i))), s.b, s.c)
  }

  function Steps(s: State, m: seq<bv32>, n: nat): State
    requires |m| == 16 && n <= 64
  {
    if n == 0 then s else Step(Steps(s, m, n - 1), m, n - 1)
  }

  function Word(block: Text, i: nat): bv32
    requires |block| == 64 && i < 16
  {
    (block[4 * i] as bv32) | ((block[4 * i + 1] as bv32) << 8) | ((block[4 * i + 2] as bv32) << 16) | ((block[4 * i + 3] as bv32) << 24)
  }

  function Words(block: Text): (m: seq<bv32>)
    requires |block| == 64
    ensures |m| == 16
  {
    seq(16, i requires 0 <= i < 16 => Word(block, i))
  }

  /** What one block does to the state. */
  function Compress(s: State, block: Text): State
    requires |block| == 64
  {
    var r := Steps(s, Words(block), 64);
    State(Add(s.a, r.a), Add(s.b, r.b), Add(s.c, r.c), Add(s.d, r.d))
  }

  /** The state after the full blocks of `t`, from the left. */
  function Chain(s: State, t: Text): State
    requires |t| % 64 == 0
    decreases |t|
  {
    if t == [] then s else Compress(Chain(s, t[..|t| - 64]), t[|t| - 64..])
  }

  /** Least significant byte first. */
  function LittleEndian(n: nat, k: nat): (r: Text)
    ensures |r| == k
  {
    if k == 0 then [] else [n % 256] + LittleEndian(n / 256, k - 1)
  }

  /** Section 3.1 of RFC 1321: a one bit, then zeros up to 56 bytes into a block. */
  function Padding(len: nat): (p: Text)
    ensures 1 <= |p| <= 64 && (len + |p|) % 64 == 56
  {
    var rem := len % 64;
    [0x80] + seq((if rem < 56 then 56 - rem else 120 - rem) - 1, _ => 0)
  }

  /** Section 3.2 of RFC 1321: the length in bits, the low 64 bits of it. */
  function LengthField(len: nat): (r: Text)
    ensures |r| == 8
  {
    LittleEndian((len * 8) % TWO64, 8)
  }

  lemma PaddedLength(n: nat, k: nat)
    requires (n + k) % 64 == 56
    ensures (n + k + 8) % 64 == 0
  {
  }

  function Padded(t: Text): (p: Text)
    ensures |p| % 64 == 0
  {
    PaddedLength(|t|, |Padding(|t|)|);
    t + Padding(|t|) + LengthField(|t|)
  }

  function WordBytes(x: bv32): (r: Text)
    ensures |r| == 4
  {
    [(x as bv32 & 0xFF) as bv8 as int, ((x >> 8) & 0xFF) as bv8 as int, ((x >> 16) & 0xFF) as bv8 as int, ((x >> 24) & 0xFF) as bv8 as int]
  }

  function Output(s: State): (r: Text)
    ensures |r| == 16
  {
    WordBytes(s.a) + WordBytes(s.b) + WordBytes(s.c) + WordBytes(s.d)
  }

  /** The MD5 digest of a message. */
  function Digest(t: Text): (r: Text)
    ensures |r| == 16
  {
    Output(Chain(INIT, Padded(t)))
  }

  // ---------- The block transform ----------

  method LoadWords(block: Text) returns (m: seq<bv32>)
    requires |block| == 64
    ensures m == Words(block)
  {
    hide Word;
    m := [];
    for i := 0 to 16
      invariant |m| == i && forall k :: 0 <= k < i ==> m[k] == Word(block, k)
    {
      m := m + [Word(block, i)];
    }
  }

  lemma StepIs(a: bv32, b: bv32, c: bv32, d: bv32, m: seq<bv32>, i: nat)
    requires |m| == 16 && i < 64
    ensures Step(State(a, b, c, d), m, i) ==
            State(d, Add(b, Rotl(Add(Add(Add(a, Aux(i, b, c, d)), Constant(i)), m[WordIndex(i)]), Shift(i))), b, c)
  {
    hide Add, Rotl, Aux, Constant, WordIndex, Shift;
  }

  lemma StepsStart(s: State, m: seq<bv32>)
    requires |m| == 16
    ensures Steps(s, m, 0) == s
  {
  }

  lemma StepsNext(s: State, m: seq<bv32>, n: nat)
    requires |m| == 16 && n < 64
    ensures Steps(s, m, n + 1) == Step(Steps(s, m, n), m, n)
  {
  }

  lemma CompressIs(s: State, block: Text)
    requires |block| == 64
    ensures var r := Steps(s, Words(block), 64); Compress(s, block) == State(Add(s.a, r.a), Add(s.b, r.b), Add(s.c, r.c), Add(s.d, r.d))
  {
    hide Add, Steps;
  }

  method Transform(s: State, block: Text) returns (r: State)
    requires |block| == 64
    ensures r == Compress(s, block)
  {
    hide *;
    var m := LoadWords(block);
    var a, b, c, d := s.a, s.b, s.c, s.d;
    StepsStart(s, m);
    for i := 0 to 64
      invariant State(a, b, c, d) == Steps(s, m, i)
    {
      StepIs(a, b, c, d, m, i);
      StepsNext(s, m, i);
      var f := Aux(i, b, c, d);
      var tmp := d;
      d := c;
      c := b;
      b := Add(b, Rotl(Add(Add(Add(a, f), Constant(i)), m[WordIndex(i)]), Shift(i)));
      a := tmp;
    }
    CompressIs(s, block);
    r := State(Add(s.a, a), Add(s.b, b), Add(s.c, c), Add(s.d, d));
  }

  /** One operation in the notation of section 3.4 of RFC 1321: `x` is replaced. */
  function Operation(x: bv32, y: bv32, z: bv32, w: bv32, m: seq<bv32>, i: nat): bv32
    requires |m| == 16 && i < 64
  {
    Add(y, Rotl(Add(Add(Add(x, Aux(i, y, z, w)), Constant(i)), m[WordIndex(i)]), Shift(i)))
  }

  /** Four steps with rotating registers are four operations in place, on the
      registers A, D, C and B in turn. */
  lemma FourOperations(s: State, m: seq<bv32>, q: nat)
    requires |m| == 16 && q < 16
    ensures var t := Steps(s, m, 4 * q);
      var a := Operation(t.a, t.b, t.c, t.d, m, 4 * q);
      var d := Operation(t.d, a, t.b, t.c, m, 4 * q + 1);
      var c := Operation(t.c, d, a, t.b, m, 4 * q + 2);
      var b := Operation(t.b, c, d, a, m, 4 * q + 3);
      Steps(s, m, 4 * q + 4) == State(a, b, c, d)
  {
    hide Step, Steps, Operation;
    var t := Steps(s, m, 4 * q);
    StepIsOperation(t, m, 4 * q);
    StepsNext(s, m, 4 * q);
    StepIsOperation(Steps(s, m, 4 * q + 1), m, 4 * q + 1);
    StepsNext(s, m, 4 * q + 1);
    StepIsOperation(Steps(s, m, 4 * q + 2), m, 4 * q + 2);
    StepsNext(s, m, 4 * q + 2);
    StepIsOperation(Steps(s, m, 4 * q + 3), m, 4 * q + 3);
    StepsNext(s, m, 4 * q + 3);
  }

  lemma StepIsOperation(s: State, m: seq<bv32>, i: nat)
    requires |m| == 16 && i < 64
    ensures Step(s, m, i) == State(s.d, Operation(s.a, s.b, s.c, s.d, m, i), s.b, s.c)
  {
    hide Add, Rotl, Aux, Constant, WordIndex, Shift;
  }

  // ---------- Any chunking ----------

  lemma ChainBlock(s: State, t: Text, block: Text)
    requires |t| % 64 == 0 && |block| == 64
    ensures Chain(s, t + block) == Compress(Chain(s, t), block)
  {
    assert (t + block)[..|t + block| - 64] == t && (t + block)[|t + block| - 64..] == block;
    hide Compress;
  }

  /** The bytes in full blocks, and the bytes after them. */
  function Blocks(t: Text): (r: Text)
    ensures |r| % 64 == 0
  {
    t[..|t| - |t| % 64]
  }

  function Remainder(t: Text): Text {
    t[|t| - |t| % 64..]
  }

  class Context {
    var state: State
    var count: nat
    const buffer: array<Byte>
    /** Everything hashed so far. */
    ghost var message: Text

    /** The state is the fold over the full blocks, the buffer starts with what
        is left over, and the count wraps at 64 bits. */
    ghost predicate Valid()
      reads this, buffer
    {
      && buffer.Length == 64
      && count == |message| % TWO64
      && state == Chain(INIT, Blocks(message))
      && buffer[..|message| % 64] == Remainder(message)
    }

    constructor ()
      ensures Valid() && message == [] && fresh(buffer)
    {
      state, count, message := INIT, 0, [];
      buffer := new Byte[64](_ => 0);
    }

    method Fill(at: nat, data: Text)
      requires buffer.Length == 64 && at + |data| <= 64
      modifies buffer
      ensures buffer[..at + |data|] == old(buffer[..at]) + data
    {
      for i := 0 to |data|
        invariant buffer[..at] == old(buffer[..at])
        invariant buffer[at..at + i] == data[..i]
      {
        buffer[at + i] := data[i];
        assert buffer[at..at + i + 1] == buffer[at..at + i] + [data[i]];
      }
      assert buffer[..at + |data|] == buffer[..at] + buffer[at..at + |data|];
    }

    /** `rank_md5_update`: top up the buffer, take whole blocks, keep the rest. */
    method Update(data: Text)
      requires Valid()
      modifies this, buffer
      ensures Valid() && message == old(message) + data
    {
      hide Chain, Compress, Blocks, Remainder;
      ghost var before := message;
      var rem := count % 64;
      CountMod(|message|, |data|);
      count := (count + |data|) % TWO64;
      message := message + data;
      var i := 0;
      if rem > 0 {
        if |data| < 64 - rem {
          Fill(rem, data);
          ShortUpdate(before, data);
          return;
        }
        i := 64 - rem;
        Fill(rem, data[..i]);
        assert buffer[..64] == buffer[..];
        BlockDone(before, data[..i], buffer[..]);
        state := Transform(state, buffer[..]);
      } else {
        Aligned(before, data);
      }
      state, i := TakeBlocks(state, data, i, before);
      Fill(0, data[i..]);
      LeftOver(before, data, i);
    }

    /** The loop over whole blocks. */
    method TakeBlocks(s: State, data: Text, start: nat, ghost before: Text) returns (t: State, i: nat)
      requires start <= |data| && (|before| + start) % 64 == 0
      requires s == Chain(INIT, before + data[..start])
      ensures start <= i <= |data| < i + 64 && (|before| + i) % 64 == 0
      ensures t == Chain(INIT, before + data[..i])
    {
      hide Chain, Compress;
      t, i := s, start;
      while i + 64 <= |data|
        invariant start <= i <= |data| && (|before| + i) % 64 == 0
        invariant t == Chain(INIT, before + data[..i])
      {
        ChainBlock(INIT, before + data[..i], data[i..i + 64]);
        assert before + data[..i] + data[i..i + 64] == before + data[..i + 64];
        t := Transform(t, data[i..i + 64]);
        i := i + 64;
      }
    }

    constructor Copy(from: Context)
      requires from.Valid()
      ensures Valid() && message == from.message && fresh(buffer)
    {
      state, count, message := from.state, from.count, from.message;
      buffer := new Byte[64](i requires 0 <= i < 64 && from.buffer.Length == 64 reads from, from.buffer => from.buffer[i]);
      new;
      assert buffer[..|message| % 64] == from.buffer[..|message| % 64];
    }

    /** `rank_md5_final`: padding and length, then the state byte by byte. */
    method Final() returns (digest: Text)
      requires Valid()
      modifies this, buffer
      ensures digest == Digest(old(message))
    {
      hide Chain, Compress, Blocks, Remainder, WordBytes;
      ghost var m := message;
      var bits := (count * 8) % TWO64;
      var rem := count % 64;
      CountMod(|m|, 0);
      CountBits(|m|);
      var pad: Text := [0x80] + seq((if rem < 56 then 56 - rem else 120 - rem) - 1, _ => 0);
      assert pad == Padding(|m|);
      var length := LengthBytes(bits);
      Update(pad);
      Update(length);
      assert message == Padded(m);
      WholeBlocks(message);
      digest := WordBytes(state.a) + WordBytes(state.b) + WordBytes(state.c) + WordBytes(state.d);
    }
  }

  lemma Mod64Is(n: int, q: int, r: nat)
    requires n == 64 * q + r && r < 64
    ensures n % 64 == r
  {
  }

  lemma ModTwo64Is(n: int, q: int, r: nat)
    requires n == TWO64 * q + r && r < TWO64
    ensures n % TWO64 == r
  {
  }

  lemma CountMod(n: nat, len: nat)
    ensures (n % TWO64) % 64 == n % 64
    ensures (n % TWO64 + len) % TWO64 == (n + len) % TWO64
  {
    var q, r := n / TWO64, n % TWO64;
    assert n == TWO64 * q + r && TWO64 == 64 * 288230376151711744;
    Mod64Is(n, 288230376151711744 * q + r / 64, r % 64);
    var u, v := (r + len) / TWO64, (r + len) % TWO64;
    ModTwo64Is(n + len, q + u, v);
  }

  lemma ShortUpdate(before: Text, data: Text)
    requires 0 < |before| % 64 && |before| % 64 + |data| < 64
    ensures Blocks(before + data) == Blocks(before)
    ensures Remainder(before + data) == Remainder(before) + data
    ensures |before + data| % 64 == |before| % 64 + |data|
  {
    var n := |before| - |before| % 64;
    assert |before + data| % 64 == |before| % 64 + |data|;
    assert (before + data)[..n] == before[..n];
  }

  lemma BlocksSplit(t: Text)
    ensures t == Blocks(t) + Remainder(t) && |Remainder(t)| == |t| % 64
  {
  }

  lemma BlockMore(b: Text, r: Text, fill: Text)
    requires |b| % 64 == 0 && |r + fill| == 64
    ensures |(b + r) + fill| % 64 == 0
    ensures Chain(INIT, (b + r) + fill) == Compress(Chain(INIT, b), r + fill)
  {
    hide Chain, Compress;
    assert (b + r) + fill == b + (r + fill);
    ChainBlock(INIT, b, r + fill);
  }

  lemma BlockDone(before: Text, fill: Text, block: Text)
    requires |before| % 64 + |fill| == 64 && block == Remainder(before) + fill
    ensures |before + fill| % 64 == 0 && |block| == 64
    ensures Chain(INIT, before + fill) == Compress(Chain(INIT, Blocks(before)), block)
  {
    hide *;
    BlocksSplit(before);
    BlockMore(Blocks(before), Remainder(before), fill);
  }

  lemma Aligned(before: Text, data: Text)
    requires |before| % 64 == 0
    ensures Blocks(before) == before + data[..0]
  {
  }

  lemma LeftOver(before: Text, data: Text, i: nat)
    requires i <= |data| < i + 64 && (|before| + i) % 64 == 0
    ensures Blocks(before + data) == before + data[..i] && Remainder(before + data) == data[i..]
    ensures |before + data| % 64 == |data| - i
  {
    assert |before + data| == |before| + i + (|data| - i);
    assert |before + data| % 64 == |data| - i;
    assert before + data == (before + data[..i]) + data[i..];
  }

  lemma CountBits(n: nat)
    ensures ((n % TWO64) * 8) % TWO64 == (n * 8) % TWO64
  {
  }

  lemma WholeBlocks(t: Text)
    requires |t| % 64 == 0
    ensures Blocks(t) == t
  {
  }

  method LengthBytes(bits: nat) returns (r: Text)
    ensures r == LittleEndian(bits, 8)
  {
    r := [];
    var rest := bits;
    for i := 0 to 8
      invariant r + LittleEndian(rest, 8 - i) == LittleEndian(bits, 8)
    {
      assert r + LittleEndian(rest, 8 - i) == (r + [rest % 256]) + LittleEndian(rest / 256, 7 - i);
      r := r + [rest % 256];
      rest := rest / 256;
    }
  }

  // ---------- The `-R` digest ----------

  /** With a seed, the digest of a text is a function of its bytes. */
  function SeededDigest(seed: Text): Text -> Text {
    (t: Text) => Digest(seed + t)
  }

  const CHUNK := 256

  /** One more byte for the chunk, which is hashed when it is full. */
  method Absorb(ctx: Context, chunk: Text, b: Byte) returns (next: Text)
    requires ctx.Valid() && |chunk| < CHUNK
    modifies ctx, ctx.buffer
    ensures ctx.Valid() && |next| < CHUNK
    ensures ctx.message + next == old(ctx.message) + chunk + [b]
  {
    hide Chain, Blocks, Remainder;
    next := chunk + [b];
    if |next| == CHUNK {
      ctx.Update(next);
      next := [];
    }
  }

  lemma FilteredStep(t: Text, i: nat, m: Comparator.Modifiers)
    requires i < |t|
    ensures Comparator.FilteredFrom(t, i, m) ==
            (if Comparator.Keep(t[i], m) then [Comparator.Fold(t[i], m)] else []) + Comparator.FilteredFrom(t, i + 1, m)
  {
  }

  lemma FilteredEnds(t: Text, m: Comparator.Modifiers)
    ensures Comparator.FilteredFrom(t, 0, m) == Comparator.Filtered(t, m) && Comparator.FilteredFrom(t, |t|, m) == []
  {
  }

  /** `compute_random_digest`: filtered bytes go through a 256-byte chunk, and the
      result is the digest of all of them at once. */
  method RandomDigest(base: Context, t: Text, m: Comparator.Modifiers) returns (digest: Text)
    requires base.Valid()
    ensures digest == SeededDigest(base.message)(Comparator.Filtered(t, m))
  {
    hide Digest, Comparator.Keep, Comparator.Fold, Comparator.FilteredFrom, Comparator.Filtered, Chain, Blocks, Remainder;
    var ctx := new Context.Copy(base);
    if m.None() {
      Comparator.FilteredNone(t, m);
      ctx.Update(t);
      digest := ctx.Final();
      return;
    }
    var chunk: Text := [];
    ghost var all := base.message + Comparator.Filtered(t, m);
    FilteredEnds(t, m);
    for i := 0 to |t|
      invariant ctx.Valid() && fresh(ctx) && fresh(ctx.buffer) && |chunk| < CHUNK
      invariant (ctx.message + chunk) + Comparator.FilteredFrom(t, i, m) == all
    {
      FilteredStep(t, i, m);
      if Comparator.Keep(t[i], m) {
        ghost var before := ctx.message + chunk;
        var b := Comparator.Fold(t[i], m);
        chunk := Absorb(ctx, chunk, b);
        assert before + ([b] + Comparator.FilteredFrom(t, i + 1, m)) == (before + [b]) + Comparator.FilteredFrom(t, i + 1, m);
      }
    }
    if |chunk| > 0 {
      ctx.Update(chunk);
    }
    assert ctx.message == all;
    digest := ctx.Final();
  }
}
