/**
 The streaming MD5 and SHA-1 contexts: chaining state, 64-bit bit count in two 32-bit words, and
 a block buffer. The block function is a parameter; what is proved is that the split of a
 message into updates does not matter and that finalisation pads as the standards say.
 */
module Digest {
  import opened Values
  import opened Seqs

  const WORD: nat := 0x1_0000_0000
  const DOUBLE: nat := 0x1_0000_0000_0000_0000

  /** Folds the block function over the full blocks of a message. */
  function Blocks<S>(f: (S, seq<Byte>) -> S, s: S, m: seq<Byte>): S
    decreases |m|
  {
    if |m| < 64 then s else Blocks(f, f(s, m[..64]), m[64..])
  }

  /** How much of a message is in full blocks. */
  function Full(n: nat): (k: nat)
    ensures k <= n < k + 64 && k % 64 == 0 && n - k == n % 64
  {
    n - n % 64
  }

  lemma {:induction false} BlocksConcat<S>(f: (S, seq<Byte>) -> S, s: S, a: seq<Byte>, b: seq<Byte>)
    requires |a| % 64 == 0
    ensures Blocks(f, s, a + b) == Blocks(f, Blocks(f, s, a), b)
    decreases |a|
  {
    if a == [] {
      assert a + b == b;
    } else {
      var m := a + b;
      assert m[..64] == a[..64] && m[64..] == a[64..] + b;
      BlocksConcat(f, f(s, a[..64]), a[64..], b);
    }
  }

  lemma BlocksOne<S>(f: (S, seq<Byte>) -> S, s: S, b: seq<Byte>)
    requires |b| == 64
    ensures Blocks(f, s, b) == f(s, b)
  {
    assert b[..64] == b && b[64..] == [];
  }

  /** One more block behind full ones. */
  lemma BlocksNext<S>(f: (S, seq<Byte>) -> S, s: S, a: seq<Byte>, b: seq<Byte>)
    requires |a| % 64 == 0 && |b| == 64
    ensures Blocks(f, s, a + b) == f(Blocks(f, s, a), b)
  {
    BlocksConcat(f, s, a, b);
    BlocksOne(f, Blocks(f, s, a), b);
  }

  /** A partial block does not show. */
  lemma BlocksFull<S>(f: (S, seq<Byte>) -> S, s: S, m: seq<Byte>)
    ensures Blocks(f, s, m) == Blocks(f, s, m[..Full(|m|)])
  {
    var k := Full(|m|);
    BlocksConcat(f, s, m[..k], m[k..]);
    Cut(m, k);
  }

  // ---------- the bit count ----------

  /** Two words hold the number of bits, having wrapped around the given number of times. */
  predicate Counts(lo: nat, hi: nat, wraps: nat, bytes: nat) {
    lo < WORD && hi < WORD && wraps * DOUBLE + hi * WORD + lo == 8 * bytes
  }

  lemma SameRest(a: nat, b: nat, k: nat)
    requires a == 64 * k + b
    ensures a % 64 == b % 64
  {
  }

  /** The byte position in the block, read off the low word. */
  lemma Position(lo: nat, hi: nat, wraps: nat, bytes: nat)
    requires Counts(lo, hi, wraps, bytes)
    ensures lo / 8 % 64 == bytes % 64
  {
    var k := wraps * 0x80_0000_0000_0000 + hi * 0x80_0000;
    assert 8 * bytes == 512 * k + lo;
    assert bytes == 64 * k + lo / 8;
    SameRest(bytes, lo / 8, k);
  }

  /** The remainder of a sum of two words, or of a word and a few. */
  lemma Wrapped(x: nat)
    requires x < 2 * WORD
    ensures x % WORD == if x < WORD then x else x - WORD
  {
  }

  lemma HighLow(len: nat)
    requires len < WORD
    ensures 8 * len == len / 0x2000_0000 * WORD + 8 * len % WORD
  {
  }

  /** Addition with carry, as far as the words go. */
  method AddCount(lo: nat, hi: nat, len: nat, ghost wraps: nat, ghost bytes: nat)
    returns (lo': nat, hi': nat, ghost wraps': nat)
    requires Counts(lo, hi, wraps, bytes) && len < WORD
    ensures Counts(lo', hi', wraps', bytes + len)
  {
    HighLow(len);
    var low, high := 8 * len % WORD, len / 0x2000_0000;
    Wrapped(lo + low);
    lo' := (lo + low) % WORD;
    hi' := hi;
    wraps' := wraps;
    if lo' < low { hi', wraps' := AddHigh(hi', 1, wraps'); }
    assert wraps' * DOUBLE + hi' * WORD + lo' == 8 * bytes + low;
    hi', wraps' := AddHigh(hi', high, wraps');
  }

  method AddHigh(hi: nat, n: nat, ghost wraps: nat) returns (hi': nat, ghost wraps': nat)
    requires hi < WORD && n < WORD
    ensures hi' < WORD && wraps' * DOUBLE + hi' * WORD == wraps * DOUBLE + (hi + n) * WORD
  {
    Wrapped(hi + n);
    hi' := (hi + n) % WORD;
    wraps' := if hi + n < WORD then wraps else wraps + 1;
  }

  // ---------- the loop over full blocks ----------

  /** Where the loop may stand: the position in the block comes out even. */
  predicate Even(ndx: nat, len: nat, i: int) { 64 - ndx <= i <= len && (ndx + i) % 64 == 0 }

  /** The last such place. */
  function LastEven(ndx: nat, len: nat): (i: nat)
    requires ndx < 64 && 64 - ndx <= len
    ensures Even(ndx, len, i) && len < i + 64
    ensures forall k :: Even(ndx, len, k) ==> k <= i
  {
    NoneBehind(ndx, len);
    len - (len + ndx) % 64
  }

  lemma NoneBehind(ndx: nat, len: nat)
    requires ndx < 64 && 64 - ndx <= len
    ensures Even(ndx, len, len - (len + ndx) % 64)
    ensures forall k :: Even(ndx, len, k) ==> k <= len - (len + ndx) % 64
  {
    var i := len - (len + ndx) % 64;
    forall k | Even(ndx, len, k) ensures k <= i {
      Apart64(ndx + i, ndx + k);
    }
  }

  lemma Apart64(a: int, b: int)
    requires a % 64 == 0 && b % 64 == 0
    ensures b < a + 64 ==> b <= a
  {
  }

  lemma EvenNext(ndx: nat, len: nat, i: int)
    requires Even(ndx, len, i) && i + 64 <= len
    ensures Even(ndx, len, i + 64)
  {
  }

  lemma EvenTotal(m: nat, len: nat, i: int)
    requires Even(m % 64, len, i)
    ensures (m + i) % 64 == 0
  {
  }

  /** Short enough for the 32-bit loop counter. */
  predicate Fits(ndx: nat, len: nat)
    requires ndx < 64
  {
    len < WORD && (64 - ndx <= len ==> LastEven(ndx, len) + 63 < WORD)
  }

  /** Everywhere in the input the guard of the loop tells whether another block is there, exactly for these lengths. */
  lemma FitsExact(ndx: nat, len: nat)
    requires ndx < 64 && len < WORD
    ensures Fits(ndx, len) <==> forall i :: Even(ndx, len, i) ==> ((i + 63) % WORD < len <==> i + 64 <= len)
  {
    if 64 - ndx <= len {
      var last := LastEven(ndx, len);
      Wrapped(last + 63);
      if Fits(ndx, len) {
        forall i | Even(ndx, len, i) ensures (i + 63) % WORD < len <==> i + 64 <= len {
          Wrapped(i + 63);
        }
      } else {
        assert Even(ndx, len, last);
      }
    }
  }

  /** Behind 63 bytes, an input of 2^32 - 63 bytes: at its end the guard still asks for another block. */
  lemma NearTheEnd(len: nat)
    requires len == 0xFFFF_FFC1
    ensures len < WORD && !Fits(63, len) && Even(63, len, len) && (len + 63) % WORD < len
  {
    assert LastEven(63, len) == len;
  }

  // ---------- the context ----------

  class Context<S> {
    const f: (S, seq<Byte>) -> S
    const init: S
    var state: S
    var lo: nat
    var hi: nat
    var buffer: seq<Byte>
    ghost var message: seq<Byte>
    ghost var wraps: nat

    /** State, buffer and count are those of the message so far. */
    ghost predicate Valid()
      reads this
    {
      |buffer| == 64 && Counts(lo, hi, wraps, |message|) &&
      state == Blocks(f, init, message) &&
      buffer[..|message| % 64] == message[Full(|message|)..]
    }

    constructor (f: (S, seq<Byte>) -> S, init: S)
      ensures Valid() && message == [] && this.f == f && this.init == init
    {
      this.f, this.init := f, init;
      state, lo, hi, buffer := init, 0, 0, seq(64, _ => 0);
      message, wraps := [], 0;
    }

    /** Takes more input, of any length the loop counter can work off. */
    method Update(input: seq<Byte>)
      requires Valid() && Fits(|message| % 64, |input|)
      modifies this
      ensures Valid() && message == old(message) + input
    {
      var ndx := lo / 8 % 64;
      Position(lo, hi, wraps, |message|);
      lo, hi, wraps := AddCount(lo, hi, |input|, wraps, |message|);
      var partLen := 64 - ndx;
      var i := 0;
      assert message + input[..0] == message;
      if |input| >= partLen {
        i := Absorb(ndx, input);
        ndx := 0;
      }
      Keep(ndx, i, input);
    }

    /** Completes the block in the buffer and works off the full blocks of the input. */
    method Absorb(ndx: nat, input: seq<Byte>) returns (i: nat)
      requires |buffer| == 64 && ndx == |message| % 64 && 64 - ndx <= |input| && Fits(ndx, |input|)
      requires state == Blocks(f, init, message) && buffer[..ndx] == message[Full(|message|)..]
      modifies this`state, this`buffer
      ensures i <= |input| < i + 64 && |buffer| == 64 && (|message| + i) % 64 == 0
      ensures state == Blocks(f, init, message + input[..i])
    {
      FitsExact(ndx, |input|);
      i := 64 - ndx;
      buffer := buffer[..ndx] + input[..i];
      Completed(f, init, message, input[..i], buffer);
      state := f(state, buffer);
      while (i + 63) % WORD < |input|
        invariant Even(ndx, |input|, i) && |buffer| == 64 && state == Blocks(f, init, message + input[..i])
      {
        EvenTotal(|message|, |input|, i);
        Taken(f, init, message, input, i);
        state := f(state, input[i..i + 64]);
        EvenNext(ndx, |input|, i);
        i := i + 64;
      }
      EvenTotal(|message|, |input|, i);
    }

    /** Buffers the rest of the input. */
    method Keep(ndx: nat, i: nat, input: seq<Byte>)
      requires |buffer| == 64 && i <= |input| && |input| - i < 64 - ndx && ndx == (|message| + i) % 64
      requires state == Blocks(f, init, message + input[..i]) && Counts(lo, hi, wraps, |message| + |input|)
      requires i == 0 ==> buffer[..ndx] == message[Full(|message|)..]
      requires i > 0 ==> ndx == 0
      modifies this`buffer, this`message
      ensures Valid() && message == old(message) + input
    {
      var end := ndx + (|input| - i);
      ghost var all := message + input;
      ghost var was := buffer[..ndx];
      buffer := buffer[..ndx] + input[i..] + buffer[end..];
      assert buffer[..end] == was + input[i..];
      Remainder(message, input, i, ndx, was);
      BlocksPartial(f, init, message + input[..i], input[i..]);
      Assoc(message, input[..i], input[i..]);
      Cut(input, i);
      message := all;
    }
  }

  /** The buffer with the first part of the input is the next block. */
  lemma Completed<S>(f: (S, seq<Byte>) -> S, init: S, m: seq<Byte>, part: seq<Byte>, block: seq<Byte>)
    requires |m| % 64 + |part| == 64 && block == m[Full(|m|)..] + part
    ensures f(Blocks(f, init, m), block) == Blocks(f, init, m + part) && (|m| + |part|) % 64 == 0
  {
    var k := Full(|m|);
    BlocksFull(f, init, m);
    BlocksNext(f, init, m[..k], block);
    Rejoin(m, k, part);
  }

  lemma Rejoin(m: seq<Byte>, k: nat, part: seq<Byte>)
    requires k <= |m|
    ensures m[..k] + (m[k..] + part) == m + part
  {
    Assoc(m[..k], m[k..], part);
    Cut(m, k);
  }

  lemma Taken<S>(f: (S, seq<Byte>) -> S, init: S, m: seq<Byte>, input: seq<Byte>, i: nat)
    requires i + 64 <= |input| && (|m| + i) % 64 == 0
    ensures f(Blocks(f, init, m + input[..i]), input[i..i + 64]) == Blocks(f, init, m + input[..i + 64])
  {
    BlocksNext(f, init, m + input[..i], input[i..i + 64]);
    Longer(m, input, i);
  }

  lemma Longer(m: seq<Byte>, input: seq<Byte>, i: nat)
    requires i + 64 <= |input|
    ensures m + input[..i] + input[i..i + 64] == m + input[..i + 64]
  {
    assert input[..i] + input[i..i + 64] == input[..i + 64];
    Assoc(m, input[..i], input[i..i + 64]);
  }

  /** What is left over is what the buffer holds. */
  lemma Remainder(m: seq<Byte>, input: seq<Byte>, i: nat, ndx: nat, was: seq<Byte>)
    requires i <= |input| && |input| - i < 64 - ndx && ndx == (|m| + i) % 64
    requires if i == 0 then was == m[Full(|m|)..] else was == [] && ndx == 0
    ensures |m + input| % 64 == ndx + |input| - i
    ensures (m + input)[Full(|m + input|)..] == was + input[i..]
  {
    var all := m + input;
    assert Full(|all|) == |m| + i - ndx;
    if i == 0 {
      assert all[Full(|m|)..] == m[Full(|m|)..] + input;
    } else {
      assert all[|m| + i..] == input[i..];
    }
  }

  /** Less than a block more does not change the fold. */
  lemma BlocksPartial<S>(f: (S, seq<Byte>) -> S, s: S, a: seq<Byte>, b: seq<Byte>)
    requires |a| % 64 + |b| < 64
    ensures Blocks(f, s, a + b) == Blocks(f, s, a)
  {
    var k := Full(|a|);
    SameFull(|a|, |b|);
    BlocksFull(f, s, a);
    BlocksFull(f, s, a + b);
    assert (a + b)[..k] == a[..k];
  }

  lemma SameFull(m: nat, n: nat)
    requires m % 64 + n < 64
    ensures Full(m + n) == Full(m)
  {
  }

  // ---------- finalisation ----------

  /** The number of zero bytes that bring n bytes and one more to 56 modulo 64. */
  function ZerosAfter(n: nat): (k: nat)
    ensures k < 64 && (n + 1 + k) % 64 == 56
  {
    if n % 64 < 56 then 55 - n % 64 else 119 - n % 64
  }

  function Zeros(k: nat): (z: seq<Byte>)
    ensures |z| == k && forall i :: 0 <= i < k ==> z[i] == 0
  {
    seq(k, _ => 0)
  }

  /** Little-endian: least significant byte first (section 3.2 of RFC 1321). */
  function LittleEndian(v: nat, n: nat): (b: seq<Byte>)
    ensures |b| == n
  {
    if n == 0 then [] else [v % 256] + LittleEndian(v / 256, n - 1)
  }

  /** Big-endian: most significant byte first (section 4 of RFC 3174). */
  function BigEndian(v: nat, n: nat): (b: seq<Byte>)
    ensures |b| == n
  {
    if n == 0 then [] else BigEndian(v / 256, n - 1) + [v % 256]
  }

  /** The message with a one bit, zero bits, and its length in bits modulo 2^64. */
  function Padded(m: seq<Byte>, length: seq<Byte>): (p: seq<Byte>) {
    m + [0x80] + Zeros(ZerosAfter(|m|)) + length
  }

  lemma PaddedBlocks(m: seq<Byte>, length: seq<Byte>)
    requires |length| == 8
    ensures |Padded(m, length)| % 64 == 0
  {
    var k := ZerosAfter(|m|);
    assert |Padded(m, length)| == |m| + 1 + k + 8;
  }

  /** A word, least significant byte first. */
  function Word(x: nat): seq<Byte>
    requires x < WORD
  {
    [x % 256, x / 256 % 256, x / 65536 % 256, x / 16777216]
  }

  /** A word, most significant byte first. */
  function WordBig(x: nat): seq<Byte>
    requires x < WORD
  {
    [x / 16777216, x / 65536 % 256, x / 256 % 256, x % 256]
  }

  lemma LittleWord(x: nat, more: nat, n: nat)
    requires x < WORD && n >= 4
    ensures LittleEndian(more * WORD + x, n) == Word(x) + LittleEndian(more, n - 4)
  {
    var v0 := more * WORD + x;
    var v1, v2, v3 := more * 16777216 + x / 256, more * 65536 + x / 65536, more * 256 + x / 16777216;
    assert v0 / 256 == v1 && v0 % 256 == x % 256;
    assert v1 / 256 == v2 && v1 % 256 == x / 256 % 256;
    assert v2 / 256 == v3 && v2 % 256 == x / 65536 % 256;
    assert v3 / 256 == more && v3 % 256 == x / 16777216;
    assert LittleEndian(v3, n - 3) == [x / 16777216] + LittleEndian(more, n - 4);
    assert LittleEndian(v2, n - 2) == [x / 65536 % 256] + LittleEndian(v3, n - 3);
    assert LittleEndian(v1, n - 1) == [x / 256 % 256] + LittleEndian(v2, n - 2);
  }

  lemma BigWord(x: nat, more: nat, n: nat)
    requires x < WORD && n >= 4
    ensures BigEndian(more * WORD + x, n) == BigEndian(more, n - 4) + WordBig(x)
  {
    var v0 := more * WORD + x;
    var v1, v2, v3 := more * 16777216 + x / 256, more * 65536 + x / 65536, more * 256 + x / 16777216;
    assert v0 / 256 == v1 && v0 % 256 == x % 256;
    assert v1 / 256 == v2 && v1 % 256 == x / 256 % 256;
    assert v2 / 256 == v3 && v2 % 256 == x / 65536 % 256;
    assert v3 / 256 == more && v3 % 256 == x / 16777216;
    assert BigEndian(v3, n - 3) == BigEndian(more, n - 4) + [x / 16777216];
    assert BigEndian(v2, n - 2) == BigEndian(v3, n - 3) + [x / 65536 % 256];
    assert BigEndian(v1, n - 1) == BigEndian(v2, n - 2) + [x / 256 % 256];
  }

  /** The two words in order are the length modulo 2^64. */
  lemma LengthBytes(lo: nat, hi: nat, wraps: nat, bytes: nat)
    requires Counts(lo, hi, wraps, bytes)
    ensures Word(lo) + Word(hi) == LittleEndian(8 * bytes % DOUBLE, 8)
    ensures WordBig(hi) + WordBig(lo) == BigEndian(8 * bytes % DOUBLE, 8)
  {
    ModDouble(hi * WORD + lo, wraps, 8 * bytes);
    LittleDouble(lo, hi, 8);
    BigDouble(lo, hi, 8);
  }

  lemma LittleDouble(lo: nat, hi: nat, n: nat)
    requires lo < WORD && hi < WORD && n == 8
    ensures LittleEndian(hi * WORD + lo, n) == Word(lo) + Word(hi)
  {
    LittleWord(lo, hi, n);
    LittleWord(hi, 0, n - 4);
    assert LittleEndian(0, n - 8) == [] && Word(hi) + [] == Word(hi);
  }

  lemma BigDouble(lo: nat, hi: nat, n: nat)
    requires lo < WORD && hi < WORD && n == 8
    ensures BigEndian(hi * WORD + lo, n) == WordBig(hi) + WordBig(lo)
  {
    BigWord(lo, hi, n);
    BigWord(hi, 0, n - 4);
    assert BigEndian(0, n - 8) == [] && [] + WordBig(hi) == WordBig(hi);
  }

  lemma ModDouble(v: nat, wraps: nat, n: nat)
    requires n == wraps * DOUBLE + v && v < DOUBLE
    ensures n % DOUBLE == v
  {
  }

  /** MD5: pads with one update, appends the length with another. */
  method FinalMd5<S>(c: Context<S>) returns (digest: S)
    requires c.Valid()
    modifies c
    ensures var m := old(c.message);
      digest == Blocks(c.f, c.init, Padded(m, LittleEndian(8 * |m| % DOUBLE, 8)))
  {
    ghost var m := c.message;
    var bits := Word(c.lo) + Word(c.hi);
    LengthBytes(c.lo, c.hi, c.wraps, |m|);
    Position(c.lo, c.hi, c.wraps, |m|);
    var ndx := c.lo / 8 % 64;
    var padLen := if ndx < 56 then 56 - ndx else 120 - ndx;
    var padding := [0x80] + Zeros(63);
    c.Update(padding[..padLen]);
    c.Update(bits);
    assert padding[..padLen] == [0x80] + Zeros(ZerosAfter(|m|));
    Assoc(m, [0x80], Zeros(ZerosAfter(|m|)));
    digest := c.state;
  }

  /** SHA-1: pads byte by byte until the position is right. */
  method FinalSha1<S>(c: Context<S>) returns (digest: S)
    requires c.Valid()
    modifies c
    ensures var m := old(c.message);
      digest == Blocks(c.f, c.init, Padded(m, BigEndian(8 * |m| % DOUBLE, 8)))
  {
    ghost var m := c.message;
    var bits := WordBig(c.hi) + WordBig(c.lo);
    LengthBytes(c.lo, c.hi, c.wraps, |m|);
    c.Update([0x80]);
    PadSha1(c, m + [0x80], ZerosAfter(|m|));
    c.Update(bits);
    digest := c.state;
  }

  method PadSha1<S>(c: Context<S>, ghost start: seq<Byte>, ghost k: nat)
    requires c.Valid() && c.message == start && k < 64 && (|start| + k) % 64 == 56
    modifies c
    ensures c.Valid() && c.message == start + Zeros(k)
  {
    ghost var n := 0;
    assert start + Zeros(0) == start;
    Position(c.lo, c.hi, c.wraps, |c.message|);
    while c.lo / 8 % 64 != 56
      invariant n <= k && c.Valid() && c.message == start + Zeros(n)
      invariant c.lo / 8 % 64 == (|start| + n) % 64
      decreases k - n
    {
      c.Update([0]);
      n := n + 1;
      assert Zeros(n) == Zeros(n - 1) + [0];
      Assoc(start, Zeros(n - 1), [0]);
      Position(c.lo, c.hi, c.wraps, |c.message|);
    }
    OnlyOnce(|start|, n, k);
  }

  /** The position comes round only every 64 bytes. */
  lemma OnlyOnce(s: nat, n: nat, k: nat)
    requires n <= k < 64 && (s + n) % 64 == 56 && (s + k) % 64 == 56
    ensures n == k
  {
  }

  /** However a message is cut into updates, the context ends up the same. */
  method UpdateAll<S>(c: Context<S>, parts: seq<seq<Byte>>)
    requires c.Valid()
    requires forall i :: 0 <= i < |parts| ==> Fits((|c.message| + |Flatten(parts[..i])|) % 64, |parts[i]|)
    modifies c
    ensures c.Valid() && c.message == old(c.message) + Flatten(parts)
  {
    ghost var m := c.message;
    assert m + Flatten([]) == m;
    for i := 0 to |parts|
      invariant c.Valid() && c.message == m + Flatten(parts[..i])
    {
      c.Update(parts[i]);
      assert parts[..i + 1][..i] == parts[..i];
      Assoc(m, Flatten(parts[..i]), parts[i]);
    }
    assert parts[..|parts|] == parts;
  }
}
