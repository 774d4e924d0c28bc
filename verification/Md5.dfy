/** Streaming MD5 around its block transform, which is a parameter. */
module Md5 {

  type Byte = b: int | 0 <= b < 256
  type Word = w: int | 0 <= w < 0x1_0000_0000

  datatype Digest = Digest(a: Word, b: Word, c: Word, d: Word)

  type Transform = (Digest, seq<Byte>) -> Digest

  const INITIAL := Digest(0x67452301, 0xefcdab89, 0x98badcfe, 0x10325476)

  const TWO32 := 0x1_0000_0000
  const TWO64 := 0x1_0000_0000_0000_0000

  // ---- words and bytes ---------------------------------------------------------------------

  /** Low-order byte first. */
  function WordBytes(w: Word): seq<Byte> {
    [w % 256, w / 256 % 256, w / 65536 % 256, w / 16777216 % 256]
  }

  function BytesWord(b0: Byte, b1: Byte, b2: Byte, b3: Byte): Word {
    b0 + 256 * b1 + 65536 * b2 + 16777216 * b3
  }

  function Bytes(words: seq<Word>): (r: seq<Byte>)
    ensures |r| == 4 * |words|
  {
    if words == [] then [] else WordBytes(words[0]) + Bytes(words[1..])
  }

  lemma {:induction false} WordRoundTrip(w: Word)
    ensures BytesWord(w % 256, w / 256 % 256, w / 65536 % 256, w / 16777216 % 256) == w
  {
    assert w / 256 == w / 65536 * 256 + w / 256 % 256;
    assert w / 65536 == w / 16777216 * 256 + w / 65536 % 256;
    assert w / 16777216 % 256 == w / 16777216;
  }

  lemma {:induction false} BytesAppend(words: seq<Word>, w: Word)
    ensures Bytes(words + [w]) == Bytes(words) + WordBytes(w)
  {
    if words != [] {
      BytesAppend(words[1..], w);
      assert (words + [w])[1..] == words[1..] + [w];
    }
  }

  lemma {:induction false} BytesAt(words: seq<Word>, i: nat)
    requires i < |words|
    ensures Bytes(words)[4 * i..4 * i + 4] == WordBytes(words[i])
  {
    if i > 0 {
      BytesAt(words[1..], i - 1);
      assert Bytes(words)[4 * i..4 * i + 4] == Bytes(words[1..])[4 * (i - 1)..4 * (i - 1) + 4];
    }
  }

  /** Writes the words' bytes to the front of output. */
  method Encode(output: array<Byte>, input: seq<Word>)
    requires 4 * |input| <= output.Length
    modifies output
    ensures output[..4 * |input|] == Bytes(input)
    ensures output[4 * |input|..] == old(output[4 * |input|..])
  {
    var i, j := 0, 0;
    while j < 4 * |input|
      invariant 0 <= i <= |input| && j == 4 * i
      invariant output[..j] == Bytes(input[..i])
      invariant output[j..] == old(output[j..])
    {
      EncodeWord(output, j, input[i]);
      BytesAppend(input[..i], input[i]);
      assert input[..i + 1] == input[..i] + [input[i]];
      i, j := i + 1, j + 4;
    }
    assert input[..|input|] == input;
  }

  /** One round of Encode. */
  method EncodeWord(output: array<Byte>, j: nat, w: Word)
    requires j + 4 <= output.Length
    modifies output
    ensures output[..j + 4] == old(output[..j]) + WordBytes(w)
    ensures output[j + 4..] == old(output[j + 4..])
  {
    output[j] := w % 256;
    output[j + 1] := w / 256 % 256;
    output[j + 2] := w / 65536 % 256;
    output[j + 3] := w / 16777216 % 256;
  }

  /** Reads back exactly the words whose bytes are given. */
  method Decode(input: seq<Byte>) returns (output: seq<Word>)
    requires |input| % 4 == 0
    ensures Bytes(output) == input
    ensures forall words :: Bytes(words) == input ==> output == words
  {
    output := [];
    var i, j := 0, 0;
    ghost var n := |input| / 4;
    while j < |input|
      invariant 0 <= i <= n && j == 4 * i && |input| == 4 * n
      invariant Bytes(output) == input[..j]
      decreases n - i
    {
      var w := BytesWord(input[j], input[j + 1], input[j + 2], input[j + 3]);
      DecodeNext(output, input, j);
      output := output + [w];
      i, j := i + 1, j + 4;
    }
    assert input[..|input|] == input;
    forall words | Bytes(words) == input ensures output == words {
      BytesInjective(output, words);
    }
  }

  lemma {:induction false} DecodeNext(output: seq<Word>, input: seq<Byte>, j: nat)
    requires j + 4 <= |input| && Bytes(output) == input[..j]
    ensures Bytes(output + [BytesWord(input[j], input[j + 1], input[j + 2], input[j + 3])]) == input[..j + 4]
  {
    var w := BytesWord(input[j], input[j + 1], input[j + 2], input[j + 3]);
    ByteRoundTrip(input[j], input[j + 1], input[j + 2], input[j + 3]);
    BytesAppend(output, w);
    assert input[..j + 4] == input[..j] + [input[j], input[j + 1], input[j + 2], input[j + 3]];
  }

  lemma {:induction false} ByteRoundTrip(b0: Byte, b1: Byte, b2: Byte, b3: Byte)
    ensures WordBytes(BytesWord(b0, b1, b2, b3)) == [b0, b1, b2, b3]
  {
    var w := BytesWord(b0, b1, b2, b3);
    assert w / 256 == b1 + 256 * b2 + 65536 * b3;
    assert w / 65536 == b2 + 256 * b3;
    assert w / 16777216 == b3;
  }

  lemma {:induction false} BytesInjective(a: seq<Word>, b: seq<Word>)
    requires Bytes(a) == Bytes(b)
    ensures a == b
  {
    assert 4 * |a| == 4 * |b|;
    forall i | 0 <= i < |a| ensures a[i] == b[i] {
      BytesAt(a, i);
      BytesAt(b, i);
      WordRoundTrip(a[i]);
      WordRoundTrip(b[i]);
      assert WordBytes(a[i])[0] == WordBytes(b[i])[0] && WordBytes(a[i])[1] == WordBytes(b[i])[1];
      assert WordBytes(a[i])[2] == WordBytes(b[i])[2] && WordBytes(a[i])[3] == WordBytes(b[i])[3];
    }
  }

  // ---- blocks ------------------------------------------------------------------------------

  /** The transform over the whole 64-byte blocks of a message, from the left. */
  function Fold(f: Transform, s: Digest, m: seq<Byte>): Digest
    decreases |m|
  {
    if |m| < 64 then s else Fold(f, f(s, m[..64]), m[64..])
  }

  function Whole(m: seq<Byte>): (n: nat)
    ensures n <= |m| && n % 64 == 0 && n == |m| - |m| % 64
  {
    |m| / 64 * 64
  }

  /** What follows the last whole block. */
  function Rest(m: seq<Byte>): (r: seq<Byte>)
    ensures |r| == |m| % 64
  {
    m[Whole(m)..]
  }

  lemma {:induction false} FoldSplit(f: Transform, s: Digest, m: seq<Byte>, n: nat)
    requires n <= |m| && n % 64 == 0
    ensures Fold(f, s, m) == Fold(f, Fold(f, s, m[..n]), m[n..])
    decreases n
  {
    if n == 0 {
      assert m[0..] == m;
    } else {
      FoldSplit(f, f(s, m[..64]), m[64..], n - 64);
      assert m[64..][n - 64..] == m[n..] && m[..n][64..] == m[64..][..n - 64] && m[..n][..64] == m[..64];
    }
  }

  lemma {:induction false} FoldOne(f: Transform, s: Digest, block: seq<Byte>)
    requires |block| == 64
    ensures Fold(f, s, block) == f(s, block)
  {
    assert block[..64] == block && block[64..] == [];
  }

  lemma {:induction false} FoldShort(f: Transform, s: Digest, m: seq<Byte>)
    ensures Fold(f, s, m) == Fold(f, s, m[..Whole(m)])
  {
    FoldSplit(f, s, m, Whole(m));
  }

  /** More input goes through the bytes that wait after the last whole block. */
  lemma {:induction false} FoldContinues(f: Transform, s: Digest, m: seq<Byte>, more: seq<Byte>)
    ensures Fold(f, s, m + more) == Fold(f, Fold(f, s, m), Rest(m) + more)
    ensures Rest(m + more) == Rest(Rest(m) + more)
  {
    var n := Whole(m);
    FoldSplit(f, s, m + more, n);
    FoldShort(f, s, m);
    assert (m + more)[..n] == m[..n] && (m + more)[n..] == Rest(m) + more;
    RestDrops(m + more, n);
  }

  lemma {:induction false} FoldWaits(f: Transform, s: Digest, m: seq<Byte>)
    requires |m| < 64
    ensures Fold(f, s, m) == s && Rest(m) == m
  {
  }

  lemma {:induction false} RestDrops(m: seq<Byte>, n: nat)
    requires n <= |m| && n % 64 == 0
    ensures Rest(m[n..]) == Rest(m)
  {
    assert Whole(m) == n + Whole(m[n..]);
  }

  // ---- the bit count -----------------------------------------------------------------------

  /** The two words hold the number of bits of a message of that many bytes. */
  predicate IsCount(c0: Word, c1: Word, length: nat) {
    c0 + TWO32 * c1 == 8 * length % TWO64
  }

  lemma {:induction false} CountIndex(c0: Word, c1: Word, length: nat)
    requires IsCount(c0, c1, length)
    ensures c0 / 8 % 64 == length % 64
  {
    var q := 8 * length / TWO64;
    assert 8 * length == q * TWO64 + c0 + TWO32 * c1;
    assert c0 == 8 * (length - q * 0x2000_0000_0000_0000 - 0x2000_0000 * c1);
    var z := q * 0x80_0000_0000_0000 + 0x80_0000 * c1;
    assert c0 == 8 * (length - 64 * z);
    SameModulo64(c0 / 8, length, z);
  }

  lemma {:induction false} SameModulo64(x: int, y: int, z: int)
    requires x == y - 64 * z
    ensures x % 64 == y % 64
  {
    assert x == 64 * (y / 64 - z) + y % 64;
  }

  /** Adding to the low word, carrying by the comparison, adds modulo 2^64. */
  lemma {:induction false} CountAdds(c0: Word, c1: Word, length: nat, n: nat)
    requires IsCount(c0, c1, length) && n < TWO32
    ensures var low := 8 * n % TWO32;
      var d0 := (c0 + low) % TWO32;
      var d1 := (c1 + (if d0 < low then 1 else 0) + n / 0x2000_0000) % TWO32;
      IsCount(d0, d1, length + n)
  {
    var low := 8 * n % TWO32;
    var d0 := (c0 + low) % TWO32;
    var carry := if d0 < low then 1 else 0;
    assert c0 + low == d0 + TWO32 * carry;
    assert 8 * n == low + TWO32 * (n / 0x2000_0000);
    var high := c1 + carry + n / 0x2000_0000;
    var d1 := high % TWO32;
    var q := 8 * length / TWO64;
    assert 8 * (length + n) == q * TWO64 + d0 + TWO32 * high;
    assert high == d1 + TWO32 * (high / TWO32);
    assert 8 * (length + n) == (q + high / TWO32) * TWO64 + (d0 + TWO32 * d1);
    ModOf(8 * (length + n), q + high / TWO32, d0 + TWO32 * d1);
  }

  lemma {:induction false} ModOf(x: int, q: int, r: int)
    requires x == q * TWO64 + r && 0 <= r < TWO64
    ensures x % TWO64 == r
  {
  }

  lemma {:induction false} ModTwice(a: int, b: int)
    ensures (a % TWO32 + b) % TWO32 == (a + b) % TWO32
  {
    var q := a / TWO32;
    assert a + b == q * TWO32 + (a % TWO32 + b);
  }

  // ---- when the loop index wraps -------------------------------------------------------------

  /** The loop's index at round k, for a buffer that holds index bytes. */
  function Position(index: nat, k: nat): int {
    64 - index + 64 * k
  }

  /** Round k is reached with an index whose sum with 63 does not fit in 32 bits. */
  ghost predicate WrapsAt(index: nat, length: nat, k: nat) {
    && (forall j: nat :: j < k ==> Position(index, j) + 63 < length)
    && Position(index, k) < TWO32 <= Position(index, k) + 63
  }

  /** What keeps MD5Update's loop inside its input. */
  predicate HasRoom(index: nat, length: nat) {
    index == 0 || index + length < TWO32
  }

  /** The index wraps exactly if there is no room; it is then back where it started, so the loop never ends. */
  lemma {:induction false} WrapsWithoutRoom(index: nat, length: nat)
    requires index < 64 && length < TWO32
    ensures HasRoom(index, length) <==> forall k: nat :: !WrapsAt(index, length, k)
    ensures forall k: nat :: WrapsAt(index, length, k) ==> (Position(index, k) + 64) % TWO32 == Position(index, 0)
  {
    var last := 0x3ff_ffff;
    assert Position(index, last) == TWO32 - index;
    if !HasRoom(index, length) {
      assert WrapsAt(index, length, last);
    }
    forall k: nat | WrapsAt(index, length, k) ensures k == last && !HasRoom(index, length) {
      assert k > 0;
      assert Position(index, k - 1) + 63 < length;
    }
  }

  // ---- the context -------------------------------------------------------------------------

  class Context {
    const transform: Transform
    var state: Digest
    var count0: Word
    var count1: Word
    const buffer: array<Byte>
    ghost var message: seq<Byte>

    /** All the context holds is a function of the message so far, however it was cut. */
    ghost predicate Valid()
      reads this, buffer
    {
      && buffer.Length == 64
      && state == Fold(transform, INITIAL, message)
      && IsCount(count0, count1, |message|)
      && buffer[..|message| % 64] == Rest(message)
    }

    /** MD5Init on a new context. */
    constructor (transform: Transform)
      ensures Valid() && message == [] && this.transform == transform && fresh(buffer)
    {
      this.transform := transform;
      count0, count1 := 0, 0;
      state := INITIAL;
      buffer := new Byte[64];
      message := [];
    }

    method CopyToBuffer(at: nat, bytes: seq<Byte>)
      requires at + |bytes| <= buffer.Length
      modifies buffer
      ensures buffer[..at] == old(buffer[..at]) && buffer[at..at + |bytes|] == bytes
    {
      forall i | 0 <= i < |bytes| {
        buffer[at + i] := bytes[i];
      }
    }

    method AddCount(length: nat, ghost before: nat)
      requires length < TWO32 && IsCount(count0, count1, before)
      modifies this`count0, this`count1
      ensures IsCount(count0, count1, before + length)
    {
      CountAdds(count0, count1, before, length);
      var low := 8 * length % TWO32;
      count0 := (count0 + low) % TWO32;
      ghost var c1: int := count1;
      if count0 < low {
        count1 := (count1 + 1) % TWO32;
      }
      ModTwice(c1 + (if count0 < low then 1 else 0), length / 0x2000_0000);
      count1 := (count1 + length / 0x2000_0000) % TWO32;
    }

    /** MD5Update. */
    method Update(input: seq<Byte>)
      requires Valid() && |input| < TWO32 && HasRoom(|message| % 64, |input|)
      modifies this, buffer
      ensures Valid() && message == old(message) + input
    {
      CountIndex(count0, count1, |message|);
      var index := count0 / 8 % 64;
      AddCount(|input|, |message|);
      FoldContinues(transform, INITIAL, message, input);
      UpdateState(input, index);
      message := message + input;
    }

    /** The part of MD5Update after the count. */
    method UpdateState(input: seq<Byte>, index: nat)
      requires buffer.Length == 64 && index < 64 && |input| < TWO32 && HasRoom(index, |input|)
      modifies this`state, buffer
      ensures var m := old(buffer[..index]) + input;
        state == Fold(transform, old(state), m) && buffer[..|m| % 64] == Rest(m)
    {
      var partLen := 64 - index;
      if |input| >= partLen {
        UpdateBlocks(input, index);
      } else {
        FoldWaits(transform, state, buffer[..index] + input);
        UpdateWaiting(input, index);
      }
    }

    /** MD5Update when the input only joins the bytes that wait. */
    method UpdateWaiting(input: seq<Byte>, index: nat)
      requires buffer.Length == 64 && index + |input| < 64
      modifies buffer
      ensures buffer[..index + |input|] == old(buffer[..index]) + input
    {
      CopyToBuffer(index, input);
      assert buffer[..index + |input|] == buffer[..index] + buffer[index..index + |input|];
    }

    /** MD5Update when the input completes the waiting block. */
    method UpdateBlocks(input: seq<Byte>, index: nat)
      requires buffer.Length == 64 && index < 64 && 64 - index <= |input| < TWO32 && HasRoom(index, |input|)
      modifies this`state, buffer
      ensures var m := old(buffer[..index]) + input;
        state == Fold(transform, old(state), m) && buffer[..|m| % 64] == Rest(m)
    {
      var partLen := 64 - index;
      ghost var rest := buffer[..index];
      CopyToBuffer(index, input[..partLen]);
      assert buffer[..] == rest + input[..partLen];
      state := transform(state, buffer[..]);
      var i := TransformBlocks(input, index);
      FinishBlocks(transform, old(state), rest, input, i);
      CopyToBuffer(0, input[i..]);
    }

    /** MD5Final: the digest of all that was given to Update; the context is wiped. */
    method Final(digest: array<Byte>)
      requires Valid() && digest.Length == 16 && digest != buffer
      modifies this, buffer, digest
      ensures digest[..] == Md5Of(transform, old(message))
      ensures state == Digest(0, 0, 0, 0) && count0 == 0 && count1 == 0 && buffer[..] == Zeros(64)
    {
      var bits := new Byte[8];
      Encode(bits, [count0, count1]);
      CountIsLength(count0, count1, |message|);
      CountIndex(count0, count1, |message|);
      var index := count0 / 8 % 64;
      var padLen := if index < 56 then 56 - index else 120 - index;
      PaddingLength(|message|, padLen);
      var padding := [0x80] + Zeros(63);
      assert padding[..padLen] == Padding(|message|);
      Update(padding[..padLen]);
      Update(bits[..]);
      assert message == Padded(old(message));
      Encode(digest, [state.a, state.b, state.c, state.d]);
      Wipe();
    }

    method Wipe()
      requires buffer.Length == 64
      modifies this, buffer
      ensures state == Digest(0, 0, 0, 0) && count0 == 0 && count1 == 0 && buffer[..] == Zeros(64)
    {
      state, count0, count1 := Digest(0, 0, 0, 0), 0, 0;
      forall i | 0 <= i < 64 {
        buffer[i] := 0;
      }
    }

    /** The loop of MD5Update over the blocks that lie in the input, with its 32-bit index. */
    method TransformBlocks(input: seq<Byte>, index: nat) returns (i: nat)
      requires index < 64 && |input| < TWO32 && HasRoom(index, |input|) && 64 - index <= |input|
      modifies this`state
      ensures 64 - index <= i <= |input| < i + 64 && (index + i) % 64 == 0
      ensures state == Fold(transform, old(state), input[64 - index..i])
    {
      i := 64 - index;
      while (i + 63) % TWO32 < |input|
        invariant 64 - index <= i <= |input| && (index + i) % 64 == 0
        invariant state == Fold(transform, old(state), input[64 - index..i])
        decreases |input| - i
      {
        NoWrap(index, |input|, i);
        FoldGrows(transform, old(state), input, 64 - index, i);
        state := transform(state, input[i..i + 64]);
        i := (i + 64) % TWO32;
      }
      NoWrap(index, |input|, i);
    }
  }

  // ---- padding -----------------------------------------------------------------------------

  function Zeros(n: nat): (r: seq<Byte>)
    ensures |r| == n
  {
    seq(n, _ => 0)
  }

  /** Section 3.1 of RFC 1321: a one bit, then zero bits up to 448 modulo 512. */
  function Padding(length: nat): (r: seq<Byte>)
    ensures 1 <= |r| <= 64 && (length + |r|) % 64 == 56
  {
    [0x80] + Zeros((55 - length) % 64)
  }

  /** Section 3.2: the length in bits modulo 2^64, low-order word first. */
  function LengthBytes(length: nat): (r: seq<Byte>)
    ensures |r| == 8
  {
    Bytes([8 * length % TWO64 % TWO32, 8 * length % TWO64 / TWO32])
  }

  lemma {:induction false} EightMore(x: nat)
    requires x % 64 == 56
    ensures (x + 8) % 64 == 0
  {
  }

  function Padded(m: seq<Byte>): (r: seq<Byte>)
    ensures |r| % 64 == 0 && |r| == |m| + |Padding(|m|)| + 8
  {
    EightMore(|m| + |Padding(|m|)|);
    m + Padding(|m|) + LengthBytes(|m|)
  }

  function DigestBytes(s: Digest): (r: seq<Byte>)
    ensures |r| == 16
  {
    Bytes([s.a, s.b, s.c, s.d])
  }

  /** Section 3.3: the four words start as these bytes, low-order first. */
  lemma {:induction false} InitialBytes()
    ensures DigestBytes(INITIAL) == [
              0x01, 0x23, 0x45, 0x67, 0x89, 0xab, 0xcd, 0xef, 0xfe, 0xdc, 0xba, 0x98, 0x76, 0x54, 0x32, 0x10]
  {
    assert WordBytes(INITIAL.a) == [0x01, 0x23, 0x45, 0x67];
    assert WordBytes(INITIAL.b) == [0x89, 0xab, 0xcd, 0xef];
    assert WordBytes(INITIAL.c) == [0xfe, 0xdc, 0xba, 0x98];
    assert WordBytes(INITIAL.d) == [0x76, 0x54, 0x32, 0x10];
    assert Bytes([INITIAL.d]) == WordBytes(INITIAL.d) + Bytes([]);
  }

  /** The digest of a message, with no streaming: pad it, fold the blocks, write out the state. */
  function Md5Of(f: Transform, m: seq<Byte>): (r: seq<Byte>)
    ensures |r| == 16
  {
    DigestBytes(Fold(f, INITIAL, Padded(m)))
  }

  /** The bytes MD5Final writes for the two count words are the length's. */
  lemma {:induction false} CountIsLength(c0: Word, c1: Word, length: nat)
    requires IsCount(c0, c1, length)
    ensures Bytes([c0, c1]) == LengthBytes(length)
  {
    var x := 8 * length % TWO64;
    assert x % TWO32 == c0 && x / TWO32 == c1;
  }

  /** Padding loses nothing: different messages below 2^61 bytes are hashed as different blocks. */
  lemma {:induction false} PaddingIsInjective(m: seq<Byte>, n: seq<Byte>)
    requires |m| < 0x2000_0000_0000_0000 && |n| < 0x2000_0000_0000_0000 && Padded(m) == Padded(n)
    ensures m == n
  {
    var k := |Padded(m)|;
    assert Padded(m)[k - 8..] == LengthBytes(|m|) && Padded(n)[k - 8..] == LengthBytes(|n|);
    LengthIsInjective(|m|, |n|);
    assert Padded(m)[..|m|] == m && Padded(n)[..|n|] == n;
  }

  lemma {:induction false} SplitsUp(x: nat)
    requires x < TWO64
    ensures x % TWO64 == x && x == TWO32 * (x / TWO32) + x % TWO32
  {
  }

  lemma {:induction false} LengthIsInjective(m: nat, n: nat)
    requires m < 0x2000_0000_0000_0000 && n < 0x2000_0000_0000_0000 && LengthBytes(m) == LengthBytes(n)
    ensures m == n
  {
    var a := [8 * m % TWO64 % TWO32, 8 * m % TWO64 / TWO32];
    var b := [8 * n % TWO64 % TWO32, 8 * n % TWO64 / TWO32];
    BytesInjective(a, b);
    assert a[0] == b[0] && a[1] == b[1];
    SplitsUp(8 * m);
    SplitsUp(8 * n);
  }

  lemma {:induction false} PaddingLength(length: nat, padLen: nat)
    requires padLen == if length % 64 < 56 then 56 - length % 64 else 120 - length % 64
    ensures 1 <= padLen <= 64 && Padding(length) == ([0x80] + Zeros(63))[..padLen]
  {
    assert (55 - length) % 64 == padLen - 1;
  }

  lemma {:induction false} NoWrap(index: nat, length: nat, i: nat)
    requires index < 64 && HasRoom(index, length) && i <= length < TWO32 && (index + i) % 64 == 0
    ensures i + 63 < TWO32
  {
  }

  lemma {:induction false} FoldGrows(f: Transform, s: Digest, input: seq<Byte>, from: nat, i: nat)
    requires from <= i && i + 64 <= |input| && (i - from) % 64 == 0
    ensures Fold(f, s, input[from..i + 64]) == f(Fold(f, s, input[from..i]), input[i..i + 64])
  {
    var m := input[from..i + 64];
    FoldSplit(f, s, m, i - from);
    assert m[..i - from] == input[from..i] && m[i - from..] == input[i..i + 64];
    FoldOne(f, Fold(f, s, input[from..i]), input[i..i + 64]);
  }

  /** The filled buffer, then the blocks of the input up to i: what is left is what waits. */
  lemma {:induction false} FinishBlocks(f: Transform, s: Digest, rest: seq<Byte>, input: seq<Byte>, i: nat)
    requires |rest| < 64 && 64 - |rest| <= i <= |input| < i + 64 && (|rest| + i) % 64 == 0
    ensures var part := 64 - |rest|;
      Fold(f, s, rest + input) == Fold(f, f(s, rest + input[..part]), input[part..i])
    ensures Rest(rest + input) == input[i..]
  {
    var part := 64 - |rest|;
    var m := rest + input;
    var block := rest + input[..part];
    assert m[..64] == block && m[64..] == input[part..];
    FoldShort(f, f(s, block), input[part..]);
    assert Whole(input[part..]) == i - part;
    assert input[part..][..i - part] == input[part..i];
    assert Whole(m) == |rest| + i;
  }

  /** However a message is cut into pieces, the digest is that of the whole. */
  method DigestOfPieces(f: Transform, pieces: seq<seq<Byte>>, digest: array<Byte>)
    requires digest.Length == 16
    requires forall i :: 0 <= i < |pieces| ==> |pieces[i]| < TWO32 && HasRoom(|Concat(pieces[..i])| % 64, |pieces[i]|)
    modifies digest
    ensures digest[..] == Md5Of(f, Concat(pieces))
  {
    var context := new Context(f);
    for i := 0 to |pieces|
      invariant context.Valid() && fresh(context) && fresh(context.buffer)
      invariant context.transform == f && context.message == Concat(pieces[..i])
    {
      assert pieces[..i + 1][..i] == pieces[..i];
      context.Update(pieces[i]);
    }
    assert pieces[..|pieces|] == pieces;
    context.Final(digest);
  }

  function Concat(pieces: seq<seq<Byte>>): seq<Byte>
    decreases |pieces|
  {
    if pieces == [] then [] else Concat(pieces[..|pieces| - 1]) + pieces[|pieces| - 1]
  }
}
