/**
 Streaming SHA-256 of src/axiom_sha256.cpp over an arbitrary compression function: any split of a
 message into updates hashes exactly the padded blocks of sections 5.1.1 and 6.2 of FIPS 180-4.
 */
module Sha256 {

  type Byte = x: int | 0 <= x < 256
  type Words = seq<nat>

  const BLOCK: nat := 64
  const LENGTH_LIMIT: nat := 0x1_0000_0000_0000_0000

  const INITIAL: Words := [0x6a09e667, 0xbb67ae85, 0x3c6ef372, 0xa54ff53a, 0x510e527f, 0x9b05688c, 0x1f83d9ab, 0x5be0cd19]

  // ------------------------------------------------------------- the one-shot hash

  /** Section 6.2: the compression function folded over whole blocks. */
  function Fold(compress: (Words, seq<Byte>) -> Words, state: Words, bytes: seq<Byte>): Words
    requires |bytes| % BLOCK == 0
    decreases |bytes|
  {
    if bytes == [] then state
    else Fold(compress, compress(state, bytes[..BLOCK]), bytes[BLOCK..])
  }

  function Zeros(n: nat): (r: seq<Byte>)
    ensures |r| == n
  {
    seq(n, i => 0)
  }

  /** The low `n` bytes of a number, most significant first. */
  function BigEndian(value: nat, n: nat): (r: seq<Byte>)
    ensures |r| == n
  {
    if n == 0 then [] else BigEndian(value / 256, n - 1) + [value % 256]
  }

  /** Number of zero bytes between the end marker and the length. */
  function ZeroCount(length: nat): (k: nat)
    ensures (length + 1 + k) % BLOCK == 56 && k < BLOCK
  {
    (55 - length) % BLOCK
  }

  /** Section 5.1.1: a one bit, zeros up to 448 modulo 512, and the length in bits. */
  function Padding(length: nat): (r: seq<Byte>)
    ensures (length + |r|) % BLOCK == 0
  {
    LengthFieldFits(length + 1 + ZeroCount(length));
    [0x80] + Zeros(ZeroCount(length)) + BigEndian(length * 8, 8)
  }

  lemma LengthFieldFits(n: nat)
    requires n % BLOCK == 56
    ensures (n + 8) % BLOCK == 0
  {
  }

  function Digest(words: Words): seq<Byte> {
    if words == [] then [] else BigEndian(words[0], 4) + Digest(words[1..])
  }

  function Hash(compress: (Words, seq<Byte>) -> Words, message: seq<Byte>): seq<Byte> {
    Digest(Fold(compress, INITIAL, message + Padding(|message|)))
  }

  // -------------------------------------------------------------------- lemmas

  lemma {:induction false} FoldAppend(compress: (Words, seq<Byte>) -> Words, state: Words, a: seq<Byte>, b: seq<Byte>)
    requires |a| % BLOCK == 0 && |b| % BLOCK == 0
    ensures Fold(compress, state, a + b) == Fold(compress, Fold(compress, state, a), b)
    decreases |a|
  {
    if a == [] {
      assert a + b == b;
    } else {
      assert (a + b)[..BLOCK] == a[..BLOCK] && (a + b)[BLOCK..] == a[BLOCK..] + b;
      FoldAppend(compress, compress(state, a[..BLOCK]), a[BLOCK..], b);
    }
  }

  lemma FoldBlock(compress: (Words, seq<Byte>) -> Words, state: Words, a: seq<Byte>, block: seq<Byte>)
    requires |a| % BLOCK == 0 && |block| == BLOCK
    ensures Fold(compress, state, a + block) == compress(Fold(compress, state, a), block)
  {
    FoldAppend(compress, state, a, block);
    assert block[..BLOCK] == block && block[BLOCK..] == [];
  }

  /** Eight bytes hold the bit count of any message shorter than 2^61 bytes. */
  lemma {:induction false} BigEndianWraps(value: nat, n: nat, limit: nat)
    requires limit == Pow256(n)
    ensures BigEndian(value, n) == BigEndian(value % limit, n)
    decreases n
  {
    if n > 0 {
      var low := Pow256(n - 1);
      BigEndianWraps(value / 256, n - 1, low);
      BigEndianWraps(value % limit / 256, n - 1, low);
      DivideOut(value, low);
    }
  }

  function Pow256(n: nat): (r: nat)
    ensures r > 0
  {
    if n == 0 then 1 else 256 * Pow256(n - 1)
  }

  lemma Unique(a: int, b: int, q: int, q': int, r: int, r': int)
    requires b > 0 && a == b * q + r && a == b * q' + r' && 0 <= r < b && 0 <= r' < b
    ensures q == q' && r == r'
  {
    var d := q - q';
    assert b * d == r' - r;
    Scale(b, d);
  }

  lemma Scale(b: int, d: int)
    requires b > 0
    ensures (d >= 1 ==> b * d >= b) && (d <= -1 ==> b * d <= -b)
  {
    if d >= 1 {
      assert b * (d - 1) >= 0;
    } else if d <= -1 {
      assert b * (-1 - d) >= 0;
    }
  }

  /** Dropping the last byte commutes with dropping the high ones. */
  lemma DivideOut(value: nat, low: nat)
    requires low > 0
    ensures value % (256 * low) / 256 == value / 256 % low
    ensures value % (256 * low) % 256 == value % 256
  {
    var q := value / 256 / low;
    var r := value / 256 % low;
    assert value / 256 == low * q + r;
    assert value == 256 * (low * q + r) + value % 256;
    assert 256 * (low * q) == (256 * low) * q;
    var rest := 256 * r + value % 256;
    Unique(value, 256 * low, value / (256 * low), q, value % (256 * low), rest);
  }

  lemma DivDiv(value: nat, low: nat)
    requires low > 0
    ensures value / 256 / low == value / (256 * low)
  {
    var q, r := value / 256 / low, value / 256 % low;
    assert value / 256 == low * q + r;
    assert value == 256 * (low * q + r) + value % 256;
    assert 256 * (low * q) == (256 * low) * q;
    Unique(value, 256 * low, value / (256 * low), q, value % (256 * low), 256 * r + value % 256);
  }

  /** One more significant byte goes in front. */
  lemma {:induction false} BigEndianFront(value: nat, n: nat)
    ensures BigEndian(value, n + 1) == [value / Pow256(n) % 256] + BigEndian(value, n)
    decreases n
  {
    if n > 0 {
      BigEndianFront(value / 256, n - 1);
      DivDiv(value, Pow256(n - 1));
    }
  }

  function FromBigEndian(bytes: seq<Byte>): nat {
    if bytes == [] then 0 else 256 * FromBigEndian(bytes[..|bytes| - 1]) + bytes[|bytes| - 1]
  }

  lemma {:induction false} BigEndianReads(value: nat, n: nat)
    ensures FromBigEndian(BigEndian(value, n)) == value % Pow256(n)
    decreases n
  {
    if n > 0 {
      var bytes := BigEndian(value, n);
      assert bytes[..n - 1] == BigEndian(value / 256, n - 1);
      BigEndianReads(value / 256, n - 1);
      var low := Pow256(n - 1);
      DivideOut(value, low);
      assert value % (256 * low) == 256 * (value % (256 * low) / 256) + value % (256 * low) % 256;
    }
  }

  lemma Pow256Is8()
    ensures Pow256(8) == LENGTH_LIMIT
  {
    assert Pow256(2) == 0x1_0000;
    assert Pow256(4) == 256 * (256 * Pow256(2));
    assert Pow256(6) == 256 * (256 * Pow256(4));
    assert Pow256(8) == 256 * (256 * Pow256(6));
  }

  /** The length field states the number of bits exactly when the message is shorter than 2^61 bytes. */
  lemma LengthFieldExact(length: nat)
    ensures FromBigEndian(BigEndian(length * 8, 8)) == length * 8 <==> length < 0x2000_0000_0000_0000
  {
    BigEndianReads(length * 8, 8);
    Pow256Is8();
  }

  // ------------------------------------------------------------------ the stream

  /** Whole blocks of the message are folded into the state; `waiting` is the rest. */
  ghost predicate Absorbed(compress: (Words, seq<Byte>) -> Words, state: Words, waiting: seq<Byte>, message: seq<Byte>) {
    && |waiting| <= |message| && (|message| - |waiting|) % BLOCK == 0
    && message == message[..|message| - |waiting|] + waiting
    && state == Fold(compress, INITIAL, message[..|message| - |waiting|])
  }

  lemma AbsorbMore(compress: (Words, seq<Byte>) -> Words, state: Words, waiting: seq<Byte>, message: seq<Byte>, piece: seq<Byte>)
    requires Absorbed(compress, state, waiting, message)
    ensures Absorbed(compress, state, waiting + piece, message + piece)
  {
    var done := message[..|message| - |waiting|];
    assert message + piece == done + (waiting + piece);
    assert (message + piece)[..|message| - |waiting|] == done;
  }

  lemma AbsorbFull(compress: (Words, seq<Byte>) -> Words, state: Words, waiting: seq<Byte>, message: seq<Byte>)
    requires Absorbed(compress, state, waiting, message) && |waiting| == BLOCK
    ensures Absorbed(compress, compress(state, waiting), [], message)
  {
    var done := message[..|message| - |waiting|];
    FoldBlock(compress, INITIAL, done, waiting);
    assert message[..|message|] == message;
    assert message + [] == message;
  }

  /** What update is given: bytes, or a null pointer with a size. */
  datatype Input = Data(bytes: seq<Byte>) | NullPointer(size: nat)

  function Size(data: Input): nat { if data.Data? then |data.bytes| else data.size }

  class Stream {
    const compress: (Words, seq<Byte>) -> Words
    const buffer: array<Byte>
    var state: Words
    var buffered: nat
    var total: nat
    var finished: bool
    var digest: seq<Byte>
    /** Everything hashed so far. */
    ghost var message: seq<Byte>

    ghost predicate Holds()
      reads this, buffer
    {
      buffer.Length == BLOCK && buffered <= BLOCK && Absorbed(compress, state, buffer[..buffered], message)
    }

    ghost predicate Valid()
      reads this, buffer
    {
      buffer.Length == BLOCK && (!finished ==> Holds() && buffered < BLOCK && total == |message| < LENGTH_LIMIT)
    }

    constructor (compress: (Words, seq<Byte>) -> Words)
      ensures Valid() && !finished && message == [] && fresh(buffer) && this.compress == compress
    {
      this.compress := compress;
      buffer := new Byte[BLOCK](_ => 0);
      state, buffered, total, finished, digest, message := INITIAL, 0, 0, false, [], [];
    }

    /** Copies `bytes` into the buffer from position `at` on. */
    method Copy(bytes: seq<Byte>, at: nat)
      requires at + |bytes| <= buffer.Length
      modifies buffer
      ensures buffer[..at + |bytes|] == old(buffer[..at]) + bytes
    {
      for k := 0 to |bytes|
        invariant forall j :: 0 <= j < k ==> buffer[at + j] == bytes[j]
        invariant forall j :: 0 <= j < at ==> buffer[j] == old(buffer[j])
      {
        buffer[at + k] := bytes[k];
      }
    }

    /** Appends to the buffer. */
    method Fill(bytes: seq<Byte>)
      requires Holds() && buffered + |bytes| <= BLOCK
      modifies this`buffered, this`message, buffer
      ensures Holds() && message == old(message) + bytes && buffered == old(buffered) + |bytes|
    {
      AbsorbMore(compress, state, buffer[..buffered], message, bytes);
      Copy(bytes, buffered);
      message, buffered := message + bytes, buffered + |bytes|;
    }

    /** Folds a full buffer. */
    method Flush()
      requires Holds() && buffered == BLOCK
      modifies this`state, this`buffered
      ensures Holds() && buffered == 0
    {
      AbsorbFull(compress, state, buffer[..buffered], message);
      state := compress(state, buffer[..]);
      buffered := 0;
      assert buffer[..] == buffer[..BLOCK] && buffer[..0] == [];
    }

    /** Folds one block straight from the input. */
    method Direct(block: seq<Byte>)
      requires Holds() && buffered == 0 && |block| == BLOCK
      modifies this`state, this`message
      ensures Holds() && message == old(message) + block
    {
      AbsorbMore(compress, state, [], message, block);
      assert [] + block == block;
      AbsorbFull(compress, state, block, message + block);
      state := compress(state, block);
      message := message + block;
    }

    /** Tops up a partly filled buffer, folding it when full. */
    method TopUp(data: seq<Byte>) returns (at: nat)
      requires Holds() && buffered < BLOCK
      modifies this`state, this`buffered, this`message, buffer
      ensures Holds() && at <= |data| && message == old(message) + data[..at]
      ensures buffered < BLOCK && (at < |data| ==> buffered == 0)
    {
      at := 0;
      if buffered != 0 {
        at := if |data| <= BLOCK - buffered then |data| else BLOCK - buffered;
        Fill(data[..at]);
        if buffered == BLOCK { Flush(); }
      }
    }

    /** Folds whole blocks straight from the input. */
    method Whole(data: seq<Byte>, start: nat) returns (at: nat)
      requires Holds() && start <= |data| && (start < |data| ==> buffered == 0)
      modifies this`state, this`message
      ensures Holds() && start <= at <= |data| && message == old(message) + data[start..at]
      ensures |data| - at < BLOCK
    {
      at := start;
      while |data| - at >= BLOCK
        invariant Holds() && start <= at <= |data| && message == old(message) + data[start..at]
      {
        Direct(data[at..at + BLOCK]);
        assert data[start..at + BLOCK] == data[start..at] + data[at..at + BLOCK];
        at := at + BLOCK;
      }
    }

    method Absorb(data: seq<Byte>)
      requires Holds() && buffered < BLOCK
      modifies this`state, this`buffered, this`message, buffer
      ensures Holds() && buffered < BLOCK && message == old(message) + data
    {
      var first := TopUp(data);
      var at := Whole(data, first);
      ThreePieces(old(message), data, first, at);
      if at < |data| { Fill(data[at..]); }
    }

    lemma ThreePieces(m: seq<Byte>, data: seq<Byte>, i: nat, j: nat)
      requires i <= j <= |data|
      ensures m + data[..i] + data[i..j] + data[j..] == m + data
      ensures j == |data| ==> m + data[..i] + data[i..j] == m + data
    {
    }

    /** sha256::update: the message grows by the data, unless there is none behind the pointer or the 64-bit byte
        counter would overflow. */
    method Update(data: Input)
      requires Valid()
      modifies this, buffer
      ensures Valid()
      ensures old(finished) || Size(data) == 0 ==> finished == old(finished) && digest == old(digest) && message == old(message)
      ensures !old(finished) && Size(data) != 0 ==> (finished <==> data.NullPointer? || |old(message)| + Size(data) >= LENGTH_LIMIT)
      ensures !old(finished) && finished ==> digest == Zeros(32)
      ensures !finished && data.Data? ==> message == old(message) + data.bytes
    {
      if finished || Size(data) == 0 { return; }
      if data.NullPointer? || total > LENGTH_LIMIT - 1 - Size(data) {
        finished, digest := true, Zeros(32);
        return;
      }
      total := total + Size(data);
      Absorb(data.bytes);
    }

    /** Writes the bit count into the last eight bytes, least significant byte last. */
    method StoreLength(bitCount: nat)
      requires buffer.Length == BLOCK
      modifies buffer
      ensures buffer[..56] == old(buffer[..56]) && buffer[56..] == BigEndian(bitCount, 8)
    {
      var value := bitCount;
      for i := 0 to 8
        invariant value == bitCount / Pow256(i)
        invariant buffer[64 - i..] == BigEndian(bitCount, i) && buffer[..56] == old(buffer[..56])
      {
        BigEndianFront(bitCount, i);
        DivStep(bitCount, i);
        buffer[63 - i] := value % 256;
        assert buffer[63 - i..] == [value % 256] + buffer[64 - i..];
        value := value / 256;
      }
    }

    lemma DivStep(value: nat, i: nat)
      ensures value / Pow256(i) / 256 == value / Pow256(i + 1)
    {
      var low := Pow256(i);
      var q, r := value / low / 256, value / low % 256;
      assert value / low == 256 * q + r;
      assert value == low * (256 * q + r) + value % low;
      assert low * (256 * q + r) == (256 * low) * q + low * r;
      Below(low, r);
      Unique(value, 256 * low, value / (256 * low), q, value % (256 * low), low * r + value % low);
    }

    lemma Below(low: nat, r: nat)
      requires r <= 255
      ensures low * r <= 255 * low
    {
      assert low * (255 - r) >= 0;
    }

    /** End marker, and zeros to the end of the block when the length field does not fit any more. */
    method MarkEnd() returns (zeros: nat)
      requires Holds() && buffered < BLOCK
      modifies this`state, this`buffered, this`message, buffer
      ensures Holds() && buffered <= 56 && message == old(message) + [0x80] + Zeros(zeros)
      ensures zeros + 56 - buffered == if old(buffered) <= 55 then 55 - old(buffered) else 119 - old(buffered)
    {
      Fill([0x80]);
      zeros := 0;
      if buffered > 56 {
        zeros := BLOCK - buffered;
        Fill(Zeros(zeros));
        Flush();
      } else {
        assert message + Zeros(0) == message;
      }
    }

    /** End marker and zeros, up to the length field. */
    method PadZeros()
      requires Holds() && buffered < BLOCK
      modifies this`state, this`buffered, this`message, buffer
      ensures Holds() && buffered == 56 && message == old(message) + [0x80] + Zeros(ZeroCount(|old(message)|))
    {
      ZeroCountIs(|message|, buffered);
      var zeros := MarkEnd();
      ZerosAdd(zeros, 56 - buffered);
      Fill(Zeros(56 - buffered));
    }

    /** The length field completes the last block. */
    method FoldLength(bitCount: nat)
      requires Holds() && buffered == 56
      modifies this`state, this`buffered, this`message, buffer
      ensures Holds() && buffered == 0 && message == old(message) + BigEndian(bitCount, 8)
    {
      AbsorbMore(compress, state, buffer[..56], message, BigEndian(bitCount, 8));
      StoreLength(bitCount);
      assert buffer[..BLOCK] == buffer[..56] + buffer[56..];
      message, buffered := message + BigEndian(bitCount, 8), BLOCK;
      Flush();
    }

    /** sha256::finish: the hash of everything updated, once and for all. */
    method Finish() returns (r: seq<Byte>)
      requires Valid()
      modifies this, buffer
      ensures Valid() && finished && r == digest && message == old(message)
      ensures old(finished) ==> r == old(digest)
      ensures !old(finished) ==> r == Hash(compress, message)
    {
      if finished { return digest; }
      ghost var m := message;
      var bitCount := total * 8 % LENGTH_LIMIT;
      PadZeros();
      FoldLength(bitCount);
      PaddedIs(m, bitCount);
      AbsorbedAll(compress, state, message);
      digest := Digest(state);
      finished, message := true, m;
      r := digest;
    }
  }

  lemma ZeroCountIs(length: nat, b: nat)
    requires b <= length && b < BLOCK && (length - b) % BLOCK == 0
    ensures ZeroCount(length) == if b <= 55 then 55 - b else 119 - b
  {
  }

  lemma PaddedIs(m: seq<Byte>, bitCount: nat)
    requires bitCount == |m| * 8 % LENGTH_LIMIT
    ensures m + [0x80] + Zeros(ZeroCount(|m|)) + BigEndian(bitCount, 8) == m + Padding(|m|)
  {
    Pow256Is8();
    BigEndianWraps(|m| * 8, 8, LENGTH_LIMIT);
  }

  lemma AbsorbedAll(compress: (Words, seq<Byte>) -> Words, state: Words, message: seq<Byte>)
    requires Absorbed(compress, state, [], message)
    ensures |message| % BLOCK == 0 && state == Fold(compress, INITIAL, message)
  {
    assert message[..|message|] == message;
  }

  lemma ZerosAdd(a: nat, b: nat)
    ensures Zeros(a) + Zeros(b) == Zeros(a + b)
  {
  }

  /** Any split of a message into updates gives the one-shot hash. */
  method HashPieces(compress: (Words, seq<Byte>) -> Words, pieces: seq<seq<Byte>>) returns (r: seq<Byte>)
    requires |Joined(pieces)| < LENGTH_LIMIT
    ensures r == Hash(compress, Joined(pieces))
  {
    var stream := new Stream(compress);
    for i := 0 to |pieces|
      invariant stream.Valid() && !stream.finished && stream.message == Joined(pieces[..i])
      invariant fresh(stream) && fresh(stream.buffer) && stream.compress == compress
    {
      JoinedPrefix(pieces, i);
      stream.Update(Data(pieces[i]));
    }
    assert pieces[..|pieces|] == pieces;
    r := stream.Finish();
  }

  function Joined(pieces: seq<seq<Byte>>): seq<Byte> {
    if pieces == [] then [] else Joined(pieces[..|pieces| - 1]) + pieces[|pieces| - 1]
  }

  lemma {:induction false} JoinedPrefix(pieces: seq<seq<Byte>>, i: nat)
    requires i < |pieces|
    ensures Joined(pieces[..i + 1]) == Joined(pieces[..i]) + pieces[i]
    ensures |Joined(pieces[..i + 1])| <= |Joined(pieces)|
    decreases |pieces| - i
  {
    assert pieces[..i + 1][..i] == pieces[..i];
    if i + 1 < |pieces| {
      JoinedPrefix(pieces, i + 1);
    } else {
      assert pieces[..i + 1] == pieces;
    }
  }
}