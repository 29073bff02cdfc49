/** MD5_CTX: the incremental interface of md5.c, whose result does not depend on
    how the message was divided. */
module Md5Stream {
  import opened Sequences
  import opened Md5Rounds
  import opened Md5

  /** state is the result of compressing the first k bytes of m. */
  ghost predicate AtBlocks(state: Regs, m: seq<Byte>, k: nat) {
    k % 64 == 0 && k <= |m| && state == Blocks(INIT, m[..k])
  }

  lemma OneMore(m: seq<Byte>, k: nat, state: Regs, block: seq<Byte>)
    requires AtBlocks(state, m, k) && k + 64 <= |m| && block == m[k..k + 64]
    ensures AtBlocks(Compress(state, block), m, k + 64)
  {
    hide Compress, Blocks;
    BlocksOne(state, block);
    BlocksAppend(INIT, m[..k], block);
    assert m[..k] + block == m[..k + 64];
  }

  lemma Longer(state: Regs, m: seq<Byte>, k: nat, more: seq<Byte>)
    requires AtBlocks(state, m, k)
    ensures AtBlocks(state, m + more, k)
  {
    hide Blocks;
    assert (m + more)[..k] == m[..k];
  }

  /** What has been compressed, and the bytes that wait in the buffer. */
  ghost predicate Absorbed(state: Regs, waiting: seq<Byte>, m: seq<Byte>) {
    |waiting| < 64 && |waiting| <= |m| && AtBlocks(state, m, |m| - |waiting|) && waiting == m[|m| - |waiting|..]
  }

  lemma AbsorbedFill(state: Regs, waiting: seq<Byte>, m: seq<Byte>)
    requires Absorbed(state, waiting, m)
    ensures |waiting| == |m| % 64
  {
    hide Blocks;
    Fill(|m|, |waiting|);
  }

  lemma Fill(n: nat, w: nat)
    requires w < 64 && w <= n && (n - w) % 64 == 0
    ensures w == n % 64
  {}

  lemma Nothing()
    ensures Absorbed(INIT, [], [])
  {
    var m: seq<Byte> := [];
    assert m[..0] == [];
  }

  /** Too little input to complete a block: it just waits. */
  lemma AbsorbShort(state: Regs, waiting: seq<Byte>, m: seq<Byte>, input: seq<Byte>)
    requires Absorbed(state, waiting, m) && |waiting| + |input| < 64
    ensures Absorbed(state, waiting + input, m + input)
  {
    hide Blocks;
    Longer(state, m, |m| - |waiting|, input);
  }

  /** After whole blocks the rest of the input waits. */
  lemma AbsorbRest(state: Regs, m: seq<Byte>, input: seq<Byte>, i: nat)
    requires i <= |input| < i + 64 && AtBlocks(state, m + input, |m| + i)
    ensures Absorbed(state, input[i..], m + input)
  {
    hide Blocks;
    assert (m + input)[|m| + i..] == input[i..];
  }

  class Md5Context {
    var count0: nat
    var count1: nat
    var state: Regs
    const buffer: array<Byte>
    /** All bytes taken in so far. */
    ghost var msg: seq<Byte>

    ghost predicate Valid()
      reads this, buffer
    {
      && buffer.Length == 64
      && Counts(count0, count1, |msg|)
      && Absorbed(state, buffer[..|msg| % 64], msg)
    }

    /** MD5Init */
    constructor ()
      ensures Valid() && msg == [] && fresh(buffer)
    {
      count0, count1, state, msg := 0, 0, INIT, [];
      buffer := new Byte[64](_ => 0);
      new;
      hide Absorbed;
      Nothing();
      assert buffer[..0] == [];
    }

    /** MD5Update: whatever was taken in before, the input is appended. */
    method Update(input: seq<Byte>)
      requires Valid() && |input| < WORD - 64
      modifies this, buffer
      ensures Valid() && msg == old(msg) + input
    {
      hide Absorbed, AtBlocks, Counts, Low, High;
      CountsIndex(count0, count1, |msg|);
      CountsGrow(count0, count1, |msg|, |input|);
      var index := count0 / 8 % 64;
      count0, count1 := Low(count0, |input|), High(count0, count1, |input|);
      if |input| >= 64 - index {
        AbsorbLong(input, index);
      } else {
        AbsorbedFill(state, buffer[..index], msg);
        AbsorbShort(state, buffer[..index], msg, input);
        Store(index, input);
        msg := msg + input;
        AbsorbedFill(state, buffer[..index + |input|], msg);
      }
    }

    method AbsorbLong(input: seq<Byte>, index: nat)
      requires buffer.Length == 64 && index < 64 && Absorbed(state, buffer[..index], msg)
      requires |input| >= 64 - index
      modifies this`state, this`msg, buffer
      ensures msg == old(msg) + input && Absorbed(state, buffer[..|msg| % 64], msg)
    {
      hide Absorbed, AtBlocks;
      var i := TakeBlocks(input, index);
      Store(0, input[i..]);
      AbsorbRest(state, msg, input, i);
      msg := msg + input;
      AbsorbedFill(state, input[i..], msg);
      assert buffer[..0] + input[i..] == input[i..];
    }

    /** memcpy into the buffer. */
    method Store(index: nat, bytes: seq<Byte>)
      requires buffer.Length == 64 && index + |bytes| <= 64
      modifies buffer
      ensures buffer[..index + |bytes|] == old(buffer[..index]) + bytes
    {
      forall k | 0 <= k < |bytes| {
        buffer[index + k] := bytes[k];
      }
    }

    /** MD5Update when the input completes the buffer: compress it and the whole
        blocks that follow; the result is how much input was used. */
    method TakeBlocks(input: seq<Byte>, index: nat) returns (i: nat)
      requires buffer.Length == 64 && index < 64 && Absorbed(state, buffer[..index], msg)
      requires |input| >= 64 - index
      modifies this`state, buffer
      ensures i <= |input| < i + 64 && AtBlocks(state, msg + input, |msg| + i)
    {
      hide Compress, AtBlocks;
      var partlen := 64 - index;
      ghost var all, n := msg + input, |msg|;
      Longer(state, msg, n - index, input);
      Store(index, input[..partlen]);
      assert buffer[..64] == buffer[..];
      assert buffer[..] == all[n - index..n + partlen];
      OneMore(all, n - index, state, buffer[..]);
      state := Transform(state, buffer[..]);
      i := partlen;
      while i + 64 <= |input|
        invariant partlen <= i <= |input| && AtBlocks(state, all, n + i)
      {
        assert input[i..i + 64] == all[n + i..n + i + 64];
        OneMore(all, n + i, state, input[i..i + 64]);
        state := Transform(state, input[i..i + 64]);
        i := i + 64;
      }
    }

    /** The message length in bits, as the last eight bytes have it. */
    method BitCount() returns (bits: seq<Byte>)
      requires Valid()
      ensures bits == LengthBytes(|msg|) && |bits| == 8
    {
      hide Absorbed, Counts, Encode, LengthBytes;
      CountsIndex(count0, count1, |msg|);
      BitsAre(count0, count1, |msg|);
      bits := EncodeLoop([count0 as bv32, count1 as bv32]);
    }

    /** The first half of MD5Final: padding, then the length in bits. */
    method Pad()
      requires Valid()
      modifies this, buffer
      ensures Valid() && msg == Padded(old(msg)) && |msg| % 64 == 0
    {
      hide Absorbed, Counts, Blocks, Padded, LengthBytes;
      ghost var m := msg;
      CountsIndex(count0, count1, |m|);
      var index := count0 / 8 % 64;
      var padlen := if index < 56 then 56 - index else 120 - index;
      var bits := BitCount();
      Update([0x80] + Filled(0 as Byte, padlen - 1));
      Update(bits);
      PaddedIs(m, msg, padlen, bits);
    }

    /** MD5Final: whatever the pieces were, the digest of the whole message. */
    method Final() returns (digest: seq<Byte>)
      requires Valid()
      modifies this, buffer
      ensures digest == Digest(old(msg))
    {
      hide Absorbed, Counts, Encode, Blocks, Padded;
      Pad();
      AbsorbedAll(state, buffer[..|msg| % 64], msg);
      digest := EncodeLoop([state.a, state.b, state.c, state.d]);
    }
  }

  lemma BitsAre(c0: nat, c1: nat, n: nat)
    requires c0 == 8 * n % WORD && c1 == 8 * n / WORD % WORD
    ensures Encode([c0 as bv32, c1 as bv32]) == LengthBytes(n)
  {
    hide Encode;
  }

  lemma PaddedIs(m: seq<Byte>, all: seq<Byte>, padlen: nat, bits: seq<Byte>)
    requires padlen == PadLength(|m|) && bits == LengthBytes(|m|)
    requires all == m + ([0x80] + Filled(0 as Byte, padlen - 1)) + bits
    ensures all == Padded(m) && |all| % 64 == 0
  {
    hide LengthBytes;
  }

  lemma AbsorbedAll(state: Regs, waiting: seq<Byte>, m: seq<Byte>)
    requires Absorbed(state, waiting, m) && |m| % 64 == 0
    ensures state == Blocks(INIT, m)
  {
    hide Blocks;
    AbsorbedFill(state, waiting, m);
    assert m[..|m|] == m;
  }

  function Joined(pieces: seq<seq<Byte>>): seq<Byte> {
    if pieces == [] then [] else Joined(pieces[..|pieces| - 1]) + pieces[|pieces| - 1]
  }

  /** Any division of a message into pieces gives the same digest. */
  method HashPieces(pieces: seq<seq<Byte>>) returns (digest: seq<Byte>)
    requires forall k :: 0 <= k < |pieces| ==> |pieces[k]| < WORD - 64
    ensures digest == Digest(Joined(pieces))
  {
    hide Digest, Absorbed, Counts;
    var context := new Md5Context();
    var k := 0;
    while k < |pieces|
      invariant k <= |pieces| && context.Valid() && fresh(context) && fresh(context.buffer)
      invariant context.msg == Joined(pieces[..k])
    {
      assert pieces[..k + 1][..k] == pieces[..k];
      context.Update(pieces[k]);
      k := k + 1;
    }
    assert pieces[..k] == pieces;
    digest := context.Final();
  }
}
