/** MD5 of md5.c fed piece by piece, against RFC 1321 applied to the whole padded
    message at once. */
module Md5 {
  import opened Sequences
  import opened Md5Rounds

  const WORD := 0x1_0000_0000
  const INIT := Regs(0x67452301, 0xEFCDAB89, 0x98BADCFE, 0x10325476)

  // Words and bytes, least significant byte first.

  function EncodeWord(w: bv32): (b: seq<Byte>)
    ensures |b| == 4
  {
    [(w & 0xFF) as Byte, ((w >> 8) & 0xFF) as Byte, ((w >> 16) & 0xFF) as Byte, ((w >> 24) & 0xFF) as Byte]
  }

  function DecodeWord(b: seq<Byte>): bv32
    requires |b| == 4
  {
    (b[0] as bv32) | ((b[1] as bv32) << 8) | ((b[2] as bv32) << 16) | ((b[3] as bv32) << 24)
  }

  lemma WordRoundTrip(w: bv32)
    ensures DecodeWord(EncodeWord(w)) == w
  {}

  lemma ByteRoundTrip(b: seq<Byte>)
    requires |b| == 4
    ensures EncodeWord(DecodeWord(b)) == b
  {
    FourBytes(b[0], b[1], b[2], b[3]);
  }

  lemma FourBytes(a: Byte, b: Byte, c: Byte, d: Byte)
    ensures var w := (a as bv32) | ((b as bv32) << 8) | ((c as bv32) << 16) | ((d as bv32) << 24);
      w & 0xFF == a as bv32 && (w >> 8) & 0xFF == b as bv32 && (w >> 16) & 0xFF == c as bv32 &&
        (w >> 24) & 0xFF == d as bv32
  {}

  function Encode(ws: seq<bv32>): (b: seq<Byte>)
    ensures |b| == 4 * |ws|
  {
    if ws == [] then [] else EncodeWord(ws[0]) + Encode(ws[1..])
  }

  function Decode(b: seq<Byte>): (ws: seq<bv32>)
    requires |b| % 4 == 0
    ensures |ws| == |b| / 4
  {
    if b == [] then [] else [DecodeWord(b[..4])] + Decode(b[4..])
  }

  lemma {:induction false} DecodeEncode(ws: seq<bv32>)
    ensures Decode(Encode(ws)) == ws
  {
    hide EncodeWord, DecodeWord;
    if ws != [] {
      var e := Encode(ws);
      WordRoundTrip(ws[0]);
      assert e[..4] == EncodeWord(ws[0]) && e[4..] == Encode(ws[1..]);
      DecodeEncode(ws[1..]);
    }
  }

  lemma {:induction false} EncodeDecode(b: seq<Byte>)
    requires |b| % 4 == 0
    ensures Encode(Decode(b)) == b
  {
    hide EncodeWord, DecodeWord;
    if b != [] {
      ByteRoundTrip(b[..4]);
      EncodeDecode(b[4..]);
      assert Decode(b)[1..] == Decode(b[4..]);
      assert b == b[..4] + b[4..];
    }
  }

  lemma {:induction false} DecodeAt(b: seq<Byte>, i: nat)
    requires |b| % 4 == 0 && i < |b| / 4
    ensures Decode(b)[i] == DecodeWord(b[4 * i..4 * i + 4])
  {
    hide DecodeWord;
    if i > 0 {
      DecodeAt(b[4..], i - 1);
      assert b[4..][4 * (i - 1)..4 * (i - 1) + 4] == b[4 * i..4 * i + 4];
    }
  }

  lemma {:induction false} EncodeAt(ws: seq<bv32>, i: nat)
    requires i < |ws|
    ensures Encode(ws)[4 * i..4 * i + 4] == EncodeWord(ws[i])
  {
    hide EncodeWord;
    if i > 0 {
      EncodeAt(ws[1..], i - 1);
      assert Encode(ws)[4..] == Encode(ws[1..]);
      assert Encode(ws)[4 * i..4 * i + 4] == Encode(ws)[4..][4 * (i - 1)..4 * (i - 1) + 4];
    }
  }

  /** MD5Decode */
  method DecodeLoop(input: seq<Byte>) returns (output: seq<bv32>)
    requires |input| % 4 == 0
    ensures output == Decode(input)
  {
    hide DecodeWord;
    var i, j := 0, 0;
    output := [];
    while j < |input|
      invariant j == 4 * i <= |input| && |output| == i
      invariant forall k :: 0 <= k < i ==> output[k] == Decode(input)[k]
    {
      DecodeAt(input, i);
      output := output + [DecodeWord(input[j..j + 4])];
      i := i + 1;
      j := j + 4;
    }
  }

  /** MD5Encode */
  method EncodeLoop(input: seq<bv32>) returns (output: seq<Byte>)
    ensures output == Encode(input)
  {
    hide EncodeWord;
    var i, j := 0, 0;
    output := [];
    while j < 4 * |input|
      invariant j == 4 * i <= 4 * |input| && output == Encode(input)[..j]
    {
      EncodeAt(input, i);
      assert Encode(input)[..j + 4] == Encode(input)[..j] + Encode(input)[4 * i..4 * i + 4];
      output := output + EncodeWord(input[i]);
      i := i + 1;
      j := j + 4;
    }
  }

  // The compression of one block, and of many.

  function Plus(r: Regs, q: Regs): Regs {
    Regs(r.a + q.a, r.b + q.b, r.c + q.c, r.d + q.d)
  }

  function Compress(r: Regs, block: seq<Byte>): Regs
    requires |block| == 64
  {
    Plus(r, TableSteps(r, Decode(block), 0, 64))
  }

  lemma {:induction false} StepsJoin(r: Regs, x: seq<bv32>, i: nat, m: nat, n: nat)
    requires |x| == 16 && i <= m <= n <= 64
    ensures TableSteps(r, x, i, n) == TableSteps(TableSteps(r, x, i, m), x, m, n)
    decreases m - i
  {
    hide TableStep;
    if i < m { StepsJoin(TableStep(r, x, i), x, i + 1, m, n); }
  }

  /** MD5Transform */
  method Transform(state: Regs, block: seq<Byte>) returns (r: Regs)
    requires |block| == 64
    ensures r == Compress(state, block)
  {
    hide TableSteps;
    var x := DecodeLoop(block);
    var q := Round1(state, x);
    q := Round2(q, x);
    q := Round3(q, x);
    q := Round4(q, x);
    StepsJoin(state, x, 0, 16, 64);
    StepsJoin(TableSteps(state, x, 0, 16), x, 16, 32, 64);
    StepsJoin(TableSteps(TableSteps(state, x, 0, 16), x, 16, 32), x, 32, 48, 64);
    r := Plus(state, q);
  }

  function Blocks(r: Regs, m: seq<Byte>): Regs
    requires |m| % 64 == 0
    decreases |m|
  {
    if m == [] then r
    else
      BlockLeft(|m|);
      Blocks(Compress(r, m[..64]), m[64..])
  }

  lemma BlockLeft(n: nat)
    requires n > 0 && n % 64 == 0
    ensures n >= 64 && (n - 64) % 64 == 0
  {}

  lemma {:induction false} BlocksAppend(r: Regs, m: seq<Byte>, n: seq<Byte>)
    requires |m| % 64 == 0 && |n| % 64 == 0
    ensures Blocks(r, m + n) == Blocks(Blocks(r, m), n)
    decreases |m|
  {
    hide Compress;
    if m == [] {
      assert m + n == n;
    } else {
      assert (m + n)[..64] == m[..64] && (m + n)[64..] == m[64..] + n;
      BlocksAppend(Compress(r, m[..64]), m[64..], n);
    }
  }

  lemma BlocksOne(r: Regs, m: seq<Byte>)
    requires |m| == 64
    ensures Blocks(r, m) == Compress(r, m)
  {
    hide Compress;
    assert m[..64] == m && m[64..] == [];
  }

  // RFC 1321 sections 3.1 to 3.5 on a whole message.

  /** How many bytes of padding: at least one, up to 56 modulo 64. */
  function PadLength(n: nat): (p: nat)
    ensures 1 <= p <= 64 && (n + p) % 64 == 56
  {
    if n % 64 < 56 then 56 - n % 64 else 120 - n % 64
  }

  /** The length in bits, modulo 2^64, as two words. */
  function LengthBytes(n: nat): (b: seq<Byte>)
    ensures |b| == 8
  {
    Encode([(8 * n % WORD) as bv32, (8 * n / WORD % WORD) as bv32])
  }

  function Padded(m: seq<Byte>): (p: seq<Byte>)
    ensures |p| % 64 == 0
  {
    PadFits(|m|, PadLength(|m|));
    m + ([0x80] + Filled(0 as Byte, PadLength(|m|) - 1)) + LengthBytes(|m|)
  }

  lemma PadFits(n: nat, p: nat)
    requires (n + p) % 64 == 56
    ensures (n + p + 8) % 64 == 0
  {}

  function Digest(m: seq<Byte>): (d: seq<Byte>)
    ensures |d| == 16
  {
    var r := Blocks(INIT, Padded(m));
    Encode([r.a, r.b, r.c, r.d])
  }

  // The two-word bit counter.

  function Low(c: nat, n: nat): nat { (c + 8 * n % WORD) % WORD }

  function High(c0: nat, c1: nat, n: nat): nat {
    (c1 + (if Low(c0, n) < 8 * n % WORD then 1 else 0) + n / 0x2000_0000) % WORD
  }

  /** Adding a chunk of n bytes to the counter adds 8n modulo 2^64, carry and all. */
  lemma CounterAdds(c0: nat, c1: nat, n: nat)
    requires c0 < WORD && c1 < WORD && n < WORD
    ensures Low(c0, n) < WORD && High(c0, c1, n) < WORD
    ensures High(c0, c1, n) * WORD + Low(c0, n) == (c1 * WORD + c0 + 8 * n) % (WORD * WORD)
  {
    var low, top := 8 * n % WORD, n / 0x2000_0000;
    assert 8 * n == top * WORD + low;
    var carry := if c0 + low >= WORD then 1 else 0;
    assert Low(c0, n) == c0 + low - carry * WORD;
    assert (Low(c0, n) < low) == (carry == 1);
    var high := c1 + carry + top;
    assert c1 * WORD + c0 + 8 * n == high * WORD + Low(c0, n);
    var wrap := if high >= WORD then 1 else 0;
    assert High(c0, c1, n) == high - wrap * WORD;
  }

  /** The counter holds the length in bits, modulo 2^64. */
  predicate Counts(c0: nat, c1: nat, n: nat) {
    c0 < WORD && c1 < WORD && c1 * WORD + c0 == 8 * n % (WORD * WORD)
  }

  lemma CountsGrow(c0: nat, c1: nat, n: nat, k: nat)
    requires Counts(c0, c1, n) && k < WORD
    ensures Counts(Low(c0, k), High(c0, c1, k), n + k)
  {
    CounterAdds(c0, c1, k);
    AddMod(8 * n, 8 * k, WORD * WORD);
  }

  lemma AddMod(x: nat, y: nat, m: nat)
    requires m == WORD * WORD
    ensures (x % m + y) % m == (x + y) % m
  {}

  /** ... so it gives the fill of the buffer and the two words of the length. */
  lemma CountsIndex(c0: nat, c1: nat, n: nat)
    requires Counts(c0, c1, n)
    ensures c0 / 8 % 64 == n % 64
    ensures c0 == 8 * n % WORD && c1 == 8 * n / WORD % WORD
  {
    var q := 8 * n / (WORD * WORD);
    CountsWords(c0, c1, n, q);
  }

  lemma CountsWords(c0: nat, c1: nat, n: nat, q: nat)
    requires c0 < WORD && c1 < WORD && 8 * n == q * (WORD * WORD) + c1 * WORD + c0
    ensures c0 / 8 % 64 == n % 64
    ensures c0 == 8 * n % WORD && c1 == 8 * n / WORD % WORD
  {
    var t := q * WORD + c1;
    assert 8 * n == t * WORD + c0;
    WordSplit(8 * n, t, c0);
    WordSplit(t, q, c1);
    Eighth(n, t, c0);
  }

  lemma WordSplit(x: nat, t: nat, c: nat)
    requires c < WORD && x == t * WORD + c
    ensures x % WORD == c && x / WORD == t
  {}

  lemma Eighth(n: nat, t: nat, c: nat)
    requires c < WORD && 8 * n == t * WORD + c
    ensures c / 8 % 64 == n % 64
  {
    assert n == t * 0x2000_0000 + c / 8;
  }
}
