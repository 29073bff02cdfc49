/** The test case "abc" of RFC 1321, section A.5, worked out step by step: it fixes every
    constant, table and byte order of md5.c. */
module Md5Vector {
  import opened Md5Rounds
  import opened Md5

  const ABC: seq<Byte> := [0x61, 0x62, 0x63]

  const WORDS: seq<bv32> := [0x80636261, 0, 0, 0, 0, 0, 0, 0, 0, 0, 0, 0, 0, 0, 24, 0]

  /** Four steps whose values are known. */
  lemma Four(r: Regs, i: nat, q: Regs)
    requires i + 4 <= 64
    requires StepValue(r.a, r.b, r.c, r.d, WORDS, i) == q.a && StepValue(r.d, q.a, r.b, r.c, WORDS, i + 1) == q.d
    requires StepValue(r.c, q.d, q.a, r.b, WORDS, i + 2) == q.c && StepValue(r.b, q.c, q.d, q.a, WORDS, i + 3) == q.b
    ensures TableSteps(r, WORDS, i, 64) == TableSteps(q, WORDS, i + 4, 64)
  {
    hide StepValue;
    FourSteps(r, WORDS, i, 64);
  }

  lemma FirstFour()
    ensures Apply(0, 0x67452301, 0xefcdab89, 0x98badcfe, 0x10325476, 0x80636261, 7, 0xd76aa478) == 0xd6d117b4
    ensures Apply(0, 0x10325476, 0xd6d117b4, 0xefcdab89, 0x98badcfe, 0, 12, 0xe8c7b756) == 0x344a8432
    ensures Apply(0, 0x98badcfe, 0x344a8432, 0xd6d117b4, 0xefcdab89, 0, 17, 0x242070db) == 0x2f6fbd72
    ensures Apply(0, 0xefcdab89, 0x2f6fbd72, 0x344a8432, 0xd6d117b4, 0, 22, 0xc1bdceee) == 0x7ad956f2
  {}

  lemma Steps0To3()
    ensures TableSteps(Regs(0x67452301, 0xefcdab89, 0x98badcfe, 0x10325476), WORDS, 0, 64) ==
      TableSteps(Regs(0xd6d117b4, 0x7ad956f2, 0x2f6fbd72, 0x344a8432), WORDS, 4, 64)
  {
    hide TableSteps, StepValue, Word, Shift, Sine, Apply;
    FirstFour();
    TableEntries(WORDS, 0);
    Words1();
    Shifts1();
    Sines1();
    Four(Regs(0x67452301, 0xefcdab89, 0x98badcfe, 0x10325476), 0,
      Regs(0xd6d117b4, 0x7ad956f2, 0x2f6fbd72, 0x344a8432));
  }

  lemma Steps4To7()
    ensures TableSteps(Regs(0xd6d117b4, 0x7ad956f2, 0x2f6fbd72, 0x344a8432), WORDS, 4, 64) ==
      TableSteps(Regs(0xc73741ef, 0x928d99f6, 0x207dc67b, 0x8bac3051), WORDS, 8, 64)
  {
    hide TableSteps, StepValue, Word, Shift, Sine;
    TableEntries(WORDS, 0);
    Words1();
    Shifts1();
    Sines1();
    Four(Regs(0xd6d117b4, 0x7ad956f2, 0x2f6fbd72, 0x344a8432), 4,
      Regs(0xc73741ef, 0x928d99f6, 0x207dc67b, 0x8bac3051));
  }

  lemma Steps8To11()
    ensures TableSteps(Regs(0xc73741ef, 0x928d99f6, 0x207dc67b, 0x8bac3051), WORDS, 8, 64) ==
      TableSteps(Regs(0x854b3712, 0x5ed49596, 0x3020401c, 0x74e2f284), WORDS, 12, 64)
  {
    hide TableSteps, StepValue, Word, Shift, Sine;
    TableEntries(WORDS, 0);
    Words1();
    Shifts1();
    Sines1();
    Four(Regs(0xc73741ef, 0x928d99f6, 0x207dc67b, 0x8bac3051), 8,
      Regs(0x854b3712, 0x5ed49596, 0x3020401c, 0x74e2f284));
  }

  lemma Steps12To15()
    ensures TableSteps(Regs(0x854b3712, 0x5ed49596, 0x3020401c, 0x74e2f284), WORDS, 12, 64) ==
      TableSteps(Regs(0xdda9b9a6, 0x72aff2e0, 0xe396856b, 0xa1051895), WORDS, 16, 64)
  {
    hide TableSteps, StepValue, Word, Shift, Sine;
    TableEntries(WORDS, 0);
    Words1();
    Shifts1();
    Sines1();
    Four(Regs(0x854b3712, 0x5ed49596, 0x3020401c, 0x74e2f284), 12,
      Regs(0xdda9b9a6, 0x72aff2e0, 0xe396856b, 0xa1051895));
  }

  lemma Steps16To19()
    ensures TableSteps(Regs(0xdda9b9a6, 0x72aff2e0, 0xe396856b, 0xa1051895), WORDS, 16, 64) ==
      TableSteps(Regs(0x3e9e9126, 0xb5b204e4, 0xe25e1652, 0x4a1d804e), WORDS, 20, 64)
  {
    hide TableSteps, StepValue, Word, Shift, Sine;
    TableEntries(WORDS, 1);
    Words2();
    Shifts2();
    Sines2();
    Four(Regs(0xdda9b9a6, 0x72aff2e0, 0xe396856b, 0xa1051895), 16,
      Regs(0x3e9e9126, 0xb5b204e4, 0xe25e1652, 0x4a1d804e));
  }

  lemma Steps20To23()
    ensures TableSteps(Regs(0x3e9e9126, 0xb5b204e4, 0xe25e1652, 0x4a1d804e), WORDS, 20, 64) ==
      TableSteps(Regs(0x59a8ffda, 0x47092c07, 0xabfc7920, 0x6d002f1e), WORDS, 24, 64)
  {
    hide TableSteps, StepValue, Word, Shift, Sine;
    TableEntries(WORDS, 1);
    Words2();
    Shifts2();
    Sines2();
    Four(Regs(0x3e9e9126, 0xb5b204e4, 0xe25e1652, 0x4a1d804e), 20,
      Regs(0x59a8ffda, 0x47092c07, 0xabfc7920, 0x6d002f1e));
  }

  lemma Steps24To27()
    ensures TableSteps(Regs(0x59a8ffda, 0x47092c07, 0xabfc7920, 0x6d002f1e), WORDS, 24, 64) ==
      TableSteps(Regs(0xb7f268cf, 0x786acb8f, 0xfe1623b1, 0x9388eff), WORDS, 28, 64)
  {
    hide TableSteps, StepValue, Word, Shift, Sine;
    TableEntries(WORDS, 1);
    Words2();
    Shifts2();
    Sines2();
    Four(Regs(0x59a8ffda, 0x47092c07, 0xabfc7920, 0x6d002f1e), 24,
      Regs(0xb7f268cf, 0x786acb8f, 0xfe1623b1, 0x9388eff));
  }

  lemma Steps28To31()
    ensures TableSteps(Regs(0xb7f268cf, 0x786acb8f, 0xfe1623b1, 0x9388eff), WORDS, 28, 64) ==
      TableSteps(Regs(0x790a77fb, 0x726342d3, 0xa62884aa, 0x9f47e4f8), WORDS, 32, 64)
  {
    hide TableSteps, StepValue, Word, Shift, Sine;
    TableEntries(WORDS, 1);
    Words2();
    Shifts2();
    Sines2();
    Four(Regs(0xb7f268cf, 0x786acb8f, 0xfe1623b1, 0x9388eff), 28,
      Regs(0x790a77fb, 0x726342d3, 0xa62884aa, 0x9f47e4f8));
  }

  lemma Steps32To35()
    ensures TableSteps(Regs(0x790a77fb, 0x726342d3, 0xa62884aa, 0x9f47e4f8), WORDS, 32, 64) ==
      TableSteps(Regs(0xb3707ebf, 0x3b0875c7, 0x8d212ff5, 0x60127b2e), WORDS, 36, 64)
  {
    hide TableSteps, StepValue, Word, Shift, Sine;
    TableEntries(WORDS, 2);
    Words3();
    Shifts3();
    Sines3();
    Four(Regs(0x790a77fb, 0x726342d3, 0xa62884aa, 0x9f47e4f8), 32,
      Regs(0xb3707ebf, 0x3b0875c7, 0x8d212ff5, 0x60127b2e));
  }

  lemma Steps36To39()
    ensures TableSteps(Regs(0xb3707ebf, 0x3b0875c7, 0x8d212ff5, 0x60127b2e), WORDS, 36, 64) ==
      TableSteps(Regs(0x21b117b9, 0x5a2f5ea5, 0x3575227e, 0x6e7429d5), WORDS, 40, 64)
  {
    hide TableSteps, StepValue, Word, Shift, Sine;
    TableEntries(WORDS, 2);
    Words3();
    Shifts3();
    Sines3();
    Four(Regs(0xb3707ebf, 0x3b0875c7, 0x8d212ff5, 0x60127b2e), 36,
      Regs(0x21b117b9, 0x5a2f5ea5, 0x3575227e, 0x6e7429d5));
  }

  lemma Steps40To43()
    ensures TableSteps(Regs(0x21b117b9, 0x5a2f5ea5, 0x3575227e, 0x6e7429d5), WORDS, 40, 64) ==
      TableSteps(Regs(0x11de1779, 0x4c6124f4, 0x31c465ca, 0xfadcaa38), WORDS, 44, 64)
  {
    hide TableSteps, StepValue, Word, Shift, Sine;
    TableEntries(WORDS, 2);
    Words3();
    Shifts3();
    Sines3();
    Four(Regs(0x21b117b9, 0x5a2f5ea5, 0x3575227e, 0x6e7429d5), 40,
      Regs(0x11de1779, 0x4c6124f4, 0x31c465ca, 0xfadcaa38));
  }

  lemma Steps44To47()
    ensures TableSteps(Regs(0x11de1779, 0x4c6124f4, 0x31c465ca, 0xfadcaa38), WORDS, 44, 64) ==
      TableSteps(Regs(0x7f2e507b, 0x7beb9700, 0x8fae6399, 0x99d9679d), WORDS, 48, 64)
  {
    hide TableSteps, StepValue, Word, Shift, Sine;
    TableEntries(WORDS, 2);
    Words3();
    Shifts3();
    Sines3();
    Four(Regs(0x11de1779, 0x4c6124f4, 0x31c465ca, 0xfadcaa38), 44,
      Regs(0x7f2e507b, 0x7beb9700, 0x8fae6399, 0x99d9679d));
  }

  lemma Steps48To51()
    ensures TableSteps(Regs(0x7f2e507b, 0x7beb9700, 0x8fae6399, 0x99d9679d), WORDS, 48, 64) ==
      TableSteps(Regs(0x7b201df8, 0x8bf025c4, 0xb298cefd, 0xf4e8e96e), WORDS, 52, 64)
  {
    hide TableSteps, StepValue, Word, Shift, Sine;
    TableEntries(WORDS, 3);
    Words4();
    Shifts4();
    Sines4();
    Four(Regs(0x7f2e507b, 0x7beb9700, 0x8fae6399, 0x99d9679d), 48,
      Regs(0x7b201df8, 0x8bf025c4, 0xb298cefd, 0xf4e8e96e));
  }

  lemma Steps52To55()
    ensures TableSteps(Regs(0x7b201df8, 0x8bf025c4, 0xb298cefd, 0xf4e8e96e), WORDS, 52, 64) ==
      TableSteps(Regs(0x6cc5e8a, 0x3bfa2c27, 0x7d632dd0, 0x5b0d97aa), WORDS, 56, 64)
  {
    hide TableSteps, StepValue, Word, Shift, Sine;
    TableEntries(WORDS, 3);
    Words4();
    Shifts4();
    Sines4();
    Four(Regs(0x7b201df8, 0x8bf025c4, 0xb298cefd, 0xf4e8e96e), 52,
      Regs(0x6cc5e8a, 0x3bfa2c27, 0x7d632dd0, 0x5b0d97aa));
  }

  lemma Steps56To59()
    ensures TableSteps(Regs(0x6cc5e8a, 0x3bfa2c27, 0x7d632dd0, 0x5b0d97aa), WORDS, 56, 64) ==
      TableSteps(Regs(0x7f81cc35, 0x7327d604, 0x4f9dbe3f, 0x94454ab), WORDS, 60, 64)
  {
    hide TableSteps, StepValue, Word, Shift, Sine;
    TableEntries(WORDS, 3);
    Words4();
    Shifts4();
    Sines4();
    Four(Regs(0x6cc5e8a, 0x3bfa2c27, 0x7d632dd0, 0x5b0d97aa), 56,
      Regs(0x7f81cc35, 0x7327d604, 0x4f9dbe3f, 0x94454ab));
  }

  lemma Steps60To63()
    ensures TableSteps(Regs(0x7f81cc35, 0x7327d604, 0x4f9dbe3f, 0x94454ab), WORDS, 60, 64) ==
      TableSteps(Regs(0x310ade8f, 0xc08226b3, 0xe484b9d8, 0x624d8cb2), WORDS, 64, 64)
  {
    hide TableSteps, StepValue, Word, Shift, Sine;
    TableEntries(WORDS, 3);
    Words4();
    Shifts4();
    Sines4();
    Four(Regs(0x7f81cc35, 0x7327d604, 0x4f9dbe3f, 0x94454ab), 60,
      Regs(0x310ade8f, 0xc08226b3, 0xe484b9d8, 0x624d8cb2));
  }

  /** The one block of the padded message. */
  lemma AbcBlock()
    ensures |Padded(ABC)| == 64 && Decode(Padded(ABC)) == WORDS
  {
    hide DecodeWord, EncodeWord;
    var p := Padded(ABC);
    AbcLength();
    assert p[..4] == [0x61, 0x62, 0x63, 0x80];
    WordsAre();
    forall i | 0 <= i < 16
      ensures Decode(p)[i] == WORDS[i]
    {
      DecodeAt(p, i);
      if i == 0 {
        assert p[0..4] == p[..4];
      } else if i == 14 {
        assert p[4 * i..4 * i + 4] == [24, 0, 0, 0];
      } else {
        assert p[4 * i..4 * i + 4] == [0, 0, 0, 0];
      }
    }
  }

  lemma AbcLength()
    ensures PadLength(3) == 53 && LengthBytes(3) == [24, 0, 0, 0, 0, 0, 0, 0]
  {
    hide EncodeWord;
    LengthWords();
    assert [24, 0][1..] == [0] && [0 as bv32][1..] == [];
    assert Encode([0]) == EncodeWord(0) + [];
    assert Encode([24, 0]) == EncodeWord(24) + Encode([0]);
  }

  lemma LengthWords()
    ensures 8 * 3 % WORD == 24 && 8 * 3 / WORD % WORD == 0
    ensures EncodeWord(24) == [24, 0, 0, 0] && EncodeWord(0) == [0, 0, 0, 0]
  {}

  lemma WordsAre()
    ensures DecodeWord([0x61, 0x62, 0x63, 0x80]) == 0x80636261 && DecodeWord([24, 0, 0, 0]) == 24
    ensures DecodeWord([0, 0, 0, 0]) == 0
  {}

  /** MD5 ("abc") = 900150983cd24fb0d6963f7d28e17f72 */
  lemma AbcDigest()
    ensures Digest(ABC) == [
      0x90, 0x01, 0x50, 0x98, 0x3c, 0xd2, 0x4f, 0xb0,
      0xd6, 0x96, 0x3f, 0x7d, 0x28, 0xe1, 0x7f, 0x72]
  {
    hide TableSteps, Encode, Decode, Padded;
    AbcBlock();
    BlocksOne(INIT, Padded(ABC));
    Steps0To3();
    Steps4To7();
    Steps8To11();
    Steps12To15();
    Steps16To19();
    Steps20To23();
    Steps24To27();
    Steps28To31();
    Steps32To35();
    Steps36To39();
    Steps40To43();
    Steps44To47();
    Steps48To51();
    Steps52To55();
    Steps56To59();
    Steps60To63();
    NoSteps(Regs(0x310ade8f, 0xc08226b3, 0xe484b9d8, 0x624d8cb2), WORDS, 64);
    AbcBytes();
  }

  lemma AbcBytes()
    ensures Encode([0x98500190, 0xb04fd23c, 0x7d3f96d6, 0x727fe128]) == [
      0x90, 0x01, 0x50, 0x98, 0x3c, 0xd2, 0x4f, 0xb0,
      0xd6, 0x96, 0x3f, 0x7d, 0x28, 0xe1, 0x7f, 0x72]
  {
    hide EncodeWord;
    var ws: seq<bv32> := [0x98500190, 0xb04fd23c, 0x7d3f96d6, 0x727fe128];
    assert ws[1..][1..][1..][1..] == [];
    assert ws[1..][0] == ws[1] && ws[1..][1..][0] == ws[2] && ws[1..][1..][1..][0] == ws[3];
    WordBytes();
  }

  lemma WordBytes()
    ensures EncodeWord(0x98500190) == [0x90, 0x01, 0x50, 0x98]
    ensures EncodeWord(0xb04fd23c) == [0x3c, 0xd2, 0x4f, 0xb0]
    ensures EncodeWord(0x7d3f96d6) == [0xd6, 0x96, 0x3f, 0x7d]
    ensures EncodeWord(0x727fe128) == [0x28, 0xe1, 0x7f, 0x72]
  {}
}
