/** Messages of dht.c as parts between the colons its printers wrote, for dht_memmem: the first occurrence of a
    marker is found part by part, whatever bytes the payloads have. */
module KrpcParts {
  import opened Wrappers
  import opened Krpc

  /** Printed text up to a colon, or a payload with the letters printed right behind it. */
  datatype Parts = Last(s: string) | Then(s: string, rest: Parts) | Pay(x: string, behind: string, rest: Parts)

  function Flat(f: Parts): string {
    match f
    case Last(s) => s
    case Then(s, rest) => s + (":" + Flat(rest))
    case Pay(x, behind, rest) => x + (behind + (":" + Flat(rest)))
  }

  predicate NoColon(s: string) { ':' !in s }

  /** A marker has its first colon inside s when s is followed by a colon and t. */
  ghost predicate MetInside(s: string, t: string, m0: string, m1: string) {
    exists i :: MetAt(s, t, m0, m1, i)
  }

  predicate MetAt(s: string, t: string, m0: string, m1: string, i: int) {
    MatchAt(s + (":" + t), i, m0 + (":" + m1)) && i + |m0| < |s|
  }

  predicate Ends(s: string, m: string) { |m| <= |s| && s[|s| - |m|..] == m }

  predicate Starts(s: string, m: string) { |m| <= |s| && s[..|m|] == m }

  /** Past, for the marker m0:m1, on a message in parts: the marker is met inside a
      payload, around a printed colon, or further on. */
  function Follow(f: Parts, m0: string, m1: string): Option<string> {
    match f
    case Last(_) => None
    case Then(s, rest) =>
      if Ends(s, m0) && Starts(Flat(rest), m1) then Some(Flat(rest)[|m1|..]) else Follow(rest, m0, m1)
    case Pay(x, behind, rest) =>
      match Past(x + behind, m0 + (":" + m1))
      case Some(r) => Some(r + (":" + Flat(rest)))
      case None =>
        if Ends(x + behind, m0) && Starts(Flat(rest), m1) then Some(Flat(rest)[|m1|..]) else Follow(rest, m0, m1)
  }

  /** Text without a colon holds no marker. */
  lemma {:induction false} NoMatch(s: string, m0: string, m1: string)
    requires NoColon(s)
    ensures Past(s, m0 + (":" + m1)) == None
  {
    var m := m0 + (":" + m1);
    if |s| >= |m| {
      assert m[|m0|] == ':' && s[..|m|][|m0|] == s[|m0|];
      NoMatch(s[1..], m0, m1);
    }
  }

  /** A marker is found at the colon between s and t or not before t. */
  lemma {:induction false} PastPart(s: string, t: string, m0: string, m1: string)
    requires !MetInside(s, t, m0, m1) && NoColon(m0) && m0 != ""
    ensures Past(s + (":" + t), m0 + (":" + m1)) == if Ends(s, m0) && Starts(t, m1) then Some(t[|m1|..])
      else Past(t, m0 + (":" + m1))
  {
    var m, b := m0 + (":" + m1), s + (":" + t);
    if |s| == |m0| {
      SameLength(s, t, m0, m1);
    } else {
      OtherLength(s, t, m0, m1);
    }
    if s == "" {
      assert b[1..] == t;
      if |b| < |m| { TooShort(t, m); }
    } else {
      assert b[1..] == s[1..] + (":" + t);
      if |b| < |m| {
        TooShort(t, m);
      } else if !(Ends(s, m0) && Starts(t, m1) && |s| == |m0|) {
        MetLater(s, t, m0, m1);
        PastPart(s[1..], t, m0, m1);
        assert |s| > |m0| ==> s[1..][|s[1..]| - |m0|..] == s[|s| - |m0|..];
      }
    }
  }

  lemma MetLater(s: string, t: string, m0: string, m1: string)
    requires s != "" && !MetInside(s, t, m0, m1)
    ensures !MetInside(s[1..], t, m0, m1)
  {
    var m, b := m0 + (":" + m1), s + (":" + t);
    assert b[1..] == s[1..] + (":" + t);
    forall i
      ensures !MetAt(s[1..], t, m0, m1, i)
    {
      assert !MetAt(s, t, m0, m1, i + 1);
      if 0 <= i <= |b[1..]| - |m| { assert b[1..][i..i + |m|] == b[i + 1..i + 1 + |m|]; }
    }
  }

  lemma TooShort(t: string, m: string)
    requires |t| < |m|
    ensures Past(t, m) == None
  {}

  lemma SameLength(s: string, t: string, m0: string, m1: string)
    requires |s| == |m0|
    ensures var m, b := m0 + (":" + m1), s + (":" + t);
      |b| >= |m| ==> (b[..|m|] == m <==> Ends(s, m0) && Starts(t, m1)) && b[|m|..] == t[|m1|..]
  {
    if |s + (":" + t)| >= |m0 + (":" + m1)| { SameLengthFits(s, t, m0, m1); }
  }

  lemma SameLengthFits(s: string, t: string, m0: string, m1: string)
    requires |s| == |m0| && |s + (":" + t)| >= |m0 + (":" + m1)|
    ensures var m, b := m0 + (":" + m1), s + (":" + t);
      (b[..|m|] == m <==> Ends(s, m0) && Starts(t, m1)) && b[|m|..] == t[|m1|..]
  {
    var m, b := m0 + (":" + m1), s + (":" + t);
    assert b[..|m|] == s + (":" + t[..|m1|]);
    assert b[..|m|][..|s|] == s && m[..|s|] == m0;
    assert b[..|m|][|s| + 1..] == t[..|m1|] && m[|s| + 1..] == m1;
    assert b[|m|..] == t[|m1|..];
  }

  lemma OtherLength(s: string, t: string, m0: string, m1: string)
    requires |s| != |m0| && !MetInside(s, t, m0, m1) && NoColon(m0)
    ensures var m, b := m0 + (":" + m1), s + (":" + t); |b| >= |m| ==> b[..|m|] != m
  {
    var m, b := m0 + (":" + m1), s + (":" + t);
    if |b| >= |m| {
      if |s| < |m0| {
        assert b[..|m|][|s|] == b[|s|];
      } else {
        assert !MetAt(s, t, m0, m1, 0);
        assert b[0..0 + |m|] == b[..|m|];
      }
    }
  }

  // When nothing is met inside a part.

  lemma NoColonCalm(s: string, t: string, m0: string, m1: string)
    requires NoColon(s)
    ensures !MetInside(s, t, m0, m1)
  {
    var m, b := m0 + (":" + m1), s + (":" + t);
    forall i
      ensures !MetAt(s, t, m0, m1, i)
    {
      if MatchAt(b, i, m) { assert b[i..i + |m|][|m0|] == b[i + |m0|]; }
    }
  }

  lemma {:induction false} PastFinds(b: string, m: string, i: nat)
    requires MatchAt(b, i, m)
    ensures Past(b, m).Some?
  {
    if b[..|m|] != m {
      assert i > 0;
      assert b[1..][i - 1..i - 1 + |m|] == b[i..i + |m|];
      PastFinds(b[1..], m, i - 1);
    }
  }

  /** What is found in the front of a text is found in the text. */
  lemma {:induction false} PastExtends(b: string, z: string, m: string)
    requires Past(b, m).Some?
    ensures Past(b + z, m) == Some(Past(b, m).value + z)
  {
    if b[..|m|] == m {
      assert (b + z)[..|m|] == m && (b + z)[|m|..] == b[|m|..] + z;
    } else {
      assert (b + z)[..|m|] == b[..|m|] && (b + z)[1..] == b[1..] + z;
      PastExtends(b[1..], z, m);
    }
  }
}
