/** What parse_message of dht.c reads from lists of peers, lists of flags, counted strings and
    numbers, whatever their contents. */
module KrpcValues {
  import opened Wrappers
  import opened Krpc
  import opened KrpcRoundTrip

  // Lists of byte strings.

  /** The strings of a list as bencoding writes them, without the closing 'e'. */
  function ListText(vs: seq<string>): string {
    if vs == [] then "" else Digits(|vs[0]|) + (":" + (vs[0] + ListText(vs[1..])))
  }

  /** An empty string ends the reading. */
  function BeforeEmpty(vs: seq<string>): seq<string> {
    if vs == [] || vs[0] == "" then [] else [vs[0]] + BeforeEmpty(vs[1..])
  }

  function OfSize(vs: seq<string>, n: nat): seq<string> {
    if vs == [] then [] else (if |vs[0]| == n then [vs[0]] else []) + OfSize(vs[1..], n)
  }

  function Joined(vs: seq<string>): string {
    if vs == [] then "" else vs[0] + Joined(vs[1..])
  }

  function Front(vs: seq<string>, most: nat): seq<string> {
    if |vs| <= most then vs else vs[..most]
  }

  lemma Slices(x: string, rest: string)
    ensures (":" + (x + rest))[1..1 + |x|] == x && (":" + (x + rest))[1 + |x|..] == rest
  {
    var t := ":" + (x + rest);
    assert t == ":" + x + rest;
  }

  lemma NumberedRead(x: string, rest: string)
    ensures Strtol(Digits(|x|) + (":" + (x + rest))) == (|x|, ":" + (x + rest))
  {
    hide Strtol, Digits;
    var t := x + rest;
    StrtolReads(|x|, ':', t);
    assert [':'] + t == ":" + t;
  }

  lemma OneValue(x: string, rest: string, j: string, j6: string)
    ensures Values(Digits(|x|) + (":" + (x + rest)), j, j6) ==
      if x == "" then Some((j, j6))
      else if |x| == 6 then Values(rest, if |j| + 6 > 2048 then j else j + x, j6)
      else if |x| == 18 then Values(rest, j, if |j6| + 18 > 2048 then j6 else j6 + x)
      else Values(rest, j, j6)
  {
    hide Strtol;
    NumberedRead(x, rest);
    Slices(x, rest);
  }

  /** What is taken of strings of one size when j is there already: as many as still fit. */
  function Taken(j: string, vs: seq<string>, n: nat): string
    requires n > 0
  {
    j + Joined(Front(OfSize(vs, n), if |j| <= 2048 then (2048 - |j|) / n else 0))
  }

  lemma TakenOther(j: string, x: string, vs: seq<string>, n: nat)
    requires n > 0 && |x| != n
    ensures Taken(j, [x] + vs, n) == Taken(j, vs, n)
  {
    assert ([x] + vs)[1..] == vs;
    assert [] + OfSize(vs, n) == OfSize(vs, n);
  }

  lemma TakenOne(j: string, x: string, vs: seq<string>, n: nat)
    requires (n == 6 || n == 18) && |x| == n
    ensures Taken(j, [x] + vs, n) == if |j| + n > 2048 then j else Taken(j + x, vs, n)
    ensures |j| + n > 2048 ==> Taken(j, vs, n) == j
  {
    var rest := OfSize(vs, n);
    assert ([x] + vs)[1..] == vs && ([x] + vs)[0] == x;
    assert OfSize([x] + vs, n) == [x] + rest;
    if |j| + n <= 2048 {
      var most := (2048 - |j|) / n;
      Less(2048 - |j|, n);
      var front := Front([x] + rest, most);
      assert front == [x] + Front(rest, most - 1);
      assert front[0] == x && front[1..] == Front(rest, most - 1);
      assert j + (x + Joined(Front(rest, most - 1))) == j + x + Joined(Front(rest, most - 1));
    } else {
      if |j| <= 2048 { Small(2048 - |j|, n); }
      assert Joined([]) == "" && j + "" == j;
      assert Front(rest, 0) == [] && Front([x] + rest, 0) == [];
    }
  }

  lemma Less(a: nat, n: nat)
    requires (n == 6 || n == 18) && n <= a
    ensures a / n >= 1 && (a - n) / n == a / n - 1
  {}

  lemma Small(a: nat, n: nat)
    requires a < n
    ensures a / n == 0
  {}

  /** The values loop puts the strings of 6 bytes into one list and those of 18 into the
      other, in order, and leaves all others out. */
  lemma {:induction false} ValuesRead(vs: seq<string>, j: string, j6: string, rest: string)
    ensures Values(ListText(vs) + ("e" + rest), j, j6) ==
      Some((Taken(j, BeforeEmpty(vs), 6), Taken(j6, BeforeEmpty(vs), 18)))
    decreases |vs|
  {
    hide Values, Strtol, Taken;
    if vs == [] {
      ValuesEnd(rest, j, j6);
      TakenNothing(j, 6);
      TakenNothing(j6, 18);
      assert "" + ("e" + rest) == "e" + rest;
    } else {
      var x, t := vs[0], ListText(vs[1..]) + ("e" + rest);
      assert ListText(vs) + ("e" + rest) == Digits(|x|) + (":" + (x + t));
      OneValue(x, t, j, j6);
      if x == "" {
        TakenNothing(j, 6);
        TakenNothing(j6, 18);
      } else {
        ValueStep(vs, j, j6, rest);
      }
    }
  }

  lemma {:induction false} ValueStep(vs: seq<string>, j: string, j6: string, rest: string)
    requires vs != [] && vs[0] != ""
    ensures var x, t := vs[0], ListText(vs[1..]) + ("e" + rest);
      var i := if |x| == 6 && |j| + 6 <= 2048 then j + x else j;
      var i6 := if |x| == 18 && |j6| + 18 <= 2048 then j6 + x else j6;
      Values(t, i, i6) == Some((Taken(j, BeforeEmpty(vs), 6), Taken(j6, BeforeEmpty(vs), 18)))
    decreases |vs|, 0
  {
    hide Values, Strtol, Taken, ListText;
    var x, more := vs[0], BeforeEmpty(vs[1..]);
    var i := if |x| == 6 && |j| + 6 <= 2048 then j + x else j;
    var i6 := if |x| == 18 && |j6| + 18 <= 2048 then j6 + x else j6;
    ValuesRead(vs[1..], i, i6, rest);
    if |x| == 6 { TakenOne(j, x, more, 6); } else { TakenOther(j, x, more, 6); }
    if |x| == 18 { TakenOne(j6, x, more, 18); } else { TakenOther(j6, x, more, 18); }
  }

  lemma TakenNothing(j: string, n: nat)
    requires n > 0
    ensures Taken(j, [], n) == j
  {}

  lemma ValuesEnd(rest: string, j: string, j6: string)
    ensures Values("e" + rest, j, j6) == Some((j, j6))
  {}

  /** The whole list: the first 341 strings of 6 bytes and the first 113 of 18. */
  lemma PeersRead(vs: seq<string>, rest: string)
    ensures var list := BeforeEmpty(vs);
      ValuesAt(Some(ListText(vs) + ("e" + rest))) ==
        Some((Joined(Front(OfSize(list, 6), 341)), Joined(Front(OfSize(list, 18), 113))))
  {
    hide Values, ListText, OfSize, Joined;
    ValuesRead(vs, "", "", rest);
    assert forall s: string :: "" + s == s;
  }

  lemma {:induction false} OnlySize(vs: seq<string>, n: nat, k: nat)
    requires n > 0 && forall i :: 0 <= i < |vs| ==> |vs[i]| == n
    ensures BeforeEmpty(vs) == vs && OfSize(vs, k) == if k == n then vs else []
  {
    if vs != [] { OnlySize(vs[1..], n, k); }
  }

  /** As dht.c prints peers, up to fifty of one address family, all of them arrive, and in the
      list of their family. */
  lemma OwnPeersRead(vs: seq<string>, v6: bool, rest: string)
    requires |vs| <= 50 && forall i :: 0 <= i < |vs| ==> |vs[i]| == if v6 then 18 else 6
    ensures ValuesAt(Some(ListText(vs) + ("e" + rest))) == Some(if v6 then ("", Joined(vs)) else (Joined(vs), ""))
  {
    hide ListText, ValuesAt;
    PeersRead(vs, rest);
    OnlySize(vs, if v6 then 18 else 6, 6);
    OnlySize(vs, if v6 then 18 else 6, 18);
  }

  // Counted strings and numbers.

  /** A counted string, exactly: read if its length is in range, left empty if it is not, and
      the whole message is refused if it is cut short. */
  lemma CountedIs(n: nat, x: string, most: nat)
    ensures CountedAt(Some(Digits(n) + (":" + x)), most) ==
      if n == 0 || n > most then Some("") else if n > |x| then None else Some(x[..n])
  {
    hide Strtol;
    StrtolReads(n, ':', x);
    if 0 < n <= |x| { assert (":" + x)[1..1 + n] == x[..n]; }
  }

  /** A number, exactly: 1 to 65535, else nothing. */
  lemma NumberIs(n: nat, rest: string)
    ensures NumberAt(Some(Digits(n) + ("e" + rest))) == if 0 < n < 65536 then n else 0
  {
    hide Strtol;
    StrtolReads(n, 'e', rest);
  }

  /** A field of twenty bytes. */
  lemma TwentyIs(x: string)
    ensures TwentyAt(Some(x)) == if |x| >= 20 then Some(x[..20]) else None
  {}

  // The want list.

  /** Strings of one to nine bytes: the flags are n4 and n6, all others are passed over. */
  lemma {:induction false} FlagsRead(fs: seq<string>, rest: string, w4: bool, w6: bool)
    requires forall k :: 0 <= k < |fs| ==> 0 < |fs[k]| <= 9
    ensures Wanted(ListText(fs) + ("e" + rest), w4, w6) ==
      (if w4 || "n4" in fs then 1 else 0) + (if w6 || "n6" in fs then 2 else 0)
    decreases |fs|
  {
    hide Wanted;
    if fs == [] {
      FlagsEnd(rest, w4, w6);
      assert "" + ("e" + rest) == "e" + rest;
    } else {
      var x, t := fs[0], ListText(fs[1..]) + ("e" + rest);
      OneFlag(x, t, w4, w6);
      assert ListText(fs) + ("e" + rest) == Digits(|x|) + (":" + (x + t));
      FlagsRead(fs[1..], rest, w4 || x == "n4", w6 || x == "n6");
      assert forall f :: f in fs <==> f == x || f in fs[1..];
    }
  }

  lemma FlagsEnd(rest: string, w4: bool, w6: bool)
    ensures Wanted("e" + rest, w4, w6) == (if w4 then 1 else 0) + (if w6 then 2 else 0)
  {}

  lemma OneFlag(x: string, t: string, w4: bool, w6: bool)
    requires 0 < |x| <= 9 && t != ""
    ensures Wanted(Digits(|x|) + (":" + (x + t)), w4, w6) == Wanted(t, w4 || x == "n4", w6 || x == "n6")
  {
    hide Digits;
    OneDigit(|x|);
    var d := Digits(|x|);
    var r := d + (":" + (x + t));
    assert r[0] == d[0] && r[1] == ':';
    assert r[2..] == x + t && r[2 + |x|..] == t;
    if |x| == 2 { assert r[2..4] == x; }
  }

  lemma OneDigit(n: nat)
    requires n < 10
    ensures |Digits(n)| == 1 && '0' <= Digits(n)[0] <= '9' && Digits(n)[0] - '0' == n as char
    ensures n > 0 ==> '0' < Digits(n)[0]
  {}
}
