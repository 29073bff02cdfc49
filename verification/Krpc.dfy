/** The KRPC message printer and the substring-based parser of dht.c. A string stands
    for a byte string, one char for one byte. */
module Krpc {
  import opened Sequences
  import opened Wrappers

  // Printing: the four queries.

  function Digits(n: nat): (s: string)
    ensures s != ""
  {
    var last := [['0', '1', '2', '3', '4', '5', '6', '7', '8', '9'][n % 10]];
    if n < 10 then last else Digits(n / 10) + last
  }

  /** ADD_V: the version, when one was given to dht_init. */
  function Version(v: Option<string>): string {
    if v.Some? then "1:v4:" + v.value else ""
  }

  /** The want list; bit 1 is WANT4, bit 2 is WANT6. */
  function WantList(want: int): string {
    if want > 0 then
      "4:wantl" + (if want % 2 == 1 then "2:n4" else "") + (if want / 2 % 2 == 1 then "2:n6" else "") + "e"
    else ""
  }

  function PrintPing(id: string, tid: string, v: Option<string>): string {
    "d1:ad2:id20:" + id + ("e1:q4:ping1:t" + Digits(|tid|) + ":" + (tid + (Version(v) + "1:y1:qe")))
  }

  function PrintFindNode(id: string, tid: string, target: string, want: int, v: Option<string>): string {
    "d1:ad2:id20:" + id + ("6:target20:" + target + (WantList(want) +
      ("e1:q9:find_node1:t" + Digits(|tid|) + ":" + (tid + (Version(v) + "1:y1:qe")))))
  }

  function PrintGetPeers(id: string, tid: string, infoHash: string, want: int, v: Option<string>): string {
    "d1:ad2:id20:" + id + ("9:info_hash20:" + infoHash + (WantList(want) +
      ("e1:q9:get_peers1:t" + Digits(|tid|) + ":" + (tid + (Version(v) + "1:y1:qe")))))
  }

  function PrintAnnouncePeer(id: string, tid: string, infoHash: string, port: nat, token: string,
                             v: Option<string>): string {
    "d1:ad2:id20:" + id + ("9:info_hash20:" + infoHash +
      ("4:porti" + Digits(port) + "e5:token" + Digits(|token|) + ":" + token +
      ("e1:q13:announce_peer1:t" + Digits(|tid|) + ":" + (tid + (Version(v) + "1:y1:qe")))))
  }

  // Parsing.

  /** What follows the first occurrence of a marker. */
  function Past(b: string, m: string): (r: Option<string>)
    ensures r.Some? ==> |r.value| + |m| <= |b|
  {
    if |b| < |m| then None
    else if b[..|m|] == m then Some(b[|m|..])
    else Past(b[1..], m)
  }

  predicate MatchAt(b: string, i: int, m: string) {
    0 <= i <= |b| - |m| && b[i..i + |m|] == m
  }

  /** dht_memmem: the first place where m occurs, or -1. */
  method MemMem(b: string, m: string) returns (at: int)
    ensures at == -1 || MatchAt(b, at, m)
    ensures Past(b, m) == if at == -1 then None else Some(b[at + |m|..])
    ensures forall i :: MatchAt(b, i, m) ==> 0 <= at <= i
  {
    if |m| > |b| {
      return -1;
    }
    var i := 0;
    while i <= |b| - |m|
      invariant 0 <= i <= |b| - |m| + 1
      invariant Past(b, m) == if i <= |b| then Past(b[i..], m) else None
      invariant forall j :: 0 <= j < i ==> !MatchAt(b, j, m)
    {
      assert b[i..][..|m|] == b[i..i + |m|];
      assert i < |b| ==> b[i..][1..] == b[i + 1..];
      if b[i..i + |m|] == m {
        assert b[i..][|m|..] == b[i + |m|..];
        return i;
      }
      i := i + 1;
    }
    return -1;
  }

  predicate IsDigit(c: char) { '0' <= c <= '9' }

  predicate IsSpace(c: char) { c == ' ' || '\t' <= c <= '\r' }

  function ReadDigits(s: string, n: nat): (nat, string) {
    if s != "" && IsDigit(s[0]) then ReadDigits(s[1..], 10 * n + (s[0] - '0') as nat) else (n, s)
  }

  function SkipSpaces(s: string): string {
    if s != "" && IsSpace(s[0]) then SkipSpaces(s[1..]) else s
  }

  /** strtol in base ten: the number, and the text from its end pointer on. The end of
      the text is the terminating zero byte. */
  function Strtol(s: string): (r: (int, string))
    ensures |r.1| <= |s|
  {
    var t := SkipSpaces(s);
    var signed := t != "" && (t[0] == '-' || t[0] == '+');
    var u := if signed then t[1..] else t;
    if u == "" || !IsDigit(u[0]) then (0, s)
    else
      Shorter(s);
      ReadShorter(u, 0);
      var (n, q) := ReadDigits(u, 0);
      var value: int := n;
      (if signed && t[0] == '-' then -value else value, q)
  }

  lemma {:induction false} Shorter(s: string)
    ensures |SkipSpaces(s)| <= |s|
  {
    if s != "" && IsSpace(s[0]) { Shorter(s[1..]); }
  }

  lemma {:induction false} ReadShorter(s: string, n: nat)
    ensures |ReadDigits(s, n).1| <= |s|
    ensures s != "" && IsDigit(s[0]) ==> |ReadDigits(s, n).1| < |s|
  {
    if s != "" && IsDigit(s[0]) { ReadShorter(s[1..], 10 * n + (s[0] - '0') as nat); }
  }

  // What a field reads from the text behind its marker, and without the marker.

  /** A field of twenty bytes; None when the message is cut short. */
  function TwentyAt(p: Option<string>): Option<string> {
    match p
    case None => Some(Filled('\0', 20))
    case Some(r) => if |r| < 20 then None else Some(r[..20])
  }

  /** A field whose length is printed before it; a length out of range leaves it empty. */
  function CountedAt(p: Option<string>, most: nat): Option<string> {
    match p
    case None => Some("")
    case Some(r) =>
      var (l, q) := Strtol(r);
      if q != "" && q[0] == ':' && 0 < l <= most then
        if |q| < 1 + l then None else Some(q[1..1 + l])
      else Some("")
  }

  /** A number closed by 'e'; anything but 1 to 65535 leaves zero. */
  function NumberAt(p: Option<string>): nat {
    match p
    case None => 0
    case Some(r) =>
      var (l, q) := Strtol(r);
      if q != "" && q[0] == 'e' && 0 < l < 0x1_0000 then l else 0
  }

  /** The list of peer values: those of 6 bytes and those of 18, each up to 2048 in all. */
  function Values(r: string, j: string, j6: string): Option<(string, string)>
    decreases |r|
  {
    var (l, q) := Strtol(r);
    if q != "" && q[0] == ':' && l > 0 then
      if |q| < 1 + l then None
      else
        var x := q[1..1 + l];
        if l == 6 then Values(q[1 + l..], if |j| + 6 > 2048 then j else j + x, j6)
        else if l == 18 then Values(q[1 + l..], j, if |j6| + 18 > 2048 then j6 else j6 + x)
        else Values(q[1 + l..], j, j6)
    else Some((j, j6))
  }

  function ValuesAt(p: Option<string>): Option<(string, string)> {
    match p
    case None => Some(("", ""))
    case Some(r) => Values(r, "", "")
  }

  /** The want loop: a digit, a colon and that many bytes at a time. */
  function Wanted(r: string, w4: bool, w6: bool): nat
    decreases |r|
  {
    if |r| > 2 && '0' < r[0] <= '9' && r[1] == ':' && 2 + (r[0] - '0') as int < |r| then
      var n := (r[0] - '0') as int;
      Wanted(r[2 + n..], w4 || (n == 2 && r[2..4] == "n4"), w6 || (n == 2 && r[2..4] == "n6"))
    else (if w4 then 1 else 0) + (if w6 then 2 else 0)
  }

  function WantAt(p: Option<string>): nat {
    match p
    case None => 0
    case Some(r) => Wanted(r, false, false)
  }

  // The same with the marker searched for in the message.

  function Twenty(b: string, m: string): Option<string> { TwentyAt(Past(b, m)) }

  function Counted(b: string, m: string, most: nat): Option<string> { CountedAt(Past(b, m), most) }

  function Number(b: string, m: string): nat { NumberAt(Past(b, m)) }

  function ValuesOf(b: string): Option<(string, string)> { ValuesAt(Past(b, "6:valuesl")) }

  function WantOf(b: string): nat { WantAt(Past(b, "4:wantl")) }

  datatype Kind = Reply | Error | Ping | FindNode | GetPeers | AnnouncePeer

  function KindOf(b: string): Option<Kind> {
    if Past(b, "1:y1:r").Some? then Some(Reply)
    else if Past(b, "1:y1:e").Some? then Some(Error)
    else if Past(b, "1:y1:q").None? then None
    else if Past(b, "1:q4:ping").Some? then Some(Ping)
    else if Past(b, "1:q9:find_node").Some? then Some(FindNode)
    else if Past(b, "1:q9:get_peers").Some? then Some(GetPeers)
    else if Past(b, "1:q13:announce_peer").Some? then Some(AnnouncePeer)
    else None
  }

  datatype Message = Message(kind: Kind, tid: string, id: string, infoHash: string, port: nat, impliedPort: nat,
                             target: string, token: string, nodes: string, nodes6: string,
                             values: string, values6: string, want: nat)

  /** parse_message on a buffer whose terminating byte is there; None is -1. */
  function Parse(b: string): Option<Message> {
    var tid, id, hash := Counted(b, "1:t", 15), Twenty(b, "2:id20:"), Twenty(b, "9:info_hash20:");
    var target, token := Twenty(b, "6:target20:"), Counted(b, "5:token", 127);
    var nodes, nodes6, values := Counted(b, "5:nodes", 416), Counted(b, "6:nodes6", 608), ValuesOf(b);
    var kind := KindOf(b);
    if tid.None? || id.None? || hash.None? || target.None? || token.None? || nodes.None? || nodes6.None? ||
      values.None? || kind.None?
    then None
    else
      Some(Message(kind.value, tid.value, id.value, hash.value, Number(b, "4:porti"), Number(b, "12:implied_porti"),
        target.value, token.value, nodes.value, nodes6.value, values.value.0, values.value.1, WantOf(b)))
  }

  // The loops of parse_message.

  /** The loop after "6:valuesl", i being the index just behind the marker. */
  method ReadValues(b: string, start: nat) returns (values: Option<(string, string)>)
    requires start <= |b|
    ensures values == Values(b[start..], "", "")
  {
    var i, j, j6 := start, "", "";
    while true
      invariant start <= i <= |b|
      invariant Values(b[start..], "", "") == Values(b[i..], j, j6)
      decreases |b| - i
    {
      var (l, q) := Strtol(b[i..]);
      if q != "" && q[0] == ':' && l > 0 {
        if |q| < 1 + l {
          return None;
        }
        ghost var was := i;
        EndPointer(b[i..]);
        i := |b| - |q| + 1 + l;
        assert b[i..] == q[1 + l..] by { SuffixOf(b, was, q, l); }
        if l == 6 {
          if |j| + 6 > 2048 { continue; }
          j := j + q[1..1 + l];
        } else if l == 18 {
          if |j6| + 18 > 2048 { continue; }
          j6 := j6 + q[1..1 + l];
        }
      } else {
        break;
      }
    }
    return Some((j, j6));
  }

  /** The end pointer of strtol points into its text. */
  lemma EndPointer(s: string)
    ensures |Strtol(s).1| <= |s| && Strtol(s).1 == s[|s| - |Strtol(s).1|..]
  {
    var t := SkipSpaces(s);
    var u := if t != "" && (t[0] == '-' || t[0] == '+') then t[1..] else t;
    SkipIsSuffix(s);
    if u != "" && IsDigit(u[0]) { DigitsAreSuffix(u, 0); }
  }

  lemma {:induction false} SkipIsSuffix(s: string)
    ensures |SkipSpaces(s)| <= |s| && SkipSpaces(s) == s[|s| - |SkipSpaces(s)|..]
  {
    if s != "" && IsSpace(s[0]) { SkipIsSuffix(s[1..]); }
  }

  lemma {:induction false} DigitsAreSuffix(s: string, n: nat)
    ensures |ReadDigits(s, n).1| <= |s| && ReadDigits(s, n).1 == s[|s| - |ReadDigits(s, n).1|..]
  {
    if s != "" && IsDigit(s[0]) { DigitsAreSuffix(s[1..], 10 * n + (s[0] - '0') as nat); }
  }

  lemma SuffixOf(b: string, i: nat, q: string, l: nat)
    requires i <= |b| && |q| <= |b[i..]| && q == b[i..][|b[i..]| - |q|..] && 1 + l <= |q|
    ensures q[1 + l..] == b[|b| - |q| + 1 + l..]
  {}

  /** The loop after "4:wantl". */
  method ReadWant(b: string, start: nat) returns (want: nat)
    requires start <= |b|
    ensures want == Wanted(b[start..], false, false)
  {
    hide Wanted;
    var i, w4, w6 := start, false, false;
    while i + 1 < |b| && '0' < b[i] <= '9' && b[i + 1] == ':' && i + 2 + (b[i] - '0') as int < |b|
      invariant start <= i <= |b|
      invariant Wanted(b[start..], false, false) == Wanted(b[i..], w4, w6)
    {
      var n := (b[i] - '0') as int;
      WantTurn(b, i, w4, w6);
      if n == 2 && b[i + 2..i + 4] == "n4" {
        w4 := true;
      } else if n == 2 && b[i + 2..i + 4] == "n6" {
        w6 := true;
      }
      i := i + 2 + n;
    }
    WantEnds(b, i, w4, w6);
    want := (if w4 then 1 else 0) + (if w6 then 2 else 0);
  }

  lemma WantTurn(b: string, i: nat, w4: bool, w6: bool)
    requires i + 1 < |b| && '0' < b[i] <= '9' && b[i + 1] == ':' && i + 2 + (b[i] - '0') as int < |b|
    ensures var n := (b[i] - '0') as int;
      Wanted(b[i..], w4, w6) ==
        Wanted(b[i + 2 + n..], w4 || (n == 2 && b[i + 2..i + 4] == "n4"), w6 || (n == 2 && b[i + 2..i + 4] == "n6"))
  {
    var n := (b[i] - '0') as int;
    assert b[i..][2 + n..] == b[i + 2 + n..];
    if n == 2 { assert b[i..][2..4] == b[i + 2..i + 4]; }
  }

  lemma WantEnds(b: string, i: nat, w4: bool, w6: bool)
    requires i <= |b|
    requires !(i + 1 < |b| && '0' < b[i] <= '9' && b[i + 1] == ':' && i + 2 + (b[i] - '0') as int < |b|)
    ensures Wanted(b[i..], w4, w6) == (if w4 then 1 else 0) + (if w6 then 2 else 0)
  {}

  method CopyTwenty(b: string, m: string) returns (x: Option<string>)
    ensures x == Twenty(b, m)
  {
    var p := MemMem(b, m);
    if p == -1 { return Some(Filled('\0', 20)); }
    if p + |m| + 20 > |b| { return None; }
    assert b[p + |m|..][..20] == b[p + |m|..p + |m| + 20];
    return Some(b[p + |m|..p + |m| + 20]);
  }

  method CopyCounted(b: string, m: string, most: nat) returns (x: Option<string>)
    ensures x == Counted(b, m, most)
  {
    var p := MemMem(b, m);
    if p == -1 { return Some(""); }
    var (l, q) := Strtol(b[p + |m|..]);
    if q != "" && q[0] == ':' && 0 < l <= most {
      if 1 + l > |q| { return None; }
      return Some(q[1..1 + l]);
    }
    return Some("");
  }

  method ReadNumber(b: string, m: string) returns (n: nat)
    ensures n == Number(b, m)
  {
    n := 0;
    var p := MemMem(b, m);
    if p != -1 {
      var (l, q) := Strtol(b[p + |m|..]);
      if q != "" && q[0] == 'e' && 0 < l < 0x1_0000 { n := l; }
    }
  }

  /** parse_message; end is the byte behind the message. */
  method ParseMessage(b: string, end: char) returns (r: Option<Message>)
    ensures r == if end == '\0' then Parse(b) else None
  {
    hide Past, Twenty, Counted, Number;
    if end != '\0' { return None; }
    var tid := CopyCounted(b, "1:t", 15);
    if tid.None? { return None; }
    var id := CopyTwenty(b, "2:id20:");
    if id.None? { return None; }
    var hash := CopyTwenty(b, "9:info_hash20:");
    if hash.None? { return None; }
    var port := ReadNumber(b, "4:porti");
    var implied := ReadNumber(b, "12:implied_porti");
    var target := CopyTwenty(b, "6:target20:");
    if target.None? { return None; }
    var token := CopyCounted(b, "5:token", 127);
    if token.None? { return None; }
    var nodes := CopyCounted(b, "5:nodes", 416);
    if nodes.None? { return None; }
    var nodes6 := CopyCounted(b, "6:nodes6", 608);
    if nodes6.None? { return None; }
    var values := Some(("", ""));
    var p := MemMem(b, "6:valuesl");
    if p != -1 { values := ReadValues(b, p + 9); }
    if values.None? { return None; }
    var want := 0;
    p := MemMem(b, "4:wantl");
    if p != -1 { want := ReadWant(b, p + 7); }
    var kind := FindKind(b);
    if kind.None? { return None; }
    return Some(Message(kind.value, tid.value, id.value, hash.value, port, implied, target.value, token.value,
                        nodes.value, nodes6.value, values.value.0, values.value.1, want));
  }

  method FindKind(b: string) returns (k: Option<Kind>)
    ensures k == KindOf(b)
  {
    hide Past;
    var p := MemMem(b, "1:y1:r");
    if p != -1 { return Some(Reply); }
    p := MemMem(b, "1:y1:e");
    if p != -1 { return Some(Error); }
    p := MemMem(b, "1:y1:q");
    if p == -1 { return None; }
    p := MemMem(b, "1:q4:ping");
    if p != -1 { return Some(Ping); }
    p := MemMem(b, "1:q9:find_node");
    if p != -1 { return Some(FindNode); }
    p := MemMem(b, "1:q9:get_peers");
    if p != -1 { return Some(GetPeers); }
    p := MemMem(b, "1:q13:announce_peer");
    if p != -1 { return Some(AnnouncePeer); }
    return None;
  }
}
