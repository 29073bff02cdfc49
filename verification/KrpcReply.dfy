/** The replies of dht.c, send_pong, send_peer_announced and send_nodes_peers: printed, and
    what parse_message reads from them. */
module KrpcReply {
  import opened Sequences
  import opened Wrappers
  import opened Krpc
  import opened KrpcParts
  import opened KrpcMarkers
  import opened KrpcValues

  /** A reply; an empty string or no list is a field that is left out. */
  datatype Answer = Answer(id: string, nodes: string, nodes6: string, token: string, values: Option<seq<string>>,
                           tid: string, v: Option<string>)

  /** A counted string behind its name. */
  function Optional(m: string, x: string): string {
    if x == "" then "" else m + Digits(|x|) + ":" + x
  }

  function TidText(tid: string): string { "t" + Digits(|tid|) + ":" + tid }

  function PrintReply(a: Answer): string {
    "d1:rd2:id20:" + (a.id + (OptionalText(a) + ("e1:" + (TidText(a.tid) + (Version(a.v) + "1:y1:re")))))
  }

  function OptionalText(a: Answer): string {
    Optional("5:nodes", a.nodes) + (Optional("6:nodes6", a.nodes6) + (Optional("5:token", a.token)
      + (if a.values.Some? then "6:valuesl" + ListText(a.values.value) + "e" else "")))
  }

  // The same in parts: each field is a payload, with its name in front and the number that
  // counts the next name behind it.

  datatype Field = Field(lead: string, name: string, text: string)

  predicate WellNamed(f: Field) {
    (f.lead == "5" && f.name in {"nodes", "token"}) || (f.lead == "6" && f.name in {"nodes6", "valuesl"})
  }

  function Opt(lead: string, name: string, x: string): seq<Field> {
    if x == "" then [] else [Field(lead, name, Digits(|x|) + (":" + x))]
  }

  function Fields(a: Answer): seq<Field> {
    Opt("5", "nodes", a.nodes) + (Opt("6", "nodes6", a.nodes6) + (Opt("5", "token", a.token)
      + (if a.values.Some? then [Field("6", "valuesl", ListText(a.values.value) + "e")] else [])))
  }

  function FieldsText(fs: seq<Field>): string {
    if fs == [] then "" else fs[0].lead + (":" + (fs[0].name + (fs[0].text + FieldsText(fs[1..]))))
  }

  function Chain(x: string, fs: seq<Field>, tail: Parts): Parts
    decreases |fs|
  {
    if fs == [] then Pay(x, "e1", tail) else Pay(x, fs[0].lead, Chain(fs[0].name + fs[0].text, fs[1..], tail))
  }

  function ReplyTail(tid: string, v: Option<string>): Parts {
    var last := Then("y1", Last("re"));
    Pay(TidText(tid), "1", if v.Some? then Pay("v4:" + v.value, "1", last) else last)
  }

  function ReplyParts(a: Answer): Parts {
    Then("d1", Then("rd2", Then("id20", Chain(a.id, Fields(a), ReplyTail(a.tid, a.v)))))
  }

  lemma {:induction false} ChainFlat(x: string, fs: seq<Field>, tail: Parts)
    ensures Flat(Chain(x, fs, tail)) == x + (FieldsText(fs) + ("e1:" + Flat(tail)))
    decreases |fs|
  {
    var end := "e1:" + Flat(tail);
    if fs == [] {
      assert "e1" + (":" + Flat(tail)) == end && FieldsText(fs) + end == end;
    } else {
      var y, more := fs[0].name + fs[0].text, FieldsText(fs[1..]);
      ChainFlat(y, fs[1..], tail);
      assert fs[0].lead + (":" + (y + (more + end))) == FieldsText(fs) + end;
    }
  }

  lemma TailFlat(tid: string, v: Option<string>)
    ensures Flat(ReplyTail(tid, v)) == TidText(tid) + (Version(v) + "1:y1:re")
  {
    hide Digits;
    var last := Then("y1", Last("re"));
    assert Flat(last) == "y1:re";
    if v.Some? {
      assert Flat(Pay("v4:" + v.value, "1", last)) == "v4:" + v.value + "1:y1:re";
      assert Version(v) == "1:" + ("v4:" + v.value);
    }
  }

  lemma FieldsAppend(a: seq<Field>, b: seq<Field>)
    ensures FieldsText(a + b) == FieldsText(a) + FieldsText(b)
  {
    if a == [] {
      assert a + b == b;
    } else {
      assert (a + b)[0] == a[0] && (a + b)[1..] == a[1..] + b;
      FieldsAppend(a[1..], b);
    }
  }

  lemma OneField(f: Field)
    ensures FieldsText([f]) == f.lead + ":" + f.name + f.text
  {
    assert [f][1..] == [] && FieldsText([]) == "";
  }

  lemma OptText(lead: string, name: string, x: string)
    ensures FieldsText(Opt(lead, name, x)) == Optional(lead + ":" + name, x)
  {
    hide Digits;
    if x != "" { OneField(Field(lead, name, Digits(|x|) + (":" + x))); }
  }

  lemma FieldsAre(a: Answer)
    ensures FieldsText(Fields(a)) == OptionalText(a)
  {
    hide Digits, ListText, FieldsText, Optional, Opt;
    var n, n6, t := Opt("5", "nodes", a.nodes), Opt("6", "nodes6", a.nodes6), Opt("5", "token", a.token);
    var vs := if a.values.Some? then [Field("6", "valuesl", ListText(a.values.value) + "e")] else [];
    FieldsAppend(n, n6 + (t + vs));
    FieldsAppend(n6, t + vs);
    FieldsAppend(t, vs);
    OptText("5", "nodes", a.nodes);
    OptText("6", "nodes6", a.nodes6);
    OptText("5", "token", a.token);
    Names();
    if a.values.Some? {
      OneField(vs[0]);
      assert "6" + ":" + "valuesl" + (ListText(a.values.value) + "e") == "6:valuesl" + ListText(a.values.value) + "e";
    } else {
      NoFields();
    }
  }

  lemma Names()
    ensures "5" + ":" + "nodes" == "5:nodes" && "6" + ":" + "nodes6" == "6:nodes6" && "5" + ":" + "token" == "5:token"
  {}

  lemma NoFields()
    ensures FieldsText([]) == ""
  {}

  lemma HeadFlat(f: Parts)
    ensures Flat(Then("d1", Then("rd2", Then("id20", f)))) == "d1:rd2:id20:" + Flat(f)
  {
    assert Flat(Then("id20", f)) == "id20:" + Flat(f);
    assert Flat(Then("rd2", Then("id20", f))) == "rd2:id20:" + Flat(f);
  }

  lemma PrintIsFlat(a: Answer)
    ensures PrintReply(a) == Flat(ReplyParts(a))
  {
    hide FieldsText, OptionalText, Fields, Chain, ReplyTail, Version, TidText, Flat;
    ChainFlat(a.id, Fields(a), ReplyTail(a.tid, a.v));
    TailFlat(a.tid, a.v);
    FieldsAre(a);
    HeadFlat(Chain(a.id, Fields(a), ReplyTail(a.tid, a.v)));
  }

  // Searching for a marker.

  /** No payload holds a marker, with its name in front and the letters behind it. */
  predicate Calm(x: string, fs: seq<Field>)
    decreases |fs|
  {
    if fs == [] then Quiet(x + "e1") else Quiet(x + fs[0].lead) && Calm(fs[0].name + fs[0].text, fs[1..])
  }

  predicate QuietReply(a: Answer) {
    Calm(a.id, Fields(a)) && Quiet(TidText(a.tid) + "1") && (a.v.Some? ==> Quiet("v4:" + a.v.value + "1"))
  }

  /** What follows the marker of the field, if the field is there. */
  function Seek(fs: seq<Field>, m0: string, m1: string, end: string): Option<string> {
    if fs == [] then None
    else if fs[0].lead == m0 && fs[0].name == m1 then Some(fs[0].text + (FieldsText(fs[1..]) + end))
    else Seek(fs[1..], m0, m1, end)
  }

  lemma NameStarts(name: string, y: string, lead: string, m1: string)
    requires WellNamed(Field(lead, name, "")) && IsMarker(lead, m1)
    ensures Starts(name + y, m1) <==> name == m1
    ensures name == m1 ==> (name + y)[|m1|..] == y
  {
    if name != m1 {
      assert (name + y)[0] == name[0] != m1[0];
    }
  }

  /** One payload and the counted name behind it. */
  lemma PayStep(x: string, lead: string, rest: Parts, m0: string, m1: string)
    requires Quiet(x + lead) && lead in {"5", "6"} && IsMarker(m0, m1)
    ensures Follow(Pay(x, lead, rest), m0, m1) ==
      if m0 == lead && Starts(Flat(rest), m1) then Some(Flat(rest)[|m1|..]) else Follow(rest, m0, m1)
  {
    hide Past, Quiet, IsMarker, Starts, Flat;
    QuietMarker(x + lead, m0, m1);
    MarkerHead(m0, m1);
    LastLetter(x, lead, m0);
  }

  lemma LastLetter(x: string, c: string, m0: string)
    requires |c| == 1 && c != "2" && m0 in {"1", "2", "4", "5", "6", "9", "12"}
    ensures Ends(x + c, m0) <==> m0 == c
  {
    if Ends(x + c, m0) { assert m0[|m0| - 1] == c[0]; }
  }

  lemma PayEnd(x: string, rest: Parts, m0: string, m1: string)
    requires Quiet(x + "e1") && IsMarker(m0, m1)
    ensures Follow(Pay(x, "e1", rest), m0, m1) ==
      if m0 == "1" && Starts(Flat(rest), m1) then Some(Flat(rest)[|m1|..]) else Follow(rest, m0, m1)
  {
    hide Past, Quiet, IsMarker, Starts, Flat;
    QuietMarker(x + "e1", m0, m1);
    MarkerHead(m0, m1);
    assert x + "e1" == x + "e" + "1";
    LastLetter(x + "e", "1", m0);
  }

  lemma {:induction false} ChainSeek(x: string, fs: seq<Field>, tail: Parts, m0: string, m1: string)
    requires Calm(x, fs) && IsMarker(m0, m1) && forall k :: 0 <= k < |fs| ==> WellNamed(fs[k])
    ensures var end := "e1:" + Flat(tail);
      Follow(Chain(x, fs, tail), m0, m1) ==
        if Seek(fs, m0, m1, end).Some? then Seek(fs, m0, m1, end)
        else if m0 == "1" && Starts(Flat(tail), m1) then Some(Flat(tail)[|m1|..])
        else Follow(tail, m0, m1)
    decreases |fs|
  {
    hide Quiet, IsMarker, Flat, Follow, Starts;
    if fs == [] {
      PayEnd(x, tail, m0, m1);
    } else {
      var f, y := fs[0], fs[0].name + fs[0].text;
      var rest := Chain(y, fs[1..], tail);
      PayStep(x, f.lead, rest, m0, m1);
      ChainFlat(y, fs[1..], tail);
      var more := FieldsText(fs[1..]) + ("e1:" + Flat(tail));
      assert y + more == f.name + (f.text + more);
      if m0 == f.lead { NameStarts(f.name, f.text + more, f.lead, m1); }
      ChainSeek(y, fs[1..], tail, m0, m1);
    }
  }

  /** Behind the fields only the kind is found. */
  lemma TailSeek(tid: string, v: Option<string>, m0: string, m1: string)
    requires Quiet(TidText(tid) + "1") && (v.Some? ==> Quiet("v4:" + v.value + "1")) && IsMarker(m0, m1)
    ensures Follow(ReplyTail(tid, v), m0, m1) == if m0 == "1" && m1 == "y1:r" then Some("e") else None
  {
    hide Past, Quiet, TidText;
    QuietMarker(TidText(tid) + "1", m0, m1);
    LastLetter(TidText(tid), "1", m0);
    var last := Then("y1", Last("re"));
    LastSeek(m0, m1);
    if v.Some? {
      QuietMarker("v4:" + v.value + "1", m0, m1);
      LastLetter("v4:" + v.value, "1", m0);
      assert Flat(Pay("v4:" + v.value, "1", last))[0] == 'v';
    }
  }

  lemma LastSeek(m0: string, m1: string)
    requires IsMarker(m0, m1)
    ensures var last := Then("y1", Last("re"));
      Follow(last, m0, m1) == None && Flat(last) == "y1:re"
      && (m0 == "1" ==> (Starts("y1:re", m1) <==> m1 == "y1:r")) && "y1:re"[4..] == "e"
  {
    assert m1[0] != 'r' && "re"[0] == 'r';
    if m0 == "1" && m1 != "y1:r" {
      assert m1[0] != 'y' || m1[3] != 'r';
    }
  }

  lemma {:induction false} ChainCut(x: string, fs: seq<Field>, tail: Parts)
    requires Cut(tail) && |Flat(tail)| >= 2 && forall k :: 0 <= k < |fs| ==> WellNamed(fs[k])
    requires |x| > 0
    ensures Cut(Chain(x, fs, tail)) && |Flat(Chain(x, fs, tail))| >= 2
    decreases |fs|
  {
    if fs != [] { ChainCut(fs[0].name + fs[0].text, fs[1..], tail); }
  }

  lemma TailCut(tid: string, v: Option<string>)
    ensures Cut(ReplyTail(tid, v)) && |Flat(ReplyTail(tid, v))| >= 2
  {
    hide Digits, Next;
    var last := Then("y1", Last("re"));
    assert Flat(last) == "y1:re";
    assert Cut(last);
    TailFlat(tid, v);
    NextTail(TidText(tid), "y1:re");
    if v.Some? {
      assert Cut(Pay("v4:" + v.value, "1", last)) by { NextTail("v4:" + v.value, "y1:re"); }
      var t := "v4:" + v.value + "1:y1:re";
      assert Flat(Pay("v4:" + v.value, "1", last)) == t && t[0] == 'v';
      NextTail(TidText(tid), t);
    }
  }

  lemma NextTail(s: string, t: string)
    requires |s| >= 1 && |t| >= 2 && t[0] in {'v', 'y'}
    ensures Next(s + "1", t)
  {
    assert (s + "1")[|s|] == '1';
  }

  lemma ReplyCut(a: Answer)
    requires |a.id| == 20
    ensures Cut(ReplyParts(a)) && forall k :: 0 <= k < |Fields(a)| ==> WellNamed(Fields(a)[k])
  {
    hide Cut, Flat, Chain, ReplyTail, Digits, ListText;
    TailCut(a.tid, a.v);
    ChainCut(a.id, Fields(a), ReplyTail(a.tid, a.v));
    ThenCut("id20", Chain(a.id, Fields(a), ReplyTail(a.tid, a.v)));
    ThenCut("rd2", Then("id20", Chain(a.id, Fields(a), ReplyTail(a.tid, a.v))));
    ThenCut("d1", Then("rd2", Then("id20", Chain(a.id, Fields(a), ReplyTail(a.tid, a.v)))));
  }

  lemma ThenCut(s: string, f: Parts)
    requires NoColon(s) && Cut(f)
    ensures Cut(Then(s, f))
  {}

  /** Where each marker of the parser is met in a reply. */
  lemma ReplyFinds(a: Answer, m0: string, m1: string, m: string)
    requires QuietReply(a) && |a.id| == 20 && IsMarker(m0, m1) && m == m0 + (":" + m1)
    ensures var end := "e1:" + (TidText(a.tid) + (Version(a.v) + "1:y1:re"));
      Past(PrintReply(a), m) ==
        if m0 == "2" then Some(a.id + (OptionalText(a) + end))
        else if Seek(Fields(a), m0, m1, end).Some? then Seek(Fields(a), m0, m1, end)
        else if m == "1:t" then Some((TidText(a.tid) + (Version(a.v) + "1:y1:re"))[1..])
        else if m == "1:y1:r" then Some("e")
        else None
  {
    hide Past, QuietReply, IsMarker, OptionalText, Fields, Seek, Chain, ReplyTail, TidText, Version, Cut;
    var tail := ReplyTail(a.tid, a.v);
    var f := Chain(a.id, Fields(a), tail);
    PrintIsFlat(a);
    ReplyCut(a);
    Look(ReplyParts(a), m0, m1, m);
    ReplyHead(f, m0, m1);
    ChainFlat(a.id, Fields(a), tail);
    TailFlat(a.tid, a.v);
    FieldsAre(a);
    QuietParts(a);
    ChainSeek(a.id, Fields(a), tail, m0, m1);
    TailSeek(a.tid, a.v, m0, m1);
    TidStarts(a.tid, Version(a.v) + "1:y1:re", m0, m1, m);
  }

  lemma QuietParts(a: Answer)
    requires QuietReply(a)
    ensures Calm(a.id, Fields(a)) && Quiet(TidText(a.tid) + "1") && (a.v.Some? ==> Quiet("v4:" + a.v.value + "1"))
  {}

  lemma ReplyHead(f: Parts, m0: string, m1: string)
    requires IsMarker(m0, m1)
    ensures Follow(Then("d1", Then("rd2", Then("id20", f))), m0, m1) == if m0 == "2" then Some(Flat(f))
      else Follow(f, m0, m1)
  {
    var f1 := Then("id20", f);
    var f2 := Then("rd2", f1);
    assert Flat(f1) == "id20:" + Flat(f) && Flat(f2)[0] == 'r';
    assert m1[0] != 'r';
    assert m0 == "2" ==> m1 == "id20:" && Starts(Flat(f1), m1) && Flat(f1)[|m1|..] == Flat(f);
    LastLetter("id2", "0", m0);
    if m0 == "12" {
      assert "rd2"[1..][0] == 'd' && "12"[0] == '1';
    }
    assert Ends("rd2", m0) ==> m0 == "2";
    assert Follow(f1, m0, m1) == Follow(f, m0, m1);
    assert Follow(Then("d1", f2), m0, m1) == Follow(f2, m0, m1);
  }

  /** Behind "e1:" the transaction id begins, and only its marker fits there. */
  lemma TidStarts(tid: string, rest: string, m0: string, m1: string, m: string)
    requires IsMarker(m0, m1) && m == m0 + (":" + m1)
    ensures m0 == "1" ==> (Starts(TidText(tid) + rest, m1) <==> m1 == "t")
    ensures m == "1:t" <==> m0 == "1" && m1 == "t"
    ensures m == "1:y1:r" <==> m0 == "1" && m1 == "y1:r"
  {
    hide Digits;
    assert (TidText(tid) + rest)[0] == 't';
    assert m1 == "t" ==> Starts(TidText(tid) + rest, m1);
    assert m[|m0| + 1..] == m1 && m[..|m0|] == m0;
    assert "1:t"[2..] == "t" && "1:y1:r"[2..] == "y1:r" && "1:t"[..1] == "1" && "1:y1:r"[..1] == "1";
  }

  // What is read.

  lemma {:induction false} SeekAppend(a: seq<Field>, b: seq<Field>, m0: string, m1: string, end: string)
    ensures Seek(a + b, m0, m1, end) ==
      if Seek(a, m0, m1, FieldsText(b) + end).Some? then Seek(a, m0, m1, FieldsText(b) + end) else Seek(b, m0, m1, end)
  {
    if a == [] {
      assert a + b == b;
    } else {
      assert (a + b)[0] == a[0] && (a + b)[1..] == a[1..] + b;
      FieldsAppend(a[1..], b);
      SeekAppend(a[1..], b, m0, m1, end);
      assert FieldsText(a[1..]) + FieldsText(b) + end == FieldsText(a[1..]) + (FieldsText(b) + end);
    }
  }

  lemma SeekOpt(lead: string, name: string, x: string, m0: string, m1: string, end: string)
    ensures Seek(Opt(lead, name, x), m0, m1, end) ==
      if x != "" && lead == m0 && name == m1 then Some(Digits(|x|) + (":" + (x + end))) else None
  {
    hide Digits;
    if x != "" {
      var f := Field(lead, name, Digits(|x|) + (":" + x));
      assert [f][1..] == [];
      assert f.text + ("" + end) == Digits(|x|) + (":" + (x + end));
    }
  }

  /** A field is found by its own marker only, and not at all if it is left out. */
  lemma SeekAll(a: Answer, m0: string, m1: string, end: string) returns (y: string)
    ensures Seek(Fields(a), m0, m1, end) ==
      if m0 == "5" && m1 == "nodes" && a.nodes != "" then Some(Digits(|a.nodes|) + (":" + (a.nodes + y)))
      else if m0 == "6" && m1 == "nodes6" && a.nodes6 != "" then Some(Digits(|a.nodes6|) + (":" + (a.nodes6 + y)))
      else if m0 == "5" && m1 == "token" && a.token != "" then Some(Digits(|a.token|) + (":" + (a.token + y)))
      else if m0 == "6" && m1 == "valuesl" && a.values.Some? then Some(ListText(a.values.value) + ("e" + y))
      else None
  {
    hide Digits, ListText, Seek, FieldsText, Opt;
    var n, n6, t := Opt("5", "nodes", a.nodes), Opt("6", "nodes6", a.nodes6), Opt("5", "token", a.token);
    var vs := if a.values.Some? then [Field("6", "valuesl", ListText(a.values.value) + "e")] else [];
    var e1 := FieldsText(vs) + end;
    var e2 := FieldsText(t + vs) + end;
    var e3 := FieldsText(n6 + (t + vs)) + end;
    SeekAppend(n, n6 + (t + vs), m0, m1, end);
    SeekAppend(n6, t + vs, m0, m1, end);
    SeekAppend(t, vs, m0, m1, end);
    SeekOpt("5", "nodes", a.nodes, m0, m1, e3);
    SeekOpt("6", "nodes6", a.nodes6, m0, m1, e2);
    SeekOpt("5", "token", a.token, m0, m1, e1);
    SeekValues(a, vs, m0, m1, end);
    y := if m1 == "nodes" then e3 else if m1 == "nodes6" then e2 else if m1 == "token" then e1 else end;
  }

  lemma SeekValues(a: Answer, vs: seq<Field>, m0: string, m1: string, end: string)
    requires vs == if a.values.Some? then [Field("6", "valuesl", ListText(a.values.value) + "e")] else []
    ensures Seek(vs, m0, m1, end) ==
      if m0 == "6" && m1 == "valuesl" && a.values.Some? then Some(ListText(a.values.value) + ("e" + end)) else None
  {
    hide ListText;
    if a.values.Some? {
      var l := ListText(a.values.value);
      assert vs[1..] == [] && l + "e" + ("" + end) == l + ("e" + end);
    }
  }

  /** A counted field: recovered if it is there and within its bound. */
  lemma FieldRead(a: Answer, lead: string, name: string, m: string, x: string, most: nat)
    requires QuietReply(a) && |a.id| == 20 && m == lead + (":" + name) && |x| <= most
    requires || (lead == "5" && name == "nodes" && x == a.nodes) || (lead == "6" && name == "nodes6" && x == a.nodes6)
             || (lead == "5" && name == "token" && x == a.token)
    ensures Counted(PrintReply(a), m, most) == Some(x)
  {
    hide QuietReply, PrintReply, Past, Fields, Seek, CountedAt, Digits, TidText, Version, ListText;
    var end := "e1:" + (TidText(a.tid) + (Version(a.v) + "1:y1:re"));
    ReplyFinds(a, lead, name, m);
    var y := SeekAll(a, lead, name, end);
    NotKinds(m, lead);
    if x == "" {
      NoneCounted(most);
    } else {
      CountedIs(|x|, x + y, most);
      assert (x + y)[..|x|] == x;
    }
  }

  lemma NotKinds(m: string, lead: string)
    requires m != "" && lead in {"5", "6", "9", "4"} && m[0] == lead[0]
    ensures m != "1:t" && m != "1:y1:r"
  {}

  lemma NoneCounted(most: nat)
    ensures CountedAt(None, most) == Some("")
  {}

  lemma TidReplied(a: Answer)
    requires QuietReply(a) && |a.id| == 20 && 0 < |a.tid| <= 15
    ensures Counted(PrintReply(a), "1:t", 15) == Some(a.tid)
  {
    hide QuietReply, PrintReply, Past, Fields, Seek, CountedAt, Digits, Version;
    var more := Version(a.v) + "1:y1:re";
    ReplyFinds(a, "1", "t", "1:t");
    var y := SeekAll(a, "1", "t", "e1:" + (TidText(a.tid) + more));
    assert TidText(a.tid) + more == "t" + (Digits(|a.tid|) + (":" + (a.tid + more)));
    CountedIs(|a.tid|, a.tid + more, 15);
    assert (a.tid + more)[..|a.tid|] == a.tid;
  }

  lemma Unsent(a: Answer, m0: string, m1: string, m: string)
    requires QuietReply(a) && |a.id| == 20 && m0 in {"9", "4", "12", "6"} && IsMarker(m0, m1) && m == m0 + (":" + m1)
    requires m1 !in {"nodes6", "valuesl"}
    ensures Past(PrintReply(a), m) == None
  {
    hide QuietReply, PrintReply, Past, Fields, Seek, TidText, Version;
    ReplyFinds(a, m0, m1, m);
    var y := SeekAll(a, m0, m1, "e1:" + (TidText(a.tid) + (Version(a.v) + "1:y1:re")));
    OtherLead(m0, m1, m);
  }

  lemma OtherLead(m0: string, m1: string, m: string)
    requires m0 in {"9", "4", "12", "6"} && IsMarker(m0, m1) && m == m0 + (":" + m1)
    ensures m != "1:t" && m != "1:y1:r" && m0 != "2"
  {
    if m0 == "12" { assert m[1] == '2'; } else { assert m[0] == m0[0] != '1'; }
  }

  lemma ValuesReplied(a: Answer)
    requires QuietReply(a) && |a.id| == 20
    ensures var list := if a.values.Some? then BeforeEmpty(a.values.value) else [];
      ValuesOf(PrintReply(a)) == Some((Joined(Front(OfSize(list, 6), 341)), Joined(Front(OfSize(list, 18), 113))))
  {
    hide QuietReply, PrintReply, Past, Fields, Seek, Values, TidText, Version, ListText, BeforeEmpty;
    ReplyFinds(a, "6", "valuesl", "6:valuesl");
    var y := SeekAll(a, "6", "valuesl", "e1:" + (TidText(a.tid) + (Version(a.v) + "1:y1:re")));
    if a.values.Some? { PeersRead(a.values.value, y); }
  }

  lemma IdReplied(a: Answer)
    requires QuietReply(a) && |a.id| == 20
    ensures Twenty(PrintReply(a), "2:id20:") == Some(a.id)
  {
    hide QuietReply, PrintReply, Past, Fields, Seek, OptionalText, TidText, Version;
    ReplyFinds(a, "2", "id20:", "2:id20:");
    var more := OptionalText(a) + ("e1:" + (TidText(a.tid) + (Version(a.v) + "1:y1:re")));
    assert (a.id + more)[..20] == a.id;
  }

  lemma KindReplied(a: Answer)
    requires QuietReply(a) && |a.id| == 20
    ensures KindOf(PrintReply(a)) == Some(Reply)
  {
    hide QuietReply, PrintReply, Past, Fields, Seek, TidText, Version;
    ReplyFinds(a, "1", "y1:r", "1:y1:r");
  }

  /** Every reply within the bounds of the parser, and with no marker in its payloads, is
      recovered: nodes, token and transaction id whole, and of the values, the IPv4 peers in one
      list and the IPv6 peers in the other. */
  lemma ReplyRoundTrip(a: Answer)
    requires QuietReply(a) && |a.id| == 20 && 0 < |a.tid| <= 15
    requires |a.nodes| <= 416 && |a.nodes6| <= 608 && |a.token| <= 127
    ensures var list := if a.values.Some? then BeforeEmpty(a.values.value) else [];
      Parse(PrintReply(a)) == Some(Message(Reply, a.tid, a.id, Filled('\0', 20), 0, 0, Filled('\0', 20),
        a.token, a.nodes, a.nodes6, Joined(Front(OfSize(list, 6), 341)), Joined(Front(OfSize(list, 18), 113)), 0))
  {
    hide QuietReply, PrintReply, Past, KindOf, Counted, ValuesOf, OfSize, Joined, BeforeEmpty, Front, Filled;
    KindReplied(a);
    IdReplied(a);
    TidReplied(a);
    ValuesReplied(a);
    FieldRead(a, "5", "nodes", "5:nodes", a.nodes, 416);
    FieldRead(a, "6", "nodes6", "6:nodes6", a.nodes6, 608);
    FieldRead(a, "5", "token", "5:token", a.token, 127);
    Unsent(a, "9", "info_hash20:", "9:info_hash20:");
    Unsent(a, "6", "target20:", "6:target20:");
    Unsent(a, "4", "porti", "4:porti");
    Unsent(a, "12", "implied_porti", "12:implied_porti");
    Unsent(a, "4", "wantl", "4:wantl");
  }
}
