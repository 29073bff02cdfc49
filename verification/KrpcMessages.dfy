/** The queries that dht.c prints, in parts: their text, that they are well cut, and which markers the parser
    meets in a payload before anything the printer wrote. */
module KrpcMessages {
  import opened Wrappers
  import opened Krpc
  import opened KrpcQuery
  import opened KrpcParts
  import opened KrpcMarkers
  import opened KrpcQueries
  import opened KrpcRoundTrip

  function Slot(find: bool, lead: string, f: Parts): Parts {
    if find then Target(lead, f) else Hash(lead, f)
  }

  function NumberOf(q: Query): string {
    if q.PingQuery? then "q4" else if q.AnnounceQuery? then "q13" else "q9"
  }

  function NameOf(q: Query): string {
    if q.PingQuery? then "ping" else if q.AnnounceQuery? then "announce_peer" else if q.find then "find_node"
      else "get_peers"
  }

  /** What stands in front of the name: the last payload, or the end of the want list. */
  function LastLead(q: Query): string {
    match q
    case PingQuery(id, _, _) => id
    case LookupQuery(_, _, _, x, want, _) => WantLead(x, want)
    case AnnounceQuery(_, _, _, _, token, _) => "token" + Digits(|token|) + ":" + token
  }

  function LastPart(q: Query): Parts { End(LastLead(q), NumberOf(q), NameOf(q), q.tid, q.v) }

  function Middle(q: Query): Parts {
    match q
    case PingQuery(_, _, _) => LastPart(q)
    case LookupQuery(find, id, _, x, want, _) => Slot(find, id, Wants(x, want, LastPart(q)))
    case AnnounceQuery(id, _, x, port, _, _) => Hash(id, Port(x, port, LastPart(q)))
  }

  function PartsOf(q: Query): Parts { Head(Middle(q)) }

  /** The text behind the arguments. */
  function EndText(q: Query): string { NameText(NumberOf(q), NameOf(q), q.tid, q.v) }

  // The text.

  lemma TailFlat(tid: string, v: Option<string>)
    ensures Flat(Tail(tid, v)) == tid + (Version(v) + "1:y1:qe")
  {
    var f1 := Then("y1", Last("qe"));
    assert Flat(f1) == "y1:qe";
    if v.Some? {
      assert Flat(Pay(v.value, "1", f1)) == v.value + "1:y1:qe";
      assert Flat(Then("v4", Pay(v.value, "1", f1))) == "v4:" + v.value + "1:y1:qe";
    }
  }

  lemma EndFlat(lead: string, q: string, name: string, tid: string, v: Option<string>)
    ensures Flat(End(lead, q, name, tid, v)) == lead + ("e1" + NameText(q, name, tid, v))
    ensures ":" + Flat(Then(q, Then(name + "1", Then("t4", Tail(tid, v))))) == NameText(q, name, tid, v)
  {
    TailFlat(tid, v);
    var t := tid + (Version(v) + "1:y1:qe");
    var f1 := Then("t4", Tail(tid, v));
    assert Flat(f1) == "t4:" + t;
    assert Flat(Then(name + "1", f1)) == name + ("1:t4:" + t);
  }

  lemma LastFlat(q: Query)
    ensures Flat(LastPart(q)) == LastLead(q) + ("e1" + EndText(q))
  {
    EndFlat(LastLead(q), NumberOf(q), NameOf(q), q.tid, q.v);
  }

  lemma SlotFlat(find: bool, lead: string, g: Parts)
    ensures Flat(Slot(find, lead, g)) == lead + ((if find then "6:target20:" else "9:info_hash20:") + Flat(g))
  {
    if find {
      assert Flat(Then("target20", g)) == "target20:" + Flat(g);
    } else {
      assert Flat(Then("info_hash20", g)) == "info_hash20:" + Flat(g);
    }
  }

  lemma HeadFlat(f: Parts)
    ensures Flat(Head(f)) == "d1:ad2:id20:" + Flat(f)
  {
    assert Flat(Then("id20", f)) == "id20:" + Flat(f);
    assert Flat(Then("ad2", Then("id20", f))) == "ad2:id20:" + Flat(f);
  }

  function WantsPart(q: Query): Parts
    requires q.LookupQuery?
  {
    Wants(q.x, q.want, LastPart(q))
  }

  lemma WantsPartFlat(q: Query)
    requires q.LookupQuery?
    ensures Flat(WantsPart(q)) == q.x + WantsText(q.want, EndText(q))
  {
    hide NameText, WantList, End, Wants;
    LastFlat(q);
    WantsFlat(q.x, q.want, LastPart(q), "e1" + EndText(q));
  }

  /** Behind the payload x and the 4 of the want list. */
  lemma WantsPartRest(q: Query)
    requires q.LookupQuery? && q.want > 0
    ensures WantsPart(q).Pay? && WantsPart(q).x == q.x && WantsPart(q).behind == "4"
    ensures ":" + Flat(WantsPart(q).rest) == WantsText(q.want, EndText(q))[1..]
  {
    hide NameText, WantList, End;
    WantsPartFlat(q);
    Behind4(q.x, Flat(WantsPart(q).rest), WantsText(q.want, EndText(q)));
  }

  lemma Behind4(x: string, f: string, t: string)
    requires x + ("4" + (":" + f)) == x + t
    ensures |t| >= 1 && ":" + f == t[1..]
  {
    var b := x + ("4" + (":" + f));
    assert b[|x|..] == "4" + (":" + f) && b[|x|..] == t;
  }

  lemma PortFlat(q: Query)
    requires q.AnnounceQuery?
    ensures Flat(LastPart(q)) == "token" + (Digits(|q.token|) + (":" + (q.token + ("e1" + EndText(q)))))
    ensures ":" + Flat(Then("porti" + Digits(q.port) + "e5", LastPart(q))) == PortText(q.port, q.token, EndText(q))
  {
    hide NameText, Digits, End;
    LastFlat(q);
    TokenGather(Digits(|q.token|), q.token, "e1" + EndText(q));
    PortGather(Digits(q.port), Digits(|q.token|) + (":" + (q.token + ("e1" + EndText(q)))));
  }

  lemma TokenGather(d: string, token: string, t: string)
    ensures "token" + d + ":" + token + t == "token" + (d + (":" + (token + t)))
  {}

  lemma PortGather(d: string, t: string)
    ensures ":" + ("porti" + d + "e5" + (":" + ("token" + t))) == ":porti" + (d + ("e5:token" + t))
  {}

  lemma MiddleFlat(q: Query)
    ensures Flat(Middle(q)) ==
      match q
      case PingQuery(id, _, _) => id + ("e1" + EndText(q))
      case LookupQuery(find, id, _, x, want, _) =>
        id + ((if find then "6:target20:" else "9:info_hash20:") + (x + WantsText(want, EndText(q))))
      case AnnounceQuery(id, _, x, port, token, _) =>
        id + ("9:info_hash20:" + (x + ("4" + PortText(port, token, EndText(q)))))
  {
    hide NameText, Digits, End, WantsText, PortText, Flat;
    match q {
      case PingQuery(_, _, _) => LastFlat(q);
      case LookupQuery(find, id, _, _, _, _) =>
        WantsPartFlat(q);
        SlotFlat(find, id, WantsPart(q));
      case AnnounceQuery(id, _, x, port, _, _) =>
        PortFlat(q);
        PayFlat(x, "4", Then("porti" + Digits(port) + "e5", LastPart(q)));
        SlotFlat(false, id, Port(x, port, LastPart(q)));
    }
  }

  lemma PayFlat(x: string, behind: string, f: Parts)
    ensures Flat(Pay(x, behind, f)) == x + (behind + (":" + Flat(f)))
  {}

  // The printers print these parts.

  /** The name with the text around it, as the senders print it. */
  function NameLiteral(q: Query): string {
    if q.PingQuery? then "e1:q4:ping1:t" else if q.AnnounceQuery? then "e1:q13:announce_peer1:t"
    else if q.find then "e1:q9:find_node1:t" else "e1:q9:get_peers1:t"
  }

  lemma NameLiterals(q: Query)
    ensures NameLiteral(q) == "e1:" + NumberOf(q) + ":" + NameOf(q) + "1:t"
  {
    assert "e1:" + "q4" + ":" + "ping" + "1:t" == "e1:q4:ping1:t";
    assert "e1:" + "q9" + ":" + "find_node" + "1:t" == "e1:q9:find_node1:t";
    assert "e1:" + "q9" + ":" + "get_peers" + "1:t" == "e1:q9:get_peers1:t";
    assert "e1:" + "q13" + ":" + "announce_peer" + "1:t" == "e1:q13:announce_peer1:t";
  }

  lemma EndTextIs(q: Query)
    requires |q.tid| == 4
    ensures "e1" + EndText(q) == NameLiteral(q) + Digits(|q.tid|) + ":" + (q.tid + (Version(q.v) + "1:y1:qe"))
  {
    hide Version, Digits, NameLiteral, NumberOf, NameOf;
    OneDigit();
    NameLiterals(q);
    EndTextOf(NumberOf(q), NameOf(q), q.tid + (Version(q.v) + "1:y1:qe"));
  }

  lemma EndTextOf(q: string, name: string, t: string)
    ensures "e1" + (":" + (q + (":" + (name + ("1:t4:" + t))))) == "e1:" + q + ":" + name + "1:t" + "4" + ":" + t
  {}

  lemma OneDigit()
    ensures Digits(4) == "4"
  {}

  lemma PrintIsFlat(q: Query)
    requires Sized(q)
    ensures Print(q) == Flat(PartsOf(q))
  {
    hide NameText, Digits, End, Middle, Version, WantList, Flat, Head, EndText;
    HeadFlat(Middle(q));
    MiddleFlat(q);
    EndTextIs(q);
    match q {
      case PingQuery(id, _, _) =>
        Attach("d1:ad2:id20:", id, "e1" + EndText(q));
      case LookupQuery(find, id, _, x, want, _) =>
        var marker := if find then "6:target20:" else "9:info_hash20:";
        Attach(marker, x, WantsText(want, EndText(q)));
        Attach("d1:ad2:id20:", id, marker + x + WantsText(want, EndText(q)));
      case AnnounceQuery(id, _, x, port, token, _) =>
        PortLiteral(port, token, EndText(q));
        Attach("9:info_hash20:", x, "4" + PortText(port, token, EndText(q)));
        Attach("d1:ad2:id20:", id, "9:info_hash20:" + x + ("4" + PortText(port, token, EndText(q))));
    }
  }

  lemma Attach(a: string, b: string, c: string)
    ensures a + b + c == a + (b + c)
  {}

  lemma PortLiteral(port: nat, token: string, end: string)
    ensures "4" + PortText(port, token, end) ==
      "4:porti" + Digits(port) + "e5:token" + Digits(|token|) + ":" + token + ("e1" + end)
  {
    hide Digits;
    PortSplit(Digits(port), Digits(|token|), token, "e1" + end);
  }

  lemma PortSplit(p: string, d: string, t: string, e: string)
    ensures "4" + (":porti" + (p + ("e5:token" + (d + (":" + (t + e)))))) ==
      "4:porti" + p + "e5:token" + d + ":" + t + e
  {}

  // They are well cut.

  lemma TailCut(tid: string, v: Option<string>)
    requires Sizes(tid, v)
    ensures Cut(Tail(tid, v))
  {
    var f1 := Then("y1", Last("qe"));
    assert Flat(f1) == "y1:qe" && Cut(f1);
    if v.Some? {
      var f2 := Pay(v.value, "1", f1);
      assert Cut(f2);
      assert Flat(Then("v4", f2))[0] == 'v' && |Flat(Then("v4", f2))| >= 2;
    }
  }

  lemma EndCut(lead: string, q: string, name: string, tid: string, v: Option<string>)
    requires Named(q, name) && Sizes(tid, v)
    ensures Cut(End(lead, q, name, tid, v))
  {
    hide Tail;
    TailCut(tid, v);
    var f1 := Then("t4", Tail(tid, v));
    assert Cut(Then(name + "1", f1));
    var f := Then(q, Then(name + "1", f1));
    assert Cut(f) && |Flat(f)| >= 2 && Flat(f)[0] == 'q';
    assert Next(lead + "e1", Flat(f));
  }

  lemma WellCut(q: Query)
    requires Sized(q)
    ensures Cut(PartsOf(q))
  {
    hide End, Tail, Digits;
    EndCut(LastLead(q), NumberOf(q), NameOf(q), q.tid, q.v);
    LastFlat(q);
    match q {
      case PingQuery(_, _, _) =>
      case LookupQuery(find, id, _, x, want, _) =>
        WantsCut(x, want, LastPart(q));
        SlotCut(find, id, WantsPart(q));
      case AnnounceQuery(id, _, x, port, _, _) =>
        PortCut(x, port, LastPart(q));
        SlotCut(false, id, Port(x, port, LastPart(q)));
    }
    HeadCut(Middle(q));
  }

  lemma HeadCut(f: Parts)
    requires Cut(f)
    ensures Cut(Head(f))
  {
    assert Cut(Then("id20", f));
    assert Cut(Then("ad2", Then("id20", f)));
  }

  lemma SlotCut(find: bool, id: string, g: Parts)
    requires Cut(g) && id != ""
    ensures Cut(Slot(find, id, g))
  {
    var s := if find then "target20" else "info_hash20";
    assert Flat(Then(s, g)) == s + (":" + Flat(g));
    assert Cut(Then(s, g));
  }

  lemma WantsCut(x: string, want: int, e: Parts)
    requires Cut(e) && x != "" && (want > 0 ==> |Flat(e)| >= 2 && Flat(e)[0] == WantLead(x, want)[0])
    ensures Cut(Wants(x, want, e))
  {
    if want > 0 {
      assert Cut(Then("n42", e)) && Cut(Then("wantl2", Then("n42", e))) && Cut(Then("wantl2", e));
      var f := if W4(want) && W6(want) then Then("wantl2", Then("n42", e))
        else if W4(want) || W6(want) then Then("wantl2", e) else e;
      assert |Flat(f)| >= 2 && Flat(f)[0] == 'w';
    }
  }

  lemma PortCut(x: string, port: nat, f: Parts)
    requires Cut(f) && x != ""
    ensures Cut(Port(x, port, f))
  {
    hide Digits;
    DigitsClean(port);
    var g := Then("porti" + Digits(port) + "e5", f);
    assert Cut(g) && |Flat(g)| >= 2 && Flat(g)[0] == 'p' && Flat(g)[1] == 'o';
  }

  lemma {:induction false} DigitsClean(n: nat)
    ensures NoColon(Digits(n))
  {
    var d := ['0', '1', '2', '3', '4', '5', '6', '7', '8', '9'][n % 10];
    assert d != ':';
    if n >= 10 { DigitsClean(n / 10); }
  }

  /** Where the parser meets a marker in a query. */
  lemma Found(q: Query, m0: string, m1: string, m: string)
    requires Sized(q) && IsMarker(m0, m1) && m == m0 + (":" + m1)
    ensures Past(Print(q), m) == Follow(PartsOf(q), m0, m1)
  {
    hide IsMarker, Past, Follow, Print, PartsOf, Cut;
    PrintIsFlat(q);
    WellCut(q);
    Look(PartsOf(q), m0, m1, m);
  }
}
