/** What parse_message of dht.c reads from a query, field by field and for any payloads: from a
    payload where one holds the field's marker first, and otherwise what was sent. */
module KrpcFields {
  import opened Wrappers
  import opened Krpc
  import opened KrpcQuery
  import opened KrpcParts
  import opened KrpcMarkers
  import opened KrpcQueries
  import opened KrpcRoundTrip
  import opened KrpcMessages
  import opened KrpcStray

  // Markers that the query does not print.

  lemma Unprinted(q: Query, m0: string, m1: string, m: string)
    requires Sized(q) && IsMarker(m0, m1) && m == m0 + (":" + m1) && !InMiddle(q, m0, m1) && m0 != "1"
    ensures Past(Print(q), m) == FirstIn(Windows(q), m)
  {
    hide IsMarker, Past, Follow, Print, PartsOf, Windows, End, MarkerForm, FirstIn, Clear;
    MarkerIsForm(m0, m1);
    Found(q, m0, m1, m);
    Reach(q, m0, m1);
    if FirstIn(Windows(q), m).None? { EndNone(LastLead(q), NumberOf(q), NameOf(q), q.tid, q.v, m0, m1); }
  }

  /** The reply fields are read from payloads or not at all. */
  lemma ReplyFields(q: Query)
    requires Sized(q)
    ensures Past(Print(q), "12:implied_porti") == Stray(q, "12:implied_porti")
    ensures Past(Print(q), "5:nodes") == Stray(q, "5:nodes")
    ensures Past(Print(q), "6:nodes6") == Stray(q, "6:nodes6") && Past(Print(q), "6:valuesl") == Stray(q, "6:valuesl")
  {
    hide Past, Print, Windows, FirstIn;
    Unprinted(q, "12", "implied_porti", "12:implied_porti");
    Unprinted(q, "5", "nodes", "5:nodes");
    Unprinted(q, "6", "nodes6", "6:nodes6");
    Unprinted(q, "6", "valuesl", "6:valuesl");
  }

  // The kind.

  lemma KindMet(q: Query, m1: string, m: string)
    requires Sized(q) && KindMarker(m1) && m == "1" + (":" + m1) && m in Windowed()
    ensures Past(Print(q), m).Some? <==> Stray(q, m).Some? || m1 == "y1:q" || m1 == NumberOf(q) + (":" + NameOf(q))
  {
    hide Past, Follow, Print, PartsOf, Windows, End, MarkerForm, FirstIn, Clear, KindMarker;
    IsKindMarker(m1);
    Found(q, "1", m1, m);
    Reach(q, "1", m1);
    if FirstIn(Windows(q), m).None? { KindAtEnd(q, m1); }
  }

  /** Markers of kinds are looked for in all windows. */
  function Windowed(): set<string> {
    {"1:y1:r", "1:y1:e", "1:y1:q", "1:q4:ping", "1:q9:find_node", "1:q9:get_peers", "1:q13:announce_peer"}
  }

  lemma IsKindMarker(m1: string)
    requires KindMarker(m1)
    ensures IsMarker("1", m1)
  {}

  lemma KindAtEnd(q: Query, m1: string)
    requires Sized(q) && KindMarker(m1) && Clear(LastLead(q), "e1", "1", m1)
    ensures Follow(LastPart(q), "1", m1).Some? <==> m1 == "y1:q" || m1 == NumberOf(q) + (":" + NameOf(q))
  {
    hide Follow, End, Clear, LastLead;
    if m1 in {"y1:q", "y1:r", "y1:e"} {
      EndType(LastLead(q), NumberOf(q), NameOf(q), q.tid, q.v, m1);
      NotAName(q, m1);
    } else {
      var q1, name1 := SplitName(m1);
      EndKind(LastLead(q), NumberOf(q), NameOf(q), q.tid, q.v, q1, name1);
      NameMarkers(q, q1, name1);
    }
  }

  lemma NotAName(q: Query, m1: string)
    requires m1 in {"y1:q", "y1:r", "y1:e"}
    ensures m1 != NumberOf(q) + (":" + NameOf(q))
  {
    assert m1[0] == 'y';
    assert (NumberOf(q) + (":" + NameOf(q)))[0] == 'q';
  }

  lemma SplitName(m1: string) returns (q1: string, name1: string)
    requires KindMarker(m1) && m1 !in {"y1:q", "y1:r", "y1:e"}
    ensures Named(q1, name1) && m1 == q1 + (":" + name1)
  {
    if m1 == "q4:ping" { q1, name1 := "q4", "ping"; }
    else if m1 == "q9:find_node" { q1, name1 := "q9", "find_node"; }
    else if m1 == "q9:get_peers" { q1, name1 := "q9", "get_peers"; }
    else { q1, name1 := "q13", "announce_peer"; }
  }

  lemma NameMarkers(q: Query, q1: string, name1: string)
    requires Named(q1, name1)
    ensures NameOf(q) == name1 <==> q1 + (":" + name1) == NumberOf(q) + (":" + NameOf(q))
    ensures q1 + (":" + name1) != "y1:q"
  {
    var a, b := q1 + (":" + name1), NumberOf(q) + (":" + NameOf(q));
    assert a[0] == 'q';
    if NameOf(q) != name1 {
      if q1 == NumberOf(q) {
        assert a[|q1| + 1..] == name1 && b[|q1| + 1..] == NameOf(q);
      } else {
        assert a[1] == q1[1] && b[1] == NumberOf(q)[1];
      }
    }
  }

  /** The kind, exactly: it is the sender's unless a payload holds the marker of one that
      the parser asks for first. */
  lemma KindIs(q: Query)
    requires Sized(q)
    ensures KindOf(Print(q)) == Some(KindSent(q)) <==> KindShows(q)
  {
    hide Past, Print, Stray, Sized;
    KindMet(q, "y1:r", "1:y1:r");
    KindMet(q, "y1:e", "1:y1:e");
    KindMet(q, "y1:q", "1:y1:q");
    KindMet(q, "q4:ping", "1:q4:ping");
    KindMet(q, "q9:find_node", "1:q9:find_node");
    KindMet(q, "q9:get_peers", "1:q9:get_peers");
    KindMet(q, "q13:announce_peer", "1:q13:announce_peer");
    OwnMarker(q);
    KindShowsIs(q);
  }

  lemma OwnMarker(q: Query)
    ensures NumberOf(q) + (":" + NameOf(q)) ==
      match KindSent(q)
      case Ping => "q4:ping"
      case FindNode => "q9:find_node"
      case GetPeers => "q9:get_peers"
      case _ => "q13:announce_peer"
  {
    assert "q4" + (":" + "ping") == "q4:ping" && "q9" + (":" + "find_node") == "q9:find_node";
    assert "q9" + (":" + "get_peers") == "q9:get_peers" && "q13" + (":" + "announce_peer") == "q13:announce_peer";
  }

  /** The condition, marker by marker. */
  lemma KindShowsIs(q: Query)
    ensures KindShows(q) <==>
      && Stray(q, "1:y1:r").None? && Stray(q, "1:y1:e").None?
      && (KindSent(q) != Ping ==> Stray(q, "1:q4:ping").None?)
      && (KindSent(q) in {GetPeers, AnnouncePeer} ==> Stray(q, "1:q9:find_node").None?)
      && (KindSent(q) == AnnouncePeer ==> Stray(q, "1:q9:get_peers").None?)
  {
    hide Stray;
    var ks := OtherKinds(KindSent(q));
    assert ks[0] == "1:y1:r" && ks[1] == "1:y1:e";
    if KindSent(q) != Ping { assert ks[2] == "1:q4:ping"; }
    if KindSent(q) in {GetPeers, AnnouncePeer} { assert ks[3] == "1:q9:find_node"; }
    if KindSent(q) == AnnouncePeer { assert ks[4] == "1:q9:get_peers"; }
  }

  // The ids.

  /** The sender's id is read back whatever the payloads are. */
  lemma IdIs(q: Query)
    requires Sized(q)
    ensures Twenty(Print(q), "2:id20:") == Some(q.id)
  {
    hide Past, Print, Head, Middle, Follow, Flat;
    Found(q, "2", "id20:", "2:id20:");
    IdFirst(Middle(q));
    MiddleStarts(q);
    assert Flat(Middle(q))[..20] == q.id;
  }

  lemma IdFirst(f: Parts)
    ensures Follow(Head(f), "2", "id20:") == Some(Flat(f))
  {
    var f1 := Then("id20", f);
    assert Flat(f1) == "id20:" + Flat(f);
    assert Follow(Then("ad2", f1), "2", "id20:") == Some(Flat(f));
  }

  lemma MiddleStarts(q: Query)
    requires |q.id| == 20
    ensures |Flat(Middle(q))| >= 20 && Flat(Middle(q))[..20] == q.id
  {
    hide NameText, Digits, End, WantsText, PortText, Flat;
    MiddleFlat(q);
  }

  /** The transaction id, exactly: it is read back unless a payload holds its marker and
      spells something else behind it. */
  lemma TidIs(q: Query)
    requires Sized(q)
    ensures Counted(Print(q), "1:t", 15) ==
      if Stray(q, "1:t").None? then Some(q.tid) else CountedAt(Stray(q, "1:t"), 15)
  {
    hide Past, Follow, Print, PartsOf, Windows, End, FirstIn, Clear, LastLead;
    Found(q, "1", "t", "1:t");
    Reach(q, "1", "t");
    if FirstIn(Windows(q), "1:t").None? {
      EndTid(LastLead(q), NumberOf(q), NameOf(q), q.tid, q.v);
      TidReads(q.tid, q.v);
    }
  }

  lemma TidReads(tid: string, v: Option<string>)
    requires Sizes(tid, v)
    ensures CountedAt(Some("4:" + Flat(Tail(tid, v))), 15) == Some(tid)
  {
    hide CountedAt;
    TailStarts(tid, v);
    OneDigit();
    var x := Flat(Tail(tid, v));
    assert "4:" + x == "4" + (":" + x);
    CountedReads(4, x, 15);
  }

  // The arguments.

  lemma TwentyReads(x: string, y: string)
    requires |x| == 20
    ensures TwentyAt(Some(x + y)) == Some(x)
  {
    assert (x + y)[..20] == x;
  }

  /** The marker of the slot is met in the id's window or where it is printed. */
  lemma SlotMet(find: bool, id: string, g: Parts)
    ensures var w := Window(id + (if find then "6" else "9"),
      (if find then ":target20:" else ":info_hash20:") + Flat(g));
      var m0, m1 := if find then "6" else "9", if find then "target20:" else "info_hash20:";
      Follow(Slot(find, id, g), m0, m1) ==
        if FirstIn([w], m0 + (":" + m1)).Some? then FirstIn([w], m0 + (":" + m1)) else Some(Flat(g))
  {
    hide Flat, Follow, FirstIn;
    if find {
      SlotHit(id, "6", "target20", g);
    } else {
      SlotHit(id, "9", "info_hash20", g);
    }
    assert "target20:" == "target20" + ":" && "info_hash20:" == "info_hash20" + ":";
    assert ":target20:" == ":" + "target20" + ":" && ":info_hash20:" == ":" + "info_hash20" + ":";
  }

  lemma SlotHit(id: string, m0: string, name: string, g: Parts)
    ensures var m1 := name + ":";
      var w := [Window(id + m0, ":" + name + ":" + Flat(g))];
      Follow(Pay(id, m0, Then(name, g)), m0, m1) ==
        if FirstIn(w, m0 + (":" + m1)).Some? then FirstIn(w, m0 + (":" + m1)) else Some(Flat(g))
  {
    hide Past;
    var f, m1 := Then(name, g), name + ":";
    assert Flat(f) == m1 + Flat(g) && Flat(f)[|m1|..] == Flat(g);
    assert ":" + Flat(f) == ":" + name + ":" + Flat(g);
    OneWindow(id, m0, f, ":" + Flat(f), m0, m1);
    assert Ends(id + m0, m0);
  }

  lemma LookupSlot(q: Query)
    requires Sized(q) && q.LookupQuery?
    ensures var m := if q.find then "6:target20:" else "9:info_hash20:";
      TwentyAt(Past(Print(q), m)) == if Stray(q, m).Some? then TwentyAt(Stray(q, m)) else Some(q.x)
  {
    hide Past, Follow, Print, Head, Flat, FirstIn, Wants, End, NameText, WantsText, TwentyAt, Slot;
    var m0, m1 := if q.find then "6" else "9", if q.find then "target20:" else "info_hash20:";
    Found(q, m0, m1, m0 + (":" + m1));
    HeadPass(Middle(q), m0, m1);
    WantsPartFlat(q);
    SlotMet(q.find, q.id, WantsPart(q));
    TwentyReads(q.x, WantsText(q.want, EndText(q)));
    assert m0 + (":" + m1) == if q.find then "6:target20:" else "9:info_hash20:";
    assert Ahead(q, m0 + (":" + m1)) == [Windows(q)[0]];
  }

  lemma AnnounceSlot(q: Query)
    requires Sized(q) && q.AnnounceQuery?
    ensures TwentyAt(Past(Print(q), "9:info_hash20:")) ==
      if Stray(q, "9:info_hash20:").Some? then TwentyAt(Stray(q, "9:info_hash20:")) else Some(q.x)
  {
    hide Past, Follow, Print, Head, Flat, FirstIn, End, NameText, PortText, TwentyAt, Slot, Digits;
    Found(q, "9", "info_hash20:", "9:info_hash20:");
    HeadPass(Middle(q), "9", "info_hash20:");
    PortPartFlat(q);
    SlotIsHash(q.id, Port(q.x, q.port, LastPart(q)));
    SlotMet(false, q.id, Port(q.x, q.port, LastPart(q)));
    TwentyReads(q.x, "4" + PortText(q.port, q.token, EndText(q)));
    assert Ahead(q, "9:info_hash20:") == [Windows(q)[0]];
  }

  /** The marker of the port: in the first two windows, or where it is printed. */
  lemma PortMet(q: Query)
    requires Sized(q) && q.AnnounceQuery?
    ensures Past(Print(q), "4:porti") ==
      if Stray(q, "4:porti").Some? then Stray(q, "4:porti")
        else Some(Digits(q.port) + ("e" + ("5:" + Flat(LastPart(q)))))
  {
    hide Past, Follow, Print, Head, Flat, FirstIn, End, NameText, PortText, Slot, Digits;
    TwoAhead(q, "4", "porti", "4:porti");
    PortHit(q, "4", "porti", "4:porti");
  }

  lemma TokenMet(q: Query)
    requires Sized(q) && q.AnnounceQuery?
    ensures Past(Print(q), "5:token") ==
      if Stray(q, "5:token").Some? then Stray(q, "5:token")
      else Some(Digits(|q.token|) + (":" + (q.token + ("e1" + EndText(q)))))
  {
    hide Past, Follow, Print, Head, Flat, FirstIn, End, NameText, PortText, Slot, Digits;
    TwoAhead(q, "5", "token", "5:token");
    PortHit(q, "5", "token", "5:token");
  }

  /** Up to the port's boundary, with the windows ahead of it. */
  lemma TwoAhead(q: Query, m0: string, m1: string, m: string)
    requires Sized(q) && q.AnnounceQuery?
    requires (m0 == "4" && m1 == "porti" && m == "4:porti") || (m0 == "5" && m1 == "token" && m == "5:token")
    ensures var w := Windows(q);
      && Stray(q, m) == (if FirstIn([w[0]], m).Some? then FirstIn([w[0]], m) else FirstIn([w[1]], m))
      && Past(Print(q), m) == if FirstIn([w[0]], m).Some? then FirstIn([w[0]], m)
        else Follow(Port(q.x, q.port, LastPart(q)), m0, m1)
  {
    hide Past, Follow, Print, Head, Flat, FirstIn, End, NameText, PortText, Slot, Digits;
    Found(q, m0, m1, m);
    HeadPass(Middle(q), m0, m1);
    PortPartFlat(q);
    SlotIsHash(q.id, Port(q.x, q.port, LastPart(q)));
    SlotWindow(false, q.id, Port(q.x, q.port, LastPart(q)), m0, m1);
    assert Ahead(q, m) == [Windows(q)[0], Windows(q)[1]];
    FirstInTwo(Windows(q)[0], Windows(q)[1], m);
  }

  lemma PortHit(q: Query, m0: string, m1: string, m: string)
    requires q.AnnounceQuery?
    requires (m0 == "4" && m1 == "porti" && m == "4:porti") || (m0 == "5" && m1 == "token" && m == "5:token")
    ensures var w := Windows(q);
      Follow(Port(q.x, q.port, LastPart(q)), m0, m1) ==
        if FirstIn([w[1]], m).Some? then FirstIn([w[1]], m)
        else if m0 == "4" then Some(Digits(q.port) + ("e" + ("5:" + Flat(LastPart(q)))))
        else Some(Digits(|q.token|) + (":" + (q.token + ("e1" + EndText(q)))))
  {
    hide Past, Follow, Flat, FirstIn, End, NameText, PortText, Digits, LastPart, Clear;
    assert m == m0 + (":" + m1);
    PortFlat(q);
    var f := Then("porti" + Digits(q.port) + "e5", LastPart(q));
    OneWindow(q.x, "4", f, PortText(q.port, q.token, EndText(q)), m0, m1);
    if Clear(q.x, "4", m0, m1) {
      var t := Digits(|q.token|) + (":" + (q.token + ("e1" + EndText(q))));
      PortPrinted(q.x, Digits(q.port), LastPart(q), t, m0, m1);
    }
  }

  lemma PortPrinted(x: string, p: string, f: Parts, t: string, m0: string, m1: string)
    requires Flat(f) == "token" + t && Clear(x, "4", m0, m1)
    requires (m0 == "4" && m1 == "porti") || (m0 == "5" && m1 == "token")
    ensures Follow(Pay(x, "4", Then("porti" + p + "e5", f)), m0, m1) ==
      Some(if m0 == "4" then p + ("e" + ("5:" + Flat(f))) else t)
  {
    hide Past;
    assert Ends(x + "4", "4") && !Ends(x + "4", "5");
    var s := "porti" + p + "e5";
    assert Flat(Then(s, f)) == "porti" + (p + ("e" + ("5:" + Flat(f))));
    assert Ends(s, "5");
    Front("porti", p + ("e" + ("5:" + Flat(f))));
    Front("token", t);
  }

  lemma Front(x: string, y: string)
    ensures Starts(x + y, x) && (x + y)[|x|..] == y && (x + y)[..|x|] == x
  {}

  /** The want list: in a window, where it is printed, or nowhere. */
  lemma WantMet(q: Query)
    requires Sized(q) && q.LookupQuery? && q.want > 0
    ensures WantAt(Past(Print(q), "4:wantl")) == if Stray(q, "4:wantl").Some? then WantAt(Stray(q, "4:wantl"))
      else q.want % 4
  {
    hide Past, Follow, Print, Head, Flat, FirstIn, End, NameText, WantsText, Slot, Wants, Wanted, Clear, W4, W6;
    Found(q, "4", "wantl", "4:wantl");
    HeadPass(Middle(q), "4", "wantl");
    WantsPartFlat(q);
    SlotWindow(q.find, q.id, WantsPart(q), "4", "wantl");
    WantsPartRest(q);
    OneWindow(q.x, "4", WantsPart(q).rest, WantsText(q.want, EndText(q))[1..], "4", "wantl");
    FirstInTwo(Windows(q)[0], Windows(q)[1], "4:wantl");
    if Clear(q.x, "4", "4", "wantl") {
      LastFlat(q);
      WantBits(q.want);
      var y := WantsRead(q.x, q.want, LastPart(q), "e1" + EndText(q));
    }
  }

  /** What the parser reads for every argument: from a payload that holds its marker ahead
      of the printed one, and otherwise what was sent. */
  lemma ArgumentsAre(q: Query)
    requires Sized(q)
    ensures var b, e := Print(q), Sent(q);
      && Twenty(b, "9:info_hash20:") ==
        (if Stray(q, "9:info_hash20:").None? then Some(e.infoHash) else TwentyAt(Stray(q, "9:info_hash20:")))
      && Twenty(b, "6:target20:") ==
        (if Stray(q, "6:target20:").None? then Some(e.target) else TwentyAt(Stray(q, "6:target20:")))
      && Number(b, "4:porti") == (if Stray(q, "4:porti").None? then e.port else NumberAt(Stray(q, "4:porti")))
      && Counted(b, "5:token", 127) ==
        (if Stray(q, "5:token").None? then Some(e.token) else CountedAt(Stray(q, "5:token"), 127))
      && WantOf(b) == (if Stray(q, "4:wantl").None? then e.want else WantAt(Stray(q, "4:wantl")))
  {
    HashIs(q);
    TargetIs(q);
    PortIs(q);
    TokenIs(q);
    WantIs(q);
  }

  lemma HashIs(q: Query)
    requires Sized(q)
    ensures Twenty(Print(q), "9:info_hash20:") ==
      if Stray(q, "9:info_hash20:").None? then Some(Sent(q).infoHash) else TwentyAt(Stray(q, "9:info_hash20:"))
  {
    hide Past, Print, Windows, FirstIn;
    if q.AnnounceQuery? {
      AnnounceSlot(q);
    } else if q.LookupQuery? && !q.find {
      LookupSlot(q);
    } else {
      Unprinted(q, "9", "info_hash20:", "9:info_hash20:");
    }
  }

  lemma TargetIs(q: Query)
    requires Sized(q)
    ensures Twenty(Print(q), "6:target20:") ==
      if Stray(q, "6:target20:").None? then Some(Sent(q).target) else TwentyAt(Stray(q, "6:target20:"))
  {
    hide Past, Print, Windows, FirstIn;
    if q.LookupQuery? && q.find {
      LookupSlot(q);
    } else {
      Unprinted(q, "6", "target20:", "6:target20:");
    }
  }

  lemma PortIs(q: Query)
    requires Sized(q)
    ensures Number(Print(q), "4:porti") == if Stray(q, "4:porti").None? then Sent(q).port
      else NumberAt(Stray(q, "4:porti"))
  {
    hide Past, Print, Windows, FirstIn;
    if q.AnnounceQuery? {
      PortMet(q);
      StrtolReads(q.port, 'e', "5:" + Flat(LastPart(q)));
    } else {
      Unprinted(q, "4", "porti", "4:porti");
    }
  }

  lemma TokenIs(q: Query)
    requires Sized(q)
    ensures Counted(Print(q), "5:token", 127) ==
      if Stray(q, "5:token").None? then Some(Sent(q).token) else CountedAt(Stray(q, "5:token"), 127)
  {
    hide Past, Print, Windows, FirstIn, Digits;
    if q.AnnounceQuery? {
      TokenMet(q);
      CountedReads(|q.token|, q.token + ("e1" + EndText(q)), 127);
      Front(q.token, "e1" + EndText(q));
    } else {
      Unprinted(q, "5", "token", "5:token");
    }
  }

  lemma WantIs(q: Query)
    requires Sized(q)
    ensures WantOf(Print(q)) == if Stray(q, "4:wantl").None? then Sent(q).want else WantAt(Stray(q, "4:wantl"))
  {
    hide Past, Print, Windows, FirstIn, Wanted;
    if q.LookupQuery? && q.want > 0 {
      WantMet(q);
    } else {
      Unprinted(q, "4", "wantl", "4:wantl");
    }
  }
}
