/** Where the parser of dht.c meets each marker in a query: in a payload, as Stray says, or where the
    sender printed it. */
module KrpcStray {
  import opened Wrappers
  import opened Krpc
  import opened KrpcQuery
  import opened KrpcParts
  import opened KrpcMarkers
  import opened KrpcQueries
  import opened KrpcRoundTrip
  import opened KrpcMessages

  lemma MarkerIsForm(m0: string, m1: string)
    requires IsMarker(m0, m1)
    ensures MarkerForm(m0, m1) && (m0 != "1" || m1 != "t" ==> |m0| + |m1| >= 5)
    ensures m0 == "1" ==> m1[0] in {'t', 'y', 'q'} && (m1[0] == 'q' ==> |m1| > 2)
    ensures m0 == "2" ==> m1 == "id20:"
    ensures m0 == "9" ==> m1 == "info_hash20:"
    ensures m1 != "" && (m0 == "6" && m1[0] == 't' ==> m1 == "target20:")
    ensures m0 == "5" && m1[0] == 't' ==> m1 == "token"
    ensures (m0 == "4" && m1[0] == 'p' ==> m1 == "porti") && (m0 == "4" && m1[0] == 'w' ==> m1 == "wantl")
  {}

  /** The markers of the arguments that the query prints. */
  predicate InMiddle(q: Query, m0: string, m1: string) {
    || m0 == "2"
    || (m0 == "6" && m1 == "target20:" && q.LookupQuery? && q.find)
    || (m0 == "9" && m1 == "info_hash20:" && (q.AnnounceQuery? || (q.LookupQuery? && !q.find)))
    || (m0 == "4" && m1 == "porti" && q.AnnounceQuery?) || (m0 == "5" && m1 == "token" && q.AnnounceQuery?)
    || (m0 == "4" && m1 == "wantl" && q.LookupQuery? && q.want > 0)
  }

  // One window after the other.

  lemma OneWindow(x: string, behind: string, f: Parts, rest: string, m0: string, m1: string)
    requires rest == ":" + Flat(f)
    ensures Follow(Pay(x, behind, f), m0, m1) ==
      if Clear(x, behind, m0, m1) then Follow(Pay(x, behind, f), m0, m1)
        else FirstIn([Window(x + behind, rest)], m0 + (":" + m1))
    ensures Clear(x, behind, m0, m1) <==> FirstIn([Window(x + behind, rest)], m0 + (":" + m1)).None?
  {}

  lemma LastWindow(q: Query, m0: string, m1: string)
    ensures var w := Window(LastLead(q) + "e1", EndText(q));
      && (Clear(LastLead(q), "e1", m0, m1) <==> FirstIn([w], m0 + (":" + m1)).None?)
      && (!Clear(LastLead(q), "e1", m0, m1) ==> Follow(LastPart(q), m0, m1) == FirstIn([w], m0 + (":" + m1)))
  {
    EndFlat(LastLead(q), NumberOf(q), NameOf(q), q.tid, q.v);
    var f := Then(NumberOf(q), Then(NameOf(q) + "1", Then("t4", Tail(q.tid, q.v))));
    OneWindow(LastLead(q), "e1", f, EndText(q), m0, m1);
  }

  /** The window of the slot, and that the slot lets other markers pass. */
  lemma SlotWindow(find: bool, id: string, g: Parts, m0: string, m1: string)
    requires IsMarker(m0, m1) && !(find && m0 == "6" && m1 == "target20:")
    requires !(!find && m0 == "9" && m1 == "info_hash20:")
    ensures var w := Window(id + (if find then "6" else "9"),
      (if find then ":target20:" else ":info_hash20:") + Flat(g));
      Follow(Slot(find, id, g), m0, m1) ==
        if FirstIn([w], m0 + (":" + m1)).Some? then FirstIn([w], m0 + (":" + m1)) else Follow(g, m0, m1)
  {
    hide IsMarker, MarkerForm, Follow, Flat, FirstIn, Clear;
    MarkerIsForm(m0, m1);
    SlotTexts(g);
    if find {
      OneWindow(id, "6", Then("target20", g), ":target20:" + Flat(g), m0, m1);
      if Clear(id, "6", m0, m1) { TargetPass(id, g, m0, m1); }
    } else {
      OneWindow(id, "9", Then("info_hash20", g), ":info_hash20:" + Flat(g), m0, m1);
      if Clear(id, "9", m0, m1) { HashPass(id, g, m0, m1); }
    }
  }

  lemma SlotTexts(g: Parts)
    ensures ":" + Flat(Then("target20", g)) == ":target20:" + Flat(g)
    ensures ":" + Flat(Then("info_hash20", g)) == ":info_hash20:" + Flat(g)
  {}

  lemma FirstInOne(w: Window, m: string)
    ensures FirstIn([w], m) == match Past(w.text, m) case None => None case Some(r) => Some(r + w.rest)
  {
    assert [w][1..] == [];
  }

  lemma FirstInTwo(a: Window, b: Window, m: string)
    ensures FirstIn([a, b], m) == if FirstIn([a], m).Some? then FirstIn([a], m) else FirstIn([b], m)
  {
    assert [a, b][1..] == [b] && [a][1..] == [];
  }

  lemma FirstInThree(a: Window, b: Window, c: Window, m: string)
    ensures FirstIn([a, b, c], m) == if FirstIn([a], m).Some? then FirstIn([a], m) else FirstIn([b, c], m)
  {
    assert [a, b, c][1..] == [b, c] && [a][1..] == [];
  }

  lemma MiddleSkipped(q: Query, m0: string, m1: string)
    requires IsMarker(m0, m1) && !InMiddle(q, m0, m1)
    ensures Follow(PartsOf(q), m0, m1) == Follow(Middle(q), m0, m1)
  {
    hide IsMarker, Middle, Follow, Head;
    MarkerIsForm(m0, m1);
    HeadPass(Middle(q), m0, m1);
  }

  /** The want list and what follows: the window of x, then the last part. */
  lemma WantsWindow(q: Query, m0: string, m1: string)
    requires q.LookupQuery? && IsMarker(m0, m1) && !InMiddle(q, m0, m1)
    ensures var w := Windows(q)[1];
      && Follow(WantsPart(q), m0, m1) ==
        (if FirstIn([w], m0 + (":" + m1)).Some? then FirstIn([w], m0 + (":" + m1)) else Follow(LastPart(q), m0, m1))
      && (FirstIn([w], m0 + (":" + m1)).None? ==> Clear(LastLead(q), "e1", m0, m1))
  {
    hide IsMarker, Follow, Flat, FirstIn, Clear, Wants, NameText, WantsText, End;
    MarkerIsForm(m0, m1);
    if q.want > 0 {
      WantsPartRest(q);
      OneWindow(q.x, "4", WantsPart(q).rest, WantsText(q.want, EndText(q))[1..], m0, m1);
      LastFlat(q);
      LeadIsText(q.x, q.want, m0, m1);
      if Clear(q.x, "4", m0, m1) { WantsPass(q.x, q.want, LastPart(q), m0, m1); }
    } else {
      WantsNone(q);
      LastWindow(q, m0, m1);
    }
  }

  lemma WantsNone(q: Query)
    requires q.LookupQuery? && q.want <= 0
    ensures WantsPart(q) == LastPart(q) && LastLead(q) == q.x
  {}

  lemma LeadIsText(x: string, want: int, m0: string, m1: string)
    requires want > 0
    ensures WantLead(x, want) != "" && Clear(WantLead(x, want), "e1", m0, m1)
  {
    PlainClear(WantLead(x, want), "e1", m0, m1);
  }

  /** Markers that are not printed among the arguments are met in a window or, all windows
      being clear, at the end. */
  lemma Reach(q: Query, m0: string, m1: string)
    requires Sized(q) && IsMarker(m0, m1) && !InMiddle(q, m0, m1)
    ensures Follow(PartsOf(q), m0, m1) ==
      if FirstIn(Windows(q), m0 + (":" + m1)).Some? then FirstIn(Windows(q), m0 + (":" + m1))
        else Follow(LastPart(q), m0, m1)
    ensures FirstIn(Windows(q), m0 + (":" + m1)).None? ==> Clear(LastLead(q), "e1", m0, m1)
  {
    MiddleSkipped(q, m0, m1);
    match q {
      case PingQuery(_, _, _) => LastWindow(q, m0, m1);
      case LookupQuery(_, _, _, _, _, _) => ReachLookup(q, m0, m1);
      case AnnounceQuery(_, _, _, _, _, _) => ReachAnnounce(q, m0, m1);
    }
  }

  lemma ReachLookup(q: Query, m0: string, m1: string)
    requires q.LookupQuery? && IsMarker(m0, m1) && !InMiddle(q, m0, m1)
    ensures Follow(Middle(q), m0, m1) ==
      if FirstIn(Windows(q), m0 + (":" + m1)).Some? then FirstIn(Windows(q), m0 + (":" + m1))
        else Follow(LastPart(q), m0, m1)
    ensures FirstIn(Windows(q), m0 + (":" + m1)).None? ==> Clear(LastLead(q), "e1", m0, m1)
  {
    hide IsMarker, Follow, Flat, FirstIn, Clear, Wants, NameText, WantsText, End, Slot;
    MarkerIsForm(m0, m1);
    WantsPartFlat(q);
    SlotWindow(q.find, q.id, WantsPart(q), m0, m1);
    WantsWindow(q, m0, m1);
    FirstInTwo(Windows(q)[0], Windows(q)[1], m0 + (":" + m1));
  }

  lemma ReachAnnounce(q: Query, m0: string, m1: string)
    requires q.AnnounceQuery? && IsMarker(m0, m1) && !InMiddle(q, m0, m1)
    ensures Follow(Middle(q), m0, m1) ==
      if FirstIn(Windows(q), m0 + (":" + m1)).Some? then FirstIn(Windows(q), m0 + (":" + m1))
        else Follow(LastPart(q), m0, m1)
    ensures FirstIn(Windows(q), m0 + (":" + m1)).None? ==> Clear(LastLead(q), "e1", m0, m1)
  {
    hide IsMarker, Follow, Flat, FirstIn, Clear, NameText, PortText, End, Slot, Digits;
    MarkerIsForm(m0, m1);
    PortFlat(q);
    PortPartFlat(q);
    var w := Windows(q);
    SlotIsHash(q.id, Port(q.x, q.port, LastPart(q)));
    SlotWindow(false, q.id, Port(q.x, q.port, LastPart(q)), m0, m1);
    PortWindow(q, m0, m1);
    LastWindow(q, m0, m1);
    FirstInThree(w[0], w[1], w[2], m0 + (":" + m1));
    FirstInTwo(w[1], w[2], m0 + (":" + m1));
  }

  lemma SlotIsHash(id: string, f: Parts)
    ensures Slot(false, id, f) == Hash(id, f)
  {}

  lemma PortPartFlat(q: Query)
    requires q.AnnounceQuery?
    ensures Flat(Port(q.x, q.port, LastPart(q))) == q.x + ("4" + PortText(q.port, q.token, EndText(q)))
  {
    hide Digits, NameText, PortText, End;
    PortFlat(q);
    PayFlat(q.x, "4", Then("porti" + Digits(q.port) + "e5", LastPart(q)));
  }

  lemma PortWindow(q: Query, m0: string, m1: string)
    requires q.AnnounceQuery? && IsMarker(m0, m1) && !InMiddle(q, m0, m1)
    ensures var w := Window(q.x + "4", PortText(q.port, q.token, EndText(q)));
      Follow(Port(q.x, q.port, LastPart(q)), m0, m1) ==
        if FirstIn([w], m0 + (":" + m1)).Some? then FirstIn([w], m0 + (":" + m1)) else Follow(LastPart(q), m0, m1)
  {
    hide IsMarker, Follow, Flat, FirstIn, Clear, NameText, PortText, End, Digits;
    MarkerIsForm(m0, m1);
    PortFlat(q);
    OneWindow(q.x, "4", Then("porti" + Digits(q.port) + "e5", LastPart(q)), PortText(q.port, q.token, EndText(q)), m0,
      m1);
    if Clear(q.x, "4", m0, m1) { PortPass(q.x, q.port, LastPart(q), m0, m1); }
  }
}
