/** The stretches that the four queries of dht.c are made of, and which markers each lets pass. */
module KrpcQueries {
  import opened Wrappers
  import opened Krpc
  import opened KrpcParts

  // A lead is what stands in front of a stretch without a colon in between: a payload, or
  // the end of a want list.

  function Head(f: Parts): Parts { Then("d1", Then("ad2", Then("id20", f))) }

  function Target(lead: string, f: Parts): Parts { Pay(lead, "6", Then("target20", f)) }

  function Hash(lead: string, f: Parts): Parts { Pay(lead, "9", Then("info_hash20", f)) }

  /** The port, with the length that stands in front of "token". */
  function Port(lead: string, port: nat, f: Parts): Parts {
    Pay(lead, "4", Then("porti" + Digits(port) + "e5", f))
  }

  function Name(lead: string, q: string, name: string, f: Parts): Parts {
    Pay(lead, "e1", Then(q, Then(name + "1", Then("t4", f))))
  }

  function Tail(tid: string, v: Option<string>): Parts {
    var last := Then("y1", Last("qe"));
    Pay(tid, "1", if v.Some? then Then("v4", Pay(v.value, "1", last)) else last)
  }

  /** The marker is not in the payload. */
  predicate Clear(x: string, behind: string, m0: string, m1: string) {
    Past(x + behind, m0 + (":" + m1)) == None
  }

  /** The markers of parse_message, cut at their first colon, have this form. */
  predicate MarkerForm(m0: string, m1: string) {
    && m0 in {"1", "2", "4", "5", "6", "9", "12"} && m1 != ""
    && (m0 == "4" ==> |m1| == 5 && m1[1] != 'i' && m1[4] != '1')
  }

  lemma EndsWithLead(lead: string, c: string, m0: string)
    requires |c| == 1 && m0 in {"1", "2", "4", "5", "6", "9", "12"}
    ensures Ends(lead + c, m0) ==> m0 == c || m0 == "12"
    ensures Ends(lead + c, m0) ==> c[0] == m0[|m0| - 1]
  {}

  lemma HeadPass(f: Parts, m0: string, m1: string)
    requires MarkerForm(m0, m1) && !(m0 == "1" && m1[0] == 'a') && !(m0 == "2" && m1[0] == 'i')
    ensures Follow(Head(f), m0, m1) == Follow(f, m0, m1)
  {
    var f1 := Then("id20", f);
    var f2 := Then("ad2", f1);
    assert Flat(f1)[0] == 'i' && Flat(f2)[0] == 'a';
    assert Follow(f1, m0, m1) == Follow(f, m0, m1);
    assert Follow(f2, m0, m1) == Follow(f1, m0, m1);
  }

  lemma TargetPass(lead: string, f: Parts, m0: string, m1: string)
    requires Clear(lead, "6", m0, m1) && MarkerForm(m0, m1) && !(m0 == "6" && m1[0] == 't')
    ensures Follow(Target(lead, f), m0, m1) == Follow(f, m0, m1)
  {
    EndsWithLead(lead, "6", m0);
    assert Follow(Then("target20", f), m0, m1) == Follow(f, m0, m1);
    assert Flat(Then("target20", f))[0] == 't';
  }

  lemma HashPass(lead: string, f: Parts, m0: string, m1: string)
    requires Clear(lead, "9", m0, m1) && MarkerForm(m0, m1) && !(m0 == "9" && m1[0] == 'i')
    ensures Follow(Hash(lead, f), m0, m1) == Follow(f, m0, m1)
  {
    EndsWithLead(lead, "9", m0);
    assert Follow(Then("info_hash20", f), m0, m1) == Follow(f, m0, m1);
    assert Flat(Then("info_hash20", f))[0] == 'i';
  }

  lemma PortPass(lead: string, port: nat, f: Parts, m0: string, m1: string)
    requires Clear(lead, "4", m0, m1) && MarkerForm(m0, m1) && !(m0 == "4" && m1[0] == 'p')
    requires !(m0 == "5" && m1[0] == 't')
    requires Flat(f) != "" && Flat(f)[0] == 't'
    ensures Follow(Port(lead, port, f), m0, m1) == Follow(f, m0, m1)
  {
    EndsWithLead(lead, "4", m0);
    EndsWithLead("porti" + Digits(port) + "e", "5", m0);
    assert "porti" + Digits(port) + "e5" == "porti" + Digits(port) + "e" + "5";
    var f2 := Then("porti" + Digits(port) + "e5", f);
    assert Flat(f2)[0] == 'p';
    assert Follow(f2, m0, m1) == Follow(f, m0, m1);
  }

  /** The name is followed by the transaction id. */
  lemma NameTail(name: string, f: Parts, m0: string, m1: string)
    requires MarkerForm(m0, m1) && (m0 == "1" ==> m1[0] != 't') && |Flat(f)| > 4 && Flat(f)[4] == '1'
    ensures Follow(Then(name + "1", Then("t4", f)), m0, m1) == Follow(f, m0, m1)
  {
    EndsWithLead(name, "1", m0);
    var f1 := Then("t4", f);
    assert Flat(f1)[0] == 't';
    assert Follow(f1, m0, m1) == Follow(f, m0, m1);
  }

  lemma NameFront(lead: string, q: string, name: string, f: Parts, m0: string, m1: string)
    requires Clear(lead, "e1", m0, m1) && MarkerForm(m0, m1) && Named(q, name) && !(m0 == "9" && m1[0] in {'f', 'g'})
    requires m0 == "1" ==> !Starts(Flat(Then(q, f)), m1)
    requires f.Then? && f.s == name + "1"
    ensures Follow(Pay(lead, "e1", Then(q, f)), m0, m1) == Follow(f, m0, m1)
  {
    hide Follow, Named;
    NameLength(q, name, f, m0, m1);
    NameLead(lead, Then(q, f), m0, m1);
  }

  lemma NameLead(lead: string, f: Parts, m0: string, m1: string)
    requires Clear(lead, "e1", m0, m1)
    requires m0 in {"1", "2", "4", "5", "6", "9", "12"} && (m0 == "1" ==> !Starts(Flat(f), m1))
    ensures Follow(Pay(lead, "e1", f), m0, m1) == Follow(f, m0, m1)
  {
    EndsWithLead(lead + "e", "1", m0);
    assert lead + "e1" == lead + "e" + "1";
  }

  lemma NameLength(q: string, name: string, f: Parts, m0: string, m1: string)
    requires MarkerForm(m0, m1) && Named(q, name) && !(m0 == "9" && m1[0] in {'f', 'g'})
    requires f.Then? && f.s == name + "1"
    ensures Follow(Then(q, f), m0, m1) == Follow(f, m0, m1)
  {
    assert Flat(f)[0] == name[0] && Flat(f)[1] == name[1];
    if q == "q4" {
      assert Ends(q, m0) ==> m0 == "4";
    } else if q == "q9" {
      assert Ends(q, m0) ==> m0 == "9";
    } else {
      assert !Ends(q, m0);
    }
  }

  lemma NamePass(lead: string, q: string, name: string, f: Parts, m0: string, m1: string)
    requires Clear(lead, "e1", m0, m1) && MarkerForm(m0, m1) && (m0 == "1" ==> m1[0] != 't' && m1[0] != 'q')
    requires Named(q, name) && !(m0 == "9" && m1[0] in {'f', 'g'}) && |Flat(f)| > 4 && Flat(f)[4] == '1'
    ensures Follow(Name(lead, q, name, f), m0, m1) == Follow(f, m0, m1)
  {
    var f2 := Then(name + "1", Then("t4", f));
    assert Starts(Flat(Then(q, f2)), m1) ==> Flat(Then(q, f2))[0] == m1[0];
    assert Flat(Then(q, f2))[0] == 'q';
    NameFront(lead, q, name, f2, m0, m1);
    NameTail(name, f, m0, m1);
  }

  predicate Named(q: string, name: string) {
    || (q == "q4" && name == "ping") || (q == "q9" && name == "find_node")
    || (q == "q9" && name == "get_peers") || (q == "q13" && name == "announce_peer")
  }

  // The end of every query. Its payloads are too short for the markers looked for there.

  predicate Sizes(tid: string, v: Option<string>) {
    |tid| == 4 && (v.Some? ==> |v.value| == 4)
  }

  lemma ShortClear(x: string, m0: string, m1: string)
    requires |x| == 4 && |m0| + |m1| >= 5
    ensures Clear(x, "1", m0, m1)
  {
    TooShort(x + "1", m0 + (":" + m1));
  }

  lemma TailNone(tid: string, v: Option<string>, m0: string, m1: string)
    requires MarkerForm(m0, m1) && Sizes(tid, v) && |m0| + |m1| >= 5
    requires m0 == "1" ==> m1[0] != 'v' && m1[0] != 'y' && (m1[0] == 'q' ==> |m1| > 2)
    ensures Follow(Tail(tid, v), m0, m1) == None
  {
    hide Past;
    ShortClear(tid, m0, m1);
    EndsWithLead(tid, "1", m0);
    var f0 := Last("qe");
    var f1 := Then("y1", f0);
    assert Follow(f1, m0, m1) == None;
    assert Flat(f1)[0] == 'y';
    if v.Some? {
      ShortClear(v.value, m0, m1);
      EndsWithLead(v.value, "1", m0);
      var f2 := Pay(v.value, "1", f1);
      assert Follow(f2, m0, m1) == None;
      assert Flat(f2)[4] == '1';
      var f3 := Then("v4", f2);
      assert Follow(f3, m0, m1) == None;
      assert Flat(f3)[0] == 'v';
    }
  }

  function End(lead: string, q: string, name: string, tid: string, v: Option<string>): Parts {
    Name(lead, q, name, Tail(tid, v))
  }

  lemma TailStarts(tid: string, v: Option<string>)
    requires Sizes(tid, v)
    ensures |Flat(Tail(tid, v))| > 4 && Flat(Tail(tid, v))[..4] == tid && Flat(Tail(tid, v))[4] == '1'
  {
    var f := Tail(tid, v);
    assert Flat(f) == tid + ("1" + (":" + Flat(f.rest)));
  }

  lemma EndNone(lead: string, q: string, name: string, tid: string, v: Option<string>, m0: string, m1: string)
    requires Clear(lead, "e1", m0, m1) && Named(q, name) && Sizes(tid, v) && MarkerForm(m0, m1) && |m0| + |m1| >= 5
    requires m0 == "1" ==> m1[0] !in {'t', 'q', 'v', 'y'}
    requires m0 == "9" ==> m1[0] !in {'f', 'g'}
    ensures Follow(End(lead, q, name, tid, v), m0, m1) == None
  {
    TailStarts(tid, v);
    NamePass(lead, q, name, Tail(tid, v), m0, m1);
    TailNone(tid, v, m0, m1);
  }

  lemma EndTid(lead: string, q: string, name: string, tid: string, v: Option<string>)
    requires Clear(lead, "e1", "1", "t") && Named(q, name) && Sizes(tid, v)
    ensures Follow(End(lead, q, name, tid, v), "1", "t") == Some("4:" + Flat(Tail(tid, v)))
  {
    hide Past;
    var f1 := Then("t4", Tail(tid, v));
    var f2 := Then(name + "1", f1);
    assert Flat(Then(q, f2))[0] == 'q';
    NameFront(lead, q, name, f2, "1", "t");
    assert Flat(f1) == "t" + ("4:" + Flat(Tail(tid, v)));
    assert Ends(name + "1", "1");
  }

  lemma EndType(lead: string, q: string, name: string, tid: string, v: Option<string>, m1: string)
    requires Clear(lead, "e1", "1", m1) && Named(q, name) && Sizes(tid, v) && m1 in {"y1:q", "y1:r", "y1:e"}
    ensures Follow(End(lead, q, name, tid, v), "1", m1).Some? <==> m1 == "y1:q"
  {
    TailStarts(tid, v);
    NamePass(lead, q, name, Tail(tid, v), "1", m1);
    TailType(tid, v, m1);
  }

  lemma TailType(tid: string, v: Option<string>, m1: string)
    requires Sizes(tid, v) && m1 in {"y1:q", "y1:r", "y1:e"}
    ensures Follow(Tail(tid, v), "1", m1).Some? <==> m1 == "y1:q"
  {
    hide Past;
    ShortClear(tid, "1", m1);
    if v.Some? {
      ShortClear(v.value, "1", m1);
      TypeAt(v.value, m1);
      VersionPass(tid, Pay(v.value, "1", Then("y1", Last("qe"))), m1);
    } else {
      TypeAt(tid, m1);
    }
  }

  lemma VersionPass(tid: string, f: Parts, m1: string)
    requires Clear(tid, "1", "1", m1) && m1 != "" && m1[0] == 'y'
    ensures Follow(Pay(tid, "1", Then("v4", f)), "1", m1) == Follow(f, "1", m1)
  {
    assert Flat(Then("v4", f))[0] == 'v';
    assert Follow(Then("v4", f), "1", m1) == Follow(f, "1", m1);
  }

  lemma TypeAt(s: string, m1: string)
    requires Clear(s, "1", "1", m1) && m1 in {"y1:q", "y1:r", "y1:e"}
    ensures Follow(Pay(s, "1", Then("y1", Last("qe"))), "1", m1).Some? <==> m1 == "y1:q"
  {
    var f1 := Then("y1", Last("qe"));
    assert Flat(f1) == "y1:qe";
    assert Ends(s + "1", "1");
    assert Starts("y1:qe", "y1:q") && "y1:qe"[3] == 'q';
    assert Follow(f1, "1", m1) == None;
  }

  /** The four names, as parse_message asks for them. */
  lemma EndKind(lead: string, q: string, name: string, tid: string, v: Option<string>, q1: string, name1: string)
    requires Clear(lead, "e1", "1", q1 + (":" + name1)) && Named(q, name) && Named(q1, name1) && Sizes(tid, v)
    ensures Follow(End(lead, q, name, tid, v), "1", q1 + (":" + name1)).Some? <==> name == name1
  {
    TailStarts(tid, v);
    var f2 := Then(name + "1", Then("t4", Tail(tid, v)));
    var m1 := q1 + (":" + name1);
    SameName(q, name, q1, name1, f2);
    if name == name1 {
      assert Ends(lead + "e1", "1");
    } else {
      NameFront(lead, q, name, f2, "1", m1);
      NameTail(name, Tail(tid, v), "1", m1);
      TailNone(tid, v, "1", m1);
    }
  }

  lemma SameName(q: string, name: string, q1: string, name1: string, f: Parts)
    requires Named(q, name) && Named(q1, name1) && f.Then? && f.s == name + "1"
    ensures Starts(Flat(Then(q, f)), q1 + (":" + name1)) <==> name == name1
  {
    var b, m := Flat(Then(q, f)), q1 + (":" + name1);
    assert Flat(f) == name + ("1" + (":" + Flat(f.rest)));
    assert b == q + (":" + (name + ("1" + (":" + Flat(f.rest)))));
    if name == name1 {
      assert b[..|m|] == m;
    } else if |b| >= |m| {
      assert b[..|m|][1] == b[1] && m[1] == q1[1];
      if q == q1 {
        assert b[..|m|][3] == name[0] && m[3] == name1[0];
      }
    }
  }
}
