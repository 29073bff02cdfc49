/** The messages that dht.c prints are the bencoded dictionaries of BEP 5, with their keys in
    order. */
module KrpcBencode {
  import opened Wrappers
  import opened Krpc
  import opened KrpcQuery
  import opened KrpcValues
  import opened KrpcReply

  // Bencoding: byte strings, lists and dictionaries of what is encoded already.

  function Str(s: string): string { Digits(|s|) + ":" + s }

  function Strings(vs: seq<string>): string { if vs == [] then "" else Str(vs[0]) + Strings(vs[1..]) }

  function Entries(es: seq<(string, string)>): string {
    if es == [] then "" else Str(es[0].0) + es[0].1 + Entries(es[1..])
  }

  function List(vs: seq<string>): string { "l" + Strings(vs) + "e" }

  function Dict(es: seq<(string, string)>): string { "d" + Entries(es) + "e" }

  /** The entry of an optional field. */
  function Maybe(key: string, x: string): seq<(string, string)> { if x == "" then [] else [(key, Str(x))] }

  function VersionEntry(v: Option<string>): seq<(string, string)> { if v.Some? then [("v", Str(v.value))] else [] }

  /** A query: its arguments, name, transaction id and version. */
  function Message(args: seq<(string, string)>, name: string, tid: string, v: Option<string>): string {
    Dict([("a", Dict(args)), ("q", Str(name)), ("t", Str(tid))] + VersionEntry(v) + [("y", Str("q"))])
  }

  /** The want argument: which address families. */
  function WantEntry(want: int): seq<(string, string)> {
    if want <= 0 then []
    else [("want", List((if want % 2 == 1 then ["n4"] else []) + if want / 2 % 2 == 1 then ["n6"] else []))]
  }

  function Args(q: Query): seq<(string, string)> {
    match q
    case PingQuery(id, _, _) => [("id", Str(id))]
    case LookupQuery(find, id, _, x, want, _) =>
      [("id", Str(id)), (if find then "target" else "info_hash", Str(x))] + WantEntry(want)
    case AnnounceQuery(id, _, x, port, token, _) =>
      [("id", Str(id)), ("info_hash", Str(x)), ("port", "i" + Digits(port) + "e"), ("token", Str(token))]
  }

  lemma EntriesAppend(a: seq<(string, string)>, b: seq<(string, string)>)
    ensures Entries(a + b) == Entries(a) + Entries(b)
  {
    hide Str;
    if a == [] {
      assert a + b == b;
    } else {
      assert (a + b)[0] == a[0] && (a + b)[1..] == a[1..] + b;
      EntriesAppend(a[1..], b);
      var x, y, z := Str(a[0].0) + a[0].1, Entries(a[1..]), Entries(b);
      assert x + (y + z) == x + y + z;
    }
  }

  lemma OneEntry(k: string, v: string)
    ensures Entries([(k, v)]) == Str(k) + v && Entries([]) == ""
  {
    assert [(k, v)][1..] == [];
  }

  lemma TwoDigits()
    ensures Digits(20) == "20" && Digits(13) == "13" && Digits(9) == "9" && Digits(1) == "1" && Digits(2) == "2"
    ensures Digits(4) == "4" && Digits(5) == "5" && Digits(6) == "6"
  {
    assert Digits(1) == "1" && Digits(2) == "2";
  }

  lemma Literals()
    ensures Str("a") == "1:a" && Str("q") == "1:q" && Str("t") == "1:t" && Str("v") == "1:v" && Str("y") == "1:y"
    ensures Str("id") == "2:id" && Str("n4") == "2:n4" && Str("n6") == "2:n6" && Str("want") == "4:want"
    ensures Str("port") == "4:port" && Str("token") == "5:token" && Str("target") == "6:target"
    ensures Str("info_hash") == "9:info_hash" && Str("ping") == "4:ping"
    ensures Str("find_node") == "9:find_node" && Str("get_peers") == "9:get_peers"
    ensures Str("announce_peer") == "13:announce_peer"
  {
    hide Digits;
    TwoDigits();
  }

  lemma VersionText(v: Option<string>)
    requires v.Some? ==> |v.value| == 4
    ensures Entries(VersionEntry(v)) == Version(v)
  {
    hide Digits;
    Literals();
    TwoDigits();
    if v.Some? {
      OneEntry("v", Str(v.value));
      assert "1:v" + ("4" + ":" + v.value) == "1:v4:" + v.value;
    }
  }

  /** The text of a query around its arguments. */
  lemma MessageText(args: seq<(string, string)>, name: string, tid: string, v: Option<string>)
    requires v.Some? ==> |v.value| == 4
    ensures Message(args, name, tid, v) ==
      "d1:ad" + (Entries(args) +
        ("e1:q" + (Str(name) + ("1:t" + (Digits(|tid|) + ":" + (tid + (Version(v) + "1:y1:qe")))))))
  {
    hide Digits, Str, Version, Entries;
    var ve, last := VersionEntry(v), [("y", Str("q"))];
    var front := [("a", Dict(args)), ("q", Str(name)), ("t", Str(tid))];
    EntriesAppend(front + ve, last);
    EntriesAppend(front, ve);
    VersionText(v);
    Literals();
    OneEntry("y", Str("q"));
    FrontText(Dict(args), name, tid);
    Around(Entries(args), Str(name), Digits(|tid|), tid, Version(v));
    assert Str(tid) == Digits(|tid|) + ":" + tid by { StrIs(tid); }
  }

  lemma StrIs(s: string)
    ensures Str(s) == Digits(|s|) + ":" + s
  {}

  lemma FrontText(a: string, name: string, tid: string)
    ensures Entries([("a", a), ("q", Str(name)), ("t", Str(tid))]) ==
      "1:a" + a + ("1:q" + Str(name) + ("1:t" + Str(tid)))
  {
    hide Digits, Str;
    Literals();
    var e1, e2, e3 := ("a", a), ("q", Str(name)), ("t", Str(tid));
    OneEntry("t", Str(tid));
    assert [e2, e3][1..] == [e3] && [e1, e2, e3][1..] == [e2, e3];
    assert Entries([e2, e3]) == "1:q" + Str(name) + ("1:t" + Str(tid));
  }

  lemma Around(args: string, name: string, d: string, tid: string, v: string)
    ensures var t := d + ":" + tid;
      "d" + ("1:a" + ("d" + args + "e") + ("1:q" + name + ("1:t" + t)) + v + ("1:y" + "1:q")) + "e" ==
      "d1:ad" + (args + ("e1:q" + (name + ("1:t" + (d + ":" + (tid + (v + "1:y1:qe")))))))
  {
    var t := d + ":" + tid;
    var end := v + "1:y1:qe";
    assert d + ":" + (tid + end) == t + end;
    assert v + ("1:y" + "1:q") + "e" == end;
    assert "1:q" + name + ("1:t" + t) + end == "1:q" + (name + ("1:t" + (t + end)));
    assert "e" + ("1:q" + (name + ("1:t" + (t + end)))) == "e1:q" + (name + ("1:t" + (t + end)));
  }

  lemma WantText(want: int)
    ensures Entries(WantEntry(want)) == WantList(want)
  {
    hide Digits, Str;
    Literals();
    if want > 0 {
      var a, b := if want % 2 == 1 then ["n4"] else [], if want / 2 % 2 == 1 then ["n6"] else [];
      OneEntry("want", List(a + b));
      FlagStrings(a, b);
      assert Strings(a + b) == (if want % 2 == 1 then "2:n4" else "") + (if want / 2 % 2 == 1 then "2:n6" else "");
      assert "4:want" + ("l" + Strings(a + b) + "e") == "4:wantl" + Strings(a + b) + "e";
    } else {
      OneEntry("", "");
    }
  }

  lemma FlagStrings(a: seq<string>, b: seq<string>)
    requires a in [[], ["n4"]] && b in [[], ["n6"]]
    ensures Strings(a + b) == (if a == [] then "" else "2:n4") + (if b == [] then "" else "2:n6")
  {
    hide Str;
    Literals();
    assert ["n4"][1..] == [] && ["n6"][1..] == [] && ["n4", "n6"][1..] == ["n6"];
    if a == [] { assert a + b == b; } else if b == [] { assert a + b == a; } else { assert a + b == ["n4", "n6"]; }
  }

  lemma TwentyText(s: string)
    requires |s| == 20
    ensures Str(s) == "20:" + s
  {
    hide Digits;
    TwoDigits();
  }

  lemma PingArgs(id: string)
    requires |id| == 20
    ensures Entries([("id", Str(id))]) == "2:id20:" + id
  {
    hide Digits, Str, Entries;
    Literals();
    TwentyText(id);
    OneEntry("id", Str(id));
    assert "2:id" + ("20:" + id) == "2:id20:" + id;
  }

  /** The id and one more argument of twenty bytes. */
  lemma TwoArgs(id: string, key: string, x: string)
    requires |id| == 20 && |x| == 20
    ensures Entries([("id", Str(id)), (key, Str(x))]) == "2:id20:" + id + (Str(key) + ("20:" + x))
  {
    hide Digits, Str, Entries;
    TwentyText(x);
    PingArgs(id);
    OneEntry(key, Str(x));
    EntriesAppend([("id", Str(id))], [(key, Str(x))]);
    assert [("id", Str(id))] + [(key, Str(x))] == [("id", Str(id)), (key, Str(x))];
  }

  lemma LookupArgs(find: bool, id: string, x: string, want: int)
    requires |id| == 20 && |x| == 20
    ensures Entries([("id", Str(id)), (if find then "target" else "info_hash", Str(x))] + WantEntry(want)) ==
      "2:id20:" + id + ((if find then "6:target20:" else "9:info_hash20:") + x + WantList(want))
  {
    hide Digits, Str, Entries, WantEntry, WantList;
    Literals();
    var key := if find then "target" else "info_hash";
    TwoArgs(id, key, x);
    WantText(want);
    EntriesAppend([("id", Str(id)), (key, Str(x))], WantEntry(want));
    assert Str(key) + ("20:" + x) == (if find then "6:target20:" else "9:info_hash20:") + x;
  }

  lemma AnnounceArgs(id: string, x: string, port: nat, token: string)
    requires |id| == 20 && |x| == 20
    ensures Entries([("id", Str(id)), ("info_hash", Str(x)), ("port", "i" + Digits(port) + "e"),
      ("token", Str(token))]) ==
      "2:id20:" + id + ("9:info_hash20:" + x + ("4:porti" + Digits(port) + "e5:token" + Digits(|token|) + ":" + token))
  {
    hide Digits, Str, Entries;
    Literals();
    StrIs(token);
    TwoArgs(id, "info_hash", x);
    var front := [("id", Str(id)), ("info_hash", Str(x))];
    var p, t := [("port", "i" + Digits(port) + "e")], [("token", Str(token))];
    EntriesAppend(front, p + t);
    EntriesAppend(p, t);
    OneEntry("port", "i" + Digits(port) + "e");
    OneEntry("token", Str(token));
    PortTokenText(Digits(port), Digits(|token|), token);
    assert front + (p + t) ==
      [("id", Str(id)), ("info_hash", Str(x)), ("port", "i" + Digits(port) + "e"), ("token", Str(token))];
    assert "9:info_hash" + ("20:" + x) == "9:info_hash20:" + x;
  }

  lemma PortTokenText(p: string, d: string, token: string)
    ensures "4:port" + ("i" + p + "e") + ("5:token" + (d + ":" + token)) == "4:porti" + p + "e5:token" + d + ":" + token
  {
    assert "e5:token" == "e" + "5:token" && "4:porti" == "4:port" + "i";
  }

  /** The arguments and the rest, put together as the senders do. */
  lemma Glue(id: string, more: string, name: string, d: string, end: string)
    ensures "d1:ad" + ("2:id20:" + id + more + ("e1:q" + (name + ("1:t" + (d + ":" + end))))) ==
      "d1:ad2:id20:" + id + (more + ("e1:q" + name + "1:t" + d + ":" + end))
  {
    assert "d1:ad2:id20:" == "d1:ad" + "2:id20:";
    assert "e1:q" + (name + ("1:t" + (d + ":" + end))) == "e1:q" + name + "1:t" + d + ":" + end;
  }

  lemma NoMore(x: string)
    ensures x + "" == x && "" + x == x
  {}

  lemma PingIsBencode(id: string, tid: string, v: Option<string>)
    requires |id| == 20 && (v.Some? ==> |v.value| == 4)
    ensures PrintPing(id, tid, v) == Message([("id", Str(id))], "ping", tid, v)
  {
    hide Digits, Str, Entries, Version;
    Literals();
    PingArgs(id);
    MessageText([("id", Str(id))], "ping", tid, v);
    var end := tid + (Version(v) + "1:y1:qe");
    Glue(id, "", "4:ping", Digits(|tid|), end);
    NoMore("2:id20:" + id);
    NoMore("e1:q" + "4:ping" + "1:t" + Digits(|tid|) + ":" + end);
    assert "e1:q" + "4:ping" + "1:t" == "e1:q4:ping1:t";
  }

  lemma LookupIsBencode(find: bool, id: string, tid: string, x: string, want: int, v: Option<string>)
    requires |id| == 20 && |x| == 20 && (v.Some? ==> |v.value| == 4)
    ensures (if find then PrintFindNode(id, tid, x, want, v) else PrintGetPeers(id, tid, x, want, v)) ==
      Message([("id", Str(id)), (if find then "target" else "info_hash", Str(x))] + WantEntry(want),
        if find then "find_node" else "get_peers", tid, v)
  {
    hide Digits, Str, Entries, Version, WantList, WantEntry;
    Literals();
    LookupArgs(find, id, x, want);
    var args := [("id", Str(id)), (if find then "target" else "info_hash", Str(x))] + WantEntry(want);
    var name := if find then "find_node" else "get_peers";
    MessageText(args, name, tid, v);
    var end := tid + (Version(v) + "1:y1:qe");
    var slot := (if find then "6:target20:" else "9:info_hash20:") + x;
    Glue(id, slot + WantList(want), Str(name), Digits(|tid|), end);
    assert "e1:q" + Str(name) + "1:t" == if find then "e1:q9:find_node1:t" else "e1:q9:get_peers1:t";
    Middle(slot, WantList(want), "e1:q" + Str(name) + "1:t" + Digits(|tid|) + ":" + end);
  }

  lemma Middle(a: string, b: string, c: string)
    ensures a + b + c == a + (b + c)
  {}

  lemma AnnounceIsBencode(id: string, tid: string, x: string, port: nat, token: string, v: Option<string>)
    requires |id| == 20 && |x| == 20 && (v.Some? ==> |v.value| == 4)
    ensures PrintAnnouncePeer(id, tid, x, port, token, v) ==
      Message([("id", Str(id)), ("info_hash", Str(x)), ("port", "i" + Digits(port) + "e"), ("token", Str(token))],
        "announce_peer", tid, v)
  {
    hide Digits, Str, Entries, Version;
    Literals();
    AnnounceArgs(id, x, port, token);
    var args := [("id", Str(id)), ("info_hash", Str(x)), ("port", "i" + Digits(port) + "e"), ("token", Str(token))];
    MessageText(args, "announce_peer", tid, v);
    var end := tid + (Version(v) + "1:y1:qe");
    var pt := "4:porti" + Digits(port) + "e5:token" + Digits(|token|) + ":" + token;
    Glue(id, "9:info_hash20:" + x + pt, "13:announce_peer", Digits(|tid|), end);
    AnnounceName();
    Middle("9:info_hash20:" + x, pt, "e1:q13:announce_peer1:t" + Digits(|tid|) + ":" + end);
  }

  lemma AnnounceName()
    ensures "e1:q" + "13:announce_peer" + "1:t" == "e1:q13:announce_peer1:t"
  {}

  function NameSent(q: Query): string {
    match KindSent(q)
    case Ping => "ping"
    case FindNode => "find_node"
    case GetPeers => "get_peers"
    case _ => "announce_peer"
  }

  /** Each query is the bencoded dictionary that BEP 5 asks for. */
  lemma QueryIsBencode(q: Query)
    requires Sized(q)
    ensures Print(q) == Message(Args(q), NameSent(q), q.tid, q.v)
  {
    hide Digits, Str, Entries, Version, WantList, WantEntry, Message, PrintPing, PrintFindNode, PrintGetPeers;
    match q
    case PingQuery(id, tid, v) => PingIsBencode(id, tid, v);
    case LookupQuery(find, id, tid, x, want, v) => LookupIsBencode(find, id, tid, x, want, v);
    case AnnounceQuery(id, tid, x, port, token, v) => AnnounceIsBencode(id, tid, x, port, token, v);
  }

  // Replies.

  function ReplyFields(a: Answer): seq<(string, string)> {
    [("id", Str(a.id))] + (Maybe("nodes", a.nodes) + (Maybe("nodes6", a.nodes6) + (Maybe("token", a.token)
      + (if a.values.Some? then [("values", List(a.values.value))] else []))))
  }

  function ReplyMessage(fields: seq<(string, string)>, tid: string, v: Option<string>): string {
    Dict([("r", Dict(fields)), ("t", Str(tid))] + VersionEntry(v) + [("y", Str("r"))])
  }

  lemma ReplyLiterals()
    ensures Str("r") == "1:r" && Str("nodes") == "5:nodes" && Str("nodes6") == "6:nodes6" && Str("values") == "6:values"
  {
    hide Digits;
    TwoDigits();
  }

  lemma MaybeText(key: string, m: string, x: string)
    requires Str(key) == m
    ensures Entries(Maybe(key, x)) == Optional(m, x)
  {
    hide Digits, Str, Entries;
    OneEntry(key, Str(x));
    StrIs(x);
    if x != "" { assert m + (Digits(|x|) + ":" + x) == m + Digits(|x|) + ":" + x; }
  }

  lemma {:induction false} StringsText(vs: seq<string>)
    ensures Strings(vs) == ListText(vs)
  {
    hide Digits;
    if vs != [] { StringsText(vs[1..]); }
  }

  lemma ReplyFieldsText(a: Answer)
    requires |a.id| == 20
    ensures Entries(ReplyFields(a)) == "2:id20:" + a.id + OptionalText(a)
  {
    hide Digits, Str, Entries, Maybe, Optional, Strings, ListText;
    Literals();
    ReplyLiterals();
    PingArgs(a.id);
    var n, n6, t := Maybe("nodes", a.nodes), Maybe("nodes6", a.nodes6), Maybe("token", a.token);
    var vs := if a.values.Some? then [("values", List(a.values.value))] else [];
    EntriesAppend([("id", Str(a.id))], n + (n6 + (t + vs)));
    EntriesAppend(n, n6 + (t + vs));
    EntriesAppend(n6, t + vs);
    EntriesAppend(t, vs);
    MaybeText("nodes", "5:nodes", a.nodes);
    MaybeText("nodes6", "6:nodes6", a.nodes6);
    MaybeText("token", "5:token", a.token);
    if a.values.Some? {
      StringsText(a.values.value);
      OneEntry("values", List(a.values.value));
      assert "6:values" + ("l" + Strings(a.values.value) + "e") == "6:valuesl" + Strings(a.values.value) + "e";
    } else {
      OneEntry("", "");
    }
  }

  lemma ReplyAround(fields: string, t: string, v: string)
    ensures "d" + ("1:r" + ("d" + fields + "e") + ("1:t" + t) + v + ("1:y" + "1:r")) + "e" ==
      "d1:rd" + (fields + ("e1:" + ("t" + t + (v + "1:y1:re"))))
  {
    var end := v + "1:y1:re";
    assert v + ("1:y" + "1:r") + "e" == end;
    assert "e" + ("1:t" + t + end) == "e1:" + ("t" + t + end);
  }

  /** Each reply is the bencoded dictionary that BEP 5 asks for. */
  lemma ReplyIsBencode(a: Answer)
    requires |a.id| == 20 && (a.v.Some? ==> |a.v.value| == 4)
    ensures PrintReply(a) == ReplyMessage(ReplyFields(a), a.tid, a.v)
  {
    hide Digits, Str, Entries, Version, VersionEntry, OptionalText, ReplyFields;
    Literals();
    ReplyLiterals();
    ReplyFieldsText(a);
    var ve, last := VersionEntry(a.v), [("y", Str("r"))];
    var r, t := ("r", Dict(ReplyFields(a))), ("t", Str(a.tid));
    EntriesAppend([r, t] + ve, last);
    EntriesAppend([r, t], ve);
    EntriesAppend([r], [t]);
    assert [r] + [t] == [r, t];
    OneEntry(r.0, r.1);
    OneEntry(t.0, t.1);
    OneEntry("y", Str("r"));
    VersionText(a.v);
    StrIs(a.tid);
    var fields := Entries(ReplyFields(a));
    ReplyAround(fields, Str(a.tid), Version(a.v));
    var end := "e1:" + (TidText(a.tid) + (Version(a.v) + "1:y1:re"));
    assert "t" + Str(a.tid) == TidText(a.tid);
    assert "d1:rd" + ("2:id20:" + a.id + OptionalText(a) + end) == "d1:rd2:id20:" + (a.id + (OptionalText(a) + end));
  }
}
