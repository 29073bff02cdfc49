/** When parse_message of dht.c delivers what a query's sender meant: the exact condition, for all
    ids, hashes, tokens, transaction ids and versions of the senders' sizes. */
module KrpcExact {
  import opened Sequences
  import opened Wrappers
  import opened Krpc
  import opened KrpcQuery
  import opened KrpcMarkers
  import opened KrpcStray
  import opened KrpcFields

  /** The round trip of all four queries is exact if and only if no payload disturbs it. */
  lemma ExactRoundTrip(q: Query)
    requires Sized(q)
    ensures Parse(Print(q)) == Some(Sent(q)) <==> Undisturbed(q)
  {
    hide Past, Print, Stray, KindOf, TwentyAt, CountedAt, NumberAt, ValuesAt, WantAt, KindShows, Filled;
    KindIs(q);
    IdIs(q);
    TidIs(q);
    ArgumentsAre(q);
    ReplyFields(q);
    ParseIs(Print(q), Sent(q));
    SentFields(q);
  }

  lemma ParseIs(b: string, m: Message)
    ensures Parse(b) == Some(m) <==>
      && KindOf(b) == Some(m.kind) && Counted(b, "1:t", 15) == Some(m.tid) && Twenty(b, "2:id20:") == Some(m.id)
      && Twenty(b, "9:info_hash20:") == Some(m.infoHash) && Twenty(b, "6:target20:") == Some(m.target)
      && Number(b, "4:porti") == m.port && Number(b, "12:implied_porti") == m.impliedPort
      && Counted(b, "5:token", 127) == Some(m.token)
      && Counted(b, "5:nodes", 416) == Some(m.nodes) && Counted(b, "6:nodes6", 608) == Some(m.nodes6)
      && ValuesOf(b) == Some((m.values, m.values6)) && WantOf(b) == m.want
  {
    hide KindOf, Counted, Twenty, Number, ValuesOf, WantOf;
  }

  lemma SentFields(q: Query)
    ensures var m := Sent(q);
      m.kind == KindSent(q) && m.tid == q.tid && m.id == q.id && m.impliedPort == 0 && m.nodes == "" &&
        m.nodes6 == "" && m.values == "" && m.values6 == ""
  {}

  // Payloads without a marker.

  lemma {:induction false} QuietFirstIn(ws: seq<Window>, m0: string, m1: string, m: string)
    requires IsMarker(m0, m1) && m == m0 + (":" + m1) && forall k :: 0 <= k < |ws| ==> Quiet(ws[k].text)
    ensures FirstIn(ws, m) == None
  {
    hide Quiet, IsMarker;
    if ws != [] {
      QuietMarker(ws[0].text, m0, m1);
      QuietFirstIn(ws[1..], m0, m1, m);
    }
  }

  lemma QuietStray(q: Query, m0: string, m1: string, m: string)
    requires IsMarker(m0, m1) && m == m0 + (":" + m1) && QuietWindows(q)
    ensures Stray(q, m) == None
  {
    hide Quiet, IsMarker, Windows, FirstIn;
    AheadIsFront(q, m);
    QuietFirstIn(Ahead(q, m), m0, m1, m);
  }

  lemma AheadIsFront(q: Query, m: string)
    ensures |Ahead(q, m)| <= |Windows(q)| && forall k :: 0 <= k < |Ahead(q, m)| ==> Ahead(q, m)[k] == Windows(q)[k]
  {}

  predicate QuietWindows(q: Query) {
    forall k | 0 <= k < |Windows(q)| :: Quiet(Windows(q)[k].text)
  }

  lemma QuietUndisturbed(q: Query)
    requires QuietWindows(q)
    ensures Undisturbed(q)
  {
    hide QuietWindows, Stray, CountedAt, TwentyAt, NumberAt, WantAt, ValuesAt;
    QuietKinds(q);
    QuietStray(q, "1", "t", "1:t");
    QuietStray(q, "9", "info_hash20:", "9:info_hash20:");
    QuietStray(q, "6", "target20:", "6:target20:");
    QuietStray(q, "4", "porti", "4:porti");
    QuietStray(q, "5", "token", "5:token");
    QuietStray(q, "4", "wantl", "4:wantl");
    QuietReplies(q);
  }

  lemma QuietReplies(q: Query)
    requires QuietWindows(q)
    ensures RepliesEmpty(q)
  {
    hide QuietWindows, Stray;
    QuietStray(q, "12", "implied_porti", "12:implied_porti");
    QuietStray(q, "5", "nodes", "5:nodes");
    QuietStray(q, "6", "nodes6", "6:nodes6");
    QuietStray(q, "6", "valuesl", "6:valuesl");
  }

  lemma QuietKinds(q: Query)
    requires QuietWindows(q)
    ensures KindShows(q)
  {
    hide QuietWindows, Stray;
    KindShowsIs(q);
    QuietStray(q, "1", "y1:r", "1:y1:r");
    QuietStray(q, "1", "y1:e", "1:y1:e");
    QuietStray(q, "1", "q4:ping", "1:q4:ping");
    QuietStray(q, "1", "q9:find_node", "1:q9:find_node");
    QuietStray(q, "1", "q9:get_peers", "1:q9:get_peers");
  }

  /** Every query whose payloads hold no marker, nor complete one with the letters printed
      behind them, is read back exactly. */
  lemma QuietRoundTrip(q: Query)
    requires Sized(q) && QuietWindows(q)
    ensures Parse(Print(q)) == Some(Sent(q))
  {
    hide Parse, Print, Undisturbed, QuietWindows;
    QuietUndisturbed(q);
    ExactRoundTrip(q);
  }

  /** send_ping: only the id needs to be quiet. */
  lemma PingRoundTrip(id: string, tid: string, v: Option<string>)
    requires |id| == 20 && |tid| == 4 && (v.Some? ==> |v.value| == 4) && Quiet(id + "e1")
    ensures Parse(PrintPing(id, tid, v)) ==
      Some(Message(Ping, tid, id, Filled('\0', 20), 0, 0, Filled('\0', 20), "", "", "", "", "", 0))
  {
    hide Parse, Quiet;
    QuietRoundTrip(PingQuery(id, tid, v));
  }

  /** send_find_node and send_get_peers: the id and the argument do. */
  lemma LookupRoundTrip(find: bool, id: string, tid: string, x: string, want: int, v: Option<string>)
    requires |id| == 20 && |x| == 20 && |tid| == 4 && (v.Some? ==> |v.value| == 4)
    requires Quiet(id + (if find then "6" else "9")) && Quiet(x + (if want > 0 then "4" else "e1"))
    ensures Parse(if find then PrintFindNode(id, tid, x, want, v) else PrintGetPeers(id, tid, x, want, v)) ==
      Some(Message(if find then FindNode else GetPeers, tid, id, if find then Filled('\0', 20) else x, 0, 0,
                   if find then x else Filled('\0', 20), "", "", "", "", "", if want > 0 then want % 4 else 0))
  {
    hide Parse, Quiet, NameText, WantsText, PrintFindNode, PrintGetPeers;
    QuietRoundTrip(LookupQuery(find, id, tid, x, want, v));
  }

  // What the exact condition says of a ping.

  lemma PingStray(id: string, tid: string, v: Option<string>, m: string)
    ensures Stray(PingQuery(id, tid, v), m) ==
      match Past(id + "e1", m) case None => None case Some(r) => Some(r + NameText("q4", "ping", tid, v))
  {
    hide Past, FirstIn, NameText;
    FirstInOne(Window(id + "e1", NameText("q4", "ping", tid, v)), m);
  }

  /** A ping is taken for a ping if and only if its id, with the letters behind it, holds
      neither the marker of a reply nor that of an error. */
  lemma PingKind(id: string, tid: string, v: Option<string>)
    requires |id| == 20 && |tid| == 4 && (v.Some? ==> |v.value| == 4)
    ensures KindOf(PrintPing(id, tid, v)) == Some(Ping) <==>
      Past(id + "e1", "1:y1:r") == None && Past(id + "e1", "1:y1:e") == None
  {
    hide Past, KindOf, PrintPing, NameText, Stray;
    var q := PingQuery(id, tid, v);
    KindIs(q);
    KindShowsIs(q);
    PingStray(id, tid, v, "1:y1:r");
    PingStray(id, tid, v, "1:y1:e");
  }

  /** Its transaction id is read back if the id holds no "1:t", and otherwise what stands
      behind the first one is taken for it. */
  lemma PingTid(id: string, tid: string, v: Option<string>)
    requires |id| == 20 && |tid| == 4 && (v.Some? ==> |v.value| == 4)
    ensures Counted(PrintPing(id, tid, v), "1:t", 15) ==
      match Past(id + "e1", "1:t")
      case None => Some(tid)
      case Some(r) => CountedAt(Some(r + NameText("q4", "ping", tid, v)), 15)
  {
    hide Past, PrintPing, NameText, CountedAt, Stray;
    TidIs(PingQuery(id, tid, v));
    PingStray(id, tid, v, "1:t");
  }
}
