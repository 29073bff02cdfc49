/** The four queries of dht.c, what its parser should deliver for each, and the exact condition
    under which it does: no payload disturbs the search for a marker. */
module KrpcQuery {
  import opened Sequences
  import opened Wrappers
  import opened Krpc

  /** A query as its sender is called; find tells find_node from get_peers. */
  datatype Query =
    | PingQuery(id: string, tid: string, v: Option<string>)
    | LookupQuery(find: bool, id: string, tid: string, x: string, want: int, v: Option<string>)
    | AnnounceQuery(id: string, tid: string, x: string, port: nat, token: string, v: Option<string>)

  /** The sizes the senders work with: ids and hashes of 20 bytes, transaction ids and
      versions of 4, and a token as a search keeps it, where insert_search_node drops those
      of forty bytes and more and a node without one is not announced to. */
  predicate Sized(q: Query) {
    && |q.id| == 20 && |q.tid| == 4 && (q.v.Some? ==> |q.v.value| == 4)
    && (!q.PingQuery? ==> |q.x| == 20)
    && (q.AnnounceQuery? ==> 0 < |q.token| < 40 && 0 < q.port < 0x1_0000)
  }

  function Print(q: Query): string {
    match q
    case PingQuery(id, tid, v) => PrintPing(id, tid, v)
    case LookupQuery(find, id, tid, x, want, v) =>
      if find then PrintFindNode(id, tid, x, want, v) else PrintGetPeers(id, tid, x, want, v)
    case AnnounceQuery(id, tid, x, port, token, v) => PrintAnnouncePeer(id, tid, x, port, token, v)
  }

  function KindSent(q: Query): Kind {
    if q.PingQuery? then Ping else if q.AnnounceQuery? then AnnouncePeer else if q.find then FindNode else GetPeers
  }

  /** The message the query means. */
  function Sent(q: Query): Message {
    var none := Message(KindSent(q), q.tid, q.id, Filled('\0', 20), 0, 0, Filled('\0', 20), "", "", "", "", "", 0);
    match q
    case PingQuery(_, _, _) => none
    case LookupQuery(find, _, _, x, want, _) =>
      var w := if want > 0 then want % 4 else 0;
      if find then none.(target := x, want := w) else none.(infoHash := x, want := w)
    case AnnounceQuery(_, _, x, port, token, _) => none.(infoHash := x, port := port, token := token)
  }

  // Where a payload can disturb.

  /** A payload with the letters printed behind it up to the next colon, and the rest of the
      message from that colon on. A token comes with its length in front, because a marker
      can begin there. */
  datatype Window = Window(text: string, rest: string)

  /** The rest of a query behind its dictionary of arguments. */
  function NameText(q: string, name: string, tid: string, v: Option<string>): string {
    ":" + (q + (":" + (name + ("1:t4:" + (tid + (Version(v) + "1:y1:qe"))))))
  }

  /** The want list and what follows. */
  function WantsText(want: int, end: string): (t: string)
    ensures |t| >= 2
  {
    WantList(want) + ("e1" + end)
  }

  function PortText(port: nat, token: string, end: string): string {
    ":porti" + (Digits(port) + ("e5:token" + (Digits(|token|) + (":" + (token + ("e1" + end))))))
  }

  /** The payloads that can hold a marker. The transaction id and the version are too
      short for any marker that is still searched for behind them. */
  function Windows(q: Query): seq<Window> {
    match q
    case PingQuery(id, tid, v) => [Window(id + "e1", NameText("q4", "ping", tid, v))]
    case LookupQuery(find, id, tid, x, want, v) =>
      var end := NameText("q9", if find then "find_node" else "get_peers", tid, v);
      var slot := if find then ":target20:" else ":info_hash20:";
      [Window(id + (if find then "6" else "9"), slot + (x + WantsText(want, end))),
       if want > 0 then Window(x + "4", WantsText(want, end)[1..]) else Window(x + "e1", end)]
    case AnnounceQuery(id, tid, x, port, token, v) =>
      var end := NameText("q13", "announce_peer", tid, v);
      [Window(id + "9", ":info_hash20:" + (x + ("4" + PortText(port, token, end)))),
       Window(x + "4", PortText(port, token, end)),
       Window("token" + Digits(|token|) + ":" + token + "e1", end)]
  }

  /** The windows that come before the place where the marker is printed; all of them
      when it is not printed. */
  function Ahead(q: Query, m: string): seq<Window> {
    var ws := Windows(q);
    if (m == "6:target20:" && q.LookupQuery? && q.find) ||
      (m == "9:info_hash20:" && (q.AnnounceQuery? || (q.LookupQuery? && !q.find))) then ws[..1]
    else if q.AnnounceQuery? && (m == "4:porti" || m == "5:token") then ws[..2]
    else ws
  }

  /** What follows the first occurrence of a marker in the windows. */
  function FirstIn(ws: seq<Window>, m: string): Option<string> {
    if ws == [] then None
    else match Past(ws[0].text, m)
      case Some(r) => Some(r + ws[0].rest)
      case None => FirstIn(ws[1..], m)
  }

  /** What follows the marker where the parser finds it in a payload first. */
  function Stray(q: Query, m: string): Option<string> { FirstIn(Ahead(q, m), m) }

  /** The markers of the other kinds, which the parser asks for before the query's own. */
  function OtherKinds(k: Kind): seq<string> {
    ["1:y1:r", "1:y1:e"]
    + (if k == Ping then [] else ["1:q4:ping"])
    + (if k == GetPeers || k == AnnouncePeer then ["1:q9:find_node"] else [])
    + (if k == AnnouncePeer then ["1:q9:get_peers"] else [])
  }

  /** No payload turns the query into another kind of message. */
  predicate KindShows(q: Query) {
    forall k | 0 <= k < |OtherKinds(KindSent(q))| :: Stray(q, OtherKinds(KindSent(q))[k]).None?
  }

  /** Either no payload holds the transaction id's marker, or it spells the id behind it. */
  predicate TidShows(q: Query) {
    Stray(q, "1:t").None? || CountedAt(Stray(q, "1:t"), 15) == Some(q.tid)
  }

  /** The same for the arguments, sent or not. */
  predicate ArgumentsShow(q: Query) {
    var e := Sent(q);
    && (Stray(q, "9:info_hash20:").None? || TwentyAt(Stray(q, "9:info_hash20:")) == Some(e.infoHash))
    && (Stray(q, "6:target20:").None? || TwentyAt(Stray(q, "6:target20:")) == Some(e.target))
    && (Stray(q, "4:porti").None? || NumberAt(Stray(q, "4:porti")) == e.port)
    && (Stray(q, "5:token").None? || CountedAt(Stray(q, "5:token"), 127) == Some(e.token))
    && (Stray(q, "4:wantl").None? || WantAt(Stray(q, "4:wantl")) == e.want)
  }

  /** The same for the fields that only replies have. */
  predicate RepliesEmpty(q: Query) {
    && NumberAt(Stray(q, "12:implied_porti")) == 0
    && CountedAt(Stray(q, "5:nodes"), 416) == Some("") && CountedAt(Stray(q, "6:nodes6"), 608) == Some("")
    && ValuesAt(Stray(q, "6:valuesl")) == Some(("", ""))
  }

  predicate Undisturbed(q: Query) {
    KindShows(q) && TidShows(q) && ArgumentsShow(q) && RepliesEmpty(q)
  }
}
