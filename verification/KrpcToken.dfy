/** The token in an announce_peer of dht.c is another node's choice of bytes and stands behind its
    printed length: what the exact condition says of it. */
module KrpcToken {
  import opened Sequences
  import opened Wrappers
  import opened Krpc
  import opened KrpcQuery
  import opened KrpcParts
  import opened KrpcMarkers
  import opened KrpcMessages
  import opened KrpcStray
  import opened KrpcFields
  import opened KrpcExact

  /** An announce_peer whose id and info hash hold no marker: all depends on the token. */
  predicate QuietFront(q: Query) {
    q.AnnounceQuery? && Quiet(q.id + "9") && Quiet(q.x + "4")
  }

  /** The token with the text around it. */
  function TokenText(token: string): string { "token" + Digits(|token|) + ":" + token + "e1" }

  function AnnounceEnd(q: Query): string { NameText("q13", "announce_peer", q.tid, q.v) }

  /** What the parser finds in the token's window. */
  function InToken(q: Query, m: string): Option<string>
    requires q.AnnounceQuery?
  {
    match Past(TokenText(q.token), m)
    case None => None
    case Some(r) => Some(r + AnnounceEnd(q))
  }

  lemma TokenStray(q: Query, m0: string, m1: string, m: string)
    requires QuietFront(q) && IsMarker(m0, m1) && m == m0 + (":" + m1) && m !in {"9:info_hash20:", "4:porti", "5:token"}
    ensures Stray(q, m) == InToken(q, m)
  {
    hide Past, IsMarker, FirstIn, NameText, PortText, Digits, Quiet;
    var w := Windows(q);
    QuietMarker(q.id + "9", m0, m1);
    QuietMarker(q.x + "4", m0, m1);
    FirstInThree(w[0], w[1], w[2], m);
    FirstInTwo(w[1], w[2], m);
    FirstInOne(w[0], m);
    FirstInOne(w[1], m);
    FirstInOne(w[2], m);
  }

  /** The fields printed before the token are read. */
  lemma FrontShows(q: Query)
    requires QuietFront(q)
    ensures Stray(q, "9:info_hash20:") == None && Stray(q, "4:porti") == None && Stray(q, "5:token") == None
  {
    hide Past, FirstIn, NameText, PortText, Digits, Quiet;
    var w := Windows(q);
    FrontQuiet(w[..1], "9", "info_hash20:", "9:info_hash20:");
    FrontQuiet(w[..2], "4", "porti", "4:porti");
    FrontQuiet(w[..2], "5", "token", "5:token");
  }

  lemma FrontQuiet(ws: seq<Window>, m0: string, m1: string, m: string)
    requires IsMarker(m0, m1) && m == m0 + (":" + m1) && forall k :: 0 <= k < |ws| ==> Quiet(ws[k].text)
    ensures FirstIn(ws, m) == None
  {
    QuietFirstIn(ws, m0, m1, m);
  }

  /** The exact condition, said of the token alone. */
  predicate TokenShows(q: Query)
    requires q.AnnounceQuery?
  {
    && InToken(q, "1:y1:r").None? && InToken(q, "1:y1:e").None? && InToken(q, "1:q4:ping").None?
    && InToken(q, "1:q9:find_node").None? && InToken(q, "1:q9:get_peers").None?
    && (InToken(q, "1:t").None? || CountedAt(InToken(q, "1:t"), 15) == Some(q.tid))
    && TwentyAt(InToken(q, "6:target20:")) == Some(Filled('\0', 20)) && NumberAt(InToken(q, "12:implied_porti")) == 0
    && CountedAt(InToken(q, "5:nodes"), 416) == Some("") && CountedAt(InToken(q, "6:nodes6"), 608) == Some("")
    && ValuesAt(InToken(q, "6:valuesl")) == Some(("", "")) && WantAt(InToken(q, "4:wantl")) == 0
  }

  /** send_announce_peer, read back: the exact condition, for tokens of any bytes. */
  lemma AnnounceRoundTrip(q: Query)
    requires Sized(q) && QuietFront(q)
    ensures Parse(Print(q)) == Some(Sent(q)) <==> TokenShows(q)
  {
    hide Parse, Print, Stray, InToken, CountedAt, NumberAt, ValuesAt, Quiet, KindShows, Filled;
    ExactRoundTrip(q);
    KindShowsIs(q);
    FrontShows(q);
    TokenKinds(q);
    TokenFields(q);
    NothingRead();
    SentFields(q);
  }

  lemma TokenKinds(q: Query)
    requires QuietFront(q)
    ensures Stray(q, "1:y1:r") == InToken(q, "1:y1:r") && Stray(q, "1:y1:e") == InToken(q, "1:y1:e")
    ensures Stray(q, "1:q4:ping") == InToken(q, "1:q4:ping")
    ensures Stray(q, "1:q9:find_node") == InToken(q, "1:q9:find_node")
    ensures Stray(q, "1:q9:get_peers") == InToken(q, "1:q9:get_peers") && Stray(q, "1:t") == InToken(q, "1:t")
  {
    hide Stray, InToken, QuietFront;
    TokenStray(q, "1", "y1:r", "1:y1:r");
    TokenStray(q, "1", "y1:e", "1:y1:e");
    TokenStray(q, "1", "q4:ping", "1:q4:ping");
    TokenStray(q, "1", "q9:find_node", "1:q9:find_node");
    TokenStray(q, "1", "q9:get_peers", "1:q9:get_peers");
    TokenStray(q, "1", "t", "1:t");
  }

  lemma TokenFields(q: Query)
    requires QuietFront(q)
    ensures Stray(q, "6:target20:") == InToken(q, "6:target20:")
    ensures Stray(q, "12:implied_porti") == InToken(q, "12:implied_porti")
    ensures Stray(q, "5:nodes") == InToken(q, "5:nodes") && Stray(q, "6:nodes6") == InToken(q, "6:nodes6")
    ensures Stray(q, "6:valuesl") == InToken(q, "6:valuesl") && Stray(q, "4:wantl") == InToken(q, "4:wantl")
  {
    hide Stray, InToken, QuietFront;
    TokenStray(q, "6", "target20:", "6:target20:");
    TokenStray(q, "12", "implied_porti", "12:implied_porti");
    TokenStray(q, "5", "nodes", "5:nodes");
    TokenStray(q, "6", "nodes6", "6:nodes6");
    TokenStray(q, "6", "valuesl", "6:valuesl");
    TokenStray(q, "4", "wantl", "4:wantl");
  }

  lemma NothingRead()
    ensures TwentyAt(None) == Some(Filled('\0', 20)) && WantAt(None) == 0 && NumberAt(None) == 0
  {}

  // Where a marker can begin.

  /** At the printed length, or in the token's own bytes. */
  lemma TokenPast(token: string, m0: string, m1: string)
    requires IsMarker(m0, m1)
    ensures Past(TokenText(token), m0 + (":" + m1)) ==
      if Ends("token" + Digits(|token|), m0) && Starts(token + "e1", m1) then Some((token + "e1")[|m1|..])
      else Past(token + "e1", m0 + (":" + m1))
  {
    hide IsMarker, Past, Digits, Ends, Starts;
    MarkerHead(m0, m1);
    DigitsClean(|token|);
    var s := "token" + Digits(|token|);
    assert TokenText(token) == s + (":" + (token + "e1"));
    NoColonCalm(s, token + "e1", m0, m1);
    PastPart(s, token + "e1", m0, m1);
  }

  /** The last digit of a length below 100. */
  lemma {:induction false} LastDigit(k: nat)
    ensures Digits(k)[|Digits(k)| - 1] == ['0', '1', '2', '3', '4', '5', '6', '7', '8', '9'][k % 10]
  {}

  lemma TokenEnds(k: nat, c: string)
    requires |c| == 1 && '0' <= c[0] <= '9'
    ensures Ends("token" + Digits(k), c) <==> k % 10 == (c[0] - '0') as int
  {
    LastDigit(k);
    var s := "token" + Digits(k);
    assert s[|s| - 1..] == [s[|s| - 1]];
  }

  lemma StartsAt(b: string, m: string, i: nat)
    requires i < |m|
    ensures Starts(b, m) ==> i < |b| && b[i] == m[i]
  {
    if Starts(b, m) { assert b[..|m|][i] == b[i]; }
  }

  // Tokens without a colon.

  predicate PlainToken(token: string) { 0 < |token| < 40 && NoColon(token) }

  /** The marker of the transaction id appears where the token begins. */
  predicate LooksLikeTid(token: string) {
    |token| % 10 == 1 && token[0] == 't'
  }

  lemma TokenFront(token: string, i: nat)
    requires NoColon(token)
    ensures i < |token + "e1"| && i < |token| + 2 ==> (token + "e1")[i] != ':'
    ensures (token + "e1")[|token|] == 'e'
  {}

  lemma KindNotInToken(token: string, m1: string)
    requires PlainToken(token) && KindMarker(m1)
    ensures !Starts(token + "e1", m1)
  {
    var b := token + "e1";
    var colon := if m1 == "q13:announce_peer" then 3 else 2;
    TokenFront(token, colon);
    StartsAt(b, m1, colon);
    StartsAt(b, m1, 1);
  }

  lemma TargetNotInToken(token: string)
    requires PlainToken(token)
    ensures !Ends("token" + Digits(|token|), "6") || !Starts(token + "e1", "target20:")
  {
    hide Ends, Starts, Digits, NoColon;
    var b := token + "e1";
    TokenFront(token, 8);
    TokenEnds(|token|, "6");
    StartsAt(b, "target20:", 8);
    StartsAt(b, "target20:", 6);
  }

  lemma ImpliedNotInToken(token: string)
    requires PlainToken(token)
    ensures !Ends("token" + Digits(|token|), "12") || !Starts(token + "e1", "implied_porti")
  {
    if Ends("token" + Digits(|token|), "12") {
      TwelveIs(|token|);
      TokenFront(token, 0);
      StartsAt(token + "e1", "implied_porti", 12);
    }
  }

  lemma TwelveIs(k: nat)
    requires 0 < k < 100 && Ends("token" + Digits(k), "12")
    ensures k == 12
  {
    var s := "token" + Digits(k);
    assert s[|s| - 2..][0] == s[|s| - 2] && s[|s| - 2..][1] == s[|s| - 1];
    LastDigit(k);
    LastDigit(k / 10);
  }

  /** Markers of other fields that a token may begin with, after a fitting length. */
  predicate TokenMarker(m0: string, m1: string) {
    || (m0 == "5" && m1 == "nodes") || (m0 == "6" && m1 == "nodes6")
    || (m0 == "6" && m1 == "valuesl") || (m0 == "4" && m1 == "wantl")
  }

  lemma InsideToken(token: string, m0: string, m1: string)
    requires PlainToken(token) && TokenMarker(m0, m1)
    ensures var b := token + "e1";
      Starts(b, m1) ==> |m1| <= |token| && b[|m1|..] == token[|m1|..] + "e1"
  {
    var b, k := token + "e1", |token|;
    assert b[k] == 'e' && b[k + 1] == '1';
    if k < |m1| {
      StartsAt(b, m1, k);
      if k + 1 < |m1| { StartsAt(b, m1, k + 1); }
    }
  }

  /** In the rest of a token strtol does not stop at a colon. */
  lemma StopsEarly(y: string, s: string)
    requires NoColon(y)
    ensures var q := Strtol(y + ("e" + s)).1; q == "" || q[0] != ':'
  {
    var x := y + ("e" + s);
    EndPointer(x);
    SpacesStop(y, "e" + s);
    var t := SkipSpaces(x);
    var u := if t != "" && (t[0] == '-' || t[0] == '+') then t[1..] else t;
    SkipIsSuffix(x);
    DigitsStop(u, |s|, 0);
    if u != "" && IsDigit(u[0]) { DigitsAreSuffix(u, 0); }
    var q := Strtol(x).1;
    assert |q| > |s| && q[0] == x[|x| - |q|];
  }

  lemma {:induction false} SpacesStop(y: string, s: string)
    requires s != "" && s[0] == 'e'
    ensures |SkipSpaces(y + s)| >= |s| && SkipSpaces(y + s)[|SkipSpaces(y + s)| - |s|] == 'e'
  {
    if y == "" {
      assert y + s == s;
    } else if IsSpace(y[0]) {
      assert (y + s)[1..] == y[1..] + s;
      SpacesStop(y[1..], s);
    }
  }

  /** Digits end before an 'e' that stands k places from the end. */
  lemma {:induction false} DigitsStop(u: string, k: nat, n: nat)
    requires |u| > k && u[|u| - 1 - k] == 'e'
    ensures |ReadDigits(u, n).1| > k
  {
    if IsDigit(u[0]) { DigitsStop(u[1..], k, 10 * n + (u[0] - '0') as nat); }
  }

  lemma CountedEmpty(y: string, s: string, most: nat)
    requires NoColon(y)
    ensures CountedAt(Some(y + ("e" + s)), most) == Some("") && ValuesAt(Some(y + ("e" + s))) == Some(("", ""))
  {
    StopsEarly(y, s);
  }

  lemma WantEmpty(y: string, s: string)
    requires NoColon(y) || |y| <= 1
    ensures WantAt(Some(y + ("e" + ("1" + s)))) == 0
  {
    var r := y + ("e" + ("1" + s));
    if |y| == 1 && y[0] == ':' { assert r[0] == ':'; } else { assert r[1] != ':'; }
  }

  /** A marker met in a plain token is met where the token begins. */
  lemma PlainIn(q: Query, m0: string, m1: string, m: string)
    requires q.AnnounceQuery? && PlainToken(q.token) && IsMarker(m0, m1) && m == m0 + (":" + m1)
    ensures InToken(q, m) ==
      if Ends("token" + Digits(|q.token|), m0) &&
        Starts(q.token + "e1", m1) then Some((q.token + "e1")[|m1|..] + AnnounceEnd(q)) else None
  {
    hide IsMarker, Digits, Ends, Starts, TokenText, AnnounceEnd;
    TokenPast(q.token, m0, m1);
    NoMatch(q.token + "e1", m0, m1);
  }

  lemma PlainKind(q: Query, m1: string, m: string)
    requires q.AnnounceQuery? && PlainToken(q.token) && KindMarker(m1) && m == "1" + (":" + m1)
    ensures InToken(q, m) == None
  {
    hide Starts, Ends, InToken, Digits;
    PlainIn(q, "1", m1, m);
    KindNotInToken(q.token, m1);
  }

  /** What markers of other fields find behind them in a plain token reads as nothing. */
  lemma PlainField(q: Query, m0: string, m1: string, m: string)
    requires q.AnnounceQuery? && PlainToken(q.token) && TokenMarker(m0, m1) && m == m0 + (":" + m1)
    ensures InToken(q, m).None? ||
      exists y: string :: NoColon(y) && InToken(q, m) == Some(y + ("e" + ("1" + AnnounceEnd(q))))
  {
    hide Starts, Ends, InToken, Digits, AnnounceEnd;
    PlainIn(q, m0, m1, m);
    InsideToken(q.token, m0, m1);
    if InToken(q, m).Some? {
      var y := q.token[|m1|..];
      assert NoColon(y);
      assert y + "e1" + AnnounceEnd(q) == y + ("e" + ("1" + AnnounceEnd(q)));
    }
  }

  lemma PlainFields(q: Query)
    requires q.AnnounceQuery? && PlainToken(q.token)
    ensures CountedAt(InToken(q, "5:nodes"), 416) == Some("") && CountedAt(InToken(q, "6:nodes6"), 608) == Some("")
    ensures ValuesAt(InToken(q, "6:valuesl")) == Some(("", "")) && WantAt(InToken(q, "4:wantl")) == 0
    ensures InToken(q, "6:target20:") == None && InToken(q, "12:implied_porti") == None
  {
    hide InToken, AnnounceEnd, Starts, Ends, Digits, NoColon;
    PlainNodes(q, "5", "nodes", "5:nodes", 416);
    PlainNodes(q, "6", "nodes6", "6:nodes6", 608);
    PlainNodes(q, "6", "valuesl", "6:valuesl", 0);
    PlainField(q, "4", "wantl", "4:wantl");
    if InToken(q, "4:wantl").Some? {
      var y: string :| NoColon(y) && InToken(q, "4:wantl") == Some(y + ("e" + ("1" + AnnounceEnd(q))));
      WantEmpty(y, AnnounceEnd(q));
    }
    PlainIn(q, "6", "target20:", "6:target20:");
    TargetNotInToken(q.token);
    PlainIn(q, "12", "implied_porti", "12:implied_porti");
    ImpliedNotInToken(q.token);
  }

  lemma PlainNodes(q: Query, m0: string, m1: string, m: string, most: nat)
    requires q.AnnounceQuery? && PlainToken(q.token) && TokenMarker(m0, m1) && m == m0 + (":" + m1)
    ensures CountedAt(InToken(q, m), most) == Some("") && ValuesAt(InToken(q, m)) == Some(("", ""))
  {
    hide InToken, AnnounceEnd, NoColon;
    PlainField(q, m0, m1, m);
    if InToken(q, m).Some? {
      var y: string :| NoColon(y) && InToken(q, m) == Some(y + ("e" + ("1" + AnnounceEnd(q))));
      CountedEmpty(y, "1" + AnnounceEnd(q), most);
    }
  }

  lemma PlainTid(q: Query)
    requires Sized(q) && q.AnnounceQuery? && PlainToken(q.token)
    ensures (InToken(q, "1:t").None? || CountedAt(InToken(q, "1:t"), 15) == Some(q.tid)) <==> !LooksLikeTid(q.token)
  {
    hide InToken, AnnounceEnd, CountedAt, Ends, Digits;
    var b := q.token + "e1";
    PlainIn(q, "1", "t", "1:t");
    TokenEnds(|q.token|, "1");
    assert b[0] == q.token[0] && b[..1] == [b[0]];
    if LooksLikeTid(q.token) {
      var y := q.token[1..];
      assert b[1..] + AnnounceEnd(q) == y + ("e" + ("1" + AnnounceEnd(q)));
      assert NoColon(y);
      CountedEmpty(y, "1" + AnnounceEnd(q), 15);
    }
  }

  /** For tokens without a colon the round trip is exact if and only if the token is not
      one of length 1, 11, 21 or 31 that begins with 't'. */
  lemma PlainTokenRoundTrip(q: Query)
    requires Sized(q) && QuietFront(q) && NoColon(q.token)
    ensures Parse(Print(q)) == Some(Sent(q)) <==> !LooksLikeTid(q.token)
  {
    hide Parse, Print, InToken, QuietFront, CountedAt, NumberAt, ValuesAt, NoColon, LooksLikeTid;
    IsAnnounce(q);
    AnnounceRoundTrip(q);
    PlainKind(q, "y1:r", "1:y1:r");
    PlainKind(q, "y1:e", "1:y1:e");
    PlainKind(q, "q4:ping", "1:q4:ping");
    PlainKind(q, "q9:find_node", "1:q9:find_node");
    PlainKind(q, "q9:get_peers", "1:q9:get_peers");
    PlainTid(q);
    PlainFields(q);
    NothingRead();
  }

  lemma IsAnnounce(q: Query)
    requires QuietFront(q)
    ensures q.AnnounceQuery?
  {}
}
