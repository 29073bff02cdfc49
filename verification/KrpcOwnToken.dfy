/** The tokens make_token of dht.c gives out have eight bytes, any eight bytes: the exact condition is
    then short. */
module KrpcOwnToken {
  import opened Sequences
  import opened Wrappers
  import opened Krpc
  import opened KrpcQuery
  import opened KrpcParts
  import opened KrpcMarkers
  import opened KrpcToken

  /** The bytes behind the printed length, up to the next colon outside the token. */
  lemma OwnIn(q: Query, m0: string, m1: string, m: string)
    requires q.AnnounceQuery? && |q.token| == 8 && IsMarker(m0, m1) && m == m0 + (":" + m1)
    ensures InToken(q, m) == match Past(q.token + "e1", m) case None => None case Some(r) => Some(r + AnnounceEnd(q))
  {
    hide IsMarker, Ends, Starts, TokenText, AnnounceEnd, Past;
    TokenPast(q.token, m0, m1);
    NothingEndsInEight(m0, m1);
  }

  /** No marker begins at the printed 8. */
  lemma NothingEndsInEight(m0: string, m1: string)
    requires IsMarker(m0, m1)
    ensures !Ends("token" + Digits(8), m0)
  {
    hide Digits, Ends;
    MarkerHead(m0, m1);
    if m0 == "12" {
      NotTwelveAtEight();
    } else {
      TokenEnds(8, m0);
    }
  }

  lemma NotTwelveAtEight()
    ensures !Ends("token" + Digits(8), "12")
  {
    assert Digits(8) == "8";
    assert ("token" + "8")[6 - 2..][1] == '8';
  }

  /** Where a marker is found. */
  lemma {:induction false} PastIsMatch(b: string, m: string) returns (i: nat)
    requires Past(b, m).Some?
    ensures MatchAt(b, i, m) && Past(b, m) == Some(b[i + |m|..])
  {
    if b[..|m|] == m {
      i := 0;
    } else {
      var j := PastIsMatch(b[1..], m);
      i := j + 1;
      assert b[1..][j..j + |m|] == b[i..i + |m|];
    }
  }

  /** A marker found in eight bytes and "e1", and where it covers the last two. */
  lemma OwnMatch(token: string, m: string) returns (i: nat)
    requires |token| == 8 && Past(token + "e1", m).Some?
    ensures i + |m| <= 10 && Past(token + "e1", m) == Some((token + "e1")[i + |m|..])
    ensures i + |m| > 8 && i <= 8 ==> m[8 - i] == 'e'
    ensures i + |m| > 9 && i <= 9 ==> m[9 - i] == '1'
  {
    var b := token + "e1";
    i := PastIsMatch(b, m);
    if i + |m| > 8 && i <= 8 { CharAt(b, i, m, 8 - i); }
    if i + |m| > 9 && i <= 9 { CharAt(b, i, m, 9 - i); }
  }

  lemma OwnNone(token: string, m: string)
    requires |token| == 8 && m in {"1:q4:ping", "6:valuesl"}
    ensures Past(token + "e1", m) == None
  {
    hide Past;
    if Past(token + "e1", m).Some? { var i := OwnMatch(token, m); }
  }

  lemma OwnLong(token: string)
    requires |token| == 8
    ensures Past(token + "e1", "1:q9:find_node") == None && Past(token + "e1", "1:q9:get_peers") == None
    ensures Past(token + "e1", "6:target20:") == None && Past(token + "e1", "12:implied_porti") == None
  {
    hide Past;
    TooShort(token + "e1", "1:q9:find_node");
    TooShort(token + "e1", "1:q9:get_peers");
    TooShort(token + "e1", "6:target20:");
    TooShort(token + "e1", "12:implied_porti");
  }

  /** The other markers leave at most one byte of the token behind them. */
  lemma OwnRest(token: string, m: string) returns (y: string)
    requires |token| == 8 && m in {"5:nodes", "6:nodes6", "4:wantl"} && Past(token + "e1", m).Some?
    ensures |y| <= 1 && Past(token + "e1", m) == Some(y + "e1")
  {
    hide Past;
    var i := OwnMatch(token, m);
    y := token[i + |m|..];
    assert (token + "e1")[i + |m|..] == y + "e1";
  }

  /** Behind it strtol finds no number that a colon closes. */
  lemma CountedShort(y: string, s: string, most: nat)
    requires |y| <= 1
    ensures CountedAt(Some(y + ("e" + s)), most) == Some("")
  {
    if y != "" && y[0] == ':' {
      var r := y + ("e" + s);
      assert SkipSpaces(r) == r;
    } else {
      CountedEmpty(y, s, most);
    }
  }

  lemma OwnFields(q: Query)
    requires q.AnnounceQuery? && |q.token| == 8
    ensures CountedAt(InToken(q, "5:nodes"), 416) == Some("") && CountedAt(InToken(q, "6:nodes6"), 608) == Some("")
    ensures WantAt(InToken(q, "4:wantl")) == 0
  {
    hide InToken, AnnounceEnd, Past, CountedAt, WantAt;
    OwnCounted(q, "5", "nodes", "5:nodes", 416);
    OwnCounted(q, "6", "nodes6", "6:nodes6", 608);
    OwnIn(q, "4", "wantl", "4:wantl");
    NoneRead();
    if Past(q.token + "e1", "4:wantl").Some? {
      var y := OwnRest(q.token, "4:wantl");
      assert y + "e1" + AnnounceEnd(q) == y + ("e" + ("1" + AnnounceEnd(q)));
      WantEmpty(y, AnnounceEnd(q));
    }
  }

  lemma NoneRead()
    ensures WantAt(None) == 0 && ValuesAt(None) == Some(("", "")) && NumberAt(None) == 0
    ensures TwentyAt(None) == Some(Filled('\0', 20))
    ensures forall most :: CountedAt(None, most) == Some("")
  {}

  lemma OwnCounted(q: Query, m0: string, m1: string, m: string, most: nat)
    requires q.AnnounceQuery? && |q.token| == 8 && IsMarker(m0, m1) && m == m0 + (":" + m1)
    requires m in {"5:nodes", "6:nodes6"}
    ensures CountedAt(InToken(q, m), most) == Some("")
  {
    hide InToken, AnnounceEnd, Past, CountedAt;
    OwnIn(q, m0, m1, m);
    NoneRead();
    if Past(q.token + "e1", m).Some? {
      var y := OwnRest(q.token, m);
      assert y + "e1" + AnnounceEnd(q) == y + ("e" + ("1" + AnnounceEnd(q)));
      CountedShort(y, "1" + AnnounceEnd(q), most);
    }
  }

  lemma OwnUnmet(q: Query)
    requires q.AnnounceQuery? && |q.token| == 8
    ensures InToken(q, "1:q4:ping") == None && InToken(q, "6:valuesl") == None
    ensures InToken(q, "1:q9:find_node") == None && InToken(q, "1:q9:get_peers") == None
    ensures InToken(q, "6:target20:") == None && InToken(q, "12:implied_porti") == None
  {
    hide InToken, AnnounceEnd, Past;
    OwnNone(q.token, "1:q4:ping");
    OwnNone(q.token, "6:valuesl");
    OwnLong(q.token);
    OwnIn(q, "1", "q4:ping", "1:q4:ping");
    OwnIn(q, "6", "valuesl", "6:valuesl");
    OwnIn(q, "1", "q9:find_node", "1:q9:find_node");
    OwnIn(q, "1", "q9:get_peers", "1:q9:get_peers");
    OwnIn(q, "6", "target20:", "6:target20:");
    OwnIn(q, "12", "implied_porti", "12:implied_porti");
  }

  /** An announce_peer with a token of eight bytes is read back if and only if the token,
      with the "e1" behind it, holds neither the marker of a reply nor that of an error, and
      holds no "1:t" or spells the transaction id behind it. */
  lemma OwnTokenRoundTrip(q: Query)
    requires Sized(q) && QuietFront(q) && |q.token| == 8
    ensures Parse(Print(q)) == Some(Sent(q)) <==>
      && Past(q.token + "e1", "1:y1:r") == None && Past(q.token + "e1", "1:y1:e") == None
      && match Past(q.token + "e1", "1:t")
         case None => true
         case Some(r) => CountedAt(Some(r + AnnounceEnd(q)), 15) == Some(q.tid)
  {
    hide Parse, Print, InToken, QuietFront, CountedAt, Past, AnnounceEnd;
    IsAnnounce(q);
    AnnounceRoundTrip(q);
    OwnIn(q, "1", "y1:r", "1:y1:r");
    OwnIn(q, "1", "y1:e", "1:y1:e");
    OwnIn(q, "1", "t", "1:t");
    OwnUnmet(q);
    OwnFields(q);
    NoneRead();
  }

  /** A token of this program that hides the query: with "1:y1:r12" every announce_peer is
      taken for a reply. */
  lemma OwnTokenMisread(q: Query)
    requires Sized(q) && q.AnnounceQuery? && q.token == "1:y1:r12"
    ensures KindOf(Print(q)) == Some(Reply)
  {
    hide Past, Print;
    var b := Print(q);
    var i := TokenPlace(q);
    assert MatchAt(b, i, "1:y1:r") by { CutMarker(b, i, q.token); }
    PastFinds(b, "1:y1:r", i);
  }

  lemma CutMarker(b: string, i: nat, token: string)
    requires i + 8 <= |b| && b[i..i + 8] == token && token == "1:y1:r12"
    ensures MatchAt(b, i, "1:y1:r")
  {
    assert b[i..i + 6] == token[..6];
  }

  lemma TokenPlace(q: Query) returns (i: nat)
    requires q.AnnounceQuery? && |q.token| == 8
    ensures i + 8 <= |Print(q)| && Print(q)[i..i + 8] == q.token
  {
    hide Digits, Version;
    var front := "d1:ad2:id20:" + q.id +
      ("9:info_hash20:" + q.x + ("4:porti" + Digits(q.port) + "e5:token" + Digits(8) + ":"));
    i := |front|;
    Placed("d1:ad2:id20:" + q.id, "9:info_hash20:" + q.x, "4:porti" + Digits(q.port) + "e5:token" + Digits(8) + ":",
      q.token,
           "e1:q13:announce_peer1:t" + Digits(|q.tid|) + ":" + (q.tid + (Version(q.v) + "1:y1:qe")));
  }

  lemma Placed(a: string, b: string, c: string, t: string, e: string)
    ensures var i := |a + (b + c)|;
      i + |t| <= |a + (b + (c + t + e))| && (a + (b + (c + t + e)))[i..i + |t|] == t
  {
    assert a + (b + (c + t + e)) == a + (b + c) + t + e;
  }
}
