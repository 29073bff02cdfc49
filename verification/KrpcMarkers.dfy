/** The markers parse_message of dht.c looks for, and when a payload holds none of them. */
module KrpcMarkers {
  import opened Wrappers
  import opened Krpc
  import opened KrpcParts

  /** Each marker, cut at its first colon. */
  const MARKERS: seq<(string, string)> := [
    ("1", "t"), ("2", "id20:"), ("9", "info_hash20:"), ("4", "porti"), ("12", "implied_porti"), ("6", "target20:"),
    ("5", "token"), ("5", "nodes"), ("6", "nodes6"), ("6", "valuesl"), ("4", "wantl"), ("1", "y1:r"), ("1", "y1:e"),
    ("1", "y1:q"), ("1", "q4:ping"), ("1", "q9:find_node"), ("1", "q9:get_peers"), ("1", "q13:announce_peer")]

  function Text(m: (string, string)): string { m.0 + (":" + m.1) }

  /** No marker occurs in the text. */
  predicate Quiet(text: string) {
    forall k | 0 <= k < |MARKERS| :: Past(text, Text(MARKERS[k])) == None
  }

  /** Text without a colon is quiet. */
  lemma NoColonIsQuiet(text: string)
    requires NoColon(text)
    ensures Quiet(text)
  {
    forall k | 0 <= k < |MARKERS|
      ensures Past(text, Text(MARKERS[k])) == None
    {
      NoMatch(text, MARKERS[k].0, MARKERS[k].1);
    }
  }

  /** The markers that tell the kind of a message, behind their first colon. */
  predicate KindMarker(m1: string) {
    m1 in {"y1:r", "y1:e", "y1:q", "q4:ping", "q9:find_node", "q9:get_peers", "q13:announce_peer"}
  }

  /** The same list, marker by marker. */
  predicate IsMarker(m0: string, m1: string) {
    || (m0 == "1" && (m1 == "t" || KindMarker(m1)))
    || (m0 == "2" && m1 == "id20:") || (m0 == "9" && m1 == "info_hash20:")
    || (m0 == "4" && m1 in {"porti", "wantl"}) || (m0 == "12" && m1 == "implied_porti")
    || (m0 == "5" && m1 in {"token", "nodes"}) || (m0 == "6" && m1 in {"target20:", "nodes6", "valuesl"})
  }

  lemma QuietMarker(text: string, m0: string, m1: string)
    requires Quiet(text) && IsMarker(m0, m1)
    ensures Past(text, m0 + (":" + m1)) == None
  {
    var k := MarkerAt(m0, m1);
    assert Past(text, Text(MARKERS[k])) == None;
  }

  lemma MarkerAt(m0: string, m1: string) returns (k: nat)
    requires IsMarker(m0, m1)
    ensures k < |MARKERS| && MARKERS[k] == (m0, m1)
  {
    if m0 == "1" {
      k := OneAt(m1);
    } else {
      k := if m0 == "2" then 1 else if m0 == "9" then 2 else if m0 == "12" then 4
           else if m0 == "4" then (if m1 == "porti" then 3 else 10)
           else if m0 == "5" then (if m1 == "token" then 6 else 7)
           else if m1 == "target20:" then 5 else if m1 == "nodes6" then 8 else 9;
    }
  }

  lemma OneAt(m1: string) returns (k: nat)
    requires IsMarker("1", m1)
    ensures k < |MARKERS| && MARKERS[k] == ("1", m1)
  {
    k := if m1 == "t" then 0 else if m1 == "y1:r" then 11 else if m1 == "y1:e" then 12 else if m1 == "y1:q" then 13
         else if m1 == "q4:ping" then 14 else if m1 == "q9:find_node" then 15 else if m1 == "q9:get_peers" then 16
           else 17;
  }

  /** The character before a later colon of a marker, and what follows that colon. */
  lemma InnerColon(m0: string, m1: string, p: nat)
    requires IsMarker(m0, m1) && p < |m1| && m1[p] == ':'
    ensures p > 0 && m1[p - 1] in {'0', '1', '3', '4', '9'}
    ensures m1[p - 1] == '1' ==> p == 2 && |m1| == 4 && m1[0] == 'y' && m1[3] in {'r', 'e', 'q'}
    ensures m1[p - 1] == '4' ==> m1 == "q4:ping" && p == 2
    ensures m1[p - 1] == '9' ==> p == 2 && |m1| > 3 && m1[3] in {'f', 'g'}
  {}

  /** What is printed behind a payload goes on unlike any marker that could start in it. */
  predicate Next(s: string, t: string) {
    && |s| >= 2 && |t| >= 2
    && (|| s[|s| - 1] in {'5', '6'}
        || (s[|s| - 1] == '9' && t[0] == 'i')
        || (s[|s| - 1] == '4' && (t[0] == 'w' || (t[0] == 'p' && t[1] == 'o')))
        || (s[|s| - 1] == '1' && (s[|s| - 2] == 'e' || t[0] in {'v', 'y'})))
  }

  lemma CharAt(b: string, i: int, m: string, k: nat)
    requires MatchAt(b, i, m) && k < |m|
    ensures b[i + k] == m[k]
  {
    assert b[i..i + |m|][k] == b[i + k];
  }

  /** A marker that starts inside the payload also ends there. */
  lemma NoStretch(s: string, t: string, m0: string, m1: string, i: int)
    requires IsMarker(m0, m1) && MetAt(s, t, m0, m1, i) && Next(s, t)
    ensures i + |m0| + 1 + |m1| <= |s|
  {
    hide IsMarker;
    var p := |s| - i - |m0| - 1;
    if p < |m1| {
      Behind(s, t, m0, m1, i, p);
      InnerColon(m0, m1, p);
      if p + 1 < |m1| { Behind(s, t, m0, m1, i, p + 1); }
      if p + 2 < |m1| { Behind(s, t, m0, m1, i, p + 2); }
      Behind(s, t, m0, m1, i, p - 1);
      if p > 1 { Behind(s, t, m0, m1, i, p - 2); }
    }
  }

  /** Character k of the marker's second half, in the text. */
  lemma Behind(s: string, t: string, m0: string, m1: string, i: int, k: nat)
    requires MetAt(s, t, m0, m1, i) && k < |m1|
    ensures var at := i + |m0| + 1 + k;
      && (at < |s| ==> m1[k] == s[at]) && (at == |s| ==> m1[k] == ':') &&
        (at > |s| ==> |t| > at - |s| - 1 && m1[k] == t[at - |s| - 1])
  {
    CharAt(s + (":" + t), i, m0 + (":" + m1), |m0| + 1 + k);
  }

  /** So a marker that is not found in the payload is not met inside it. */
  lemma ClearCalm(s: string, t: string, m0: string, m1: string)
    requires IsMarker(m0, m1) && Next(s, t) && Past(s, m0 + (":" + m1)) == None
    ensures !MetInside(s, t, m0, m1)
  {
    hide IsMarker, Next;
    var m := m0 + (":" + m1);
    forall i
      ensures !MetAt(s, t, m0, m1, i)
    {
      if MetAt(s, t, m0, m1, i) {
        NoStretch(s, t, m0, m1, i);
        assert s[i..i + |m|] == (s + (":" + t))[i..i + |m|];
        PastFinds(s, m, i);
      }
    }
  }

  /** Every message the senders print is well cut: the text is free of colons, and no
      marker that starts in a payload goes on behind it. */
  ghost predicate Cut(f: Parts) {
    match f
    case Last(s) => NoColon(s)
    case Then(s, rest) => NoColon(s) && Cut(rest)
    case Pay(x, behind, rest) => Next(x + behind, Flat(rest)) && Cut(rest)
  }

  /** Where a marker is first met in such a message, for any payloads. */
  lemma {:induction false} PastIsFollow(f: Parts, m0: string, m1: string)
    requires Cut(f) && IsMarker(m0, m1)
    ensures Past(Flat(f), m0 + (":" + m1)) == Follow(f, m0, m1)
  {
    hide IsMarker, Next;
    MarkerHead(m0, m1);
    match f {
      case Last(s) =>
        NoMatch(s, m0, m1);
      case Then(s, rest) =>
        NoColonCalm(s, Flat(rest), m0, m1);
        PastPart(s, Flat(rest), m0, m1);
        PastIsFollow(rest, m0, m1);
      case Pay(x, behind, rest) =>
        PayIsFollow(x, behind, Flat(rest), m0, m1);
        PastIsFollow(rest, m0, m1);
    }
  }

  lemma PayIsFollow(x: string, behind: string, t: string, m0: string, m1: string)
    requires Next(x + behind, t) && IsMarker(m0, m1)
    ensures Past(x + (behind + (":" + t)), m0 + (":" + m1)) ==
      match Past(x + behind, m0 + (":" + m1))
      case Some(r) => Some(r + (":" + t))
      case None => if Ends(x + behind, m0) && Starts(t, m1) then Some(t[|m1|..]) else Past(t, m0 + (":" + m1))
  {
    hide IsMarker, Next, Past;
    MarkerHead(m0, m1);
    assert x + (behind + (":" + t)) == x + behind + (":" + t);
    if Past(x + behind, m0 + (":" + m1)).Some? {
      PastExtends(x + behind, ":" + t, m0 + (":" + m1));
    } else {
      ClearCalm(x + behind, t, m0, m1);
      PastPart(x + behind, t, m0, m1);
    }
  }

  lemma Look(f: Parts, m0: string, m1: string, m: string)
    requires Cut(f) && IsMarker(m0, m1) && m == m0 + (":" + m1)
    ensures Past(Flat(f), m) == Follow(f, m0, m1)
  {
    PastIsFollow(f, m0, m1);
  }

  lemma MarkerHead(m0: string, m1: string)
    requires IsMarker(m0, m1)
    ensures m0 in {"1", "2", "4", "5", "6", "9", "12"} && m0 != "" && NoColon(m0) && m1 != ""
  {}

  /** Plain text holds no marker. */
  lemma PlainClear(x: string, behind: string, m0: string, m1: string)
    requires NoColon(x) && NoColon(behind)
    ensures Past(x + behind, m0 + (":" + m1)) == None
  {
    NoMatch(x + behind, m0, m1);
  }
}
