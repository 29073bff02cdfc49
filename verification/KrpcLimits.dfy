/** Ids that are not read back, and the size of the buffers in the senders of dht.c. */
module KrpcLimits {
  import opened Wrappers
  import opened Krpc
  import opened KrpcParts
  import opened KrpcRoundTrip

  /** An id that contains a marker: its own bytes are taken for the transaction id. */
  lemma MarkerInIdMisread(pre: string, c: char, post: string, tid: string, v: Option<string>)
    requires NoColon(pre) && |pre| + |post| == 14 && |tid| == 4
    ensures |Marked(pre, c, post)| == 20
    ensures Counted(PrintPing(Marked(pre, c, post), tid, v), "1:t", 15) == Some([c])
    ensures [c] != tid
  {
    hide Past, Digits, Version;
    var id, end := Marked(pre, c, post), ":q4:ping1:t" + Digits(|tid|) + ":" + tid + Version(v) + "1:y1:qe";
    assert PrintPing(id, tid, v) == "d1:ad2:id20:" + (id + "e1" + end);
    MarkerInId(pre, c, post);
    PastExtends(id + "e1", end, "1:t");
    BehindHead(id + "e1" + end);
    assert "1:" + [c] + post + "e1" + end == "1:" + ([c] + (post + "e1" + end));
    OneByte([c] + (post + "e1" + end));
  }

  /** The head of a message holds no "1:t". */
  lemma BehindHead(z: string)
    ensures Past("d1:ad2:id20:" + z, "1:t") == Past(z, "1:t")
  {
    hide Past;
    var y, u := "id20" + (":" + z), "ad2" + (":" + ("id20" + (":" + z)));
    assert u[0] == 'a';
    ColonPass("id20", z);
    ColonPass("ad2", y);
    ColonPass("d1", u);
    assert "d1:ad2:id20:" + z == "d1" + (":" + u);
  }

  lemma ColonPass(s: string, t: string)
    requires NoColon(s) && !(Ends(s, "1") && Starts(t, "t"))
    ensures Past(s + (":" + t), "1:t") == Past(t, "1:t")
  {
    hide Past;
    assert "1:t" == "1" + (":" + "t");
    NoColonCalm(s, t, "1", "t");
    PastPart(s, t, "1", "t");
  }

  function Marked(pre: string, c: char, post: string): string {
    pre + "1:t1:" + [c] + post
  }

  /** The first "1:t" is the one inside the id. */
  lemma MarkerInId(pre: string, c: char, post: string)
    requires NoColon(pre)
    ensures Past(Marked(pre, c, post) + "e1", "1:t") == Some("1:" + [c] + post + "e1")
  {
    hide Past;
    var u := "t1:" + [c] + post + "e1";
    assert Marked(pre, c, post) + "e1" == pre + "1" + (":" + u);
    assert "1:t" == "1" + (":" + "t") && Ends(pre + "1", "1") && Starts(u, "t");
    NoColonCalm(pre + "1", u, "1", "t");
    PastPart(pre + "1", u, "1", "t");
    assert u[1..] == "1:" + [c] + post + "e1";
  }

  lemma OneByte(y: string)
    requires y != ""
    ensures CountedAt(Some("1:" + y), 15) == Some(y[..1])
  {
    hide Digits;
    assert "1:" + y == "1" + (":" + y);
    OneIsDigit();
    CountedReads(1, y, 15);
  }

  lemma OneIsDigit()
    ensures Digits(1) == "1"
  {}

  /** A marker may also be completed by what is printed behind the id: an id that ends
      with "1:y1:" turns every ping into an error or a reply. */
  lemma MarkerBehindIdMisread(x: string, tid: string, v: Option<string>)
    ensures KindOf(PrintPing(x + "1:y1:", tid, v)) in {Some(Error), Some(Reply)}
  {
    hide Past, Digits, Version;
    var b, i := PrintPing(x + "1:y1:", tid, v), |"d1:ad2:id20:"| + |x|;
    assert b[i..i + 6] == "1:y1:e";
    PastFinds(b, "1:y1:e", i);
  }

  // The senders' buffers of 512 bytes are never too small.

  lemma DigitsStep(n: nat, bound: nat, k: nat)
    requires n < 10 * bound && k >= 1 && (n / 10 < bound ==> |Digits(n / 10)| <= k)
    ensures |Digits(n)| <= k + 1
  {}

  lemma DigitsLength(n: nat)
    requires n < 0x1_0000
    ensures |Digits(n)| <= 5
  {
    DigitsStep(n / 1000, 10, 1);
    DigitsStep(n / 100, 100, 2);
    DigitsStep(n / 10, 1000, 3);
    DigitsStep(n, 10000, 4);
  }

  lemma QueriesFit(id: string, tid: string, x: string, want: int, port: nat, token: string, v: Option<string>)
    requires |id| == 20 && |x| == 20 && |tid| == 4 && |token| < 40 && port < 0x1_0000 && (v.Some? ==> |v.value| == 4)
    ensures |PrintPing(id, tid, v)| <= 512 && |PrintFindNode(id, tid, x, want, v)| <= 512
    ensures |PrintGetPeers(id, tid, x, want, v)| <= 512 && |PrintAnnouncePeer(id, tid, x, port, token, v)| <= 512
  {
    hide Digits;
    DigitsLength(port);
    DigitsLength(4);
    DigitsLength(|token|);
    assert |Version(v)| <= 9;
    assert |WantList(want)| <= 16;
  }
}
