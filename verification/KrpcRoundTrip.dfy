/** The want list and the numbers of a query, printed and read back as dht.c does. */
module KrpcRoundTrip {
  import opened Wrappers
  import opened Krpc
  import opened KrpcParts
  import opened KrpcQueries

  // The want list.

  predicate W4(want: int) { want > 0 && want % 2 == 1 }
  predicate W6(want: int) { want > 0 && want / 2 % 2 == 1 }

  function WantLead(lead: string, want: int): string {
    if want <= 0 then lead
    else if W6(want) then "n6e"
    else if W4(want) then "n4e"
    else "wantle"
  }

  /** The list, if one is written, and what follows it. */
  function Wants(lead: string, want: int, f: Parts): Parts {
    if want <= 0 then f
    else if W4(want) && W6(want) then Pay(lead, "4", Then("wantl2", Then("n42", f)))
    else if W4(want) || W6(want) then Pay(lead, "4", Then("wantl2", f))
    else Pay(lead, "4", f)
  }

  lemma WantsFlat(lead: string, want: int, f: Parts, x: string)
    requires Flat(f) == WantLead(lead, want) + x
    ensures Flat(Wants(lead, want, f)) == lead + (WantList(want) + x)
  {
    if want <= 0 {
    } else if W4(want) && W6(want) {
      assert WantList(want) == "4:wantl2:n42:n6e";
      BothFlat(lead, f, x);
    } else if W4(want) || W6(want) {
      assert WantList(want) == "4:wantl2:" + WantLead(lead, want);
      OneFlat(lead, f, WantLead(lead, want), x);
    } else {
      assert WantList(want) == "4:wantle";
      EmptyFlat(lead, f, x);
    }
  }

  lemma BothFlat(lead: string, f: Parts, x: string)
    requires Flat(f) == "n6e" + x
    ensures Flat(Then("wantl2", Then("n42", f))) == "wantl" + ("2:n42:n6e" + x)
    ensures Flat(Pay(lead, "4", Then("wantl2", Then("n42", f)))) == lead + ("4:wantl2:n42:n6e" + x)
  {
    assert Flat(Then("n42", f)) == "n42:n6e" + x;
  }

  lemma OneFlat(lead: string, f: Parts, l: string, x: string)
    requires Flat(f) == l + x
    ensures Flat(Then("wantl2", f)) == "wantl" + ("2:" + (l + x))
    ensures Flat(Pay(lead, "4", Then("wantl2", f))) == lead + ("4:wantl2:" + l + x)
  {
    var y := l + x;
    assert Flat(Then("wantl2", f)) == "wantl2:" + y;
    assert Flat(Pay(lead, "4", Then("wantl2", f))) == lead + ("4:wantl2:" + y);
  }

  lemma EmptyFlat(lead: string, f: Parts, x: string)
    requires Flat(f) == "wantle" + x
    ensures Flat(Pay(lead, "4", f)) == lead + ("4:wantle" + x)
  {}

  lemma WantsPass(lead: string, want: int, f: Parts, m0: string, m1: string)
    requires MarkerForm(m0, m1) && !(m0 == "4" && m1[0] == 'w') && !(m0 == "2" && m1[0] == 'n')
    requires want > 0 ==> Clear(lead, "4", m0, m1) && Flat(f) != "" && Flat(f)[0] == WantLead(lead, want)[0]
    ensures Follow(Wants(lead, want, f), m0, m1) == Follow(f, m0, m1)
  {
    if want > 0 {
      if W4(want) && W6(want) {
        FlagPass("n4", f, m0, m1);
        FlagPass("wantl", Then("n42", f), m0, m1);
        ListPass(lead, Then("wantl2", Then("n42", f)), m0, m1);
      } else if W4(want) || W6(want) {
        FlagPass("wantl", f, m0, m1);
        ListPass(lead, Then("wantl2", f), m0, m1);
      } else {
        ListPass(lead, f, m0, m1);
      }
    }
  }

  /** "n4" or "n6" behind its length. */
  lemma FlagPass(s: string, f: Parts, m0: string, m1: string)
    requires MarkerForm(m0, m1) && !(m0 == "2" && m1[0] == 'n') && s in {"n4", "wantl"} && Flat(f) != ""
    requires Flat(f)[0] == 'n'
    ensures Follow(Then(s + "2", f), m0, m1) == Follow(f, m0, m1)
    ensures "n4" + "2" == "n42" && "wantl" + "2" == "wantl2"
  {
    hide Flat, Ends, Starts;
    EndsWithLead(s, "2", m0);
    NotTwelve(s);
    if m0 == "2" { FirstDiffers(Flat(f), m1); }
  }

  lemma FirstDiffers(b: string, m: string)
    requires b != "" && m != "" && b[0] != m[0]
    ensures !Starts(b, m)
  {}

  lemma NotTwelve(s: string)
    requires s != "" && s[|s| - 1] != '1'
    ensures !Ends(s + "2", "12")
  {
    assert (s + "2")[|s + "2"| - 2..][0] == s[|s| - 1];
  }

  lemma ListPass(lead: string, f: Parts, m0: string, m1: string)
    requires Clear(lead, "4", m0, m1) && MarkerForm(m0, m1) && !(m0 == "4" && m1[0] == 'w') && Flat(f) != ""
    requires Flat(f)[0] == 'w'
    ensures Follow(Pay(lead, "4", f), m0, m1) == Follow(f, m0, m1)
  {
    EndsWithLead(lead, "4", m0);
  }

  lemma WantsRead(lead: string, want: int, f: Parts, x: string) returns (y: string)
    requires Flat(f) == WantLead(lead, want) + x && want > 0 && Clear(lead, "4", "4", "wantl")
    ensures Follow(Wants(lead, want, f), "4", "wantl") == Some(y)
    ensures Wanted(y, false, false) == (if W4(want) then 1 else 0) + (if W6(want) then 2 else 0)
  {
    assert Ends(lead + "4", "4");
    if W4(want) && W6(want) {
      y := "2:n42:n6e" + x;
      BothFlat(lead, f, x);
      assert Starts("wantl" + y, "wantl");
      WantedBoth(x);
    } else if W4(want) || W6(want) {
      y := "2:" + (WantLead(lead, want) + x);
      OneFlat(lead, f, WantLead(lead, want), x);
      assert Starts("wantl" + y, "wantl");
      WantedOne(x);
    } else {
      y := "e" + x;
      assert Flat(f) == "wantl" + y;
    }
  }

  lemma WantedOne(x: string)
    ensures Wanted("2:" + ("n4e" + x), false, false) == 1
    ensures Wanted("2:" + ("n6e" + x), false, false) == 2
    ensures Wanted("2:n6e" + x, true, false) == 3
  {
    WantedStep("n4", "e" + x, false, false);
    WantedStep("n6", "e" + x, false, false);
    WantedStep("n6", "e" + x, true, false);
    assert "2:n6e" + x == "2:" + ("n6" + ("e" + x));
    assert "n4e" + x == "n4" + ("e" + x) && "n6e" + x == "n6" + ("e" + x);
  }

  lemma WantedBoth(x: string)
    ensures Wanted("2:n42:n6e" + x, false, false) == 3
  {
    WantedStep("n4", "2:n6e" + x, false, false);
    assert "2:n42:n6e" + x == "2:" + ("n4" + ("2:n6e" + x));
    WantedOne(x);
  }

  lemma WantedStep(c: string, x: string, w4: bool, w6: bool)
    requires |c| == 2 && x != ""
    ensures Wanted("2:" + (c + x), w4, w6) == Wanted(x, w4 || c == "n4", w6 || c == "n6")
  {
    var r := "2:" + (c + x);
    assert r[4..] == x && r[2..4] == c;
  }

  // Numbers.

  lemma {:induction false} DigitsRead(n: nat, c: char, x: string)
    requires !IsDigit(c)
    ensures ReadDigits(Digits(n) + ([c] + x), 0) == (n, [c] + x)
  {
    DigitsThen(n, [c] + x);
  }

  lemma {:induction false} DigitsThen(n: nat, y: string)
    ensures ReadDigits(Digits(n) + y, 0) == ReadDigits(y, n)
    ensures IsDigit(Digits(n)[0])
  {
    var d := ['0', '1', '2', '3', '4', '5', '6', '7', '8', '9'][n % 10];
    assert ([d] + y)[1..] == y;
    if n >= 10 {
      DigitsThen(n / 10, [d] + y);
      assert Digits(n) + y == Digits(n / 10) + ([d] + y);
    }
  }

  lemma StrtolReads(n: nat, c: char, x: string)
    requires !IsDigit(c)
    ensures Strtol(Digits(n) + ([c] + x)) == (n, [c] + x)
  {
    DigitsRead(n, c, x);
    DigitsThen(n, [c] + x);
  }

  /** A printed length and its bytes. */
  lemma CountedReads(k: nat, x: string, most: nat)
    requires 0 < k <= most && k <= |x|
    ensures CountedAt(Some(Digits(k) + (":" + x)), most) == Some(x[..k])
  {
    StrtolReads(k, ':', x);
    assert (":" + x)[1..1 + k] == x[..k];
  }

  lemma WantBits(want: int)
    requires want > 0
    ensures (if W4(want) then 1 else 0) + (if W6(want) then 2 else 0) == want % 4
  {}
}
