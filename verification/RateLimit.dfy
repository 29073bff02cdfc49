/** token_bucket: the limit on the requests dht.c answers. */
module RateLimit {

  const MAX_TOKENS := 400

  datatype Bucket = Bucket(time: int, tokens: int)

  /** token_bucket as a function: the new bucket, and whether the request passes. */
  function Take(b: Bucket, now: int): (r: (Bucket, bool)) {
    var filled :=
      if b.tokens != 0 then b
      else Bucket(now, if MAX_TOKENS <= 100 * (now - b.time) then MAX_TOKENS else 100 * (now - b.time));
    if filled.tokens == 0 then (filled, false) else (filled.(tokens := filled.tokens - 1), true)
  }

  class Limiter {
    var time: int
    var tokens: int

    ghost function Abs(): Bucket
      reads this
    {
      Bucket(time, tokens)
    }

    /** dht_init's part. */
    constructor (now: int)
      ensures Abs() == Bucket(now, MAX_TOKENS)
    {
      time, tokens := now, MAX_TOKENS;
    }

    /** token_bucket */
    method TokenBucket(now: int) returns (pass: bool)
      modifies this
      ensures (Abs(), pass) == Take(old(Abs()), now)
    {
      if tokens == 0 {
        tokens := if MAX_TOKENS <= 100 * (now - time) then MAX_TOKENS else 100 * (now - time);
        time := now;
      }
      if tokens == 0 {
        return false;
      }
      tokens := tokens - 1;
      return true;
    }
  }

  /** The bucket after requests at the given times, and how many passed. */
  function Serve(b: Bucket, times: seq<int>): (r: (Bucket, nat)) {
    if times == [] then (b, 0)
    else
      var (before, passed) := Serve(b, times[..|times| - 1]);
      var (after, pass) := Take(before, times[|times| - 1]);
      (after, if pass then passed + 1 else passed)
  }

  ghost predicate Clock(start: int, times: seq<int>) {
    && (forall i :: 0 <= i < |times| ==> start <= times[i])
    && (forall i, j :: 0 <= i < j < |times| ==> times[i] <= times[j])
  }

  function Last(start: int, times: seq<int>): int {
    if times == [] then start else times[|times| - 1]
  }

  /** What is passed and what is left never exceeds what was filled in. */
  lemma {:induction false} Accounts(b: Bucket, start: int, times: seq<int>)
    requires Clock(start, times) && 0 <= b.tokens <= MAX_TOKENS && b.time <= start
    ensures var (r, passed) := Serve(b, times);
      && 0 <= r.tokens <= MAX_TOKENS
      && b.time <= r.time <= Last(start, times)
      && passed + r.tokens <= b.tokens + 100 * (r.time - b.time)
      && (if r.time < start then r.time == b.time && passed + r.tokens == b.tokens
          else passed + r.tokens <= b.tokens + MAX_TOKENS + 100 * (r.time - start))
  {
    if times != [] {
      var k := |times| - 1;
      Accounts(b, start, times[..k]);
      if k > 0 { assert times[k - 1] <= times[k]; }
    }
  }

  /** From the start at t0 up to time t at most 400 + 100 (t - t0) requests pass. */
  lemma PassedSinceStart(t0: int, times: seq<int>)
    requires Clock(t0, times)
    ensures Serve(Bucket(t0, MAX_TOKENS), times).1 <= 400 + 100 * (Last(t0, times) - t0)
  {
    Accounts(Bucket(t0, MAX_TOKENS), t0, times);
  }

  lemma {:induction false} ServeJoin(b: Bucket, early: seq<int>, late: seq<int>)
    ensures Serve(b, early + late) ==
      (Serve(Serve(b, early).0, late).0, Serve(b, early).1 + Serve(Serve(b, early).0, late).1)
  {
    if late == [] {
      assert early + late == early;
    } else {
      var k := |late| - 1;
      ServeJoin(b, early, late[..k]);
      assert (early + late)[..|early + late| - 1] == early + late[..k];
    }
  }

  /** Of the requests in any window from s to t, whatever came before it, at most
      800 + 100 (t - s) pass, and the tokens stay between 0 and 400. */
  lemma PassedInWindow(t0: int, early: seq<int>, s: int, late: seq<int>)
    requires Clock(t0, early) && Last(t0, early) <= s && Clock(s, late)
    ensures var b := Bucket(t0, MAX_TOKENS);
      && Serve(b, early + late).1 - Serve(b, early).1 <= 800 + 100 * (Last(s, late) - s)
      && 0 <= Serve(b, early + late).0.tokens <= 400
  {
    var b := Bucket(t0, MAX_TOKENS);
    Accounts(b, t0, early);
    ServeJoin(b, early, late);
    Accounts(Serve(b, early).0, s, late);
  }

  /** The tokens of a dry bucket after some seconds. */
  function Filled(seconds: int): int {
    if MAX_TOKENS <= 100 * seconds then MAX_TOKENS else 100 * seconds
  }

  /** Nothing is refused without need: of k requests at one moment all pass when the
      bucket was dry and had the time to fill with k tokens. */
  lemma {:induction false} BurstPasses(b: Bucket, now: int, times: seq<int>)
    requires b.tokens == 0 && |times| <= 400 && |times| <= 100 * (now - b.time)
    requires forall i :: 0 <= i < |times| ==> times[i] == now
    ensures Serve(b, times).1 == |times|
    ensures times != [] ==> Serve(b, times).0.tokens == Filled(now - b.time) - |times|
  {
    if times != [] { BurstPasses(b, now, times[..|times| - 1]); }
  }

  /** A request is refused exactly when no token is left and no time has passed. */
  lemma RefusedOnlyDry(b: Bucket, now: int)
    requires 0 <= b.tokens && b.time <= now
    ensures !Take(b, now).1 <==> b.tokens == 0 && now == b.time
  {}
}
