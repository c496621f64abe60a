/**
 * The token bucket of the RPC server (engine/rpc/src/grpc_server.cpp), over real
 * numbers: it admits a call exactly if every window of time stays within its bound.
 */
module RateLimiting {

  /** The calls granted among those with number i or later. */
  function Granted(grants: seq<bool>, i: nat): (n: nat)
    requires i <= |grants|
    decreases |grants|
  {
    if i == |grants| then 0
    else
      var last := |grants| - 1;
      Granted(grants[..last], i) + if grants[last] then 1 else 0
  }

  /** What a span of time brings in. */
  function Income(rate: real, from: real, to: real): real {
    rate * (to - from)
  }

  lemma IncomeAdds(rate: real, a: real, b: real, c: real)
    ensures Income(rate, a, b) + Income(rate, b, c) == Income(rate, a, c)
  {
  }

  lemma IncomeIs(rate: real, from: real, to: real, secs: real)
    requires secs == to - from
    ensures Income(rate, from, to) == secs * rate
    ensures rate >= 0.0 && from <= to ==> Income(rate, from, to) >= 0.0
  {
  }

  predicate Ordered(times: seq<real>) {
    forall i, j :: 0 <= i <= j < |times| ==> times[i] <= times[j]
  }

  lemma OrderedNext(times: seq<real>, now: real)
    requires Ordered(times) && |times| > 0 && times[|times| - 1] <= now
    ensures Ordered(times + [now])
  {
  }

  /** What a window from call i to `now` still allows: capacity and income, less what was granted. */
  function Room(rate: real, burst: nat, times: seq<real>, grants: seq<bool>, i: nat, now: real): real
    requires |times| == |grants| && i < |times|
  {
    burst as real + Income(rate, times[i], now) - Granted(grants, i) as real
  }

  lemma GrantedNext(grants: seq<bool>, i: nat, g: bool)
    requires i <= |grants|
    ensures Granted(grants + [g], i) == Granted(grants, i) + if g then 1 else 0
  {
    assert (grants + [g])[..|grants|] == grants;
  }

  /** The tokens are the room of the tightest window. */
  ghost predicate IsTightest(rate: real, burst: nat, times: seq<real>, grants: seq<bool>, now: real, tokens: real) {
    && |times| == |grants|
    && (forall i :: 0 <= i < |times| ==> tokens <= Room(rate, burst, times, grants, i, now))
    && (exists i :: 0 <= i < |times| && tokens == Room(rate, burst, times, grants, i, now))
  }

  /** Would one more grant now keep the window from call i, and the one that starts now, within bounds? */
  ghost predicate Fits(rate: real, burst: nat, times: seq<real>, grants: seq<bool>, now: real)
    requires |times| == |grants|
  {
    burst >= 1
    && forall i :: 0 <= i < |times| ==> Granted(grants, i) as real + 1.0 <= burst as real + Income(rate, times[i], now)
  }

  /** The tokens after the income since the last call, up to the capacity. */
  function Refilled(rate: real, burst: nat, tokens: real, last: real, now: real): real {
    var full := tokens + Income(rate, last, now);
    if burst as real < full then burst as real else full
  }

  lemma AfterCall(rate: real, burst: nat, times: seq<real>, grants: seq<bool>, last: real, tokens: real, now: real,
                  g: bool)
    requires IsTightest(rate, burst, times, grants, last, tokens)
    ensures Refilled(rate, burst, tokens, last, now) >= 1.0 <==> Fits(rate, burst, times, grants, now)
    ensures var left := Refilled(rate, burst, tokens, last, now) - if g then 1.0 else 0.0;
            IsTightest(rate, burst, times + [now], grants + [g], now, left)
  {
    hide Granted, Income;
    var full := tokens + Income(rate, last, now);
    var refilled := Refilled(rate, burst, tokens, last, now);
    var times', grants' := times + [now], grants + [g];
    var left := refilled - if g then 1.0 else 0.0;
    var n := |times|;
    forall i | 0 <= i < n
      ensures Room(rate, burst, times', grants', i, now)
              == Room(rate, burst, times, grants, i, last) + Income(rate, last, now) - if g then 1.0 else 0.0
    {
      GrantedNext(grants, i, g);
      IncomeAdds(rate, times[i], last, now);
    }
    GrantedNext(grants, n, g);
    NothingYet(rate, grants, now);
    assert Room(rate, burst, times', grants', n, now) == burst as real - if g then 1.0 else 0.0;
    var k :| 0 <= k < n && tokens == Room(rate, burst, times, grants, k, last);
    assert left == Room(rate, burst, times', grants', if burst as real < full then n else k, now);
    forall i | 0 <= i < n
      ensures Granted(grants, i) as real + 1.0 <= burst as real + Income(rate, times[i], now)
              <==> 1.0 <= Room(rate, burst, times, grants, i, last) + Income(rate, last, now)
    {
      IncomeAdds(rate, times[i], last, now);
    }
    if refilled < 1.0 && burst >= 1 {
      assert 1.0 > Room(rate, burst, times, grants, k, last) + Income(rate, last, now);
    }
  }

  lemma NothingYet(rate: real, grants: seq<bool>, now: real)
    ensures Granted(grants, |grants|) == 0 && Income(rate, now, now) == 0.0
  {
  }

  /** Are all windows that end with call j within their bound? */
  ghost predicate EndsWithin(rate: real, burst: nat, times: seq<real>, grants: seq<bool>, j: nat)
    requires |times| == |grants| && j < |times|
  {
    forall i :: 0 <= i <= j ==> Granted(grants[..j + 1], i) as real <= burst as real + Income(rate, times[i], times[j])
  }

  /** The windows that end with the last call are within bound exactly if the tokens are not negative. */
  lemma EndsWithinIff(rate: real, burst: nat, times: seq<real>, grants: seq<bool>, tokens: real)
    requires |times| == |grants| > 0 && IsTightest(rate, burst, times, grants, times[|times| - 1], tokens)
    ensures EndsWithin(rate, burst, times, grants, |times| - 1) <==> 0.0 <= tokens
  {
    hide Granted, Income;
    var n := |times| - 1;
    assert grants[..n + 1] == grants;
    forall i | 0 <= i <= n
      ensures Granted(grants[..n + 1], i) as real <= burst as real + Income(rate, times[i], times[n])
              <==> 0.0 <= Room(rate, burst, times, grants, i, times[n])
    {
    }
    var k :| 0 <= k < |times| && tokens == Room(rate, burst, times, grants, k, times[n]);
    if 0.0 <= tokens {
      forall i | 0 <= i <= n
        ensures Granted(grants[..n + 1], i) as real <= burst as real + Income(rate, times[i], times[n])
      {
        assert tokens <= Room(rate, burst, times, grants, i, times[n]);
      }
    } else {
      assert !(Granted(grants[..n + 1], k) as real <= burst as real + Income(rate, times[k], times[n]));
    }
  }

  lemma WindowsOfFront(rate: real, burst: nat, times: seq<real>, grants: seq<bool>, n: nat, j: nat)
    requires |times| == |grants| && j < n <= |times|
    ensures EndsWithin(rate, burst, times[..n], grants[..n], j) <==> EndsWithin(rate, burst, times, grants, j)
  {
    hide Granted, Income;
    assert grants[..n][..j + 1] == grants[..j + 1];
    assert forall i :: 0 <= i <= j ==> times[..n][i] == times[i];
  }

  /**
   * A record of calls in which every window respected the bound at every call; with a negative
   * rate, at every call that was granted.
   */
  ghost predicate AlwaysWithin(rate: real, burst: nat, times: seq<real>, grants: seq<bool>) {
    |times| == |grants|
    && forall j :: 0 <= j < |times| && (rate >= 0.0 || grants[j]) ==> EndsWithin(rate, burst, times, grants, j)
  }

  /** If the bound held at every call before and the tokens are not negative now, it holds at every call. */
  lemma WithinAfter(rate: real, burst: nat, times: seq<real>, grants: seq<bool>, tokens: real)
    requires |times| == |grants| > 0
    requires rate >= 0.0 || grants[|grants| - 1] ==> 0.0 <= tokens
    requires IsTightest(rate, burst, times, grants, times[|times| - 1], tokens)
    requires AlwaysWithin(rate, burst, times[..|times| - 1], grants[..|grants| - 1])
    ensures AlwaysWithin(rate, burst, times, grants)
  {
    hide Granted, Income, IsTightest, EndsWithin;
    var n := |times| - 1;
    EndsWithinIff(rate, burst, times, grants, tokens);
    forall j | 0 <= j <= n && (rate >= 0.0 || grants[j]) ensures EndsWithin(rate, burst, times, grants, j) {
      if j < n {
        assert grants[..n][j] == grants[j];
        assert EndsWithin(rate, burst, times[..n], grants[..n], j);
        WindowsOfFront(rate, burst, times, grants, n, j);
      }
    }
  }

  lemma AtStart(rate: real, burst: nat, start: real)
    ensures AlwaysWithin(rate, burst, [start], [false])
  {
    var grants := [false];
    assert grants[..0] == [] && grants[..0 + 1] == grants;
    assert Granted(grants, 0) == 0;
    IncomeIs(rate, start, start, 0.0);
    assert EndsWithin(rate, burst, [start], grants, 0);
  }

  lemma RefillIs(rate: real, burst: nat, tokens: real, last: real, now: real, secs: real)
    requires secs == now - last
    ensures Refilled(rate, burst, tokens, last, now)
            == if burst as real < tokens + secs * rate then burst as real else tokens + secs * rate
    ensures Refilled(rate, burst, tokens, last, now) <= burst as real
    ensures rate >= 0.0 && last <= now && tokens >= 0.0 ==> Refilled(rate, burst, tokens, last, now) >= 0.0
  {
    IncomeIs(rate, last, now, secs);
  }

  /** What one call leaves of the record. */
  lemma AfterTry(rate: real, burst: nat, times: seq<real>, grants: seq<bool>, tokens: real, now: real, ok: bool)
    requires |times| == |grants| > 0 && Ordered(times) && AlwaysWithin(rate, burst, times, grants)
    requires var last := times[|times| - 1];
             && last <= now && IsTightest(rate, burst, times, grants, last, tokens)
             && (rate >= 0.0 ==> 0.0 <= tokens)
             && (ok <==> Refilled(rate, burst, tokens, last, now) >= 1.0)
    ensures var refilled := Refilled(rate, burst, tokens, times[|times| - 1], now);
            && IsTightest(rate, burst, times + [now], grants + [ok], now, refilled - if ok then 1.0 else 0.0)
            && (EndsWithin(rate, burst, times + [now], grants + [ok], |times|) <==> ok || 0.0 <= refilled)
    ensures Ordered(times + [now]) && AlwaysWithin(rate, burst, times + [now], grants + [ok])
    ensures ok <==> Fits(rate, burst, times, grants, now)
  {
    hide EndsWithin, IsTightest, Fits, Income, Ordered, AlwaysWithin, Refilled;
    var last := times[|times| - 1];
    var left := Refilled(rate, burst, tokens, last, now) - if ok then 1.0 else 0.0;
    var times', grants' := times + [now], grants + [ok];
    OrderedNext(times, now);
    RefillIs(rate, burst, tokens, last, now, now - last);
    AfterCall(rate, burst, times, grants, last, tokens, now, ok);
    assert times'[..|times|] == times && grants'[..|grants|] == grants;
    EndsWithinIff(rate, burst, times', grants', left);
    WithinAfter(rate, burst, times', grants', left);
  }

  class RateLimiter {
    const rate: real
    const burst: nat
    var tokens: real
    var last: real
    /** The moments of the calls, the construction first, and which calls were granted. */
    ghost var times: seq<real>
    ghost var grants: seq<bool>

    ghost predicate Valid()
      reads this
    {
      && |times| == |grants| > 0 && !grants[0] && times[|times| - 1] == last
      && Ordered(times)
      && IsTightest(rate, burst, times, grants, last, tokens)
      && AlwaysWithin(rate, burst, times, grants)
      && tokens <= burst as real && (rate >= 0.0 ==> 0.0 <= tokens)
    }

    constructor (rate: real, burst: nat, now: real)
      ensures Valid() && this.rate == rate && this.burst == burst && times == [now] && grants == [false]
      ensures tokens == burst as real && last == now
    {
      this.rate := rate;
      this.burst := burst;
      tokens := burst as real;
      last := now;
      times := [now];
      grants := [false];
      new;
      assert Room(rate, burst, times, grants, 0, now) == burst as real;
      AtStart(rate, burst, now);
    }

    /** Grants a call exactly if every window that ends now can take one more. */
    method TryAcquire(now: real) returns (ok: bool)
      requires Valid() && last <= now
      modifies this
      ensures Valid() && times == old(times) + [now] && grants == old(grants) + [ok] && last == now
      ensures var refilled := Refilled(rate, burst, old(tokens), old(last), now);
              tokens == refilled - (if ok then 1.0 else 0.0) && (ok <==> refilled >= 1.0)
      ensures ok <==> Fits(rate, burst, old(times), old(grants), now)
      ensures EndsWithin(rate, burst, times, grants, |old(times)|)
              <==> ok || 0.0 <= Refilled(rate, burst, old(tokens), old(last), now)
    {
      hide EndsWithin, IsTightest, Fits, Income, Ordered, AlwaysWithin, Refilled;
      var secs := now - last;
      ghost var was := tokens;
      RefillIs(rate, burst, tokens, last, now, secs);
      tokens := tokens + secs * rate;
      if burst as real < tokens {
        tokens := burst as real;
      }
      last := now;
      ok := tokens >= 1.0;
      AfterTry(rate, burst, times, grants, was, now, ok);
      if ok {
        tokens := tokens - 1.0;
      }
      times, grants := times + [now], grants + [ok];
    }
  }

  /**
   * In every window of calls i to j at most the capacity and the income of the window are granted;
   * with a negative rate, in every window that ends with a granted call.
   */
  lemma WindowBound(limiter: RateLimiter, i: nat, j: nat)
    requires limiter.Valid() && i <= j < |limiter.times| && (limiter.rate >= 0.0 || limiter.grants[j])
    ensures Granted(limiter.grants[..j + 1], i) as real
            <= limiter.burst as real + Income(limiter.rate, limiter.times[i], limiter.times[j])
  {
    hide Granted, Income, IsTightest;
  }

  /** The tokens after call j of a record, from a full bucket at the construction. */
  function TokensAt(rate: real, burst: nat, times: seq<real>, grants: seq<bool>, j: nat): real
    requires |times| == |grants| && j < |times|
  {
    if j == 0 then burst as real
    else Refilled(rate, burst, TokensAt(rate, burst, times, grants, j - 1), times[j - 1], times[j])
         - if grants[j] then 1.0 else 0.0
  }

  lemma {:induction false} TightestAt(rate: real, burst: nat, times: seq<real>, grants: seq<bool>, j: nat)
    requires |times| == |grants| && j < |times| && !grants[0]
    ensures IsTightest(rate, burst, times[..j + 1], grants[..j + 1], times[j], TokensAt(rate, burst, times, grants, j))
  {
    hide IsTightest, Refilled;
    if j == 0 {
      assert times[..1] == [times[0]] && grants[..1] == [false];
      FullBucket(rate, burst, times[0]);
    } else {
      TightestAt(rate, burst, times, grants, j - 1);
      assert times[..j + 1] == times[..j] + [times[j]] && grants[..j + 1] == grants[..j] + [grants[j]];
      AfterCall(rate, burst, times[..j], grants[..j], times[j - 1], TokensAt(rate, burst, times, grants, j - 1),
                times[j], grants[j]);
    }
  }

  lemma FullBucket(rate: real, burst: nat, start: real)
    ensures IsTightest(rate, burst, [start], [false], start, burst as real)
  {
    var grants := [false];
    assert grants[..0] == [];
    assert Granted(grants, 0) == 0;
    IncomeIs(rate, start, start, 0.0);
    assert Room(rate, burst, [start], grants, 0, start) == burst as real;
  }

  /**
   * Whatever the rate: the windows that end with call j are within bound exactly if the call was granted, or
   * the tokens it found were not negative.
   */
  lemma WindowBoundIff(limiter: RateLimiter, j: nat)
    requires limiter.Valid() && 0 < j < |limiter.times|
    ensures var rate, burst, times, grants := limiter.rate, limiter.burst, limiter.times, limiter.grants;
            EndsWithin(rate, burst, times, grants, j) <==>
            grants[j]
            || 0.0 <= Refilled(rate, burst, TokensAt(rate, burst, times, grants, j - 1), times[j - 1], times[j])
  {
    var rate, burst, times, grants := limiter.rate, limiter.burst, limiter.times, limiter.grants;
    hide IsTightest, EndsWithin, Refilled;
    TightestAt(rate, burst, times, grants, j);
    EndsWithinIff(rate, burst, times[..j + 1], grants[..j + 1], TokensAt(rate, burst, times, grants, j));
    WindowsOfFront(rate, burst, times, grants, j + 1, j);
  }

  /**
   * A negative rate: a call that is refused after half a second leaves its window within bound, for one that
   * is refused after one and a half seconds the income has sunk below zero.
   */
  method NegativeRate(late: bool) returns (limiter: RateLimiter)
    ensures limiter.Valid() && limiter.rate == -1.0 && limiter.grants == [false, false]
    ensures EndsWithin(limiter.rate, limiter.burst, limiter.times, limiter.grants, 1) <==> !late
  {
    hide EndsWithin, IsTightest, AlwaysWithin, Fits;
    limiter := new RateLimiter(-1.0, 1, 0.0);
    var ok := limiter.TryAcquire(if late then 1.5 else 0.5);
    assert Refilled(-1.0, 1, 1.0, 0.0, 0.5) == 0.5 && Refilled(-1.0, 1, 1.0, 0.0, 1.5) == -0.5;
  }
}
