/**
 Announce tokens (`bip_dht/src/token.rs`). A call reads the clock once, in milliseconds, and the clock
 never goes back; the random secrets a call may draw are its parameters.
 */
module Tokens {
  import opened Basics
  import Transactions

  const REFRESH_INTERVAL_MINS: int := 10
  const MINUTE: int := 60 * 1000

  type Secret = s: nat | s < 0x1_0000_0000

  datatype Store = Store(curr: Secret, last: Secret, lastRefresh: int)

  /** A call of the store: when it happens, and what it would draw for the last and the current secret. */
  datatype Call = Call(now: int, drawLast: Secret, drawCurr: Secret)

  function TruncatedDivide(a: int, b: int): int
    requires b > 0
  {
    if a >= 0 then a / b else -(-a / b)
  }

  function IntervalsPassed(lastRefresh: int, now: int): int {
    TruncatedDivide(TruncatedDivide(now - lastRefresh, MINUTE), REFRESH_INTERVAL_MINS)
  }

  function Refreshed(s: Store, c: Call): Store {
    var n := IntervalsPassed(s.lastRefresh, c.now);
    if n == 0 then s
    else if n == 1 then Store(c.drawCurr, s.curr, c.now)
    else Store(c.drawCurr, c.drawLast, c.now)
  }

  function SecretBytes(secret: Secret): seq<byte> {
    Transactions.Bytes(secret, 4)
  }

  /** The hash of the address and the secret. */
  function Generated<Token>(address: seq<byte>, secret: Secret, sha: seq<byte> -> Token): Token {
    sha(address + SecretBytes(secret))
  }

  predicate Accepts<Token(==)>(s: Store, address: seq<byte>, token: Token, sha: seq<byte> -> Token) {
    Generated(address, s.curr, sha) == token || Generated(address, s.last, sha) == token
  }

  class TokenStore<Token(==)> {
    const sha: seq<byte> -> Token
    var currSecret: Secret
    var lastSecret: Secret
    var lastRefresh: int

    function View(): Store
      reads this
    {
      Store(currSecret, lastSecret, lastRefresh)
    }

    constructor (sha: seq<byte> -> Token, curr: Secret, last: Secret, now: int)
      ensures this.sha == sha && View() == Store(curr, last, now)
    {
      this.sha, currSecret, lastSecret, lastRefresh := sha, curr, last, now;
    }

    method Checkout(address: seq<byte>, c: Call) returns (token: Token)
      modifies this
      ensures View() == Refreshed(old(View()), c) && token == Generated(address, currSecret, sha)
    {
      RefreshCheck(c);
      token := Generate(address, currSecret);
    }

    method Checkin(address: seq<byte>, token: Token, c: Call) returns (valid: bool)
      modifies this
      ensures View() == Refreshed(old(View()), c) && (valid <==> Accepts(View(), address, token, sha))
    {
      RefreshCheck(c);
      var one := Generate(address, currSecret);
      var two := Generate(address, lastSecret);
      valid := one == token || two == token;
    }

    method RefreshCheck(c: Call)
      modifies this
      ensures View() == Refreshed(old(View()), c)
    {
      var n := IntervalsPassed(lastRefresh, c.now);
      if n == 1 {
        lastSecret := currSecret;
        currSecret := c.drawCurr;
        lastRefresh := c.now;
      } else if n != 0 {
        lastSecret := c.drawLast;
        currSecret := c.drawCurr;
        lastRefresh := c.now;
      }
    }

    /** The address and the secret are copied byte by byte into a buffer, which is hashed. */
    method Generate(address: seq<byte>, secret: Secret) returns (token: Token)
      ensures token == Generated(address, secret, sha)
    {
      var source := address + SecretBytes(secret);
      var buffer := new byte[|source|](_ => 0);
      for i := 0 to buffer.Length
        invariant buffer[..i] == source[..i]
      {
        buffer[i] := source[i];
      }
      assert buffer[..] == source;
      token := sha(buffer[..]);
    }
  }

  // ---------------------------------------------------------------------------------------------
  // How long a secret lives
  // ---------------------------------------------------------------------------------------------

  ghost function Run(s: Store, calls: seq<Call>): Store
    decreases |calls|
  {
    if calls == [] then s else Run(Refreshed(s, calls[0]), calls[1..])
  }

  /** The calls happen one after the other, none before `start`. */
  ghost predicate Clocked(calls: seq<Call>, start: int) {
    && (forall i :: 0 <= i < |calls| ==> start <= calls[i].now)
    && (forall i, j :: 0 <= i < j < |calls| ==> calls[i].now <= calls[j].now)
  }

  lemma Intervals(lastRefresh: int, now: int, n: int)
    requires lastRefresh <= now
    ensures IntervalsPassed(lastRefresh, now) >= n <==> now - lastRefresh >= n * 10 * MINUTE || n <= 0
  {
    var d := now - lastRefresh;
    assert d / MINUTE / 10 == d / (10 * MINUTE);
    if n > 0 {
      assert d / (10 * MINUTE) >= n <==> d >= n * (10 * MINUTE);
    }
  }

  lemma RefreshAt(s: Store, c: Call)
    requires s.lastRefresh <= c.now
    ensures var age := c.now - s.lastRefresh;
            Refreshed(s, c) == if age < 10 * MINUTE then s
                               else if age < 20 * MINUTE then Store(c.drawCurr, s.curr, c.now)
                               else Store(c.drawCurr, c.drawLast, c.now)
  {
    hide IntervalsPassed;
    Intervals(s.lastRefresh, c.now, 0);
    Intervals(s.lastRefresh, c.now, 1);
    Intervals(s.lastRefresh, c.now, 2);
  }

  /** What no secret outlives, counted from its last checkout. */
  const LONGEST_LIFE: int := 30 * MINUTE - 1

  ghost predicate Known(s: Store, secret: Secret) {
    s.curr == secret || s.last == secret
  }

  /** In the ten minutes after `start` the secret is current, or last and recently so. */
  ghost predicate Remembered(s: Store, secret: Secret, start: int) {
    (s.curr == secret && s.lastRefresh > start - 10 * MINUTE) || (s.last == secret && s.lastRefresh > start)
  }

  lemma {:induction false} StillRemembered(s: Store, secret: Secret, start: int, from: int, calls: seq<Call>)
    requires Remembered(s, secret, start) && s.lastRefresh <= from && start <= from && Clocked(calls, from)
    requires forall i :: 0 <= i < |calls| ==> calls[i].now <= start + 10 * MINUTE
    ensures Remembered(Run(s, calls), secret, start)
    decreases |calls|
  {
    hide Refreshed;
    if calls != [] {
      RefreshAt(s, calls[0]);
      StillRemembered(Refreshed(s, calls[0]), secret, start, calls[0].now, calls[1..]);
    }
  }

  /**
   Whatever calls come in between, the secret of a checkout is the current or the last one at every
   check-in up to ten minutes later, so the token is accepted.
   */
  lemma AcceptedForTenMinutes<Token>(
    s: Store, checkout: Call, calls: seq<Call>, address: seq<byte>, sha: seq<byte> -> Token)
    requires s.lastRefresh <= checkout.now && Clocked(calls, checkout.now)
    requires forall i :: 0 <= i < |calls| ==> calls[i].now <= checkout.now + 10 * MINUTE
    ensures var out := Refreshed(s, checkout);
            var r := Run(out, calls);
            && Known(r, out.curr)
            && Accepts(r, address, Generated(address, out.curr, sha), sha)
  {
    hide Refreshed;
    RefreshAt(s, checkout);
    StillRemembered(Refreshed(s, checkout), Refreshed(s, checkout).curr, checkout.now, checkout.now, calls);
  }

  /** How long ago the refresh was that made the secret current, or last. */
  ghost predicate Fading(s: Store, secret: Secret, start: int) {
    (s.curr == secret ==> s.lastRefresh <= start) && (s.last == secret ==> s.lastRefresh < start + 20 * MINUTE)
  }

  ghost predicate NeverDrawn(calls: seq<Call>, secret: Secret) {
    forall i :: 0 <= i < |calls| ==> calls[i].drawLast != secret && calls[i].drawCurr != secret
  }

  lemma {:induction false} StillFading(s: Store, secret: Secret, start: int, from: int, calls: seq<Call>)
    requires Fading(s, secret, start) && s.lastRefresh <= from && Clocked(calls, from) && NeverDrawn(calls, secret)
    ensures Fading(Run(s, calls), secret, start)
    ensures calls != [] && calls[|calls| - 1].now >= start + LONGEST_LIFE ==> !Known(Run(s, calls), secret)
    decreases |calls|
  {
    hide Refreshed;
    if calls != [] {
      var s' := Refreshed(s, calls[0]);
      RefreshAt(s, calls[0]);
      StillFading(s', secret, start, calls[0].now, calls[1..]);
      if |calls| > 1 { assert calls[1..][|calls| - 2] == calls[|calls| - 1]; }
    }
  }

  /**
   Whatever calls come in between, at a check-in a millisecond before thirty minutes after the checkout,
   or later, the secret is neither the current nor the last one, unless it was drawn again.
   */
  lemma ForgottenAfterThirtyMinutes(s: Store, checkout: Call, calls: seq<Call>)
    requires s.lastRefresh <= checkout.now && Clocked(calls, checkout.now)
    requires NeverDrawn(calls, Refreshed(s, checkout).curr)
    requires calls != [] && calls[|calls| - 1].now >= checkout.now + LONGEST_LIFE
    ensures var out := Refreshed(s, checkout);
            !Known(Run(out, calls), out.curr)
  {
    hide Refreshed;
    RefreshAt(s, checkout);
    StillFading(Refreshed(s, checkout), Refreshed(s, checkout).curr, checkout.now, checkout.now, calls);
  }

  /** Then the token is rejected, unless another secret happens to give the same one. */
  lemma RejectedAfterThirtyMinutes<Token>(
    s: Store, checkout: Call, calls: seq<Call>, address: seq<byte>, sha: seq<byte> -> Token)
    requires s.lastRefresh <= checkout.now && Clocked(calls, checkout.now)
    requires NeverDrawn(calls, Refreshed(s, checkout).curr)
    requires calls != [] && calls[|calls| - 1].now >= checkout.now + LONGEST_LIFE
    ensures var out := Refreshed(s, checkout);
            var token := Generated(address, out.curr, sha);
            Accepts(Run(out, calls), address, token, sha) ==>
              exists x: Secret :: x != out.curr && Generated(address, x, sha) == token
  {
    hide Refreshed, Run;
    ForgottenAfterThirtyMinutes(s, checkout, calls);
  }

  // ---------------------------------------------------------------------------------------------
  // Exactly how long
  // ---------------------------------------------------------------------------------------------

  /** The position of the first call at or after the given time. */
  function FirstFrom(calls: seq<Call>, time: int): (i: nat)
    ensures i <= |calls| && (i < |calls| ==> calls[i].now >= time)
    ensures forall j :: 0 <= j < i ==> calls[j].now < time
  {
    if calls == [] || calls[0].now >= time then 0 else 1 + FirstFrom(calls[1..], time)
  }

  lemma {:induction false} StaysUnknown(s: Store, secret: Secret, calls: seq<Call>)
    requires !Known(s, secret) && NeverDrawn(calls, secret)
    ensures !Known(Run(s, calls), secret)
    decreases |calls|
  {
    if calls != [] { StaysUnknown(Refreshed(s, calls[0]), secret, calls[1..]); }
  }

  /** As the last one, a secret is known until the first call ten minutes after the refresh that made it so. */
  lemma {:induction false} LastFor(s: Store, secret: Secret, calls: seq<Call>)
    requires s.curr != secret && s.last == secret && NeverDrawn(calls, secret) && Clocked(calls, s.lastRefresh)
    ensures Known(Run(s, calls), secret) <==>
              forall j :: 0 <= j < |calls| ==> calls[j].now < s.lastRefresh + 10 * MINUTE
    decreases |calls|
  {
    hide Refreshed;
    if calls != [] {
      RefreshAt(s, calls[0]);
      if calls[0].now < s.lastRefresh + 10 * MINUTE {
        LastFor(s, secret, calls[1..]);
        assert forall j :: 0 < j < |calls| ==> calls[j] == calls[1..][j - 1];
      } else {
        StaysUnknown(Refreshed(s, calls[0]), secret, calls[1..]);
      }
    }
  }

  /**
   The current secret of a store is known after any calls if and only if none of them comes ten minutes
   or more after its refresh, or the first that does comes before twenty and no other ten minutes or
   more after that one.
   */
  lemma {:induction false} ExactLifetime(s: Store, calls: seq<Call>)
    requires Clocked(calls, s.lastRefresh) && NeverDrawn(calls, s.curr)
    ensures var i := FirstFrom(calls, s.lastRefresh + 10 * MINUTE);
            Known(Run(s, calls), s.curr) <==>
              || i == |calls|
              || (calls[i].now < s.lastRefresh + 20 * MINUTE
                  && forall j :: i < j < |calls| ==> calls[j].now < calls[i].now + 10 * MINUTE)
    decreases |calls|
  {
    hide Refreshed;
    if calls != [] {
      var rest := calls[1..];
      assert forall j :: 0 < j < |calls| ==> calls[j] == rest[j - 1];
      assert forall j :: 0 <= j < |rest| ==> rest[j] == calls[j + 1];
      RefreshAt(s, calls[0]);
      var s' := Refreshed(s, calls[0]);
      if calls[0].now < s.lastRefresh + 10 * MINUTE {
        ExactLifetime(s, rest);
      } else if calls[0].now < s.lastRefresh + 20 * MINUTE {
        LastFor(s', s.curr, rest);
      } else {
        StaysUnknown(s', s.curr, rest);
      }
    }
  }

  /** Both bounds are exact, to the millisecond: a secret can be gone just after ten minutes, ... */
  lemma GoneAfterTenMinutes(curr: Secret, last: Secret, drawLast: Secret, drawCurr: Secret)
    requires drawLast != curr && drawCurr != curr
    ensures var start := 10 * MINUTE - 1;
            var out := Refreshed(Store(curr, last, 0), Call(start, drawLast, drawCurr));
            var r := Run(out, [Call(start + 10 * MINUTE + 1, drawLast, drawCurr)]);
            out.curr == curr && !Known(r, curr)
  {
    var call := Call(20 * MINUTE, drawLast, drawCurr);
    assert [call][1..] == [];
    assert Run(Store(curr, last, 0), [call]) == Refreshed(Store(curr, last, 0), call);
  }

  /** ... and it can be accepted until a millisecond before it must be gone, although twenty minutes are promised. */
  lemma KeptForAlmostThirtyMinutes(curr: Secret, last: Secret, drawLast: Secret, drawCurr: Secret)
    ensures var out := Refreshed(Store(curr, last, 0), Call(0, drawLast, drawCurr));
            var r := Run(out, [Call(20 * MINUTE - 1, drawLast, drawCurr), Call(LONGEST_LIFE - 1, drawLast, drawCurr)]);
            out.curr == curr && r.last == curr
  {
    var s := Store(curr, last, 0);
    var a, b := Call(20 * MINUTE - 1, drawLast, drawCurr), Call(LONGEST_LIFE - 1, drawLast, drawCurr);
    RefreshAt(s, Call(0, drawLast, drawCurr));
    RefreshAt(s, a);
    RefreshAt(Refreshed(s, a), b);
    assert [a, b][1..] == [b] && [b][1..] == [];
    assert Run(s, [a, b]) == Run(Refreshed(s, a), [b]) == Refreshed(Refreshed(s, a), b);
  }
}
