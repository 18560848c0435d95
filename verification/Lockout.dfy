/**
  The per-account lock of the login handler: consecutive failures are counted, and
  at the threshold the account is locked for a fixed time.
 */
module Lockout {
  import opened Text

  datatype Policy = Policy(threshold: int, lock: int)

  predicate Valid(p: Policy) {
    p.threshold >= 1 && p.lock >= 1
  }

  /** The two maps of the login service. */
  datatype Guard = Guard(failures: map<string, int>, lockedUntil: map<string, int>)

  const EMPTY := Guard(map[], map[])

  // `valid` stands for the address check of Go's mail parser.

  function IsLocked(valid: string -> bool, g: Guard, email: string, now: int): (Guard, bool) {
    var e := Normal(email);
    if !valid(e) || e !in g.lockedUntil then (g, false)
    else if now < g.lockedUntil[e] then (g, true)
    else (Guard(g.failures - {e}, g.lockedUntil - {e}), false)
  }

  function Register(valid: string -> bool, p: Policy, g: Guard, email: string, now: int): Guard {
    var e := Normal(email);
    if !valid(e) || (e in g.lockedUntil && now < g.lockedUntil[e]) then g
    else
      var n := (if e in g.failures then g.failures[e] else 0) + 1;
      if n >= p.threshold then Guard(g.failures[e := 0], g.lockedUntil[e := now + p.lock])
      else Guard(g.failures[e := n], g.lockedUntil)
  }

  function Clear(g: Guard, email: string): Guard {
    var e := Normal(email);
    if e == "" then g else Guard(g.failures - {e}, g.lockedUntil - {e})
  }

  /** Every account but `e` is as it was. */
  ghost predicate OthersSame(g: Guard, g': Guard, e: string) {
    forall x :: x != e ==>
      && (x in g.failures <==> x in g'.failures) && (x in g.failures ==> g.failures[x] == g'.failures[x])
      && (x in g.lockedUntil <==> x in g'.lockedUntil) && (x in g.lockedUntil ==> g.lockedUntil[x] == g'.lockedUntil[x])
  }

  class LoginGuard {
    var failures: map<string, int>
    var lockedUntil: map<string, int>
    const policy: Policy
    const valid: string -> bool

    function State(): Guard
      reads this
    {
      Guard(failures, lockedUntil)
    }

    constructor (valid: string -> bool, threshold: int, lockMinutes: int, minute: int)
      requires minute >= 1
      ensures State() == EMPTY && this.valid == valid && Valid(policy)
      ensures policy == Policy(if threshold < 1 then 5 else threshold, (if lockMinutes < 1 then 15 else lockMinutes) * minute)
    {
      failures, lockedUntil := map[], map[];
      this.valid := valid;
      var t := threshold;
      var m := lockMinutes;
      if t < 1 {
        t := 5;
      }
      if m < 1 {
        m := 15;
      }
      policy := Policy(t, m * minute);
      assert m * minute >= 1;
    }

    /** A lock that has ended is taken away together with the account's counter; otherwise nothing changes. */
    method IsLoginLocked(email: string, now: int) returns (locked: bool)
      modifies this
      ensures var e := Normal(email); locked <==> valid(e) && e in old(lockedUntil) && now < old(lockedUntil)[e]
      ensures var e := Normal(email);
        !locked && valid(e) ==> e !in lockedUntil && (e in old(lockedUntil) ==> e !in failures)
      ensures var e := Normal(email);
        locked || !valid(e) || e !in old(lockedUntil) ==> State() == old(State())
      ensures OthersSame(old(State()), State(), Normal(email))
      ensures (State(), locked) == IsLocked(valid, old(State()), email, now)
    {
      var e := Normal(email);
      if !valid(e) {
        return false;
      }
      if e !in lockedUntil {
        return false;
      }
      if now < lockedUntil[e] {
        return true;
      }
      lockedUntil := lockedUntil - {e};
      failures := failures - {e};
      return false;
    }

    /** The failure that reaches the threshold locks the account for the full time; while locked, failures change nothing. */
    method RegisterLoginFailure(email: string, now: int)
      modifies this
      ensures var e := Normal(email);
        !valid(e) || (e in old(lockedUntil) && now < old(lockedUntil)[e]) ==> State() == old(State())
      ensures var e := Normal(email);
        valid(e) && !(e in old(lockedUntil) && now < old(lockedUntil)[e]) ==>
          var n := 1 + if e in old(failures) then old(failures)[e] else 0;
          if n >= policy.threshold then
            forall t :: IsLocked(valid, State(), email, t).1 <==> t < now + policy.lock
          else
            && e in failures && failures[e] == n
            && (e in lockedUntil <==> e in old(lockedUntil)) && (e in lockedUntil ==> lockedUntil[e] == old(lockedUntil)[e])
      ensures OthersSame(old(State()), State(), Normal(email))
      ensures State() == Register(valid, policy, old(State()), email, now)
    {
      var e := Normal(email);
      if !valid(e) {
        return;
      }
      if e in lockedUntil && now < lockedUntil[e] {
        return;
      }
      failures := failures[e := (if e in failures then failures[e] else 0) + 1];
      if failures[e] >= policy.threshold {
        lockedUntil := lockedUntil[e := now + policy.lock];
        failures := failures[e := 0];
      }
    }

    /** Afterwards the account is not locked at any time and starts counting from zero. */
    method ClearLoginFailures(email: string)
      modifies this
      ensures var e := Normal(email);
        e != "" ==> e !in failures && e !in lockedUntil && forall t :: !IsLocked(valid, State(), email, t).1
      ensures Normal(email) == "" ==> State() == old(State())
      ensures OthersSame(old(State()), State(), Normal(email))
      ensures State() == Clear(old(State()), email)
    {
      var e := Normal(email);
      if e == "" {
        return;
      }
      failures := failures - {e};
      lockedUntil := lockedUntil - {e};
    }

    /** The part of the login handler between decoding the request and issuing tokens. */
    method CheckPassword(email: string, credentials: Credentials, now: int) returns (o: Outcome)
      modifies this
      ensures (State(), o) == Attempt(valid, policy, old(State()), Login(email, credentials, now))
    {
      var e := Normal(email);
      NormalIdempotent(email);
      var locked := IsLoginLocked(e, now);
      if locked {
        return Refused;
      }
      match credentials
      case StoreError =>
        return Failed500;
      case Wrong =>
        RegisterLoginFailure(e, now);
        return FailedCheck;
      case Right =>
        ClearLoginFailures(e);
        return Success;
    }
  }

  // ----- login attempts one after the other -----

  /** What looking the account up and comparing the password gives. */
  datatype Credentials = StoreError | Wrong | Right

  datatype Login = Login(email: string, credentials: Credentials, at: int)

  datatype Outcome = Refused | Failed500 | FailedCheck | Success

  function Attempt(valid: string -> bool, p: Policy, g: Guard, a: Login): (Guard, Outcome) {
    var (g', locked) := IsLocked(valid, g, a.email, a.at);
    if locked then (g', Refused)
    else match a.credentials
      case StoreError => (g', Failed500)
      case Wrong => (Register(valid, p, g', a.email, a.at), FailedCheck)
      case Right => (Clear(g', a.email), Success)
  }

  predicate Ordered(run: seq<Login>) {
    forall i, j :: 0 <= i < j < |run| ==> run[i].at <= run[j].at
  }

  function After(valid: string -> bool, p: Policy, g: Guard, run: seq<Login>): Guard
    decreases |run|
  {
    if run == [] then g else After(valid, p, Attempt(valid, p, g, run[0]).0, run[1..])
  }

  /** How many attempts for account `e` in [from, to) end with outcome `o`. */
  function Count(valid: string -> bool, p: Policy, g: Guard, run: seq<Login>, e: string, o: Outcome, from: int, to: int): nat
    decreases |run|
  {
    if run == [] then 0
    else
      var (g', o') := Attempt(valid, p, g, run[0]);
      (if Normal(run[0].email) == e && o' == o && from <= run[0].at < to then 1 else 0)
      + Count(valid, p, g', run[1..], e, o, from, to)
  }

  // ----- invariants of every run -----

  /** Every counter is below the threshold, and a locked account has a zero counter. */
  ghost predicate GuardInv(p: Policy, g: Guard) {
    && (forall e :: e in g.failures ==> 0 <= g.failures[e] < p.threshold)
    && (forall e :: e in g.lockedUntil && e in g.failures ==> g.failures[e] == 0)
  }

  lemma AttemptKeepsInv(valid: string -> bool, p: Policy, g: Guard, a: Login)
    requires Valid(p) && GuardInv(p, g)
    ensures GuardInv(p, Attempt(valid, p, g, a).0)
  {
  }

  /** In every run the stored counters stay below the threshold. */
  lemma {:induction false} CountersStayBelowThreshold(valid: string -> bool, p: Policy, g: Guard, run: seq<Login>)
    requires Valid(p) && GuardInv(p, g)
    ensures GuardInv(p, After(valid, p, g, run))
    decreases |run|
  {
    if run != [] {
      AttemptKeepsInv(valid, p, g, run[0]);
      CountersStayBelowThreshold(valid, p, Attempt(valid, p, g, run[0]).0, run[1..]);
    }
  }

  /**
    Until a lock ends nothing moves its end: no attempt at that account has its
    password checked, whatever the credentials.
   */
  lemma {:induction false} LockHolds(valid: string -> bool, p: Policy, g: Guard, run: seq<Login>, e: string, until: int, from: int, to: int)
    requires valid(e) && e in g.lockedUntil && g.lockedUntil[e] == until
    requires forall i :: 0 <= i < |run| ==> run[i].at < until
    ensures var g' := After(valid, p, g, run); e in g'.lockedUntil && g'.lockedUntil[e] == until
    ensures Count(valid, p, g, run, e, FailedCheck, from, to) == 0
    ensures Count(valid, p, g, run, e, Success, from, to) == 0
    decreases |run|
  {
    if run != [] {
      LockHolds(valid, p, Attempt(valid, p, g, run[0]).0, run[1..], e, until, from, to);
    }
  }

  // ----- the bound on guessing -----

  /**
    What is true of account `e` when `seen` of its failed checks fall in
    [a, a + lock), none of its successes does, and the last attempt came at `last`.
   */
  ghost predicate SlidingInv(p: Policy, g: Guard, e: string, a: int, seen: int, last: int) {
    var n := if e in g.failures then g.failures[e] else 0;
    && 0 <= n < p.threshold
    && (e in g.lockedUntil ==> n == 0 && g.lockedUntil[e] <= last + p.lock)
    && seen <= p.threshold
    && (last < a ==> seen == 0)
    && (last < a + p.lock ==> seen <= n || (e in g.lockedUntil && g.lockedUntil[e] >= a + p.lock))
  }

  lemma SlidingStep(valid: string -> bool, p: Policy, g: Guard, l: Login, e: string, a: int, seen: int, last: int)
    requires Valid(p) && valid(e) && last <= l.at
    requires SlidingInv(p, g, e, a, seen, last)
    requires Normal(l.email) == e && Attempt(valid, p, g, l).1 == Success ==> !(a <= l.at < a + p.lock)
    ensures var (g', o) := Attempt(valid, p, g, l);
      SlidingInv(p, g', e, a, seen + if Normal(l.email) == e && o == FailedCheck && a <= l.at < a + p.lock then 1 else 0, l.at)
  {
  }

  lemma {:induction false} SlidingFrom(valid: string -> bool, p: Policy, g: Guard, run: seq<Login>, e: string, a: int, seen: int, last: int)
    requires Valid(p) && valid(e) && Ordered(run) && SlidingInv(p, g, e, a, seen, last)
    requires run != [] ==> last <= run[0].at
    requires Count(valid, p, g, run, e, Success, a, a + p.lock) == 0
    ensures seen + Count(valid, p, g, run, e, FailedCheck, a, a + p.lock) <= p.threshold
    decreases |run|
  {
    if run != [] {
      var (g', o) := Attempt(valid, p, g, run[0]);
      var seen' := seen + if Normal(run[0].email) == e && o == FailedCheck && a <= run[0].at < a + p.lock then 1 else 0;
      SlidingStep(valid, p, g, run[0], e, a, seen, last);
      SlidingFrom(valid, p, g', run[1..], e, a, seen', run[0].at);
    }
  }

  /**
    In any interval as long as the lock, an account without a successful login in
    it has at most `threshold` failed password checks.
   */
  lemma LockoutBound(valid: string -> bool, p: Policy, run: seq<Login>, e: string, a: int)
    requires Valid(p) && valid(e) && Ordered(run)
    requires Count(valid, p, EMPTY, run, e, Success, a, a + p.lock) == 0
    ensures Count(valid, p, EMPTY, run, e, FailedCheck, a, a + p.lock) <= p.threshold
  {
    var first := if run != [] && run[0].at < a then run[0].at else a - 1;
    SlidingFrom(valid, p, EMPTY, run, e, a, 0, first);
  }

  function Repeat(l: Login, n: nat): (run: seq<Login>)
    ensures |run| == n && forall i :: 0 <= i < n ==> run[i] == l
  {
    if n == 0 then [] else [l] + Repeat(l, n - 1)
  }

  /** An address that the mail parser rejects is never locked: its failed checks have no bound. */
  lemma {:induction false} InvalidAddressUnbounded(valid: string -> bool, p: Policy, g: Guard, e: string, n: nat, a: int)
    requires Valid(p) && Normal(e) == e && !valid(e)
    ensures Count(valid, p, g, Repeat(Login(e, Wrong, a), n), e, FailedCheck, a, a + p.lock) == n
  {
    if n > 0 {
      var l := Login(e, Wrong, a);
      assert ([l] + Repeat(l, n - 1))[1..] == Repeat(l, n - 1);
      InvalidAddressUnbounded(valid, p, g, e, n - 1, a);
    }
  }

  /** In this run, no more than `threshold` failed checks fall into the interval from `a`, if no success does. */
  predicate BoundedFrom(valid: string -> bool, p: Policy, run: seq<Login>, e: string, a: int) {
    Count(valid, p, EMPTY, run, e, Success, a, a + p.lock) == 0 ==>
      Count(valid, p, EMPTY, run, e, FailedCheck, a, a + p.lock) <= p.threshold
  }

  ghost predicate Bounded(valid: string -> bool, p: Policy, e: string) {
    forall run, a :: Ordered(run) ==> BoundedFrom(valid, p, run, e, a)
  }

  /** The bound holds for exactly those accounts whose address the mail parser accepts. */
  lemma BoundedIffValid(valid: string -> bool, p: Policy, e: string)
    requires Valid(p) && Normal(e) == e
    ensures Bounded(valid, p, e) <==> valid(e)
  {
    if valid(e) {
      forall run, a | Ordered(run) ensures BoundedFrom(valid, p, run, e, a) {
        if Count(valid, p, EMPTY, run, e, Success, a, a + p.lock) == 0 {
          LockoutBound(valid, p, run, e, a);
        }
      }
    } else {
      var run := Repeat(Login(e, Wrong, 0), p.threshold + 1);
      InvalidAddressUnbounded(valid, p, EMPTY, e, p.threshold + 1, 0);
      NoSuccess(valid, p, EMPTY, e, p.threshold + 1, 0);
      assert Ordered(run) && !BoundedFrom(valid, p, run, e, 0);
    }
  }

  lemma {:induction false} NoSuccess(valid: string -> bool, p: Policy, g: Guard, e: string, n: nat, a: int)
    ensures Count(valid, p, g, Repeat(Login(e, Wrong, a), n), e, Success, a, a + p.lock) == 0
    decreases n
  {
    if n > 0 {
      var l := Login(e, Wrong, a);
      assert ([l] + Repeat(l, n - 1))[1..] == Repeat(l, n - 1);
      NoSuccess(valid, p, Attempt(valid, p, g, l).0, e, n - 1, a);
    }
  }

  lemma {:induction false} ThresholdLocks(valid: string -> bool, p: Policy, g: Guard, e: string, n: nat, t: int)
    requires Valid(p) && Normal(e) == e && valid(e) && e !in g.lockedUntil && n >= 1
    requires (if e in g.failures then g.failures[e] else 0) + n == p.threshold
    ensures var run := Repeat(Login(e, Wrong, t), n);
      && Count(valid, p, g, run, e, FailedCheck, t, t + 1) == n
      && var g' := After(valid, p, g, run);
         e in g'.lockedUntil && g'.lockedUntil[e] == t + p.lock
    decreases n
  {
    var l := Login(e, Wrong, t);
    assert ([l] + Repeat(l, n - 1))[1..] == Repeat(l, n - 1);
    if n > 1 {
      ThresholdLocks(valid, p, Attempt(valid, p, g, l).0, e, n - 1, t);
    }
  }

  /** The bound is reached: `threshold` wrong passwords in a row are all checked, and then the lock is on for its full length. */
  lemma BoundReached(valid: string -> bool, p: Policy, e: string, t: int)
    requires Valid(p) && Normal(e) == e && valid(e)
    ensures var run := Repeat(Login(e, Wrong, t), p.threshold);
      && Count(valid, p, EMPTY, run, e, FailedCheck, t, t + p.lock) == p.threshold
      && forall now, c :: t <= now < t + p.lock ==> Attempt(valid, p, After(valid, p, EMPTY, run), Login(e, c, now)).1 == Refused
  {
    ThresholdLocks(valid, p, EMPTY, e, p.threshold, t);
    CountWider(valid, p, EMPTY, Repeat(Login(e, Wrong, t), p.threshold), e, FailedCheck, t);
  }

  lemma {:induction false} CountWider(valid: string -> bool, p: Policy, g: Guard, run: seq<Login>, e: string, o: Outcome, t: int)
    requires Valid(p) && forall i :: 0 <= i < |run| ==> run[i].at == t
    ensures Count(valid, p, g, run, e, o, t, t + 1) == Count(valid, p, g, run, e, o, t, t + p.lock)
    decreases |run|
  {
    if run != [] {
      CountWider(valid, p, Attempt(valid, p, g, run[0]).0, run[1..], e, o, t);
    }
  }

  // ----- refusals are justified -----

  /** Failed checks of `e` since its last success, starting from `n` of them. */
  function Streak(valid: string -> bool, p: Policy, g: Guard, run: seq<Login>, e: string, n: nat): nat
    decreases |run|
  {
    if run == [] then n
    else
      var (g', o) := Attempt(valid, p, g, run[0]);
      var n' := if Normal(run[0].email) != e then n else if o == FailedCheck then n + 1 else if o == Success then 0 else n;
      Streak(valid, p, g', run[1..], e, n')
  }

  ghost predicate StreakInv(p: Policy, g: Guard, e: string, n: nat) {
    && (e == "" ==> e !in g.failures && e !in g.lockedUntil)
    && (e in g.failures ==> g.failures[e] <= n)
    && (e in g.lockedUntil ==> n >= p.threshold)
  }

  lemma {:induction false} StreakKept(valid: string -> bool, p: Policy, g: Guard, run: seq<Login>, e: string, n: nat)
    requires Valid(p) && !valid("") && StreakInv(p, g, e, n)
    ensures StreakInv(p, After(valid, p, g, run), e, Streak(valid, p, g, run, e, n))
    decreases |run|
  {
    if run != [] {
      var (g', o) := Attempt(valid, p, g, run[0]);
      var n' := if Normal(run[0].email) != e then n else if o == FailedCheck then n + 1 else if o == Success then 0 else n;
      StreakKept(valid, p, g', run[1..], e, n');
    }
  }

  /** An account is refused only after `threshold` failed checks with no success in between. */
  lemma RefusedOnlyAfterThreshold(valid: string -> bool, p: Policy, run: seq<Login>, l: Login)
    requires Valid(p) && !valid("")
    requires Attempt(valid, p, After(valid, p, EMPTY, run), l).1 == Refused
    ensures Streak(valid, p, EMPTY, run, Normal(l.email), 0) >= p.threshold
  {
    StreakKept(valid, p, EMPTY, run, Normal(l.email), 0);
  }
}
