/**
  The fixed-window rate limiter in front of the login and send handlers.

  Time is an integer number of clock ticks that the caller passes in.
 */
module RateLimit {
  import opened Text

  datatype Bucket = Bucket(windowStart: int, count: int)

  type Buckets = map<string, Bucket>

  datatype Limits = Limits(max: int, window: int)

  predicate Valid(l: Limits) {
    l.max >= 1 && l.window >= 1
  }

  /** Keys are compared without case and outer white space; a blank key is shared by all. */
  function KeyOf(key: string): string {
    var k := TrimSpace(ToLower(key));
    if k == "" then "global" else k
  }

  /** One request for an already normalised key: the new buckets and whether it is admitted. */
  function Request(l: Limits, bs: Buckets, key: string, now: int): (Buckets, bool) {
    if key !in bs || now - bs[key].windowStart >= l.window then
      (bs[key := Bucket(now, 1)], true)
    else if bs[key].count >= l.max then
      (bs, false)
    else
      (bs[key := Bucket(bs[key].windowStart, bs[key].count + 1)], true)
  }

  class FixedWindow {
    var buckets: Buckets
    const limits: Limits

    constructor (max: int, window: int, minute: int)
      requires minute >= 1
      ensures buckets == map[]
      ensures Valid(limits)
      ensures limits == Limits(if max < 1 then 1 else max, if window <= 0 then minute else window)
    {
      buckets := map[];
      limits := Limits(if max < 1 then 1 else max, if window <= 0 then minute else window);
    }

    method Allow(key: string, now: int) returns (ok: bool)
      modifies this
      ensures (buckets, ok) == Request(limits, old(buckets), KeyOf(key), now)
      ensures forall k :: k != KeyOf(key) ==> (k in buckets <==> k in old(buckets)) && (k in buckets ==> buckets[k] == old(buckets)[k])
    {
      var k := TrimSpace(ToLower(key));
      if k == "" {
        k := "global";
      }
      if k !in buckets || now - buckets[k].windowStart >= limits.window {
        buckets := buckets[k := Bucket(now, 1)];
        return true;
      }
      var b := buckets[k];
      if b.count >= limits.max {
        return false;
      }
      b := b.(count := b.count + 1);
      buckets := buckets[k := b];
      return true;
    }
  }

  /** Keys share a bucket exactly if they are equal but for letter case and outer white space; all blank keys share that of "global". */
  lemma SharedBucketIff(a: string, b: string)
    ensures TrimSpace(a) == "" <==> TrimSpace(ToLower(a)) == ""
    ensures TrimSpace(a) == "" ==> KeyOf(a) == "global"
    ensures TrimSpace(a) != "" && TrimSpace(b) != "" ==> (KeyOf(a) == KeyOf(b) <==> EqualFold(TrimSpace(a), TrimSpace(b)))
  {
    LowerTrim(a);
    LowerTrim(b);
  }

  // ----- runs -----

  datatype Call = Call(key: string, at: int)

  predicate Ordered(calls: seq<Call>) {
    forall i, j :: 0 <= i < j < |calls| ==> calls[i].at <= calls[j].at
  }

  function After(l: Limits, bs: Buckets, calls: seq<Call>): Buckets
    decreases |calls|
  {
    if calls == [] then bs
    else After(l, Request(l, bs, KeyOf(calls[0].key), calls[0].at).0, calls[1..])
  }

  /** The number of requests for `key` at times in [from, to) that a run admits. */
  function Admitted(l: Limits, bs: Buckets, calls: seq<Call>, key: string, from: int, to: int): nat
    decreases |calls|
  {
    if calls == [] then 0
    else
      var (bs', ok) := Request(l, bs, KeyOf(calls[0].key), calls[0].at);
      (if ok && KeyOf(calls[0].key) == key && from <= calls[0].at < to then 1 else 0)
      + Admitted(l, bs', calls[1..], key, from, to)
  }

  /**
    What is true of one key's bucket when `seen` of its requests in [a, a + window)
    have been admitted and the last call came at `last`.
   */
  ghost predicate SlidingInv(l: Limits, bs: Buckets, key: string, a: int, seen: int, last: int) {
    && (last < a ==> seen == 0)
    && if key !in bs then seen == 0
       else
         var b := bs[key];
         && b.windowStart <= last && 1 <= b.count <= l.max
         && if b.windowStart < a then seen <= b.count - 1
            else if b.windowStart < a + l.window then seen <= l.max - 1 + b.count
            else seen <= 2 * l.max - 1
  }

  lemma {:induction false} SlidingFrom(l: Limits, bs: Buckets, calls: seq<Call>, key: string, a: int, seen: int, last: int)
    requires Valid(l) && Ordered(calls) && SlidingInv(l, bs, key, a, seen, last)
    requires calls != [] ==> last <= calls[0].at
    ensures seen + Admitted(l, bs, calls, key, a, a + l.window) <= 2 * l.max - 1
    decreases |calls|
  {
    if calls != [] {
      var c := calls[0];
      var (bs', ok) := Request(l, bs, KeyOf(c.key), c.at);
      var seen' := seen + if ok && KeyOf(c.key) == key && a <= c.at < a + l.window then 1 else 0;
      assert SlidingInv(l, bs', key, a, seen', c.at);
      SlidingFrom(l, bs', calls[1..], key, a, seen', c.at);
    }
  }

  /** With a window of a single tick every tick has its own window. */
  ghost predicate OneTickInv(l: Limits, bs: Buckets, key: string, a: int, seen: int, last: int) {
    && (last < a ==> seen == 0)
    && if key !in bs then seen == 0
       else
         var b := bs[key];
         && b.windowStart <= last && 1 <= b.count <= l.max
         && if b.windowStart < a then seen == 0 else if b.windowStart == a then seen <= b.count else seen <= l.max
  }

  lemma {:induction false} OneTickFrom(l: Limits, bs: Buckets, calls: seq<Call>, key: string, a: int, seen: int, last: int)
    requires Valid(l) && l.window == 1 && Ordered(calls) && OneTickInv(l, bs, key, a, seen, last)
    requires calls != [] ==> last <= calls[0].at
    ensures seen + Admitted(l, bs, calls, key, a, a + 1) <= l.max
    decreases |calls|
  {
    if calls != [] {
      var c := calls[0];
      var (bs', ok) := Request(l, bs, KeyOf(c.key), c.at);
      var seen' := seen + if ok && KeyOf(c.key) == key && c.at == a then 1 else 0;
      assert OneTickInv(l, bs', key, a, seen', c.at);
      OneTickFrom(l, bs', calls[1..], key, a, seen', c.at);
    }
  }

  /** The most that an interval as long as the window can admit. */
  function Most(l: Limits): int {
    if l.window == 1 then l.max else 2 * l.max - 1
  }

  /**
    However the calls fall, no interval as long as the window admits more than
    2 * max - 1 requests for one key, nor more than max if the window is a single tick.
   */
  lemma SlidingBound(l: Limits, calls: seq<Call>, key: string, a: int)
    requires Valid(l) && Ordered(calls)
    ensures Admitted(l, map[], calls, key, a, a + l.window) <= Most(l) <= 2 * l.max - 1
  {
    var first := if calls == [] then a - 1 else if calls[0].at < a then calls[0].at else a - 1;
    SlidingFrom(l, map[], calls, key, a, 0, first);
    if l.window == 1 {
      OneTickFrom(l, map[], calls, key, a, 0, first);
    }
  }

  function Repeat(raw: string, t: int, m: nat): (calls: seq<Call>)
    ensures |calls| == m && forall i :: 0 <= i < m ==> calls[i] == Call(raw, t)
  {
    if m == 0 then [] else [Call(raw, t)] + Repeat(raw, t, m - 1)
  }

  /** One call when a window opens, the rest of its allowance at its end, a full allowance in the next. */
  function Burst(l: Limits, raw: string): seq<Call>
    requires Valid(l)
  {
    Repeat(raw, 0, 1) + (Repeat(raw, l.window - 1, l.max - 1) + (Repeat(raw, l.window, 1) + Repeat(raw, l.window, l.max - 1)))
  }

  /** A run in two parts. */
  lemma {:induction false} AdmittedConcat(l: Limits, bs: Buckets, x: seq<Call>, y: seq<Call>, key: string, a: int, to: int)
    ensures After(l, bs, x + y) == After(l, After(l, bs, x), y)
    ensures Admitted(l, bs, x + y, key, a, to) == Admitted(l, bs, x, key, a, to) + Admitted(l, After(l, bs, x), y, key, a, to)
    decreases |x|
  {
    if x == [] {
      assert x + y == y;
    } else {
      assert (x + y)[0] == x[0] && (x + y)[1..] == x[1..] + y;
      AdmittedConcat(l, Request(l, bs, KeyOf(x[0].key), x[0].at).0, x[1..], y, key, a, to);
    }
  }

  function Single(key: string, start: int, count: int): Buckets {
    map[key := Bucket(start, count)]
  }

  lemma SingleRequest(raw: string, l: Limits, start: int, count: int, t: int)
    requires start <= t < start + l.window && count < l.max
    ensures Request(l, Single(KeyOf(raw), start, count), KeyOf(raw), t) == (Single(KeyOf(raw), start, count + 1), true)
  {
    assert Single(KeyOf(raw), start, count)[KeyOf(raw) := Bucket(start, count + 1)] == Single(KeyOf(raw), start, count + 1);
  }

  /** Calls within a window that has the allowance for them. */
  lemma {:induction false} RepeatAdmitted(raw: string, l: Limits, start: int, count: int, t: int, m: nat, a: int, to: int)
    requires start <= t < start + l.window && count + m <= l.max
    ensures After(l, Single(KeyOf(raw), start, count), Repeat(raw, t, m)) == Single(KeyOf(raw), start, count + m)
    ensures Admitted(l, Single(KeyOf(raw), start, count), Repeat(raw, t, m), KeyOf(raw), a, to) == if a <= t < to then m else 0
    decreases m
  {
    if m > 0 {
      SingleRequest(raw, l, start, count, t);
      var calls := Repeat(raw, t, m);
      assert calls[0] == Call(raw, t) && calls[1..] == Repeat(raw, t, m - 1);
      RepeatAdmitted(raw, l, start, count + 1, t, m - 1, a, to);
    }
  }

  lemma RepeatOrdered(raw: string, t: int, m: nat, rest: seq<Call>)
    requires Ordered(rest) && forall i :: 0 <= i < |rest| ==> t <= rest[i].at
    ensures var calls := Repeat(raw, t, m) + rest; Ordered(calls) && forall i :: 0 <= i < |calls| ==> t <= calls[i].at
  {
  }

  lemma {:induction false} BurstOrdered(raw: string, l: Limits)
    requires Valid(l)
    ensures Ordered(Burst(l, raw))
  {
    RepeatOrdered(raw, l.window, 1, Repeat(raw, l.window, l.max - 1));
    RepeatOrdered(raw, l.window - 1, l.max - 1, Repeat(raw, l.window, 1) + Repeat(raw, l.window, l.max - 1));
    RepeatOrdered(raw, 0, 1, Repeat(raw, l.window - 1, l.max - 1) + (Repeat(raw, l.window, 1) + Repeat(raw, l.window, l.max - 1)));
  }

  /** A call for which no window is running opens one, and the rest of the allowance is used at a time within it. */
  lemma FillsWindow(raw: string, l: Limits, bs: Buckets, start: int, t: int, a: int, to: int)
    requires Valid(l) && start <= t < start + l.window
    requires bs.Keys <= {KeyOf(raw)} && (KeyOf(raw) in bs ==> bs[KeyOf(raw)].windowStart + l.window <= start)
    ensures var calls := Repeat(raw, start, 1) + Repeat(raw, t, l.max - 1);
      && After(l, bs, calls) == Single(KeyOf(raw), start, l.max)
      && Admitted(l, bs, calls, KeyOf(raw), a, to) == (if a <= start < to then 1 else 0) + (if a <= t < to then l.max - 1 else 0)
  {
    OpensWindow(raw, l, bs, start, a, to);
    RepeatAdmitted(raw, l, start, 1, t, l.max - 1, a, to);
    AdmittedConcat(l, bs, Repeat(raw, start, 1), Repeat(raw, t, l.max - 1), KeyOf(raw), a, to);
  }

  lemma OpensWindow(raw: string, l: Limits, bs: Buckets, t: int, a: int, to: int)
    requires bs.Keys <= {KeyOf(raw)} && (KeyOf(raw) in bs ==> bs[KeyOf(raw)].windowStart + l.window <= t)
    ensures After(l, bs, Repeat(raw, t, 1)) == Single(KeyOf(raw), t, 1)
    ensures Admitted(l, bs, Repeat(raw, t, 1), KeyOf(raw), a, to) == if a <= t < to then 1 else 0
  {
    var calls := Repeat(raw, t, 1);
    assert calls == [Call(raw, t)] && calls[1..] == [];
    assert bs[KeyOf(raw) := Bucket(t, 1)] == Single(KeyOf(raw), t, 1);
  }

  /** The bound cannot be lowered: for every setting and every key a burst around a window edge reaches it. */
  lemma BoundReached(raw: string, l: Limits)
    requires Valid(l)
    ensures Admitted(l, map[], Burst(l, raw), KeyOf(raw), l.window - 1, l.window - 1 + l.window) == Most(l)
  {
    var a, to := l.window - 1, 2 * l.window - 1;
    var first := Repeat(raw, 0, 1) + Repeat(raw, l.window - 1, l.max - 1);
    var second := Repeat(raw, l.window, 1) + Repeat(raw, l.window, l.max - 1);
    FillsWindow(raw, l, map[], 0, l.window - 1, a, to);
    FillsWindow(raw, l, Single(KeyOf(raw), 0, l.max), l.window, l.window, a, to);
    AdmittedConcat(l, map[], first, second, KeyOf(raw), a, to);
    Assoc(Repeat(raw, 0, 1), Repeat(raw, l.window - 1, l.max - 1), second);
  }

  // ----- refusals are justified -----

  ghost predicate InWindow(l: Limits, bs: Buckets, key: string, last: int) {
    key in bs ==> bs[key].windowStart <= last && 1 <= bs[key].count <= l.max
  }

  lemma {:induction false} WindowCount(l: Limits, bs: Buckets, calls: seq<Call>, key: string, last: int, to: int)
    requires Valid(l) && Ordered(calls) && InWindow(l, bs, key, last)
    requires forall i :: 0 <= i < |calls| ==> last <= calls[i].at < to
    ensures var bs' := After(l, bs, calls);
      key in bs' ==>
        var s := bs'[key].windowStart;
        var n := Admitted(l, bs, calls, key, s, to);
        && bs'[key].count <= l.max
        && if key in bs && s == bs[key].windowStart then bs'[key].count == bs[key].count + n
           else bs'[key].count == n && s >= last && (key in bs ==> s >= bs[key].windowStart + l.window)
    ensures key in bs ==> key in After(l, bs, calls)
    decreases |calls|
  {
    if calls != [] {
      var c := calls[0];
      WindowCount(l, Request(l, bs, KeyOf(c.key), c.at).0, calls[1..], key, c.at, to);
    }
  }

  /**
    A request is refused exactly when the key's current window is still running and
    has admitted its full allowance, counted over the whole run.
   */
  lemma RefusedIff(l: Limits, calls: seq<Call>, key: string, now: int)
    requires Valid(l) && Ordered(calls) && forall i :: 0 <= i < |calls| ==> calls[i].at <= now
    ensures var bs := After(l, map[], calls);
      !Request(l, bs, KeyOf(key), now).1
      <==> KeyOf(key) in bs
           && now - l.window < bs[KeyOf(key)].windowStart
           && Admitted(l, map[], calls, KeyOf(key), bs[KeyOf(key)].windowStart, now + 1) == l.max
  {
    var first := if calls == [] then now else calls[0].at;
    WindowCount(l, map[], calls, KeyOf(key), first, now + 1);
  }
}
