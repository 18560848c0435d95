/**
  Two-factor challenges and refresh tokens: who gets tokens, how often, and until
  when.

  Token and challenge identifiers stand for fresh random values; a refresh token is
  stored under its hash, which is taken to be injective.
 */
module AuthTokens {
  import opened Text

  datatype Admin = Admin(role: string, secret: string, totp: bool)

  datatype Challenge = Challenge(email: string, expires: int, used: bool)

  datatype RefreshToken = RefreshToken(email: string, expires: int, revoked: bool)

  datatype Tables = Tables(
    admins: map<string, Admin>, challenges: map<nat, Challenge>, tokens: map<nat, RefreshToken>, nextId: nat)

  /** How long access tokens, refresh tokens and challenges live. */
  datatype Lifetimes = Lifetimes(access: int, refresh: int, challenge: int)

  datatype Access = Access(email: string, role: string, expires: int)

  /** What the statements of a request meet: a false flag is a statement that the database does not execute. */
  datatype Luck = Luck(read: bool, mark: bool, admin: bool, insert: bool)

  /**
    One request, or an administrative change.  `right` stands for the password or
    provider check, `accepts` for the one-time codes that a secret accepts at that
    moment, `before` and `now` for the two readings of the clock.
   */
  datatype Request =
    | Login(email: string, right: bool, now: int, later: int, l: Luck)
    | OAuth2(email: string, right: bool, now: int, l: Luck)
    | Totp(challenge: Option<nat>, code: string, accepts: (string, string) -> bool, before: int, now: int, l: Luck, purged: set<nat>)
    | Refresh(token: Option<nat>, before: int, now: int, l: Luck)
    | Logout(token: Option<nat>, l: Luck)
    | Purge(expired: set<nat>)
    | SetAdmin(email: string, admin: Option<Admin>)

  datatype Response =
    | BadRequest | Unauthorized | Failed | Spent | WrongCode
    | NeedTotp(challenge: nat)
    | Pair(access: Access, refresh: nat)
    | Renewed(access: Access)
    | LoggedOut
    | Done

  /** The account made for an unknown address that a provider vouches for. */
  const NEWCOMER := Admin("viewer", "", false)

  // ----- the handlers -----

  /** A new access token and a stored refresh token. */
  function IssuePair(life: Lifetimes, t: Tables, email: string, role: string, now: int, insert: bool): (Tables, Response) {
    if !insert then (t, Failed)
    else
      (t.(tokens := t.tokens[t.nextId := RefreshToken(email, now + life.refresh, false)], nextId := t.nextId + 1),
       Pair(Access(email, role, now + life.access), t.nextId))
  }

  function LoginStep(life: Lifetimes, t: Tables, email: string, right: bool, now: int, later: int, l: Luck): (Tables, Response) {
    var e := Normal(email);
    if !l.admin then (t, Failed)
    else if e !in t.admins || !right then (t, Unauthorized)
    else if t.admins[e].totp then
      if !l.insert then (t, Failed)
      else
        (t.(challenges := t.challenges[t.nextId := Challenge(e, later + life.challenge, false)], nextId := t.nextId + 1),
         NeedTotp(t.nextId))
    else IssuePair(life, t, e, t.admins[e].role, now, l.insert)
  }

  /** The select and the update of a challenge; a failed update is ignored. */
  function UseChallenge(t: Tables, id: nat, mark: bool): Tables
    requires id in t.challenges
  {
    if mark && !t.challenges[id].used then t.(challenges := t.challenges[id := t.challenges[id].(used := true)]) else t
  }

  function TotpStep(
    life: Lifetimes, t: Tables, id: nat, code: string, accepts: (string, string) -> bool, before: int, now: int, l: Luck, purged: set<nat>)
    : (Tables, Response)
  {
    if !l.read then (t, Failed)
    else if id !in t.challenges then (t, Unauthorized)
    else
      var c := t.challenges[id];
      var t1 := UseChallenge(t, id, l.mark);
      if c.used || before > c.expires then (t1, Spent)
      else if !l.admin || c.email !in t1.admins then (t1, Failed)
      else if !accepts(code, t1.admins[c.email].secret) then (t1, WrongCode)
      else
        var (t2, r) := IssuePair(life, t1, c.email, t1.admins[c.email].role, now, l.insert);
        (if r.Pair? then t2.(challenges := t2.challenges - purged) else t2, r)
  }

  function RefreshStep(life: Lifetimes, t: Tables, id: nat, before: int, now: int, l: Luck): Response {
    if !l.read then Failed
    else if id !in t.tokens then Unauthorized
    else if t.tokens[id].revoked || before > t.tokens[id].expires then Unauthorized
    else if !l.admin then Failed
    else if t.tokens[id].email !in t.admins then Unauthorized
    else Renewed(Access(t.tokens[id].email, t.admins[t.tokens[id].email].role, now + life.access))
  }

  function Revoke(t: Tables, id: nat): Tables {
    if id in t.tokens then t.(tokens := t.tokens[id := t.tokens[id].(revoked := true)]) else t
  }

  function Step(life: Lifetimes, t: Tables, q: Request): (Tables, Response) {
    match q
    case Login(email, right, now, later, l) => LoginStep(life, t, email, right, now, later, l)
    case OAuth2(email, right, now, l) =>
      if !right then (t, Unauthorized)
      else if !l.admin || (email !in t.admins && !l.mark) then (t, Failed)
      else
        var t1 := if email in t.admins then t else t.(admins := t.admins[email := NEWCOMER]);
        IssuePair(life, t1, email, t1.admins[email].role, now, l.insert)
    case Totp(id, code, accepts, before, now, l, purged) =>
      if id.None? || TrimSpace(code) == "" then (t, BadRequest)
      else TotpStep(life, t, id.value, TrimSpace(code), accepts, before, now, l, purged)
    case Refresh(id, before, now, l) =>
      if id.None? then (t, BadRequest) else (t, RefreshStep(life, t, id.value, before, now, l))
    case Logout(id, l) =>
      if id.None? then (t, LoggedOut) else if !l.mark then (t, Failed) else (Revoke(t, id.value), LoggedOut)
    case Purge(expired) => (t.(tokens := t.tokens - expired), Done)
    case SetAdmin(email, admin) =>
      (t.(admins := match admin case Some(a) => t.admins[email := a] case None => t.admins - {email}), Done)
  }

  /** The account gets a pair: an access token that lives from `now`, and a new refresh token stored for it. */
  ghost predicate Granted(life: Lifetimes, t: Tables, t': Tables, r: Response, email: string, now: int) {
    && r.Pair? && email in t.admins
    && r.access == Access(email, t.admins[email].role, now + life.access)
    && r.refresh !in t.tokens && r.refresh < t'.nextId
    && t'.tokens == t.tokens[r.refresh := RefreshToken(email, now + life.refresh, false)]
    && t'.admins == t.admins
  }

  /** No code is checked for this challenge any more, whatever is sent. */
  ghost predicate Exhausted(life: Lifetimes, t: Tables, id: nat) {
    forall code, accepts, before, now, l, purged ::
      var r := TotpStep(life, t, id, code, accepts, before, now, l, purged).1; !r.Pair? && r != WrongCode
  }

  /** No request renews an access token with this refresh token. */
  ghost predicate Useless(life: Lifetimes, t: Tables, id: nat) {
    forall before, now, l :: !RefreshStep(life, t, id, before, now, l).Renewed?
  }

  class AuthService {
    var tables: Tables
    const life: Lifetimes

    constructor (life: Lifetimes, admins: map<string, Admin>)
      ensures tables == Tables(admins, map[], map[], 0) && this.life == life && ValidTables(tables)
    {
      tables := Tables(admins, map[], map[], 0);
      this.life := life;
    }

    method InsertRefreshToken(email: string, expires: int, up: bool) returns (id: Option<nat>)
      modifies this
      ensures up ==> id == Some(old(tables.nextId)) && tables == old(tables).(
        tokens := old(tables.tokens)[old(tables.nextId) := RefreshToken(email, expires, false)], nextId := old(tables.nextId) + 1)
      ensures !up ==> id == None && tables == old(tables)
    {
      if !up {
        return None;
      }
      id := Some(tables.nextId);
      tables := tables.(tokens := tables.tokens[tables.nextId := RefreshToken(email, expires, false)], nextId := tables.nextId + 1);
    }

    method UseTotpChallenge(id: nat, l: Luck) returns (found: Option<Challenge>)
      modifies this
      ensures l.read && id in old(tables.challenges) ==>
        found == Some(old(tables.challenges)[id]) && tables == UseChallenge(old(tables), id, l.mark)
      ensures !(l.read && id in old(tables.challenges)) ==> found == None && tables == old(tables)
    {
      if !l.read || id !in tables.challenges {
        return None;
      }
      found := Some(tables.challenges[id]);
      if !found.value.used && l.mark {
        tables := tables.(challenges := tables.challenges[id := found.value.(used := true)]);
      }
    }

    /**
      A right password of an account without a second factor gets a pair; with a second
      factor it opens a new challenge and gets nothing else.  Nobody else gets anything.
     */
    method HandleLogin(email: string, right: bool, now: int, later: int, l: Luck) returns (r: Response)
      requires ValidTables(tables)
      modifies this
      ensures ValidTables(tables)
      ensures var e := Normal(email);
        var known := l.admin && e in old(tables.admins) && right;
        && (r.Pair? <==> known && l.insert && !old(tables.admins)[e].totp)
        && (r.NeedTotp? <==> known && l.insert && old(tables.admins)[e].totp)
        && (r == Unauthorized <==> l.admin && !known)
        && (r.Pair? || r.NeedTotp? || r == Unauthorized || r == Failed)
      ensures r.Pair? ==> Granted(life, old(tables), tables, r, Normal(email), now) && tables.challenges == old(tables.challenges)
      ensures r.NeedTotp? ==>
        && r.challenge !in old(tables.challenges) && tables.tokens == old(tables.tokens) && tables.admins == old(tables.admins)
        && tables.challenges == old(tables.challenges)[r.challenge := Challenge(Normal(email), later + life.challenge, false)]
      ensures !r.Pair? && !r.NeedTotp? ==> tables == old(tables)
      ensures (tables, r) == LoginStep(life, old(tables), email, right, now, later, l)
    {
      var e := ToLower(TrimSpace(email));
      if !l.admin {
        return Failed;
      }
      if e !in tables.admins || !right {
        return Unauthorized;
      }
      var admin := tables.admins[e];
      if admin.totp {
        if !l.insert {
          return Failed;
        }
        var id := tables.nextId;
        tables := tables.(challenges := tables.challenges[id := Challenge(e, later + life.challenge, false)], nextId := id + 1);
        return NeedTotp(id);
      }
      var access := Access(e, admin.role, now + life.access);
      var id := InsertRefreshToken(e, now + life.refresh, l.insert);
      if id.None? {
        return Failed;
      }
      r := Pair(access, id.value);
    }

    /**
      A pair needs an unused challenge in time, an existing account and an accepted
      code.  Whatever the answer, a challenge that was found is used up if the update is
      executed, and no other challenge or token changes.
     */
    method HandleTotpChallenge(
      challenge: Option<nat>, code: string, accepts: (string, string) -> bool, before: int, now: int, l: Luck, purged: set<nat>)
      returns (r: Response)
      requires ValidTables(tables)
      modifies this
      ensures ValidTables(tables)
      ensures r == BadRequest <==> challenge.None? || TrimSpace(code) == ""
      ensures r.Pair? <==>
        && challenge.Some? && TrimSpace(code) != "" && l.read && l.admin && l.insert && challenge.value in old(tables.challenges)
        && var c := old(tables.challenges)[challenge.value];
        !c.used && before <= c.expires && c.email in old(tables.admins) && accepts(TrimSpace(code), old(tables.admins)[c.email].secret)
      ensures r == WrongCode ==>
        && challenge.Some? && challenge.value in old(tables.challenges)
        && var c := old(tables.challenges)[challenge.value];
        !c.used && before <= c.expires && c.email in old(tables.admins) && !accepts(TrimSpace(code), old(tables.admins)[c.email].secret)
      ensures r.Pair? ==> Granted(life, old(tables), tables, r, old(tables.challenges)[challenge.value].email, now)
      ensures !r.Pair? ==> tables.tokens == old(tables.tokens) && tables.admins == old(tables.admins)
      ensures challenge.Some? && challenge.value in old(tables.challenges) && TrimSpace(code) != "" && l.read && l.mark ==>
        Exhausted(life, tables, challenge.value)
      ensures forall k :: k in tables.challenges ==>
        k in old(tables.challenges) && (Some(k) != challenge ==> tables.challenges[k] == old(tables.challenges)[k])
      ensures (tables, r) == Step(life, old(tables), Totp(challenge, code, accepts, before, now, l, purged))
    {
      var trimmed := TrimSpace(code);
      if challenge.None? || trimmed == "" {
        return BadRequest;
      }
      var c := UseTotpChallenge(challenge.value, l);
      if c.None? {
        return if l.read then Unauthorized else Failed;
      }
      if c.value.used || before > c.value.expires {
        return Spent;
      }
      if !l.admin || c.value.email !in tables.admins {
        return Failed;
      }
      var admin := tables.admins[c.value.email];
      if !accepts(trimmed, admin.secret) {
        return WrongCode;
      }
      var access := Access(c.value.email, admin.role, now + life.access);
      var id := InsertRefreshToken(c.value.email, now + life.refresh, l.insert);
      if id.None? {
        return Failed;
      }
      tables := tables.(challenges := tables.challenges - purged);
      r := Pair(access, id.value);
    }

    /** A renewal needs a known token, neither revoked nor expired, whose holder still exists; it changes nothing. */
    method HandleRefreshToken(token: Option<nat>, before: int, now: int, l: Luck) returns (r: Response)
      ensures r.Renewed? <==>
        && token.Some? && l.read && l.admin && token.value in tables.tokens
        && var rt := tables.tokens[token.value]; !rt.revoked && before <= rt.expires && rt.email in tables.admins
      ensures r.Renewed? ==>
        var holder := tables.tokens[token.value].email;
        r.access == Access(holder, tables.admins[holder].role, now + life.access)
      ensures r == BadRequest <==> token.None?
      ensures r.Renewed? || r == BadRequest || r == Unauthorized || r == Failed
      ensures r == Step(life, tables, Refresh(token, before, now, l)).1
    {
      if token.None? {
        return BadRequest;
      }
      if !l.read {
        return Failed;
      }
      if token.value !in tables.tokens {
        return Unauthorized;
      }
      var rt := tables.tokens[token.value];
      if rt.revoked || before > rt.expires {
        return Unauthorized;
      }
      if !l.admin {
        return Failed;
      }
      if rt.email !in tables.admins {
        return Unauthorized;
      }
      r := Renewed(Access(rt.email, tables.admins[rt.email].role, now + life.access));
    }

    /** After a successful logout the token renews nothing any more; all other tokens are as they were. */
    method HandleLogout(token: Option<nat>, l: Luck) returns (r: Response)
      modifies this
      ensures r == LoggedOut <==> token.None? || l.mark
      ensures r == LoggedOut && token.Some? ==> Useless(life, tables, token.value)
      ensures tables.challenges == old(tables.challenges) && tables.admins == old(tables.admins) && tables.nextId == old(tables.nextId)
      ensures forall k :: k in tables.tokens <==> k in old(tables.tokens)
      ensures forall k :: k in tables.tokens && (Some(k) != token || r != LoggedOut) ==> tables.tokens[k] == old(tables.tokens)[k]
      ensures (tables, r) == Step(life, old(tables), Logout(token, l))
    {
      if token.Some? {
        if !l.mark {
          return Failed;
        }
        if token.value in tables.tokens {
          tables := tables.(tokens := tables.tokens[token.value := tables.tokens[token.value].(revoked := true)]);
        }
      }
      r := LoggedOut;
    }
  }

  /** A login that a provider vouches for: a pair for that address; an unknown one becomes a viewer, a known one keeps its role. */
  lemma OAuth2Grants(life: Lifetimes, t: Tables, email: string, now: int, l: Luck)
    requires ValidTables(t) && l.admin && l.mark && l.insert
    ensures var (t', r) := Step(life, t, OAuth2(email, true, now, l));
      && r.Pair? && r.access.email == email && r.access.expires == now + life.access
      && r.access.role == (if email in t.admins then t.admins[email].role else "viewer")
      && r.refresh !in t.tokens && t'.tokens == t.tokens[r.refresh := RefreshToken(email, now + life.refresh, false)]
      && email in t'.admins && (forall x :: x in t.admins ==> x in t'.admins && t'.admins[x] == t.admins[x])
  {
  }

  // ----- runs -----

  datatype Entry = Entry(q: Request, r: Response)

  datatype State = State(t: Tables, h: seq<Entry>)

  function Next(life: Lifetimes, s: State, q: Request): State {
    var (t, r) := Step(life, s.t, q);
    State(t, s.h + [Entry(q, r)])
  }

  /** Requests one after the other, on fresh tables. */
  function Run(life: Lifetimes, admins: map<string, Admin>, requests: seq<Request>): (s: State)
    ensures |s.h| == |requests|
  {
    if requests == [] then State(Tables(admins, map[], map[], 0), [])
    else Next(life, Run(life, admins, requests[..|requests| - 1]), requests[|requests| - 1])
  }

  lemma {:induction false} HistoryIs(life: Lifetimes, admins: map<string, Admin>, requests: seq<Request>, j: nat)
    requires j < |requests|
    ensures Run(life, admins, requests).h[j] == Entry(requests[j], Step(life, Run(life, admins, requests[..j]).t, requests[j]).1)
  {
    var init := requests[..|requests| - 1];
    if j < |init| {
      HistoryIs(life, admins, init, j);
      assert init[..j] == requests[..j];
    }
  }

  predicate ValidTables(t: Tables) {
    && (forall id :: id in t.challenges ==> id < t.nextId)
    && (forall id :: id in t.tokens ==> id < t.nextId)
  }

  lemma StepValid(life: Lifetimes, t: Tables, q: Request)
    requires ValidTables(t)
    ensures var t' := Step(life, t, q).0; ValidTables(t') && t.nextId <= t'.nextId
  {
  }

  lemma {:induction false} RunValid(life: Lifetimes, admins: map<string, Admin>, requests: seq<Request>)
    ensures ValidTables(Run(life, admins, requests).t)
  {
    if requests != [] {
      RunValid(life, admins, requests[..|requests| - 1]);
      StepValid(life, Run(life, admins, requests[..|requests| - 1]).t, requests[|requests| - 1]);
    }
  }

  // ----- a challenge yields at most one pair -----

  predicate UsedUp(t: Tables, id: nat) {
    id < t.nextId && (id in t.challenges ==> t.challenges[id].used)
  }

  predicate Answers(e: Entry, id: nat) {
    e.q.Totp? && e.q.challenge == Some(id)
  }

  lemma UsedUpStays(life: Lifetimes, t: Tables, q: Request, id: nat)
    requires UsedUp(t, id)
    ensures UsedUp(Step(life, t, q).0, id)
    ensures q.Totp? && q.challenge == Some(id) ==> !Step(life, t, q).1.Pair? && Step(life, t, q).1 != WrongCode
  {
  }

  lemma AnswerUsesUp(life: Lifetimes, t: Tables, q: Request, id: nat)
    requires ValidTables(t) && q.Totp? && q.challenge == Some(id) && q.l.mark
    requires var r := Step(life, t, q).1; r.Pair? || r == WrongCode
    ensures UsedUp(Step(life, t, q).0, id)
  {
  }

  lemma {:induction false} UsedUpForever(life: Lifetimes, admins: map<string, Admin>, requests: seq<Request>, i: nat, id: nat)
    requires i < |requests| && UsedUp(Run(life, admins, requests[..i + 1]).t, id)
    ensures UsedUp(Run(life, admins, requests).t, id)
    decreases |requests|
  {
    if i + 1 == |requests| {
      assert requests[..i + 1] == requests;
    } else {
      var init := requests[..|requests| - 1];
      assert init[..i + 1] == requests[..i + 1];
      UsedUpForever(life, admins, init, i, id);
      UsedUpStays(life, Run(life, admins, init).t, requests[|requests| - 1], id);
    }
  }

  /**
    If the update of the challenge is executed, an answer that is accepted or wrong is
    the last one that counts: no later request with this challenge gets a pair, or
    even a check of its code.
   */
  lemma OneAnswerPerChallenge(life: Lifetimes, admins: map<string, Admin>, requests: seq<Request>, i: nat, j: nat, id: nat)
    requires i < j < |requests|
    requires var e := Run(life, admins, requests).h; Answers(e[i], id) && Answers(e[j], id)
    requires Run(life, admins, requests).h[i].q.l.mark
    requires var r := Run(life, admins, requests).h[i].r; r.Pair? || r == WrongCode
    ensures var r := Run(life, admins, requests).h[j].r; !r.Pair? && r != WrongCode
  {
    HistoryIs(life, admins, requests, i);
    HistoryIs(life, admins, requests, j);
    var before := Run(life, admins, requests[..i]);
    RunValid(life, admins, requests[..i]);
    AnswerUsesUp(life, before.t, requests[i], id);
    assert requests[..i + 1][..i] == requests[..i] && requests[..j][..i + 1] == requests[..i + 1];
    assert Run(life, admins, requests[..i + 1]) == Next(life, before, requests[i]);
    UsedUpForever(life, admins, requests[..j], i, id);
    UsedUpStays(life, Run(life, admins, requests[..j]).t, requests[j], id);
  }

  /**
    Whether the rule holds hangs on that update: after a challenge was accepted once,
    the same request made again gets a second pair if and only if the update was not
    executed and the row was not purged.
   */
  lemma {:induction false} SecondPairIff(
    life: Lifetimes, t: Tables, id: nat, code: string, accepts: (string, string) -> bool, before: int, now: int, l: Luck, purged: set<nat>, l': Luck)
    requires ValidTables(t) && TotpStep(life, t, id, code, accepts, before, now, l, purged).1.Pair?
    requires l'.read && l'.admin && l'.insert
    ensures var t' := TotpStep(life, t, id, code, accepts, before, now, l, purged).0;
      TotpStep(life, t', id, code, accepts, before, now, l', purged).1.Pair? <==> !l.mark && id !in purged
  {
  }

  /** A run in which one challenge gets two pairs: the update of the first answer is lost. */
  lemma TwoPairs(life: Lifetimes) returns (admins: map<string, Admin>, requests: seq<Request>)
    requires life.challenge >= 0
    ensures |requests| == 3 && requests[1] == requests[2] && Answers(Run(life, admins, requests).h[1], 0)
    ensures Run(life, admins, requests).h[1].r.Pair? && Run(life, admins, requests).h[2].r.Pair?
  {
    var works := Luck(true, true, true, true);
    admins := map["a" := Admin("admin", "", true)];
    var login := Login("a", true, 0, 0, works);
    var answer := Totp(Some(0), "0", (code, secret) => true, 0, 0, works.(mark := false), {});
    requests := [login, answer, answer];
    LetterIsNormal();
    assert TrimLeft("0") == "0" && TrimRight("0") == "0";
    assert TrimSpace("0") == "0";
    var t0 := Tables(admins, map[], map[], 0);
    var t1 := Step(life, t0, login).0;
    assert t1.challenges == map[0 := Challenge("a", life.challenge, false)] && t1.admins == admins;
    var t2 := Step(life, t1, answer).0;
    assert t2.challenges[0] == t1.challenges[0] && t2.admins == admins;
    HistoryIs(life, admins, requests, 1);
    HistoryIs(life, admins, requests, 2);
    assert requests[..1] == [login] && requests[..2] == [login, answer] && [login][..0] == [] && [login, answer][..1] == [login];
    assert Run(life, admins, []).t == t0;
    assert Run(life, admins, [login]).t == t1;
    assert Run(life, admins, [login, answer]).t == t2;
  }

  // ----- refresh tokens -----

  predicate Dead(t: Tables, id: nat) {
    id < t.nextId && (id in t.tokens ==> t.tokens[id].revoked)
  }

  lemma DeadStays(life: Lifetimes, t: Tables, q: Request, id: nat)
    requires Dead(t, id)
    ensures Dead(Step(life, t, q).0, id)
    ensures q.Refresh? && q.token == Some(id) ==> !Step(life, t, q).1.Renewed?
  {
  }

  lemma {:induction false} DeadForever(life: Lifetimes, admins: map<string, Admin>, requests: seq<Request>, i: nat, id: nat)
    requires i <= |requests| && Dead(Run(life, admins, requests[..i]).t, id)
    ensures Dead(Run(life, admins, requests).t, id)
    decreases |requests|
  {
    if i == |requests| {
      assert requests[..i] == requests;
    } else {
      var init := requests[..|requests| - 1];
      assert init[..i] == requests[..i];
      DeadForever(life, admins, init, i, id);
      DeadStays(life, Run(life, admins, init).t, requests[|requests| - 1], id);
    }
  }

  lemma PairIsNumbered(life: Lifetimes, t: Tables, q: Request, id: nat)
    requires Step(life, t, q).1.Pair? && Step(life, t, q).1.refresh == id
    ensures id < Step(life, t, q).0.nextId
  {
  }

  lemma {:induction false} NumbersGrow(life: Lifetimes, admins: map<string, Admin>, requests: seq<Request>, i: nat)
    requires i <= |requests|
    ensures Run(life, admins, requests[..i]).t.nextId <= Run(life, admins, requests).t.nextId
    decreases |requests|
  {
    if i == |requests| {
      assert requests[..i] == requests;
    } else {
      var init := requests[..|requests| - 1];
      assert init[..i] == requests[..i];
      NumbersGrow(life, admins, init, i);
      RunValid(life, admins, init);
      StepValid(life, Run(life, admins, init).t, requests[|requests| - 1]);
    }
  }

  lemma RunPrefix(life: Lifetimes, admins: map<string, Admin>, requests: seq<Request>, i: nat)
    requires i < |requests|
    ensures Run(life, admins, requests[..i + 1]) == Next(life, Run(life, admins, requests[..i]), requests[i])
  {
    assert requests[..i + 1][..i] == requests[..i];
  }

  lemma DeadAfterLogout(life: Lifetimes, admins: map<string, Admin>, requests: seq<Request>, k: nat, i: nat, id: nat)
    requires k < i < |requests|
    requires requests[i].Logout? && requests[i].token == Some(id) && requests[i].l.mark
    requires var r := Step(life, Run(life, admins, requests[..k]).t, requests[k]).1; r.Pair? && r.refresh == id
    ensures Dead(Run(life, admins, requests[..i + 1]).t, id)
  {
    PairIsNumbered(life, Run(life, admins, requests[..k]).t, requests[k], id);
    RunPrefix(life, admins, requests, k);
    assert requests[..i][..k + 1] == requests[..k + 1];
    NumbersGrow(life, admins, requests[..i], k + 1);
    RunPrefix(life, admins, requests, i);
  }

  lemma DeadAt(life: Lifetimes, admins: map<string, Admin>, requests: seq<Request>, i: nat, j: nat, id: nat)
    requires i <= j <= |requests| && Dead(Run(life, admins, requests[..i]).t, id)
    ensures Dead(Run(life, admins, requests[..j]).t, id)
  {
    assert requests[..j][..i] == requests[..i];
    DeadForever(life, admins, requests[..j], i, id);
  }

  /** Once a token that was issued has been revoked by a logout, no request ever renews an access token with it. */
  lemma RevokedNeverRenews(life: Lifetimes, admins: map<string, Admin>, requests: seq<Request>, k: nat, i: nat, j: nat, id: nat)
    requires k < i < j < |requests|
    requires requests[i].Logout? && requests[i].token == Some(id) && requests[j].Refresh? && requests[j].token == Some(id)
    requires var h := Run(life, admins, requests).h;
      h[k].r.Pair? && h[k].r.refresh == id && h[i].r == LoggedOut
    ensures !Run(life, admins, requests).h[j].r.Renewed?
  {
    HistoryIs(life, admins, requests, k);
    HistoryIs(life, admins, requests, i);
    HistoryIs(life, admins, requests, j);
    DeadAfterLogout(life, admins, requests, k, i, id);
    DeadAt(life, admins, requests, i + 1, j, id);
    DeadStays(life, Run(life, admins, requests[..j]).t, requests[j], id);
  }

  /** When a request that issues tokens read the clock. */
  function IssuedAt(q: Request): int {
    if q.Login? || q.OAuth2? || q.Totp? then q.now else 0
  }

  /** Some entry handed this token out, to the holder it is stored for, and its life began then. */
  ghost predicate HandedOut(life: Lifetimes, h: seq<Entry>, id: nat, email: string, expires: int) {
    exists k :: 0 <= k < |h| && h[k].r.Pair? && h[k].r.refresh == id && h[k].r.access.email == email
                && expires == IssuedAt(h[k].q) + life.refresh
  }

  lemma HandedOutSnoc(life: Lifetimes, h: seq<Entry>, e: Entry, id: nat, email: string, expires: int)
    requires HandedOut(life, h, id, email, expires)
    ensures HandedOut(life, h + [e], id, email, expires)
  {
    var k :| 0 <= k < |h| && h[k].r.Pair? && h[k].r.refresh == id && h[k].r.access.email == email
             && expires == IssuedAt(h[k].q) + life.refresh;
    assert (h + [e])[k] == h[k];
  }

  lemma TokensAfterStep(life: Lifetimes, t: Tables, q: Request, id: nat)
    requires id in Step(life, t, q).0.tokens
    ensures var (t', r) := Step(life, t, q);
      var row := t'.tokens[id];
      || (id in t.tokens && t.tokens[id].email == row.email && t.tokens[id].expires == row.expires)
      || (r.Pair? && r.refresh == id && r.access.email == row.email && row.expires == IssuedAt(q) + life.refresh)
  {
  }

  lemma {:induction false} TokensWereHandedOut(life: Lifetimes, admins: map<string, Admin>, requests: seq<Request>, id: nat)
    requires id in Run(life, admins, requests).t.tokens
    ensures var s := Run(life, admins, requests); HandedOut(life, s.h, id, s.t.tokens[id].email, s.t.tokens[id].expires)
  {
    if requests != [] {
      var init, q := requests[..|requests| - 1], requests[|requests| - 1];
      var s := Run(life, admins, init);
      var (t, r) := Step(life, s.t, q);
      TokensAfterStep(life, s.t, q, id);
      if id in s.t.tokens && s.t.tokens[id].email == t.tokens[id].email && s.t.tokens[id].expires == t.tokens[id].expires {
        TokensWereHandedOut(life, admins, init, id);
        HandedOutSnoc(life, s.h, Entry(q, r), id, t.tokens[id].email, t.tokens[id].expires);
      } else {
        assert (s.h + [Entry(q, r)])[|s.h|] == Entry(q, r);
      }
    }
  }

  /**
    A renewed access token is for the holder to whom the refresh token was handed
    out, in a request that began before the refresh token expired, and it outlives the
    refresh token by no more than the lifetime of an access token and the time between
    the two clock readings of that request.
   */
  lemma RenewalBound(life: Lifetimes, admins: map<string, Admin>, requests: seq<Request>, j: nat) returns (expiry: int)
    requires j < |requests| && requests[j].Refresh?
    requires Step(life, Run(life, admins, requests[..j]).t, requests[j]).1.Renewed?
    ensures var access := Step(life, Run(life, admins, requests[..j]).t, requests[j]).1.access;
      var q := requests[j];
      && q.token.Some? && HandedOut(life, Run(life, admins, requests[..j]).h, q.token.value, access.email, expiry)
      && q.before <= expiry && access.expires <= expiry + life.access + (q.now - q.before)
  {
    var s := Run(life, admins, requests[..j]);
    var id := requests[j].token.value;
    expiry := s.t.tokens[id].expires;
    TokensWereHandedOut(life, admins, requests[..j], id);
  }

  /** Renewing the token with these clock readings, after these requests, keeps the promised bound. */
  predicate InTime(life: Lifetimes, admins: map<string, Admin>, requests: seq<Request>, id: nat, before: int, now: int) {
    var t := Run(life, admins, requests).t;
    var r := RefreshStep(life, t, id, before, now, Luck(true, true, true, true));
    r.Renewed? ==> id in t.tokens && r.access.expires <= t.tokens[id].expires + life.access
  }

  ghost predicate AlwaysInTime(life: Lifetimes, before: int, now: int) {
    forall admins, requests, id :: InTime(life, admins, requests, id, before, now)
  }

  /** A login and, exactly at the expiry of its refresh token, a renewal that takes its time. */
  lemma LateRenewal(life: Lifetimes, before: int, now: int) returns (admins: map<string, Admin>, requests: seq<Request>)
    requires before < now
    ensures !InTime(life, admins, requests, 0, before, now)
  {
    admins := map["a" := Admin("admin", "", false)];
    var q := Login("a", true, before - life.refresh, before, Luck(true, true, true, true));
    requests := [q];
    LetterIsNormal();
    assert requests[..0] == [];
    var s0 := Run(life, admins, []);
    assert Run(life, admins, requests) == Next(life, s0, q);
    var t := Step(life, s0.t, q).0;
    assert "a" in admins && !admins["a"].totp;
    assert t.tokens == map[0 := RefreshToken("a", before, false)] && t.admins == admins;
  }

  lemma LetterIsNormal()
    ensures Normal("a") == "a"
  {
    assert TrimLeft("a") == "a" && TrimRight("a") == "a";
    assert ToLower("a") == "a";
  }

  /**
    A renewed token never outlives the refresh token by more than the lifetime of an
    access token, in any run, if and only if the handler's second clock reading is not
    after its first.
   */
  lemma BoundIffReadings(life: Lifetimes, before: int, now: int)
    ensures AlwaysInTime(life, before, now) <==> now <= before
  {
    if now > before {
      var admins, requests := LateRenewal(life, before, now);
    } else {
      forall admins, requests, id ensures InTime(life, admins, requests, id, before, now) {
      }
    }
  }

  // ----- the second factor comes after the first -----

  /** A login with the right password opened this challenge for the account. */
  ghost predicate Opened(life: Lifetimes, h: seq<Entry>, id: nat, email: string, expires: int) {
    exists k :: 0 <= k < |h| && h[k].q.Login? && h[k].q.right && Normal(h[k].q.email) == email
                && h[k].r == NeedTotp(id) && expires == h[k].q.later + life.challenge
  }

  lemma OpenedSnoc(life: Lifetimes, h: seq<Entry>, e: Entry, id: nat, email: string, expires: int)
    requires Opened(life, h, id, email, expires)
    ensures Opened(life, h + [e], id, email, expires)
  {
    var k :| 0 <= k < |h| && h[k].q.Login? && h[k].q.right && Normal(h[k].q.email) == email
             && h[k].r == NeedTotp(id) && expires == h[k].q.later + life.challenge;
    assert (h + [e])[k] == h[k];
  }

  lemma ChallengesAfterStep(life: Lifetimes, t: Tables, q: Request, id: nat)
    requires id in Step(life, t, q).0.challenges
    ensures var (t', r) := Step(life, t, q);
      var row := t'.challenges[id];
      || (id in t.challenges && t.challenges[id].email == row.email && t.challenges[id].expires == row.expires)
      || (q.Login? && q.right && Normal(q.email) == row.email && r == NeedTotp(id) && row.expires == q.later + life.challenge)
  {
  }

  lemma {:induction false} ChallengesWereOpened(life: Lifetimes, admins: map<string, Admin>, requests: seq<Request>, id: nat)
    requires id in Run(life, admins, requests).t.challenges
    ensures var s := Run(life, admins, requests); Opened(life, s.h, id, s.t.challenges[id].email, s.t.challenges[id].expires)
  {
    if requests != [] {
      var init, q := requests[..|requests| - 1], requests[|requests| - 1];
      var s := Run(life, admins, init);
      var (t, r) := Step(life, s.t, q);
      ChallengesAfterStep(life, s.t, q, id);
      if id in s.t.challenges && s.t.challenges[id].email == t.challenges[id].email && s.t.challenges[id].expires == t.challenges[id].expires {
        ChallengesWereOpened(life, admins, init, id);
        OpenedSnoc(life, s.h, Entry(q, r), id, t.challenges[id].email, t.challenges[id].expires);
      } else {
        assert (s.h + [Entry(q, r)])[|s.h|] == Entry(q, r);
      }
    }
  }

  /**
    Tokens for a one-time code go only to an account whose password was checked in the
    login that opened the challenge, before the challenge expired, and for a code
    that its secret accepts.
   */
  lemma SecondFactorFollowsFirst(life: Lifetimes, admins: map<string, Admin>, requests: seq<Request>, j: nat) returns (expiry: int)
    requires j < |requests| && requests[j].Totp?
    requires Step(life, Run(life, admins, requests[..j]).t, requests[j]).1.Pair?
    ensures var s := Run(life, admins, requests[..j]);
      var q := requests[j];
      var access := Step(life, s.t, q).1.access;
      && q.challenge.Some? && Opened(life, s.h, q.challenge.value, access.email, expiry)
      && q.before <= expiry
      && access.email in s.t.admins && q.accepts(TrimSpace(q.code), s.t.admins[access.email].secret)
  {
    var s := Run(life, admins, requests[..j]);
    var id := requests[j].challenge.value;
    expiry := s.t.challenges[id].expires;
    ChallengesWereOpened(life, admins, requests[..j], id);
  }
}
