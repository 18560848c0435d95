/**
  The sequential servers are the special case of the shared archive in which nobody
  interferes: run without interruption, the statements of a delivery and of a commit do
  what the servers' own loops do.
 */
module Refinement {
  import opened Text
  import opened Archive
  import opened Senders
  import opened MailStore
  import F = FindOrCreate
  import P = Pop3Server
  import L = LmtpServer
  import V = Visibility

  // ----- a commit -----

  function Deletes(c: nat, from: nat, to: nat, ok: nat -> bool): seq<Event>
    decreases to - from
  {
    if from >= to then [] else [Delete(c, ok(from))] + Deletes(c, from + 1, to, ok)
  }

  /** Uninterrupted, the statements of a commit do what the server's loop does. */
  lemma {:induction false} CommitLeads(cfg: L.Config, s: State, c: nat, ok: nat -> bool)
    requires c in s.clients && s.clients[c].next.Some? && s.clients[c].next.value <= |Msgs(s.clients[c])|
    ensures var k := s.clients[c].next.value;
      var msgs := Msgs(s.clients[c]);
      Run(cfg, s, Deletes(c, k, |msgs|, ok)).db == P.CommitFrom(s.db, msgs, k, ok)
    decreases |Msgs(s.clients[c])| - s.clients[c].next.value
  {
    var k, msgs := s.clients[c].next.value, Msgs(s.clients[c]);
    if k < |msgs| {
      var e := Delete(c, ok(k));
      var t := Next(cfg, s, e);
      assert Msgs(t.clients[c]) == msgs;
      CommitLeads(cfg, t, c, ok);
      assert Deletes(c, k, |msgs|, ok)[1..] == Deletes(c, k + 1, |msgs|, ok);
    }
  }

  // ----- a delivery -----

  /** Between s and t only the archive and the current job of session c have changed. */
  ghost predicate Reaches(s: State, t: State, c: nat, db: Db, j: Job)
    requires c in s.senders && Working(s.senders[c])
  {
    t.db == db && t.clients == s.clients && t.senders == s.senders[c := Progressed(s.senders[c], j)]
  }

  lemma ReachesOn(s: State, t: State, u: State, c: nat, db: Db, j: Job, db': Db, j': Job)
    requires c in s.senders && Working(s.senders[c]) && Reaches(s, t, c, db, j)
    requires |j.ids| < |j.rcpts| && c in t.senders && Working(t.senders[c]) && Reaches(t, u, c, db', j')
    ensures Reaches(s, u, c, db', j')
  {
    var m := s.senders[c];
    var n := |m.jobs| - 1;
    assert m.jobs[n := j][n := j'] == m.jobs[n := j'];
    assert s.senders[c := Progressed(m, j)][c := Progressed(m, j')] == s.senders[c := Progressed(m, j')];
  }

  lemma GoReaches(cfg: L.Config, s: State, c: nat, up: bool)
    requires c in s.senders && Working(s.senders[c])
    ensures var (db, j) := Work(cfg, s.db, Current(s.senders[c]), up);
      Reaches(s, Run(cfg, s, [Go(c, up)]), c, db, j)
  {
    V.RunOne(cfg, s, Go(c, up));
  }

  lemma StillWorking(s: State, t: State, c: nat, db: Db, j: Job)
    requires c in s.senders && Working(s.senders[c]) && Reaches(s, t, c, db, j) && |j.ids| < |j.rcpts|
    ensures c in t.senders && Working(t.senders[c]) && Current(t.senders[c]) == j
  {
  }

  /** One more statement. */
  lemma ThenGo(cfg: L.Config, s: State, c: nat, before: seq<Event>, db: Db, j: Job, up: bool)
    requires c in s.senders && Working(s.senders[c]) && |j.ids| < |j.rcpts|
    requires Reaches(s, Run(cfg, s, before), c, db, j)
    ensures var (db', j') := Work(cfg, db, j, up); Reaches(s, Run(cfg, s, before + [Go(c, up)]), c, db', j')
  {
    var t := Run(cfg, s, before);
    StillWorking(s, t, c, db, j);
    GoReaches(cfg, t, c, up);
    V.RunConcat(cfg, s, before, [Go(c, up)]);
    var (db', j') := Work(cfg, db, j, up);
    ReachesOn(s, t, Run(cfg, t, [Go(c, up)]), c, db, j, db', j');
  }

  /** The caller of the job makes a step; a caller that is done or has failed stays as it is. */
  lemma ThenLook(cfg: L.Config, s: State, c: nat, before: seq<Event>, db: Db, j: Job, up: bool) returns (events: seq<Event>)
    requires c in s.senders && Working(s.senders[c]) && |j.ids| < |j.rcpts|
    requires Reaches(s, Run(cfg, s, before), c, db, j)
    ensures var (db', caller) := F.Advance(db, j.caller, up); Reaches(s, Run(cfg, s, events), c, db', j.(caller := caller))
  {
    if j.caller.pc.Done? || j.caller.pc.Failed? {
      events := before;
      assert j.(caller := j.caller) == j;
    } else {
      ThenGo(cfg, s, c, before, db, j, up);
      events := before + [Go(c, up)];
    }
  }

  /** After its three statements a caller is done or has failed. */
  lemma AloneEnds(db: Db, user: string, name: string, up: (bool, bool, bool))
    ensures var pc := F.Alone(db, F.Lmtp, user, name, up).1; pc.Done? || pc.Failed?
  {
  }

  /** The next recipient is served, without interruption, as the delivery loop does it. */
  lemma ThenRecipient(cfg: L.Config, s: State, c: nat, before: seq<Event>, db: Db, j: Job, up: (bool, bool, bool, bool)) returns (events: seq<Event>)
    requires c in s.senders && Working(s.senders[c]) && |j.ids| < |j.rcpts| && j.caller == CallerFor(cfg, j.rcpts, |j.ids|)
    requires Reaches(s, Run(cfg, s, before), c, db, j)
    ensures var (db', id) := L.DeliverOne(db, cfg, j.from, j.raw, j.rcpts[|j.ids|], j.at, up);
      Reaches(s, Run(cfg, s, events), c, db', Answered(cfg, j, id))
  {
    var (db1, c1) := F.Advance(db, j.caller, up.0);
    var (db2, c2) := F.Advance(db1, c1, up.1);
    var (db3, c3) := F.Advance(db2, c2, up.2);
    AloneEnds(db, j.caller.user, j.caller.name, (up.0, up.1, up.2));
    var a := ThenLook(cfg, s, c, before, db, j, up.0);
    var b := ThenLook(cfg, s, c, a, db1, j.(caller := c1), up.1);
    var d := ThenLook(cfg, s, c, b, db2, j.(caller := c2), up.2);
    ThenGo(cfg, s, c, d, db3, j.(caller := c3), up.3);
    events := d + [Go(c, up.3)];
  }

  /** The answers of the delivery loop from recipient k on. */
  function IdsFrom(db: Db, cfg: L.Config, j: Job, up: L.Luck): (Db, seq<Option<nat>>)
    requires |j.ids| <= |j.rcpts|
    decreases |j.rcpts| - |j.ids|
  {
    if |j.ids| == |j.rcpts| then (db, j.ids)
    else
      var (db', id) := L.DeliverOne(db, cfg, j.from, j.raw, j.rcpts[|j.ids|], j.at, up(|j.ids|));
      IdsFrom(db', cfg, Answered(cfg, j, id), up)
  }

  lemma {:induction false} IdsFromExtend(db: Db, cfg: L.Config, j: Job, up: L.Luck)
    requires |j.ids| <= |j.rcpts|
    ensures var ids := IdsFrom(db, cfg, j, up).1; |ids| == |j.rcpts| && j.ids <= ids
    decreases |j.rcpts| - |j.ids|
  {
    if |j.ids| < |j.rcpts| {
      var (db', id) := L.DeliverOne(db, cfg, j.from, j.raw, j.rcpts[|j.ids|], j.at, up(|j.ids|));
      IdsFromExtend(db', cfg, Answered(cfg, j, id), up);
    }
  }

  /** They are the replies of the loop. */
  lemma {:induction false} IdsAreReplies(db: Db, cfg: L.Config, j: Job, up: L.Luck, k: nat)
    requires |j.ids| <= k < |j.rcpts|
    ensures var (db', ids) := IdsFrom(db, cfg, j, up);
      var (db'', replies) := L.DeliverFrom(db, cfg, j.from, j.raw, j.rcpts, |j.ids|, j.at, up);
      && db' == db'' && |replies| == |j.rcpts| - |j.ids| && |ids| == |j.rcpts|
      && replies[k - |j.ids|] == L.ReplyFor(j.rcpts[k], ids[k])
    decreases |j.rcpts| - |j.ids|
  {
    var (db1, id) := L.DeliverOne(db, cfg, j.from, j.raw, j.rcpts[|j.ids|], j.at, up(|j.ids|));
    var j1 := Answered(cfg, j, id);
    IdsFromExtend(db1, cfg, j1, up);
    if |j1.ids| < |j.rcpts| {
      IdsAreReplies(db1, cfg, j1, up, if k == |j.ids| then k + 1 else k);
    } else {
      assert L.DeliverFrom(db1, cfg, j.from, j.raw, j.rcpts, |j.ids| + 1, j.at, up) == (db1, []);
    }
  }

  lemma {:induction false} JobAlone(cfg: L.Config, s: State, c: nat, before: seq<Event>, db: Db, j: Job, up: L.Luck) returns (events: seq<Event>)
    requires c in s.senders && Working(s.senders[c]) && |j.ids| < |j.rcpts| && j.caller == CallerFor(cfg, j.rcpts, |j.ids|)
    requires Reaches(s, Run(cfg, s, before), c, db, j)
    ensures var (db', ids) := IdsFrom(db, cfg, j, up);
      Reaches(s, Run(cfg, s, events), c, db', j.(ids := ids, caller := CallerFor(cfg, j.rcpts, |j.rcpts|)))
    decreases |j.rcpts| - |j.ids|
  {
    events := ThenRecipient(cfg, s, c, before, db, j, up(|j.ids|));
    var (db1, id) := L.DeliverOne(db, cfg, j.from, j.raw, j.rcpts[|j.ids|], j.at, up(|j.ids|));
    var j1 := Answered(cfg, j, id);
    if |j1.ids| < |j.rcpts| {
      events := JobAlone(cfg, s, c, events, db1, j1, up);
    }
  }

  /**
    A DATA command that nobody interrupts, on the shared archive: the same archive,
    envelope and transcript as the sequential server's.
   */
  lemma DataAlone(cfg: L.Config, s: State, c: nat, i: L.Input) returns (events: seq<Event>)
    requires c in s.senders && s.senders[c].open && !s.senders[c].busy
    requires BodyRead(cfg, s.senders[c].env, L.Data, i).Some?
    ensures var o := L.Handle(cfg, s.senders[c].env, s.db, L.Data, i);
      var t := Run(cfg, s, events);
      && t.db == o.db && t.clients == s.clients && c in t.senders
      && t.senders[c].env == o.env && t.senders[c].h == s.senders[c].h + [L.Entry(L.Data, o.replies)]
      && !t.senders[c].busy && t.senders[c].open
  {
    var m := s.senders[c];
    var raw := BodyRead(cfg, m.env, L.Data, i).value;
    var j := NewJob(cfg, m.env, raw, i.at);
    var tell := Tell(c, L.Data, i);
    V.RunOne(cfg, s, tell);
    var s1 := Next(cfg, s, tell);
    NoStep(cfg, s1, c);
    var more := JobAlone(cfg, s1, c, [], s1.db, j, i.up);
    V.RunConcat(cfg, s, [tell], more);
    events := [tell] + more;
    var (db', replies) := L.DeliverFrom(s.db, cfg, j.from, raw, j.rcpts, 0, i.at, i.up);
    var ids := IdsFrom(s.db, cfg, j, i.up).1;
    IdsAreReplies(s.db, cfg, j, i.up, 0);
    var j' := j.(ids := ids, caller := CallerFor(cfg, j.rcpts, |j.rcpts|));
    forall k | 0 <= k < |j.rcpts| ensures replies[k] == RepliesOf(j')[k] {
      IdsAreReplies(s.db, cfg, j, i.up, k);
    }
    assert replies == RepliesOf(j');
  }

  lemma NoStep(cfg: L.Config, s: State, c: nat)
    requires c in s.senders && Working(s.senders[c])
    ensures Reaches(s, Run(cfg, s, []), c, s.db, Current(s.senders[c]))
  {
    var m := s.senders[c];
    assert m.jobs[|m.jobs| - 1 := Current(m)] == m.jobs;
    assert s.senders[c := m] == s.senders;
  }
}
