/**
  LMTP sessions on a shared archive.  The delivery of a message runs one database
  statement at a time, and anything may happen to the archive between two of them.
 */
module Senders {
  import opened Text
  import opened Archive
  import L = LmtpServer
  import F = FindOrCreate
  import D = DotData

  /**
    A message whose body was read, on its way to its recipients: what became of those
    that have been answered, and the caller that finds the mailbox of the next one.
   */
  datatype Job = Job(from: string, raw: string, rcpts: seq<string>, at: int, caller: F.Caller, ids: seq<Option<nat>>)

  predicate Ended(j: Job) {
    |j.ids| >= |j.rcpts|
  }

  function CallerFor(cfg: L.Config, rcpts: seq<string>, k: nat): F.Caller {
    F.Caller(F.Lmtp, if k < |rcpts| then rcpts[k] else "", cfg.inbound, F.Looking)
  }

  function Answered(cfg: L.Config, j: Job, id: Option<nat>): Job {
    j.(ids := j.ids + [id], caller := CallerFor(cfg, j.rcpts, |j.ids| + 1))
  }

  /** The row that the next insert of the job would store. */
  function RowOf(cfg: L.Config, j: Job, box: nat): Message
    requires !Ended(j)
  {
    L.MessageFor(cfg, j.from, j.raw, j.rcpts[|j.ids|], box, j.at)
  }

  /** One statement of a delivery, or the step from a failure to the next recipient. */
  function Work(cfg: L.Config, db: Db, j: Job, up: bool): (Db, Job)
    requires !Ended(j)
  {
    match j.caller.pc
    case Done(box) =>
      if !up then (db, Answered(cfg, j, None))
      else
        var (db', id) := CreateMessage(db, RowOf(cfg, j, box));
        (db', Answered(cfg, j, id))
    case Failed => (db, Answered(cfg, j, None))
    case _ =>
      var (db', c) := F.Advance(db, j.caller, up);
      (db', j.(caller := c))
  }

  /** The replies so far, one for each answered recipient. */
  function RepliesOf(j: Job): (replies: seq<L.Reply>)
    requires |j.ids| <= |j.rcpts|
    ensures |replies| == |j.ids|
    ensures forall k :: 0 <= k < |j.ids| ==> replies[k] == L.ReplyFor(j.rcpts[k], j.ids[k])
  {
    seq(|j.ids|, k requires 0 <= k < |j.ids| => L.ReplyFor(j.rcpts[k], j.ids[k]))
  }

  /** A session: its envelope and transcript, and its jobs; while `busy` the last one is still going on. */
  datatype Sender = Sender(env: L.Envelope, h: seq<L.Entry>, jobs: seq<Job>, busy: bool, open: bool)

  const HELLO := Sender(L.NO_ENVELOPE, [], [], false, true)

  /** The body that a command makes the session read. */
  function BodyRead(cfg: L.Config, env: L.Envelope, c: L.Command, i: L.Input): Option<string> {
    if c.Data? && env.from != "" && env.rcpts != [] then
      (match D.ReadFrom(i.following, "", cfg.max)
       case Body(raw, rest) => Some(raw)
       case _ => None)
    else None
  }

  function NewJob(cfg: L.Config, env: L.Envelope, raw: string, at: int): Job {
    Job(env.from, raw, env.rcpts, at, CallerFor(cfg, env.rcpts, 0), [])
  }

  /** A command reaches a session that is open and not delivering. */
  function Told(cfg: L.Config, db: Db, m: Sender, c: L.Command, i: L.Input): Sender {
    if m.busy || !m.open then m
    else match BodyRead(cfg, m.env, c, i)
      case Some(raw) => m.(env := L.NO_ENVELOPE, jobs := m.jobs + [NewJob(cfg, m.env, raw, i.at)], busy := true)
      case None =>
        var o := L.Handle(cfg, m.env, db, c, i);
        m.(env := o.env, h := m.h + [L.Entry(c, o.replies)], open := o.open)
  }

  predicate Working(m: Sender) {
    m.busy && m.jobs != [] && !Ended(m.jobs[|m.jobs| - 1])
  }

  function Current(m: Sender): Job
    requires m.jobs != []
  {
    m.jobs[|m.jobs| - 1]
  }

  /** The session after its current job has become `j`; with the last reply the DATA command is over. */
  function Progressed(m: Sender, j: Job): Sender
    requires Working(m)
  {
    var m' := m.(jobs := m.jobs[|m.jobs| - 1 := j]);
    if |j.ids| != |j.rcpts| then m'
    else m'.(busy := false, h := m.h + [L.Entry(L.Data, [L.StartData] + RepliesOf(j))])
  }

  // ----- what a session knows of the archive -----

  /** Mailboxes stay, and what was stored is remembered as it was. */
  ghost predicate Later(db: Db, created: map<nat, Message>, db': Db, created': map<nat, Message>) {
    && (forall b :: b in db.boxes ==> b in db'.boxes)
    && (forall id :: id in created ==> id in created' && created'[id] == created[id])
  }

  /** Recipient k of the job was answered 250, and this is the copy. */
  ghost predicate CopyAt(cfg: L.Config, db: Db, created: map<nat, Message>, j: Job, k: nat)
    requires k < |j.ids| <= |j.rcpts|
  {
    j.ids[k].Some? ==>
      && j.ids[k].value in created
      && L.CopyFor(db, cfg, created[j.ids[k].value], j.from, j.raw, j.rcpts[k], j.at)
  }

  ghost predicate CallerOk(cfg: L.Config, db: Db, j: Job) {
    !Ended(j) ==>
      && j.caller.kind == F.Lmtp && j.caller.user == j.rcpts[|j.ids|] && j.caller.name == cfg.inbound
      && (TrimSpace(j.caller.user) != "" ==> F.Found(db, j.caller))
  }

  ghost predicate JobInv(cfg: L.Config, db: Db, created: map<nat, Message>, j: Job) {
    && |j.ids| <= |j.rcpts| && CallerOk(cfg, db, j)
    && (forall k :: 0 <= k < |j.ids| ==> CopyAt(cfg, db, created, j, k))
  }

  ghost predicate SenderInv(cfg: L.Config, db: Db, created: map<nat, Message>, m: Sender) {
    forall j :: 0 <= j < |m.jobs| ==> JobInv(cfg, db, created, m.jobs[j])
  }

  lemma CopyLater(cfg: L.Config, db: Db, db': Db, m: Message, from: string, raw: string, rcpt: string, at: int)
    requires L.CopyFor(db, cfg, m, from, raw, rcpt, at) && forall b :: b in db.boxes ==> b in db'.boxes
    ensures L.CopyFor(db', cfg, m, from, raw, rcpt, at)
  {
    if TrimSpace(rcpt) != "" {
      var b :| b in db.boxes && b.id == m.mailbox && F.Wanted(b, Normal(rcpt), cfg.inbound);
      assert b in db'.boxes;
    }
  }

  lemma FoundLater(db: Db, db': Db, c: F.Caller)
    requires F.Found(db, c) && forall b :: b in db.boxes ==> b in db'.boxes
    ensures F.Found(db', c)
  {
    if c.pc.Done? {
      var b :| b in db.boxes && b.id == c.pc.id && F.Wanted(b, Normal(c.user), c.name);
      assert b in db'.boxes;
    }
  }

  lemma JobInvLater(cfg: L.Config, db: Db, created: map<nat, Message>, db': Db, created': map<nat, Message>, j: Job)
    requires JobInv(cfg, db, created, j) && Later(db, created, db', created')
    ensures JobInv(cfg, db', created', j)
  {
    forall k | 0 <= k < |j.ids| ensures CopyAt(cfg, db', created', j, k) {
      assert CopyAt(cfg, db, created, j, k);
      if j.ids[k].Some? {
        CopyLater(cfg, db, db', created[j.ids[k].value], j.from, j.raw, j.rcpts[k], j.at);
      }
    }
    if !Ended(j) && TrimSpace(j.caller.user) != "" {
      FoundLater(db, db', j.caller);
    }
  }

  lemma SenderInvLater(cfg: L.Config, db: Db, created: map<nat, Message>, db': Db, created': map<nat, Message>, m: Sender)
    requires SenderInv(cfg, db, created, m) && Later(db, created, db', created')
    ensures SenderInv(cfg, db', created', m)
  {
    forall j | 0 <= j < |m.jobs| ensures JobInv(cfg, db', created', m.jobs[j]) {
      JobInvLater(cfg, db, created, db', created', m.jobs[j]);
    }
  }

  lemma ToldKeepsInv(cfg: L.Config, db: Db, created: map<nat, Message>, m: Sender, c: L.Command, i: L.Input)
    requires SenderInv(cfg, db, created, m)
    ensures SenderInv(cfg, db, created, Told(cfg, db, m, c, i))
  {
    var m' := Told(cfg, db, m, c, i);
    forall j | 0 <= j < |m'.jobs| ensures JobInv(cfg, db, created, m'.jobs[j]) {
      assert j < |m.jobs| ==> m'.jobs[j] == m.jobs[j];
    }
  }

  // ----- one statement of a delivery -----

  /** What `created` becomes by a statement: the insert adds its row. */
  function Remembered(db': Db, created: map<nat, Message>, j: Job, j': Job): map<nat, Message> {
    if |j'.ids| == |j.ids| + 1 && j'.ids[|j.ids|].Some? && j'.ids[|j.ids|].value in db'.messages
    then created[j'.ids[|j.ids|].value := db'.messages[j'.ids[|j.ids|].value]]
    else created
  }

  /** A lookup or a creation: no message changes and no recipient is answered. */
  lemma LookStep(cfg: L.Config, db: Db, created: map<nat, Message>, j: Job, up: bool)
    requires ValidDb(db) && TrimSpace(cfg.inbound) == cfg.inbound && JobInv(cfg, db, created, j) && !Ended(j)
    requires !j.caller.pc.Done? && !j.caller.pc.Failed?
    ensures var (db', j') := Work(cfg, db, j, up);
      && ValidDb(db') && F.Grows(db, db') && db'.messages == db.messages
      && j' == j.(caller := j'.caller) && JobInv(cfg, db', created, j')
  {
    var (db', c) := F.Advance(db, j.caller, up);
    F.AdvanceGrows(db, j.caller, up);
    JobInvLater(cfg, db, created, db', created, j);
    if TrimSpace(j.caller.user) != "" {
      F.AdvanceFinds(db, j.caller, up);
    }
    LookedJob(cfg, db', created, j, c);
  }

  lemma LookedJob(cfg: L.Config, db: Db, created: map<nat, Message>, j: Job, c: F.Caller)
    requires JobInv(cfg, db, created, j) && !Ended(j)
    requires c.kind == F.Lmtp && c.user == j.caller.user && c.name == j.caller.name
    requires TrimSpace(c.user) != "" ==> F.Found(db, c)
    ensures JobInv(cfg, db, created, j.(caller := c))
  {
    var j' := j.(caller := c);
    forall k | 0 <= k < |j'.ids| ensures CopyAt(cfg, db, created, j', k) {
      assert CopyAt(cfg, db, created, j, k);
    }
  }

  /** A recipient is answered, with a copy behind a 250. */
  lemma AnsweredJob(cfg: L.Config, db: Db, created: map<nat, Message>, j: Job, id: Option<nat>)
    requires JobInv(cfg, db, created, j) && !Ended(j)
    requires id.Some? ==> id.value in created && L.CopyFor(db, cfg, created[id.value], j.from, j.raw, j.rcpts[|j.ids|], j.at)
    ensures JobInv(cfg, db, created, Answered(cfg, j, id))
  {
    var j' := Answered(cfg, j, id);
    forall k | 0 <= k < |j'.ids| ensures CopyAt(cfg, db, created, j', k) {
      if k < |j.ids| {
        assert CopyAt(cfg, db, created, j, k);
      }
    }
  }

  /** The insert: a fresh identifier, or nothing. */
  lemma InsertStep(cfg: L.Config, db: Db, created: map<nat, Message>, j: Job)
    requires ValidDb(db) && JobInv(cfg, db, created, j) && !Ended(j) && j.caller.pc.Done?
    requires forall id :: id in created ==> id < db.nextId
    ensures var (db', id) := CreateMessage(db, RowOf(cfg, j, j.caller.pc.id));
      && ValidDb(db')
      && (id.None? ==> db' == db)
      && (id.Some? ==> id.value == db.nextId && id.value in db'.messages
                       && JobInv(cfg, db', created[id.value := db'.messages[id.value]], Answered(cfg, j, id)))
      && (id.None? ==> JobInv(cfg, db, created, Answered(cfg, j, None)))
  {
    var row := RowOf(cfg, j, j.caller.pc.id);
    CreateMessageValid(db, row);
    L.CreateCopy(db, cfg, row, j.from, j.raw, j.rcpts[|j.ids|], j.at);
    var (db', id) := CreateMessage(db, row);
    if id.Some? {
      var created' := created[id.value := db'.messages[id.value]];
      JobInvLater(cfg, db, created, db', created', j);
      AnsweredJob(cfg, db', created', j, id);
    } else {
      AnsweredJob(cfg, db, created, j, None);
    }
  }

  // ----- what the transcript says -----

  /** A DATA command whose body was read. */
  predicate IsBody(e: L.Entry) {
    e.cmd.Data? && |e.replies| > 1 && e.replies[1] != L.TooLargeOrReadError
  }

  /** The delivery replies of those commands, in order. */
  function Bodies(h: seq<L.Entry>): seq<seq<L.Reply>> {
    if h == [] then []
    else
      var e := h[|h| - 1];
      Bodies(h[..|h| - 1]) + if IsBody(e) then [e.replies[1..]] else []
  }

  lemma BodiesSnoc(h: seq<L.Entry>, e: L.Entry)
    ensures Bodies(h + [e]) == Bodies(h) + if IsBody(e) then [e.replies[1..]] else []
    ensures L.Deliveries(h + [e]) == L.Deliveries(h) + L.Count(e.replies)
  {
    assert (h + [e])[..|h|] == h;
  }

  predicate Counted(j: Job) {
    0 < |j.rcpts| && |j.ids| <= |j.rcpts|
  }

  function FinishedJobs(m: Sender): seq<Job> {
    if m.busy && m.jobs != [] then m.jobs[..|m.jobs| - 1] else m.jobs
  }

  /** The transcript reports the finished jobs, and the envelope is the one it asks for. */
  ghost predicate Talks(m: Sender) {
    && (if m.busy then Working(m) && m.env == L.NO_ENVELOPE else m.env == L.EnvelopeOf(m.h))
    && (forall j :: 0 <= j < |m.jobs| ==> Counted(m.jobs[j]))
    && Reports(m.h, FinishedJobs(m))
  }

  ghost predicate Reports(h: seq<L.Entry>, jobs: seq<Job>) {
    && (forall j :: 0 <= j < |jobs| ==> |jobs[j].ids| == |jobs[j].rcpts|)
    && |Bodies(h)| == |jobs|
    && (forall j :: 0 <= j < |jobs| ==> Bodies(h)[j] == RepliesOf(jobs[j]))
  }

  /** A command that reads no body is answered without a delivery reply, and leaves the archive alone. */
  lemma PlainCommand(cfg: L.Config, env: L.Envelope, db: Db, c: L.Command, i: L.Input)
    requires BodyRead(cfg, env, c, i).None?
    ensures var o := L.Handle(cfg, env, db, c, i);
      o.db == db && !IsBody(L.Entry(c, o.replies)) && L.Count(o.replies) == 0
  {
    var o := L.Handle(cfg, env, db, c, i);
    if c.Data? && env.from != "" && env.rcpts != [] {
      L.NoneDelivered(|env.rcpts|);
      assert o.replies[1] == L.Repeat(L.TooLargeOrReadError, |env.rcpts|)[0];
    }
  }

  lemma ToldTalks(cfg: L.Config, db: Db, m: Sender, c: L.Command, i: L.Input)
    requires Talks(m)
    ensures Talks(Told(cfg, db, m, c, i))
  {
    if !m.busy && m.open {
      if BodyRead(cfg, m.env, c, i).Some? {
        var m' := Told(cfg, db, m, c, i);
        assert FinishedJobs(m') == m.jobs;
      } else {
        var o := L.Handle(cfg, m.env, db, c, i);
        var e := L.Entry(c, o.replies);
        PlainCommand(cfg, m.env, db, c, i);
        BodiesSnoc(m.h, e);
        assert Bodies(m.h) + [] == Bodies(m.h);
        L.HandleEnvelope(cfg, m.h, db, c, i);
      }
    }
  }

  lemma ReportsMore(h: seq<L.Entry>, jobs: seq<Job>, j: Job)
    requires Reports(h, jobs) && Counted(j) && |j.ids| == |j.rcpts|
    ensures Reports(h + [L.Entry(L.Data, [L.StartData] + RepliesOf(j))], jobs + [j])
  {
    var e := L.Entry(L.Data, [L.StartData] + RepliesOf(j));
    assert e.replies[1] == RepliesOf(j)[0];
    assert e.replies[1..] == RepliesOf(j);
    BodiesSnoc(h, e);
  }

  /** After any statement of its job the session still reports what it did. */
  lemma ProgressedTalks(m: Sender, j: Job)
    requires Talks(m) && Working(m) && Counted(j)
    ensures Talks(Progressed(m, j))
  {
    var n := |m.jobs| - 1;
    var jobs := m.jobs[n := j];
    assert jobs[..n] == m.jobs[..n];
    if |j.ids| == |j.rcpts| {
      var e := L.Entry(L.Data, [L.StartData] + RepliesOf(j));
      ReportsMore(m.h, m.jobs[..n], j);
      assert jobs == m.jobs[..n] + [j];
      assert e.replies[0] == L.StartData;
      L.BoundaryEnvelope(m.h, e);
    }
  }

  // ----- how many records -----

  function StoredIn(ids: seq<Option<nat>>): nat {
    if ids == [] then 0 else StoredIn(ids[..|ids| - 1]) + if ids[|ids| - 1].Some? then 1 else 0
  }

  function IdsIn(ids: seq<Option<nat>>): set<nat> {
    if ids == [] then {} else IdsIn(ids[..|ids| - 1]) + if ids[|ids| - 1].Some? then {ids[|ids| - 1].value} else {}
  }

  function StoredBy(jobs: seq<Job>): nat {
    if jobs == [] then 0 else StoredBy(jobs[..|jobs| - 1]) + StoredIn(jobs[|jobs| - 1].ids)
  }

  /** The records of a session's own deliveries. */
  function OwnIds(jobs: seq<Job>): set<nat> {
    if jobs == [] then {} else OwnIds(jobs[..|jobs| - 1]) + IdsIn(jobs[|jobs| - 1].ids)
  }

  lemma {:induction false} InIds(ids: seq<Option<nat>>, id: nat)
    ensures id in IdsIn(ids) <==> exists k :: 0 <= k < |ids| && ids[k] == Some(id)
  {
    if ids != [] {
      InIds(ids[..|ids| - 1], id);
    }
  }

  lemma {:induction false} InOwn(jobs: seq<Job>, id: nat)
    ensures id in OwnIds(jobs) <==> exists j :: 0 <= j < |jobs| && id in IdsIn(jobs[j].ids)
  {
    if jobs != [] {
      InOwn(jobs[..|jobs| - 1], id);
    }
  }

  /** The 250 replies of a job number as many as its records. */
  lemma {:induction false} CountIsStored(replies: seq<L.Reply>, rcpts: seq<string>, ids: seq<Option<nat>>)
    requires |replies| == |ids| <= |rcpts| && forall k :: 0 <= k < |ids| ==> replies[k] == L.ReplyFor(rcpts[k], ids[k])
    ensures L.Count(replies) == StoredIn(ids)
  {
    if ids != [] {
      var n := |ids| - 1;
      CountIsStored(replies[..n], rcpts, ids[..n]);
      assert replies == replies[..n] + [replies[n]];
      CountSnoc(replies[..n], replies[n]);
    }
  }

  lemma {:induction false} CountSnoc(replies: seq<L.Reply>, r: L.Reply)
    ensures L.Count(replies + [r]) == L.Count(replies) + if r.Delivered? then 1 else 0
  {
    if replies == [] {
      assert replies + [r] == [r];
    } else {
      CountSnoc(replies[1..], r);
      assert (replies + [r])[1..] == replies[1..] + [r];
    }
  }

  function CountAll(bodies: seq<seq<L.Reply>>): nat {
    if bodies == [] then 0 else CountAll(bodies[..|bodies| - 1]) + L.Count(bodies[|bodies| - 1])
  }

  lemma {:induction false} ReportedCount(bodies: seq<seq<L.Reply>>, jobs: seq<Job>)
    requires |bodies| == |jobs|
    requires forall j :: 0 <= j < |jobs| ==> |jobs[j].ids| <= |jobs[j].rcpts| && bodies[j] == RepliesOf(jobs[j])
    ensures CountAll(bodies) == StoredBy(jobs)
  {
    if jobs != [] {
      var n := |jobs| - 1;
      ReportedCount(bodies[..n], jobs[..n]);
      CountIsStored(bodies[n], jobs[n].rcpts, jobs[n].ids);
    }
  }

  /** No delivery reply stands outside the bodies. */
  ghost predicate OnlyBodies(h: seq<L.Entry>) {
    L.Deliveries(h) == CountAll(Bodies(h))
  }

  lemma {:induction false} CountAllSnoc(bodies: seq<seq<L.Reply>>, body: seq<L.Reply>)
    ensures CountAll(bodies + [body]) == CountAll(bodies) + L.Count(body)
  {
    assert (bodies + [body])[..|bodies|] == bodies;
  }

  lemma {:induction false} BodyCount(e: L.Entry)
    requires IsBody(e) && e.replies[0] == L.StartData
    ensures L.Count(e.replies) == L.Count(e.replies[1..])
  {
    assert e.replies == [e.replies[0]] + e.replies[1..];
    L.CountCons(e.replies[0], e.replies[1..]);
  }

  lemma {:induction false} BodySnoc(h: seq<L.Entry>, e: L.Entry)
    requires OnlyBodies(h) && IsBody(e) && e.replies[0] == L.StartData
    ensures OnlyBodies(h + [e])
  {
    BodiesSnoc(h, e);
    CountAllSnoc(Bodies(h), e.replies[1..]);
    BodyCount(e);
    assert (h + [e])[..|h|] == h;
  }

  lemma {:induction false} PlainSnoc(h: seq<L.Entry>, e: L.Entry)
    requires OnlyBodies(h) && !IsBody(e) && L.Count(e.replies) == 0
    ensures OnlyBodies(h + [e])
  {
    assert (h + [e])[..|h|] == h;
    assert Bodies(h + [e]) == Bodies(h);
  }

  lemma ToldOnlyBodies(cfg: L.Config, db: Db, m: Sender, c: L.Command, i: L.Input)
    requires OnlyBodies(m.h)
    ensures OnlyBodies(Told(cfg, db, m, c, i).h)
  {
    if !m.busy && m.open && BodyRead(cfg, m.env, c, i).None? {
      var o := L.Handle(cfg, m.env, db, c, i);
      PlainCommand(cfg, m.env, db, c, i);
      PlainSnoc(m.h, L.Entry(c, o.replies));
    }
  }

  lemma ProgressedOnlyBodies(m: Sender, j: Job)
    requires Working(m) && OnlyBodies(m.h) && Counted(j)
    ensures OnlyBodies(Progressed(m, j).h)
  {
    if |j.ids| == |j.rcpts| {
      var e := L.Entry(L.Data, [L.StartData] + RepliesOf(j));
      assert e.replies[1] == RepliesOf(j)[0];
      BodySnoc(m.h, e);
    }
  }

  /** The 250 delivery replies of the transcript are as many as the records of the finished jobs. */
  lemma DeliveriesAreStored(m: Sender)
    requires Talks(m) && OnlyBodies(m.h)
    ensures L.Deliveries(m.h) == StoredBy(FinishedJobs(m))
  {
    ReportedCount(Bodies(m.h), FinishedJobs(m));
  }

  // ----- no two deliveries share a record -----

  /** Recipient k of job j. */
  datatype Pos = Pos(j: nat, k: nat)

  function At(jobs: seq<Job>, p: Pos): Option<nat> {
    if p.j < |jobs| && p.k < |jobs[p.j].ids| then jobs[p.j].ids[p.k] else None
  }

  ghost predicate DistinctIn(jobs: seq<Job>) {
    forall p, q :: p != q && At(jobs, p).Some? ==> At(jobs, p) != At(jobs, q)
  }

  lemma AtInOwn(jobs: seq<Job>, p: Pos)
    requires At(jobs, p).Some?
    ensures At(jobs, p).value in OwnIds(jobs)
  {
    InIds(jobs[p.j].ids, At(jobs, p).value);
    InOwn(jobs, At(jobs, p).value);
  }

  lemma OwnAt(jobs: seq<Job>, id: nat) returns (p: Pos)
    requires id in OwnIds(jobs)
    ensures At(jobs, p) == Some(id)
  {
    InOwn(jobs, id);
    var j :| 0 <= j < |jobs| && id in IdsIn(jobs[j].ids);
    InIds(jobs[j].ids, id);
    var k :| 0 <= k < |jobs[j].ids| && jobs[j].ids[k] == Some(id);
    p := Pos(j, k);
  }

  lemma IdsSnoc(ids: seq<Option<nat>>, id: Option<nat>)
    ensures IdsIn(ids + [id]) == IdsIn(ids) + if id.Some? then {id.value} else {}
  {
    assert (ids + [id])[..|ids|] == ids;
  }

  lemma OwnWith(jobs: seq<Job>, j: Job)
    requires jobs != []
    ensures OwnIds(jobs[|jobs| - 1 := j]) == OwnIds(jobs[..|jobs| - 1]) + IdsIn(j.ids)
  {
    assert jobs[|jobs| - 1 := j][..|jobs| - 1] == jobs[..|jobs| - 1];
  }

  /** One more answer, with a record that is not the session's yet. */
  lemma OneMoreId(jobs: seq<Job>, j: Job, id: Option<nat>)
    requires jobs != [] && DistinctIn(jobs) && j.ids == jobs[|jobs| - 1].ids + [id]
    requires id.Some? ==> id.value !in OwnIds(jobs)
    ensures var jobs' := jobs[|jobs| - 1 := j];
      DistinctIn(jobs') && OwnIds(jobs') == OwnIds(jobs) + if id.Some? then {id.value} else {}
  {
    var n := |jobs| - 1;
    var jobs' := jobs[n := j];
    var new_ := Pos(n, |jobs[n].ids|);
    OwnWith(jobs, j);
    IdsSnoc(jobs[n].ids, id);
    assert At(jobs', new_) == id;
    forall p ensures p != new_ ==> At(jobs', p) == At(jobs, p) {
    }
    forall p | At(jobs, p).Some? ensures At(jobs, p) != id {
      AtInOwn(jobs, p);
    }
  }

  lemma SameIds(jobs: seq<Job>, j: Job)
    requires jobs != [] && DistinctIn(jobs) && j.ids == jobs[|jobs| - 1].ids
    ensures var jobs' := jobs[|jobs| - 1 := j]; DistinctIn(jobs') && OwnIds(jobs') == OwnIds(jobs)
  {
    var jobs' := jobs[|jobs| - 1 := j];
    OwnWith(jobs, j);
    forall p ensures At(jobs', p) == At(jobs, p) {
    }
  }

  lemma NewJobIds(jobs: seq<Job>, j: Job)
    requires DistinctIn(jobs) && j.ids == []
    ensures DistinctIn(jobs + [j]) && OwnIds(jobs + [j]) == OwnIds(jobs)
  {
    assert (jobs + [j])[..|jobs|] == jobs;
    forall p ensures At(jobs + [j], p) == At(jobs, p) {
    }
  }

  lemma {:induction false} IdsCount(ids: seq<Option<nat>>)
    requires forall k, l :: 0 <= k < l < |ids| && ids[k].Some? ==> ids[k] != ids[l]
    ensures |IdsIn(ids)| == StoredIn(ids)
  {
    if ids != [] {
      var init, last := ids[..|ids| - 1], ids[|ids| - 1];
      IdsCount(init);
      if last.Some? {
        InIds(init, last.value);
      }
    }
  }

  /** A session has as many records of its own as it stored copies. */
  lemma {:induction false} OwnCount(jobs: seq<Job>)
    requires DistinctIn(jobs)
    ensures |OwnIds(jobs)| == StoredBy(jobs)
  {
    if jobs != [] {
      var n := |jobs| - 1;
      DistinctPrefix(jobs);
      OwnCount(jobs[..n]);
      LastJobDistinct(jobs);
      IdsCount(jobs[n].ids);
      LastJobApart(jobs);
    }
  }

  lemma DistinctPrefix(jobs: seq<Job>)
    requires DistinctIn(jobs) && jobs != []
    ensures DistinctIn(jobs[..|jobs| - 1])
  {
    var init := jobs[..|jobs| - 1];
    forall p, q | p != q && At(init, p).Some? ensures At(init, p) != At(init, q) {
      assert At(jobs, p) == At(init, p);
      assert At(init, q).Some? ==> At(jobs, q) == At(init, q);
    }
  }

  lemma LastJobDistinct(jobs: seq<Job>)
    requires DistinctIn(jobs) && jobs != []
    ensures var ids := jobs[|jobs| - 1].ids; forall k, l :: 0 <= k < l < |ids| && ids[k].Some? ==> ids[k] != ids[l]
  {
    var n := |jobs| - 1;
    var ids := jobs[n].ids;
    forall k, l | 0 <= k < l < |ids| && ids[k].Some? ensures ids[k] != ids[l] {
      assert At(jobs, Pos(n, k)) == ids[k] && At(jobs, Pos(n, l)) == ids[l];
    }
  }

  lemma LastJobApart(jobs: seq<Job>)
    requires DistinctIn(jobs) && jobs != []
    ensures OwnIds(jobs[..|jobs| - 1]) !! IdsIn(jobs[|jobs| - 1].ids)
  {
    var n := |jobs| - 1;
    forall id | id in OwnIds(jobs[..n]) ensures id !in IdsIn(jobs[n].ids) {
      var p := OwnAt(jobs[..n], id);
      assert At(jobs, p) == Some(id);
      forall k | 0 <= k < |jobs[n].ids| ensures jobs[n].ids[k] != Some(id) {
        assert At(jobs, Pos(n, k)) == jobs[n].ids[k];
      }
      InIds(jobs[n].ids, id);
    }
  }

  /** What a session has stored is remembered. */
  lemma OwnCreated(cfg: L.Config, db: Db, created: map<nat, Message>, m: Sender)
    requires SenderInv(cfg, db, created, m)
    ensures forall id :: id in OwnIds(m.jobs) ==> id in created
  {
    forall id | id in OwnIds(m.jobs) ensures id in created {
      var p := OwnAt(m.jobs, id);
      assert JobInv(cfg, db, created, m.jobs[p.j]);
      assert CopyAt(cfg, db, created, m.jobs[p.j], p.k);
    }
  }
}
