/**
  From an LMTP session to the POP3 client: what a 250 reply after DATA stands for, on an
  archive that everybody shares, up to the lines that RETR shows.
 */
module Visibility {
  import opened Text
  import opened Archive
  import opened Senders
  import opened MailStore
  import F = FindOrCreate
  import P = Pop3Server
  import R = Pop3Runs
  import L = LmtpServer
  import D = DotData

  lemma {:induction false} RunConcat(cfg: L.Config, s: State, a: seq<Event>, b: seq<Event>)
    ensures Run(cfg, s, a + b) == Run(cfg, Run(cfg, s, a), b)
    decreases |a|
  {
    if a == [] {
      assert a + b == b;
    } else {
      assert (a + b)[0] == a[0] && (a + b)[1..] == a[1..] + b;
      RunConcat(cfg, Next(cfg, s, a[0]), a[1..], b);
    }
  }

  lemma RunOne(cfg: L.Config, s: State, e: Event)
    ensures Run(cfg, s, [e]) == Next(cfg, s, e)
  {
    assert [e][1..] == [];
  }

  // ----- what later runs keep -----

  /** The same message for the same recipients; those answered stay answered. */
  predicate SameMail(a: Job, b: Job) {
    && a.from == b.from && a.raw == b.raw && a.rcpts == b.rcpts && a.at == b.at && a.ids <= b.ids
  }

  predicate JobsKept(a: seq<Job>, b: seq<Job>) {
    |a| <= |b| && forall j :: 0 <= j < |a| ==> SameMail(a[j], b[j])
  }

  ghost predicate SendersKept(a: map<nat, Sender>, b: map<nat, Sender>) {
    forall c :: c in a ==> c in b && JobsKept(a[c].jobs, b[c].jobs)
  }

  /** Mailboxes stay, what is stored is never changed, and no session forgets a delivery. */
  ghost predicate Keeps(s: State, t: State) {
    Later(s.db, s.created, t.db, t.created) && SendersKept(s.senders, t.senders)
  }

  lemma SendersKeptTransitive(a: map<nat, Sender>, b: map<nat, Sender>, c: map<nat, Sender>)
    requires SendersKept(a, b) && SendersKept(b, c)
    ensures SendersKept(a, c)
  {
    forall d | d in a ensures d in c && JobsKept(a[d].jobs, c[d].jobs) {
      JobsKeptTransitive(a[d].jobs, b[d].jobs, c[d].jobs);
    }
  }

  lemma JobsKeptTransitive(a: seq<Job>, b: seq<Job>, c: seq<Job>)
    requires JobsKept(a, b) && JobsKept(b, c)
    ensures JobsKept(a, c)
  {
    forall j | 0 <= j < |a| ensures SameMail(a[j], c[j]) {
      assert SameMail(a[j], b[j]) && SameMail(b[j], c[j]);
    }
  }

  lemma ReplacedKept(senders: map<nat, Sender>, c: nat, m: Sender)
    requires c in senders ==> JobsKept(senders[c].jobs, m.jobs)
    ensures SendersKept(senders, senders[c := m])
  {
  }

  lemma WorkKeepsMail(cfg: L.Config, db: Db, j: Job, up: bool)
    requires !Ended(j)
    ensures SameMail(j, Work(cfg, db, j, up).1)
  {
  }

  lemma NextSendersKept(cfg: L.Config, s: State, e: Event)
    ensures SendersKept(s.senders, Next(cfg, s, e).senders)
  {
    match e
    case Hello(c) =>
      if c !in s.senders {
        ReplacedKept(s.senders, c, HELLO);
      }
    case Tell(c, cmd, i) =>
      if c in s.senders {
        ReplacedKept(s.senders, c, Told(cfg, s.db, s.senders[c], cmd, i));
      }
    case Go(c, up) =>
      if c in s.senders && Working(s.senders[c]) {
        WorkKeepsMail(cfg, s.db, Current(s.senders[c]), up);
        ReplacedKept(s.senders, c, Progressed(s.senders[c], Work(cfg, s.db, Current(s.senders[c]), up).1));
      }
    case _ =>
  }

  lemma LookLater(cfg: L.Config, s: State, c: nat, up: bool)
    requires ValidDb(s.db) && c in s.senders && Working(s.senders[c])
    requires !Current(s.senders[c]).caller.pc.Done? && !Current(s.senders[c]).caller.pc.Failed?
    ensures var t := Worked(cfg, s, c, up); Later(s.db, s.created, t.db, t.created)
  {
    F.AdvanceGrows(s.db, Current(s.senders[c]).caller, up);
  }

  lemma WorkedLater(cfg: L.Config, s: State, c: nat, up: bool)
    requires ValidDb(s.db) && (forall id :: id in s.created ==> id < s.db.nextId) && c in s.senders && Working(s.senders[c])
    ensures var t := Worked(cfg, s, c, up); Later(s.db, s.created, t.db, t.created)
  {
    var pc := Current(s.senders[c]).caller.pc;
    if pc.Done? && up {
      InsertIs(cfg, s, c);
    } else if !pc.Done? && !pc.Failed? {
      LookLater(cfg, s, c, up);
    }
  }

  lemma NextLater(cfg: L.Config, s: State, e: Event)
    requires ValidDb(s.db) && forall id :: id in s.created ==> id < s.db.nextId
    ensures var t := Next(cfg, s, e); Later(s.db, s.created, t.db, t.created)
  {
    match e
    case NewBox(user, name) => CreateMailboxValid(s.db, user, name);
    case Store(m) =>
      if CreateMessage(s.db, m).1.Some? {
        StoredIs(s, m);
      }
    case Go(c, up) =>
      if c in s.senders && Working(s.senders[c]) {
        WorkedLater(cfg, s, c, up);
      }
    case _ =>
  }

  lemma {:induction false} RunKeeps(cfg: L.Config, s: State, events: seq<Event>)
    requires Inv(cfg, s) && PossibleRun(cfg, s, events)
    ensures Keeps(s, Run(cfg, s, events))
    decreases |events|
  {
    if events == [] {
      NothingKept(s);
    } else {
      var t := Next(cfg, s, events[0]);
      NextLater(cfg, s, events[0]);
      NextSendersKept(cfg, s, events[0]);
      NextKeepsInv(cfg, s, events[0]);
      RunKeeps(cfg, t, events[1..]);
      SendersKeptTransitive(s.senders, t.senders, Run(cfg, s, events).senders);
    }
  }

  lemma NothingKept(s: State)
    ensures Keeps(s, s)
  {
    forall c | c in s.senders ensures JobsKept(s.senders[c].jobs, s.senders[c].jobs) {
    }
  }

  // ----- what a 250 reply stands for -----

  ghost predicate AllTalk(senders: map<nat, Sender>) {
    forall c :: c in senders ==> Talks(senders[c]) && OnlyBodies(senders[c].h)
  }

  lemma ReplacedTalks(senders: map<nat, Sender>, c: nat, m: Sender)
    requires AllTalk(senders) && Talks(m) && OnlyBodies(m.h)
    ensures AllTalk(senders[c := m])
  {
  }

  lemma WorkCounted(cfg: L.Config, db: Db, j: Job, up: bool)
    requires Counted(j) && !Ended(j)
    ensures Counted(Work(cfg, db, j, up).1)
  {
  }

  lemma HelloTalks()
    ensures Talks(HELLO) && OnlyBodies(HELLO.h)
  {
    assert L.EnvelopeOf([]) == L.NO_ENVELOPE;
  }

  lemma GoTalks(cfg: L.Config, db: Db, m: Sender, up: bool)
    requires Talks(m) && OnlyBodies(m.h) && Working(m)
    ensures var m' := Progressed(m, Work(cfg, db, Current(m), up).1); Talks(m') && OnlyBodies(m'.h)
  {
    var j := Work(cfg, db, Current(m), up).1;
    WorkCounted(cfg, db, Current(m), up);
    ProgressedTalks(m, j);
    ProgressedOnlyBodies(m, j);
  }

  lemma NextTalks(cfg: L.Config, s: State, e: Event)
    requires AllTalk(s.senders)
    ensures AllTalk(Next(cfg, s, e).senders)
  {
    match e
    case Hello(c) =>
      HelloTalks();
      ReplacedTalks(s.senders, c, HELLO);
    case Tell(c, cmd, i) =>
      if c in s.senders {
        ToldTalks(cfg, s.db, s.senders[c], cmd, i);
        ToldOnlyBodies(cfg, s.db, s.senders[c], cmd, i);
        ReplacedTalks(s.senders, c, Told(cfg, s.db, s.senders[c], cmd, i));
      }
    case Go(c, up) =>
      if c in s.senders && Working(s.senders[c]) {
        GoTalks(cfg, s.db, s.senders[c], up);
        ReplacedTalks(s.senders, c, Progressed(s.senders[c], Work(cfg, s.db, Current(s.senders[c]), up).1));
      }
    case _ =>
  }

  lemma {:induction false} RunTalks(cfg: L.Config, s: State, events: seq<Event>)
    requires AllTalk(s.senders)
    ensures AllTalk(Run(cfg, s, events).senders)
    decreases |events|
  {
    if events != [] {
      NextTalks(cfg, s, events[0]);
      RunTalks(cfg, Next(cfg, s, events[0]), events[1..]);
    }
  }

  /** In any state that runs can reach, the envelope of an idle session is the one its transcript asks for. */
  lemma EnvelopeOnSharedArchive(cfg: L.Config, db: Db, events: seq<Event>, c: nat)
    requires c in Run(cfg, Start(db), events).senders && !Run(cfg, Start(db), events).senders[c].busy
    ensures var m := Run(cfg, Start(db), events).senders[c];
      m.env == L.EnvelopeOf(m.h)
  {
    RunTalks(cfg, Start(db), events);
  }

  /**
    For every interleaving: a 250 in the transcript of a session, to recipient k of the
    j-th body it read, stands for a record with a full copy for that recipient, in the
    archive unless a POP3 session that ended with QUIT has deleted it.
   */
  lemma AcknowledgedIsStored(cfg: L.Config, db: Db, events: seq<Event>, c: nat, j: nat, k: nat) returns (id: nat)
    requires TrimSpace(cfg.inbound) == cfg.inbound && ValidDb(db) && PossibleRun(cfg, Start(db), events)
    requires var t := Run(cfg, Start(db), events);
      && c in t.senders && j < |Bodies(t.senders[c].h)| && k < |Bodies(t.senders[c].h)[j]|
      && L.Code(Bodies(t.senders[c].h)[j][k]) == 250
    ensures var t := Run(cfg, Start(db), events);
      && j < |t.senders[c].jobs|
      && var job := t.senders[c].jobs[j];
      && |Bodies(t.senders[c].h)[j]| == |job.rcpts| && Bodies(t.senders[c].h)[j][k] == L.Delivered(job.rcpts[k])
      && At(t.senders[c].jobs, Pos(j, k)) == Some(id) && id in t.created
      && L.CopyFor(t.db, cfg, t.created[id], job.from, job.raw, job.rcpts[k], job.at)
      && (id in t.db.messages <==> !Gone(t.clients, id))
  {
    RunTalks(cfg, Start(db), events);
    RunKeepsInv(cfg, Start(db), events);
    var t := Run(cfg, Start(db), events);
    id := CopyBehindReply(cfg, t, c, j, k);
  }

  lemma CopyBehindReply(cfg: L.Config, t: State, c: nat, j: nat, k: nat) returns (id: nat)
    requires Inv(cfg, t) && c in t.senders && Talks(t.senders[c])
    requires j < |Bodies(t.senders[c].h)| && k < |Bodies(t.senders[c].h)[j]| && L.Code(Bodies(t.senders[c].h)[j][k]) == 250
    ensures j < |t.senders[c].jobs|
    ensures var job := t.senders[c].jobs[j];
      && |Bodies(t.senders[c].h)[j]| == |job.rcpts| && Bodies(t.senders[c].h)[j][k] == L.Delivered(job.rcpts[k])
      && At(t.senders[c].jobs, Pos(j, k)) == Some(id) && id in t.created
      && L.CopyFor(t.db, cfg, t.created[id], job.from, job.raw, job.rcpts[k], job.at)
  {
    var m := t.senders[c];
    ReportedReply(m, j, k);
    var job := m.jobs[j];
    id := job.ids[k].value;
    CopyAtPlace(cfg, t, c, j, k);
  }

  lemma ReportedReply(m: Sender, j: nat, k: nat)
    requires Talks(m) && j < |Bodies(m.h)| && k < |Bodies(m.h)[j]|
    ensures j < |m.jobs| && k < |m.jobs[j].ids| == |m.jobs[j].rcpts| == |Bodies(m.h)[j]|
    ensures Bodies(m.h)[j][k] == L.ReplyFor(m.jobs[j].rcpts[k], m.jobs[j].ids[k])
  {
    assert FinishedJobs(m)[j] == m.jobs[j];
  }

  lemma CopyAtPlace(cfg: L.Config, t: State, c: nat, j: nat, k: nat)
    requires Inv(cfg, t) && c in t.senders && j < |t.senders[c].jobs| && k < |t.senders[c].jobs[j].ids|
    ensures k < |t.senders[c].jobs[j].rcpts| && |t.senders[c].jobs[j].ids| <= |t.senders[c].jobs[j].rcpts|
    ensures CopyAt(cfg, t.db, t.created, t.senders[c].jobs[j], k)
  {
    assert JobInv(cfg, t.db, t.created, t.senders[c].jobs[j]);
  }

  /** Two acknowledged deliveries, of one session or of two, never share a record. */
  lemma NoSharedRecord(cfg: L.Config, db: Db, events: seq<Event>, c: nat, p: Pos, d: nat, q: Pos)
    requires TrimSpace(cfg.inbound) == cfg.inbound && ValidDb(db) && PossibleRun(cfg, Start(db), events)
    requires c in Run(cfg, Start(db), events).senders && d in Run(cfg, Start(db), events).senders
    requires c != d || p != q
    ensures var t := Run(cfg, Start(db), events);
      At(t.senders[c].jobs, p).Some? ==> At(t.senders[c].jobs, p) != At(t.senders[d].jobs, q)
  {
    RunKeepsInv(cfg, Start(db), events);
    var t := Run(cfg, Start(db), events);
    if At(t.senders[c].jobs, p).Some? && At(t.senders[d].jobs, q).Some? && c != d {
      AtInOwn(t.senders[c].jobs, p);
      AtInOwn(t.senders[d].jobs, q);
    }
  }

  /**
    Whatever the other sessions do, an idle session has exactly as many records of its
    own as there are 250 delivery replies in its transcript.
   */
  lemma OwnRecords(cfg: L.Config, db: Db, events: seq<Event>, c: nat)
    requires TrimSpace(cfg.inbound) == cfg.inbound && ValidDb(db) && PossibleRun(cfg, Start(db), events)
    requires c in Run(cfg, Start(db), events).senders && !Run(cfg, Start(db), events).senders[c].busy
    ensures var t := Run(cfg, Start(db), events);
      var m := t.senders[c];
      L.Deliveries(m.h) == |OwnIds(m.jobs)| && forall id :: id in OwnIds(m.jobs) ==> id in t.created
  {
    RunTalks(cfg, Start(db), events);
    RunKeepsInv(cfg, Start(db), events);
    var t := Run(cfg, Start(db), events);
    DeliveriesAreStored(t.senders[c]);
    OwnCount(t.senders[c].jobs);
    OwnCreated(cfg, t.db, t.created, t.senders[c]);
  }

  // ----- the listing shows it -----

  /** Other messages of the mailbox that a listing may put before this one. */
  ghost function Rivals(db: Db, id: nat): set<nat>
    requires id in db.messages
  {
    set k | k in db.messages && k != id && db.messages[k].mailbox == db.messages[id].mailbox
            && db.messages[k].receivedAt >= db.messages[id].receivedAt
  }

  ghost function Ids(page: seq<Message>): set<nat> {
    set m | m in page :: m.id
  }

  lemma {:induction false} IdsCount(db: Db, page: seq<Message>)
    requires Distinct(page) && forall m :: m in page ==> m.id in db.messages && db.messages[m.id] == m
    ensures |Ids(page)| == |page|
  {
    if page != [] {
      var init, last := page[..|page| - 1], page[|page| - 1];
      assert forall m :: m in page <==> m in init || m == last;
      IdsCount(db, init);
      assert last !in init;
      assert last.id !in Ids(init);
      assert Ids(page) == Ids(init) + {last.id};
    }
  }

  lemma SubsetCount(a: set<nat>, b: set<nat>)
    requires a <= b
    ensures |a| <= |b|
  {
    assert b == a + (b - a);
  }

  /** A listing leaves out a message only if it is full of others at least as new. */
  lemma PageShows(db: Db, limit: nat, page: seq<Message>, id: nat)
    requires ValidDb(db) && id in db.messages && IsPage(db, db.messages[id].mailbox, limit, page)
    requires |Rivals(db, id)| < limit
    ensures db.messages[id] in page
  {
    var m := db.messages[id];
    assert InBox(db, m, m.mailbox);
    if m !in page {
      IdsCount(db, page);
      forall k | k in Ids(page) ensures k in Rivals(db, id) {
        var p :| p in page && p.id == k;
        assert InBox(db, p, m.mailbox);
      }
      SubsetCount(Ids(page), Rivals(db, id));
    }
  }

  /** The user has no second mailbox that the inbound name would find. */
  ghost predicate OneInbox(db: Db, user: string, inbound: string) {
    forall b, b' :: b in db.boxes && b' in db.boxes && F.Wanted(b, user, inbound) && F.Wanted(b', user, inbound) ==> b == b'
  }

  lemma LoadedShows(db: Db, user: string, inbound: string, page: seq<Message>, id: nat)
    requires ValidDb(db) && TrimSpace(user) != "" && TrimSpace(inbound) == inbound
    requires id in db.messages && OneInbox(db, Normal(user), inbound)
    requires exists b :: b in db.boxes && b.id == db.messages[id].mailbox && F.Wanted(b, Normal(user), inbound)
    requires |Rivals(db, id)| < 1000 && P.Loaded(db, user, inbound, page)
    ensures db.messages[id] in page
  {
    F.LookupIs(db, F.Lmtp, user, inbound);
    PageShows(db, 1000, page, id);
  }

}
