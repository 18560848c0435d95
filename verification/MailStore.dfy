/**
  One archive under any number of POP3 sessions and LMTP sessions, interleaved
  statement by statement.
 */
module MailStore {
  import opened Text
  import opened Archive
  import P = Pop3Server
  import R = Pop3Runs
  import L = LmtpServer
  import opened Senders

  /**
    A POP3 session on the shared archive: its steps so far, and once it has answered
    QUIT the index of the next message to commit and the identifiers deleted so far.
   */
  datatype Client = Client(steps: seq<P.Step>, next: Option<nat>, gone: set<nat>)

  function Life(c: Client): P.Life {
    P.Run(c.steps)
  }

  function Msgs(c: Client): seq<P.Pop3Msg> {
    Life(c).s.msgs
  }

  /** `created` remembers every message that was ever stored. */
  datatype State = State(db: Db, clients: map<nat, Client>, senders: map<nat, Sender>, created: map<nat, Message>)

  /**
    Another part of the service makes a mailbox or stores a message; a POP3 session
    begins, gets a command, or goes on with its commit; an LMTP session begins, gets a
    command, or goes on with its delivery.
   */
  datatype Event =
    | NewBox(user: string, name: string)
    | Store(m: Message)
    | Connect(c: nat)
    | Command(c: nat, cmd: P.Command, luck: P.Luck)
    | Delete(c: nat, ok: bool)
    | Hello(c: nat)
    | Tell(c: nat, told: L.Command, i: L.Input)
    | Go(c: nat, up: bool)

  function Commanded(s: State, c: Client, cmd: P.Command, luck: P.Luck): Client {
    if !Life(c).open then c
    else
      var commits := Life(c).s.phase.Transaction? && cmd.Quit?;
      Client(c.steps + [P.Step(cmd, s.db, luck)], if commits then Some(0) else None, {})
  }

  /** The next statement of a commit concerns the message at `next`. */
  predicate Committing(c: Client) {
    c.next.Some? && c.next.value < |Msgs(c)|
  }

  predicate Removes(c: Client, ok: bool)
    requires Committing(c)
  {
    Msgs(c)[c.next.value].deleted && ok
  }

  function NextId(c: Client): nat
    requires Committing(c)
  {
    Msgs(c)[c.next.value].id
  }

  function Deleted(c: Client, ok: bool): Client
    requires Committing(c)
  {
    c.(next := Some(c.next.value + 1), gone := if Removes(c, ok) then c.gone + {NextId(c)} else c.gone)
  }

  function Stored(db: Db, created: map<nat, Message>, m: Message): map<nat, Message> {
    var (db', id) := CreateMessage(db, m);
    match id
    case Some(k) => if k in db'.messages then created[k := db'.messages[k]] else created
    case None => created
  }

  /** A statement of a delivery. */
  function Worked(cfg: L.Config, s: State, c: nat, up: bool): State
    requires c in s.senders && Working(s.senders[c])
  {
    var j := Current(s.senders[c]);
    var (db, j') := Work(cfg, s.db, j, up);
    State(db, s.clients, s.senders[c := Progressed(s.senders[c], j')], Remembered(db, s.created, j, j'))
  }

  function Next(cfg: L.Config, s: State, e: Event): State {
    match e
    case NewBox(user, name) => s.(db := CreateMailbox(s.db, user, name).0)
    case Store(m) => s.(db := CreateMessage(s.db, m).0, created := Stored(s.db, s.created, m))
    case Connect(c) => if c in s.clients then s else s.(clients := s.clients[c := IDLE])
    case Command(c, cmd, luck) =>
      if c !in s.clients then s else s.(clients := s.clients[c := Commanded(s, s.clients[c], cmd, luck)])
    case Delete(c, ok) =>
      if c !in s.clients || !Committing(s.clients[c]) then s
      else
        var before := s.clients[c];
        s.(db := if Removes(before, ok) then DeleteMessage(s.db, NextId(before)) else s.db,
           clients := s.clients[c := Deleted(before, ok)])
    case Hello(c) => if c in s.senders then s else s.(senders := s.senders[c := HELLO])
    case Tell(c, cmd, i) =>
      if c !in s.senders then s else s.(senders := s.senders[c := Told(cfg, s.db, s.senders[c], cmd, i)])
    case Go(c, up) =>
      if c !in s.senders || !Working(s.senders[c]) then s else Worked(cfg, s, c, up)
  }

  function Run(cfg: L.Config, s: State, events: seq<Event>): State
    decreases |events|
  {
    if events == [] then s else Run(cfg, Next(cfg, s, events[0]), events[1..])
  }

  /** A login loads what the archive holds at that moment. */
  ghost predicate Possible(cfg: L.Config, s: State, e: Event) {
    match e
    case Command(c, cmd, luck) => c in s.clients ==> P.Fits(Life(s.clients[c]).s, P.Step(cmd, s.db, luck), cfg.inbound)
    case _ => true
  }

  ghost predicate PossibleRun(cfg: L.Config, s: State, events: seq<Event>)
    decreases |events|
  {
    events != [] ==> Possible(cfg, s, events[0]) && PossibleRun(cfg, Next(cfg, s, events[0]), events[1..])
  }

  // ----- the invariant -----

  predicate FromArchive(created: map<nat, Message>, msgs: seq<P.Pop3Msg>) {
    forall i :: 0 <= i < |msgs| ==> msgs[i].id in created && created[msgs[i].id].size == msgs[i].size
  }

  /** A maildrop holds messages that were stored, with their sizes; what is gone was marked and the session has committed. */
  ghost predicate ClientInv(created: map<nat, Message>, c: Client) {
    && FromArchive(created, Msgs(c))
    && (c.next.None? ==> c.gone == {})
    && (c.next.Some? ==> R.Committed(Life(c)))
    && (forall id :: id in c.gone ==> Marks(c, id))
  }

  ghost predicate Marks(c: Client, id: nat) {
    exists i :: 0 <= i < |Msgs(c)| && Msgs(c)[i].id == id && Msgs(c)[i].deleted
  }

  predicate Gone(clients: map<nat, Client>, id: nat) {
    exists c :: c in clients && id in clients[c].gone
  }

  /** The archive holds what was stored and not deleted by a committing session, unchanged. */
  ghost predicate Kept(db: Db, clients: map<nat, Client>, created: map<nat, Message>) {
    && (forall id :: id in created ==> id < db.nextId)
    && (forall id :: id in db.messages <==> id in created && !Gone(clients, id))
    && (forall id :: id in db.messages ==> db.messages[id] == created[id])
  }

  /** Every session's account of its deliveries is true, and no two of them share a record. */
  ghost predicate SendersOk(cfg: L.Config, db: Db, senders: map<nat, Sender>, created: map<nat, Message>) {
    && (forall c :: c in senders ==> SenderInv(cfg, db, created, senders[c]) && DistinctIn(senders[c].jobs))
    && (forall c, d :: c in senders && d in senders && c != d ==> OwnIds(senders[c].jobs) !! OwnIds(senders[d].jobs))
  }

  ghost predicate ArchiveInv(s: State) {
    && ValidDb(s.db) && Kept(s.db, s.clients, s.created)
    && (forall c :: c in s.clients ==> ClientInv(s.created, s.clients[c]))
  }

  ghost predicate Inv(cfg: L.Config, s: State) {
    TrimSpace(cfg.inbound) == cfg.inbound && ArchiveInv(s) && SendersOk(cfg, s.db, s.senders, s.created)
  }

  lemma FreshNotGone(s: State)
    requires ArchiveInv(s)
    ensures !Gone(s.clients, s.db.nextId)
  {
    forall c | c in s.clients ensures s.db.nextId !in s.clients[c].gone {
      assert ClientInv(s.created, s.clients[c]);
    }
  }

  lemma OneMoreKept(db: Db, clients: map<nat, Client>, created: map<nat, Message>, db': Db, m: Message)
    requires Kept(db, clients, created) && !Gone(clients, db.nextId)
    requires db'.messages == db.messages[db.nextId := m] && db'.nextId == db.nextId + 1
    ensures Kept(db', clients, created[db.nextId := m])
  {
  }

  lemma ClientInvGrows(created: map<nat, Message>, created': map<nat, Message>, c: Client)
    requires ClientInv(created, c) && forall id :: id in created ==> id in created' && created'[id] == created[id]
    ensures ClientInv(created', c)
  {
  }

  predicate SubMap(created: map<nat, Message>, created': map<nat, Message>) {
    forall id :: id in created ==> id in created' && created'[id] == created[id]
  }

  lemma ClientsGrow(clients: map<nat, Client>, created: map<nat, Message>, created': map<nat, Message>)
    requires SubMap(created, created') && forall c :: c in clients ==> ClientInv(created, clients[c])
    ensures forall c :: c in clients ==> ClientInv(created', clients[c])
  {
    forall c | c in clients ensures ClientInv(created', clients[c]) {
      ClientInvGrows(created, created', clients[c]);
    }
  }

  /** A message is stored. */
  lemma OneMoreMessage(s: State, db: Db, m: Message)
    requires ArchiveInv(s) && ValidDb(db)
    requires db.messages == s.db.messages[s.db.nextId := m] && db.nextId == s.db.nextId + 1
    ensures ArchiveInv(s.(db := db, created := s.created[s.db.nextId := m]))
  {
    FreshNotGone(s);
    OneMoreKept(s.db, s.clients, s.created, db, m);
    ClientsGrow(s.clients, s.created, s.created[s.db.nextId := m]);
  }

  /** Only mailboxes change. */
  lemma SameMessages(s: State, db: Db)
    requires ArchiveInv(s) && ValidDb(db) && db.messages == s.db.messages && s.db.nextId <= db.nextId
    ensures ArchiveInv(s.(db := db))
  {
  }

  lemma StoreKeepsArchive(cfg: L.Config, s: State, m: Message)
    requires ArchiveInv(s)
    ensures ArchiveInv(Next(cfg, s, Store(m)))
  {
    CreateMessageValid(s.db, m);
    if CreateMessage(s.db, m).1.Some? {
      StoredIs(s, m);
      var db := CreateMessage(s.db, m).0;
      OneMoreMessage(s, db, db.messages[s.db.nextId]);
    }
  }

  lemma StoredIs(s: State, m: Message)
    requires CreateMessage(s.db, m).1.Some?
    ensures var db := CreateMessage(s.db, m).0;
      && s.db.nextId in db.messages && db.nextId == s.db.nextId + 1
      && db.messages == s.db.messages[s.db.nextId := db.messages[s.db.nextId]]
      && Stored(s.db, s.created, m) == s.created[s.db.nextId := db.messages[s.db.nextId]]
  {
  }

  lemma NewBoxKeepsArchive(cfg: L.Config, s: State, user: string, name: string)
    requires ArchiveInv(s)
    ensures ArchiveInv(Next(cfg, s, NewBox(user, name)))
  {
    CreateMailboxValid(s.db, user, name);
    SameMessages(s, CreateMailbox(s.db, user, name).0);
  }

  lemma LifeSnoc(c: Client, step: P.Step)
    ensures P.Run(c.steps + [step]) == P.Live(Life(c), step)
  {
    assert (c.steps + [step])[..|c.steps|] == c.steps;
  }

  lemma TransactionFromArchive(created: map<nat, Message>, before: P.Session, db: Db, cmd: P.Command, luck: P.Luck)
    requires FromArchive(created, before.msgs) && before.phase.Transaction?
    ensures FromArchive(created, P.HandleTransaction(before, db, cmd, luck).s.msgs)
  {
    R.TransactionKeepsMaildrop(before, db, cmd, luck);
    SameMaildrop(before.msgs, P.Handle(before, db, cmd, luck).s.msgs);
  }

  lemma AuthorizationFromArchive(s: State, before: P.Session, cmd: P.Command, luck: P.Luck, inbound: string)
    requires ArchiveInv(s) && FromArchive(s.created, before.msgs) && P.Fits(before, P.Step(cmd, s.db, luck), inbound)
    ensures FromArchive(s.created, P.HandleAuthorization(before, s.db, cmd, luck).s.msgs)
  {
    if luck.drop.Some? {
      LoadedInArchive(s.db, before.pending, inbound, luck.drop.value);
    }
  }

  /** A command leaves the maildrop made of stored messages. */
  lemma HandleFromArchive(s: State, before: P.Session, cmd: P.Command, luck: P.Luck, inbound: string)
    requires ArchiveInv(s) && FromArchive(s.created, before.msgs) && P.Fits(before, P.Step(cmd, s.db, luck), inbound)
    ensures FromArchive(s.created, P.Handle(before, s.db, cmd, luck).s.msgs)
  {
    if before.phase.Transaction? {
      TransactionFromArchive(s.created, before, s.db, cmd, luck);
    } else {
      AuthorizationFromArchive(s, before, cmd, luck, inbound);
    }
  }

  lemma CommandedInv(s: State, c: Client, cmd: P.Command, luck: P.Luck, inbound: string)
    requires ArchiveInv(s) && ClientInv(s.created, c) && P.Fits(Life(c).s, P.Step(cmd, s.db, luck), inbound)
    ensures var c' := Commanded(s, c, cmd, luck); ClientInv(s.created, c') && c'.gone == c.gone
  {
    if Life(c).open {
      LifeSnoc(c, P.Step(cmd, s.db, luck));
      HandleFromArchive(s, Life(c).s, cmd, luck, inbound);
      R.OnlyQuitRemoves(Life(c).s, s.db, cmd, luck);
    }
  }

  lemma SameMaildrop(a: seq<P.Pop3Msg>, b: seq<P.Pop3Msg>)
    requires P.Unmarked(a) == P.Unmarked(b)
    ensures |a| == |b| && forall i :: 0 <= i < |a| ==> a[i].id == b[i].id && a[i].size == b[i].size
  {
    forall i | 0 <= i < |a| ensures a[i].id == b[i].id && a[i].size == b[i].size {
      assert P.Unmarked(a)[i] == P.Unmarked(b)[i];
    }
  }

  lemma LoadedInArchive(db: Db, user: string, inbound: string, page: seq<Message>)
    requires P.Loaded(db, user, inbound, page)
    ensures forall i :: 0 <= i < |page| ==> page[i].id in db.messages && db.messages[page[i].id] == page[i]
  {
    forall i | 0 <= i < |page| ensures page[i].id in db.messages && db.messages[page[i].id] == page[i] {
      assert page[i] in page;
    }
  }

  lemma SameGone(s: State, c: nat, client: Client)
    requires c in s.clients && client.gone == s.clients[c].gone
    ensures forall id :: Gone(s.clients[c := client], id) <==> Gone(s.clients, id)
  {
    var after := s.clients[c := client];
    forall id ensures Gone(after, id) <==> Gone(s.clients, id) {
      if Gone(s.clients, id) {
        var d :| d in s.clients && id in s.clients[d].gone;
        assert d in after && id in after[d].gone;
      }
    }
  }

  lemma CommandKeepsArchive(cfg: L.Config, s: State, c: nat, cmd: P.Command, luck: P.Luck)
    requires ArchiveInv(s) && Possible(cfg, s, Command(c, cmd, luck))
    ensures ArchiveInv(Next(cfg, s, Command(c, cmd, luck)))
  {
    if c in s.clients {
      CommandedInv(s, s.clients[c], cmd, luck, cfg.inbound);
      SameGone(s, c, Commanded(s, s.clients[c], cmd, luck));
    }
  }

  lemma DeletedInv(created: map<nat, Message>, c: Client, ok: bool)
    requires ClientInv(created, c) && Committing(c)
    ensures ClientInv(created, Deleted(c, ok))
  {
    var c' := Deleted(c, ok);
    forall id | id in c'.gone ensures Marks(c', id) {
      if id in c.gone {
        assert Marks(c, id);
        var i :| 0 <= i < |Msgs(c)| && Msgs(c)[i].id == id && Msgs(c)[i].deleted;
        assert Msgs(c')[i].id == id;
      } else {
        assert Msgs(c')[c.next.value].id == id;
      }
    }
  }

  lemma DeletedGone(s: State, c: nat, ok: bool, id: nat)
    requires c in s.clients && Committing(s.clients[c])
    ensures Gone(s.clients[c := Deleted(s.clients[c], ok)], id) <==>
      Gone(s.clients, id) || (Removes(s.clients[c], ok) && id == NextId(s.clients[c]))
  {
    var after := s.clients[c := Deleted(s.clients[c], ok)];
    if Gone(s.clients, id) {
      var d :| d in s.clients && id in s.clients[d].gone;
      assert d in after && id in after[d].gone;
    }
    if Removes(s.clients[c], ok) && id == NextId(s.clients[c]) {
      assert c in after && id in after[c].gone;
    }
  }

  lemma DeleteKept(cfg: L.Config, s: State, c: nat, ok: bool)
    requires Kept(s.db, s.clients, s.created) && c in s.clients && Committing(s.clients[c])
    ensures var t := Next(cfg, s, Delete(c, ok)); Kept(t.db, t.clients, t.created)
  {
    forall id ensures Gone(Next(cfg, s, Delete(c, ok)).clients, id) <==>
      Gone(s.clients, id) || (Removes(s.clients[c], ok) && id == NextId(s.clients[c]))
    {
      DeletedGone(s, c, ok, id);
    }
  }

  lemma DeleteKeepsArchive(cfg: L.Config, s: State, c: nat, ok: bool)
    requires ArchiveInv(s)
    ensures ArchiveInv(Next(cfg, s, Delete(c, ok)))
  {
    if c in s.clients && Committing(s.clients[c]) {
      DeletedInv(s.created, s.clients[c], ok);
      DeleteMessageValid(s.db, NextId(s.clients[c]));
      DeleteKept(cfg, s, c, ok);
    }
  }

  const IDLE := Client([], None, {})

  lemma IdleGone(clients: map<nat, Client>, c: nat, id: nat)
    requires c !in clients
    ensures Gone(clients[c := IDLE], id) <==> Gone(clients, id)
  {
    var after := clients[c := IDLE];
    if Gone(clients, id) {
      var d :| d in clients && id in clients[d].gone;
      assert d in after && id in after[d].gone;
    }
  }

  lemma ConnectKeepsArchive(cfg: L.Config, s: State, c: nat)
    requires ArchiveInv(s)
    ensures ArchiveInv(Next(cfg, s, Connect(c)))
  {
    if c !in s.clients {
      forall id ensures Gone(s.clients[c := IDLE], id) <==> Gone(s.clients, id) {
        IdleGone(s.clients, c, id);
      }
      assert ClientInv(s.created, IDLE);
    }
  }

  // ----- the LMTP side -----

  lemma SendersLater(cfg: L.Config, db: Db, senders: map<nat, Sender>, created: map<nat, Message>, db': Db, created': map<nat, Message>)
    requires SendersOk(cfg, db, senders, created) && Later(db, created, db', created')
    ensures SendersOk(cfg, db', senders, created')
  {
    forall c | c in senders ensures SenderInv(cfg, db', created', senders[c]) {
      SenderInvLater(cfg, db, created, db', created', senders[c]);
    }
  }

  /** One session's jobs change; it has gained at most one record, which nobody else has. */
  lemma SenderReplaced(cfg: L.Config, db: Db, senders: map<nat, Sender>, created: map<nat, Message>, c: nat, m: Sender, id: Option<nat>)
    requires SendersOk(cfg, db, senders, created) && c in senders
    requires SenderInv(cfg, db, created, m) && DistinctIn(m.jobs)
    requires OwnIds(m.jobs) == OwnIds(senders[c].jobs) + if id.Some? then {id.value} else {}
    requires id.Some? ==> forall d :: d in senders ==> id.value !in OwnIds(senders[d].jobs)
    ensures SendersOk(cfg, db, senders[c := m], created)
  {
  }

  lemma HelloKeepsSenders(cfg: L.Config, s: State, c: nat)
    requires SendersOk(cfg, s.db, s.senders, s.created) && c !in s.senders
    ensures SendersOk(cfg, s.db, s.senders[c := HELLO], s.created)
  {
    assert OwnIds(HELLO.jobs) == {};
  }

  lemma TellKeepsSenders(cfg: L.Config, s: State, c: nat, cmd: L.Command, i: L.Input)
    requires SendersOk(cfg, s.db, s.senders, s.created) && c in s.senders
    ensures SendersOk(cfg, s.db, s.senders[c := Told(cfg, s.db, s.senders[c], cmd, i)], s.created)
  {
    var m := s.senders[c];
    var m' := Told(cfg, s.db, m, cmd, i);
    ToldKeepsInv(cfg, s.db, s.created, m, cmd, i);
    if m'.jobs != m.jobs {
      NewJobIds(m.jobs, m'.jobs[|m.jobs|]);
    }
    SenderReplaced(cfg, s.db, s.senders, s.created, c, m', None);
  }

  lemma ProgressedInv(cfg: L.Config, db: Db, created: map<nat, Message>, m: Sender, j: Job)
    requires SenderInv(cfg, db, created, m) && Working(m) && JobInv(cfg, db, created, j)
    ensures SenderInv(cfg, db, created, Progressed(m, j))
  {
  }

  /** A job goes on without a new record. */
  lemma GoesOn(cfg: L.Config, db: Db, senders: map<nat, Sender>, created: map<nat, Message>, c: nat, j: Job)
    requires SendersOk(cfg, db, senders, created) && c in senders && Working(senders[c])
    requires JobInv(cfg, db, created, j)
    requires j.ids == Current(senders[c]).ids || j.ids == Current(senders[c]).ids + [None]
    ensures SendersOk(cfg, db, senders[c := Progressed(senders[c], j)], created)
  {
    var m := senders[c];
    ProgressedInv(cfg, db, created, m, j);
    if j.ids == Current(m).ids {
      SameIds(m.jobs, j);
    } else {
      OneMoreId(m.jobs, j, None);
    }
    SenderReplaced(cfg, db, senders, created, c, Progressed(m, j), None);
  }

  lemma GainsRecord(cfg: L.Config, db: Db, senders: map<nat, Sender>, created: map<nat, Message>, c: nat, j: Job, id: nat)
    requires SendersOk(cfg, db, senders, created) && c in senders && Working(senders[c])
    requires JobInv(cfg, db, created, j) && j.ids == Current(senders[c]).ids + [Some(id)]
    requires forall d :: d in senders ==> id !in OwnIds(senders[d].jobs)
    ensures SendersOk(cfg, db, senders[c := Progressed(senders[c], j)], created)
  {
    var m := senders[c];
    ProgressedInv(cfg, db, created, m, j);
    OneMoreId(m.jobs, j, Some(id));
    SenderReplaced(cfg, db, senders, created, c, Progressed(m, j), Some(id));
  }

  lemma FreshNotOwn(cfg: L.Config, s: State)
    requires Inv(cfg, s)
    ensures forall d :: d in s.senders ==> s.db.nextId !in OwnIds(s.senders[d].jobs)
  {
    forall d | d in s.senders ensures s.db.nextId !in OwnIds(s.senders[d].jobs) {
      OwnCreated(cfg, s.db, s.created, s.senders[d]);
    }
  }

  /** A lookup or a creation of a delivery. */
  lemma LookKeepsInv(cfg: L.Config, s: State, c: nat, up: bool)
    requires Inv(cfg, s) && c in s.senders && Working(s.senders[c])
    requires !Current(s.senders[c]).caller.pc.Done? && !Current(s.senders[c]).caller.pc.Failed?
    ensures Inv(cfg, Worked(cfg, s, c, up))
  {
    var j := Current(s.senders[c]);
    var (db, j') := Work(cfg, s.db, j, up);
    assert JobInv(cfg, s.db, s.created, j);
    LookStep(cfg, s.db, s.created, j, up);
    SameMessages(s, db);
    SendersLater(cfg, s.db, s.senders, s.created, db, s.created);
    GoesOn(cfg, db, s.senders, s.created, c, j');
  }

  /** The insert of a delivery succeeds. */
  lemma InsertedInv(cfg: L.Config, s: State, c: nat, db: Db, j: Job)
    requires Inv(cfg, s) && c in s.senders && Working(s.senders[c]) && ValidDb(db)
    requires s.db.nextId in db.messages && db.nextId == s.db.nextId + 1
    requires db.messages == s.db.messages[s.db.nextId := db.messages[s.db.nextId]] && db.boxes == s.db.boxes
    requires j.ids == Current(s.senders[c]).ids + [Some(s.db.nextId)]
    requires JobInv(cfg, db, s.created[s.db.nextId := db.messages[s.db.nextId]], j)
    ensures Inv(cfg, State(db, s.clients, s.senders[c := Progressed(s.senders[c], j)], s.created[s.db.nextId := db.messages[s.db.nextId]]))
  {
    var m := db.messages[s.db.nextId];
    var created := s.created[s.db.nextId := m];
    FreshNotOwn(cfg, s);
    OneMoreMessage(s, db, m);
    SendersLater(cfg, s.db, s.senders, s.created, db, created);
    GainsRecord(cfg, db, s.senders, created, c, j, s.db.nextId);
  }

  lemma InsertIs(cfg: L.Config, s: State, c: nat)
    requires c in s.senders && Working(s.senders[c]) && Current(s.senders[c]).caller.pc.Done?
    ensures var j := Current(s.senders[c]);
      var (db, id) := CreateMessage(s.db, RowOf(cfg, j, j.caller.pc.id));
      var senders := s.senders[c := Progressed(s.senders[c], Answered(cfg, j, id))];
      if id.Some? then
        && id.value == s.db.nextId && s.db.nextId in db.messages && db.nextId == s.db.nextId + 1 && db.boxes == s.db.boxes
        && db.messages == s.db.messages[s.db.nextId := db.messages[s.db.nextId]]
        && Worked(cfg, s, c, true) == State(db, s.clients, senders, s.created[s.db.nextId := db.messages[s.db.nextId]])
      else Worked(cfg, s, c, true) == s.(senders := senders)
  {
  }

  lemma InsertKeepsInv(cfg: L.Config, s: State, c: nat)
    requires Inv(cfg, s) && c in s.senders && Working(s.senders[c]) && Current(s.senders[c]).caller.pc.Done?
    ensures Inv(cfg, Worked(cfg, s, c, true))
  {
    InsertIs(cfg, s, c);
    var j := Current(s.senders[c]);
    assert JobInv(cfg, s.db, s.created, j);
    InsertStep(cfg, s.db, s.created, j);
    var (db, id) := CreateMessage(s.db, RowOf(cfg, j, j.caller.pc.id));
    if id.Some? {
      InsertedInv(cfg, s, c, db, Answered(cfg, j, id));
    } else {
      GiveUpKeepsInv(cfg, s, c);
    }
  }

  /** A recipient that cannot be served. */
  lemma GiveUpKeepsInv(cfg: L.Config, s: State, c: nat)
    requires Inv(cfg, s) && c in s.senders && Working(s.senders[c])
    ensures SendersOk(cfg, s.db, s.senders[c := Progressed(s.senders[c], Answered(cfg, Current(s.senders[c]), None))], s.created)
  {
    var j := Current(s.senders[c]);
    assert JobInv(cfg, s.db, s.created, j);
    AnsweredJob(cfg, s.db, s.created, j, None);
    GoesOn(cfg, s.db, s.senders, s.created, c, Answered(cfg, j, None));
  }

  lemma WorkedKeepsInv(cfg: L.Config, s: State, c: nat, up: bool)
    requires Inv(cfg, s) && c in s.senders && Working(s.senders[c])
    ensures Inv(cfg, Worked(cfg, s, c, up))
  {
    var pc := Current(s.senders[c]).caller.pc;
    if pc.Done? && up {
      InsertKeepsInv(cfg, s, c);
    } else if pc.Done? || pc.Failed? {
      GiveUpKeepsInv(cfg, s, c);
    } else {
      LookKeepsInv(cfg, s, c, up);
    }
  }

  /** What the rest of the service does is later for every LMTP session. */
  lemma OthersKeepSenders(cfg: L.Config, s: State, e: Event)
    requires Inv(cfg, s) && (e.NewBox? || e.Store? || e.Connect? || e.Command? || e.Delete?)
    ensures var t := Next(cfg, s, e); SendersOk(cfg, t.db, t.senders, t.created)
  {
    var t := Next(cfg, s, e);
    if e.NewBox? {
      CreateMailboxValid(s.db, e.user, e.name);
    }
    SendersLater(cfg, s.db, s.senders, s.created, t.db, t.created);
  }

  lemma OthersKeepArchive(cfg: L.Config, s: State, e: Event)
    requires ArchiveInv(s) && Possible(cfg, s, e) && (e.NewBox? || e.Store? || e.Connect? || e.Command? || e.Delete?)
    ensures ArchiveInv(Next(cfg, s, e))
  {
    match e
    case NewBox(user, name) => NewBoxKeepsArchive(cfg, s, user, name);
    case Store(m) => StoreKeepsArchive(cfg, s, m);
    case Connect(c) => ConnectKeepsArchive(cfg, s, c);
    case Command(c, cmd, luck) => CommandKeepsArchive(cfg, s, c, cmd, luck);
    case Delete(c, ok) => DeleteKeepsArchive(cfg, s, c, ok);
  }

  lemma NextKeepsInv(cfg: L.Config, s: State, e: Event)
    requires Inv(cfg, s) && Possible(cfg, s, e)
    ensures Inv(cfg, Next(cfg, s, e))
  {
    match e
    case Hello(c) =>
      if c !in s.senders {
        HelloKeepsSenders(cfg, s, c);
      }
    case Tell(c, cmd, i) =>
      if c in s.senders {
        TellKeepsSenders(cfg, s, c, cmd, i);
      }
    case Go(c, up) =>
      if c in s.senders && Working(s.senders[c]) {
        WorkedKeepsInv(cfg, s, c, up);
      }
    case _ =>
      OthersKeepArchive(cfg, s, e);
      OthersKeepSenders(cfg, s, e);
  }

  lemma {:induction false} RunKeepsInv(cfg: L.Config, s: State, events: seq<Event>)
    requires Inv(cfg, s) && PossibleRun(cfg, s, events)
    ensures Inv(cfg, Run(cfg, s, events))
    decreases |events|
  {
    if events != [] {
      NextKeepsInv(cfg, s, events[0]);
      RunKeepsInv(cfg, Next(cfg, s, events[0]), events[1..]);
    }
  }

  // ----- safety -----

  function Start(db: Db): State {
    State(db, map[], map[], db.messages)
  }

  /** The session ended with QUIT, and its history marks the message for deletion. */
  ghost predicate CommittedMark(c: Client, id: nat) {
    R.Committed(Life(c)) && exists i :: 0 <= i < |Msgs(c)| && Msgs(c)[i].id == id && R.MarkedBy(Life(c).h, i + 1)
  }

  lemma MarksIffHistory(c: Client, id: nat)
    ensures R.Committed(Life(c)) ==> (CommittedMark(c, id) <==> Marks(c, id))
  {
    forall i | 0 <= i < |Msgs(c)| ensures Msgs(c)[i].deleted <==> R.MarkedBy(Life(c).h, i + 1) {
      R.MarksAreHistory(c.steps, i);
    }
  }

  /**
    Under every interleaving, a message that was stored and is missing was marked by
    a session that ended with QUIT; every other message is there, unchanged.
   */
  lemma MissingWasMarked(cfg: L.Config, db: Db, events: seq<Event>, id: nat)
    requires TrimSpace(cfg.inbound) == cfg.inbound && ValidDb(db) && PossibleRun(cfg, Start(db), events)
    ensures var t := Run(cfg, Start(db), events);
      && (id in t.db.messages ==> id in t.created && t.db.messages[id] == t.created[id])
      && (id in t.created && id !in t.db.messages ==> exists c :: c in t.clients && CommittedMark(t.clients[c], id))
  {
    RunKeepsInv(cfg, Start(db), events);
    var t := Run(cfg, Start(db), events);
    if id in t.created && id !in t.db.messages {
      var c :| c in t.clients && id in t.clients[c].gone;
      assert ClientInv(t.created, t.clients[c]);
      MarksIffHistory(t.clients[c], id);
    }
  }

  /** A commit so far has deleted all the marked messages it has passed. */
  ghost predicate Thorough(c: Client) {
    && (R.Committed(Life(c)) <==> c.next.Some?)
    && (c.next.Some? ==>
          && c.next.value <= |Msgs(c)|
          && forall i :: 0 <= i < c.next.value && Msgs(c)[i].deleted ==> Msgs(c)[i].id in c.gone)
  }

  lemma CommandedThorough(s: State, c: Client, cmd: P.Command, luck: P.Luck)
    requires Thorough(c)
    ensures Thorough(Commanded(s, c, cmd, luck))
  {
    if Life(c).open {
      LifeSnoc(c, P.Step(cmd, s.db, luck));
      R.OnlyQuitRemoves(Life(c).s, s.db, cmd, luck);
    }
  }

  lemma DeletedThorough(c: Client)
    requires Thorough(c) && Committing(c)
    ensures Thorough(Deleted(c, true))
  {
  }

  ghost predicate AllThorough(s: State) {
    forall c :: c in s.clients ==> Thorough(s.clients[c])
  }

  lemma NextThorough(cfg: L.Config, s: State, e: Event)
    requires AllThorough(s) && (e.Delete? ==> e.ok)
    ensures AllThorough(Next(cfg, s, e))
  {
    if e.Command? && e.c in s.clients {
      CommandedThorough(s, s.clients[e.c], e.cmd, e.luck);
    } else if e.Delete? && e.c in s.clients && Committing(s.clients[e.c]) {
      DeletedThorough(s.clients[e.c]);
    }
  }

  lemma {:induction false} RunThorough(cfg: L.Config, s: State, events: seq<Event>)
    requires AllThorough(s) && forall e :: e in events && e.Delete? ==> e.ok
    ensures AllThorough(Run(cfg, s, events))
    decreases |events|
  {
    if events != [] {
      assert events[0] in events;
      NextThorough(cfg, s, events[0]);
      RunThorough(cfg, Next(cfg, s, events[0]), events[1..]);
    }
  }

  /** Every commit has run to its end. */
  predicate Settled(s: State) {
    forall c :: c in s.clients && s.clients[c].next.Some? ==> s.clients[c].next.value >= |Msgs(s.clients[c])|
  }

  /**
    If the database executes the deletes, then once every commit is finished the
    archive holds exactly the stored messages that no ended session marked: the
    order in which the sessions committed leaves no trace.
   */
  lemma ArchiveIs(cfg: L.Config, db: Db, events: seq<Event>, id: nat)
    requires TrimSpace(cfg.inbound) == cfg.inbound && ValidDb(db) && PossibleRun(cfg, Start(db), events)
    requires forall e :: e in events && e.Delete? ==> e.ok
    requires Settled(Run(cfg, Start(db), events))
    ensures var t := Run(cfg, Start(db), events);
      id in t.db.messages <==> id in t.created && !exists c :: c in t.clients && CommittedMark(t.clients[c], id)
  {
    var t := Run(cfg, Start(db), events);
    MissingWasMarked(cfg, db, events, id);
    RunKeepsInv(cfg, Start(db), events);
    RunThorough(cfg, Start(db), events);
    forall c | c in t.clients && CommittedMark(t.clients[c], id) ensures id in t.clients[c].gone {
      assert Thorough(t.clients[c]);
      MarksIffHistory(t.clients[c], id);
    }
  }

  /** The deletes of two sessions may be swapped. */
  lemma {:induction false} DeletesCommute(cfg: L.Config, s: State, c: nat, ok: bool, d: nat, ok': bool)
    requires c != d
    ensures Next(cfg, Next(cfg, s, Delete(c, ok)), Delete(d, ok')) == Next(cfg, Next(cfg, s, Delete(d, ok')), Delete(c, ok))
  {
    if c in s.clients && d in s.clients && Committing(s.clients[c]) && Committing(s.clients[d]) {
      var a := Next(cfg, Next(cfg, s, Delete(c, ok)), Delete(d, ok'));
      var b := Next(cfg, Next(cfg, s, Delete(d, ok')), Delete(c, ok));
      assert a.clients == b.clients;
      DeletesSwap(s.db, NextId(s.clients[c]), NextId(s.clients[d]));
    }
  }

  lemma DeletesSwap(db: Db, id: nat, id': nat)
    ensures DeleteMessage(DeleteMessage(db, id), id') == DeleteMessage(DeleteMessage(db, id'), id)
  {
    assert DeleteMessage(DeleteMessage(db, id), id').messages == DeleteMessage(DeleteMessage(db, id'), id).messages;
  }
}
