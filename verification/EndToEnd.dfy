/**
  From the lines that an MTA sends to the lines that a POP3 client reads, with every
  other session of the service running in between.
 */
module EndToEnd {
  import opened Text
  import opened Archive
  import opened Senders
  import opened MailStore
  import V = Visibility
  import F = FindOrCreate
  import P = Pop3Server
  import R = Pop3Runs
  import L = LmtpServer
  import D = DotData

  // ----- a logged-in session keeps its maildrop -----

  lemma CommandedKeepsMaildrop(s: State, c: Client, cmd: P.Command, luck: P.Luck)
    requires Life(c).s.phase.Transaction?
    ensures var c' := Commanded(s, c, cmd, luck);
      Life(c').s.phase.Transaction? && P.Unmarked(Msgs(c')) == P.Unmarked(Msgs(c))
  {
    if Life(c).open {
      LifeSnoc(c, P.Step(cmd, s.db, luck));
      R.TransactionKeepsMaildrop(Life(c).s, s.db, cmd, luck);
    }
  }

  ghost predicate HasMaildrop(s: State, p: nat, drop: seq<P.Pop3Msg>) {
    p in s.clients && Life(s.clients[p]).s.phase.Transaction? && P.Unmarked(Msgs(s.clients[p])) == drop
  }

  lemma NextKeepsMaildrop(cfg: L.Config, s: State, e: Event, p: nat, drop: seq<P.Pop3Msg>)
    requires HasMaildrop(s, p, drop)
    ensures HasMaildrop(Next(cfg, s, e), p, drop)
  {
    if e.Command? && e.c == p {
      CommandedKeepsMaildrop(s, s.clients[p], e.cmd, e.luck);
    }
  }

  lemma {:induction false} RunKeepsMaildrop(cfg: L.Config, s: State, events: seq<Event>, p: nat, drop: seq<P.Pop3Msg>)
    requires HasMaildrop(s, p, drop)
    ensures HasMaildrop(Run(cfg, s, events), p, drop)
    decreases |events|
  {
    if events != [] {
      NextKeepsMaildrop(cfg, s, events[0], p, drop);
      RunKeepsMaildrop(cfg, Next(cfg, s, events[0]), events[1..], p, drop);
    }
  }

  // ----- the login -----

  /** A right password of this user, and the page that the archive gives. */
  ghost predicate Login(cfg: L.Config, s: State, p: nat, password: string, luck: P.Luck) {
    && p in s.clients && Life(s.clients[p]).open && Life(s.clients[p]).s.phase.Authorization?
    && Life(s.clients[p]).s.pending != "" && luck.auth(Life(s.clients[p]).s.pending, password)
    && luck.drop.Some? && Possible(cfg, s, Command(p, P.Pass(password), luck))
  }

  lemma LoginLoads(cfg: L.Config, s: State, p: nat, password: string, luck: P.Luck)
    requires Login(cfg, s, p, password, luck)
    ensures HasMaildrop(Next(cfg, s, Command(p, P.Pass(password), luck)), p, P.Snapshot(luck.drop.value))
    ensures P.Loaded(s.db, Life(s.clients[p]).s.pending, cfg.inbound, luck.drop.value)
  {
    LifeSnoc(s.clients[p], P.Step(P.Pass(password), s.db, luck));
    assert P.Unmarked(P.Snapshot(luck.drop.value)) == P.Snapshot(luck.drop.value);
  }

  /** Recipient k of job j of session c was answered 250, and this is the record. */
  predicate Acknowledged(s: State, c: nat, j: nat, k: nat, id: nat) {
    && c in s.senders && j < |s.senders[c].jobs| && k < |s.senders[c].jobs[j].ids| <= |s.senders[c].jobs[j].rcpts|
    && s.senders[c].jobs[j].ids[k] == Some(id)
  }

  /** The user of the POP3 session is the recipient, who has one inbound mailbox, and it is not full of newer messages. */
  ghost predicate InReach(cfg: L.Config, s: State, rcpt: string, user: string, id: nat) {
    && TrimSpace(rcpt) != "" && Normal(user) == Normal(rcpt)
    && id in s.db.messages && V.OneInbox(s.db, Normal(rcpt), cfg.inbound)
    && |V.Rivals(s.db, id)| < 1000
  }

  /** The page of a login shows every acknowledged copy that is in reach. */
  lemma PageHasCopy(cfg: L.Config, s: State, c: nat, j: nat, k: nat, id: nat, user: string, page: seq<Message>) returns (n: nat)
    requires Inv(cfg, s) && Acknowledged(s, c, j, k, id) && InReach(cfg, s, s.senders[c].jobs[j].rcpts[k], user, id)
    requires P.Loaded(s.db, user, cfg.inbound, page)
    ensures 1 <= n <= |page| && P.Snapshot(page)[n - 1] == P.Pop3Msg(id, |s.senders[c].jobs[j].raw|, false)
    ensures id in s.created && s.created[id].raw == s.senders[c].jobs[j].raw && s.created[id].size == |s.senders[c].jobs[j].raw|
  {
    var job := s.senders[c].jobs[j];
    var rcpt := job.rcpts[k];
    V.CopyAtPlace(cfg, s, c, j, k);
    F.BlankNormal(user);
    F.BlankNormal(rcpt);
    V.LoadedShows(s.db, user, cfg.inbound, page, id);
    var i :| 0 <= i < |page| && page[i] == s.db.messages[id];
    n := i + 1;
  }

  lemma PageFits(db: Db, user: string, inbound: string, page: seq<Message>)
    requires P.Loaded(db, user, inbound, page)
    ensures |page| <= 1000
  {
  }

  /** What a session whose maildrop shows the message under number n answers. */
  lemma NumberAnswers(s: P.Session, db: Db, l: P.Luck, n: nat, drop: seq<P.Pop3Msg>, id: nat, raw: string)
    requires s.phase.Transaction? && P.Unmarked(s.msgs) == drop && |drop| <= 1000
    requires 1 <= n <= |drop| && drop[n - 1] == P.Pop3Msg(id, |raw|, false)
    requires !s.msgs[n - 1].deleted
    ensures (n, |raw|) in P.Sizes(s.msgs) && P.Handle(s, db, P.List(""), l).reply.Listing?
    ensures P.Handle(s, db, P.List(""), l).reply.lines == P.Sizes(s.msgs)
    ensures P.Handle(s, db, P.Retr(Itoa(n)), l).reply == match P.Fetch(db, id, l.fetch)
      case Some(m) => P.Content(m.size, m.raw)
      case None => P.Err(P.FetchError)
  {
    assert s.msgs[n - 1].(deleted := false) == P.Unmarked(s.msgs)[n - 1];
    R.ListedIff(s.msgs, n, |raw|);
    R.ListedNumberRetrieves(s, db, l, n, |raw|);
  }

  /**
    From a 250 reply to LIST and RETR.  Whatever all sessions have done, if recipient k
    of a message was answered 250, then at the recipient's next login the message gets
    a number n under which, whatever happens afterwards, LIST shows it with its size
    and RETR gives its text, as long as that session has not marked it and nobody has
    deleted it.
   */
  lemma MailReachesTheClient(
    cfg: L.Config, u: State, c: nat, j: nat, k: nat, id: nat, p: nat, password: string, luck: P.Luck)
    returns (n: nat)
    requires Inv(cfg, u) && Acknowledged(u, c, j, k, id) && Login(cfg, u, p, password, luck)
    requires InReach(cfg, u, u.senders[c].jobs[j].rcpts[k], Life(u.clients[p]).s.pending, id)
    ensures n >= 1 && forall rest, l ::
      PossibleRun(cfg, Next(cfg, u, Command(p, P.Pass(password), luck)), rest) ==>
      Reads(cfg, Run(cfg, Next(cfg, u, Command(p, P.Pass(password), luck)), rest), p, n, id, u.senders[c].jobs[j].raw, l)
  {
    var raw := u.senders[c].jobs[j].raw;
    var page := luck.drop.value;
    LoginLoads(cfg, u, p, password, luck);
    n := PageHasCopy(cfg, u, c, j, k, id, Life(u.clients[p]).s.pending, page);
    PageFits(u.db, Life(u.clients[p]).s.pending, cfg.inbound, page);
    var e := Command(p, P.Pass(password), luck);
    var s1 := Next(cfg, u, e);
    NextKeepsInv(cfg, u, e);
    forall rest, l | PossibleRun(cfg, s1, rest) ensures Reads(cfg, Run(cfg, s1, rest), p, n, id, raw, l) {
      AfterLogin(cfg, s1, rest, p, P.Snapshot(page), n, id, raw, l);
    }
  }

  /** LIST and RETR of session p in state v show the message under number n. */
  ghost predicate Reads(cfg: L.Config, v: State, p: nat, n: nat, id: nat, raw: string, l: P.Luck)
    requires n >= 1
  {
    && p in v.clients
    && var s := Life(v.clients[p]).s;
    && s.phase.Transaction? && n <= |s.msgs| && s.msgs[n - 1].id == id
    && (!R.MarkedBy(Life(v.clients[p]).h, n) ==>
          && P.Handle(s, v.db, P.List(""), l).reply.Listing?
          && (n, |raw|) in P.Handle(s, v.db, P.List(""), l).reply.lines
          && (l.fetch && !Gone(v.clients, id) ==> P.Handle(s, v.db, P.Retr(Itoa(n)), l).reply == P.Content(|raw|, raw)))
  }

  lemma AfterLogin(cfg: L.Config, s1: State, rest: seq<Event>, p: nat, drop: seq<P.Pop3Msg>, n: nat, id: nat, raw: string, l: P.Luck)
    requires Inv(cfg, s1) && PossibleRun(cfg, s1, rest) && HasMaildrop(s1, p, drop) && |drop| <= 1000
    requires 1 <= n <= |drop| && drop[n - 1] == P.Pop3Msg(id, |raw|, false)
    requires id in s1.created && s1.created[id].raw == raw && s1.created[id].size == |raw|
    ensures Reads(cfg, Run(cfg, s1, rest), p, n, id, raw, l)
  {
    RunKeepsMaildrop(cfg, s1, rest, p, drop);
    RunKeepsInv(cfg, s1, rest);
    V.RunKeeps(cfg, s1, rest);
    var v := Run(cfg, s1, rest);
    var s := Life(v.clients[p]).s;
    assert s.msgs[n - 1].(deleted := false) == P.Unmarked(s.msgs)[n - 1];
    R.MarksAreHistory(v.clients[p].steps, n - 1);
    if !R.MarkedBy(Life(v.clients[p]).h, n) {
      NumberAnswers(s, v.db, l, n, drop, id, raw);
    }
  }

  /** A 250 reply is exactly what the record of a recipient stands behind. */
  lemma RepliedIff(j: Job, k: nat)
    requires k < |j.ids| <= |j.rcpts|
    ensures L.Code(RepliesOf(j)[k]) == 250 <==> j.ids[k].Some?
  {
    assert RepliesOf(j)[k] == L.ReplyFor(j.rcpts[k], j.ids[k]);
  }

  /** RETR of message n in state v gives a client these lines. */
  ghost predicate ReadsLines(cfg: L.Config, v: State, p: nat, n: nat, id: nat, lines: seq<string>, l: P.Luck, tail: string)
    requires n >= 1
  {
    && p in v.clients
    && var s := Life(v.clients[p]).s;
    && s.phase.Transaction? && n <= |s.msgs|
    && (!R.MarkedBy(Life(v.clients[p]).h, n) ==>
          && P.Handle(s, v.db, P.List(""), l).reply.Listing?
          && (n, |D.JoinCrlf(lines)|) in P.Handle(s, v.db, P.List(""), l).reply.lines
          && (l.fetch && !Gone(v.clients, id) ==>
                D.ClientDecode(P.Payload(P.Handle(s, v.db, P.Retr(Itoa(n)), l).reply) + tail) == Some((lines + [""], tail))))
  }

  lemma DecodesLines(cfg: L.Config, v: State, p: nat, n: nat, id: nat, raw: string, lines: seq<string>, l: P.Luck, tail: string)
    requires n >= 1 && Reads(cfg, v, p, n, id, raw, l) && raw == D.JoinCrlf(lines)
    requires D.ClientDecode(D.DotEncode(raw) + tail) == Some((lines + [""], tail))
    ensures ReadsLines(cfg, v, p, n, id, lines, l, tail)
  {
  }

  /** The job of a DATA command keeps the text that was sent. */
  lemma JobHasText(cfg: L.Config, s: State, c: nat, i: L.Input, raw: string, events: seq<Event>)
    requires Inv(cfg, s) && c in s.senders && s.senders[c].open && !s.senders[c].busy
    requires BodyRead(cfg, s.senders[c].env, L.Data, i) == Some(raw)
    requires PossibleRun(cfg, Next(cfg, s, Tell(c, L.Data, i)), events)
    ensures var u := Run(cfg, Next(cfg, s, Tell(c, L.Data, i)), events);
      var j := |s.senders[c].jobs|;
      && Inv(cfg, u) && c in u.senders && j < |u.senders[c].jobs|
      && u.senders[c].jobs[j].raw == raw && u.senders[c].jobs[j].rcpts == s.senders[c].env.rcpts
  {
    var s1 := Next(cfg, s, Tell(c, L.Data, i));
    NextKeepsInv(cfg, s, Tell(c, L.Data, i));
    RunKeepsInv(cfg, s1, events);
    V.RunKeeps(cfg, s1, events);
    assert V.SameMail(s1.senders[c].jobs[|s.senders[c].jobs|], Run(cfg, s1, events).senders[c].jobs[|s.senders[c].jobs|]);
  }

  /**
    The whole way.  An MTA sends lines in the format of RFC 5321, none of them a dot
    followed only by CRs, and recipient k is answered 250.  Then, with every other
    session of the service running in between, from the recipient's next login on the
    message has a number n in LIST, and RETR n gives an RFC 1939 client those lines and
    the empty one after the last line end.
   */
  lemma MailComesBack(
    cfg: L.Config, s: State, c: nat, i: L.Input, lines: seq<string>, after: string, events: seq<Event>,
    k: nat, id: nat, p: nat, password: string, luck: P.Luck, tail: string)
    returns (n: nat)
    requires Inv(cfg, s) && c in s.senders && s.senders[c].open && !s.senders[c].busy
    requires s.senders[c].env.from != "" && k < |s.senders[c].env.rcpts|
    requires i.following == D.EncodeLines(lines) + (D.END + after)
    requires D.AllNoLf(lines) && (forall l :: l in lines ==> !D.BareDot(l)) && |D.JoinCrlf(lines)| <= cfg.max
    requires PossibleRun(cfg, Next(cfg, s, Tell(c, L.Data, i)), events)
    requires var u := Run(cfg, Next(cfg, s, Tell(c, L.Data, i)), events);
      && Acknowledged(u, c, |s.senders[c].jobs|, k, id) && Login(cfg, u, p, password, luck)
      && InReach(cfg, u, s.senders[c].env.rcpts[k], Life(u.clients[p]).s.pending, id)
    ensures var v := Next(cfg, Run(cfg, Next(cfg, s, Tell(c, L.Data, i)), events), Command(p, P.Pass(password), luck));
      n >= 1 && forall rest, l :: PossibleRun(cfg, v, rest) ==> ReadsLines(cfg, Run(cfg, v, rest), p, n, id, lines, l, tail)
  {
    D.DeliveredThenRetrieved(lines, after, cfg.max, tail);
    var raw := D.JoinCrlf(lines);
    JobHasText(cfg, s, c, i, raw, events);
    var u := Run(cfg, Next(cfg, s, Tell(c, L.Data, i)), events);
    n := MailReachesTheClient(cfg, u, c, |s.senders[c].jobs|, k, id, p, password, luck);
    var v := Next(cfg, u, Command(p, P.Pass(password), luck));
    forall rest, l | PossibleRun(cfg, v, rest) ensures ReadsLines(cfg, Run(cfg, v, rest), p, n, id, lines, l, tail) {
      DecodesLines(cfg, Run(cfg, v, rest), p, n, id, raw, lines, l, tail);
    }
  }
}
