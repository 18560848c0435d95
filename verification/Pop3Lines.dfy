/**
  What the POP3 server makes of the lines it is sent, in terms of the words on the line,
  up to what a whole session removes.
 */
module Pop3Lines {
  import opened Text
  import opened DotData
  import opened Archive
  import opened Pop3Server
  import R = Pop3Runs

  // ----- one line -----

  /** Each of the eleven verbs is its command, with the argument trimmed; every other line is none of them. */
  lemma LineIs(line: string, w: string, a: string)
    requires Reads(line, w, a)
    ensures Verb(w) == "USER" ==> CommandOf(line) == User(TrimSpace(a))
    ensures Verb(w) == "PASS" ==> CommandOf(line) == Pass(TrimSpace(a))
    ensures Verb(w) == "STAT" ==> CommandOf(line) == Stat
    ensures Verb(w) == "LIST" ==> CommandOf(line) == List(TrimSpace(a))
    ensures Verb(w) == "UIDL" ==> CommandOf(line) == Uidl(TrimSpace(a))
    ensures Verb(w) == "RETR" ==> CommandOf(line) == Retr(TrimSpace(a))
    ensures Verb(w) == "TOP" ==> CommandOf(line) == Top(TrimSpace(a))
    ensures Verb(w) == "DELE" ==> CommandOf(line) == Dele(TrimSpace(a))
    ensures Verb(w) == "RSET" ==> CommandOf(line) == Rset
    ensures Verb(w) == "NOOP" ==> CommandOf(line) == Noop
    ensures Verb(w) == "QUIT" ==> CommandOf(line) == Quit
    ensures Verb(w) !in ["USER", "PASS", "STAT", "LIST", "UIDL", "RETR", "TOP", "DELE", "RSET", "NOOP", "QUIT"] ==>
      CommandOf(line) == Other
  {
    FirstWord(line, w, a);
    ArgumentIs(line, w, a);
  }

  lemma ArgumentIs(line: string, w: string, a: string)
    requires Reads(line, w, a)
    ensures TrimSpace(line[IndexOf(line, ' ')..]) == TrimSpace(a)
  {
    FirstWord(line, w, a);
    var k := IndexOf(line, ' ');
    if k < |line| {
      assert line[k..][0] == ' ' && line[k..][1..] == a;
    } else {
      assert line[k..] == a;
    }
  }

  /** Before login every line but USER, PASS and QUIT is answered -ERR and changes nothing. */
  lemma BeforeLogin(s: Session, db: Db, line: string, w: string, a: string, l: Luck)
    requires s.phase.Authorization? && Reads(line, w, a) && Verb(w) !in ["USER", "PASS", "QUIT"]
    ensures var o := Handle(s, db, CommandOf(line), l); o == Outcome(s, db, o.reply, true) && o.reply.Err?
  {
    LineIs(line, w, a);
  }

  /** After login NOOP is answered +OK and changes nothing; USER, PASS and lines without a known verb are refused. */
  lemma AfterLogin(s: Session, db: Db, line: string, w: string, a: string, l: Luck)
    requires s.phase.Transaction? && Reads(line, w, a)
    requires Verb(w) !in ["STAT", "LIST", "UIDL", "RETR", "TOP", "DELE", "RSET", "QUIT"]
    ensures var o := Handle(s, db, CommandOf(line), l);
      o == Outcome(s, db, o.reply, true) && (if Verb(w) == "NOOP" then o.reply.Ok? else o.reply.Err?)
  {
    LineIs(line, w, a);
  }

  /** A USER line names the address for the next PASS; without an address it changes nothing. */
  lemma UserLine(s: Session, db: Db, line: string, w: string, a: string, l: Luck)
    requires s.phase.Authorization? && Reads(line, w, a) && Verb(w) == "USER"
    ensures var o := Handle(s, db, CommandOf(line), l);
      && o.db == db && o.open
      && if TrimSpace(a) == "" then o.s == s && o.reply.Err?
         else o.s == Session(Authorization, Normal(a), s.fails, s.user, s.msgs) && o.reply.Ok?
  {
    LineIs(line, w, a);
  }

  /**
    A PASS line needs a USER before it.  A refused password is forgotten with its
    address, and the third closes the session; an accepted one opens the maildrop as it
    is now, or closes the session if it cannot be read.
   */
  lemma PassLine(s: Session, db: Db, line: string, w: string, a: string, l: Luck)
    requires s.phase.Authorization? && Reads(line, w, a) && Verb(w) == "PASS"
    ensures var o := Handle(s, db, CommandOf(line), l);
      && o.db == db
      && if s.pending == "" then o.s == s && o.reply.Err? && o.open
         else if !l.auth(s.pending, TrimSpace(a)) then
           o.s == Session(Authorization, "", s.fails + 1, s.user, s.msgs) && o.reply.Err? && (o.open <==> s.fails + 1 < 3)
         else if l.drop.None? then !o.s.phase.Transaction? && o.reply.Err? && !o.open
         else o.s == Session(Transaction, "", s.fails, s.pending, Snapshot(l.drop.value)) && o.reply == Ready(|l.drop.value|) && o.open
  {
    LineIs(line, w, a);
  }

  /** A QUIT line is answered +OK and ends the session. */
  lemma QuitLine(s: Session, db: Db, line: string, w: string, a: string, l: Luck)
    requires Reads(line, w, a) && Verb(w) == "QUIT"
    ensures var o := Handle(s, db, CommandOf(line), l); !o.reply.Err? && !o.open && (s.phase.Authorization? ==> o.db == db)
  {
    LineIs(line, w, a);
  }

  lemma BadNumber(s: Session, db: Db, c: Command, l: Luck)
    requires s.phase.Transaction? && (c.List? || c.Uidl? || c.Retr? || c.Dele?) && ParseIndex(s.msgs, c.arg).None?
    requires c.List? || c.Uidl? ==> c.arg != ""
    ensures Handle(s, db, c, l) == Outcome(s, db, Err(NoSuchMessage), true)
  {
  }

  /** A number that is not one of an unmarked message is refused by LIST, UIDL, RETR and DELE, which then change nothing. */
  lemma BadNumberLine(s: Session, db: Db, line: string, w: string, a: string, l: Luck)
    requires s.phase.Transaction? && Reads(line, w, a) && Verb(w) in ["LIST", "UIDL", "RETR", "DELE"]
    requires Verb(w) in ["LIST", "UIDL"] ==> TrimSpace(a) != ""
    requires match Atoi(TrimSpace(a)) case None => true case Some(n) => n < 1 || n > |s.msgs| || s.msgs[n - 1].deleted
    ensures var o := Handle(s, db, CommandOf(line), l); o == Outcome(s, db, o.reply, true) && o.reply.Err?
  {
    LineIs(line, w, a);
    TrimmedFixed(a);
    BadNumber(s, db, CommandOf(line), l);
  }

  /** TOP needs two words, the number of an unmarked message and a count that is not negative. */
  lemma BadTop(s: Session, db: Db, number: string, count: string, l: Luck)
    requires s.phase.Transaction? && ' ' !in number
    requires ParseIndex(s.msgs, number).None? || (match Atoi(TrimSpace(count)) case None => true case Some(n) => n < 0)
    ensures Handle(s, db, Top(number), l) == Outcome(s, db, Err(Syntax), true)
    ensures Handle(s, db, Top(number + " " + count), l) == Outcome(s, db, Err(InvalidArguments), true)
  {
    R.TopArgument(number, count);
    FirstWord(number, number, "");
  }

  lemma RetrCommand(s: Session, db: Db, arg: string, l: Luck, n: nat)
    requires s.phase.Transaction? && Atoi(TrimSpace(arg)) == Some(n) && 1 <= n <= |s.msgs| && !s.msgs[n - 1].deleted
    ensures Handle(s, db, Retr(arg), l) == Outcome(s, db,
              (match Fetch(db, s.msgs[n - 1].id, l.fetch) case Some(m) => Content(m.size, m.raw) case None => Err(FetchError)), true)
  {
  }

  /** RETR with the number of an unmarked message sends it, unless it is gone from the archive, and changes nothing. */
  lemma RetrLine(s: Session, db: Db, line: string, w: string, a: string, l: Luck, n: nat)
    requires s.phase.Transaction? && Reads(line, w, a) && Verb(w) == "RETR"
    requires Atoi(TrimSpace(a)) == Some(n) && 1 <= n <= |s.msgs| && !s.msgs[n - 1].deleted
    ensures Handle(s, db, CommandOf(line), l) == Outcome(s, db,
              (match Fetch(db, s.msgs[n - 1].id, l.fetch) case Some(m) => Content(m.size, m.raw) case None => Err(FetchError)), true)
  {
    LineIs(line, w, a);
    TrimmedFixed(a);
    RetrCommand(s, db, TrimSpace(a), l, n);
  }

  // ----- what the lines ask for -----

  /** The verb of a line of the stream. */
  function Says(line: string): string {
    Verb(WordOf(TrimEol(line)))
  }

  /** The number that a line gives as its argument. */
  function Number(line: string): Option<int> {
    Atoi(TrimSpace(RestOf(TrimEol(line))))
  }

  predicate LoggedInBefore(h: seq<Entry>, k: nat) {
    exists j :: 0 <= j < k && j < |h| && h[j].reply.Ready?
  }

  /** Line k came after login and asked for the deletion of message n. */
  predicate AsksAt(lines: seq<string>, h: seq<Entry>, k: nat, n: nat)
    requires |h| <= |lines|
  {
    k < |h| && LoggedInBefore(h, k) && Says(lines[k]) == "DELE" && Number(lines[k]) == Some(n)
  }

  predicate NoResetLineAfter(lines: seq<string>, h: seq<Entry>, k: nat)
    requires |h| <= |lines|
  {
    forall j :: k < j < |h| ==> Says(lines[j]) != "RSET"
  }

  /** After login a line asked for the deletion of message n, and no later line said RSET. */
  ghost predicate AskedToDelete(lines: seq<string>, h: seq<Entry>, n: nat)
    requires |h| <= |lines|
  {
    exists k: nat :: AsksAt(lines, h, k, n) && NoResetLineAfter(lines, h, k)
  }

  /** The last line said QUIT, after login. */
  predicate EndedByQuit(lines: seq<string>, h: seq<Entry>)
    requires |h| <= |lines|
  {
    h != [] && LoggedInBefore(h, |h| - 1) && Says(lines[|h| - 1]) == "QUIT"
  }

  // The same in terms of commands.

  predicate Deletes(h: seq<Entry>, k: nat, n: nat) {
    k < |h| && LoggedInBefore(h, k) && h[k].cmd.Dele? && Atoi(TrimSpace(h[k].cmd.arg)) == Some(n)
  }

  predicate NoResetAfter(h: seq<Entry>, k: nat) {
    forall j :: k < j < |h| ==> !h[j].cmd.Rset?
  }

  ghost predicate DeletedByCommand(h: seq<Entry>, n: nat) {
    exists k: nat :: Deletes(h, k, n) && NoResetAfter(h, k)
  }

  lemma LoggedInSnoc(h: seq<Entry>, e: Entry, k: nat)
    requires k <= |h|
    ensures LoggedInBefore(h + [e], k) <==> LoggedInBefore(h, k)
  {
    if LoggedInBefore(h, k) {
      var j :| 0 <= j < k && j < |h| && h[j].reply.Ready?;
      assert (h + [e])[j] == h[j];
    }
  }

  lemma OneSnoc(h: seq<Entry>, e: Entry, k: nat, n: nat)
    requires k < |h|
    ensures Deletes(h + [e], k, n) <==> Deletes(h, k, n)
    ensures NoResetAfter(h + [e], k) <==> NoResetAfter(h, k) && !e.cmd.Rset?
  {
    var h' := h + [e];
    LoggedInSnoc(h, e, k);
    assert h'[|h|] == e;
    assert forall j :: 0 <= j < |h| ==> h'[j] == h[j];
  }

  lemma DeletedSnoc(h: seq<Entry>, e: Entry, n: nat)
    ensures DeletedByCommand(h + [e], n) <==> Deletes(h + [e], |h|, n) || (!e.cmd.Rset? && DeletedByCommand(h, n))
  {
    var h' := h + [e];
    if DeletedByCommand(h', n) {
      var k: nat :| Deletes(h', k, n) && NoResetAfter(h', k);
      if k < |h| {
        OneSnoc(h, e, k, n);
      }
    }
    if Deletes(h', |h|, n) {
      assert NoResetAfter(h', |h|);
    }
    if !e.cmd.Rset? && DeletedByCommand(h, n) {
      var k: nat :| Deletes(h, k, n) && NoResetAfter(h, k);
      OneSnoc(h, e, k, n);
    }
  }

  lemma NoReadyLater(s: Session, db: Db, c: Command, l: Luck)
    ensures var o := Handle(s, db, c, l);
      (o.s.phase.Transaction? <==> s.phase.Transaction? || o.reply.Ready?) && (o.reply.Ready? ==> s.phase.Authorization? && c.Pass?)
  {
    R.LookingRepliesNoMark(s, db, c, l);
  }

  /** A session is logged in exactly if it has answered a login. */
  lemma {:induction false} LoggedInIff(steps: seq<Step>)
    ensures var r := Run(steps); r.s.phase.Transaction? <==> LoggedInBefore(r.h, |r.h|)
  {
    if steps != [] {
      var init, last := steps[..|steps| - 1], steps[|steps| - 1];
      LoggedInIff(init);
      var before := Run(init);
      if before.open {
        var o := Handle(before.s, last.db, last.cmd, last.luck);
        NoReadyLater(before.s, last.db, last.cmd, last.luck);
        LoggedInMore(before.h, Entry(last.cmd, o.reply));
      }
    }
  }

  lemma LoggedInMore(h: seq<Entry>, e: Entry)
    ensures LoggedInBefore(h + [e], |h| + 1) <==> LoggedInBefore(h, |h|) || e.reply.Ready?
  {
    var h' := h + [e];
    assert h'[|h|] == e;
    if LoggedInBefore(h, |h|) {
      var j :| 0 <= j < |h| && h[j].reply.Ready?;
      assert h'[j] == h[j];
    }
  }

  /** What DELE and RSET do to one message, whether or not they are accepted. */
  lemma HandleMarks(s: Session, db: Db, c: Command, l: Luck, n: nat)
    requires s.phase.Transaction? && 1 <= n <= |s.msgs|
    ensures var s' := Handle(s, db, c, l).s;
      && |s'.msgs| == |s.msgs|
      && (s'.msgs[n - 1].deleted <==>
            (c.Dele? && Atoi(TrimSpace(c.arg)) == Some(n)) || (!c.Rset? && s.msgs[n - 1].deleted))
  {
  }

  /** A message is marked exactly if a DELE with its number came after login, accepted or not, and no RSET after it. */
  lemma {:induction false} MarksAreCommands(steps: seq<Step>, n: nat)
    requires Run(steps).s.phase.Transaction? && 1 <= n <= |Run(steps).s.msgs|
    ensures Run(steps).s.msgs[n - 1].deleted <==> DeletedByCommand(Run(steps).h, n)
  {
    var init, last := steps[..|steps| - 1], steps[|steps| - 1];
    var before := Run(init);
    if !before.open {
      MarksAreCommands(init, n);
    } else {
      var e := Entry(last.cmd, Handle(before.s, last.db, last.cmd, last.luck).reply);
      LoggedInIff(init);
      LoggedInSnoc(before.h, e, |before.h|);
      DeletedSnoc(before.h, e, n);
      if before.s.phase.Transaction? {
        HandleMarks(before.s, last.db, last.cmd, last.luck, n);
        MarksAreCommands(init, n);
      } else {
        NothingDeletedBefore(before.h, n);
      }
    }
  }

  lemma NothingDeletedBefore(h: seq<Entry>, n: nat)
    requires !LoggedInBefore(h, |h|)
    ensures !DeletedByCommand(h, n)
  {
    forall k: nat ensures !Deletes(h, k, n) {
    }
  }

  // ----- from commands to lines -----

  lemma SaysIs(line: string)
    ensures Says(line) == "DELE" <==> CommandOf(TrimEol(line)).Dele?
    ensures Says(line) == "DELE" ==> CommandOf(TrimEol(line)).arg == TrimSpace(RestOf(TrimEol(line)))
    ensures Says(line) == "RSET" <==> CommandOf(TrimEol(line)).Rset?
    ensures Says(line) == "QUIT" <==> CommandOf(TrimEol(line)).Quit?
  {
    var t := TrimEol(line);
    EveryLineReads(t, WordOf(t), RestOf(t));
    LineIs(t, WordOf(t), RestOf(t));
  }

  lemma AsksIffDeletes(lines: seq<string>, h: seq<Entry>, k: nat, n: nat)
    requires Obeyed(lines, h)
    ensures AsksAt(lines, h, k, n) <==> Deletes(h, k, n)
  {
    if k < |h| {
      SaysIs(lines[k]);
      TrimmedFixed(RestOf(TrimEol(lines[k])));
    }
  }

  lemma NoResetIff(lines: seq<string>, h: seq<Entry>, k: nat)
    requires Obeyed(lines, h)
    ensures NoResetLineAfter(lines, h, k) <==> NoResetAfter(h, k)
  {
    forall j | k < j < |h| ensures Says(lines[j]) == "RSET" <==> h[j].cmd.Rset? {
      SaysIs(lines[j]);
    }
  }

  lemma AskedIffCommand(lines: seq<string>, h: seq<Entry>, n: nat)
    requires Obeyed(lines, h)
    ensures AskedToDelete(lines, h, n) <==> DeletedByCommand(h, n)
  {
    if AskedToDelete(lines, h, n) {
      var k: nat :| AsksAt(lines, h, k, n) && NoResetLineAfter(lines, h, k);
      AsksIffDeletes(lines, h, k, n);
      NoResetIff(lines, h, k);
    }
    if DeletedByCommand(h, n) {
      var k: nat :| Deletes(h, k, n) && NoResetAfter(h, k);
      AsksIffDeletes(lines, h, k, n);
      NoResetIff(lines, h, k);
    }
  }

  predicate QuitAfterLogin(h: seq<Entry>) {
    h != [] && LoggedInBefore(h, |h| - 1) && h[|h| - 1].cmd.Quit?
  }

  lemma {:induction false} CommittedIff(steps: seq<Step>)
    ensures R.Committed(Run(steps)) <==> QuitAfterLogin(Run(steps).h)
  {
    if steps != [] {
      var init, last := steps[..|steps| - 1], steps[|steps| - 1];
      CommittedIff(init);
      var before := Run(init);
      if before.open {
        var e := Entry(last.cmd, Handle(before.s, last.db, last.cmd, last.luck).reply);
        R.OnlyQuitRemoves(before.s, last.db, last.cmd, last.luck);
        NoReadyLater(before.s, last.db, last.cmd, last.luck);
        LoggedInIff(init);
        LoggedInSnoc(before.h, e, |before.h|);
      }
    }
  }

  /** The lines ask for the deletion of the message with this identifier, and the database executes it. */
  ghost predicate AskedFor(lines: seq<string>, life: Life, ok: nat -> bool, id: nat)
    requires |life.h| <= |lines|
  {
    exists i :: 0 <= i < |life.s.msgs| && life.s.msgs[i].id == id && AskedToDelete(lines, life.h, i + 1) && ok(i)
  }

  /**
    What a server that has the archive to itself removes, in terms of the lines it was
    sent.  Unless the last line it handled was a QUIT after login, nothing.  Otherwise
    exactly the messages of the maildrop for which some line after login said DELE with
    their number and no later line said RSET, as far as the database executes it.
   */
  lemma {:induction false} LinesRemove(
    db0: Db, inbound: string, steps: seq<Step>, life: Life, db1: Db, sent: string, lines: seq<string>, id: nat)
    requires Served(db0, inbound, steps, life, db1, sent) && Obeyed(lines, life.h)
    ensures !EndedByQuit(lines, life.h) ==> db1 == db0
    ensures EndedByQuit(lines, life.h) ==>
      && R.Committed(Run(steps))
      && db1.boxes == db0.boxes
      && R.GoneIff(db0, db1, id, AskedFor(lines, life, steps[R.Closing(steps)].luck.deletes, id))
  {
    CommittedIff(steps);
    if life.h != [] {
      SaysIs(lines[|life.h| - 1]);
    }
    R.SessionRemovesMarked(db0, steps, db1, id);
    if R.Committed(life) {
      AskedForIff(steps, lines, steps[R.Closing(steps)].luck.deletes, id);
    }
  }

  lemma {:induction false} AskedForIff(steps: seq<Step>, lines: seq<string>, ok: nat -> bool, id: nat)
    requires Obeyed(lines, Run(steps).h) && Run(steps).s.phase.Transaction?
    ensures AskedFor(lines, Run(steps), ok, id) <==> R.Asked(Run(steps), ok, id)
  {
    var r := Run(steps);
    forall i | 0 <= i < |r.s.msgs|
      ensures r.s.msgs[i].deleted <==> AskedToDelete(lines, r.h, i + 1)
      ensures r.s.msgs[i].deleted <==> R.MarkedBy(r.h, i + 1)
    {
      AskedIffMarked(steps, lines, i);
    }
  }

  lemma {:induction false} AskedIffMarked(steps: seq<Step>, lines: seq<string>, i: nat)
    requires Obeyed(lines, Run(steps).h) && Run(steps).s.phase.Transaction? && i < |Run(steps).s.msgs|
    ensures Run(steps).s.msgs[i].deleted <==> AskedToDelete(lines, Run(steps).h, i + 1)
    ensures Run(steps).s.msgs[i].deleted <==> R.MarkedBy(Run(steps).h, i + 1)
  {
    AskedIffCommand(lines, Run(steps).h, i + 1);
    MarksAreCommands(steps, i + 1);
    R.MarksAreHistory(steps, i);
  }
}
