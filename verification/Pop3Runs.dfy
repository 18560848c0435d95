/**
  What holds over whole POP3 sessions, whatever happens to the archive between their
  commands.
 */
module Pop3Runs {
  import opened Text
  import opened DotData
  import opened Archive
  import opened Pop3Server
  import FindOrCreate
  import Top = TopLines

  // ----- STAT, LIST and UIDL -----

  function SumOf(lines: seq<(nat, nat)>): nat {
    if lines == [] then 0 else SumOf(lines[..|lines| - 1]) + lines[|lines| - 1].1
  }

  lemma SumSnoc(lines: seq<(nat, nat)>, line: (nat, nat))
    ensures SumOf(lines + [line]) == SumOf(lines) + line.1
  {
    assert (lines + [line])[..|lines|] == lines;
  }

  lemma {:induction false} StatIsListing(msgs: seq<Pop3Msg>)
    ensures StatOf(msgs) == (|Sizes(msgs)|, SumOf(Sizes(msgs)))
    ensures |Uids(msgs)| == |Sizes(msgs)|
  {
    if msgs != [] {
      var init, m := msgs[..|msgs| - 1], msgs[|msgs| - 1];
      StatIsListing(init);
      if m.deleted {
        assert Sizes(init) + [] == Sizes(init) && Uids(init) + [] == Uids(init);
      } else {
        SumSnoc(Sizes(init), (|msgs|, m.size));
      }
    }
  }

  /** The lines name exactly the unmarked messages, in increasing order of their numbers. */
  lemma {:induction false} ListedIff(msgs: seq<Pop3Msg>, n: nat, value: nat)
    ensures (n, value) in Sizes(msgs) <==> 1 <= n <= |msgs| && !msgs[n - 1].deleted && msgs[n - 1].size == value
  {
    if msgs != [] {
      ListedIff(msgs[..|msgs| - 1], n, value);
    }
  }

  lemma {:induction false} UidListedIff(msgs: seq<Pop3Msg>, n: nat, id: nat)
    ensures (n, id) in Uids(msgs) <==> 1 <= n <= |msgs| && !msgs[n - 1].deleted && msgs[n - 1].id == id
  {
    if msgs != [] {
      UidListedIff(msgs[..|msgs| - 1], n, id);
    }
  }

  predicate InOrder(lines: seq<(nat, nat)>) {
    forall i, j :: 0 <= i < j < |lines| ==> lines[i].0 < lines[j].0
  }

  lemma {:induction false} ListedInOrder(msgs: seq<Pop3Msg>)
    ensures InOrder(Sizes(msgs))
  {
    if msgs != [] {
      var init, m := msgs[..|msgs| - 1], msgs[|msgs| - 1];
      var lines := Sizes(init);
      ListedInOrder(init);
      if m.deleted {
        assert lines + [] == lines;
      } else {
        forall i | 0 <= i < |lines| ensures lines[i].0 < |msgs| {
          assert lines[i] in lines;
          ListedIff(init, lines[i].0, lines[i].1);
        }
        assert Sizes(msgs) == lines + [(|msgs|, m.size)];
      }
    }
  }

  /**
    In every transaction state STAT answers the number of LIST lines and the sum of
    their sizes, and UIDL lists as many.
   */
  lemma StatAgreesWithList(s: Session, db: Db, l: Luck)
    requires s.phase.Transaction?
    ensures var lines := Sizes(s.msgs);
      && Handle(s, db, List(""), l).reply == Listing(|lines|, SumOf(lines), lines)
      && Handle(s, db, Stat, l).reply == Totals(|lines|, SumOf(lines))
    ensures Handle(s, db, Uidl(""), l).reply == Ids(Uids(s.msgs)) && |Uids(s.msgs)| == |Sizes(s.msgs)|
  {
    StatIsListing(s.msgs);
  }

  /** The number of a listed message, sent back as text, names that message. */
  lemma ListedNumberWorks(msgs: seq<Pop3Msg>, n: nat, size: nat)
    requires (n, size) in Sizes(msgs) && |msgs| <= MAX_INT64
    ensures 1 <= n <= |msgs| && msgs[n - 1].size == size
    ensures Itoa(n) != "" && ParseIndex(msgs, Itoa(n)) == Some(n - 1)
  {
    ListedIff(msgs, n, size);
    NumberWorks(msgs, n);
  }

  lemma NumberWorks(msgs: seq<Pop3Msg>, n: nat)
    requires 1 <= n <= |msgs| <= MAX_INT64 && !msgs[n - 1].deleted
    ensures Itoa(n) != "" && ParseIndex(msgs, Itoa(n)) == Some(n - 1)
  {
    ItoaDigits(n);
    AtoiOfItoa(n);
  }

  /** LIST, UIDL and DELE with a listed number answer about the message of that line. */
  lemma ListedNumberAnswers(s: Session, db: Db, l: Luck, n: nat, size: nat, id: nat)
    requires s.phase.Transaction? && |s.msgs| <= MAX_INT64 && (n, size) in Sizes(s.msgs) && (n, id) in Uids(s.msgs)
    ensures Handle(s, db, List(Itoa(n)), l).reply == Single(n, size)
    ensures Handle(s, db, Uidl(Itoa(n)), l).reply == Single(n, id)
    ensures var o := Handle(s, db, Dele(Itoa(n)), l);
      o.reply == Marked(n) && (n, size) !in Sizes(o.s.msgs)
  {
    ListedNumberWorks(s.msgs, n, size);
    UidListedIff(s.msgs, n, id);
    ListedIff(Mark(s.msgs, n - 1), n, size);
  }

  /** RETR with a listed number sends the message of that line, unless another session has removed it. */
  lemma ListedNumberRetrieves(s: Session, db: Db, l: Luck, n: nat, size: nat)
    requires s.phase.Transaction? && |s.msgs| <= MAX_INT64 && (n, size) in Sizes(s.msgs)
    ensures 1 <= n <= |s.msgs|
    ensures Handle(s, db, Retr(Itoa(n)), l).reply == match Fetch(db, s.msgs[n - 1].id, l.fetch)
      case Some(m) => Content(m.size, m.raw)
      case None => Err(FetchError)
  {
    ListedNumberWorks(s.msgs, n, size);
  }

  function AllSizes(msgs: seq<Pop3Msg>): nat {
    if msgs == [] then 0 else AllSizes(msgs[..|msgs| - 1]) + msgs[|msgs| - 1].size
  }

  lemma {:induction false} StatOfUnmarked(msgs: seq<Pop3Msg>)
    ensures StatOf(Unmarked(msgs)) == (|msgs|, AllSizes(msgs))
  {
    if msgs != [] {
      var init := msgs[..|msgs| - 1];
      StatOfUnmarked(init);
      assert Unmarked(msgs)[..|msgs| - 1] == Unmarked(init);
    }
  }

  /** RSET brings the whole maildrop back and says so. */
  lemma RsetRestoresAll(s: Session, db: Db, l: Luck, n: nat)
    requires s.phase.Transaction? && 1 <= n <= |s.msgs|
    ensures var o := Handle(s, db, Rset, l);
      && o.reply == Restored(|s.msgs|, AllSizes(s.msgs))
      && (n, s.msgs[n - 1].size) in Sizes(o.s.msgs)
  {
    StatOfUnmarked(s.msgs);
    ListedIff(Unmarked(s.msgs), n, s.msgs[n - 1].size);
  }

  /** A number is accepted only for a listed message. */
  lemma {:induction false} OnlyListedNumbers(msgs: seq<Pop3Msg>, raw: string)
    requires ParseIndex(msgs, raw).Some?
    ensures var i := ParseIndex(msgs, raw).value; (i + 1, msgs[i].size) in Sizes(msgs)
  {
    var i := ParseIndex(msgs, raw).value;
    ListedIff(msgs, i + 1, msgs[i].size);
  }

  // ----- marks -----

  /** The last word on message n: a DELE that was answered +OK, with no RSET after it. */
  ghost predicate MarkedBy(h: seq<Entry>, n: nat) {
    exists k :: 0 <= k < |h| && h[k].reply == Marked(n) && forall j :: k < j < |h| ==> !h[j].cmd.Rset?
  }

  lemma MarkedBySnoc(h: seq<Entry>, e: Entry, n: nat)
    ensures MarkedBy(h + [e], n) <==> e.reply == Marked(n) || (!e.cmd.Rset? && MarkedBy(h, n))
  {
    var h' := h + [e];
    if MarkedBy(h', n) {
      var k :| 0 <= k < |h'| && h'[k].reply == Marked(n) && forall j :: k < j < |h'| ==> !h'[j].cmd.Rset?;
      if k < |h| {
        assert h'[|h|] == e && h[k] == h'[k];
        assert forall j :: k < j < |h| ==> h[j] == h'[j];
      }
    }
    if e.reply == Marked(n) {
      assert h'[|h|].reply == Marked(n);
    } else if !e.cmd.Rset? && MarkedBy(h, n) {
      var k :| 0 <= k < |h| && h[k].reply == Marked(n) && forall j :: k < j < |h| ==> !h[j].cmd.Rset?;
      assert h'[k].reply == Marked(n);
    }
  }

  lemma LookingRepliesNoMark(s: Session, db: Db, c: Command, l: Luck)
    ensures !ReplyTo(s, db, c, l).Marked? && !ReplyTo(s, db, c, l).Ready?
  {
  }

  /** Before login there is no maildrop and nothing is marked. */
  lemma {:induction false} NothingBeforeLogin(steps: seq<Step>)
    ensures var r := Run(steps); r.s.phase.Authorization? ==> r.s.msgs == [] && forall n :: !MarkedBy(r.h, n)
  {
    if steps != [] {
      var init, last := steps[..|steps| - 1], steps[|steps| - 1];
      NothingBeforeLogin(init);
      var before := Run(init);
      if before.open {
        var e := Entry(last.cmd, Handle(before.s, last.db, last.cmd, last.luck).reply);
        forall n ensures MarkedBy(before.h + [e], n) <==> e.reply == Marked(n) || (!e.cmd.Rset? && MarkedBy(before.h, n)) {
          MarkedBySnoc(before.h, e, n);
        }
      }
    }
  }

  /** A message of the maildrop is marked exactly when the history says so. */
  lemma {:induction false} MarksAreHistory(steps: seq<Step>, i: nat)
    requires i < |Run(steps).s.msgs|
    ensures Run(steps).s.msgs[i].deleted <==> MarkedBy(Run(steps).h, i + 1)
  {
    if steps != [] {
      var init, last := steps[..|steps| - 1], steps[|steps| - 1];
      var before := Run(init);
      if before.open {
        var o := Handle(before.s, last.db, last.cmd, last.luck);
        MarkedBySnoc(before.h, Entry(last.cmd, o.reply), i + 1);
        if before.s.phase.Authorization? {
          NothingBeforeLogin(init);
        } else {
          MarksAreHistory(init, i);
          LookingRepliesNoMark(before.s, last.db, last.cmd, last.luck);
        }
      } else {
        MarksAreHistory(init, i);
      }
    }
  }

  // ----- logging in -----

  /** Between login and the end, numbers, identifiers and sizes do not change. */
  lemma TransactionKeepsMaildrop(s: Session, db: Db, c: Command, l: Luck)
    requires s.phase.Transaction?
    ensures var s' := Handle(s, db, c, l).s; s'.phase.Transaction? && s'.user == s.user && Unmarked(s'.msgs) == Unmarked(s.msgs)
  {
  }

  /** Step j logs the user in: the password check accepts and a page of the maildrop is loaded. */
  ghost predicate LogsIn(steps: seq<Step>, j: nat, user: string, page: seq<Message>) {
    && j < |steps| && steps[j].cmd.Pass?
    && steps[j].luck.auth(user, steps[j].cmd.arg)
    && steps[j].luck.drop == Some(page)
    && Run(steps[..j]).open && Run(steps[..j]).s.phase.Authorization? && Run(steps[..j]).s.pending == user
  }

  /**
    In the transaction state the maildrop is, marks aside, the page that was loaded
    for the user at login, when the user's password was checked.
   */
  lemma {:induction false} MaildropIsLoginPage(steps: seq<Step>) returns (j: nat, page: seq<Message>)
    requires Run(steps).s.phase.Transaction?
    ensures LogsIn(steps, j, Run(steps).s.user, page)
    ensures Unmarked(Run(steps).s.msgs) == Snapshot(page)
  {
    var init, last := steps[..|steps| - 1], steps[|steps| - 1];
    var before := Run(init);
    if before.s.phase.Transaction? {
      j, page := MaildropIsLoginPage(init);
      assert steps[..j] == init[..j] && steps[j] == init[j];
      if before.open {
        TransactionKeepsMaildrop(before.s, last.db, last.cmd, last.luck);
      }
    } else {
      j, page := |steps| - 1, last.luck.drop.value;
    }
  }

  /** The last accepted USER named this address, and no password was tried since. */
  ghost predicate NamedBy(h: seq<Entry>, user: string) {
    exists k :: 0 <= k < |h| && Names(h[k], user) && forall j :: k < j < |h| ==> !h[j].cmd.Pass? && !h[j].cmd.User?
  }

  predicate Names(e: Entry, user: string) {
    e.cmd.User? && e.cmd.arg != "" && ToLower(e.cmd.arg) == user
  }

  /** Refused USER commands change nothing, so they are left out of the history. */
  function Accepted(h: seq<Entry>): seq<Entry> {
    if h == [] then []
    else
      var e := h[|h| - 1];
      Accepted(h[..|h| - 1]) + if e.cmd.User? && e.cmd.arg == "" then [] else [e]
  }

  lemma AcceptedSnoc(h: seq<Entry>, e: Entry)
    ensures Accepted(h + [e]) == Accepted(h) + if e.cmd.User? && e.cmd.arg == "" then [] else [e]
  {
    assert (h + [e])[..|h|] == h;
  }

  lemma NamedBySnoc(h: seq<Entry>, e: Entry, user: string)
    ensures Names(e, user) ==> NamedBy(h + [e], user)
    ensures !e.cmd.User? && !e.cmd.Pass? && NamedBy(h, user) ==> NamedBy(h + [e], user)
  {
    var h' := h + [e];
    if Names(e, user) {
      assert h'[|h|] == e;
    }
    if !e.cmd.User? && !e.cmd.Pass? && NamedBy(h, user) {
      var k :| 0 <= k < |h| && Names(h[k], user) && forall j :: k < j < |h| ==> !h[j].cmd.Pass? && !h[j].cmd.User?;
      assert h'[k] == h[k];
    }
  }

  /** What a command does to the pending address: names it, keeps it or drops it. */
  lemma HandlePending(s: Session, db: Db, c: Command, l: Luck)
    ensures var s' := Handle(s, db, c, l).s;
      s'.phase.Authorization? && s'.pending != "" ==>
        && s.phase.Authorization?
        && if c.User? && c.arg != "" then s'.pending == ToLower(c.arg) else !c.Pass? && s'.pending == s.pending
  {
  }

  lemma AcceptedNames(h: seq<Entry>, e: Entry, user: string)
    requires if e.cmd.User? && e.cmd.arg != "" then user == ToLower(e.cmd.arg) else !e.cmd.Pass? && NamedBy(Accepted(h), user)
    ensures NamedBy(Accepted(h + [e]), user)
  {
    AcceptedSnoc(h, e);
    if e.cmd.User? && e.cmd.arg == "" {
      assert Accepted(h) + [] == Accepted(h);
    } else {
      NamedBySnoc(Accepted(h), e, user);
    }
  }

  /** The address whose password is checked is the one the client named last. */
  lemma {:induction false} PendingIsNamed(steps: seq<Step>)
    ensures var r := Run(steps);
      r.s.phase.Authorization? && r.s.pending != "" ==> NamedBy(Accepted(r.h), r.s.pending)
  {
    if steps != [] {
      var init, last := steps[..|steps| - 1], steps[|steps| - 1];
      PendingIsNamed(init);
      var before := Run(init);
      if before.open {
        var o := Handle(before.s, last.db, last.cmd, last.luck);
        HandlePending(before.s, last.db, last.cmd, last.luck);
        if o.s.phase.Authorization? && o.s.pending != "" {
          AcceptedNames(before.h, Entry(last.cmd, o.reply), o.s.pending);
        }
      }
    }
  }

  predicate IsFailure(e: Entry) {
    e.reply == Err(BadCredentials) || e.reply == Err(TooManyFailures)
  }

  function Failures(h: seq<Entry>): nat {
    if h == [] then 0 else Failures(h[..|h| - 1]) + if IsFailure(h[|h| - 1]) then 1 else 0
  }

  lemma FailuresSnoc(h: seq<Entry>, e: Entry)
    ensures Failures(h + [e]) == Failures(h) + if IsFailure(e) then 1 else 0
  {
    assert (h + [e])[..|h|] == h;
  }

  lemma HandleFails(s: Session, db: Db, c: Command, l: Luck)
    ensures var o := Handle(s, db, c, l);
      && o.s.fails == s.fails + (if IsFailure(Entry(c, o.reply)) then 1 else 0)
      && (IsFailure(Entry(c, o.reply)) ==> (o.open <==> o.s.fails < 3))
  {
  }

  /** At most three password checks fail in a session: the third closes it. */
  lemma {:induction false} ThreeFailuresClose(steps: seq<Step>)
    ensures var r := Run(steps);
      && Failures(r.h) == r.s.fails <= 3
      && (Failures(r.h) == 3 ==> !r.open)
  {
    if steps != [] {
      var init, last := steps[..|steps| - 1], steps[|steps| - 1];
      ThreeFailuresClose(init);
      var before := Run(init);
      if before.open {
        FailuresSnoc(before.h, Entry(last.cmd, Handle(before.s, last.db, last.cmd, last.luck).reply));
        HandleFails(before.s, last.db, last.cmd, last.luck);
      }
    }
  }

  // ----- what a session removes -----

  /** A marked message whose delete the database executes. */
  predicate Doomed(msgs: seq<Pop3Msg>, k: nat, ok: nat -> bool, id: nat) {
    exists i :: k <= i < |msgs| && msgs[i].id == id && msgs[i].deleted && ok(i)
  }

  lemma {:induction false} CommitIs(db: Db, msgs: seq<Pop3Msg>, k: nat, ok: nat -> bool, id: nat)
    requires k <= |msgs|
    ensures var db' := CommitFrom(db, msgs, k, ok);
      && db'.boxes == db.boxes && db'.nextId == db.nextId
      && (id in db'.messages <==> id in db.messages && !Doomed(msgs, k, ok, id))
      && (id in db'.messages ==> db'.messages[id] == db.messages[id])
    decreases |msgs| - k
  {
    if k < |msgs| {
      var next := if msgs[k].deleted && ok(k) then DeleteMessage(db, msgs[k].id) else db;
      CommitIs(next, msgs, k + 1, ok, id);
      assert Doomed(msgs, k, ok, id) <==> (msgs[k].id == id && msgs[k].deleted && ok(k)) || Doomed(msgs, k + 1, ok, id);
    }
  }

  /** The session ended with QUIT in the transaction state. */
  predicate Committed(r: Life) {
    !r.open && r.s.phase.Transaction?
  }

  /** Only the QUIT of a logged-in session touches the archive, and it ends the session. */
  lemma OnlyQuitRemoves(s: Session, db: Db, c: Command, l: Luck)
    ensures var o := Handle(s, db, c, l);
      if s.phase.Transaction? && c.Quit? then o.db == CommitFrom(db, s.msgs, 0, l.deletes) && o.s == s && !o.open
      else o.db == db && (o.s.phase.Transaction? ==> o.open)
  {
  }

  /** Until the commit, a session that has the archive to itself leaves it as it is. */
  lemma {:induction false} UntouchedBeforeCommit(db0: Db, steps: seq<Step>, db1: Db)
    requires Chained(db0, steps, db1) && !Committed(Run(steps))
    ensures db1 == db0
  {
    if steps != [] {
      var init, last := steps[..|steps| - 1], steps[|steps| - 1];
      var before := Run(init);
      UntouchedBeforeCommit(db0, init, last.db);
      if before.open {
        OnlyQuitRemoves(before.s, last.db, last.cmd, last.luck);
      }
    }
  }

  /** The commands after the session has closed are not handled. */
  function Closing(steps: seq<Step>): (k: nat)
    requires !Run(steps).open
    ensures k < |steps| && Run(steps[..k]).open && Run(steps[..k + 1]) == Run(steps)
  {
    var init := steps[..|steps| - 1];
    if Run(init).open then
      assert steps[..|steps|] == steps;
      |steps| - 1
    else
      var k := Closing(init);
      assert steps[..k] == init[..k] && steps[..k + 1] == init[..k + 1];
      k
  }

  lemma {:induction false} ClosedDb(db0: Db, steps: seq<Step>, db1: Db)
    requires Chained(db0, steps, db1) && !Run(steps).open
    ensures Chained(db0, steps[..Closing(steps) + 1], db1)
  {
    var init := steps[..|steps| - 1];
    if Run(init).open {
      assert steps[..|steps|] == steps;
    } else {
      ClosedDb(db0, init, steps[|steps| - 1].db);
      assert steps[..Closing(init) + 1] == init[..Closing(init) + 1];
    }
  }

  /** The history asks for the removal of the message, and the database executed it. */
  ghost predicate Asked(r: Life, ok: nat -> bool, id: nat) {
    exists i :: 0 <= i < |r.s.msgs| && r.s.msgs[i].id == id && MarkedBy(r.h, i + 1) && ok(i)
  }

  /** What has become of one message. */
  ghost predicate GoneIff(db0: Db, db1: Db, id: nat, gone: bool) {
    && (id in db1.messages <==> id in db0.messages && !gone)
    && (id in db1.messages ==> db1.messages[id] == db0.messages[id])
  }

  /**
    A whole session that has the archive to itself.  If it ends with QUIT after a
    login, exactly those messages of the maildrop are gone whose DELE no RSET
    followed and whose delete the database executed; the others are unchanged.
    However else it ends, the archive is as before.
   */
  lemma {:induction false} SessionRemovesMarked(db0: Db, steps: seq<Step>, db1: Db, id: nat)
    requires Chained(db0, steps, db1)
    ensures !Committed(Run(steps)) ==> db1 == db0
    ensures Committed(Run(steps)) ==>
      var quit := steps[Closing(steps)];
      quit.cmd.Quit? && db1.boxes == db0.boxes && GoneIff(db0, db1, id, Asked(Run(steps), quit.luck.deletes, id))
  {
    if !Committed(Run(steps)) {
      UntouchedBeforeCommit(db0, steps, db1);
    } else {
      ClosedDb(db0, steps, db1);
      CommittedAt(db0, steps, Closing(steps), db1, id);
    }
  }

  lemma CommittedAt(db0: Db, steps: seq<Step>, k: nat, db1: Db, id: nat)
    requires k < |steps| && Run(steps[..k]).open && Run(steps[..k + 1]) == Run(steps)
    requires Chained(db0, steps[..k + 1], db1) && Committed(Run(steps))
    ensures steps[k].cmd.Quit? && db1.boxes == db0.boxes && GoneIff(db0, db1, id, Asked(Run(steps), steps[k].luck.deletes, id))
  {
    assert steps[..k + 1][..k] == steps[..k];
    CommittedRemoves(db0, steps[..k + 1], db1, id);
  }

  lemma CommittedRemoves(db0: Db, steps: seq<Step>, db1: Db, id: nat)
    requires steps != [] && Chained(db0, steps, db1) && Committed(Run(steps)) && Run(steps[..|steps| - 1]).open
    ensures var quit := steps[|steps| - 1];
      quit.cmd.Quit? && db1.boxes == db0.boxes && GoneIff(db0, db1, id, Asked(Run(steps), quit.luck.deletes, id))
  {
    var init, last := steps[..|steps| - 1], steps[|steps| - 1];
    var before := Run(init);
    UntouchedBeforeCommit(db0, init, last.db);
    OnlyQuitRemoves(before.s, last.db, last.cmd, last.luck);
    CommitIs(db0, before.s.msgs, 0, last.luck.deletes, id);
    DoomedIffAsked(steps, last.luck.deletes, id);
  }

  lemma DoomedIffAsked(steps: seq<Step>, ok: nat -> bool, id: nat)
    ensures Doomed(Run(steps).s.msgs, 0, ok, id) <==> Asked(Run(steps), ok, id)
  {
    var r := Run(steps);
    forall i | 0 <= i < |r.s.msgs| ensures r.s.msgs[i].deleted <==> MarkedBy(r.h, i + 1) {
      MarksAreHistory(steps, i);
    }
  }

  // ----- on the wire -----

  function ListingLines(lines: seq<(nat, nat)>): seq<string> {
    if lines == [] then [] else ListingLines(lines[..|lines| - 1]) + [ListingLine(lines[|lines| - 1])]
  }

  lemma ListingLinePlain(line: (nat, nat))
    ensures NoLf(ListingLine(line)) && WireLine(ListingLine(line)) == ListingLine(line) + CRLF
  {
    ItoaDigits(line.0);
    ItoaDigits(line.1);
    assert IsDigit(ListingLine(line)[0]);
  }

  lemma {:induction false} ListingIsEncoded(lines: seq<(nat, nat)>)
    ensures AllNoLf(ListingLines(lines)) && ListingText(lines) == EncodeLines(ListingLines(lines))
  {
    if lines != [] {
      var init, last := lines[..|lines| - 1], lines[|lines| - 1];
      ListingIsEncoded(init);
      ListingLinePlain(last);
      EncodeSnoc(ListingLines(init), ListingLine(last));
    }
  }

  /**
    An RFC 1939 client reads every LIST and UIDL reply back line by line, although
    the server does not stuff these lines, and finds the next reply after it.
   */
  lemma ListingReadsBack(lines: seq<(nat, nat)>, tail: string)
    ensures ClientDecode((ListingText(lines) + END) + tail) == Some((ListingLines(lines), tail))
  {
    ListingIsEncoded(lines);
    ClientDecodesLines(ListingLines(lines), END + tail);
    ClientDecodesEnd(tail);
    Assoc(ListingText(lines), END, tail);
    assert ListingLines(lines) + [] == ListingLines(lines);
  }

  /** The client reads the normalised lines of what RETR and TOP send. */
  lemma ContentReadsBack(r: Reply, tail: string)
    requires r.Content? || r.TopOf?
    ensures ClientDecode(Payload(r) + tail) == Some((NormalLines(r.data), tail))
  {
    ClientReadsBack(r.data, tail);
  }

  /** TOP with the number of an unmarked message and a count: its first lines, unless another session has removed it. */
  lemma {:induction false} TopOfListed(s: Session, db: Db, l: Luck, number: string, n: nat, count: string, lines: nat)
    requires s.phase.Transaction? && ' ' !in number && Atoi(TrimSpace(number)) == Some(n)
    requires 1 <= n <= |s.msgs| && !s.msgs[n - 1].deleted
    requires Atoi(TrimSpace(count)) == Some(lines)
    ensures Handle(s, db, Top(number + " " + count), l).reply == match Fetch(db, s.msgs[n - 1].id, l.fetch)
      case Some(m) => TopOf(Top.TopLines(m.raw, lines))
      case None => Err(FetchError)
  {
    TopArgument(number, count);
  }

  lemma TopArgument(number: string, count: string)
    requires ' ' !in number
    ensures var arg := number + " " + count;
      var k := IndexOf(arg, ' ');
      k < |arg| && arg[..k] == number && arg[k + 1..] == count
  {
    var arg := number + " " + count;
    assert arg[..|number|] == number;
    IndexOfIs(arg, ' ', |number|);
  }
}
