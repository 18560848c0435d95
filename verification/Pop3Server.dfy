/**
  A POP3 session (RFC 1939): logging in, the maildrop as it was at login, marks for
  deletion, and their commit at QUIT.
 */
module Pop3Server {
  import opened Text
  import opened DotData
  import opened Archive
  import FindOrCreate
  import Top = TopLines

  const MAX_AUTH_FAILS := 3
  const MAILDROP_LIMIT := 1000

  // ----- commands and replies -----

  datatype Command =
    | User(arg: string) | Pass(arg: string)
    | Stat | List(arg: string) | Uidl(arg: string) | Retr(arg: string) | Top(arg: string)
    | Dele(arg: string) | Rset | Noop | Quit | Other

  function CommandOf(line: string): Command {
    var k := IndexOf(line, ' ');
    var verb := ToUpper(TrimSpace(line[..k]));
    var arg := TrimSpace(line[k..]);
    if verb == "USER" then User(arg)
    else if verb == "PASS" then Pass(arg)
    else if verb == "STAT" then Stat
    else if verb == "LIST" then List(arg)
    else if verb == "UIDL" then Uidl(arg)
    else if verb == "RETR" then Retr(arg)
    else if verb == "TOP" then Top(arg)
    else if verb == "DELE" then Dele(arg)
    else if verb == "RSET" then Rset
    else if verb == "NOOP" then Noop
    else if verb == "QUIT" then Quit
    else Other
  }

  datatype Reason =
    | MissingUsername | UserFirst | BadCredentials | TooManyFailures | NoAccess
    | NoSuchMessage | FetchError | Syntax | InvalidArguments | UnknownCommand

  datatype Reply =
    | Err(why: Reason)
    | Ok
    | Ready(count: nat)
    | Totals(count: nat, octets: nat)
    | Restored(count: nat, octets: nat)
    | Single(number: nat, value: nat)
    | Listing(count: nat, octets: nat, lines: seq<(nat, nat)>)
    | Ids(lines: seq<(nat, nat)>)
    | Content(octets: nat, data: string)
    | TopOf(data: string)
    | Marked(number: nat)
    | Bye

  function ReasonText(why: Reason): string {
    match why
    case MissingUsername => "missing username"
    case UserFirst => "USER required first"
    case BadCredentials => "invalid credentials"
    case TooManyFailures => "too many authentication failures"
    case NoAccess => "maildrop access failed"
    case NoSuchMessage => "no such message"
    case FetchError => "fetch error"
    case Syntax => "syntax: TOP msg n"
    case InvalidArguments => "invalid arguments"
    case UnknownCommand => "unknown command"
  }

  /** The first line of a reply, without its end. */
  function StatusText(r: Reply): string {
    match r
    case Err(why) => "-ERR " + ReasonText(why)
    case Ok => "+OK"
    case Ready(n) => "+OK maildrop ready, " + Itoa(n) + " message(s)"
    case Totals(n, octets) => "+OK " + Itoa(n) + " " + Itoa(octets)
    case Restored(n, octets) => "+OK maildrop has " + Itoa(n) + " messages (" + Itoa(octets) + " octets)"
    case Single(number, value) => "+OK " + Itoa(number) + " " + Itoa(value)
    case Listing(n, octets, _) => "+OK " + Itoa(n) + " messages (" + Itoa(octets) + " octets)"
    case Ids(_) => "+OK"
    case Content(octets, _) => "+OK " + Itoa(octets) + " octets"
    case TopOf(_) => "+OK"
    case Marked(number) => "+OK message " + Itoa(number) + " deleted"
    case Bye => "+OK bye"
  }

  function Status(r: Reply): string {
    StatusText(r) + CRLF
  }

  function ListingLine(line: (nat, nat)): string {
    Itoa(line.0) + " " + Itoa(line.1)
  }

  /** The lines of LIST and UIDL are written as they are, without stuffing. */
  function ListingText(lines: seq<(nat, nat)>): string {
    if lines == [] then ""
    else ListingText(lines[..|lines| - 1]) + (ListingLine(lines[|lines| - 1]) + CRLF)
  }

  /** What follows the first line, for the multi-line replies. */
  function Payload(r: Reply): string {
    match r
    case Listing(_, _, lines) => ListingText(lines) + END
    case Ids(lines) => ListingText(lines) + END
    case Content(_, data) => DotEncode(data)
    case TopOf(data) => DotEncode(data)
    case _ => ""
  }

  function Wire(r: Reply): string {
    Status(r) + Payload(r)
  }

  // ----- the maildrop -----

  datatype Pop3Msg = Pop3Msg(id: nat, size: nat, deleted: bool)

  function Snapshot(page: seq<Message>): (msgs: seq<Pop3Msg>)
    ensures |msgs| == |page|
    ensures forall i :: 0 <= i < |page| ==> msgs[i] == Pop3Msg(page[i].id, page[i].size, false)
  {
    seq(|page|, i requires 0 <= i < |page| => Pop3Msg(page[i].id, page[i].size, false))
  }

  /**
    The maildrop of a user: the first mailbox with the inbound name, or nothing if
    there is none yet.
   */
  ghost predicate Loaded(db: Db, user: string, inbound: string, page: seq<Message>) {
    match FindOrCreate.FirstMatch(FindOrCreate.Lmtp, ListMailboxes(db, user), inbound)
    case None => page == []
    case Some(box) => IsPage(db, box, MAILDROP_LIMIT, page)
  }

  /** Number and size sum of the messages not marked. */
  function StatOf(msgs: seq<Pop3Msg>): (nat, nat) {
    if msgs == [] then (0, 0)
    else
      var (n, total) := StatOf(msgs[..|msgs| - 1]);
      var m := msgs[|msgs| - 1];
      if m.deleted then (n, total) else (n + 1, total + m.size)
  }

  /** The numbers and sizes of the messages not marked. */
  function Sizes(msgs: seq<Pop3Msg>): seq<(nat, nat)> {
    if msgs == [] then []
    else
      var m := msgs[|msgs| - 1];
      Sizes(msgs[..|msgs| - 1]) + if m.deleted then [] else [(|msgs|, m.size)]
  }

  function Uids(msgs: seq<Pop3Msg>): seq<(nat, nat)> {
    if msgs == [] then []
    else
      var m := msgs[|msgs| - 1];
      Uids(msgs[..|msgs| - 1]) + if m.deleted then [] else [(|msgs|, m.id)]
  }

  /** The index of the message with the number in `raw`, if it is there and not marked. */
  function ParseIndex(msgs: seq<Pop3Msg>, raw: string): (r: Option<nat>)
    ensures r.Some? ==> r.value < |msgs| && !msgs[r.value].deleted
  {
    match Atoi(TrimSpace(raw))
    case None => None
    case Some(n) => if n < 1 || n > |msgs| || msgs[n - 1].deleted then None else Some(n - 1)
  }

  function Mark(msgs: seq<Pop3Msg>, i: nat): seq<Pop3Msg>
    requires i < |msgs|
  {
    msgs[i := msgs[i].(deleted := true)]
  }

  function Unmarked(msgs: seq<Pop3Msg>): (r: seq<Pop3Msg>)
    ensures |r| == |msgs| && forall i :: 0 <= i < |msgs| ==> r[i] == msgs[i].(deleted := false)
  {
    seq(|msgs|, i requires 0 <= i < |msgs| => msgs[i].(deleted := false))
  }

  /** Deletes the marked messages from index k on; `ok` says which deletes the database executes. */
  function CommitFrom(db: Db, msgs: seq<Pop3Msg>, k: nat, ok: nat -> bool): Db
    requires k <= |msgs|
    decreases |msgs| - k
  {
    if k == |msgs| then db
    else CommitFrom(if msgs[k].deleted && ok(k) then DeleteMessage(db, msgs[k].id) else db, msgs, k + 1, ok)
  }

  // ----- one command -----

  datatype Phase = Authorization | Transaction

  datatype Session = Session(phase: Phase, pending: string, fails: nat, user: string, msgs: seq<Pop3Msg>)

  const FRESH := Session(Authorization, "", 0, "", [])

  /**
    What a command depends on besides the archive: the passwords that the user table
    accepts for an address, the page that loading the maildrop returns (None for an
    error), whether a fetch is executed, and which deletes are.
   */
  datatype Luck = Luck(auth: (string, string) -> bool, drop: Option<seq<Message>>, fetch: bool, deletes: nat -> bool)

  datatype Outcome = Outcome(s: Session, db: Db, reply: Reply, open: bool)

  function HandleAuthorization(s: Session, db: Db, c: Command, l: Luck): Outcome {
    match c
    case User(arg) =>
      if arg == "" then Outcome(s, db, Err(MissingUsername), true)
      else Outcome(s.(pending := ToLower(arg)), db, Ok, true)
    case Pass(arg) =>
      if s.pending == "" then Outcome(s, db, Err(UserFirst), true)
      else if !l.auth(s.pending, arg) then
        var s' := s.(pending := "", fails := s.fails + 1);
        if s'.fails >= MAX_AUTH_FAILS then Outcome(s', db, Err(TooManyFailures), false)
        else Outcome(s', db, Err(BadCredentials), true)
      else
        (match l.drop
         case None => Outcome(s.(user := s.pending, pending := ""), db, Err(NoAccess), false)
         case Some(page) =>
           Outcome(s.(phase := Transaction, user := s.pending, pending := "", msgs := Snapshot(page)), db, Ready(|page|), true))
    case Quit => Outcome(s, db, Bye, false)
    case _ => Outcome(s, db, Err(UnknownCommand), true)
  }

  function Fetch(db: Db, id: nat, up: bool): Option<Message> {
    if up && id in db.messages then Some(db.messages[id]) else None
  }

  function ReplyToTop(s: Session, db: Db, arg: string, up: bool): Reply {
    var k := IndexOf(arg, ' ');
    if k == |arg| then Err(Syntax)
    else
      match (ParseIndex(s.msgs, arg[..k]), Atoi(TrimSpace(arg[k + 1..])))
      case (Some(i), Some(n)) =>
        if n < 0 then Err(InvalidArguments)
        else
          (match Fetch(db, s.msgs[i].id, up)
           case None => Err(FetchError)
           case Some(m) => TopOf(Top.TopLines(m.raw, n)))
      case _ => Err(InvalidArguments)
  }

  /** The commands that only look. */
  function ReplyTo(s: Session, db: Db, c: Command, l: Luck): Reply {
    match c
    case Stat => var (n, total) := StatOf(s.msgs); Totals(n, total)
    case List(arg) =>
      if arg == "" then var (n, total) := StatOf(s.msgs); Listing(n, total, Sizes(s.msgs))
      else
        (match ParseIndex(s.msgs, arg)
         case None => Err(NoSuchMessage)
         case Some(i) => Single(i + 1, s.msgs[i].size))
    case Uidl(arg) =>
      if arg == "" then Ids(Uids(s.msgs))
      else
        (match ParseIndex(s.msgs, arg)
         case None => Err(NoSuchMessage)
         case Some(i) => Single(i + 1, s.msgs[i].id))
    case Retr(arg) =>
      (match ParseIndex(s.msgs, arg)
       case None => Err(NoSuchMessage)
       case Some(i) =>
         (match Fetch(db, s.msgs[i].id, l.fetch)
          case None => Err(FetchError)
          case Some(m) => Content(m.size, m.raw)))
    case Top(arg) => ReplyToTop(s, db, arg, l.fetch)
    case Noop => Ok
    case _ => Err(UnknownCommand)
  }

  function HandleTransaction(s: Session, db: Db, c: Command, l: Luck): Outcome {
    match c
    case Dele(arg) =>
      (match ParseIndex(s.msgs, arg)
       case None => Outcome(s, db, Err(NoSuchMessage), true)
       case Some(i) => Outcome(s.(msgs := Mark(s.msgs, i)), db, Marked(i + 1), true))
    case Rset =>
      var msgs := Unmarked(s.msgs);
      var (n, total) := StatOf(msgs);
      Outcome(s.(msgs := msgs), db, Restored(n, total), true)
    case Quit => Outcome(s, CommitFrom(db, s.msgs, 0, l.deletes), Bye, false)
    case _ => Outcome(s, db, ReplyTo(s, db, c, l), true)
  }

  function Handle(s: Session, db: Db, c: Command, l: Luck): Outcome {
    match s.phase
    case Authorization => HandleAuthorization(s, db, c, l)
    case Transaction => HandleTransaction(s, db, c, l)
  }

  // ----- the session -----

  class Pop3Session {
    var phase: Phase
    var pendingUser: string
    var authFails: nat
    var userEmail: string
    var messages: seq<Pop3Msg>
    const archive: SQLStore
    const inbound: string

    function View(): Session
      reads this
    {
      Session(phase, pendingUser, authFails, userEmail, messages)
    }

    constructor (archive: SQLStore, inbound: string)
      ensures View() == FRESH && this.archive == archive && this.inbound == inbound
    {
      phase, pendingUser, authFails, userEmail, messages := Authorization, "", 0, "", [];
      this.archive := archive;
      this.inbound := inbound;
    }

    /** `up` says whether the database executes the two listings. */
    method LoadMailbox(up: (bool, bool)) returns (ok: bool, ghost page: seq<Message>)
      requires ValidDb(archive.db)
      modifies this`messages
      ensures up.0 && up.1 ==> ok
      ensures if ok then Loaded(archive.db, userEmail, inbound, page) && messages == Snapshot(page)
        else messages == old(messages)
    {
      page := [];
      var boxes := archive.Mailboxes(userEmail, up.0);
      if boxes.None? {
        return false, [];
      }
      var box := FindOrCreate.FindMatch(FindOrCreate.Lmtp, boxes.value, inbound);
      if box.None? {
        messages := [];
        return true, [];
      }
      var msgs := archive.Messages(box.value, MAILDROP_LIMIT, up.1);
      if msgs.None? {
        return false, [];
      }
      var list: seq<Pop3Msg> := [];
      var i := 0;
      while i < |msgs.value|
        invariant i <= |msgs.value| && |list| == i
        invariant forall k :: 0 <= k < i ==> list[k] == Snapshot(msgs.value)[k]
      {
        list := list + [Pop3Msg(msgs.value[i].id, msgs.value[i].size, false)];
        i := i + 1;
      }
      messages, page, ok := list, msgs.value, true;
    }

    method CommitDeletions(deletes: nat -> bool)
      modifies archive
      ensures archive.db == CommitFrom(old(archive.db), messages, 0, deletes)
    {
      var k := 0;
      while k < |messages|
        invariant k <= |messages|
        invariant CommitFrom(archive.db, messages, k, deletes) == CommitFrom(old(archive.db), messages, 0, deletes)
      {
        if messages[k].deleted {
          var _ := archive.RemoveMessage(messages[k].id, deletes(k));
        }
        k := k + 1;
      }
    }

    method Stat() returns (count: nat, total: nat)
      ensures (count, total) == StatOf(messages)
    {
      count, total := 0, 0;
      var i := 0;
      while i < |messages|
        invariant i <= |messages| && (count, total) == StatOf(messages[..i])
      {
        assert messages[..i + 1][..i] == messages[..i];
        if !messages[i].deleted {
          count, total := count + 1, total + messages[i].size;
        }
        i := i + 1;
      }
      assert messages[..i] == messages;
    }

    method WriteSizes(rw: ReadWriter)
      modifies rw`output
      ensures rw.output == old(rw.output) + ListingText(Sizes(messages))
    {
      var i := 0;
      assert rw.output + "" == rw.output;
      while i < |messages|
        invariant i <= |messages| && rw.output == old(rw.output) + ListingText(Sizes(messages[..i]))
      {
        assert messages[..i + 1][..i] == messages[..i];
        ghost var before := Sizes(messages[..i]);
        if messages[i].deleted {
          assert before + [] == before;
        } else {
          ListingSnoc(before, (i + 1, messages[i].size));
          Assoc(old(rw.output), ListingText(before), ListingLine((i + 1, messages[i].size)) + CRLF);
          rw.Write(ListingLine((i + 1, messages[i].size)) + CRLF);
        }
        i := i + 1;
      }
      assert messages[..i] == messages;
    }

    method WriteUids(rw: ReadWriter)
      modifies rw`output
      ensures rw.output == old(rw.output) + ListingText(Uids(messages))
    {
      var i := 0;
      assert rw.output + "" == rw.output;
      while i < |messages|
        invariant i <= |messages| && rw.output == old(rw.output) + ListingText(Uids(messages[..i]))
      {
        assert messages[..i + 1][..i] == messages[..i];
        ghost var before := Uids(messages[..i]);
        if messages[i].deleted {
          assert before + [] == before;
        } else {
          ListingSnoc(before, (i + 1, messages[i].id));
          Assoc(old(rw.output), ListingText(before), ListingLine((i + 1, messages[i].id)) + CRLF);
          rw.Write(ListingLine((i + 1, messages[i].id)) + CRLF);
        }
        i := i + 1;
      }
      assert messages[..i] == messages;
    }

    /** Writes a whole reply; LIST and UIDL go line by line, RETR and TOP through the dot-stuffing writer. */
    method Answer(rw: ReadWriter, r: Reply)
      requires r.Listing? ==> r.lines == Sizes(messages)
      requires r.Ids? ==> r.lines == Uids(messages)
      modifies rw`output
      ensures rw.output == old(rw.output) + Wire(r)
    {
      ghost var start := rw.output;
      Assoc(start, Status(r), Payload(r));
      rw.Write(Status(r));
      match r {
        case Listing(_, _, lines) =>
          WriteSizes(rw);
          Assoc(start + Status(r), ListingText(lines), END);
          rw.Write(END);
        case Ids(lines) =>
          WriteUids(rw);
          Assoc(start + Status(r), ListingText(lines), END);
          rw.Write(END);
        case Content(_, data) =>
          WritePop3DotData(rw, data);
        case TopOf(data) =>
          WritePop3DotData(rw, data);
        case _ =>
          assert rw.output + "" == rw.output;
      }
    }

    /** The commands before login.  `up` says whether the database executes the two listings of a login. */
    method ServeAuthorization(c: Command, auth: (string, string) -> bool, up: (bool, bool)) returns (r: Reply, open: bool, ghost drop: Option<seq<Message>>)
      requires ValidDb(archive.db) && phase == Authorization
      modifies this
      ensures var o := HandleAuthorization(old(View()), archive.db, c, Luck(auth, drop, true, k => true));
        View() == o.s && r == o.reply && open == o.open
      ensures drop.Some? ==> Loaded(archive.db, old(pendingUser), inbound, drop.value)
      ensures up.0 && up.1 && r.Err? ==> r.why != NoAccess
    {
      drop, open := None, true;
      match c {
        case User(arg) =>
          if arg == "" {
            r := Err(MissingUsername);
          } else {
            pendingUser := ToLower(arg);
            r := Ok;
          }
        case Pass(arg) =>
          if pendingUser == "" {
            r := Err(UserFirst);
          } else if !auth(pendingUser, arg) {
            authFails := authFails + 1;
            pendingUser := "";
            if authFails >= MAX_AUTH_FAILS {
              r, open := Err(TooManyFailures), false;
            } else {
              r := Err(BadCredentials);
            }
          } else {
            userEmail := pendingUser;
            pendingUser := "";
            var ok, page := LoadMailbox(up);
            if ok {
              drop := Some(page);
              phase := Transaction;
              r := Ready(|messages|);
            } else {
              r, open := Err(NoAccess), false;
            }
          }
        case Quit =>
          r, open := Bye, false;
        case _ =>
          r := Err(UnknownCommand);
      }
    }

    /** The commands that look at one message of the archive. */
    method FetchFor(c: Command, up: bool) returns (r: Reply)
      requires c.Retr? || c.Top?
      ensures r == ReplyTo(View(), archive.db, c, Luck((u, p) => true, None, up, k => true))
    {
      match c {
        case Retr(arg) =>
          var i := ParseIndex(messages, arg);
          if i.None? {
            return Err(NoSuchMessage);
          }
          var m := archive.GetMessage(messages[i.value].id, up);
          r := if m.None? then Err(FetchError) else Content(m.value.size, m.value.raw);
        case Top(arg) =>
          var k := IndexOf(arg, ' ');
          if k == |arg| {
            return Err(Syntax);
          }
          var i, n := ParseIndex(messages, arg[..k]), Atoi(TrimSpace(arg[k + 1..]));
          if i.None? || n.None? || n.value < 0 {
            return Err(InvalidArguments);
          }
          var m := archive.GetMessage(messages[i.value].id, up);
          r := if m.None? then Err(FetchError) else TopOf(Top.TopLines(m.value.raw, n.value));
      }
    }

    method ResetMarks()
      modifies this`messages
      ensures messages == Unmarked(old(messages))
    {
      var i := 0;
      while i < |messages|
        invariant i <= |messages| == |old(messages)|
        invariant forall k :: 0 <= k < |messages| ==> messages[k] == if k < i then Unmarked(old(messages))[k] else old(messages)[k]
      {
        messages := messages[i := messages[i].(deleted := false)];
        i := i + 1;
      }
    }

    /** LIST and UIDL, with or without a number. */
    method ListFor(c: Command) returns (r: Reply)
      requires c.List? || c.Uidl?
      ensures r == ReplyTo(View(), archive.db, c, Luck((u, p) => true, None, true, k => true))
      ensures r.Listing? ==> r.lines == Sizes(messages)
      ensures r.Ids? ==> r.lines == Uids(messages)
    {
      match c {
        case List(arg) =>
          if arg == "" {
            var n, total := Stat();
            return Listing(n, total, Sizes(messages));
          }
          var i := ParseIndex(messages, arg);
          r := if i.None? then Err(NoSuchMessage) else Single(i.value + 1, messages[i.value].size);
        case Uidl(arg) =>
          if arg == "" {
            return Ids(Uids(messages));
          }
          var i := ParseIndex(messages, arg);
          r := if i.None? then Err(NoSuchMessage) else Single(i.value + 1, messages[i.value].id);
      }
    }

    /** DELE and RSET. */
    method MarkFor(c: Command) returns (r: Reply)
      requires phase == Transaction && (c.Dele? || c.Rset?)
      modifies this`messages
      ensures Outcome(View(), archive.db, r, true) == HandleTransaction(old(View()), archive.db, c, Luck((u, p) => true, None, true, k => true))
      ensures !r.Listing? && !r.Ids?
    {
      match c {
        case Dele(arg) =>
          var i := ParseIndex(messages, arg);
          if i.None? {
            return Err(NoSuchMessage);
          }
          messages := messages[i.value := messages[i.value].(deleted := true)];
          r := Marked(i.value + 1);
        case Rset =>
          ResetMarks();
          var n, total := Stat();
          r := Restored(n, total);
      }
    }

    method ServeTransaction(c: Command, fetch: bool, deletes: nat -> bool) returns (r: Reply, open: bool)
      requires phase == Transaction
      modifies this, archive
      ensures Outcome(View(), archive.db, r, open) == HandleTransaction(old(View()), old(archive.db), c, Luck((u, p) => true, None, fetch, deletes))
      ensures r.Listing? ==> r.lines == Sizes(messages)
      ensures r.Ids? ==> r.lines == Uids(messages)
    {
      open := true;
      match c {
        case Stat =>
          var n, total := Stat();
          r := Totals(n, total);
        case List(_) =>
          r := ListFor(c);
        case Uidl(_) =>
          r := ListFor(c);
        case Retr(_) =>
          r := FetchFor(c, fetch);
        case Top(_) =>
          r := FetchFor(c, fetch);
        case Dele(_) =>
          r := MarkFor(c);
        case Rset =>
          r := MarkFor(c);
        case Noop =>
          r := Ok;
        case Quit =>
          CommitDeletions(deletes);
          r, open := Bye, false;
        case _ =>
          r := Err(UnknownCommand);
      }
    }

    /** One turn of the server's loop.  The ghost result records what the database answered. */
    method HandleCommand(c: Command, rw: ReadWriter, auth: (string, string) -> bool, up: (bool, bool), fetch: bool, deletes: nat -> bool)
      returns (r: Reply, open: bool, ghost l: Luck)
      requires ValidDb(archive.db)
      modifies this, archive, rw`output
      ensures Outcome(View(), archive.db, r, open) == Handle(old(View()), old(archive.db), c, l)
      ensures rw.output == old(rw.output) + Wire(r) && ValidDb(archive.db)
      ensures l.drop.Some? ==> Loaded(old(archive.db), old(pendingUser), inbound, l.drop.value)
    {
      if phase == Authorization {
        ghost var drop;
        r, open, drop := ServeAuthorization(c, auth, up);
        l := Luck(auth, drop, true, k => true);
      } else {
        r, open := ServeTransaction(c, fetch, deletes);
        l := Luck((u, p) => true, None, fetch, deletes);
      }
      HandleValid(old(View()), old(archive.db), c, l);
      Answer(rw, r);
    }

    /** The server's loop: one line, one command, until the session closes or the input ends. */
    method Serve(rw: ReadWriter, auth: nat -> (string, string) -> bool, up: nat -> (bool, bool), fetch: nat -> bool, deletes: nat -> nat -> bool)
      returns (transcript: seq<Entry>, open: bool, ghost steps: seq<Step>)
      requires ValidDb(archive.db) && View() == FRESH && rw.output == ""
      modifies this, archive, rw
      ensures Served(old(archive.db), inbound, steps, Life(View(), open, transcript), archive.db, rw.output)
      ensures Obeyed(WireLines(old(rw.input)), transcript)
      ensures open ==> |transcript| == |WireLines(old(rw.input))|
    {
      transcript, open, steps := [], true, [];
      ghost var lines := WireLines(rw.input);
      rw.Write(GREETING);
      assert GREETING + "" == GREETING;
      assert rw.output == GREETING;
      while open
        invariant ValidDb(archive.db)
        invariant Served(old(archive.db), inbound, steps, Life(View(), open, transcript), archive.db, rw.output)
        invariant Obeyed(lines, transcript) && lines[|transcript|..] == WireLines(rw.input)
        decreases |rw.input|, open
      {
        ghost var before, sent := rw.input, rw.output;
        var line, ok := rw.ReadLine();
        if !ok {
          return;
        }
        var c := CommandOf(TrimEol(line));
        var n := |transcript|;
        ghost var s, db := View(), archive.db;
        NextWireLine(lines, n, before);
        var reply, more, l := HandleCommand(c, rw, auth(n), up(n), fetch(n), deletes(n));
        ObeyedSnoc(lines, transcript, Entry(c, reply));
        ServedSnoc(old(archive.db), inbound, steps, Life(s, open, transcript), sent, Step(c, db, l));
        steps := steps + [Step(c, db, l)];
        transcript, open := transcript + [Entry(c, reply)], more;
      }
    }
  }

  /** What a server on its own has done: `life` is the run of the steps and `sent` the replies. */
  ghost predicate Served(db0: Db, inbound: string, steps: seq<Step>, life: Life, db: Db, sent: string) {
    && Run(steps) == life && Chained(db0, steps, db) && FitsAll(steps, inbound)
    && sent == GREETING + Replies(life.h)
  }

  /** The commands handled are those of the first lines. */
  predicate Obeyed(lines: seq<string>, h: seq<Entry>) {
    |h| <= |lines| && forall k :: 0 <= k < |h| ==> h[k].cmd == CommandOf(TrimEol(lines[k]))
  }

  lemma ObeyedSnoc(lines: seq<string>, h: seq<Entry>, e: Entry)
    requires Obeyed(lines, h) && |h| < |lines| && e.cmd == CommandOf(TrimEol(lines[|h|]))
    ensures Obeyed(lines, h + [e])
  {
  }

  lemma ServedSnoc(db0: Db, inbound: string, steps: seq<Step>, life: Life, sent: string, step: Step)
    requires Served(db0, inbound, steps, life, step.db, sent) && life.open
    requires Fits(life.s, step, inbound)
    ensures var o := Handle(life.s, step.db, step.cmd, step.luck);
      Served(db0, inbound, steps + [step], Life(o.s, o.open, life.h + [Entry(step.cmd, o.reply)]), o.db, sent + Wire(o.reply))
  {
    var o := Handle(life.s, step.db, step.cmd, step.luck);
    StepSnoc(steps, step, inbound, db0, o.db);
    SentSnoc(life.h, Entry(step.cmd, o.reply));
  }

  lemma NextWireLine(lines: seq<string>, n: nat, input: string)
    requires n <= |lines| && lines[n..] == WireLines(input) && !NoLf(input)
    ensures n < |lines| && lines[n] == NextLine(input)
    ensures lines[n + 1..] == WireLines(input[|NextLine(input)|..])
  {
    assert lines[n..][0] == NextLine(input);
    assert lines[n + 1..] == lines[n..][1..];
  }

  const GREETING := "+OK POP3 server ready\r\n"

  // ----- whole sessions -----

  datatype Entry = Entry(cmd: Command, reply: Reply)

  /** A command, the archive at the moment it is handled, and the answers of the database. */
  datatype Step = Step(cmd: Command, db: Db, luck: Luck)

  /** A session with its history. */
  datatype Life = Life(s: Session, open: bool, h: seq<Entry>)

  function Live(l: Life, step: Step): Life {
    if !l.open then l
    else
      var o := Handle(l.s, step.db, step.cmd, step.luck);
      Life(o.s, o.open, l.h + [Entry(step.cmd, o.reply)])
  }

  /** A session from its start; between its commands anything may happen to the archive. */
  function Run(steps: seq<Step>): Life {
    if steps == [] then Life(FRESH, true, [])
    else Live(Run(steps[..|steps| - 1]), steps[|steps| - 1])
  }

  /** The session is alone: each command finds the archive as the one before left it. */
  predicate Chained(db0: Db, steps: seq<Step>, db1: Db) {
    if steps == [] then db1 == db0
    else
      var init := steps[..|steps| - 1];
      var last := steps[|steps| - 1];
      && Chained(db0, init, last.db)
      && db1 == if Run(init).open then Handle(Run(init).s, last.db, last.cmd, last.luck).db else last.db
  }

  /** A login loads a maildrop that the archive could have returned. */
  ghost predicate Fits(s: Session, step: Step, inbound: string) {
    step.luck.drop.Some? ==> Loaded(step.db, s.pending, inbound, step.luck.drop.value)
  }

  ghost predicate FitsAll(steps: seq<Step>, inbound: string) {
    steps != [] ==>
      && FitsAll(steps[..|steps| - 1], inbound)
      && Fits(Run(steps[..|steps| - 1]).s, steps[|steps| - 1], inbound)
  }

  function Replies(h: seq<Entry>): string {
    if h == [] then "" else Replies(h[..|h| - 1]) + Wire(h[|h| - 1].reply)
  }

  lemma SentSnoc(h: seq<Entry>, e: Entry)
    ensures GREETING + Replies(h + [e]) == GREETING + Replies(h) + Wire(e.reply)
  {
    assert (h + [e])[..|h|] == h;
    Assoc(GREETING, Replies(h), Wire(e.reply));
  }

  lemma StepSnoc(steps: seq<Step>, step: Step, inbound: string, db0: Db, db1: Db)
    ensures Run(steps + [step]) == Live(Run(steps), step)
    ensures FitsAll(steps + [step], inbound) <==> FitsAll(steps, inbound) && Fits(Run(steps).s, step, inbound)
    ensures Chained(db0, steps + [step], db1) <==>
      Chained(db0, steps, step.db)
      && db1 == if Run(steps).open then Handle(Run(steps).s, step.db, step.cmd, step.luck).db else step.db
  {
    assert (steps + [step])[..|steps|] == steps;
  }

  lemma {:induction false} CommitValid(db: Db, msgs: seq<Pop3Msg>, k: nat, ok: nat -> bool)
    requires ValidDb(db) && k <= |msgs|
    ensures ValidDb(CommitFrom(db, msgs, k, ok))
    decreases |msgs| - k
  {
    if k < |msgs| {
      DeleteMessageValid(db, msgs[k].id);
      CommitValid(if msgs[k].deleted && ok(k) then DeleteMessage(db, msgs[k].id) else db, msgs, k + 1, ok);
    }
  }

  lemma HandleValid(s: Session, db: Db, c: Command, l: Luck)
    requires ValidDb(db)
    ensures ValidDb(Handle(s, db, c, l).db)
  {
    CommitValid(db, s.msgs, 0, l.deletes);
  }

  lemma ListingSnoc(lines: seq<(nat, nat)>, line: (nat, nat))
    ensures ListingText(lines + [line]) == ListingText(lines) + (ListingLine(line) + CRLF)
  {
    assert (lines + [line])[..|lines|] == lines;
  }
}
