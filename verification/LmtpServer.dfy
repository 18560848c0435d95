/**
  An LMTP session (RFC 2033): the envelope, the DATA command with one reply per
  recipient, and delivery into the archive.  The server is alone here; `Senders` and
  `MailStore` put many of them on one archive.
 */
module LmtpServer {
  import opened Text
  import opened DotData
  import opened Archive
  import opened FindOrCreate

  const MAX_RCPTS := 100

  // ----- commands -----

  /** The offset after the last `c`, or 0. */
  function AfterLast(s: string, c: char): (i: nat)
    ensures i <= |s| && c !in s[i..] && (i > 0 ==> s[i - 1] == c)
  {
    if s == "" then 0
    else if s[|s| - 1] == c then |s|
    else
      var i := AfterLast(s[..|s| - 1], c);
      assert s[i..] == s[..|s| - 1][i..] + [s[|s| - 1]];
      i
  }

  /** The address in `FROM:<addr>` or `TO:<addr>`. */
  function Angle(s: string): string {
    var i := IndexOf(s, '<');
    var j := AfterLast(s, '>');
    var colon := IndexOf(s, ':');
    if i + 1 < j then TrimSpace(s[i + 1..j - 1])
    else if colon < |s| then TrimSpace(s[colon + 1..])
    else TrimSpace(s)
  }

  datatype Command = Lhlo | Mail(arg: string) | Rcpt(arg: string) | Data | Rset | Noop | Quit | Other

  function CommandOf(line: string): Command {
    var k := IndexOf(line, ' ');
    var verb := ToUpper(TrimSpace(line[..k]));
    var arg := if k < |line| then line[k + 1..] else "";
    if verb == "LHLO" then Lhlo
    else if verb == "MAIL" then Mail(arg)
    else if verb == "RCPT" then Rcpt(arg)
    else if verb == "DATA" then Data
    else if verb == "RSET" then Rset
    else if verb == "NOOP" then Noop
    else if verb == "QUIT" then Quit
    else Other
  }

  lemma {:induction false} AfterLastIs(s: string, c: char, k: nat)
    requires 0 < k <= |s| && s[k - 1] == c && c !in s[k..]
    ensures AfterLast(s, c) == k
  {
    if k < |s| {
      assert s[k..][|s| - 1 - k] == s[|s| - 1];
      assert s[..|s| - 1][k..] == s[k..][..|s| - 1 - k];
      AfterLastIs(s[..|s| - 1], c, k);
    }
  }

  /** Between the first `<` and the last `>` stands the address, whatever is outside. */
  lemma AngleIs(p: string, a: string, q: string)
    requires '<' !in p && '>' !in q
    ensures Angle(p + "<" + a + ">" + q) == TrimSpace(a)
  {
    var s := p + "<" + a + ">" + q;
    var i, j := |p|, |p| + |a| + 2;
    assert s[..i] == p && s[j..] == q && s[i + 1..j - 1] == a;
    IndexOfIs(s, '<', i);
    AfterLastIs(s, '>', j);
  }

  /** An opening bracket with a closing one after it. */
  predicate HasPair(s: string) {
    exists i, j :: 0 <= i < j < |s| && s[i] == '<' && s[j] == '>'
  }

  lemma NoPair(s: string)
    requires !HasPair(s)
    ensures IndexOf(s, '<') + 1 >= AfterLast(s, '>')
  {
  }

  /** Without such a pair the address is what follows the first colon. */
  lemma AngleAfterColon(p: string, a: string)
    requires ':' !in p && !HasPair(p + ":" + a)
    ensures Angle(p + ":" + a) == TrimSpace(a)
  {
    var s := p + ":" + a;
    NoPair(s);
    assert s[..|p|] == p && s[|p| + 1..] == a;
    IndexOfIs(s, ':', |p|);
  }

  /** With neither it is the whole argument. */
  lemma AngleBare(s: string)
    requires ':' !in s && !HasPair(s)
    ensures Angle(s) == TrimSpace(s)
  {
    NoPair(s);
  }

  // ----- what a line says -----

  /** Each of the seven verbs stands for its command, with exactly the argument, and every other one is unrecognized. */
  predicate Stands(c: Command, verb: string, a: string) {
    && (verb == "LHLO" ==> c == Lhlo)
    && (verb == "MAIL" ==> c == Mail(a))
    && (verb == "RCPT" ==> c == Rcpt(a))
    && (verb == "DATA" ==> c == Data)
    && (verb == "RSET" ==> c == Rset)
    && (verb == "NOOP" ==> c == Noop)
    && (verb == "QUIT" ==> c == Quit)
    && (verb !in ["LHLO", "MAIL", "RCPT", "DATA", "RSET", "NOOP", "QUIT"] ==> c == Other)
  }

  /** The command of a line, whatever the letter case and the white space around its verb. */
  lemma LineIs(line: string, w: string, a: string)
    requires Reads(line, w, a)
    ensures Stands(CommandOf(line), Verb(w), a)
  {
    FirstWord(line, w, a);
  }

  // ----- delivery -----

  /** The replies of the server, by meaning. */
  datatype Reply =
    | Extensions | Ok | TooManyRecipients | NeedMail | NeedRcpt | StartData
    | TooLargeOrReadError | TemporaryFailure | Delivered(rcpt: string) | Bye | Unrecognized

  function Code(r: Reply): nat {
    match r
    case Extensions => 250
    case Ok => 250
    case TooManyRecipients => 452
    case NeedMail => 503
    case NeedRcpt => 503
    case StartData => 354
    case TooLargeOrReadError => 552
    case TemporaryFailure => 451
    case Delivered(_) => 250
    case Bye => 221
    case Unrecognized => 500
  }

  /** `inbound` is the configured mailbox name; `parse` stands for the MIME parser's subject and text. */
  datatype Config = Config(inbound: string, max: nat, parse: string -> (string, string))

  /** For each recipient of one DATA command: which of its four statements the database executes. */
  type Luck = nat -> (bool, bool, bool, bool)

  datatype Envelope = Envelope(from: string, rcpts: seq<string>)

  const NO_ENVELOPE := Envelope("", [])

  function MessageFor(cfg: Config, from: string, raw: string, rcpt: string, box: nat, at: int): Message {
    Message(0, box, "inbound", from, rcpt, cfg.parse(raw).0, raw, cfg.parse(raw).1, |raw|, at)
  }

  /** Stores one copy; the result is its identifier. */
  function DeliverOne(db: Db, cfg: Config, from: string, raw: string, rcpt: string, at: int, up: (bool, bool, bool, bool)): (Db, Option<nat>) {
    var (db1, pc) := Alone(db, Lmtp, rcpt, cfg.inbound, (up.0, up.1, up.2));
    if !pc.Done? || !up.3 then (db1, None)
    else CreateMessage(db1, MessageFor(cfg, from, raw, rcpt, pc.id, at))
  }

  function ReplyFor(rcpt: string, id: Option<nat>): Reply {
    if id.Some? then Delivered(rcpt) else TemporaryFailure
  }

  /** Delivers to recipient k and those after it, one after the other. */
  function DeliverFrom(db: Db, cfg: Config, from: string, raw: string, rcpts: seq<string>, k: nat, at: int, up: Luck): (Db, seq<Reply>)
    requires k <= |rcpts|
    decreases |rcpts| - k
  {
    if k == |rcpts| then (db, [])
    else
      var (db1, id) := DeliverOne(db, cfg, from, raw, rcpts[k], at, up(k));
      var (db2, replies) := DeliverFrom(db1, cfg, from, raw, rcpts, k + 1, at, up);
      (db2, [ReplyFor(rcpts[k], id)] + replies)
  }

  // ----- one command -----

  /** What the rest of a DATA command depends on: the bytes that follow, the clock and the database. */
  datatype Input = Input(following: string, at: int, up: Luck)

  datatype Outcome = Outcome(env: Envelope, db: Db, replies: seq<Reply>, rest: string, open: bool)

  function Repeat(r: Reply, n: nat): (s: seq<Reply>)
    ensures |s| == n && forall i :: 0 <= i < n ==> s[i] == r
  {
    if n == 0 then [] else [r] + Repeat(r, n - 1)
  }

  function Handle(cfg: Config, e: Envelope, db: Db, c: Command, i: Input): Outcome {
    match c
    case Lhlo => Outcome(e, db, [Extensions], i.following, true)
    case Mail(arg) => Outcome(Envelope(Angle(arg), []), db, [Ok], i.following, true)
    case Rcpt(arg) =>
      if |e.rcpts| >= MAX_RCPTS then Outcome(e, db, [TooManyRecipients], i.following, true)
      else Outcome(e.(rcpts := e.rcpts + [Angle(arg)]), db, [Ok], i.following, true)
    case Data =>
      if e.from == "" then Outcome(e, db, [NeedMail], i.following, true)
      else if e.rcpts == [] then Outcome(e, db, [NeedRcpt], i.following, true)
      else
        (match ReadFrom(i.following, "", cfg.max)
         case Body(raw, rest) =>
           var (db', replies) := DeliverFrom(db, cfg, e.from, raw, e.rcpts, 0, i.at, i.up);
           Outcome(NO_ENVELOPE, db', [StartData] + replies, rest, true)
         case TooLarge(rest) =>
           Outcome(NO_ENVELOPE, db, [StartData] + Repeat(TooLargeOrReadError, |e.rcpts|), rest, true)
         case Eof =>
           Outcome(NO_ENVELOPE, db, [StartData] + Repeat(TooLargeOrReadError, |e.rcpts|), "", true))
    case Rset => Outcome(NO_ENVELOPE, db, [Ok], i.following, true)
    case Noop => Outcome(e, db, [Ok], i.following, true)
    case Quit => Outcome(e, db, [Bye], i.following, false)
    case Other => Outcome(e, db, [Unrecognized], i.following, true)
  }

  class LmtpSession {
    var from: string
    var rcpts: seq<string>
    const archive: SQLStore
    const cfg: Config

    function Env(): Envelope
      reads this
    {
      Envelope(from, rcpts)
    }

    constructor (archive: SQLStore, cfg: Config)
      ensures Env() == NO_ENVELOPE && this.archive == archive && this.cfg == cfg
    {
      from, rcpts := "", [];
      this.archive := archive;
      this.cfg := cfg;
    }

    method Deliver(sender: string, raw: string, rcpt: string, at: int, up: (bool, bool, bool, bool)) returns (id: Option<nat>)
      modifies archive
      ensures (archive.db, id) == DeliverOne(old(archive.db), cfg, sender, raw, rcpt, at, up)
    {
      var pc := FindOrCreateMailbox(archive, Lmtp, rcpt, cfg.inbound, (up.0, up.1, up.2));
      if !pc.Done? {
        return None;
      }
      id := archive.NewMessage(MessageFor(cfg, sender, raw, rcpt, pc.id, at), up.3);
    }

    method DeliverToAll(sender: string, raw: string, to: seq<string>, at: int, up: Luck) returns (replies: seq<Reply>)
      modifies archive
      ensures (archive.db, replies) == DeliverFrom(old(archive.db), cfg, sender, raw, to, 0, at, up)
    {
      replies := [];
      ghost var all := DeliverFrom(archive.db, cfg, sender, raw, to, 0, at, up).1;
      assert [] + all == all;
      var k := 0;
      while k < |to|
        invariant k <= |to|
        invariant var (db, rest) := DeliverFrom(archive.db, cfg, sender, raw, to, k, at, up);
          DeliverFrom(old(archive.db), cfg, sender, raw, to, 0, at, up) == (db, replies + rest)
      {
        ghost var before := archive.db;
        ghost var more := DeliverFrom(before, cfg, sender, raw, to, k, at, up).1;
        var id := Deliver(sender, raw, to[k], at, up(k));
        ghost var rest := DeliverFrom(archive.db, cfg, sender, raw, to, k + 1, at, up).1;
        Assoc(replies, [ReplyFor(to[k], id)], rest);
        replies := replies + [ReplyFor(to[k], id)];
        k := k + 1;
      }
      assert replies + [] == replies;
    }

    /** The case of the server's loop for one command; the bytes of a DATA body are read from the connection. */
    method HandleCommand(c: Command, rw: ReadWriter, at: int, up: Luck) returns (replies: seq<Reply>, open: bool)
      modifies this, archive, rw`input
      ensures Outcome(Env(), archive.db, replies, rw.input, open)
        == Handle(cfg, old(Env()), old(archive.db), c, Input(old(rw.input), at, up))
    {
      open := true;
      match c {
        case Lhlo =>
          replies := [Extensions];
        case Mail(arg) =>
          from := Angle(arg);
          rcpts := [];
          replies := [Ok];
        case Rcpt(arg) =>
          if |rcpts| >= MAX_RCPTS {
            replies := [TooManyRecipients];
          } else {
            rcpts := rcpts + [Angle(arg)];
            replies := [Ok];
          }
        case Data =>
          if from == "" {
            replies := [NeedMail];
          } else if |rcpts| == 0 {
            replies := [NeedRcpt];
          } else {
            var r := ReadLmtpDotData(rw, cfg.max);
            var sender, to := from, rcpts;
            from, rcpts := "", [];
            if r.Body? {
              replies := DeliverToAll(sender, r.raw, to, at, up);
            } else {
              replies := Repeat(TooLargeOrReadError, |to|);
            }
            replies := [StartData] + replies;
          }
        case Rset =>
          from, rcpts := "", [];
          replies := [Ok];
        case Noop =>
          replies := [Ok];
        case Quit =>
          replies := [Bye];
          open := false;
        case Other =>
          replies := [Unrecognized];
      }
    }

    /** The server's loop: one line, one command, until QUIT or the end of the input. */
    method Serve(rw: ReadWriter, at: nat -> int, up: nat -> Luck) returns (transcript: seq<Entry>)
      modifies this, archive, rw`input
      ensures Session(Env(), archive.db, transcript) == ServeFrom(cfg, old(Env()), old(archive.db), old(rw.input), at, up, 0)
    {
      transcript := [];
      var n := 0;
      ghost var whole := ServeFrom(cfg, Env(), archive.db, rw.input, at, up, 0);
      while true
        invariant whole == ServeFrom(cfg, Env(), archive.db, rw.input, at, up, n).Prepend(transcript)
        decreases |rw.input|
      {
        ghost var before := rw.input;
        var line, ok := rw.ReadLine();
        if !ok {
          assert transcript + [] == transcript;
          return;
        }
        var c := CommandOf(TrimEol(line));
        HandleShrinks(cfg, Env(), archive.db, c, Input(rw.input, at(n), up(n)));
        ghost var o := Handle(cfg, Env(), archive.db, c, Input(rw.input, at(n), up(n)));
        var replies, open := HandleCommand(c, rw, at(n), up(n));
        ghost var tail := if open then ServeFrom(cfg, Env(), archive.db, rw.input, at, up, n + 1) else Session(Env(), archive.db, []);
        Assoc(transcript, [Entry(c, replies)], tail.transcript);
        transcript := transcript + [Entry(c, replies)];
        n := n + 1;
        if !open {
          assert transcript + [] == transcript;
          return;
        }
      }
    }
  }

  // ----- whole sessions -----

  datatype Entry = Entry(cmd: Command, replies: seq<Reply>)

  datatype Session = Session(env: Envelope, db: Db, transcript: seq<Entry>) {
    function Prepend(t: seq<Entry>): Session {
      Session(env, db, t + transcript)
    }
  }

  lemma {:induction false} ReadShrinks(s: string, buf: string, max: nat)
    ensures var r := ReadFrom(s, buf, max); !r.Eof? ==> |r.rest| < |s|
    decreases |s|
  {
    if !NoLf(s) {
      ReadShrinks(s[|NextLine(s)|..], buf + Unstuff(NextLine(s)), max);
    }
  }

  lemma HandleShrinks(cfg: Config, e: Envelope, db: Db, c: Command, i: Input)
    ensures |Handle(cfg, e, db, c, i).rest| <= |i.following|
  {
    ReadShrinks(i.following, "", cfg.max);
  }

  function ServeFrom(cfg: Config, e: Envelope, db: Db, input: string, at: nat -> int, up: nat -> Luck, n: nat): Session
    decreases |input|
  {
    if NoLf(input) then Session(e, db, [])
    else
      var line := NextLine(input);
      var c := CommandOf(TrimEol(line));
      var i := Input(input[|line|..], at(n), up(n));
      HandleShrinks(cfg, e, db, c, i);
      var o := Handle(cfg, e, db, c, i);
      (if o.open then ServeFrom(cfg, o.env, o.db, o.rest, at, up, n + 1) else Session(o.env, o.db, [])).Prepend([Entry(c, o.replies)])
  }

  // ----- the envelope is what the client said -----

  /** Commands after which a new transaction begins: MAIL, RSET, and a DATA whose body was read. */
  predicate Boundary(e: Entry) {
    e.cmd.Mail? || e.cmd.Rset? || (e.cmd.Data? && StartData in e.replies)
  }

  /** Where the current transaction begins: after the last boundary. */
  function Since(h: seq<Entry>): (k: nat)
    ensures k <= |h|
    ensures k > 0 ==> Boundary(h[k - 1])
    ensures forall i :: k <= i < |h| ==> !Boundary(h[i])
  {
    if h == [] then 0
    else if Boundary(h[|h| - 1]) then |h|
    else Since(h[..|h| - 1])
  }

  /** The addresses of the RCPT commands of a history, in order. */
  function RcptAddresses(h: seq<Entry>): seq<string> {
    if h == [] then []
    else
      var last := h[|h| - 1].cmd;
      RcptAddresses(h[..|h| - 1]) + if last.Rcpt? then [Angle(last.arg)] else []
  }

  function FirstRcpts(all: seq<string>): seq<string> {
    if |all| > MAX_RCPTS then all[..MAX_RCPTS] else all
  }

  /** The envelope that a history asks for. */
  function EnvelopeOf(h: seq<Entry>): Envelope {
    var k := Since(h);
    Envelope(if k > 0 && h[k - 1].cmd.Mail? then Angle(h[k - 1].cmd.arg) else "",
             FirstRcpts(RcptAddresses(h[k..])))
  }

  datatype Step = Step(cmd: Command, input: Input)

  /** A series of commands from a fresh session, with whatever follows each of them. */
  function Run(cfg: Config, db: Db, steps: seq<Step>): Session {
    if steps == [] then Session(NO_ENVELOPE, db, [])
    else
      var s := Run(cfg, db, steps[..|steps| - 1]);
      var last := steps[|steps| - 1];
      var o := Handle(cfg, s.env, s.db, last.cmd, last.input);
      Session(o.env, o.db, s.transcript + [Entry(last.cmd, o.replies)])
  }

  lemma HandleData(cfg: Config, e: Envelope, db: Db, i: Input)
    ensures StartData in Handle(cfg, e, db, Data, i).replies <==> e.from != "" && e.rcpts != []
  {
    var replies := Handle(cfg, e, db, Data, i).replies;
    if e.from != "" && e.rcpts != [] {
      assert replies[0] == StartData;
    }
  }

  lemma BoundaryEnvelope(h: seq<Entry>, e: Entry)
    requires Boundary(e)
    ensures EnvelopeOf(h + [e]) == Envelope(if e.cmd.Mail? then Angle(e.cmd.arg) else "", [])
  {
    var h' := h + [e];
    assert h'[|h'| - 1] == e && h'[|h'|..] == [];
  }

  lemma SinceSnoc(h: seq<Entry>, e: Entry)
    requires !Boundary(e)
    ensures Since(h + [e]) == Since(h)
    ensures (h + [e])[Since(h)..] == h[Since(h)..] + [e]
  {
    assert (h + [e])[..|h|] == h;
  }

  lemma RcptAddressesSnoc(h: seq<Entry>, e: Entry)
    ensures RcptAddresses(h + [e]) == RcptAddresses(h) + if e.cmd.Rcpt? then [Angle(e.cmd.arg)] else []
  {
    assert (h + [e])[..|h|] == h;
  }

  lemma EnvelopeOfSnoc(h: seq<Entry>, e: Entry)
    requires !Boundary(e)
    ensures EnvelopeOf(h + [e]) ==
      Envelope(EnvelopeOf(h).from, FirstRcpts(RcptAddresses(h[Since(h)..]) + if e.cmd.Rcpt? then [Angle(e.cmd.arg)] else []))
  {
    SinceSnoc(h, e);
    RcptAddressesSnoc(h[Since(h)..], e);
    if Since(h) > 0 {
      assert (h + [e])[Since(h) - 1] == h[Since(h) - 1];
    }
  }

  lemma SameEnvelope(h: seq<Entry>, e: Entry)
    requires !Boundary(e) && !e.cmd.Rcpt?
    ensures EnvelopeOf(h + [e]) == EnvelopeOf(h)
  {
    EnvelopeOfSnoc(h, e);
    var all := RcptAddresses(h[Since(h)..]);
    assert all + [] == all;
  }

  lemma RcptEnvelope(h: seq<Entry>, e: Entry)
    requires e.cmd.Rcpt?
    ensures EnvelopeOf(h + [e]) ==
      if |EnvelopeOf(h).rcpts| >= MAX_RCPTS then EnvelopeOf(h)
      else EnvelopeOf(h).(rcpts := EnvelopeOf(h).rcpts + [Angle(e.cmd.arg)])
  {
    EnvelopeOfSnoc(h, e);
    FirstRcptsSnoc(RcptAddresses(h[Since(h)..]), [Angle(e.cmd.arg)]);
  }

  /** One command takes the envelope of a history to that of the longer history. */
  lemma HandleEnvelope(cfg: Config, h: seq<Entry>, db: Db, c: Command, i: Input)
    ensures var o := Handle(cfg, EnvelopeOf(h), db, c, i); o.env == EnvelopeOf(h + [Entry(c, o.replies)])
  {
    var o := Handle(cfg, EnvelopeOf(h), db, c, i);
    var e := Entry(c, o.replies);
    if c.Data? {
      HandleData(cfg, EnvelopeOf(h), db, i);
    }
    if Boundary(e) {
      BoundaryEnvelope(h, e);
    } else if c.Rcpt? {
      RcptEnvelope(h, e);
    } else {
      SameEnvelope(h, e);
    }
  }

  /**
    For every command history the envelope is the one the history asks for: the
    sender of the MAIL that opened the current transaction, and the first hundred
    recipients named since.
   */
  lemma {:induction false} EnvelopeIsHistory(cfg: Config, db: Db, steps: seq<Step>)
    ensures Run(cfg, db, steps).env == EnvelopeOf(Run(cfg, db, steps).transcript)
    ensures |Run(cfg, db, steps).env.rcpts| <= MAX_RCPTS
  {
    if steps != [] {
      var init := steps[..|steps| - 1];
      var last := steps[|steps| - 1];
      EnvelopeIsHistory(cfg, db, init);
      HandleEnvelope(cfg, Run(cfg, db, init).transcript, Run(cfg, db, init).db, last.cmd, last.input);
    }
  }

  lemma RunSnoc(cfg: Config, db: Db, steps: seq<Step>, step: Step)
    ensures var s := Run(cfg, db, steps);
      var o := Handle(cfg, s.env, s.db, step.cmd, step.input);
      Run(cfg, db, steps + [step]) == Session(o.env, o.db, s.transcript + [Entry(step.cmd, o.replies)])
  {
    assert (steps + [step])[..|steps|] == steps;
  }

  /** What the server does with any byte stream is such a series of commands. */
  lemma {:induction false} ServeIsRun(cfg: Config, db: Db, steps: seq<Step>, input: string, at: nat -> int, up: nat -> Luck, n: nat)
    returns (all: seq<Step>)
    ensures var s := Run(cfg, db, steps);
      Run(cfg, db, all) == ServeFrom(cfg, s.env, s.db, input, at, up, n).Prepend(s.transcript)
    decreases |input|
  {
    var s := Run(cfg, db, steps);
    if NoLf(input) {
      all := steps;
      assert s.transcript + [] == s.transcript;
    } else {
      var line := NextLine(input);
      var step := Step.Step(CommandOf(TrimEol(line)), Input(input[|line|..], at(n), up(n)));
      HandleShrinks(cfg, s.env, s.db, step.cmd, step.input);
      RunSnoc(cfg, db, steps, step);
      var o := Handle(cfg, s.env, s.db, step.cmd, step.input);
      var tail := if o.open then ServeFrom(cfg, o.env, o.db, o.rest, at, up, n + 1) else Session(o.env, o.db, []);
      Assoc(s.transcript, [Entry(step.cmd, o.replies)], tail.transcript);
      if o.open {
        all := ServeIsRun(cfg, db, steps + [step], o.rest, at, up, n + 1);
      } else {
        all := steps + [step];
        assert s.transcript + [Entry(step.cmd, o.replies)] + [] == s.transcript + [Entry(step.cmd, o.replies)];
      }
    }
  }

  /** At the end of any byte stream the envelope is the one that the commands in it ask for. */
  lemma ServedEnvelopeIsHistory(cfg: Config, db: Db, input: string, at: nat -> int, up: nat -> Luck)
    ensures var t := ServeFrom(cfg, NO_ENVELOPE, db, input, at, up, 0);
      t.env == EnvelopeOf(t.transcript) && |t.env.rcpts| <= MAX_RCPTS
  {
    var all := ServeIsRun(cfg, db, [], input, at, up, 0);
    var t := ServeFrom(cfg, NO_ENVELOPE, db, input, at, up, 0);
    assert [] + t.transcript == t.transcript;
    EnvelopeIsHistory(cfg, db, all);
  }

  lemma FirstRcptsSnoc(all: seq<string>, more: seq<string>)
    requires |more| <= 1
    ensures FirstRcpts(all + more) == (if |FirstRcpts(all)| >= MAX_RCPTS then FirstRcpts(all) else FirstRcpts(all) + more)
  {
    if |all| >= MAX_RCPTS {
      assert (all + more)[..MAX_RCPTS] == all[..MAX_RCPTS];
    }
  }

  /**
    When DATA is accepted, in terms of what the client has sent: exactly if the current
    transaction was opened by a MAIL with a non-empty address and has named a
    recipient.  In particular the empty sender of `MAIL FROM:<>` is refused.
   */
  lemma {:induction false} DataAcceptedIff(cfg: Config, db: Db, steps: seq<Step>, i: Input)
    ensures var s := Run(cfg, db, steps);
      var h := s.transcript;
      var k := Since(h);
      StartData in Handle(cfg, s.env, s.db, Data, i).replies
      <==> k > 0 && h[k - 1].cmd.Mail? && Angle(h[k - 1].cmd.arg) != "" && RcptAddresses(h[k..]) != []
    ensures var s := Run(cfg, db, steps);
      var o := Handle(cfg, s.env, s.db, Data, i);
      StartData !in o.replies ==>
        o.db == s.db && o.rest == i.following && o.env == s.env
        && o.replies == [if s.env.from == "" then NeedMail else NeedRcpt]
  {
    EnvelopeIsHistory(cfg, db, steps);
    var s := Run(cfg, db, steps);
    HandleData(cfg, s.env, s.db, i);
    var all := RcptAddresses(s.transcript[Since(s.transcript)..]);
    assert FirstRcpts(all) == [] <==> all == [];
  }

  lemma EmptyBrackets(arg: string, k: nat)
    requires |arg| == k + 2 && arg[k] == '<' && arg[k + 1] == '>' && '<' !in arg[..k]
    ensures Angle(arg) == ""
  {
    IndexOfIs(arg, '<', k);
    AfterLastIs(arg, '>', k + 2);
    assert arg[k + 1..k + 1] == "";
  }

  lemma MailVerb(w: string)
    requires w == "MAIL"
    ensures ' ' !in w && Verb(w) == "MAIL"
  {
    assert TrimLeft(w) == w && TrimRight(w) == w;
    assert ToUpper(w) == w;
  }

  lemma NullPath(arg: string)
    requires arg == "FROM:<>"
    ensures Angle(arg) == ""
  {
    assert forall i :: 0 <= i < 5 ==> arg[..5][i] != '<';
    EmptyBrackets(arg, 5);
  }

  /** The null reverse-path of a bounce: the line that carries it names the empty sender. */
  lemma NullSender(line: string)
    requires line == "MAIL FROM:<>"
    ensures CommandOf(line) == Mail(line[5..]) && Angle(line[5..]) == ""
  {
    assert line == line[..4] + " " + line[5..] && line[..4] == "MAIL" && line[5..] == "FROM:<>";
    MailVerb(line[..4]);
    LineIs(line, line[..4], line[5..]);
    NullPath(line[5..]);
  }

  /** After a MAIL with an empty address, whatever recipients follow, DATA is answered 503 and nothing is read or stored. */
  lemma {:induction false} EmptySenderRefused(cfg: Config, db: Db, steps: seq<Step>, i: Input)
    requires var h := Run(cfg, db, steps).transcript;
      Since(h) > 0 && h[Since(h) - 1].cmd.Mail? && Angle(h[Since(h) - 1].cmd.arg) == ""
    ensures var s := Run(cfg, db, steps);
      var o := Handle(cfg, s.env, s.db, Data, i);
      o.replies == [NeedMail] && Code(o.replies[0]) == 503 && o.db == s.db && o.rest == i.following
  {
    EnvelopeIsHistory(cfg, db, steps);
  }

  // ----- one reply per recipient -----

  function Count(replies: seq<Reply>): nat {
    if replies == [] then 0 else (if replies[0].Delivered? then 1 else 0) + Count(replies[1..])
  }

  /** The mailbox belongs to the recipient and has the inbound name. */
  ghost predicate InboxOf(db: Db, cfg: Config, box: nat, rcpt: string) {
    exists b :: b in db.boxes && b.id == box && Wanted(b, Normal(rcpt), cfg.inbound)
  }

  /** A stored copy of the message for one recipient. */
  ghost predicate CopyFor(db: Db, cfg: Config, m: Message, from: string, raw: string, rcpt: string, at: int) {
    && m.raw == raw && m.size == |raw| && m.from == TrimSpace(from) && m.to == TrimSpace(rcpt)
    && m.direction == "inbound" && m.receivedAt == at
    && m.subject == TrimSpace(cfg.parse(raw).0) && m.text == cfg.parse(raw).1
    && (TrimSpace(rcpt) != "" ==> InboxOf(db, cfg, m.mailbox, rcpt))
  }

  lemma DeliverOneIs(db: Db, cfg: Config, from: string, raw: string, rcpt: string, at: int, up: (bool, bool, bool, bool))
    requires ValidDb(db) && TrimSpace(cfg.inbound) == cfg.inbound
    ensures var (db', id) := DeliverOne(db, cfg, from, raw, rcpt, at, up);
      && ValidDb(db') && Grows(db, db')
      && (id.None? ==> db'.messages == db.messages)
      && (id.Some? ==> id.value !in db.messages && db'.messages.Keys == db.messages.Keys + {id.value}
                       && CopyFor(db', cfg, db'.messages[id.value], from, raw, rcpt, at))
  {
    AloneGrows(db, Lmtp, rcpt, cfg.inbound, (up.0, up.1, up.2));
    var (db1, pc) := Alone(db, Lmtp, rcpt, cfg.inbound, (up.0, up.1, up.2));
    if pc.Done? && up.3 {
      var m := MessageFor(cfg, from, raw, rcpt, pc.id, at);
      CreateMessageValid(db1, m);
      InboundNormal();
      if TrimSpace(rcpt) != "" {
        AloneFinds(db, Lmtp, rcpt, cfg.inbound, (up.0, up.1, up.2));
      }
      CreateCopy(db1, cfg, m, from, raw, rcpt, at);
      GrowsTransitive(db, db1, CreateMessage(db1, m).0);
    }
  }

  lemma CreateCopy(db: Db, cfg: Config, m: Message, from: string, raw: string, rcpt: string, at: int)
    requires ValidDb(db) && m == MessageFor(cfg, from, raw, rcpt, m.mailbox, at)
    requires TrimSpace(rcpt) != "" ==> InboxOf(db, cfg, m.mailbox, rcpt)
    ensures var (db', id) := CreateMessage(db, m);
      && Grows(db, db')
      && (id.None? ==> db'.messages == db.messages)
      && (id.Some? ==> id.value !in db.messages && db'.messages.Keys == db.messages.Keys + {id.value}
                       && CopyFor(db', cfg, db'.messages[id.value], from, raw, rcpt, at))
  {
    InboundNormal();
    var (db', id) := CreateMessage(db, m);
    assert db'.boxes == db.boxes;
    if id.Some? && TrimSpace(rcpt) != "" {
      var b :| b in db.boxes && b.id == m.mailbox && Wanted(b, Normal(rcpt), cfg.inbound);
      assert b in db'.boxes;
    }
  }

  lemma InboundNormal()
    ensures Normal("inbound") == "inbound"
  {
    assert TrimLeft("inbound") == "inbound" && TrimRight("inbound") == "inbound";
    assert ToLower("inbound") == "inbound";
  }

  lemma CopyKept(db: Db, db': Db, cfg: Config, id: nat, from: string, raw: string, rcpt: string, at: int)
    requires Grows(db, db') && id in db.messages && CopyFor(db, cfg, db.messages[id], from, raw, rcpt, at)
    ensures id in db'.messages && CopyFor(db', cfg, db'.messages[id], from, raw, rcpt, at)
  {
    if TrimSpace(rcpt) != "" {
      var b :| b in db.boxes && b.id == db.messages[id].mailbox && Wanted(b, Normal(rcpt), cfg.inbound);
      assert b in db'.boxes;
    }
  }

  /** A copy for recipient i, not there before the delivery, is stored exactly when the reply is 250. */
  ghost predicate Acknowledged(before: Db, db: Db, cfg: Config, from: string, raw: string, rcpt: string, at: int, r: Reply) {
    && (r == Delivered(rcpt) || r == TemporaryFailure)
    && (Code(r) == 250 ==> exists id :: IsNewCopy(before, db, id, cfg, from, raw, rcpt, at))
  }

  /** What one delivery does to the tables, and what the later ones do after it. */
  lemma OneThenRest(db: Db, db1: Db, db2: Db, id: Option<nat>, n: nat)
    requires Grows(db, db1) && Grows(db1, db2) && |db2.messages| == |db1.messages| + n
    requires id.None? ==> db1.messages == db.messages
    requires id.Some? ==> id.value !in db.messages && db1.messages.Keys == db.messages.Keys + {id.value}
    ensures Grows(db, db2)
    ensures |db2.messages| == |db.messages| + n + if id.Some? then 1 else 0
  {
    GrowsTransitive(db, db1, db2);
    KeyCount(db.messages, db1.messages, id);
  }

  lemma CountCons(r: Reply, replies: seq<Reply>)
    ensures Count([r] + replies) == Count(replies) + if r.Delivered? then 1 else 0
  {
    assert ([r] + replies)[1..] == replies;
  }

  lemma {:induction false} DeliverCounts(db: Db, cfg: Config, from: string, raw: string, rcpts: seq<string>, k: nat, at: int, up: Luck)
    requires ValidDb(db) && TrimSpace(cfg.inbound) == cfg.inbound && k <= |rcpts|
    ensures var (db', replies) := DeliverFrom(db, cfg, from, raw, rcpts, k, at, up);
      && ValidDb(db') && Grows(db, db')
      && |replies| == |rcpts| - k
      && |db'.messages| == |db.messages| + Count(replies)
    decreases |rcpts| - k
  {
    if k < |rcpts| {
      var rcpt, luck := rcpts[k], up(k);
      DeliverOneIs(db, cfg, from, raw, rcpt, at, luck);
      var (db1, id) := DeliverOne(db, cfg, from, raw, rcpt, at, luck);
      DeliverCounts(db1, cfg, from, raw, rcpts, k + 1, at, up);
      var (db2, replies) := DeliverFrom(db1, cfg, from, raw, rcpts, k + 1, at, up);
      OneThenRest(db, db1, db2, id, Count(replies));
      CountCons(ReplyFor(rcpt, id), replies);
    }
  }

  lemma DeliverOneGrows(db: Db, cfg: Config, from: string, raw: string, rcpt: string, at: int, up: (bool, bool, bool, bool))
    requires ValidDb(db) && TrimSpace(cfg.inbound) == cfg.inbound
    ensures var db' := DeliverOne(db, cfg, from, raw, rcpt, at, up).0; ValidDb(db') && Grows(db, db')
  {
    DeliverOneIs(db, cfg, from, raw, rcpt, at, up);
  }

  /** One delivery, by what it does to the tables. */
  ghost predicate Delivery(db: Db, db': Db, id: Option<nat>, cfg: Config, from: string, raw: string, rcpt: string, at: int) {
    && Grows(db, db')
    && (id.Some? ==> id.value in db'.messages && id.value !in db.messages && CopyFor(db', cfg, db'.messages[id.value], from, raw, rcpt, at))
  }

  function Answers(rcpts: seq<string>, k: nat, ids: seq<Option<nat>>): (replies: seq<Reply>)
    requires k + |ids| <= |rcpts|
    ensures |replies| == |ids| && forall n :: 0 <= n < |ids| ==> replies[n] == ReplyFor(rcpts[k + n], ids[n])
  {
    seq(|ids|, n requires 0 <= n < |ids| => ReplyFor(rcpts[k + n], ids[n]))
  }

  lemma AnswersCons(rcpts: seq<string>, k: nat, id: Option<nat>, ids: seq<Option<nat>>)
    requires k + 1 + |ids| <= |rcpts|
    ensures Answers(rcpts, k, [id] + ids) == [ReplyFor(rcpts[k], id)] + Answers(rcpts, k + 1, ids)
  {
  }

  ghost predicate DeliveredAll(dbs: seq<Db>, ids: seq<Option<nat>>, cfg: Config, from: string, raw: string, rcpts: seq<string>, k: nat, at: int)
    requires k + |ids| <= |rcpts| && |dbs| == |ids| + 1
  {
    forall n :: 0 <= n < |ids| ==> Delivery(dbs[n], dbs[n + 1], ids[n], cfg, from, raw, rcpts[k + n], at)
  }

  lemma DeliveriesCons(
    db: Db, id: Option<nat>, dbs: seq<Db>, ids: seq<Option<nat>>, cfg: Config, from: string, raw: string, rcpts: seq<string>, k: nat, at: int)
    requires k + 1 + |ids| <= |rcpts| && |dbs| == |ids| + 1
    requires Delivery(db, dbs[0], id, cfg, from, raw, rcpts[k], at) && DeliveredAll(dbs, ids, cfg, from, raw, rcpts, k + 1, at)
    ensures DeliveredAll([db] + dbs, [id] + ids, cfg, from, raw, rcpts, k, at)
  {
    forall n | 0 <= n < |ids| + 1 ensures Delivery(([db] + dbs)[n], ([db] + dbs)[n + 1], ([id] + ids)[n], cfg, from, raw, rcpts[k + n], at) {
      if n > 0 {
        assert Delivery(dbs[n - 1], dbs[n], ids[n - 1], cfg, from, raw, rcpts[k + 1 + (n - 1)], at);
      }
    }
  }

  lemma DeliveryIs(db: Db, cfg: Config, from: string, raw: string, rcpt: string, at: int, up: (bool, bool, bool, bool))
    requires ValidDb(db) && TrimSpace(cfg.inbound) == cfg.inbound
    ensures var (db', id) := DeliverOne(db, cfg, from, raw, rcpt, at, up);
      ValidDb(db') && Delivery(db, db', id, cfg, from, raw, rcpt, at)
  {
    DeliverOneIs(db, cfg, from, raw, rcpt, at, up);
  }

  /** The archives that the loop goes through, and the identifiers it gets. */
  datatype Track = Track(dbs: seq<Db>, ids: seq<Option<nat>>)

  function TrackFrom(db: Db, cfg: Config, from: string, raw: string, rcpts: seq<string>, k: nat, at: int, up: Luck): (t: Track)
    requires k <= |rcpts|
    ensures |t.ids| == |rcpts| - k && |t.dbs| == |t.ids| + 1 && t.dbs[0] == db
    decreases |rcpts| - k
  {
    if k == |rcpts| then Track([db], [])
    else
      var (db1, id) := DeliverOne(db, cfg, from, raw, rcpts[k], at, up(k));
      var t := TrackFrom(db1, cfg, from, raw, rcpts, k + 1, at, up);
      Track([db] + t.dbs, [id] + t.ids)
  }

  /** The loop's result is the end of the track and the answers to its identifiers. */
  lemma {:induction false} TrackEnds(db: Db, cfg: Config, from: string, raw: string, rcpts: seq<string>, k: nat, at: int, up: Luck)
    requires k <= |rcpts|
    ensures var t := TrackFrom(db, cfg, from, raw, rcpts, k, at, up);
      DeliverFrom(db, cfg, from, raw, rcpts, k, at, up) == (t.dbs[|t.ids|], Answers(rcpts, k, t.ids))
    decreases |rcpts| - k
  {
    if k < |rcpts| {
      var (db1, id) := DeliverOne(db, cfg, from, raw, rcpts[k], at, up(k));
      TrackEnds(db1, cfg, from, raw, rcpts, k + 1, at, up);
      AnswersCons(rcpts, k, id, TrackFrom(db1, cfg, from, raw, rcpts, k + 1, at, up).ids);
    }
  }

  /** Every step of the track is a delivery. */
  lemma {:induction false} TrackDelivers(db: Db, cfg: Config, from: string, raw: string, rcpts: seq<string>, k: nat, at: int, up: Luck)
    requires ValidDb(db) && TrimSpace(cfg.inbound) == cfg.inbound && k <= |rcpts|
    ensures var t := TrackFrom(db, cfg, from, raw, rcpts, k, at, up);
      DeliveredAll(t.dbs, t.ids, cfg, from, raw, rcpts, k, at)
    decreases |rcpts| - k
  {
    if k < |rcpts| {
      DeliveryIs(db, cfg, from, raw, rcpts[k], at, up(k));
      var (db1, id) := DeliverOne(db, cfg, from, raw, rcpts[k], at, up(k));
      TrackDelivers(db1, cfg, from, raw, rcpts, k + 1, at, up);
      var t := TrackFrom(db1, cfg, from, raw, rcpts, k + 1, at, up);
      DeliveriesCons(db, id, t.dbs, t.ids, cfg, from, raw, rcpts, k, at);
    }
  }

  lemma {:induction false} GrowsAlong(
    dbs: seq<Db>, ids: seq<Option<nat>>, cfg: Config, from: string, raw: string, rcpts: seq<string>, k: nat, at: int, a: nat, b: nat)
    requires k + |ids| <= |rcpts| && |dbs| == |ids| + 1 && DeliveredAll(dbs, ids, cfg, from, raw, rcpts, k, at)
    requires a <= b < |dbs|
    ensures Grows(dbs[a], dbs[b])
    decreases b - a
  {
    if a < b {
      assert Delivery(dbs[a], dbs[a + 1], ids[a], cfg, from, raw, rcpts[k + a], at);
      GrowsAlong(dbs, ids, cfg, from, raw, rcpts, k, at, a + 1, b);
      GrowsTransitive(dbs[a], dbs[a + 1], dbs[b]);
    }
  }

  /** A record that the deliveries have added, with a copy for the recipient. */
  ghost predicate IsNewCopy(before: Db, db: Db, id: nat, cfg: Config, from: string, raw: string, rcpt: string, at: int) {
    id in db.messages && id !in before.messages && CopyFor(db, cfg, db.messages[id], from, raw, rcpt, at)
  }

  lemma CopyLasts(before: Db, db: Db, db': Db, after: Db, id: nat, cfg: Config, from: string, raw: string, rcpt: string, at: int)
    requires Grows(before, db) && Delivery(db, db', Some(id), cfg, from, raw, rcpt, at) && Grows(db', after)
    ensures IsNewCopy(before, after, id, cfg, from, raw, rcpt, at)
  {
    CopyKept(db', after, cfg, id, from, raw, rcpt, at);
  }

  lemma AcknowledgedAt(
    dbs: seq<Db>, ids: seq<Option<nat>>, cfg: Config, from: string, raw: string, rcpts: seq<string>, at: int, i: nat)
    requires |ids| == |rcpts| && |dbs| == |ids| + 1 && i < |ids| && DeliveredAll(dbs, ids, cfg, from, raw, rcpts, 0, at)
    ensures Acknowledged(dbs[0], dbs[|ids|], cfg, from, raw, rcpts[i], at, Answers(rcpts, 0, ids)[i])
  {
    if ids[i].Some? {
      assert Delivery(dbs[i], dbs[i + 1], ids[i], cfg, from, raw, rcpts[0 + i], at);
      GrowsAlong(dbs, ids, cfg, from, raw, rcpts, 0, at, 0, i);
      GrowsAlong(dbs, ids, cfg, from, raw, rcpts, 0, at, i + 1, |ids|);
      CopyLasts(dbs[0], dbs[i], dbs[i + 1], dbs[|ids|], ids[i].value, cfg, from, raw, rcpts[i], at);
    }
  }

  lemma KeyCount(a: map<nat, Message>, b: map<nat, Message>, id: Option<nat>)
    requires id.None? ==> b == a
    requires id.Some? ==> id.value !in a && b.Keys == a.Keys + {id.value}
    ensures |b| == |a| + if id.Some? then 1 else 0
  {
    assert |a.Keys| == |a| && |b.Keys| == |b|;
  }

  /**
    A DATA answers 354 and then once for each recipient, and the number of 250 replies
    is the number of new records.
   */
  lemma {:induction false} DataRepliesPerRecipient(cfg: Config, e: Envelope, db: Db, i: Input)
    requires ValidDb(db) && TrimSpace(cfg.inbound) == cfg.inbound && e.from != "" && e.rcpts != []
    ensures var o := Handle(cfg, e, db, Data, i);
      && |o.replies| == 1 + |e.rcpts| && o.replies[0] == StartData
      && ValidDb(o.db) && Grows(db, o.db)
      && |o.db.messages| == |db.messages| + Count(o.replies[1..])
      && o.env == NO_ENVELOPE
  {
    match ReadFrom(i.following, "", cfg.max)
    case Body(raw, rest) =>
      DeliverCounts(db, cfg, e.from, raw, e.rcpts, 0, i.at, i.up);
      var (db', replies) := DeliverFrom(db, cfg, e.from, raw, e.rcpts, 0, i.at, i.up);
      assert ([StartData] + replies)[1..] == replies;
    case TooLarge(rest) =>
      NoneDelivered(|e.rcpts|);
    case Eof =>
      NoneDelivered(|e.rcpts|);
  }

  /**
    The replies come in the order of the recipients, and behind each 250 is a new copy
    addressed to that recipient.  A body that is too large or cut off stores nothing.
   */
  lemma {:induction false} DataAcknowledges(cfg: Config, e: Envelope, db: Db, i: Input, k: nat)
    requires ValidDb(db) && TrimSpace(cfg.inbound) == cfg.inbound && e.from != "" && k < |e.rcpts|
    ensures var o := Handle(cfg, e, db, Data, i);
      var r := ReadFrom(i.following, "", cfg.max);
      |o.replies| == 1 + |e.rcpts| &&
      if r.Body? then Acknowledged(db, o.db, cfg, e.from, r.raw, e.rcpts[k], i.at, o.replies[1 + k])
      else o.replies[1 + k] == TooLargeOrReadError && o.db == db
  {
    var r := ReadFrom(i.following, "", cfg.max);
    if r.Body? {
      BodyAcknowledged(cfg, e, db, r.raw, i.at, i.up, k);
      BodyOutcome(cfg, e, db, i);
    } else {
      NoBodyOutcome(cfg, e, db, i);
    }
  }

  lemma {:induction false} BodyOutcome(cfg: Config, e: Envelope, db: Db, i: Input)
    requires e.from != "" && e.rcpts != [] && ReadFrom(i.following, "", cfg.max).Body?
    ensures var o := Handle(cfg, e, db, Data, i);
      var (db', replies) := DeliverFrom(db, cfg, e.from, ReadFrom(i.following, "", cfg.max).raw, e.rcpts, 0, i.at, i.up);
      o.db == db' && o.replies == [StartData] + replies
  {
  }

  lemma {:induction false} NoBodyOutcome(cfg: Config, e: Envelope, db: Db, i: Input)
    requires e.from != "" && e.rcpts != [] && !ReadFrom(i.following, "", cfg.max).Body?
    ensures var o := Handle(cfg, e, db, Data, i);
      o.db == db && o.replies == [StartData] + Repeat(TooLargeOrReadError, |e.rcpts|)
  {
  }

  lemma {:induction false} BodyAcknowledged(cfg: Config, e: Envelope, db: Db, raw: string, at: int, up: Luck, k: nat)
    requires ValidDb(db) && TrimSpace(cfg.inbound) == cfg.inbound && k < |e.rcpts|
    ensures var (db', replies) := DeliverFrom(db, cfg, e.from, raw, e.rcpts, 0, at, up);
      |replies| == |e.rcpts| && Acknowledged(db, db', cfg, e.from, raw, e.rcpts[k], at, replies[k])
  {
    TrackEnds(db, cfg, e.from, raw, e.rcpts, 0, at, up);
    TrackDelivers(db, cfg, e.from, raw, e.rcpts, 0, at, up);
    var t := TrackFrom(db, cfg, e.from, raw, e.rcpts, 0, at, up);
    AcknowledgedAt(t.dbs, t.ids, cfg, e.from, raw, e.rcpts, at, k);
  }

  lemma {:induction false} NoneDelivered(n: nat)
    ensures Count(Repeat(TooLargeOrReadError, n)) == 0
    ensures ([StartData] + Repeat(TooLargeOrReadError, n))[1..] == Repeat(TooLargeOrReadError, n)
  {
    if n > 0 {
      NoneDelivered(n - 1);
      assert Repeat(TooLargeOrReadError, n)[1..] == Repeat(TooLargeOrReadError, n - 1);
    }
  }

  // ----- over whole sessions -----

  /** All 250 delivery replies of a history. */
  function Deliveries(h: seq<Entry>): nat {
    if h == [] then 0 else Deliveries(h[..|h| - 1]) + Count(h[|h| - 1].replies)
  }

  lemma HandleCounts(cfg: Config, e: Envelope, db: Db, c: Command, i: Input)
    requires ValidDb(db) && TrimSpace(cfg.inbound) == cfg.inbound
    ensures var o := Handle(cfg, e, db, c, i);
      ValidDb(o.db) && Grows(db, o.db) && |o.db.messages| == |db.messages| + Count(o.replies)
  {
    if c.Data? && e.from != "" && e.rcpts != [] {
      DataRepliesPerRecipient(cfg, e, db, i);
    } else {
      assert Handle(cfg, e, db, c, i).db == db;
    }
  }

  /**
    Over a whole session nothing stored before is lost or changed, and as many records
    are added as the session acknowledged deliveries.
   */
  lemma {:induction false} SessionCounts(cfg: Config, db: Db, steps: seq<Step>)
    requires ValidDb(db) && TrimSpace(cfg.inbound) == cfg.inbound
    ensures var s := Run(cfg, db, steps);
      ValidDb(s.db) && Grows(db, s.db) && |s.db.messages| == |db.messages| + Deliveries(s.transcript)
  {
    if steps != [] {
      var init, last := steps[..|steps| - 1], steps[|steps| - 1];
      var s := Run(cfg, db, init);
      SessionCounts(cfg, db, init);
      HandleCounts(cfg, s.env, s.db, last.cmd, last.input);
      var o := Handle(cfg, s.env, s.db, last.cmd, last.input);
      GrowsTransitive(db, s.db, o.db);
      assert (s.transcript + [Entry(last.cmd, o.replies)])[..|s.transcript|] == s.transcript;
    }
  }

  // ----- with a working database -----

  lemma HealthyDelivery(db: Db, cfg: Config, from: string, raw: string, rcpt: string, at: int)
    requires ValidDb(db) && TrimSpace(cfg.inbound) == cfg.inbound
    ensures DeliverOne(db, cfg, from, raw, rcpt, at, (true, true, true, true)).1.Some?
  {
    HealthyLookup(db, Lmtp, rcpt, cfg.inbound);
  }

  lemma {:induction false} HealthyDeliveries(db: Db, cfg: Config, from: string, raw: string, rcpts: seq<string>, k: nat, at: int, up: Luck)
    requires ValidDb(db) && TrimSpace(cfg.inbound) == cfg.inbound && k <= |rcpts|
    requires forall n :: up(n) == (true, true, true, true)
    ensures DeliverFrom(db, cfg, from, raw, rcpts, k, at, up).1 == AllDelivered(rcpts[k..])
    decreases |rcpts| - k
  {
    if k < |rcpts| {
      HealthyDelivery(db, cfg, from, raw, rcpts[k], at);
      DeliverOneGrows(db, cfg, from, raw, rcpts[k], at, up(k));
      HealthyDeliveries(DeliverOne(db, cfg, from, raw, rcpts[k], at, up(k)).0, cfg, from, raw, rcpts, k + 1, at, up);
      assert rcpts[k..][1..] == rcpts[k + 1..];
    }
  }

  function AllDelivered(rcpts: seq<string>): seq<Reply> {
    if rcpts == [] then [] else [Delivered(rcpts[0])] + AllDelivered(rcpts[1..])
  }

  /** If the database executes every statement, a body that is read is delivered to every recipient. */
  lemma HealthyDataServesAll(cfg: Config, e: Envelope, db: Db, i: Input)
    requires ValidDb(db) && TrimSpace(cfg.inbound) == cfg.inbound && e.from != "" && e.rcpts != []
    requires forall n :: i.up(n) == (true, true, true, true)
    ensures ReadFrom(i.following, "", cfg.max).Body? ==>
      Handle(cfg, e, db, Data, i).replies == [StartData] + AllDelivered(e.rcpts)
  {
    match ReadFrom(i.following, "", cfg.max)
    case Body(raw, rest) =>
      HealthyDeliveries(db, cfg, e.from, raw, e.rcpts, 0, i.at, i.up);
      assert e.rcpts[0..] == e.rcpts;
    case TooLarge(rest) =>
    case Eof =>
  }
}
