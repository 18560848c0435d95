/**
  What the LMTP server makes of the bytes it is sent: line by line, in terms of the
  words on the line.
 */
module LmtpLines {
  import opened Text
  import opened DotData
  import opened Archive
  import opened LmtpServer

  /** The reply codes of one command. */
  function Codes(replies: seq<Reply>): (codes: seq<nat>)
    ensures |codes| == |replies| && forall i :: 0 <= i < |replies| ==> codes[i] == Code(replies[i])
  {
    seq(|replies|, i requires 0 <= i < |replies| => Code(replies[i]))
  }

  function Times(code: nat, n: nat): (codes: seq<nat>)
    ensures |codes| == n && forall i :: 0 <= i < n ==> codes[i] == code
  {
    seq(n, i => code)
  }

  // ----- one line -----

  /** What the server does with the next line of a stream that has one. */
  function Turn(cfg: Config, e: Envelope, db: Db, input: string, at: int, up: Luck): Outcome
    requires !NoLf(input)
  {
    Handle(cfg, e, db, CommandOf(TrimEol(NextLine(input))), Input(input[|NextLine(input)|..], at, up))
  }

  /** The stream begins with a line whose text is a word, or a word, a space and an argument. */
  predicate Begins(input: string, line: string, eol: string, following: string, w: string, a: string) {
    IsLineText(line) && IsEol(eol) && Reads(line, w, a) && input == (line + eol) + following
  }

  /** Every stream with a line begins in such a way, so the laws below leave no line out. */
  lemma EveryStreamBegins(input: string) returns (line: string, eol: string, following: string, w: string, a: string)
    requires !NoLf(input)
    ensures Begins(input, line, eol, following, w, a)
  {
    var l := NextLine(input);
    LineSplits(l);
    line := TrimEol(l);
    eol, following := l[|line|..], input[|l|..];
    w, a := WordOf(line), RestOf(line);
    EveryLineReads(line, w, a);
  }

  lemma TurnIs(cfg: Config, e: Envelope, db: Db, input: string, line: string, eol: string, following: string, w: string, a: string, at: int, up: Luck)
    requires Begins(input, line, eol, following, w, a)
    ensures !NoLf(input) && Turn(cfg, e, db, input, at, up) == Handle(cfg, e, db, CommandOf(line), Input(following, at, up))
  {
    TakesLine(line, eol, following);
  }

  /** The envelope afterwards, the reply codes, where reading goes on, and whether it does; the archive is as it was. */
  predicate Leaves(o: Outcome, db: Db, env: Envelope, codes: seq<nat>, rest: string, open: bool) {
    o.db == db && o.env == env && Codes(o.replies) == codes && o.rest == rest && o.open == open
  }

  lemma OneCode(r: Reply)
    ensures Codes([r]) == [Code(r)]
  {
  }

  /** What a command that stands for a verb other than DATA does. */
  lemma CommandLaw(cfg: Config, e: Envelope, db: Db, c: Command, v: string, a: string, i: Input)
    requires Stands(c, v, a) && v != "DATA"
    ensures LineOutcome(Handle(cfg, e, db, c, i), e, db, v, a, i.following)
  {
    OneCode(Handle(cfg, e, db, c, i).replies[0]);
  }

  /**
    LHLO, NOOP and unrecognized lines change nothing, MAIL opens a transaction, RCPT
    adds a recipient up to the hundredth, RSET clears the envelope and QUIT ends the
    session.
   */
  predicate LineOutcome(o: Outcome, e: Envelope, db: Db, verb: string, a: string, following: string) {
    if verb == "LHLO" || verb == "NOOP" then Leaves(o, db, e, [250], following, true)
    else if verb == "MAIL" then Leaves(o, db, Envelope(Angle(a), []), [250], following, true)
    else if verb == "RCPT" then
      if |e.rcpts| >= 100 then Leaves(o, db, e, [452], following, true)
      else Leaves(o, db, Envelope(e.from, e.rcpts + [Angle(a)]), [250], following, true)
    else if verb == "RSET" then Leaves(o, db, Envelope("", []), [250], following, true)
    else if verb == "QUIT" then Leaves(o, db, e, [221], following, false)
    else Leaves(o, db, e, [500], following, true)
  }

  /** Every line but DATA, whatever its letter case, its line end and what stands around its verb. */
  lemma LineLaw(
    cfg: Config, e: Envelope, db: Db, input: string, line: string, eol: string, following: string, w: string, a: string, at: int, up: Luck)
    requires Begins(input, line, eol, following, w, a) && Verb(w) != "DATA"
    ensures !NoLf(input) && LineOutcome(Turn(cfg, e, db, input, at, up), e, db, Verb(w), a, following)
  {
    TurnIs(cfg, e, db, input, line, eol, following, w, a, at, up);
    LineIs(line, w, a);
    CommandLaw(cfg, e, db, CommandOf(line), Verb(w), a, Input(following, at, up));
  }

  lemma DataTurn(
    cfg: Config, e: Envelope, db: Db, input: string, line: string, eol: string, following: string, w: string, a: string, at: int, up: Luck)
    requires Begins(input, line, eol, following, w, a) && Verb(w) == "DATA"
    ensures !NoLf(input) && Turn(cfg, e, db, input, at, up) == Handle(cfg, e, db, Data, Input(following, at, up))
  {
    TurnIs(cfg, e, db, input, line, eol, following, w, a, at, up);
    LineIs(line, w, a);
  }

  lemma {:induction false} RefusedData(cfg: Config, e: Envelope, db: Db, i: Input)
    requires e.from == "" || e.rcpts == []
    ensures Leaves(Handle(cfg, e, db, Data, i), db, e, [503], i.following, true)
  {
    OneCode(Handle(cfg, e, db, Data, i).replies[0]);
  }

  /** DATA without a sender or without a recipient is answered 503, and what follows is read as the next line. */
  lemma DataRefusedLaw(
    cfg: Config, e: Envelope, db: Db, input: string, line: string, eol: string, following: string, w: string, a: string, at: int, up: Luck)
    requires Begins(input, line, eol, following, w, a) && Verb(w) == "DATA" && (e.from == "" || e.rcpts == [])
    ensures !NoLf(input) && Leaves(Turn(cfg, e, db, input, at, up), db, e, [503], following, true)
  {
    DataTurn(cfg, e, db, input, line, eol, following, w, a, at, up);
    RefusedData(cfg, e, db, Input(following, at, up));
  }

  lemma {:induction false} UnreadData(cfg: Config, e: Envelope, db: Db, i: Input)
    requires e.from != "" && e.rcpts != [] && !ReadFrom(i.following, "", cfg.max).Body?
    ensures var r := ReadFrom(i.following, "", cfg.max);
      Leaves(Handle(cfg, e, db, Data, i), db, Envelope("", []), [354] + Times(552, |e.rcpts|), if r.TooLarge? then r.rest else "", true)
  {
    NoBodyOutcome(cfg, e, db, i);
    assert Codes([StartData] + Repeat(TooLargeOrReadError, |e.rcpts|)) == [354] + Times(552, |e.rcpts|);
  }

  /**
    A body that is too large or cut off is answered 354 and then 552 for each
    recipient; nothing is stored and the envelope is empty.
   */
  lemma DataUnreadLaw(
    cfg: Config, e: Envelope, db: Db, input: string, line: string, eol: string, following: string, w: string, a: string, at: int, up: Luck)
    requires Begins(input, line, eol, following, w, a) && Verb(w) == "DATA" && e.from != "" && e.rcpts != []
    requires !ReadFrom(following, "", cfg.max).Body?
    ensures !NoLf(input)
    ensures var r := ReadFrom(following, "", cfg.max);
      Leaves(Turn(cfg, e, db, input, at, up), db, Envelope("", []), [354] + Times(552, |e.rcpts|),
        if r.TooLarge? then r.rest else "", true)
  {
    DataTurn(cfg, e, db, input, line, eol, following, w, a, at, up);
    UnreadData(cfg, e, db, Input(following, at, up));
  }

  /**
    A body that is read is answered 354 and then 250 or 451 for each recipient; the
    session goes on after the body with an empty envelope.
   */
  lemma DataReadLaw(
    cfg: Config, e: Envelope, db: Db, input: string, line: string, eol: string, following: string, w: string, a: string, at: int, up: Luck)
    requires Begins(input, line, eol, following, w, a) && Verb(w) == "DATA" && e.from != "" && e.rcpts != []
    requires ValidDb(db) && TrimSpace(cfg.inbound) == cfg.inbound && ReadFrom(following, "", cfg.max).Body?
    ensures !NoLf(input)
    ensures var o := Turn(cfg, e, db, input, at, up);
      && o.env == Envelope("", []) && o.rest == ReadFrom(following, "", cfg.max).rest && o.open
      && |o.replies| == 1 + |e.rcpts| && Code(o.replies[0]) == 354 && DeliveryCodes(o.replies)
  {
    DataTurn(cfg, e, db, input, line, eol, following, w, a, at, up);
    ReadCodes(cfg, e, db, Input(following, at, up));
  }

  lemma {:induction false} OneAnswer(cfg: Config, e: Envelope, db: Db, i: Input, k: nat)
    requires ValidDb(db) && TrimSpace(cfg.inbound) == cfg.inbound && e.from != "" && k < |e.rcpts|
    requires ReadFrom(i.following, "", cfg.max).Body?
    ensures var replies := Handle(cfg, e, db, Data, i).replies;
      |replies| == 1 + |e.rcpts| && (Code(replies[1 + k]) == 250 || Code(replies[1 + k]) == 451)
  {
    DataAcknowledges(cfg, e, db, i, k);
  }

  predicate DeliveryCodes(replies: seq<Reply>) {
    forall k :: 1 <= k < |replies| ==> Code(replies[k]) == 250 || Code(replies[k]) == 451
  }

  lemma {:induction false} AllAnswers(cfg: Config, e: Envelope, db: Db, i: Input, replies: seq<Reply>)
    requires ValidDb(db) && TrimSpace(cfg.inbound) == cfg.inbound && e.from != "" && e.rcpts != []
    requires ReadFrom(i.following, "", cfg.max).Body? && replies == Handle(cfg, e, db, Data, i).replies
    ensures DeliveryCodes(replies)
  {
    OneAnswer(cfg, e, db, i, 0);
    forall k | 1 <= k < |replies| ensures Code(replies[k]) == 250 || Code(replies[k]) == 451 {
      OneAnswer(cfg, e, db, i, k - 1);
    }
  }

  lemma {:induction false} ReadCodes(cfg: Config, e: Envelope, db: Db, i: Input)
    requires ValidDb(db) && TrimSpace(cfg.inbound) == cfg.inbound && e.from != "" && e.rcpts != []
    requires ReadFrom(i.following, "", cfg.max).Body?
    ensures var o := Handle(cfg, e, db, Data, i);
      && o.env == Envelope("", []) && o.rest == ReadFrom(i.following, "", cfg.max).rest && o.open
      && |o.replies| == 1 + |e.rcpts| && Code(o.replies[0]) == 354 && DeliveryCodes(o.replies)
  {
    OneAnswer(cfg, e, db, i, 0);
    AllAnswers(cfg, e, db, i, Handle(cfg, e, db, Data, i).replies);
  }

  // ----- the stream -----

  /** The session answers with these codes and then does what it would have done from `rest`. */
  ghost predicate Answers(whole: Session, codes: seq<nat>, rest: Session) {
    && whole.env == rest.env && whole.db == rest.db
    && |whole.transcript| == 1 + |rest.transcript| && whole.transcript[1..] == rest.transcript
    && Codes(whole.transcript[0].replies) == codes
  }

  lemma PrependAnswers(entry: Entry, rest: Session)
    ensures Answers(rest.Prepend([entry]), Codes(entry.replies), rest)
  {
  }

  /** The server's loop is made of turns. */
  lemma {:induction false} ServesTurn(cfg: Config, e: Envelope, db: Db, input: string, at: nat -> int, up: nat -> Luck, n: nat)
    requires !NoLf(input)
    ensures var o := Turn(cfg, e, db, input, at(n), up(n));
      Answers(ServeFrom(cfg, e, db, input, at, up, n), Codes(o.replies),
        if o.open then ServeFrom(cfg, o.env, o.db, o.rest, at, up, n + 1) else Session(o.env, o.db, []))
  {
    var o := Turn(cfg, e, db, input, at(n), up(n));
    HandleShrinks(cfg, e, db, CommandOf(TrimEol(NextLine(input))), Input(input[|NextLine(input)|..], at(n), up(n)));
    var rest := if o.open then ServeFrom(cfg, o.env, o.db, o.rest, at, up, n + 1) else Session(o.env, o.db, []);
    PrependAnswers(Entry(CommandOf(TrimEol(NextLine(input))), o.replies), rest);
  }

  /** A RSET line leaves an empty envelope to the rest of the stream, and a NOOP line the one before it. */
  lemma {:induction false} ResetAndNoopServed(
    cfg: Config, e: Envelope, db: Db, input: string, line: string, eol: string, following: string, w: string, a: string,
    at: nat -> int, up: nat -> Luck, n: nat)
    requires Begins(input, line, eol, following, w, a) && (Verb(w) == "RSET" || Verb(w) == "NOOP")
    ensures Answers(ServeFrom(cfg, e, db, input, at, up, n), [250],
              ServeFrom(cfg, if Verb(w) == "RSET" then Envelope("", []) else e, db, following, at, up, n + 1))
  {
    LineLaw(cfg, e, db, input, line, eol, following, w, a, at(n), up(n));
    ServesTurn(cfg, e, db, input, at, up, n);
  }

  lemma {:induction false} DataRefusedServed(
    cfg: Config, e: Envelope, db: Db, input: string, line: string, eol: string, following: string, w: string, a: string,
    at: nat -> int, up: nat -> Luck, n: nat)
    requires Begins(input, line, eol, following, w, a) && Verb(w) == "DATA" && (e.from == "" || e.rcpts == [])
    ensures Answers(ServeFrom(cfg, e, db, input, at, up, n), [503], ServeFrom(cfg, e, db, following, at, up, n + 1))
  {
    DataRefusedLaw(cfg, e, db, input, line, eol, following, w, a, at(n), up(n));
    ServesTurn(cfg, e, db, input, at, up, n);
  }

  /**
    A transaction that is given up stays given up: after a RSET line a DATA line is
    answered 503, whatever sender and recipients came before, and nothing is read or
    stored.
   */
  lemma {:induction false} ResetAborts(
    cfg: Config, e: Envelope, db: Db, input: string, rset: string, eol: string, second: string, v: string, x: string,
    data: string, eol': string, following: string, w: string, a: string, at: nat -> int, up: nat -> Luck, n: nat)
    requires Begins(input, rset, eol, second, v, x) && Verb(v) == "RSET"
    requires Begins(second, data, eol', following, w, a) && Verb(w) == "DATA"
    ensures var after := ServeFrom(cfg, Envelope("", []), db, second, at, up, n + 1);
      && Answers(ServeFrom(cfg, e, db, input, at, up, n), [250], after)
      && Answers(after, [503], ServeFrom(cfg, Envelope("", []), db, following, at, up, n + 2))
  {
    ResetAndNoopServed(cfg, e, db, input, rset, eol, second, v, x, at, up, n);
    DataRefusedServed(cfg, Envelope("", []), db, second, data, eol', following, w, a, at, up, n + 1);
  }
}
