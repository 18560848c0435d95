/**
  A client that reads the POP3 server's replies from the bytes, knowing nothing of how
  they were written.
 */
module Pop3Wire {
  import opened Text
  import opened DotData
  import opened Archive
  import opened Pop3Server
  import R = Pop3Runs

  // ----- the client -----

  /** The first line that ends in CRLF, and the bytes after it. */
  function FirstLine(s: string): Option<(string, string)> {
    var i := IndexCrlf(s);
    if i == |s| then None else Some((s[..i], s[i + 2..]))
  }

  predicate Positive(line: string) {
    |line| >= 3 && line[..3] == "+OK"
  }

  predicate Negative(line: string) {
    |line| >= 4 && line[..4] == "-ERR"
  }

  /** The decimal numbers in a text, in order; `open` is the number that is being read. */
  function NumbersFrom(s: string, open: Option<nat>): seq<nat> {
    if s == "" then Flush(open)
    else if IsDigit(s[0]) then
      NumbersFrom(s[1..], Some(10 * (if open.Some? then open.value else 0) + (s[0] as int - '0' as int)))
    else Flush(open) + NumbersFrom(s[1..], None)
  }

  function Flush(open: Option<nat>): seq<nat> {
    if open.Some? then [open.value] else []
  }

  function Numbers(s: string): seq<nat> {
    NumbersFrom(s, None)
  }

  /** Two numbers with one space between them. */
  function ReadTwo(s: string): Option<(nat, nat)> {
    var words := Split(s, ' ');
    if |words| == 2 && Decimal(words[0]).Some? && Decimal(words[1]).Some? then Some((Decimal(words[0]).value, Decimal(words[1]).value))
    else None
  }

  /** The numbers of a listing, if each of its lines holds two. */
  function ReadListing(lines: seq<string>): Option<seq<(nat, nat)>> {
    if lines == [] then Some([])
    else
      match (ReadListing(lines[..|lines| - 1]), ReadTwo(lines[|lines| - 1]))
      case (Some(ps), Some(p)) => Some(ps + [p])
      case _ => None
  }

  // ----- reading numbers back -----

  predicate NoDigits(s: string) {
    forall i :: 0 <= i < |s| ==> !IsDigit(s[i])
  }

  lemma {:induction false} SkipPlain(p: string, s: string)
    requires NoDigits(p)
    ensures NumbersFrom(p + s, None) == NumbersFrom(s, None)
  {
    if p == "" {
      assert p + s == s;
    } else {
      assert (p + s)[0] == p[0] && (p + s)[1..] == p[1..] + s;
      SkipPlain(p[1..], s);
      assert Flush(None) + NumbersFrom(s, None) == NumbersFrom(s, None);
    }
  }

  lemma {:induction false} TakeNumber(n: nat, s: string)
    ensures NumbersFrom(Itoa(n) + s, None) == NumbersFrom(s, Some(n))
  {
    if n < 10 {
      assert (Itoa(n) + s)[1..] == s;
    } else {
      var d := [(n % 10 + '0' as int) as char];
      Assoc(Itoa(n / 10), d, s);
      TakeNumber(n / 10, d + s);
      assert (d + s)[0] == d[0] && (d + s)[1..] == s;
    }
  }

  /** A number between two texts without digits. */
  lemma NumberIn(p: string, n: nat, q: string)
    requires NoDigits(p) && (q != "" ==> !IsDigit(q[0]))
    ensures NumbersFrom(p + (Itoa(n) + q), None) == [n] + NumbersFrom(q, None)
  {
    SkipPlain(p, Itoa(n) + q);
    TakeNumber(n, q);
    if q != "" {
      assert Flush(None) + NumbersFrom(q[1..], None) == NumbersFrom(q[1..], None);
    } else {
      assert [n] + [] == [n];
    }
  }

  lemma OneNumber(p: string, n: nat, q: string)
    requires NoDigits(p) && NoDigits(q)
    ensures Numbers(p + (Itoa(n) + q)) == [n]
  {
    NumberIn(p, n, q);
    SkipPlain(q, "");
    assert q + "" == q;
  }

  lemma TwoNumbers(p: string, n: nat, q: string, m: nat, t: string)
    requires NoDigits(p) && NoDigits(q) && NoDigits(t) && q != ""
    ensures Numbers(p + (Itoa(n) + (q + (Itoa(m) + t)))) == [n, m]
  {
    var rest := q + (Itoa(m) + t);
    assert rest[0] == q[0];
    NumberIn(p, n, rest);
    OneNumber(q, m, t);
  }

  lemma ReadTwoBack(p: (nat, nat))
    ensures ReadTwo(ListingLine(p)) == Some(p)
  {
    var a, b := Itoa(p.0), Itoa(p.1);
    ItoaDigits(p.0);
    ItoaDigits(p.1);
    SplitNoSep(a, ' ');
    SplitNoSep(b, ' ');
    SplitAt(a, ' ', b);
    assert ListingLine(p) == a + [' '] + b;
  }

  lemma {:induction false} ReadListingBack(lines: seq<(nat, nat)>)
    ensures ReadListing(R.ListingLines(lines)) == Some(lines)
  {
    if lines != [] {
      ReadListingBack(lines[..|lines| - 1]);
      ReadTwoBack(lines[|lines| - 1]);
      var ls := R.ListingLines(lines);
      assert ls[..|ls| - 1] == R.ListingLines(lines[..|lines| - 1]);
      assert lines == lines[..|lines| - 1] + [lines[|lines| - 1]];
    }
  }

  // ----- the first line -----

  /** The numbers that a reply is about, in the order in which the protocol names them. */
  function NumbersOf(r: Reply): seq<nat> {
    match r
    case Ready(n) => [n]
    case Totals(n, octets) => [n, octets]
    case Restored(n, octets) => [n, octets]
    case Single(number, value) => [number, value]
    case Listing(n, octets, _) => [n, octets]
    case Content(octets, _) => [octets]
    case Marked(number) => [number]
    case _ => []
  }

  lemma Five(p: string, a: string, q: string, b: string, t: string)
    ensures p + a + q + b + t == p + (a + (q + (b + t)))
  {
  }

  lemma OneOnLine(p: string, n: nat, q: string)
    requires NoDigits(p) && NoDigits(q)
    ensures Numbers(p + Itoa(n) + q) == [n]
  {
    Assoc(p, Itoa(n), q);
    OneNumber(p, n, q);
  }

  lemma TwoOnLine(p: string, n: nat, q: string, m: nat, t: string)
    requires NoDigits(p) && NoDigits(q) && NoDigits(t) && q != ""
    ensures Numbers(p + Itoa(n) + q + Itoa(m) + t) == [n, m]
  {
    Five(p, Itoa(n), q, Itoa(m), t);
    TwoNumbers(p, n, q, m, t);
  }

  lemma PlainReason1(why: Reason)
    requires why.MissingUsername? || why.UserFirst?
    ensures NoDigits(ReasonText(why)) && NoLf(ReasonText(why))
  {
  }

  lemma PlainReason2(why: Reason)
    requires why.BadCredentials? || why.NoAccess?
    ensures NoDigits(ReasonText(why)) && NoLf(ReasonText(why))
  {
  }

  lemma PlainReason3(why: Reason)
    requires why.TooManyFailures?
    ensures NoDigits(ReasonText(why)) && NoLf(ReasonText(why))
  {
  }

  lemma PlainReason4(why: Reason)
    requires why.NoSuchMessage? || why.FetchError?
    ensures NoDigits(ReasonText(why)) && NoLf(ReasonText(why))
  {
  }

  lemma PlainReason5(why: Reason)
    requires why.Syntax? || why.InvalidArguments? || why.UnknownCommand?
    ensures NoDigits(ReasonText(why)) && NoLf(ReasonText(why))
  {
  }

  lemma PlainReason(why: Reason)
    ensures NoDigits(ReasonText(why)) && NoLf(ReasonText(why))
  {
    if why.MissingUsername? || why.UserFirst? {
      PlainReason1(why);
    } else if why.BadCredentials? || why.NoAccess? {
      PlainReason2(why);
    } else if why.TooManyFailures? {
      PlainReason3(why);
    } else if why.NoSuchMessage? || why.FetchError? {
      PlainReason4(why);
    } else {
      PlainReason5(why);
    }
  }

  /** The reply whose first line has one number in it. */
  lemma OneNumberLine(r: Reply)
    requires r.Ready? || r.Content? || r.Marked?
    ensures Numbers(StatusText(r)) == NumbersOf(r)
  {
    match r
    case Ready(n) => OneOnLine("+OK maildrop ready, ", n, " message(s)");
    case Content(octets, _) => OneOnLine("+OK ", octets, " octets");
    case Marked(number) => OneOnLine("+OK message ", number, " deleted");
  }

  lemma TwoNumberLine(r: Reply)
    requires r.Totals? || r.Restored? || r.Single? || r.Listing?
    ensures Numbers(StatusText(r)) == NumbersOf(r)
  {
    match r
    case Totals(n, octets) =>
      TwoOnLine("+OK ", n, " ", octets, "");
      assert StatusText(r) + "" == StatusText(r);
    case Restored(n, octets) => TwoOnLine("+OK maildrop has ", n, " messages (", octets, " octets)");
    case Single(number, value) =>
      TwoOnLine("+OK ", number, " ", value, "");
      assert StatusText(r) + "" == StatusText(r);
    case Listing(n, octets, _) => TwoOnLine("+OK ", n, " messages (", octets, " octets)");
  }

  lemma NoNumberLine(s: string)
    requires NoDigits(s)
    ensures Numbers(s) == []
  {
    SkipPlain(s, "");
    assert s + "" == s;
  }

  /** The first line of every reply shows the numbers that the reply is about. */
  lemma NumbersReadBack(r: Reply)
    ensures Numbers(StatusText(r)) == NumbersOf(r)
  {
    if r.Ready? || r.Content? || r.Marked? {
      OneNumberLine(r);
    } else if r.Totals? || r.Restored? || r.Single? || r.Listing? {
      TwoNumberLine(r);
    } else {
      if r.Err? {
        PlainReason(r.why);
      }
      NoNumberLine(StatusText(r));
    }
  }

  lemma ItoaLine(n: nat)
    ensures NoLf(Itoa(n))
  {
    ItoaDigits(n);
  }

  lemma TextIsLine(r: Reply)
    ensures NoLf(StatusText(r))
  {
    match r
    case Err(why) => PlainReason(why);
    case Ready(n) => ItoaLine(n);
    case Totals(n, octets) => ItoaLine(n); ItoaLine(octets);
    case Restored(n, octets) => ItoaLine(n); ItoaLine(octets);
    case Single(number, value) => ItoaLine(number); ItoaLine(value);
    case Listing(n, octets, _) => ItoaLine(n); ItoaLine(octets);
    case Content(octets, _) => ItoaLine(octets);
    case Marked(number) => ItoaLine(number);
    case _ =>
  }

  /** Errors are negative replies and all others are positive. */
  lemma SignIs(r: Reply)
    ensures Positive(StatusText(r)) <==> !r.Err?
    ensures Negative(StatusText(r)) <==> r.Err?
  {
    SignFirst(r);
    var text := StatusText(r);
    assert text[..3][0] == text[0];
    if r.Err? {
      assert text[..4][0] == text[0];
    } else if |text| >= 4 {
      assert text[..4][0] == text[0];
    }
  }

  lemma SignFirst(r: Reply)
    ensures |StatusText(r)| >= 3
    ensures r.Err? ==> |StatusText(r)| >= 4 && StatusText(r)[..4] == "-ERR"
    ensures !r.Err? ==> StatusText(r)[..3] == "+OK"
  {
  }

  /** STAT and the single answers of LIST and UIDL: two numbers after the sign, in this order. */
  lemma PairReadsBack(r: Reply)
    requires r.Totals? || r.Single?
    ensures var text := StatusText(r);
      |text| >= 4 && text[..4] == "+OK " && ReadTwo(text[4..]) == Some(if r.Totals? then (r.count, r.octets) else (r.number, r.value))
  {
    var p := if r.Totals? then (r.count, r.octets) else (r.number, r.value);
    ReadTwoBack(p);
    var text := StatusText(r);
    assert text == "+OK " + ListingLine(p);
    assert text[4..] == ListingLine(p);
  }

  /**
    A client reads every reply back: the first line says whether the command succeeded
    and shows the numbers of the reply, and what follows it is the payload and then the
    next reply.
   */
  lemma ReplyReadsBack(r: Reply, tail: string)
    ensures FirstLine(Wire(r) + tail) == Some((StatusText(r), Payload(r) + tail))
    ensures Positive(StatusText(r)) <==> !r.Err?
    ensures Negative(StatusText(r)) <==> r.Err?
    ensures Numbers(StatusText(r)) == NumbersOf(r)
    ensures r.Err? ==> Payload(r) == ""
  {
    TextIsLine(r);
    FirstCrlf(StatusText(r), Payload(r) + tail);
    Assoc(StatusText(r) + CRLF, Payload(r), tail);
    SignIs(r);
    NumbersReadBack(r);
  }

  lemma GreetingReadsBack(tail: string)
    ensures FirstLine(GREETING + tail).Some?
    ensures var (line, rest) := FirstLine(GREETING + tail).value; Positive(line) && rest == tail
  {
    var text := "+OK POP3 server ready";
    assert GREETING == text + CRLF;
    FirstCrlf(text, tail);
  }

  // ----- whole answers -----

  /**
    LIST on the wire: a client reads a positive first line with the number of messages
    and the sum of their sizes, then line by line exactly the numbers and sizes of the
    unmarked messages, and then the next reply.
   */
  lemma ListOnTheWire(s: Session, db: Db, l: Luck, tail: string)
    requires s.phase.Transaction?
    ensures var bytes := Wire(Handle(s, db, List(""), l).reply) + tail;
      && FirstLine(bytes).Some?
      && var (line, rest) := FirstLine(bytes).value;
      && Positive(line) && Numbers(line) == [|Sizes(s.msgs)|, R.SumOf(Sizes(s.msgs))]
      && ClientDecode(rest).Some?
      && ReadListing(ClientDecode(rest).value.0) == Some(Sizes(s.msgs)) && ClientDecode(rest).value.1 == tail
  {
    R.StatAgreesWithList(s, db, l);
    var r := Handle(s, db, List(""), l).reply;
    ReplyReadsBack(r, tail);
    R.ListingReadsBack(Sizes(s.msgs), tail);
    ReadListingBack(Sizes(s.msgs));
  }

  lemma UidlOnTheWire(s: Session, db: Db, l: Luck, tail: string)
    requires s.phase.Transaction?
    ensures var bytes := Wire(Handle(s, db, Uidl(""), l).reply) + tail;
      && FirstLine(bytes).Some?
      && var (line, rest) := FirstLine(bytes).value;
      && Positive(line) && ClientDecode(rest).Some?
      && ReadListing(ClientDecode(rest).value.0) == Some(Uids(s.msgs)) && ClientDecode(rest).value.1 == tail
  {
    R.StatAgreesWithList(s, db, l);
    var r := Handle(s, db, Uidl(""), l).reply;
    ReplyReadsBack(r, tail);
    R.ListingReadsBack(Uids(s.msgs), tail);
    ReadListingBack(Uids(s.msgs));
  }

  /** STAT on the wire: the number of unmarked messages and then the sum of their sizes. */
  lemma StatOnTheWire(s: Session, db: Db, l: Luck, tail: string)
    requires s.phase.Transaction?
    ensures var bytes := Wire(Handle(s, db, Stat, l).reply) + tail;
      && FirstLine(bytes).Some?
      && var (line, rest) := FirstLine(bytes).value;
      && |line| >= 4 && line[..4] == "+OK " && ReadTwo(line[4..]) == Some((|Sizes(s.msgs)|, R.SumOf(Sizes(s.msgs)))) && rest == tail
  {
    R.StatAgreesWithList(s, db, l);
    var r := Handle(s, db, Stat, l).reply;
    ReplyReadsBack(r, tail);
    PairReadsBack(r);
    assert "" + tail == tail;
  }

  /** RETR on the wire: the size and then the normalised lines of the text. */
  lemma ContentOnTheWire(r: Reply, tail: string)
    requires r.Content?
    ensures FirstLine(Wire(r) + tail).Some?
    ensures var (line, rest) := FirstLine(Wire(r) + tail).value;
      Positive(line) && Numbers(line) == [r.octets] && ClientDecode(rest) == Some((NormalLines(r.data), tail))
  {
    ReplyReadsBack(r, tail);
    R.ContentReadsBack(r, tail);
  }
}
