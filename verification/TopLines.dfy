/**
  The TOP command of section 7 of RFC 1939: the header block, the blank line and
  the first lines of the body.
 */
module TopLines {
  import opened Text
  import opened DotData

  /** `strings.Index(text, "\n\n")`, as the offset of the first blank line, or None. */
  function IndexBlank(s: string): (r: Option<nat>)
    ensures r.Some? ==> r.value + 1 < |s| && s[r.value] == '\n' && s[r.value + 1] == '\n'
    ensures forall j :: 0 <= j && j + 1 < |s| && (r.Some? ==> j < r.value) ==> !(s[j] == '\n' && s[j + 1] == '\n')
  {
    if |s| < 2 then None
    else if s[0] == '\n' && s[1] == '\n' then Some(0)
    else match IndexBlank(s[1..])
      case None => None
      case Some(i) => Some(i + 1)
  }

  /** `strings.SplitN(s, "\n", n)` for a positive n: the last piece keeps the rest uncut. */
  function SplitN(s: string, n: nat): (r: seq<string>)
    requires n > 0
    ensures 0 < |r| <= n
    decreases n
  {
    if n == 1 || NoLf(s) then [s]
    else
      var line := NextLine(s);
      [line[..|line| - 1]] + SplitN(s[|line|..], n - 1)
  }

  /** The first n lines. */
  function Take(lines: seq<string>, n: nat): seq<string> {
    if |lines| > n then lines[..n] else lines
  }

  function TopLines(raw: string, n: nat): string {
    var text := ReplaceCrlf(raw);
    match IndexBlank(text)
    case None => raw
    case Some(sep) =>
      var header := text[..sep + 2];
      var body := text[sep + 2..];
      if n == 0 then header
      else
        header + JoinLf(Take(SplitN(body, n + 1), n))
  }

  lemma {:induction false} SplitAtLine(s: string)
    requires !NoLf(s)
    ensures var line := NextLine(s); SplitLf(s) == [line[..|line| - 1]] + SplitLf(s[|line|..])
  {
    var line := NextLine(s);
    var l := line[..|line| - 1];
    SplitOfLine(l, s[|line|..]);
    assert s == l + "\n" + s[|line|..];
  }

  lemma TakeCons(l: string, lines: seq<string>, n: nat)
    requires n > 0
    ensures Take([l] + lines, n) == [l] + Take(lines, n - 1)
  {
  }

  /** Cutting with a limit and dropping the uncut rest gives the first lines. */
  lemma {:induction false} SplitNKeeps(s: string, n: nat)
    ensures Take(SplitN(s, n + 1), n) == Take(SplitLf(s), n)
    decreases n
  {
    if NoLf(s) {
      SplitOfLine(s, "");
    } else if n > 0 {
      var line := NextLine(s);
      var rest := s[|line|..];
      SplitAtLine(s);
      SplitNKeeps(rest, n - 1);
      TakeCons(line[..|line| - 1], SplitN(rest, n), n);
      TakeCons(line[..|line| - 1], SplitLf(rest), n);
    }
  }

  /** The normalised message: header block, blank line and body, if there is a blank line. */
  ghost predicate HasBody(raw: string) {
    IndexBlank(ReplaceCrlf(raw)).Some?
  }

  ghost function Header(raw: string): string
    requires HasBody(raw)
  {
    ReplaceCrlf(raw)[..IndexBlank(ReplaceCrlf(raw)).value + 2]
  }

  ghost function BodyLines(raw: string): (lines: seq<string>)
    requires HasBody(raw)
    ensures lines != []
  {
    SplitLf(ReplaceCrlf(raw)[IndexBlank(ReplaceCrlf(raw)).value + 2..])
  }

  lemma TopIs(raw: string, n: nat)
    requires HasBody(raw)
    ensures TopLines(raw, n) == Header(raw) + JoinLf(Take(BodyLines(raw), n))
  {
    var text := ReplaceCrlf(raw);
    var body := text[IndexBlank(text).value + 2..];
    if n == 0 {
      assert text[..IndexBlank(text).value + 2] + "" == text[..IndexBlank(text).value + 2];
    } else {
      SplitNKeeps(body, n);
    }
  }

  /**
    Cut at its line feeds, what follows the header block in TOP n is exactly the
    list of the first min(n, count) body lines; TOP 0 is the header block alone.
   */
  lemma TopBodyLines(raw: string, n: nat)
    requires HasBody(raw)
    ensures Header(raw) <= TopLines(raw, n)
    ensures n == 0 ==> TopLines(raw, n) == Header(raw)
    ensures n > 0 ==> SplitLf(TopLines(raw, n)[|Header(raw)|..]) == Take(BodyLines(raw), n)
  {
    TopIs(raw, n);
    var text := ReplaceCrlf(raw);
    JoinOfSplit(text[IndexBlank(text).value + 2..]);
    var lines := Take(BodyLines(raw), n);
    if n > 0 {
      SplitOfJoin(lines);
    }
    assert TopLines(raw, n)[|Header(raw)|..] == JoinLf(lines);
  }

  lemma {:induction false} JoinPrefix(lines: seq<string>, k: nat)
    ensures JoinLf(Take(lines, k)) <= JoinLf(lines)
  {
    if |lines| > k && k > 0 {
      var p := JoinLf(lines[..k][1..]);
      var w := JoinLf(lines[1..]);
      TailOfPrefix(lines, k);
      JoinPrefix(lines[1..], k - 1);
      if k == 1 {
        assert lines[..1] == [lines[0]];
        PrefixAfter(lines[0], "", "\n" + w);
        Assoc(lines[0], "\n", w);
        assert lines[0] + "" == lines[0];
      } else {
        PrefixAfter(lines[0] + "\n", p, w);
      }
    }
  }

  lemma PrefixAfter(h: string, a: string, b: string)
    requires a <= b
    ensures h + a <= h + b
  {
    assert b == a + b[|a|..];
    Assoc(h, a, b[|a|..]);
  }

  lemma TakeTwice(lines: seq<string>, n: nat, m: nat)
    requires n <= m
    ensures Take(Take(lines, m), n) == Take(lines, n)
  {
  }

  /** A larger count never changes what a smaller one gave: the response only grows. */
  lemma TopGrows(raw: string, n: nat, m: nat)
    requires HasBody(raw) && n <= m
    ensures TopLines(raw, n) <= TopLines(raw, m)
  {
    TopIs(raw, n);
    TopIs(raw, m);
    var lines := Take(BodyLines(raw), m);
    TakeTwice(BodyLines(raw), n, m);
    JoinPrefix(lines, n);
    PrefixAfter(Header(raw), JoinLf(Take(lines, n)), JoinLf(lines));
  }

  lemma TextIs(raw: string)
    requires HasBody(raw)
    ensures ReplaceCrlf(raw) == Header(raw) + JoinLf(BodyLines(raw))
  {
    var text := ReplaceCrlf(raw);
    var k := IndexBlank(text).value + 2;
    JoinOfSplit(text[k..]);
    CutAt(text, k);
  }

  /** Every TOP response is a prefix of the normalised text, and all of it once n covers the body. */
  lemma TopOfText(raw: string, n: nat)
    requires HasBody(raw)
    ensures TopLines(raw, n) <= ReplaceCrlf(raw)
    ensures n >= |BodyLines(raw)| ==> TopLines(raw, n) == ReplaceCrlf(raw)
  {
    TopIs(raw, n);
    TextIs(raw);
    var lines := BodyLines(raw);
    JoinPrefix(lines, n);
    PrefixAfter(Header(raw), JoinLf(Take(lines, n)), JoinLf(lines));
  }

  /** The header block ends with the first blank line: none comes before. */
  lemma HeaderEndsAtFirstBlank(raw: string, i: nat)
    ensures HasBody(raw) && i + 2 < |Header(raw)| ==> !(Header(raw)[i] == '\n' && Header(raw)[i + 1] == '\n')
    ensures !HasBody(raw) && i + 1 < |ReplaceCrlf(raw)| ==> !(ReplaceCrlf(raw)[i] == '\n' && ReplaceCrlf(raw)[i + 1] == '\n')
    ensures !HasBody(raw) ==> forall n: nat :: TopLines(raw, n) == raw
  {
  }

  /**
    TOP with a count that covers the body shows a client the same lines as RETR
    exactly when the stored message holds no CR CR LF (or has no blank line): the
    writer normalises a text that TOP has already normalised once.
   */
  lemma TopAgreesWithRetrIff(raw: string, n: nat, tail: string)
    requires HasBody(raw) ==> n >= |BodyLines(raw)|
    ensures ClientDecode(DotEncode(TopLines(raw, n)) + tail) == ClientDecode(DotEncode(raw) + tail)
      <==> !HasBody(raw) || !HasCrCrLf(raw)
  {
    ClientReadsBack(raw, tail);
    ClientReadsBack(TopLines(raw, n), tail);
    if HasBody(raw) {
      TopOfText(raw, n);
      var text := ReplaceCrlf(raw);
      ReplaceTwiceIff(raw);
      JoinOfSplit(text);
      JoinOfSplit(ReplaceCrlf(text));
    }
  }

  /** A message whose TOP, however long, differs from its RETR. */
  lemma TopDiffersFromRetr(n: nat, tail: string)
    requires HasBody("\n\n\r\r\n") ==> n >= |BodyLines("\n\n\r\r\n")|
    ensures var raw := "\n\n\r\r\n";
      ClientDecode(DotEncode(TopLines(raw, n)) + tail) != ClientDecode(DotEncode(raw) + tail)
  {
    var raw := "\n\n\r\r\n";
    assert raw[2] == '\r' && raw[3] == '\r' && raw[4] == '\n';
    assert HasCrCrLf(raw);
    BlankFirst(raw);
    TopAgreesWithRetrIff(raw, n, tail);
  }

  lemma BlankFirst(raw: string)
    requires |raw| >= 2 && raw[0] == '\n' && raw[1] == '\n'
    ensures HasBody(raw)
  {
    assert ReplaceCrlf(raw)[0] == '\n';
    assert ReplaceCrlf(raw)[1] == ReplaceCrlf(raw[1..])[0] == '\n';
  }
}
