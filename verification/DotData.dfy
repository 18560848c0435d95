/**
  Dot-stuffed multi-line data: the POP3 writer and the LMTP reader.

  The wire format is that of section 4.5.2 of RFC 5321 and section 3 of RFC 1939.
 */
module DotData {
  import opened Text

  const CRLF := "\r\n"

  /** The line that ends multi-line data. */
  const END := ".\r\n"

  // ----- cutting data into lines -----

  /** `strings.ReplaceAll(s, "\r\n", "\n")`: one pass from left to right. */
  function ReplaceCrlf(s: string): string {
    if |s| < 2 then s
    else if s[0] == '\r' && s[1] == '\n' then "\n" + ReplaceCrlf(s[2..])
    else [s[0]] + ReplaceCrlf(s[1..])
  }

  /** `strings.Split(s, "\n")`. */
  function SplitLf(s: string): (lines: seq<string>)
    ensures lines != []
  {
    Split(s, '\n')
  }

  function NormalLines(data: string): seq<string> {
    SplitLf(ReplaceCrlf(data))
  }

  /** `strings.Join(lines, "\n")`. */
  function JoinLf(lines: seq<string>): string {
    if lines == [] then ""
    else if |lines| == 1 then lines[0]
    else lines[0] + "\n" + JoinLf(lines[1..])
  }

  predicate NoLf(l: string) {
    '\n' !in l
  }

  predicate AllNoLf(lines: seq<string>) {
    forall i :: 0 <= i < |lines| ==> NoLf(lines[i])
  }

  /** Splitting and joining are inverse: the lines are exactly the text between line feeds. */
  lemma {:induction false} JoinOfSplit(s: string)
    ensures JoinLf(SplitLf(s)) == s
    ensures AllNoLf(SplitLf(s))
  {
    if s != "" {
      JoinOfSplit(s[1..]);
      var r := SplitLf(s[1..]);
      if s[0] == '\n' {
        assert SplitLf(s)[1..] == r;
      } else if |r| > 1 {
        assert SplitLf(s)[1..] == r[1..];
      }
    }
  }

  lemma {:induction false} SplitOfLine(l: string, rest: string)
    requires NoLf(l)
    ensures SplitLf(l) == [l]
    ensures SplitLf(l + "\n" + rest) == [l] + SplitLf(rest)
  {
    var s := l + "\n" + rest;
    if l == "" {
      assert s[1..] == rest;
    } else {
      assert l[0] in l && [l[0]] + l[1..] == l;
      SplitOfLine(l[1..], rest);
      assert s[1..] == l[1..] + "\n" + rest;
    }
  }

  lemma {:induction false} SplitOfJoin(lines: seq<string>)
    requires lines != [] && AllNoLf(lines)
    ensures SplitLf(JoinLf(lines)) == lines
  {
    assert NoLf(lines[0]);
    if |lines| > 1 {
      SplitOfJoin(lines[1..]);
      SplitOfLine(lines[0], JoinLf(lines[1..]));
    } else {
      SplitOfLine(lines[0], "");
    }
  }

  /** A line of the raw data without the one CR that belongs to its line end. */
  function DropOneCr(l: string): string {
    if l != "" && l[|l| - 1] == '\r' then l[..|l| - 1] else l
  }

  /** Each line that a line feed ends loses one trailing CR; the last line is kept as it is. */
  function DropLineEndCrs(lines: seq<string>): seq<string>
  {
    if |lines| <= 1 then lines else [DropOneCr(lines[0])] + DropLineEndCrs(lines[1..])
  }

  lemma DropCons(l: string, r: seq<string>)
    requires r != []
    ensures DropLineEndCrs([l] + r) == [DropOneCr(l)] + DropLineEndCrs(r)
  {
    assert ([l] + r)[1..] == r;
  }

  /** Putting a character before a text, unless it forms a CRLF with it, leaves the line ends as they are. */
  lemma DropLineEndCrsCons(c: char, s: string)
    requires !(c == '\r' && s != "" && s[0] == '\n') && c != '\n'
    ensures var r := DropLineEndCrs(SplitLf(s)); DropLineEndCrs(SplitLf([c] + s)) == [[c] + r[0]] + r[1..]
  {
    SplitCons(c, s, '\n');
    var r := SplitLf(s);
    var l, rest := r[0], r[1..];
    if rest != [] {
      assert r == [l] + rest;
      DropCons(l, rest);
      DropCons([c] + l, rest);
      DropOneCrCons(c, l);
      assert ([DropOneCr(l)] + DropLineEndCrs(rest))[1..] == DropLineEndCrs(rest);
    } else {
      assert r == [l] && [[c] + l] + rest == [[c] + l];
    }
  }

  lemma DropOneCrCons(c: char, l: string)
    requires l == "" ==> c != '\r'
    ensures DropOneCr([c] + l) == [c] + DropOneCr(l)
  {
    if l != "" {
      assert ([c] + l)[..|l|] == [c] + l[..|l| - 1];
    }
  }

  /**
    What the replacement followed by the split computes, said line by line: only
    the one CR next to a line feed goes, a CR elsewhere stays.
   */
  lemma {:induction false} NormalLinesAre(s: string)
    ensures NormalLines(s) == DropLineEndCrs(SplitLf(s))
  {
    if |s| < 2 {
      if s != "" {
        assert s == [s[0]] + "";
        SplitCons(s[0], "", '\n');
        assert SplitLf("") == [""];
      }
    } else if s[0] == '\r' && s[1] == '\n' {
      NormalLinesAre(s[2..]);
      SplitCons('\n', s[2..], '\n');
      SplitCons('\r', s[1..], '\n');
      SplitCons('\n', ReplaceCrlf(s[2..]), '\n');
      assert s[1..] == "\n" + s[2..] && s == "\r" + s[1..];
      DropCons("\r", SplitLf(s[2..]));
      assert "\r" + "" == "\r";
      assert SplitLf(s) == ["\r"] + SplitLf(s[2..]);
    } else {
      NormalLinesAre(s[1..]);
      assert s == [s[0]] + s[1..];
      SplitCons(s[0], ReplaceCrlf(s[1..]), '\n');
      if s[0] == '\n' {
        SplitCons(s[0], s[1..], '\n');
        DropCons("", SplitLf(s[1..]));
      } else {
        DropLineEndCrsCons(s[0], s[1..]);
      }
    }
  }

  /** CR CR LF somewhere in the text. */
  predicate HasCrCrLf(s: string) {
    exists i :: 0 <= i && i + 2 < |s| && s[i] == '\r' && s[i + 1] == '\r' && s[i + 2] == '\n'
  }

  predicate HasCrlf(s: string) {
    exists i :: 0 <= i && i + 1 < |s| && s[i] == '\r' && s[i + 1] == '\n'
  }

  lemma {:induction false} ReplaceFixes(s: string)
    ensures ReplaceCrlf(s) == s <==> !HasCrlf(s)
    ensures |ReplaceCrlf(s)| <= |s|
  {
    if |s| >= 2 {
      if s[0] == '\r' && s[1] == '\n' {
        ReplaceFixes(s[2..]);
      } else {
        ReplaceFixes(s[1..]);
        assert s == [s[0]] + s[1..];
        if HasCrlf(s[1..]) {
          var i :| 0 <= i && i + 1 < |s[1..]| && s[1..][i] == '\r' && s[1..][i + 1] == '\n';
          assert s[i + 1] == '\r' && s[i + 2] == '\n';
        }
        if HasCrlf(s) {
          var i :| 0 <= i && i + 1 < |s| && s[i] == '\r' && s[i + 1] == '\n';
          assert s[1..][i - 1] == '\r' && s[1..][i] == '\n';
        }
      }
    }
  }

  lemma HasCrlfCons(c: char, s: string)
    ensures HasCrlf([c] + s) <==> HasCrlf(s) || (c == '\r' && s != "" && s[0] == '\n')
  {
    var t := [c] + s;
    if HasCrlf(s) {
      var i :| 0 <= i && i + 1 < |s| && s[i] == '\r' && s[i + 1] == '\n';
      assert t[i + 1] == '\r' && t[i + 2] == '\n';
    }
    if c == '\r' && s != "" && s[0] == '\n' {
      assert t[0] == '\r' && t[1] == '\n';
    }
    if HasCrlf(t) {
      var i :| 0 <= i && i + 1 < |t| && t[i] == '\r' && t[i + 1] == '\n';
      if i > 0 {
        assert s[i - 1] == '\r' && s[i] == '\n';
      }
    }
  }

  lemma HasCrCrLfCons(c: char, s: string)
    ensures HasCrCrLf([c] + s) <==> HasCrCrLf(s) || (c == '\r' && |s| > 1 && s[0] == '\r' && s[1] == '\n')
  {
    var t := [c] + s;
    if HasCrCrLf(s) {
      var i :| 0 <= i && i + 2 < |s| && s[i] == '\r' && s[i + 1] == '\r' && s[i + 2] == '\n';
      assert t[i + 1] == '\r' && t[i + 2] == '\r' && t[i + 3] == '\n';
    }
    if c == '\r' && |s| > 1 && s[0] == '\r' && s[1] == '\n' {
      assert t[0] == '\r' && t[1] == '\r' && t[2] == '\n';
    }
    if HasCrCrLf(t) {
      var i :| 0 <= i && i + 2 < |t| && t[i] == '\r' && t[i + 1] == '\r' && t[i + 2] == '\n';
      if i > 0 {
        assert s[i - 1] == '\r' && s[i] == '\r' && s[i + 1] == '\n';
      }
    }
  }

  lemma {:induction false} CrlfLeftOver(s: string)
    ensures HasCrlf(ReplaceCrlf(s)) <==> HasCrCrLf(s)
  {
    if |s| >= 2 {
      if s[0] == '\r' && s[1] == '\n' {
        CrlfLeftOver(s[2..]);
        HasCrlfCons('\n', ReplaceCrlf(s[2..]));
        HasCrCrLfCons('\n', s[2..]);
        HasCrCrLfCons('\r', s[1..]);
        assert s == ['\r'] + s[1..] && s[1..] == ['\n'] + s[2..];
      } else {
        CrlfLeftOver(s[1..]);
        HasCrlfCons(s[0], ReplaceCrlf(s[1..]));
        HasCrCrLfCons(s[0], s[1..]);
        assert s == [s[0]] + s[1..];
      }
    }
  }

  /**
    Normalising line ends a second time changes the text exactly when the data
    holds CR CR LF.
   */
  lemma {:induction false} ReplaceTwiceIff(s: string)
    ensures ReplaceCrlf(ReplaceCrlf(s)) == ReplaceCrlf(s) <==> !HasCrCrLf(s)
  {
    ReplaceFixes(ReplaceCrlf(s));
    CrlfLeftOver(s);
  }

  /** The shortest text that normalising twice changes further. */
  lemma TwoCrs()
    ensures ReplaceCrlf(ReplaceCrlf("\r\r\n")) != ReplaceCrlf("\r\r\n")
  {
    var s := "\r\r\n";
    assert s[0] == '\r' && s[1] == '\r' && s[2] == '\n';
    assert HasCrCrLf(s);
    ReplaceTwiceIff(s);
  }

  // ----- the POP3 writer -----

  function Stuff(l: string): string {
    if l != "" && l[0] == '.' then "." + l else l
  }

  function WireLine(l: string): string {
    Stuff(l) + CRLF
  }

  function EncodeLines(lines: seq<string>): string {
    if lines == [] then "" else WireLine(lines[0]) + EncodeLines(lines[1..])
  }

  /** The bytes that a POP3 multi-line response carries for `data`. */
  function DotEncode(data: string): string {
    EncodeLines(NormalLines(data)) + END
  }

  lemma {:induction false} EncodeSnoc(lines: seq<string>, l: string)
    ensures EncodeLines(lines + [l]) == EncodeLines(lines) + WireLine(l)
  {
    if lines == [] {
      assert lines + [l] == [l];
      assert [l][1..] == [];
    } else {
      EncodeSnoc(lines[1..], l);
      assert (lines + [l])[1..] == lines[1..] + [l];
      Assoc(WireLine(lines[0]), EncodeLines(lines[1..]), WireLine(l));
    }
  }

  /** The buffered connection of a session: bytes still to be read, bytes written. */
  class ReadWriter {
    var input: string
    var output: string

    constructor (received: string)
      ensures input == received && output == ""
    {
      input, output := received, "";
    }

    method Write(s: string)
      modifies this`output
      ensures output == old(output) + s
    {
      output := output + s;
    }

    /** `ReadBytes('\n')`: the bytes up to and including the next line feed, or an error at the end of input. */
    method ReadLine() returns (line: string, ok: bool)
      modifies this`input
      ensures ok == !NoLf(old(input))
      ensures ok ==> line == NextLine(old(input)) && input == old(input)[|line|..]
      ensures !ok ==> input == ""
    {
      var n := 0;
      while n < |input| && input[n] != '\n'
        invariant n <= |input| && input == old(input)
        invariant forall i :: 0 <= i < n ==> input[i] != '\n'
      {
        n := n + 1;
      }
      if n == |input| {
        line, ok, input := input, false, "";
      } else {
        NextLineIs(input, n);
        line, ok, input := input[..n + 1], true, input[n + 1..];
      }
    }
  }

  /** The shortest prefix of `s` that ends in a line feed. */
  function NextLine(s: string): (line: string)
    requires !NoLf(s)
    ensures line <= s && line != "" && line[|line| - 1] == '\n' && NoLf(line[..|line| - 1])
  {
    if s[0] == '\n' then "\n" else
      var r := NextLine(s[1..]);
      var line := [s[0]] + r;
      assert line[..|line| - 1] == [s[0]] + r[..|r| - 1];
      line
  }

  lemma {:induction false} NextLineIs(s: string, n: nat)
    requires n < |s| && s[n] == '\n' && NoLf(s[..n])
    ensures NextLine(s) == s[..n + 1]
  {
    if n > 0 {
      assert s[0] == s[..n][0];
      assert forall c :: c in s[1..][..n - 1] ==> c in s[..n];
      NextLineIs(s[1..], n - 1);
    }
  }

  method WritePop3DotData(rw: ReadWriter, data: string)
    modifies rw`output
    ensures rw.output == old(rw.output) + DotEncode(data)
  {
    ghost var start := rw.output;
    var lines := NormalLines(data);
    WriteLines(rw, lines);
    Assoc(start, EncodeLines(lines), END);
    rw.Write(END);
  }

  /** The loop of the writer. */
  method WriteLines(rw: ReadWriter, lines: seq<string>)
    modifies rw`output
    ensures rw.output == old(rw.output) + EncodeLines(lines)
  {
    ghost var start := rw.output;
    var i := 0;
    while i < |lines|
      invariant i <= |lines|
      invariant rw.output == start + EncodeLines(lines[..i])
    {
      EncodeSnoc(lines[..i], lines[i]);
      assert lines[..i + 1] == lines[..i] + [lines[i]];
      Assoc(start, EncodeLines(lines[..i]), WireLine(lines[i]));
      if lines[i] != "" && lines[i][0] == '.' {
        rw.Write("." + lines[i] + CRLF);
      } else {
        rw.Write(lines[i] + CRLF);
      }
      i := i + 1;
    }
    assert lines[..i] == lines;
  }

  // ----- the client of section 3 of RFC 1939 -----

  function IndexCrlf(s: string): (i: nat)
    ensures i <= |s|
    ensures i < |s| ==> i + 1 < |s| && s[i] == '\r' && s[i + 1] == '\n'
    ensures forall j :: 0 <= j < i && j + 1 < |s| ==> !(s[j] == '\r' && s[j + 1] == '\n')
  {
    if |s| < 2 then |s|
    else if s[0] == '\r' && s[1] == '\n' then 0
    else 1 + IndexCrlf(s[1..])
  }

  /**
    A client reads lines that end in CRLF.  A lone dot ends the response; from any
    other line that begins with a dot the client strips that dot.  The result is
    the list of lines and the bytes after the response.
   */
  function ClientDecode(s: string): Option<(seq<string>, string)>
    decreases |s|
  {
    var i := IndexCrlf(s);
    if i == |s| then None
    else if s[..i] == "." then Some(([], s[i + 2..]))
    else Prepend([if i > 0 && s[0] == '.' then s[1..i] else s[..i]], ClientDecode(s[i + 2..]))
  }

  function Prepend(lines: seq<string>, r: Option<(seq<string>, string)>): Option<(seq<string>, string)> {
    match r
    case None => None
    case Some((ls, rest)) => Some((lines + ls, rest))
  }

  /** All CRLF-terminated lines of a byte string, without their line ends. */
  function CrlfLines(s: string): seq<string>
    decreases |s|
  {
    var i := IndexCrlf(s);
    if i == |s| then [] else [s[..i]] + CrlfLines(s[i + 2..])
  }

  lemma FirstCrlf(l: string, rest: string)
    requires NoLf(l)
    ensures var s := l + CRLF + rest; IndexCrlf(s) == |l| && s[..|l|] == l && s[|l| + 2..] == rest
  {
    var s := l + CRLF + rest;
    assert s[|l|] == '\r' && s[|l| + 1] == '\n';
    assert forall j :: 0 <= j <= |l| ==> s[j] != '\n';
  }

  /** Decoding one encoded line. */
  lemma ClientDecodesLine(l: string, w: string)
    requires NoLf(l)
    ensures ClientDecode(WireLine(l) + w) == Prepend([l], ClientDecode(w))
  {
    var s := Stuff(l) + CRLF + w;
    FirstCrlf(Stuff(l), w);
    if l != "" && l[0] == '.' {
      assert s[1..|l| + 1] == l;
      assert s[..|l| + 1] == "." + l;
    } else if l != "" {
      assert s[0] == l[0];
    }
  }

  lemma {:induction false} ClientDecodesLines(lines: seq<string>, w: string)
    requires AllNoLf(lines)
    ensures ClientDecode(EncodeLines(lines) + w) == Prepend(lines, ClientDecode(w))
  {
    if lines == [] {
      assert EncodeLines(lines) + w == w;
      PrependNone(ClientDecode(w));
    } else {
      Assoc(WireLine(lines[0]), EncodeLines(lines[1..]), w);
      ClientDecodesLine(lines[0], EncodeLines(lines[1..]) + w);
      ClientDecodesLines(lines[1..], w);
      PrependTwice(lines, ClientDecode(w));
    }
  }

  lemma PrependNone(r: Option<(seq<string>, string)>)
    ensures Prepend([], r) == r
  {
    if r.Some? {
      assert [] + r.value.0 == r.value.0;
    }
  }

  lemma PrependTwice(lines: seq<string>, r: Option<(seq<string>, string)>)
    requires lines != []
    ensures Prepend([lines[0]], Prepend(lines[1..], r)) == Prepend(lines, r)
  {
    if r.Some? {
      assert [lines[0]] + lines[1..] == lines;
      Assoc([lines[0]], lines[1..], r.value.0);
    }
  }

  lemma ClientDecodesEnd(tail: string)
    ensures ClientDecode(END + tail) == Some(([], tail))
  {
    FirstCrlf(".", tail);
    assert END + tail == "." + CRLF + tail;
  }

  /**
    A client that follows RFC 1939 gets back the lines of any stored message, and
    the bytes after the response are left for the next one.
   */
  lemma ClientReadsBack(data: string, tail: string)
    ensures ClientDecode(DotEncode(data) + tail) == Some((NormalLines(data), tail))
  {
    JoinOfSplit(ReplaceCrlf(data));
    ClientDecodesLines(NormalLines(data), END + tail);
    ClientDecodesEnd(tail);
    Assoc(EncodeLines(NormalLines(data)), END, tail);
    assert NormalLines(data) + [] == NormalLines(data);
  }

  lemma CrlfLinesCons(l: string, w: string)
    requires NoLf(l)
    ensures CrlfLines(WireLine(l) + w) == [Stuff(l)] + CrlfLines(w)
  {
    FirstCrlf(Stuff(l), w);
  }

  lemma {:induction false} EncodedCrlfLines(lines: seq<string>)
    requires AllNoLf(lines)
    ensures var w := CrlfLines(EncodeLines(lines) + END);
      |w| == |lines| + 1 && w[|lines|] == "." && forall i :: 0 <= i < |lines| ==> w[i] == Stuff(lines[i])
  {
    if lines == [] {
      FirstCrlf(".", "");
      assert "" + END == "." + CRLF + "";
    } else {
      Assoc(WireLine(lines[0]), EncodeLines(lines[1..]), END);
      CrlfLinesCons(lines[0], EncodeLines(lines[1..]) + END);
      EncodedCrlfLines(lines[1..]);
    }
  }

  /** The response holds the lone dot once, as its last line. */
  lemma LoneDotOnlyAtEnd(data: string)
    ensures var w := CrlfLines(DotEncode(data));
      |w| == |NormalLines(data)| + 1 && w[|w| - 1] == "." && forall i :: 0 <= i < |w| - 1 ==> w[i] != "."
  {
    JoinOfSplit(ReplaceCrlf(data));
    EncodedCrlfLines(NormalLines(data));
  }

  // ----- the LMTP reader -----

  function TrimEol(s: string): string {
    if s != "" && (s[|s| - 1] == '\r' || s[|s| - 1] == '\n') then TrimEol(s[..|s| - 1]) else s
  }

  /** A line end as the servers take it: any number of CRs and the line feed. */
  predicate IsEol(eol: string) {
    eol != "" && eol[|eol| - 1] == '\n' && forall i :: 0 <= i < |eol| - 1 ==> eol[i] == '\r'
  }

  /** The text of a line without its end. */
  predicate IsLineText(line: string) {
    NoLf(line) && (line != "" ==> line[|line| - 1] != '\r')
  }

  lemma {:induction false} TrimEolIs(line: string, ends: string)
    requires IsLineText(line) && forall i :: 0 <= i < |ends| ==> ends[i] == '\r' || ends[i] == '\n'
    ensures TrimEol(line + ends) == line
  {
    if ends == "" {
      assert line + ends == line;
      if line != "" {
        assert line[|line| - 1] in line;
      }
    } else {
      var s := line + ends;
      assert s[|s| - 1] == ends[|ends| - 1] && s[..|s| - 1] == line + ends[..|ends| - 1];
      TrimEolIs(line, ends[..|ends| - 1]);
    }
  }

  lemma {:induction false} TrimEolLeaves(s: string)
    ensures TrimEol(s) <= s
    ensures TrimEol(s) != "" ==> TrimEol(s)[|TrimEol(s)| - 1] != '\r' && TrimEol(s)[|TrimEol(s)| - 1] != '\n'
    ensures forall i :: |TrimEol(s)| <= i < |s| ==> s[i] == '\r' || s[i] == '\n'
  {
    if s != "" && (s[|s| - 1] == '\r' || s[|s| - 1] == '\n') {
      TrimEolLeaves(s[..|s| - 1]);
    }
  }

  /** Every line of a stream is a text and a line end. */
  lemma LineSplits(line: string)
    requires line != "" && line[|line| - 1] == '\n' && NoLf(line[..|line| - 1])
    ensures var t := TrimEol(line); IsLineText(t) && |t| <= |line| && IsEol(line[|t|..]) && line == t + line[|t|..]
  {
    TrimEolLeaves(line);
    var t := TrimEol(line);
    var n := |line| - 1;
    assert |t| <= n by {
      if t != "" {
        assert t[|t| - 1] == line[|t| - 1];
      }
    }
    assert t == line[..n][..|t|];
    assert forall c :: c in t ==> c in line[..n];
    forall i | |t| <= i < n ensures line[i] == '\r' {
      assert line[i] == line[..n][i];
    }
  }

  /** Reading the next line of a stream, and cutting off its end. */
  lemma TakesLine(line: string, eol: string, following: string)
    requires IsLineText(line) && IsEol(eol)
    ensures var s := (line + eol) + following;
      !NoLf(s) && NextLine(s) == line + eol && s[|NextLine(s)|..] == following && TrimEol(NextLine(s)) == line
  {
    var l := line + eol;
    var s := l + following;
    var n := |l| - 1;
    assert s[n] == '\n' && s[..n] == line + eol[..|eol| - 1] && s[..n + 1] == l;
    assert forall c :: c in s[..n] ==> c in line || c in eol[..|eol| - 1];
    NextLineIs(s, n);
    TrimEolIs(line, eol);
  }

  function Unstuff(line: string): string {
    if |line| >= 2 && line[0] == '.' && line[1] == '.' then line[1..] else line
  }

  /** The test for the end of data, made after the line has been unstuffed. */
  predicate EndsData(line: string) {
    TrimEol(Unstuff(line)) == "."
  }

  datatype ReadResult =
    | Body(raw: string, rest: string)
    | TooLarge(rest: string)
    | Eof

  /** The reader's loop: `buf` is what it has gathered from earlier lines. */
  function ReadFrom(s: string, buf: string, max: nat): ReadResult
    decreases |s|
  {
    if NoLf(s) then Eof
    else
      var line := NextLine(s);
      var rest := s[|line|..];
      if EndsData(line) then Body(buf, rest)
      else if |buf + Unstuff(line)| > max then TooLarge(rest)
      else ReadFrom(rest, buf + Unstuff(line), max)
  }

  method ReadLmtpDotData(rw: ReadWriter, max: nat) returns (r: ReadResult)
    modifies rw`input
    ensures r == ReadFrom(old(rw.input), "", max)
    ensures rw.input == if r.Eof? then "" else r.rest
  {
    var buf := "";
    while true
      invariant ReadFrom(old(rw.input), "", max) == ReadFrom(rw.input, buf, max)
      decreases |rw.input|
    {
      var line, ok := rw.ReadLine();
      if !ok {
        return Eof;
      }
      if |line| >= 2 && line[0] == '.' && line[1] == '.' {
        line := line[1..];
      }
      if TrimEol(line) == "." {
        return Body(buf, rw.input);
      }
      buf := buf + line;
      if |buf| > max {
        return TooLarge(rw.input);
      }
    }
  }

  // ----- what the reader accepts -----

  /** The complete lines of a stream, each with its line feed. */
  function WireLines(s: string): seq<string>
    decreases |s|
  {
    if NoLf(s) then [] else [NextLine(s)] + WireLines(s[|NextLine(s)|..])
  }

  function Concat(lines: seq<string>): string {
    if lines == [] then "" else lines[0] + Concat(lines[1..])
  }

  function UnstuffAll(lines: seq<string>): string {
    if lines == [] then "" else Unstuff(lines[0]) + UnstuffAll(lines[1..])
  }

  /** The index of the first line that ends the data, or the number of lines. */
  function FirstEnd(lines: seq<string>): (k: nat)
    ensures k <= |lines|
    ensures forall i :: 0 <= i < k ==> !EndsData(lines[i])
    ensures k < |lines| ==> EndsData(lines[k])
  {
    if lines == [] || EndsData(lines[0]) then 0 else 1 + FirstEnd(lines[1..])
  }

  lemma FirstEndCons(ls: seq<string>)
    requires ls != [] && !EndsData(ls[0])
    ensures var k := FirstEnd(ls);
      && k == 1 + FirstEnd(ls[1..])
      && UnstuffAll(ls[..k]) == Unstuff(ls[0]) + UnstuffAll(ls[1..][..k - 1])
      && (k < |ls| ==> Concat(ls[..k + 1]) == ls[0] + Concat(ls[1..][..k]))
  {
    var k := FirstEnd(ls);
    TailOfPrefix(ls, k);
    if k < |ls| {
      TailOfPrefix(ls, k + 1);
    }
  }

  ghost predicate ReadOutcome(s: string, buf: string, max: nat) {
    var ls := WireLines(s);
    var k := FirstEnd(ls);
    var r := ReadFrom(s, buf, max);
    && (r.Body? <==> k < |ls| && |buf| + |UnstuffAll(ls[..k])| <= max)
    && (r.Body? ==> r.raw == buf + UnstuffAll(ls[..k]) && s == Concat(ls[..k + 1]) + r.rest)
    && (r.Eof? ==> k == |ls|)
  }

  lemma ReadOutcomeCons(s: string, buf: string, max: nat)
    requires !NoLf(s)
    requires var line := NextLine(s);
      !EndsData(line) && |buf + Unstuff(line)| <= max && ReadOutcome(s[|line|..], buf + Unstuff(line), max)
    ensures ReadOutcome(s, buf, max)
  {
    var line := NextLine(s);
    var rest := s[|line|..];
    var ls := WireLines(s);
    var tail := WireLines(rest);
    assert ls[0] == line && ls[1..] == tail;
    FirstEndCons(ls);
    var k := FirstEnd(tail);
    assert FirstEnd(ls) == k + 1;
    Assoc(buf, Unstuff(line), UnstuffAll(tail[..k]));
    var r := ReadFrom(rest, buf + Unstuff(line), max);
    assert ReadFrom(s, buf, max) == r;
    assert buf + UnstuffAll(ls[..k + 1]) == (buf + Unstuff(line)) + UnstuffAll(tail[..k]);
    if r.Body? {
      RestAfter(s, line, Concat(tail[..k + 1]), r.rest);
    }
  }

  lemma RestAfter(s: string, line: string, middle: string, rest: string)
    requires line <= s && s[|line|..] == middle + rest
    ensures s == (line + middle) + rest
  {
    assert s == line + s[|line|..];
    Assoc(line, middle, rest);
  }

  lemma {:induction false} ReadFromIs(s: string, buf: string, max: nat)
    requires |buf| <= max
    ensures ReadOutcome(s, buf, max)
    decreases |s|
  {
    if !NoLf(s) {
      var line := NextLine(s);
      var rest := s[|line|..];
      var ls := WireLines(s);
      assert s == line + rest;
      assert ls[0] == line && ls[1..] == WireLines(rest);
      if EndsData(line) {
        assert ls[..1] == [line] && ls[..0] == [] && [line][1..] == [];
        assert line + "" == line && buf + "" == buf;
        assert Concat([line]) == line;
      } else {
        FirstEndCons(ls);
        if |buf + Unstuff(line)| <= max {
          ReadFromIs(rest, buf + Unstuff(line), max);
          ReadOutcomeCons(s, buf, max);
        }
      }
    }
  }

  /**
    The reader succeeds exactly when the stream holds a line that ends the data and
    the unstuffed lines before the first such line fit the limit.  It returns those
    lines, and what it has consumed ends with that line.
   */
  lemma ReadSucceedsIff(s: string, max: nat)
    ensures var ls := WireLines(s); var k := FirstEnd(ls); var r := ReadFrom(s, "", max);
      && (r.Body? <==> k < |ls| && |UnstuffAll(ls[..k])| <= max)
      && (r.Body? ==> r.raw == UnstuffAll(ls[..k]) && s == Concat(ls[..k + 1]) + r.rest)
      && (r.Eof? ==> k == |ls|)
  {
    ReadFromIs(s, "", max);
  }

  /** One dot, then nothing but CRs. */
  predicate BareDot(l: string) {
    l != "" && l[0] == '.' && forall i :: 1 <= i < |l| ==> l[i] == '\r'
  }

  lemma {:induction false} TrimEolToDot(l: string)
    requires NoLf(l)
    ensures TrimEol(l + "\n") == TrimEol(l)
    ensures TrimEol(l) == "." <==> BareDot(l)
  {
    assert (l + "\n")[..|l|] == l;
    if l != "" {
      assert l[|l| - 1] in l;
      if l[|l| - 1] == '\r' {
        var m := l[..|l| - 1];
        TrimEolToDot(m);
        assert BareDot(l) <==> BareDot(m);
      } else {
        assert BareDot(l) <==> l == ".";
      }
    }
  }

  /** Which lines end the data: a dot, or a stuffed dot, followed only by CRs. */
  lemma EndsDataIff(l: string)
    requires NoLf(l)
    ensures EndsData(l + "\n") <==> BareDot(l) || (l != "" && l[0] == '.' && BareDot(l[1..]))
  {
    TrimEolToDot(l);
    if |l| >= 2 && l[0] == '.' && l[1] == '.' {
      assert (l + "\n")[1..] == l[1..] + "\n";
      TrimEolToDot(l[1..]);
    }
  }

  // ----- writer and reader together -----

  function JoinCrlf(lines: seq<string>): string {
    if lines == [] then "" else (lines[0] + CRLF) + JoinCrlf(lines[1..])
  }

  function FirstBareDot(lines: seq<string>): (k: nat)
    ensures k <= |lines|
    ensures forall i :: 0 <= i < k ==> !BareDot(lines[i])
    ensures k < |lines| ==> BareDot(lines[k])
  {
    if lines == [] || BareDot(lines[0]) then 0 else 1 + FirstBareDot(lines[1..])
  }

  /** One encoded line on the wire, as the reader sees it. */
  lemma EncodedLineNext(l: string, w: string)
    requires NoLf(l)
    ensures var s := WireLine(l) + w; !NoLf(s) && NextLine(s) == WireLine(l) && s[|WireLine(l)|..] == w
  {
    var line := WireLine(l);
    var s := line + w;
    var n := |line| - 1;
    assert line[n] == '\n' && s[n] == '\n';
    assert s[..n] == line[..n] == Stuff(l) + "\r";
    NextLineIs(s, n);
  }

  lemma EncodedLineEnds(l: string)
    requires NoLf(l)
    ensures Unstuff(WireLine(l)) == l + CRLF
    ensures EndsData(WireLine(l)) <==> BareDot(l)
  {
    assert l + CRLF == (l + "\r") + "\n";
    TrimEolToDot(l + "\r");
    BareDotCr(l);
  }

  lemma BareDotCr(l: string)
    ensures BareDot(l + "\r") <==> BareDot(l)
  {
    assert forall i :: 0 <= i < |l| ==> l[i] == (l + "\r")[i];
  }

  lemma FirstLater(lines: seq<string>)
    requires lines != [] && !BareDot(lines[0])
    ensures FirstBareDot(lines) == 1 + FirstBareDot(lines[1..])
  {
  }

  lemma JoinCrlfPrefix(lines: seq<string>, k: nat)
    requires 0 < k <= |lines|
    ensures JoinCrlf(lines[..k]) == (lines[0] + CRLF) + JoinCrlf(lines[1..][..k - 1])
  {
    TailOfPrefix(lines, k);
  }

  lemma TailLater<T>(s: seq<T>, k: nat)
    requires k < |s|
    ensures s[1..][k..] == s[k + 1..]
  {
  }

  lemma FirstBareDotCons(lines: seq<string>)
    requires lines != [] && !BareDot(lines[0])
    ensures var k := FirstBareDot(lines);
      && k == 1 + FirstBareDot(lines[1..])
      && JoinCrlf(lines[..k]) == (lines[0] + CRLF) + JoinCrlf(lines[1..][..k - 1])
      && (k < |lines| ==> lines[k + 1..] == lines[1..][k..])
  {
    FirstLater(lines);
    var k := FirstBareDot(lines);
    JoinCrlfPrefix(lines, k);
    if k < |lines| {
      TailLater(lines, k);
    }
  }

  /** Reading one encoded line. */
  lemma ReadOfLine(l: string, w: string, buf: string, max: nat)
    requires NoLf(l)
    ensures ReadFrom(WireLine(l) + w, buf, max) ==
      if BareDot(l) then Body(buf, w)
      else if |buf + (l + CRLF)| > max then TooLarge(w)
      else ReadFrom(w, buf + (l + CRLF), max)
  {
    EncodedLineNext(l, w);
    EncodedLineEnds(l);
  }

  /** What the reader makes of encoded lines: it gets to the first bare dot, or past all of them. */
  ghost predicate GetsTo(r: ReadResult, lines: seq<string>, w: string, buf: string, max: nat) {
    var k := FirstBareDot(lines);
    var got := buf + JoinCrlf(lines[..k]);
    if |got| > max then r.TooLarge?
    else r == if k < |lines| then Body(got, EncodeLines(lines[k + 1..]) + w) else ReadFrom(w, got, max)
  }

  lemma GetsToHere(lines: seq<string>, w: string, buf: string, max: nat)
    requires lines != [] && BareDot(lines[0]) && |buf| <= max
    ensures GetsTo(Body(buf, EncodeLines(lines[1..]) + w), lines, w, buf, max)
  {
    assert FirstBareDot(lines) == 0 && lines[..0] == [];
    assert buf + JoinCrlf([]) == buf;
  }

  lemma GetsToNowhere(r: ReadResult, lines: seq<string>, w: string, buf: string, max: nat)
    requires lines != [] && !BareDot(lines[0]) && |buf + (lines[0] + CRLF)| > max && r.TooLarge?
    ensures GetsTo(r, lines, w, buf, max)
  {
    FirstBareDotCons(lines);
  }

  lemma GetsToCons(r: ReadResult, lines: seq<string>, w: string, buf: string, max: nat)
    requires lines != [] && !BareDot(lines[0]) && GetsTo(r, lines[1..], w, buf + (lines[0] + CRLF), max)
    ensures GetsTo(r, lines, w, buf, max)
  {
    FirstBareDotCons(lines);
    Assoc(buf, lines[0] + CRLF, JoinCrlf(lines[1..][..FirstBareDot(lines) - 1]));
  }

  /** Where reading encoded lines gets to, whatever the lines are. */
  lemma {:induction false} ReadOfEncoded(lines: seq<string>, w: string, buf: string, max: nat)
    requires AllNoLf(lines) && |buf| <= max
    ensures GetsTo(ReadFrom(EncodeLines(lines) + w, buf, max), lines, w, buf, max)
    decreases |lines|
  {
    if lines == [] {
      assert EncodeLines(lines) + w == w;
      assert buf + JoinCrlf(lines) == buf;
    } else {
      var l, w' := lines[0], EncodeLines(lines[1..]) + w;
      Assoc(WireLine(l), EncodeLines(lines[1..]), w);
      ReadOfLine(l, w', buf, max);
      if BareDot(l) {
        GetsToHere(lines, w, buf, max);
      } else if |buf + (l + CRLF)| > max {
        GetsToNowhere(TooLarge(w'), lines, w, buf, max);
      } else {
        ReadOfEncoded(lines[1..], w, buf + (l + CRLF), max);
        GetsToCons(ReadFrom(w', buf + (l + CRLF), max), lines, w, buf, max);
      }
    }
  }

  lemma ReadOfEnd(tail: string, buf: string, max: nat)
    ensures ReadFrom(END + tail, buf, max) == Body(buf, tail)
  {
    var s := END + tail;
    assert s[2] == '\n' && s[..2] == ".\r";
    NextLineIs(s, 2);
    assert s[..3] == ".\r" + "\n" && s[3..] == tail;
    EndsDataIff(".\r");
  }

  lemma {:induction false} JoinCrlfShorter(lines: seq<string>, k: nat)
    requires k < |lines|
    ensures |JoinCrlf(lines[..k])| < |JoinCrlf(lines)|
  {
    if k > 0 {
      assert lines[..k][1..] == lines[1..][..k - 1];
      JoinCrlfShorter(lines[1..], k - 1);
    }
  }

  /** What the reader returns for framed lines that fit, with any bytes after them. */
  ghost function ReadBack(lines: seq<string>, tail: string): ReadResult {
    var k := FirstBareDot(lines);
    var got := JoinCrlf(lines[..k]);
    if k < |lines| then Body(got, EncodeLines(lines[k + 1..]) + (END + tail))
    else Body(got, tail)
  }

  lemma ReadOfFramed(lines: seq<string>, tail: string, max: nat)
    requires AllNoLf(lines)
    ensures var r := ReadFrom(EncodeLines(lines) + (END + tail), "", max);
      if |ReadBack(lines, tail).raw| > max then r.TooLarge? else r == ReadBack(lines, tail)
  {
    var got := JoinCrlf(lines[..FirstBareDot(lines)]);
    ReadOfEncoded(lines, END + tail, "", max);
    ReadOfEnd(tail, got, max);
    assert "" + got == got;
  }

  /**
    Reading back what the POP3 writer wrote, with any bytes after it.  The reader
    stops at the first normalised line that is one dot followed only by CRs, or at
    the real end if there is none.
   */
  lemma {:induction false} ReadStopsAtFirstBareDot(data: string, tail: string, max: nat)
    ensures var r := ReadFrom(DotEncode(data) + tail, "", max);
      var back := ReadBack(NormalLines(data), tail);
      if |back.raw| > max then r.TooLarge? else r == back
  {
    var ls := NormalLines(data);
    JoinOfSplit(ReplaceCrlf(data));
    ReadOfFramed(ls, tail, max);
    Assoc(EncodeLines(ls), END, tail);
  }

  /**
    The round trip is exact if and only if the message fits and none of its lines is
    one dot followed only by CRs.
   */
  lemma RoundTripIff(data: string, tail: string, max: nat)
    ensures ReadFrom(DotEncode(data) + tail, "", max) == Body(JoinCrlf(NormalLines(data)), tail)
      <==> |JoinCrlf(NormalLines(data))| <= max && forall l :: l in NormalLines(data) ==> !BareDot(l)
  {
    var ls := NormalLines(data);
    var k := FirstBareDot(ls);
    ReadStopsAtFirstBareDot(data, tail, max);
    if k < |ls| {
      assert ls[k] in ls;
      JoinCrlfShorter(ls, k);
    } else {
      assert ls[..k] == ls;
    }
  }

  /** A one-line message made of a dot is lost by the reader: its stuffed form ends the data. */
  lemma StuffedDotEndsData(tail: string, max: nat)
    ensures NormalLines(".") == ["."]
    ensures ReadFrom(DotEncode(".") + tail, "", max) == Body("", END + tail)
  {
    SplitOfLine(".", "");
    ReadStopsAtFirstBareDot(".", tail, max);
    ReadBackDot(["."], tail);
  }

  lemma ReadBackDot(lines: seq<string>, tail: string)
    requires |lines| == 1 && BareDot(lines[0])
    ensures ReadBack(lines, tail) == Body("", END + tail)
  {
    assert lines[1..] == [] && lines[..0] == [];
    assert "" + (END + tail) == END + tail;
  }

  // ----- from the sending MTA to the POP3 client -----

  lemma {:induction false} NormalLinesOfJoin(lines: seq<string>)
    requires AllNoLf(lines)
    ensures NormalLines(JoinCrlf(lines)) == lines + [""]
  {
    NormalLinesAre(JoinCrlf(lines));
    RawSplit(lines);
  }

  lemma {:induction false} RawSplit(lines: seq<string>)
    requires AllNoLf(lines)
    ensures DropLineEndCrs(SplitLf(JoinCrlf(lines))) == lines + [""]
  {
    if lines != [] {
      assert NoLf(lines[0]);
      var rest := JoinCrlf(lines[1..]);
      RawSplit(lines[1..]);
      assert JoinCrlf(lines) == (lines[0] + "\r") + "\n" + rest;
      SplitOfLine(lines[0] + "\r", rest);
      DropCons(lines[0] + "\r", SplitLf(rest));
      assert DropOneCr(lines[0] + "\r") == lines[0];
      Assoc([lines[0]], lines[1..], [""]);
      assert [lines[0]] + lines[1..] == lines;
    }
  }

  /**
    Fidelity over both hops.  If an MTA sends the lines of a message in the format of
    RFC 5321, none of them a dot followed only by CRs, and they fit the limit, then
    the text stored by the LMTP server, fetched with RETR, gives an RFC 1939 client
    those same lines, followed by the empty line after the last CRLF.
   */
  lemma {:induction false} DeliveredThenRetrieved(lines: seq<string>, after: string, max: nat, tail: string)
    requires AllNoLf(lines) && forall l :: l in lines ==> !BareDot(l)
    requires |JoinCrlf(lines)| <= max
    ensures var r := ReadFrom(EncodeLines(lines) + (END + after), "", max);
      r == Body(JoinCrlf(lines), after) && ClientDecode(DotEncode(r.raw) + tail) == Some((lines + [""], tail))
  {
    ReadOfFramed(lines, after, max);
    assert lines[..|lines|] == lines;
    NormalLinesOfJoin(lines);
    ClientReadsBack(JoinCrlf(lines), tail);
  }
}
