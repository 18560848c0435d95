/**
  Byte strings and the few Go string helpers the servers use.

  A byte string is a `string`; every char stands for one byte.  Letter case and
  white space follow ASCII.
 */
module Text {

  datatype Option<+T> = None | Some(value: T)

  lemma Assoc<T>(a: seq<T>, b: seq<T>, c: seq<T>)
    ensures (a + b) + c == a + (b + c)
  {
  }

  lemma CutAt<T>(s: seq<T>, k: nat)
    requires k <= |s|
    ensures s == s[..k] + s[k..]
  {
  }

  lemma TailOfPrefix<T>(s: seq<T>, k: nat)
    requires 0 < k <= |s|
    ensures s[..k][1..] == s[1..][..k - 1]
  {
  }

  /** `strings.Split` with a one-character separator. */
  function Split(s: string, sep: char): (parts: seq<string>)
    ensures parts != []
  {
    if s == "" then [""]
    else
      var r := Split(s[1..], sep);
      if s[0] == sep then [""] + r else [[s[0]] + r[0]] + r[1..]
  }

  lemma SplitCons(c: char, s: string, sep: char)
    ensures Split([c] + s, sep) == if c == sep then [""] + Split(s, sep) else [[c] + Split(s, sep)[0]] + Split(s, sep)[1..]
  {
    assert ([c] + s)[1..] == s;
  }

  lemma {:induction false} SplitNoSep(s: string, sep: char)
    requires sep !in s
    ensures Split(s, sep) == [s]
  {
    if s != "" {
      assert s[0] in s;
      SplitNoSep(s[1..], sep);
      assert s == [s[0]] + s[1..];
    }
  }

  lemma {:induction false} SplitAt(a: string, sep: char, b: string)
    ensures Split(a + [sep] + b, sep) == Split(a, sep) + Split(b, sep)
  {
    if a == "" {
      assert a + [sep] + b == [sep] + b;
      SplitCons(sep, b, sep);
    } else {
      SplitAt(a[1..], sep, b);
      assert a == [a[0]] + a[1..] && a + [sep] + b == [a[0]] + (a[1..] + [sep] + b);
      SplitMore(a[0], a[1..], a[1..] + [sep] + b, sep, Split(b, sep));
    }
  }

  lemma SplitMore(c: char, a: string, s: string, sep: char, rest: seq<string>)
    requires Split(s, sep) == Split(a, sep) + rest
    ensures Split([c] + s, sep) == Split([c] + a, sep) + rest
  {
    SplitCons(c, a, sep);
    SplitCons(c, s, sep);
    SplitHead(c, sep, Split(a, sep), rest);
  }

  lemma SplitHead(c: char, sep: char, r: seq<string>, t: seq<string>)
    requires r != []
    ensures [""] + (r + t) == ([""] + r) + t
    ensures [[c] + (r + t)[0]] + (r + t)[1..] == ([[c] + r[0]] + r[1..]) + t
  {
  }

  /** The offset of the first `c`, or the length. */
  function IndexOf(s: string, c: char): (i: nat)
    ensures i <= |s| && c !in s[..i] && (i < |s| ==> s[i] == c)
  {
    if s == "" || s[0] == c then 0 else
      var i := 1 + IndexOf(s[1..], c);
      assert s[..i] == [s[0]] + s[1..][..i - 1];
      i
  }

  lemma {:induction false} IndexOfIs(s: string, c: char, k: nat)
    requires k < |s| && s[k] == c && c !in s[..k]
    ensures IndexOf(s, c) == k
  {
    if k > 0 {
      assert s[0] == s[..k][0] && s[1..][..k - 1] == s[..k][1..];
      IndexOfIs(s[1..], c, k - 1);
    }
  }

  // ----- letter case and white space -----

  function LowerChar(c: char): char {
    if 'A' <= c <= 'Z' then (c as int + 32) as char else c
  }

  function UpperChar(c: char): char {
    if 'a' <= c <= 'z' then (c as int - 32) as char else c
  }

  function ToLower(s: string): (r: string)
    ensures |r| == |s|
    ensures forall i :: 0 <= i < |s| ==> r[i] == LowerChar(s[i])
  {
    seq(|s|, i requires 0 <= i < |s| => LowerChar(s[i]))
  }

  function ToUpper(s: string): (r: string)
    ensures |r| == |s|
    ensures forall i :: 0 <= i < |s| ==> r[i] == UpperChar(s[i])
  {
    seq(|s|, i requires 0 <= i < |s| => UpperChar(s[i]))
  }

  predicate EqualFold(a: string, b: string) {
    ToLower(a) == ToLower(b)
  }

  predicate IsSpace(c: char) {
    c == ' ' || ('\t' <= c <= '\r')
  }

  const SMALL := "abcdefghijklmnopqrstuvwxyz"
  const LARGE := "ABCDEFGHIJKLMNOPQRSTUVWXYZ"

  /** Exactly the 26 letters have two cases, and each goes to its partner. */
  lemma CaseOf(c: char, i: nat)
    requires i < 26
    ensures c == LARGE[i] ==> LowerChar(c) == SMALL[i]
    ensures c == SMALL[i] ==> UpperChar(c) == LARGE[i]
    ensures c !in LARGE ==> LowerChar(c) == c
    ensures c !in SMALL ==> UpperChar(c) == c
  {
    LetterAt(i);
    if 'A' <= c <= 'Z' {
      LetterAt((c - 'A') as int);
      assert c == LARGE[(c - 'A') as int];
    }
    if 'a' <= c <= 'z' {
      LetterAt((c - 'a') as int);
      assert c == SMALL[(c - 'a') as int];
    }
  }

  lemma LetterAt(i: nat)
    requires i < 26
    ensures SMALL[i] as int == 'a' as int + i && LARGE[i] as int == 'A' as int + i
  {
  }

  /** White space is the six characters of ASCII: tab, line feed, vertical tab, form feed, carriage return and space. */
  lemma SpacesAre(c: char)
    ensures IsSpace(c) <==> c as int in {9, 10, 11, 12, 13, 32}
  {
  }

  function TrimLeft(s: string): string {
    if s != "" && IsSpace(s[0]) then TrimLeft(s[1..]) else s
  }

  function TrimRight(s: string): string {
    if s != "" && IsSpace(s[|s| - 1]) then TrimRight(s[..|s| - 1]) else s
  }

  function TrimSpace(s: string): string {
    TrimRight(TrimLeft(s))
  }

  predicate Trimmed(s: string) {
    s != "" ==> !IsSpace(s[0]) && !IsSpace(s[|s| - 1])
  }

  /** The form in which e-mail addresses are stored and compared. */
  function Normal(s: string): string {
    ToLower(TrimSpace(s))
  }

  lemma {:induction false} TrimRightTrims(s: string)
    ensures TrimRight(s) <= s
    ensures TrimRight(s) == "" || !IsSpace(TrimRight(s)[|TrimRight(s)| - 1])
  {
    if s != "" && IsSpace(s[|s| - 1]) {
      TrimRightTrims(s[..|s| - 1]);
    }
  }

  lemma {:induction false} TrimLeftTrims(s: string)
    ensures TrimLeft(s) == "" || !IsSpace(TrimLeft(s)[0])
  {
    if s != "" && IsSpace(s[0]) {
      TrimLeftTrims(s[1..]);
    }
  }

  lemma TrimSpaceTrims(s: string)
    ensures Trimmed(TrimSpace(s))
  {
    TrimLeftTrims(s);
    TrimRightTrims(TrimLeft(s));
  }

  predicate AllSpace(s: string) {
    forall i :: 0 <= i < |s| ==> IsSpace(s[i])
  }

  lemma {:induction false} TrimLeftIs(p: string, t: string)
    requires AllSpace(p) && (t != "" ==> !IsSpace(t[0]))
    ensures TrimLeft(p + t) == t
  {
    if p == "" {
      assert p + t == t;
    } else {
      assert (p + t)[0] == p[0] && (p + t)[1..] == p[1..] + t;
      TrimLeftIs(p[1..], t);
    }
  }

  lemma {:induction false} TrimRightIs(t: string, q: string)
    requires AllSpace(q) && (t != "" ==> !IsSpace(t[|t| - 1]))
    ensures TrimRight(t + q) == t
  {
    if q == "" {
      assert t + q == t;
    } else {
      var s := t + q;
      assert s[|s| - 1] == q[|q| - 1] && s[..|s| - 1] == t + q[..|q| - 1];
      TrimRightIs(t, q[..|q| - 1]);
    }
  }

  /** Trimming takes away the outer white space and nothing else. */
  lemma TrimSpaceIs(p: string, t: string, q: string)
    requires AllSpace(p) && AllSpace(q) && Trimmed(t)
    ensures TrimSpace(p + (t + q)) == t
  {
    if t != "" {
      assert (t + q)[0] == t[0];
      TrimLeftIs(p, t + q);
      TrimRightIs(t, q);
    } else {
      assert p + (t + q) == (p + q) + "";
      TrimLeftIs(p + q, "");
    }
  }

  /** Normalising an address twice changes nothing. */
  lemma NormalIdempotent(s: string)
    ensures Normal(Normal(s)) == Normal(s)
  {
    TrimSpaceTrims(s);
    var t := TrimSpace(s);
    var n := Normal(s);
    assert forall i :: 0 <= i < |n| ==> n[i] == LowerChar(t[i]);
    assert Trimmed(n);
    assert TrimSpace(n) == n;
    assert ToLower(n) == n;
  }

  lemma {:induction false} LowerTrimLeft(s: string)
    ensures TrimLeft(ToLower(s)) == ToLower(TrimLeft(s))
  {
    if s != "" && IsSpace(s[0]) {
      LowerTrimLeft(s[1..]);
      assert ToLower(s)[1..] == ToLower(s[1..]);
    }
  }

  lemma {:induction false} LowerTrimRight(s: string)
    ensures TrimRight(ToLower(s)) == ToLower(TrimRight(s))
  {
    if s != "" && IsSpace(s[|s| - 1]) {
      LowerTrimRight(s[..|s| - 1]);
      assert ToLower(s)[..|s| - 1] == ToLower(s[..|s| - 1]);
    }
  }

  /** Lowering and trimming may be swapped. */
  lemma LowerTrim(s: string)
    ensures TrimSpace(ToLower(s)) == ToLower(TrimSpace(s))
  {
    LowerTrimLeft(s);
    LowerTrimRight(TrimLeft(s));
  }

  // ----- command lines -----

  /** The verb that a first word stands for: letter case and outer white space do not matter. */
  function Verb(w: string): string {
    ToUpper(TrimSpace(w))
  }

  /** The line is a word, or a word, one space and an argument. */
  predicate Reads(line: string, w: string, a: string) {
    ' ' !in w && ((line == w && a == "") || line == w + " " + a)
  }

  lemma FirstWord(line: string, w: string, a: string)
    requires Reads(line, w, a)
    ensures var k := IndexOf(line, ' ');
      k == |w| && line[..k] == w && (if k < |line| then line[k + 1..] else "") == a
  {
    if line == w && a == "" {
      assert line[..|line|] == line;
    } else {
      assert line[..|w|] == w && line[|w| + 1..] == a;
      IndexOfIs(line, ' ', |w|);
    }
  }

  function WordOf(line: string): string {
    line[..IndexOf(line, ' ')]
  }

  function RestOf(line: string): string {
    if IndexOf(line, ' ') < |line| then line[IndexOf(line, ' ') + 1..] else ""
  }

  /** Every line reads as a word and an argument, in one way. */
  lemma EveryLineReads(line: string, w: string, a: string)
    ensures Reads(line, w, a) <==> w == WordOf(line) && a == RestOf(line)
  {
    var k := IndexOf(line, ' ');
    if k < |line| {
      assert line == line[..k] + " " + line[k + 1..];
    } else {
      assert line[..k] == line;
    }
    if Reads(line, w, a) {
      FirstWord(line, w, a);
    }
  }

  // ----- decimal numbers -----

  predicate IsDigit(c: char) {
    '0' <= c <= '9'
  }

  predicate AllDigits(s: string) {
    forall i :: 0 <= i < |s| ==> IsDigit(s[i])
  }

  function DigitsValue(s: string): nat
    requires AllDigits(s)
  {
    if s == "" then 0
    else 10 * DigitsValue(s[..|s| - 1]) + (s[|s| - 1] as int - '0' as int)
  }

  /** A decimal number without a sign. */
  function Decimal(s: string): Option<nat> {
    if s != "" && AllDigits(s) then Some(DigitsValue(s)) else None
  }

  const MAX_INT64 := 0x7fff_ffff_ffff_ffff

  /** `strconv.Atoi` on a 64-bit platform. */
  function Atoi(s: string): Option<int> {
    var negative := s != "" && s[0] == '-';
    var digits := if s != "" && (s[0] == '-' || s[0] == '+') then s[1..] else s;
    if digits == "" || !AllDigits(digits) then None
    else
      var m: int := DigitsValue(digits);
      var v := if negative then -m else m;
      if -MAX_INT64 - 1 <= v <= MAX_INT64 then Some(v) else None
  }

  /** The `%d` verb on a natural number. */
  function Itoa(n: nat): string {
    if n < 10 then [(n + '0' as int) as char]
    else Itoa(n / 10) + [(n % 10 + '0' as int) as char]
  }

  lemma {:induction false} ItoaDigits(n: nat)
    ensures Itoa(n) != "" && AllDigits(Itoa(n)) && DigitsValue(Itoa(n)) == n
  {
    if n >= 10 {
      ItoaDigits(n / 10);
      assert Itoa(n)[..|Itoa(n)| - 1] == Itoa(n / 10);
    } else {
      assert Itoa(n)[..0] == "";
    }
  }

  lemma AtoiOfItoa(n: nat)
    requires n <= MAX_INT64
    ensures TrimSpace(Itoa(n)) == Itoa(n)
    ensures Atoi(Itoa(n)) == Some(n)
  {
    ItoaDigits(n);
    var s := Itoa(n);
    assert IsDigit(s[0]) && IsDigit(s[|s| - 1]);
    assert s == TrimLeft(s);
  }

  // ----- lexicographic order -----

  /** Byte-wise order, as SQLite compares TEXT and `sort.Strings` compares strings. */
  predicate Less(a: string, b: string) {
    b != "" && (a == "" || a[0] < b[0] || (a[0] == b[0] && Less(a[1..], b[1..])))
  }

  lemma {:induction false} LessIrreflexive(a: string)
    ensures !Less(a, a)
  {
    if a != "" {
      LessIrreflexive(a[1..]);
    }
  }

  lemma {:induction false} LessTransitive(a: string, b: string, c: string)
    requires Less(a, b) && Less(b, c)
    ensures Less(a, c)
  {
    if a != "" && a[0] == b[0] == c[0] {
      LessTransitive(a[1..], b[1..], c[1..]);
    }
  }

  lemma {:induction false} LessTotal(a: string, b: string)
    ensures a == b || Less(a, b) || Less(b, a)
  {
    if a != "" && b != "" && a[0] == b[0] {
      LessTotal(a[1..], b[1..]);
      assert a == [a[0]] + a[1..] && b == [b[0]] + b[1..];
    }
  }

  /** A common prefix does not affect the comparison. */
  lemma {:induction false} LessPrefix(p: string, a: string, b: string)
    ensures Less(p + a, p + b) == Less(a, b)
  {
    if p == "" {
      assert p + a == a && p + b == b;
    } else {
      assert (p + a)[1..] == p[1..] + a && (p + b)[1..] == p[1..] + b;
      LessPrefix(p[1..], a, b);
    }
  }
}
