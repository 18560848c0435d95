/**
  The writer that wraps base64 text into lines of 76 characters, as section 6.8 of
  RFC 2045 requires.
 */
module LineWriter {
  import opened Text
  import opened DotData

  const WIDTH := 76

  /** The wrapped form of a text: full lines, each followed by CRLF, and the last line. */
  function Wrap(s: string): string
    decreases |s|
  {
    if |s| <= WIDTH then s else s[..WIDTH] + CRLF + Wrap(s[WIDTH..])
  }

  /** The length of the last line. */
  function Column(n: nat): nat {
    if n == 0 then 0 else (n - 1) % WIDTH + 1
  }

  /** Where the encoded part goes; it takes `room` more writes and then fails. */
  class Sink {
    var output: string
    var room: nat

    constructor (room: nat)
      ensures output == "" && this.room == room
    {
      output := "";
      this.room := room;
    }

    method Write(s: string) returns (ok: bool)
      modifies this
      ensures ok == (old(room) > 0)
      ensures ok ==> output == old(output) + s && room == old(room) - 1
      ensures !ok ==> output == old(output) && room == 0
    {
      ok := room > 0;
      if ok {
        output := output + s;
        room := room - 1;
      }
    }
  }

  class Base64LineWriter {
    const w: Sink
    var n: nat

    constructor (w: Sink)
      ensures this.w == w && n == 0
    {
      this.w := w;
      n := 0;
    }

    /** `text` is what the successful writes so far have carried. */
    ghost predicate Valid(text: string)
      reads this, w
    {
      w.output == Wrap(text) && n == Column(|text|)
    }

    /**
      Writes p.  On failure `written` characters of p have gone out, possibly with
      the line break that was to come before the next one.
     */
    method Write(p: string, ghost text: string) returns (written: nat, ok: bool)
      requires Valid(text)
      modifies this, w
      ensures written <= |p| && (ok <==> written == |p|)
      ensures ok ==> Valid(text + p)
      ensures !ok ==> w.output == Wrap(text + p[..written]) || w.output == Wrap(text + p[..written]) + CRLF
      ensures !ok ==> w.room == 0
    {
      written := 0;
      assert text + p[..0] == text;
      while written < |p|
        invariant written <= |p|
        invariant Valid(text + p[..written])
      {
        ghost var sofar := text + p[..written];
        assert text + p[..written + 1] == sofar + [p[written]];
        WrapSnoc(sofar, p[written]);
        if n == WIDTH {
          ok := w.Write(CRLF);
          if !ok {
            return written, false;
          }
          n := 0;
        }
        ok := w.Write([p[written]]);
        if !ok {
          return written, false;
        }
        n := n + 1;
        written := written + 1;
      }
      ok := true;
      assert p[..written] == p;
    }
  }

  /** One more character: a line break comes first exactly when the last line is full. */
  lemma {:induction false} WrapSnoc(s: string, c: char)
    ensures Wrap(s + [c]) == Wrap(s) + (if Column(|s|) == WIDTH then CRLF else "") + [c]
    ensures Column(|s| + 1) == (if Column(|s|) == WIDTH then 1 else Column(|s|) + 1)
    decreases |s|
  {
    if |s| <= WIDTH {
      if |s| == WIDTH {
        assert (s + [c])[..WIDTH] == s && (s + [c])[WIDTH..] == [c];
      } else {
        assert s + "" + [c] == s + [c];
      }
    } else {
      WrapSnoc(s[WIDTH..], c);
      assert (s + [c])[..WIDTH] == s[..WIDTH] && (s + [c])[WIDTH..] == s[WIDTH..] + [c];
      assert Column(|s|) == Column(|s| - WIDTH);
      var brk := if Column(|s|) == WIDTH then CRLF else "";
      Assoc(s[..WIDTH] + CRLF, Wrap(s[WIDTH..]), brk);
      Assoc(s[..WIDTH] + CRLF, Wrap(s[WIDTH..]) + brk, [c]);
    }
  }

  /** n > 0 characters take n + 2 * ((n - 1) / 76) bytes. */
  lemma {:induction false} WrapLength(s: string)
    requires s != ""
    ensures |Wrap(s)| == |s| + 2 * ((|s| - 1) / 76)
    decreases |s|
  {
    if |s| > WIDTH {
      WrapLength(s[WIDTH..]);
    }
  }

  /** Removing every CRLF, in one pass. */
  function StripCrlf(s: string): string {
    if |s| < 2 then s
    else if s[0] == '\r' && s[1] == '\n' then StripCrlf(s[2..])
    else [s[0]] + StripCrlf(s[1..])
  }

  lemma {:induction false} StripNothing(s: string)
    requires !HasCrlf(s)
    ensures StripCrlf(s) == s
  {
    if |s| >= 2 {
      assert s == [s[0]] + s[1..];
      HasCrlfCons(s[0], s[1..]);
      StripNothing(s[1..]);
    }
  }

  lemma StripCons(c: char, s: string)
    requires !(c == '\r' && s != "" && s[0] == '\n')
    ensures StripCrlf([c] + s) == [c] + StripCrlf(s)
  {
    assert ([c] + s)[1..] == s;
  }

  lemma {:induction false} StripAcross(a: string, b: string)
    requires !HasCrlf(a)
    ensures StripCrlf(a + (CRLF + b)) == a + StripCrlf(b)
  {
    if a == "" {
      assert "" + (CRLF + b) == CRLF + b;
      assert (CRLF + b)[2..] == b;
      assert "" + StripCrlf(b) == StripCrlf(b);
    } else {
      assert a == [a[0]] + a[1..];
      HasCrlfCons(a[0], a[1..]);
      StripAcross(a[1..], b);
      Assoc([a[0]], a[1..], CRLF + b);
      StripCons(a[0], a[1..] + (CRLF + b));
      Assoc([a[0]], a[1..], StripCrlf(b));
    }
  }

  lemma HasCrlfParts(s: string, k: nat)
    requires k <= |s| && !HasCrlf(s)
    ensures !HasCrlf(s[..k]) && !HasCrlf(s[k..])
  {
  }

  /** A decoder that skips line breaks gets the text back. */
  lemma {:induction false} StripWrap(s: string)
    requires !HasCrlf(s)
    ensures StripCrlf(Wrap(s)) == s
    decreases |s|
  {
    if |s| <= WIDTH {
      StripNothing(s);
    } else {
      HasCrlfParts(s, WIDTH);
      StripAcross(s[..WIDTH], Wrap(s[WIDTH..]));
      Assoc(s[..WIDTH], CRLF, Wrap(s[WIDTH..]));
      StripWrap(s[WIDTH..]);
      CutAt(s, WIDTH);
    }
  }

  /** The lines of a text that ends without a line break. */
  function Lines(s: string): (r: seq<string>)
    ensures r != []
    decreases |s|
  {
    var i := IndexCrlf(s);
    if i == |s| then [s] else [s[..i]] + Lines(s[i + 2..])
  }

  lemma NoCrlfIndex(s: string)
    requires NoLf(s)
    ensures IndexCrlf(s) == |s|
  {
  }

  lemma LinesCons(l: string, w: string)
    requires NoLf(l)
    ensures Lines(l + CRLF + w) == [l] + Lines(w)
  {
    FirstCrlf(l, w);
  }

  /** Every line but the last has exactly 76 characters, and the last has at most 76 and is not empty. */
  lemma {:induction false} WrapLines(s: string)
    requires NoLf(s) && s != ""
    ensures var ls := Lines(Wrap(s));
      && (forall i :: 0 <= i < |ls| - 1 ==> |ls[i]| == 76)
      && 1 <= |ls[|ls| - 1]| <= 76
    decreases |s|
  {
    if |s| <= WIDTH {
      NoCrlfIndex(s);
    } else {
      assert forall c :: c in s[..WIDTH] || c in s[WIDTH..] ==> c in s;
      LinesCons(s[..WIDTH], Wrap(s[WIDTH..]));
      WrapLines(s[WIDTH..]);
    }
  }

  /** A series of writes: the sink gets the wrapped form of everything, wherever it was cut. */
  method WriteAll(lw: Base64LineWriter, pieces: seq<string>) returns (ok: bool)
    requires lw.Valid("")
    modifies lw, lw.w
    ensures ok ==> lw.w.output == Wrap(Concat(pieces))
    ensures !ok ==> lw.w.room == 0
  {
    ghost var text := "";
    var i := 0;
    while i < |pieces|
      invariant i <= |pieces|
      invariant text == Concat(pieces[..i]) && lw.Valid(text)
    {
      var written;
      written, ok := lw.Write(pieces[i], text);
      if !ok {
        return false;
      }
      text := text + pieces[i];
      ConcatSnoc(pieces[..i], pieces[i]);
      assert pieces[..i + 1] == pieces[..i] + [pieces[i]];
      i := i + 1;
    }
    assert pieces[..i] == pieces;
    ok := true;
  }

  lemma {:induction false} ConcatSnoc(pieces: seq<string>, p: string)
    ensures Concat(pieces + [p]) == Concat(pieces) + p
  {
    if pieces == [] {
      assert pieces + [p] == [p] && [p][1..] == [];
      assert p + "" == p && "" + p == p;
    } else {
      ConcatSnoc(pieces[1..], p);
      assert (pieces + [p])[1..] == pieces[1..] + [p];
      Assoc(pieces[0], Concat(pieces[1..]), p);
    }
  }
}
