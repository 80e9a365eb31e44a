/** Python text handling the log relies on: code-point order, `str.strip`, and iteration over lines. */
module Text {
  import opened ByteStrings
  import Utf8

  // ---------------------------------------------------------------- order

  /** Lexicographic order by Unicode code point, the order `sorted` uses on strings. */
  predicate Less(a: string, b: string) {
    if b == "" then false
    else if a == "" then true
    else if a[0] != b[0] then a[0] < b[0]
    else Less(a[1..], b[1..])
  }

  lemma {:induction false} LessTotal(a: string, b: string)
    ensures Less(a, b) || a == b || Less(b, a)
  {
    if a != "" && b != "" && a[0] == b[0] {
      LessTotal(a[1..], b[1..]);
      assert a == [a[0]] + a[1..] && b == [b[0]] + b[1..];
    }
  }

  lemma {:induction false} LessTransitive(a: string, b: string, c: string)
    requires Less(a, b) && Less(b, c)
    ensures Less(a, c)
  {
    if a != "" && a[0] == b[0] && b[0] == c[0] {
      LessTransitive(a[1..], b[1..], c[1..]);
    }
  }

  lemma {:induction false} LessIrreflexive(a: string)
    ensures !Less(a, a)
  {
    if a != "" { LessIrreflexive(a[1..]); }
  }

  /** The first difference decides, by code point; a proper prefix comes first. */
  lemma {:induction false} LessSpelled(a: string, b: string)
    ensures Less(a, b) <==>
            exists k: nat :: k <= |a| && k < |b| && a[..k] == b[..k] && (k == |a| || a[k] as int < b[k] as int)
  {
    if b != "" && a != "" && a[0] == b[0] {
      LessSpelled(a[1..], b[1..]);
      if Less(a, b) {
        var k: nat :| k <= |a[1..]| && k < |b[1..]| && a[1..][..k] == b[1..][..k]
                      && (k == |a[1..]| || a[1..][k] as int < b[1..][k] as int);
        assert a[..k + 1] == [a[0]] + a[1..][..k] && b[..k + 1] == [b[0]] + b[1..][..k];
      }
      if j: nat :| j <= |a| && j < |b| && a[..j] == b[..j] && (j == |a| || a[j] as int < b[j] as int) {
        assert a[1..][..j - 1] == a[..j][1..] && b[1..][..j - 1] == b[..j][1..];
      }
    } else if b != "" {
      assert a[..0] == b[..0];
      forall k: nat | 0 < k <= |a| && k < |b| && a[0] != b[0] ensures a[..k] != b[..k] {
        assert a[..k][0] == a[0] && b[..k][0] == b[0];
      }
    }
  }

  // ---------------------------------------------------------------- strip

  /** `str.isspace` on one character. */
  predicate IsSpace(c: char) {
    var n := c as int;
    9 <= n <= 13 || 28 <= n <= 32 || n == 0x85 || n == 0xA0 || n == 0x1680 || 0x2000 <= n <= 0x200A
    || n == 0x2028 || n == 0x2029 || n == 0x202F || n == 0x205F || n == 0x3000
  }

  function StripLeft(s: string): string {
    if s != "" && IsSpace(s[0]) then StripLeft(s[1..]) else s
  }

  function StripRight(s: string): string {
    if s != "" && IsSpace(s[|s| - 1]) then StripRight(s[..|s| - 1]) else s
  }

  function Strip(s: string): string {
    StripRight(StripLeft(s))
  }

  /** A text with no outer whitespace is what `strip` leaves of it and its newline. */
  lemma StripNewline(s: string)
    requires s != "" && !IsSpace(s[0]) && !IsSpace(s[|s| - 1])
    ensures Strip(s + "\n") == s
  {
    assert StripLeft(s + "\n") == s + "\n";
    assert (s + "\n")[..|s|] == s;
    assert StripRight(s + "\n") == StripRight(s);
  }

  predicate AllSpace(s: string) {
    forall c | c in s :: IsSpace(c)
  }

  /** The characters `str.isspace` accepts, by code point. */
  lemma SpacesListed(c: char)
    ensures IsSpace(c) <==>
              c as int in {9, 10, 11, 12, 13, 28, 29, 30, 31, 32, 0x85, 0xA0, 0x1680, 0x2000, 0x2001, 0x2002, 0x2003,
                           0x2004, 0x2005, 0x2006, 0x2007, 0x2008, 0x2009, 0x200A, 0x2028, 0x2029, 0x202F, 0x205F,
                           0x3000}
  {
  }

  lemma {:induction false} StripLeftExact(s: string)
    ensures exists a :: AllSpace(a) && s == a + StripLeft(s)
    ensures StripLeft(s) == "" || !IsSpace(StripLeft(s)[0])
  {
    if s != "" && IsSpace(s[0]) {
      StripLeftExact(s[1..]);
      var a :| AllSpace(a) && s[1..] == a + StripLeft(s[1..]);
      assert AllSpace([s[0]] + a) && s == ([s[0]] + a) + StripLeft(s);
    } else {
      assert AllSpace("") && s == "" + s;
    }
  }

  lemma {:induction false} StripRightExact(s: string)
    ensures exists b :: AllSpace(b) && s == StripRight(s) + b
    ensures StripRight(s) == "" || !IsSpace(StripRight(s)[|StripRight(s)| - 1])
  {
    hide IsSpace;
    if s != "" && IsSpace(s[|s| - 1]) {
      var n := |s| - 1;
      StripRightExact(s[..n]);
      var b :| AllSpace(b) && s[..n] == StripRight(s[..n]) + b;
      assert AllSpace(b + [s[n]]) && s == StripRight(s) + (b + [s[n]]);
    } else {
      assert AllSpace("") && s == s + "";
    }
  }

  /** Only whitespace is cut off, at both ends, and all of it. */
  lemma StripExact(s: string)
    ensures exists a, b :: AllSpace(a) && AllSpace(b) && s == a + Strip(s) + b
    ensures Strip(s) == "" || (!IsSpace(Strip(s)[0]) && !IsSpace(Strip(s)[|Strip(s)| - 1]))
  {
    hide IsSpace, AllSpace, StripLeft, StripRight;
    StripLeftExact(s);
    StripRightExact(StripLeft(s));
    var a :| AllSpace(a) && s == a + StripLeft(s);
    var b :| AllSpace(b) && StripLeft(s) == Strip(s) + b;
    assert s == a + Strip(s) + b;
  }

  // ---------------------------------------------------------------- lines

  /** Where the first line ends, its terminator included. */
  function LineEnd<T(==)>(s: seq<T>, nl: T): (n: nat)
    requires s != []
    ensures 1 <= n <= |s|
    ensures nl !in s[..n - 1]
    ensures n == |s| || s[n - 1] == nl
  {
    if s[0] == nl || |s| == 1 then 1
    else
      var m := LineEnd(s[1..], nl);
      assert s[..m] == [s[0]] + s[1..][..m - 1];
      1 + m
  }

  /** The lines an iterated file yields: each keeps its terminator, the last may lack one. */
  function Lines<T(==)>(s: seq<T>, nl: T): seq<seq<T>> {
    if s == [] then [] else
      var n := LineEnd(s, nl);
      [s[..n]] + Lines(s[n..], nl)
  }

  function Joined<T>(parts: seq<seq<T>>): seq<T> {
    if parts == [] then [] else parts[0] + Joined(parts[1..])
  }

  /** The first line, by itself: its terminator stands at its end, if anywhere, and only a last line may lack one. */
  ghost predicate IsLine<T>(line: seq<T>, nl: T, more: bool) {
    line != [] && nl !in line[..|line| - 1] && (more ==> line[|line| - 1] == nl)
  }

  lemma FirstLine<T>(s: seq<T>, nl: T)
    requires s != []
    ensures IsLine(s[..LineEnd(s, nl)], nl, s[LineEnd(s, nl)..] != [])
  {
    var n := LineEnd(s, nl);
    assert s[..n][..n - 1] == s[..n - 1];
  }

  lemma LinesStep<T>(s: seq<T>, nl: T)
    requires s != []
    ensures var n := LineEnd(s, nl); Lines(s, nl) == [s[..n]] + Lines(s[n..], nl) && s == s[..n] + s[n..]
  {
  }

  lemma NoTextNoLines<T>(s: seq<T>, nl: T)
    ensures Lines(s, nl) == [] <==> s == []
  {
  }

  /** Lines put together give the text; a terminator ends every line but perhaps the last, and stands nowhere else. */
  lemma {:induction false} LinesExact<T>(s: seq<T>, nl: T)
    ensures Joined(Lines(s, nl)) == s
    ensures forall i | 0 <= i < |Lines(s, nl)| :: IsLine(Lines(s, nl)[i], nl, i + 1 < |Lines(s, nl)|)
    decreases |s|
  {
    hide LineEnd, Lines, IsLine;
    NoTextNoLines(s, nl);
    if s != [] {
      var n := LineEnd(s, nl);
      var rest := Lines(s[n..], nl);
      LinesStep(s, nl);
      FirstLine(s, nl);
      LinesExact(s[n..], nl);
      NoTextNoLines(s[n..], nl);
      assert Lines(s, nl)[1..] == rest;
      forall i | 0 <= i < |Lines(s, nl)| ensures IsLine(Lines(s, nl)[i], nl, i + 1 < |Lines(s, nl)|) {
        if i > 0 { assert Lines(s, nl)[i] == rest[i - 1]; }
      }
    }
  }

  lemma LineEndAfter<T>(b: seq<T>, nl: T, k: seq<T>)
    requires nl !in b
    ensures LineEnd(b + [nl] + k, nl) == |b| + 1
  {
    var s := b + [nl] + k;
    assert forall i | 0 <= i < |b| :: s[i] == b[i] && b[i] in b;
    assert s[|b|] == nl;
    if |b| + 1 < LineEnd(s, nl) { assert false; }
  }

  lemma LinesCons<T>(b: seq<T>, nl: T, k: seq<T>)
    requires nl !in b
    ensures Lines(b + [nl] + k, nl) == [b + [nl]] + Lines(k, nl)
  {
    var s := b + [nl] + k;
    LineEndAfter(b, nl, k);
    assert s[..|b| + 1] == b + [nl];
    assert s[|b| + 1..] == k;
  }

  lemma LinesUnterminated<T>(b: seq<T>, nl: T)
    requires b != [] && nl !in b
    ensures Lines(b, nl) == [b]
  {
    var n := LineEnd(b, nl);
    assert b[n - 1] in b;
    assert b[..n] == b;
    assert b[n..] == [];
  }

  /** Universal newlines: a text-mode file presents `\r\n` and a lone `\r` as `\n`. */
  function TranslateNewlines(t: string): string {
    if t == "" then ""
    else if t[0] == '\r' then "\n" + TranslateNewlines(t[if |t| > 1 && t[1] == '\n' then 2 else 1..])
    else [t[0]] + TranslateNewlines(t[1..])
  }

  lemma {:induction false} NothingToTranslate(t: string)
    requires '\r' !in t
    ensures TranslateNewlines(t) == t
  {
    if t != "" {
      NothingToTranslate(t[1..]);
      assert t == [t[0]] + t[1..];
    }
  }

  lemma TranslateCons(a: string, t: string)
    requires a != "" && (a == "\r" ==> t == "" || t[0] != '\n')
    ensures var n := if a[0] == '\r' && |a| > 1 && a[1] == '\n' then 2 else 1;
            && (a + t)[n..] == a[n..] + t
            && TranslateNewlines(a + t) == (if a[0] == '\r' then "\n" else [a[0]]) + TranslateNewlines(a[n..] + t)
            && TranslateNewlines(a) == (if a[0] == '\r' then "\n" else [a[0]]) + TranslateNewlines(a[n..])
  {
    var n := if a[0] == '\r' && |a| > 1 && a[1] == '\n' then 2 else 1;
    assert (a + t)[n..] == a[n..] + t;
  }

  /** Up to a carriage return, a text is translated by itself. */
  lemma {:induction false} TranslateFront(a: string, t: string)
    requires t == "" || t[0] != '\n'
    ensures TranslateNewlines(a + t) == TranslateNewlines(a) + TranslateNewlines(t)
    decreases |a|
  {
    hide TranslateNewlines;
    if a == "" {
      assert a + t == t && TranslateNewlines(a) == "" by { NothingToTranslate(a); }
    } else {
      TranslateCons(a, t);
      TranslateFront(a[if a[0] == '\r' && |a| > 1 && a[1] == '\n' then 2 else 1..], t);
    }
  }

  /** A carriage return with its newline, or alone, becomes one newline; see NothingToTranslate for the rest. */
  lemma NewlineTranslated(a: string, b: string)
    ensures TranslateNewlines(a + ("\r\n" + b)) == TranslateNewlines(a) + ("\n" + TranslateNewlines(b))
    ensures (b == "" || b[0] != '\n') ==>
              TranslateNewlines(a + ("\r" + b)) == TranslateNewlines(a) + ("\n" + TranslateNewlines(b))
  {
    TranslateFront(a, "\r\n" + b);
    TranslateFront(a, "\r" + b);
    assert ("\r\n" + b)[2..] == b && ("\r" + b)[1..] == b;
  }

  function EncodeEach(ts: seq<string>): (r: seq<Bytes>)
    ensures |r| == |ts|
  {
    if ts == [] then [] else [Utf8.Encode(ts[0])] + EncodeEach(ts[1..])
  }

  const LF: Byte := 0x0A

  /** The first line, encoded with its newline. */
  lemma EncodedLine(body: string, rest: string)
    requires '\n' !in body
    ensures Lines(Utf8.Encode(body + "\n" + rest), LF) == [Utf8.Encode(body + "\n")] + Lines(Utf8.Encode(rest), LF)
  {
    Utf8.EncodeConcat(body, "\n");
    Utf8.EncodeConcat(body + "\n", rest);
    assert Utf8.Encode("\n") == [LF];
    Utf8.AsciiBytesAreCharacters(body, '\n');
    LinesCons(Utf8.Encode(body), LF, Utf8.Encode(rest));
  }

  lemma EncodedLastLine(t: string)
    requires t != "" && '\n' !in t
    ensures Lines(Utf8.Encode(t), LF) == [Utf8.Encode(t)] && Lines(t, '\n') == [t]
  {
    Utf8.AsciiBytesAreCharacters(t, '\n');
    LinesUnterminated(Utf8.Encode(t), LF);
    LinesUnterminated(t, '\n');
  }

  /** Splitting the encoded bytes and splitting the text give the same lines: no multi-byte unit contains 0x0A. */
  lemma {:induction false} LinesOfEncoding(t: string)
    ensures Lines(Utf8.Encode(t), LF) == EncodeEach(Lines(t, '\n'))
    decreases |t|
  {
    hide Utf8.EncodeChar;
    if t != "" {
      var n := LineEnd(t, '\n');
      var body, rest := t[..n - 1], t[n..];
      if t[n - 1] == '\n' {
        assert t == body + "\n" + rest && t[..n] == body + "\n";
        EncodedLine(body, rest);
        LinesOfEncoding(rest);
      } else {
        assert t == body + [t[n - 1]];
        EncodedLastLine(t);
      }
    }
  }
}
