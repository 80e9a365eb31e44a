/** Reading back what the printer wrote: every well-formed tree, in any key order, inside any surrounding text. */
module JsonRoundTrip {
  import opened Wrappers
  import opened Json
  import opened JsonText
  import ByteStrings

  /** The texts that may follow a value inside a document. Numerals need this: they are not prefix-free. */
  predicate Follow(k: string) {
    k == "" || k[0] == ',' || k[0] == ']' || k[0] == '}' || IsJsonSpace(k[0])
  }

  // ---------------------------------------------------------------- numerals

  lemma {:induction false} DigitRunStops(d: string, k: string)
    requires forall c | c in d :: IsDigit(c)
    requires k == "" || !IsDigit(k[0])
    ensures DigitRun(d + k) == |d|
  {
    if d == "" {
      assert d + k == k;
    } else {
      assert (d + k)[1..] == d[1..] + k;
      DigitRunStops(d[1..], k);
    }
  }

  lemma IntegerRunStops(w: string, k: string)
    requires IsInteger(w)
    requires k == "" || !IsDigit(k[0])
    ensures IntegerRun(w + k) == |w|
  {
    var s := w + k;
    var sign := if w[0] == '-' then 1 else 0;
    var d := w[sign..];
    assert IsNatural(d) by {
      if sign == 0 { assert w[0..] == w; } else { assert !IsDigit(w[0]); }
    }
    assert s[sign..] == d + k;
    assert d[0] in d;
    DigitRunStops(d, k);
  }

  lemma FractionRunStops(f: string, k: string)
    requires f == "" || IsFraction(f)
    requires k == "" || (!IsDigit(k[0]) && k[0] != '.')
    ensures FractionRun(f + k) == |f|
  {
    if f == "" {
      assert f + k == k;
    } else {
      assert (f + k)[1..] == f[1..] + k;
      DigitRunStops(f[1..], k);
    }
  }

  lemma ExponentRunStops(e: string, k: string)
    requires e == "" || IsExponent(e)
    requires k == "" || (!IsDigit(k[0]) && k[0] != 'e' && k[0] != 'E')
    ensures ExponentRun(e + k) == |e|
  {
    if e == "" {
      assert e + k == k;
    } else {
      var from := if IsSign(e[1]) then 2 else 1;
      assert (e + k)[from..] == e[from..] + k;
      DigitRunStops(e[from..], k);
    }
  }

  lemma FollowIsNoNumeral(k: string)
    requires Follow(k)
    ensures k == "" || (!IsDigit(k[0]) && k[0] != '.' && k[0] != 'e' && k[0] != 'E')
  {
  }

  lemma AfterFraction(exp: string, k: string)
    requires (exp == "" || IsExponent(exp)) && Follow(k)
    ensures exp + k == "" || (!IsDigit((exp + k)[0]) && (exp + k)[0] != '.')
  {
    FollowIsNoNumeral(k);
  }

  lemma AfterWhole(frac: string, rest: string)
    requires frac == "" || IsFraction(frac)
    requires rest == "" || !IsDigit(rest[0])
    ensures frac + rest == "" || !IsDigit((frac + rest)[0])
  {
  }

  lemma NumeralLexes(n: Numeral, k: string)
    requires n.Valid() && Follow(k)
    ensures LexNumeral(n.Text() + k) == Some(Parsed(n, k))
  {
    hide LexNumeral, IntegerRun, FractionRun, ExponentRun, IsInteger, IsFraction, IsExponent, IsDigit, Follow;
    var afterFrac := n.exp + k;
    var afterWhole := n.frac + afterFrac;
    assert n.Text() + k == n.whole + afterWhole;
    FollowIsNoNumeral(k);
    AfterFraction(n.exp, k);
    AfterWhole(n.frac, afterFrac);
    IntegerRunStops(n.whole, afterWhole);
    FractionRunStops(n.frac, afterFrac);
    ExponentRunStops(n.exp, k);
    IntegerStarts(n.whole);
    LexSteps(n, k);
  }

  lemma LexSteps(n: Numeral, k: string)
    requires n.whole != ""
    requires IntegerRun(n.whole + (n.frac + (n.exp + k))) == |n.whole|
    requires FractionRun(n.frac + (n.exp + k)) == |n.frac|
    requires ExponentRun(n.exp + k) == |n.exp|
    ensures LexNumeral(n.whole + (n.frac + (n.exp + k))) == Some(Parsed(n, k))
  {
    CutAt(n.whole, n.frac + (n.exp + k));
    CutAt(n.frac, n.exp + k);
    CutAt(n.exp, k);
  }

  lemma CutAt(a: string, b: string)
    ensures (a + b)[..|a|] == a && (a + b)[|a|..] == b
  {
  }

  // ---------------------------------------------------------------- strings

  lemma Hex4Reads(n: int, k: string)
    requires 0 <= n < 0x20
    ensures Hex4Value(Hex4(n) + k) == Some(n)
  {
    var s := Hex4(n) + k;
    assert n / 4096 == 0 && n / 256 % 16 == 0;
    assert s[0] == '0' && s[1] == '0';
    assert ByteStrings.HexValue(s[2]) == Some(n / 16 % 16);
    assert ByteStrings.HexValue(s[3]) == Some(n % 16);
  }

  lemma ShortEscapeParses(c: char, k: string)
    requires |EscapeChar(c)| == 2
    ensures ParseEscape(EscapeChar(c)[1..] + k) == Some(Parsed(c, k))
  {
    hide ParseUnicodeEscape, Hex4;
    var e := EscapeChar(c)[1..] + k;
    assert e[1..] == k;
  }

  lemma LongEscapeParses(c: char, k: string)
    requires c as int < 0x20 && EscapeChar(c) == "\\u" + Hex4(c as int)
    ensures ParseEscape(EscapeChar(c)[1..] + k) == Some(Parsed(c, k))
  {
    hide Hex4, Hex4Value;
    var h := Hex4(c as int) + k;
    assert EscapeChar(c)[1..] + k == "u" + h;
    assert ("u" + h)[1..] == h;
    Hex4Reads(c as int, k);
    assert h[4..] == k;
  }

  lemma EscapeParses(c: char, k: string)
    requires EscapeChar(c)[0] == '\\'
    ensures ParseEscape(EscapeChar(c)[1..] + k) == Some(Parsed(c, k))
  {
    hide ParseEscape;
    if |EscapeChar(c)| == 2 { ShortEscapeParses(c, k); } else { LongEscapeParses(c, k); }
  }

  lemma CharacterParses(c: char, rest: string)
    requires ParseString(rest).Some?
    ensures var Parsed(t, k) := ParseString(rest).value;
            ParseString(EscapeChar(c) + rest) == Some(Parsed([c] + t, k))
  {
    hide ParseEscape, Hex4;
    var e := EscapeChar(c);
    var s := e + rest;
    assert s[1..] == e[1..] + rest;
    if e[0] == '\\' {
      EscapeParses(c, rest);
    } else {
      assert e == [c] && s[1..] == rest;
    }
  }

  lemma {:induction false} StringParses(t: string, k: string)
    ensures ParseString(Escape(t) + "\"" + k) == Some(Parsed(t, k))
  {
    var s := Escape(t) + "\"" + k;
    if t == "" {
      assert s == "\"" + k;
      assert s[1..] == k;
    } else {
      var e := EscapeChar(t[0]);
      var rest := Escape(t[1..]) + "\"" + k;
      assert s == e + rest;
      StringParses(t[1..], k);
      assert [t[0]] + t[1..] == t;
      CharacterParses(t[0], rest);
    }
  }

  lemma QuoteParses(t: string, k: string)
    ensures (Quote(t) + k)[0] == '\"' && ParseString((Quote(t) + k)[1..]) == Some(Parsed(t, k))
  {
    assert (Quote(t) + k)[1..] == Escape(t) + "\"" + k;
    StringParses(t, k);
  }

  // ---------------------------------------------------------------- objects

  lemma {:induction false} StoreNew(ms: seq<Member>, m: Member)
    requires forall x | x in ms :: x.key != m.key
    ensures Store(ms, m) == ms + [m]
  {
    if ms != [] {
      assert ms[0] in ms;
      StoreNew(ms[1..], m);
      assert ms == [ms[0]] + ms[1..];
    }
  }

  /** A dict built from pairs with distinct keys is those pairs. */
  lemma {:induction false} ToDictDistinct(pairs: seq<Member>)
    requires DistinctKeys(pairs)
    ensures ToDict(pairs) == pairs
  {
    if pairs != [] {
      var n := |pairs| - 1;
      ToDictDistinct(pairs[..n]);
      StoreNew(pairs[..n], pairs[n]);
      assert pairs == pairs[..n] + [pairs[n]];
    }
  }

  // ---------------------------------------------------------------- values

  /** No printed value starts with whitespace or with a closing bracket. */
  lemma PrintStarts(v: Json)
    ensures Print(v) != "" && !IsJsonSpace(Print(v)[0]) && Print(v)[0] != ']'
  {
    match v
    case Int(n) =>
      IntTextValue(n);
      IntegerStarts(IntText(n));
    case Float(Finite(t)) =>
      assert t.whole[0] == t.Text()[0];
      IntegerStarts(t.whole);
    case _ =>
  }

  lemma IntegerStarts(w: string)
    requires IsInteger(w)
    ensures w != "" && (w[0] == '-' || IsDigit(w[0]))
  {
    assert w[0] in w;
  }

  lemma MembersStart(ms: seq<Member>, k: string)
    requires ms != []
    ensures PrintMembers(ms) != "" && (PrintMembers(ms) + k)[0] == '\"'
  {
    assert PrintMember(ms[0])[0] == '\"';
    assert PrintMembers(ms)[0] == '\"';
  }

  lemma SkipNothing(s: string)
    requires s == "" || !IsJsonSpace(s[0])
    ensures SkipSpace(s) == s
  {
  }

  lemma LiteralParses(s: string, lit: string, k: string)
    requires s == lit + k
    ensures lit <= s && s[|lit|..] == k
  {
  }

  lemma NumberIsScalar(s: string)
    requires s != "" && (s[0] == '-' || IsDigit(s[0])) && ParseNumber(s).Some?
    ensures ParseScalar(s) == ParseNumber(s)
  {
    assert !("null" <= s) && !("true" <= s) && !("false" <= s);
  }

  lemma ScalarIsValue(s: string)
    requires s != "" && (s[0] == '-' || IsDigit(s[0]))
    ensures ParseValue(s) == ParseScalar(s)
  {
    hide ParseString, ParseMembers, ParseScalar, ParseItems, ToDict, SkipSpace;
  }

  lemma NumberParses(v: Json, n: Numeral, k: string)
    requires n.Valid() && Print(v) == n.Text() && v == NumeralValue(n) && Follow(k)
    ensures ParseValue(Print(v) + k) == Some(Parsed(v, k))
  {
    hide ParseValue, ParseScalar, LexNumeral, Print, IsInteger, NumeralValue;
    NumeralLexes(n, k);
    IntegerStarts(n.whole);
    assert (n.Text() + k)[0] == n.whole[0];
    NumberIsScalar(n.Text() + k);
    ScalarIsValue(n.Text() + k);
  }

  lemma {:induction false} ValueParses(v: Json, k: string)
    requires WellFormed(v) && !HasNonFinite(v) && Follow(k)
    ensures ParseValue(Print(v) + k) == Some(Parsed(v, k))
    decreases v, 1
  {
    match v
    case Null => LiteralParses(Print(v) + k, "null", k);
    case Bool(b) => LiteralParses(Print(v) + k, if b then "true" else "false", k);
    case Int(i) =>
      IntTextValue(i);
      NumberParses(v, Numeral(IntText(i), "", ""), k);
    case Float(f) => NumberParses(v, f.token, k);
    case Str(t) => QuoteParses(t, k);
    case Arr(items) => ArrayParses(items, k);
    case Obj(ms) => ObjectParses(ms, k);
  }

  lemma {:induction false} ArrayParses(items: seq<Json>, k: string)
    requires forall x | x in items :: WellFormed(x) && !HasNonFinite(x)
    requires Follow(k)
    ensures ParseValue(Print(Arr(items)) + k) == Some(Parsed(Arr(items), k))
    decreases items, 4
  {
    hide ParseValue, ParseItems;
    var body := PrintItems(items) + ("]" + k);
    assert Print(Arr(items)) + k == "[" + body;
    OpenBracket(body);
    if items == [] {
      assert body == "]" + k;
      assert body[1..] == k;
      SkipNothing(body);
    } else {
      PrintStarts(items[0]);
      assert body[0] == Print(items[0])[0];
      SkipNothing(body);
      ItemsParse(items, k);
    }
  }

  lemma OpenBracket(body: string)
    ensures ParseValue("[" + body) ==
            var t := SkipSpace(body);
            if t != "" && t[0] == ']' then Some(Parsed(Arr([]), t[1..]))
            else match ParseItems(t) case None => None case Some(Parsed(items, k)) => Some(Parsed(Arr(items), k))
  {
    hide ParseString, ParseMembers, ParseScalar, ParseItems, ToDict, SkipSpace;
    assert ("[" + body)[1..] == body;
  }

  lemma OpenBrace(body: string)
    ensures ParseValue("{" + body) ==
            var t := SkipSpace(body);
            if t != "" && t[0] == '}' then Some(Parsed(Obj([]), t[1..]))
            else match ParseMembers(t)
              case None => None
              case Some(Parsed(pairs, k)) => Some(Parsed(Obj(ToDict(pairs)), k))
  {
    hide ParseString, ParseMembers, ParseScalar, ParseItems, ToDict, SkipSpace;
    assert ("{" + body)[1..] == body;
  }

  lemma {:induction false} ItemsParse(items: seq<Json>, k: string)
    requires items != [] && Follow(k)
    requires forall x | x in items :: WellFormed(x) && !HasNonFinite(x)
    ensures ParseItems(PrintItems(items) + ("]" + k)) == Some(Parsed(items, k))
    decreases items, 3
  {
    hide ParseValue, Print;
    var v := items[0];
    if |items| == 1 {
      assert PrintItems(items) == Print(v);
      ValueParses(v, "]" + k);
      assert ("]" + k)[1..] == k;
      assert items == [v];
    } else {
      var rest := PrintItems(items[1..]) + ("]" + k);
      assert PrintItems(items) + ("]" + k) == Print(v) + ("," + rest);
      ValueParses(v, "," + rest);
      assert ("," + rest)[1..] == rest;
      PrintStarts(items[1]);
      assert rest[0] == Print(items[1])[0];
      SkipNothing(rest);
      ItemsParse(items[1..], k);
      assert items == [v] + items[1..];
    }
  }

  lemma {:induction false} ObjectParses(ms: seq<Member>, k: string)
    requires DistinctKeys(ms) && forall m | m in ms :: WellFormed(m.value) && !HasNonFinite(m.value)
    requires Follow(k)
    ensures ParseValue(Print(Obj(ms)) + k) == Some(Parsed(Obj(ms), k))
    decreases ms, 4
  {
    hide ParseValue, ParseMembers, ToDict, PrintMember;
    var body := PrintMembers(ms) + ("}" + k);
    assert Print(Obj(ms)) + k == "{" + body;
    OpenBrace(body);
    if ms == [] {
      assert body == "}" + k;
      assert body[1..] == k;
      SkipNothing(body);
    } else {
      MembersStart(ms, "}" + k);
      SkipNothing(body);
      MembersParse(ms, k);
      ToDictDistinct(ms);
    }
  }

  lemma {:induction false} MemberParses(m: Member, k: string)
    requires WellFormed(m.value) && !HasNonFinite(m.value) && Follow(k)
    ensures ParseMember(PrintMember(m) + k) == Some(Parsed(m, k))
    decreases m, 2
  {
    hide ParseValue, ParseString, Print, Quote;
    var t := Print(m.value) + k;
    assert PrintMember(m) + k == Quote(m.key) + (":" + t);
    QuoteParses(m.key, ":" + t);
    assert (":" + t)[1..] == t;
    PrintStarts(m.value);
    assert t[0] == Print(m.value)[0];
    SkipNothing(t);
    ValueParses(m.value, k);
  }

  lemma {:induction false} MembersParse(ms: seq<Member>, k: string)
    requires ms != [] && Follow(k)
    requires forall m | m in ms :: WellFormed(m.value) && !HasNonFinite(m.value)
    ensures ParseMembers(PrintMembers(ms) + ("}" + k)) == Some(Parsed(ms, k))
    decreases ms, 3
  {
    hide ParseMember, PrintMember;
    var m := ms[0];
    if |ms| == 1 {
      assert PrintMembers(ms) == PrintMember(m);
      MemberParses(m, "}" + k);
      assert ("}" + k)[1..] == k;
      assert ms == [m];
    } else {
      var rest := PrintMembers(ms[1..]) + ("}" + k);
      assert PrintMembers(ms) + ("}" + k) == PrintMember(m) + ("," + rest);
      MemberParses(m, "," + rest);
      assert ("," + rest)[1..] == rest;
      MembersStart(ms[1..], "}" + k);
      MembersParse(ms[1..], k);
      MembersStep(PrintMember(m) + ("," + rest), m, rest, Parsed(ms[1..], k));
      assert ms == [m] + ms[1..];
    }
  }

  lemma MembersStep(s: string, m: Member, rest: string, tail: Parsed<seq<Member>>)
    requires ParseMember(s) == Some(Parsed(m, "," + rest))
    requires rest != "" && !IsJsonSpace(rest[0])
    requires ParseMembers(rest) == Some(tail)
    ensures ParseMembers(s) == Some(Parsed([m] + tail.value, tail.rest))
  {
    assert ("," + rest)[1..] == rest;
    SkipNothing(rest);
  }

  /** The whole document comes back, whatever the key order. */
  lemma ParseInvertsPrint(v: Json)
    requires WellFormed(v) && !HasNonFinite(v)
    ensures Parse(Print(v)) == Some(v)
  {
    PrintStarts(v);
    SkipNothing(Print(v));
    ValueParses(v, "");
    assert Print(v) + "" == Print(v);
  }

  // ---------------------------------------------------------------- what the reader can return

  lemma {:induction false} StoreKeepsDistinct(ms: seq<Member>, m: Member)
    requires DistinctKeys(ms)
    ensures DistinctKeys(Store(ms, m))
    ensures forall x | x in Store(ms, m) :: x == m || (x in ms && x.key != m.key)
  {
    if ms != [] {
      StoreKeepsDistinct(ms[1..], m);
      if ms[0].key == m.key {
        forall x | x in ms[1..] ensures x.key != m.key {
          var i :| 1 <= i < |ms| && ms[i] == x;
        }
      } else {
        var rest := Store(ms[1..], m);
        forall j | 0 <= j < |rest| ensures rest[j].key != ms[0].key {
          assert rest[j] in rest;
          if rest[j] != m { var i :| 1 <= i < |ms| && ms[i] == rest[j]; }
        }
      }
    }
  }

  lemma {:induction false} ToDictIsDict(pairs: seq<Member>)
    ensures DistinctKeys(ToDict(pairs)) && forall x | x in ToDict(pairs) :: x in pairs
  {
    if pairs != [] {
      var n := |pairs| - 1;
      ToDictIsDict(pairs[..n]);
      StoreKeepsDistinct(ToDict(pairs[..n]), pairs[n]);
    }
  }

  /** Whatever the text, a value read from it is one Python can hold: repeated keys have been merged. */
  lemma {:induction false} ParsedIsWellFormed(s: string)
    ensures ParseValue(s).Some? ==> WellFormed(ParseValue(s).value.value)
    decreases |s|, 1
  {
    hide ParseString, ParseMembers, ParseItems, ToDict, DistinctKeys, ParseNumber;
    if ParseValue(s).Some? {
      if s[0] == '{' {
        var t := SkipSpace(s[1..]);
        if !(t != "" && t[0] == '}') { ParsedMembersAreWellFormed(t); }
        if ParseMembers(t).Some? { ToDictIsDict(ParseMembers(t).value.value); }
        EmptyDict();
      } else if s[0] == '[' {
        ParsedItemsAreWellFormed(SkipSpace(s[1..]));
      } else if s[0] != '\"' {
        ScalarIsLeaf(s);
      }
    }
  }

  lemma EmptyDict()
    ensures WellFormed(Obj([]))
  {
  }

  lemma ScalarIsLeaf(s: string)
    ensures ParseScalar(s).Some? ==> !ParseScalar(s).value.value.Arr? && !ParseScalar(s).value.value.Obj?
  {
    hide LexNumeral;
  }

  lemma {:induction false} ParsedItemsAreWellFormed(s: string)
    ensures ParseItems(s).Some? ==> forall x | x in ParseItems(s).value.value :: WellFormed(x)
    decreases |s|, 2
  {
    hide ParseValue, WellFormed;
    if ParseItems(s).Some? {
      ParsedIsWellFormed(s);
      var t := SkipSpace(ParseValue(s).value.rest);
      if t[0] == ',' { ParsedItemsAreWellFormed(SkipSpace(t[1..])); }
    }
  }

  lemma {:induction false} ParsedMemberIsWellFormed(s: string)
    ensures ParseMember(s).Some? ==> WellFormed(ParseMember(s).value.value.value)
    decreases |s|, 2
  {
    hide ParseValue, ParseString, WellFormed;
    if ParseMember(s).Some? {
      var t := SkipSpace(ParseString(s[1..]).value.rest);
      ParsedIsWellFormed(SkipSpace(t[1..]));
    }
  }

  lemma {:induction false} ParsedMembersAreWellFormed(s: string)
    ensures ParseMembers(s).Some? ==> forall m | m in ParseMembers(s).value.value :: WellFormed(m.value)
    decreases |s|, 3
  {
    hide ParseMember, WellFormed;
    if ParseMembers(s).Some? {
      ParsedMemberIsWellFormed(s);
      var t := SkipSpace(ParseMember(s).value.rest);
      if t[0] == ',' { ParsedMembersAreWellFormed(SkipSpace(t[1..])); }
    }
  }

  lemma LoadedIsWellFormed(text: string)
    ensures Parse(text).Some? ==> WellFormed(Parse(text).value)
  {
    hide ParseValue, WellFormed;
    ParsedIsWellFormed(SkipSpace(text));
  }
}
