/**
 * The JSON grammar of RFC 8259, as derivations, and the reader measured against it: `json.loads` accepts the texts the
 * grammar derives, with Python's three non-finite tokens, and no others.
 */
module JsonGrammar {
  import opened Wrappers
  import opened Json
  import opened JsonText
  import opened JsonRoundTrip
  import ByteStrings

  // ---------------------------------------------------------------- strings (section 7)

  /** One character of a string as it is written. */
  datatype Unit = Plain(c: char) | Short(letter: char) | Code(hex: string) | Surrogates(high: string, low: string) {
    predicate Valid() {
      match this
      case Plain(c) => c != '\"' && c != '\\' && c as int >= 0x20
      case Short(letter) => letter in "\"\\/bfnrt"
      case Code(hex) => FourHex(hex) && !(0xD800 <= HexNumber(hex) < 0xE000)
      case Surrogates(high, low) =>
        FourHex(high) && 0xD800 <= HexNumber(high) < 0xDC00 && FourHex(low) && 0xDC00 <= HexNumber(low) < 0xE000
    }

    function Spelling(): string {
      match this
      case Plain(c) => [c]
      case Short(letter) => ['\\', letter]
      case Code(hex) => "\\u" + hex
      case Surrogates(high, low) => "\\u" + (high + "\\u" + low)
    }

    function Value(): char
      requires Valid()
    {
      match this
      case Plain(c) => c
      case Short(letter) =>
        if letter == 'b' then 0x08 as char
        else if letter == 'f' then 0x0C as char
        else if letter == 'n' then 0x0A as char
        else if letter == 'r' then 0x0D as char
        else if letter == 't' then 0x09 as char
        else letter
      case Code(hex) => HexNumber(hex) as char
      case Surrogates(high, low) =>
        (0x10000 + 0x400 * (HexNumber(high) - 0xD800) + (HexNumber(low) - 0xDC00)) as char
    }
  }

  predicate FourHex(h: string) {
    |h| == 4 && forall c | c in h :: ByteStrings.IsHexDigit(c)
  }

  function Nibble(c: char): (n: nat)
    requires ByteStrings.IsHexDigit(c)
    ensures n < 16
  {
    ByteStrings.HexValueSpelled(c);
    ByteStrings.HexValue(c).value
  }

  function HexNumber(h: string): (n: nat)
    requires FourHex(h)
    ensures n < 0x10000
  {
    0x1000 * Nibble(h[0]) + 0x100 * Nibble(h[1]) + 0x10 * Nibble(h[2]) + Nibble(h[3])
  }

  predicate ValidUnits(us: seq<Unit>) {
    forall u | u in us :: u.Valid()
  }

  function UnitsSpelling(us: seq<Unit>): string {
    if us == [] then "" else us[0].Spelling() + UnitsSpelling(us[1..])
  }

  function UnitsValue(us: seq<Unit>): string
    requires ValidUnits(us)
  {
    if us == [] then "" else [us[0].Value()] + UnitsValue(us[1..])
  }

  // ---------------------------------------------------------------- values (sections 2 to 6)

  predicate Blank(s: string) {
    forall c | c in s :: c in [' ', '\t', '\n', '\r']
  }

  const LITERALS: map<string, Json> :=
    map["null" := Null, "true" := Bool(true), "false" := Bool(false),
        "NaN" := Float(NaN), "Infinity" := Float(Infinity), "-Infinity" := Float(NegInfinity)]

  /** A value as it is written, with the blanks between its tokens. */
  datatype Doc =
    | Literal(token: string)
    | Number(n: Numeral)
    | Text(units: seq<Unit>)
    | EmptyList(blank: string)
    | List(blank: string, items: Items)
    | EmptyDict(blank: string)
    | Dict(blank: string, fields: Fields)
  {
    predicate Valid() {
      match this
      case Literal(token) => token in LITERALS
      case Number(n) => n.Valid()
      case Text(units) => ValidUnits(units)
      case EmptyList(blank) => Blank(blank)
      case List(blank, items) => Blank(blank) && items.Valid()
      case EmptyDict(blank) => Blank(blank)
      case Dict(blank, fields) => Blank(blank) && fields.Valid()
    }

    function Spelling(): string {
      match this
      case Literal(token) => token
      case Number(n) => n.Text()
      case Text(units) => "\"" + UnitsSpelling(units) + "\""
      case EmptyList(blank) => "[" + blank + "]"
      case List(blank, items) => "[" + blank + items.Spelling()
      case EmptyDict(blank) => "{" + blank + "}"
      case Dict(blank, fields) => "{" + blank + fields.Spelling()
    }

    function Value(): Json
      requires Valid()
    {
      match this
      case Literal(token) => LITERALS[token]
      case Number(n) => NumeralValue(n)
      case Text(units) => Str(UnitsValue(units))
      case EmptyList(_) => Arr([])
      case List(_, items) => Arr(items.Values())
      case EmptyDict(_) => Obj([])
      case Dict(_, fields) => Obj(ToDict(fields.Pairs()))
    }
  }

  /** The elements of a list, through its closing bracket. */
  datatype Items =
    | LastItem(item: Doc, blank: string)
    | MoreItems(item: Doc, before: string, after: string, rest: Items)
  {
    predicate Valid() {
      match this
      case LastItem(item, blank) => item.Valid() && Blank(blank)
      case MoreItems(item, before, after, rest) => item.Valid() && Blank(before) && Blank(after) && rest.Valid()
    }

    function Spelling(): string {
      match this
      case LastItem(item, blank) => item.Spelling() + blank + "]"
      case MoreItems(item, before, after, rest) => item.Spelling() + before + "," + after + rest.Spelling()
    }

    function Values(): seq<Json>
      requires Valid()
    {
      match this
      case LastItem(item, _) => [item.Value()]
      case MoreItems(item, _, _, rest) => [item.Value()] + rest.Values()
    }
  }

  datatype Field = Field(key: seq<Unit>, beforeColon: string, afterColon: string, value: Doc) {
    predicate Valid() {
      ValidUnits(key) && Blank(beforeColon) && Blank(afterColon) && value.Valid()
    }

    function Spelling(): string {
      "\"" + UnitsSpelling(key) + "\"" + beforeColon + ":" + afterColon + value.Spelling()
    }

    function Pair(): Member
      requires Valid()
    {
      Member(UnitsValue(key), value.Value())
    }
  }

  /** The members of an object, through its closing brace. */
  datatype Fields =
    | LastField(field: Field, blank: string)
    | MoreFields(field: Field, before: string, after: string, rest: Fields)
  {
    predicate Valid() {
      match this
      case LastField(field, blank) => field.Valid() && Blank(blank)
      case MoreFields(field, before, after, rest) => field.Valid() && Blank(before) && Blank(after) && rest.Valid()
    }

    function Spelling(): string {
      match this
      case LastField(field, blank) => field.Spelling() + blank + "}"
      case MoreFields(field, before, after, rest) => field.Spelling() + before + "," + after + rest.Spelling()
    }

    function Pairs(): seq<Member>
      requires Valid()
    {
      match this
      case LastField(field, _) => [field.Pair()]
      case MoreFields(field, _, _, rest) => [field.Pair()] + rest.Pairs()
    }
  }

  // ---------------------------------------------------------------- blanks

  lemma {:induction false} SkipsBlank(s: string) returns (blank: string)
    ensures Blank(blank) && s == blank + SkipSpace(s)
    ensures SkipSpace(s) == "" || !IsJsonSpace(SkipSpace(s)[0])
  {
    blank := "";
    if s != "" && IsJsonSpace(s[0]) {
      var more := SkipsBlank(s[1..]);
      blank := [s[0]] + more;
    }
  }

  lemma {:induction false} BlankSkipped(blank: string, s: string)
    requires Blank(blank) && (s == "" || !IsJsonSpace(s[0]))
    ensures SkipSpace(blank + s) == s
  {
    if blank == "" {
      assert blank + s == s;
    } else {
      assert blank[0] in blank && (blank + s)[1..] == blank[1..] + s;
      BlankSkipped(blank[1..], s);
    }
  }

  // ---------------------------------------------------------------- what the reader accepts is derived

  lemma FourHexRead(s: string)
    ensures Hex4Value(s).Some? <==> |s| >= 4 && FourHex(s[..4])
    ensures Hex4Value(s).Some? ==> Hex4Value(s).value == HexNumber(s[..4])
  {
    if |s| >= 4 {
      var h := s[..4];
      ByteStrings.HexValueSpelled(h[0]);
      ByteStrings.HexValueSpelled(h[1]);
      ByteStrings.HexValueSpelled(h[2]);
      ByteStrings.HexValueSpelled(h[3]);
      assert h == [h[0], h[1], h[2], h[3]];
    }
  }

  lemma CodeDerived(s: string) returns (u: Unit)
    requires ParseUnicodeEscape(s).Some?
    ensures u.Valid() && "\\u" + s == u.Spelling() + ParseUnicodeEscape(s).value.rest
    ensures u.Value() == ParseUnicodeEscape(s).value.value
  {
    hide Hex4Value, HexNumber;
    FourHexRead(s);
    var n := Hex4Value(s).value;
    assert s == s[..4] + s[4..];
    if 0xD800 <= n < 0xE000 {
      FourHexRead(s[6..]);
      u := Surrogates(s[..4], s[6..][..4]);
      assert s == s[..4] + "\\u" + s[6..][..4] + s[10..];
    } else {
      u := Code(s[..4]);
    }
  }

  lemma EscapeDerived(s: string) returns (u: Unit)
    requires ParseEscape(s).Some?
    ensures u.Valid() && "\\" + s == u.Spelling() + ParseEscape(s).value.rest
    ensures u.Value() == ParseEscape(s).value.value
  {
    hide ParseUnicodeEscape;
    if s[0] == 'u' {
      u := CodeDerived(s[1..]);
      assert "\\" + s == "\\u" + s[1..];
    } else {
      u := Short(s[0]);
      assert s[0] == "\"\\/bfnrt"[if s[0] == '\"' then 0 else if s[0] == '\\' then 1 else if s[0] == '/' then 2
                                  else if s[0] == 'b' then 3 else if s[0] == 'f' then 4 else if s[0] == 'n' then 5
                                  else if s[0] == 'r' then 6 else 7];
      assert "\\" + s == u.Spelling() + s[1..];
    }
  }

  lemma UnitDerived(s: string) returns (u: Unit, rest: string)
    requires ParseString(s).Some? && s[0] != '\"'
    ensures u.Valid() && s == u.Spelling() + rest && |rest| < |s|
    ensures ParseString(rest).Some? && ParseString(s).value.rest == ParseString(rest).value.rest
    ensures ParseString(s).value.value == [u.Value()] + ParseString(rest).value.value
  {
    hide ParseEscape;
    u, rest := Plain(s[0]), s[1..];
    if s[0] == '\\' {
      u := EscapeDerived(s[1..]);
      rest := ParseEscape(s[1..]).value.rest;
      assert s == "\\" + s[1..];
    }
  }

  lemma EmptyString(k: string)
    ensures ParseString("\"" + k) == Some(Parsed("", k))
  {
    assert ("\"" + k)[1..] == k;
  }

  lemma UnitsCons(u: Unit, us: seq<Unit>)
    ensures UnitsSpelling([u] + us) == u.Spelling() + UnitsSpelling(us)
    ensures ValidUnits([u] + us) <==> u.Valid() && ValidUnits(us)
    ensures ValidUnits([u] + us) ==> UnitsValue([u] + us) == [u.Value()] + UnitsValue(us)
  {
    hide Unit.Valid, Unit.Spelling, Unit.Value;
    assert ([u] + us)[1..] == us;
    assert u in [u] + us && forall v | v in us :: v in [u] + us;
  }

  lemma {:induction false} StringDerived(s: string) returns (us: seq<Unit>)
    requires ParseString(s).Some?
    ensures ValidUnits(us) && s == UnitsSpelling(us) + "\"" + ParseString(s).value.rest
    ensures UnitsValue(us) == ParseString(s).value.value
    decreases |s|
  {
    hide Unit.Valid, Unit.Spelling, Unit.Value;
    if s[0] == '\"' {
      us := [];
      assert s == "\"" + s[1..];
      EmptyString(s[1..]);
    } else {
      hide ParseString, UnitsSpelling, UnitsValue, ValidUnits;
      var u, rest := UnitDerived(s);
      var more := StringDerived(rest);
      us := [u] + more;
      UnitsCons(u, more);
      assert s == u.Spelling() + (UnitsSpelling(more) + "\"" + ParseString(s).value.rest);
    }
  }

  lemma LexDerived(s: string)
    requires LexNumeral(s).Some?
    ensures s == LexNumeral(s).value.value.Text() + LexNumeral(s).value.rest
  {
    hide IntegerRun, FractionRun, ExponentRun, Numeral.Valid;
    var w := IntegerRun(s);
    var f := FractionRun(s[w..]);
    var e := ExponentRun(s[w..][f..]);
    ThreeCuts(s, w, f, e);
  }

  lemma ThreeCuts(s: string, w: nat, f: nat, e: nat)
    requires w <= |s| && f <= |s[w..]| && e <= |s[w..][f..]|
    ensures s == s[..w] + s[w..][..f] + s[w..][f..][..e] + s[w..][f..][e..]
  {
    var (t, u) := (s[w..], s[w..][f..]);
    assert u == u[..e] + u[e..];
    assert t == t[..f] + u;
    assert s == s[..w] + t;
  }

  lemma CutAfter(s: string, token: string)
    requires token <= s
    ensures s == token + s[|token|..]
  {
  }

  lemma ScalarDerived(s: string) returns (d: Doc)
    requires ParseScalar(s).Some?
    ensures d.Valid() && s == d.Spelling() + ParseScalar(s).value.rest && d.Value() == ParseScalar(s).value.value
  {
    hide LexNumeral, NumeralValue;
    if "null" <= s { d := Literal("null"); CutAfter(s, "null"); }
    else if "true" <= s { d := Literal("true"); CutAfter(s, "true"); }
    else if "false" <= s { d := Literal("false"); CutAfter(s, "false"); }
    else if ParseNumber(s).Some? { d := Number(LexNumeral(s).value.value); LexDerived(s); }
    else if "NaN" <= s { d := Literal("NaN"); CutAfter(s, "NaN"); }
    else if "Infinity" <= s { d := Literal("Infinity"); CutAfter(s, "Infinity"); }
    else { d := Literal("-Infinity"); CutAfter(s, "-Infinity"); }
  }

  /** A value that opens with one character, blanks, and what `tail` spells. */
  lemma OpensWith(s: string, open: char, blank: string, t: string, tail: string, k: string)
    requires s != "" && s[0] == open && s[1..] == blank + t && t == tail + k
    ensures s == [open] + blank + tail + k
  {
    assert s == [open] + s[1..];
  }

  lemma Closes(t: string, close: char)
    requires t != "" && t[0] == close
    ensures t == [close] + t[1..]
  {
  }

  lemma {:induction false} ValueDerived(s: string) returns (d: Doc)
    requires ParseValue(s).Some?
    ensures d.Valid() && s == d.Spelling() + ParseValue(s).value.rest && d.Value() == ParseValue(s).value.value
    decreases |s|, 1
  {
    hide ParseString, ParseScalar, ParseItems, ParseMembers, ToDict, SkipSpace, ValidUnits, UnitsSpelling, UnitsValue,
         Blank, Items.Valid, Items.Spelling, Items.Values, Fields.Valid, Fields.Spelling, Fields.Pairs;
    if s[0] == '\"' {
      var us := StringDerived(s[1..]);
      d := Text(us);
      assert s == "\"" + s[1..];
    } else if s[0] == '{' {
      var blank := SkipsBlank(s[1..]);
      var t := SkipSpace(s[1..]);
      if t != "" && t[0] == '}' {
        d := EmptyDict(blank);
        Closes(t, '}');
        OpensWith(s, '{', blank, t, "}", t[1..]);
      } else {
        var fields := MembersDerived(t);
        d := Dict(blank, fields);
        OpensWith(s, '{', blank, t, fields.Spelling(), ParseMembers(t).value.rest);
      }
    } else if s[0] == '[' {
      var blank := SkipsBlank(s[1..]);
      var t := SkipSpace(s[1..]);
      if t != "" && t[0] == ']' {
        d := EmptyList(blank);
        Closes(t, ']');
        OpensWith(s, '[', blank, t, "]", t[1..]);
      } else {
        var items := ItemsDerived(t);
        d := List(blank, items);
        OpensWith(s, '[', blank, t, items.Spelling(), ParseItems(t).value.rest);
      }
    } else {
      d := ScalarDerived(s);
    }
  }

  lemma {:induction false} ItemsDerived(s: string) returns (items: Items)
    requires ParseItems(s).Some?
    ensures items.Valid() && s == items.Spelling() + ParseItems(s).value.rest
    ensures items.Values() == ParseItems(s).value.value
    decreases |s|, 2
  {
    hide ParseValue, SkipSpace;
    var item := ValueDerived(s);
    var rest := ParseValue(s).value.rest;
    var before := SkipsBlank(rest);
    var t := SkipSpace(rest);
    assert s == item.Spelling() + before + t && t == [t[0]] + t[1..];
    if t[0] == ']' {
      items := LastItem(item, before);
    } else {
      var after := SkipsBlank(t[1..]);
      var more := ItemsDerived(SkipSpace(t[1..]));
      items := MoreItems(item, before, after, more);
    }
  }

  lemma {:induction false} MemberDerived(s: string) returns (f: Field)
    requires ParseMember(s).Some?
    ensures f.Valid() && s == f.Spelling() + ParseMember(s).value.rest && f.Pair() == ParseMember(s).value.value
    decreases |s|, 2
  {
    hide ParseValue, ParseString, SkipSpace, UnitsSpelling, UnitsValue, Doc.Spelling, Doc.Valid, Doc.Value,
         ValidUnits, Blank;
    var key := StringDerived(s[1..]);
    var rest := ParseString(s[1..]).value.rest;
    var before := SkipsBlank(rest);
    var t := SkipSpace(rest);
    var after := SkipsBlank(t[1..]);
    var value := ValueDerived(SkipSpace(t[1..]));
    f := Field(key, before, after, value);
    FieldSpelled(s, f, rest, t, SkipSpace(t[1..]), ParseMember(s).value.rest);
  }

  lemma FieldSpelled(s: string, f: Field, afterKey: string, t: string, u: string, k: string)
    requires s != "" && s[0] == '\"' && s[1..] == UnitsSpelling(f.key) + "\"" + afterKey
    requires afterKey == f.beforeColon + t && t != "" && t[0] == ':'
    requires t[1..] == f.afterColon + u && u == f.value.Spelling() + k
    ensures s == f.Spelling() + k
  {
    hide UnitsSpelling, Doc.Spelling;
    assert s == "\"" + s[1..] && t == ":" + t[1..];
  }

  lemma {:induction false} MembersDerived(s: string) returns (fields: Fields)
    requires ParseMembers(s).Some?
    ensures fields.Valid() && s == fields.Spelling() + ParseMembers(s).value.rest
    ensures fields.Pairs() == ParseMembers(s).value.value
    decreases |s|, 3
  {
    hide ParseMember, SkipSpace, Field.Spelling, Field.Valid, Field.Pair, Blank;
    var field := MemberDerived(s);
    var rest := ParseMember(s).value.rest;
    var before := SkipsBlank(rest);
    var t := SkipSpace(rest);
    Closes(t, t[0]);
    if t[0] == '}' {
      fields := LastField(field, before);
      assert s == field.Spelling() + before + "}" + t[1..];
    } else {
      var after := SkipsBlank(t[1..]);
      var more := MembersDerived(SkipSpace(t[1..]));
      fields := MoreFields(field, before, after, more);
      MoreSpelled(s, field.Spelling(), before, t, after, more.Spelling(), ParseMembers(SkipSpace(t[1..])).value.rest);
    }
  }

  lemma MoreSpelled(s: string, first: string, before: string, t: string, after: string, more: string, k: string)
    requires s == first + (before + t) && t != "" && t[0] == ',' && t[1..] == after + (more + k)
    ensures s == first + before + "," + after + more + k
  {
    assert t == "," + t[1..];
  }

  // ---------------------------------------------------------------- what is derived the reader accepts

  lemma CodeAccepted(hex: string, k: string)
    requires Unit.Code(hex).Valid()
    ensures ParseUnicodeEscape(hex + k) == Some(Parsed(Unit.Code(hex).Value(), k))
  {
    hide Hex4Value, HexNumber;
    FourHexRead(hex + k);
    assert (hex + k)[..4] == hex && (hex + k)[4..] == k;
  }

  lemma SurrogatesAccepted(high: string, low: string, k: string)
    requires Surrogates(high, low).Valid()
    ensures ParseUnicodeEscape(high + "\\u" + low + k) == Some(Parsed(Surrogates(high, low).Value(), k))
  {
    hide Hex4Value, HexNumber;
    var s := high + "\\u" + low + k;
    FourHexRead(s);
    FourHexRead(s[6..]);
    assert s[..4] == high && s[4..6] == "\\u" && s[6..] == low + k && s[6..][..4] == low && s[10..] == k;
  }

  lemma ShortAccepted(letter: char, rest: string)
    requires Short(letter).Valid()
    ensures ParseEscape([letter] + rest) == Some(Parsed(Short(letter).Value(), rest))
  {
    hide ParseUnicodeEscape;
    assert ([letter] + rest)[1..] == rest;
  }

  lemma UnicodeAccepted(t: string)
    ensures ParseEscape("u" + t) == ParseUnicodeEscape(t)
  {
    hide ParseUnicodeEscape;
    assert ("u" + t)[1..] == t;
  }

  lemma AfterBackslash(t: string, rest: string)
    ensures ("\\u" + t)[1..] + rest == "u" + (t + rest)
  {
  }

  lemma EscapeAccepted(u: Unit, rest: string)
    requires u.Valid() && !u.Plain?
    ensures u.Spelling()[0] == '\\' && ParseEscape(u.Spelling()[1..] + rest) == Some(Parsed(u.Value(), rest))
  {
    hide ParseEscape, ParseUnicodeEscape, HexNumber, FourHex;
    match u
    case Short(letter) =>
      ShortAccepted(letter, rest);
      assert u.Spelling()[1..] == [letter];
    case Code(hex) =>
      CodeAccepted(hex, rest);
      UnicodeAccepted(hex + rest);
      AfterBackslash(hex, rest);
    case Surrogates(high, low) =>
      SurrogatesAccepted(high, low, rest);
      UnicodeAccepted(high + "\\u" + low + rest);
      AfterBackslash(high + "\\u" + low, rest);
  }

  lemma UnitAccepted(u: Unit, rest: string)
    requires u.Valid() && ParseString(rest).Some?
    ensures var Parsed(t, k) := ParseString(rest).value;
            ParseString(u.Spelling() + rest) == Some(Parsed([u.Value()] + t, k))
  {
    hide ParseEscape, FourHex, HexNumber;
    var s := u.Spelling() + rest;
    if u.Plain? {
      assert s[1..] == rest;
    } else {
      EscapeAccepted(u, rest);
      assert s[0] == '\\' && s[1..] == u.Spelling()[1..] + rest;
    }
  }

  lemma {:induction false} StringAccepted(us: seq<Unit>, k: string)
    requires ValidUnits(us)
    ensures ParseString(UnitsSpelling(us) + "\"" + k) == Some(Parsed(UnitsValue(us), k))
  {
    hide ParseString, Unit.Valid, Unit.Spelling, Unit.Value;
    if us == [] {
      assert UnitsSpelling(us) + "\"" + k == "\"" + k;
      EmptyString(k);
    } else {
      var u, rest := us[0], UnitsSpelling(us[1..]) + "\"" + k;
      assert us == [u] + us[1..];
      UnitsCons(u, us[1..]);
      StringAccepted(us[1..], k);
      assert UnitsSpelling(us) + "\"" + k == u.Spelling() + rest;
      UnitAccepted(u, rest);
    }
  }

  lemma LiteralAccepted(token: string, k: string)
    requires token in LITERALS
    ensures ParseValue(token + k) == Some(Parsed(LITERALS[token], k))
  {
    hide ParseString, ParseMembers, ParseItems, ToDict, SkipSpace;
    var s := token + k;
    LiteralParses(s, token, k);
    if token == "-Infinity" {
      NoNumeral(s);
    } else if token == "NaN" || token == "Infinity" {
      NoNumeral(s);
    }
  }

  lemma NoNumeral(s: string)
    requires |s| > 1 && !IsDigit(s[0]) && (s[0] == '-' ==> !IsDigit(s[1]))
    ensures ParseNumber(s).None?
  {
  }

  lemma NumberAccepted(n: Numeral, k: string)
    requires n.Valid() && Follow(k)
    ensures ParseValue(n.Text() + k) == Some(Parsed(NumeralValue(n), k))
  {
    hide ParseValue, ParseScalar, LexNumeral, IsInteger, NumeralValue;
    NumeralLexes(n, k);
    IntegerStarts(n.whole);
    assert (n.Text() + k)[0] == n.whole[0];
    NumberIsScalar(n.Text() + k);
    ScalarIsValue(n.Text() + k);
  }

  lemma TextAccepted(us: seq<Unit>, k: string)
    requires ValidUnits(us)
    ensures ParseValue(Text(us).Spelling() + k) == Some(Parsed(Str(UnitsValue(us)), k))
  {
    hide ParseString, UnitsSpelling;
    var s := Text(us).Spelling() + k;
    assert s[1..] == UnitsSpelling(us) + "\"" + k;
    StringAccepted(us, k);
  }

  /** No value starts with a blank, a comma or a closing bracket. */
  lemma DocStarts(d: Doc)
    requires d.Valid()
    ensures d.Spelling() != "" && !IsJsonSpace(d.Spelling()[0]) && d.Spelling()[0] !in "]},:"
  {
    match d
    case Number(n) =>
      IntegerStarts(n.whole);
      assert n.whole[0] == n.Text()[0];
    case _ =>
  }

  lemma ItemsStart(items: Items)
    requires items.Valid()
    ensures items.Spelling() != "" && !IsJsonSpace(items.Spelling()[0]) && items.Spelling()[0] != ']'
  {
    hide Doc.Spelling;
    DocStarts(items.item);
  }

  lemma FieldsStart(fields: Fields)
    requires fields.Valid()
    ensures fields.Spelling() != "" && fields.Spelling()[0] == '\"'
  {
    assert fields.field.Spelling()[0] == '\"';
  }

  lemma BlankFollows(blank: string, k: string)
    requires Blank(blank) && Follow(k)
    ensures Follow(blank + k)
  {
    if blank == "" { assert blank + k == k; } else { assert blank[0] in blank; }
  }

  lemma {:induction false} DocAccepted(d: Doc, k: string)
    requires d.Valid() && Follow(k)
    ensures ParseValue(d.Spelling() + k) == Some(Parsed(d.Value(), k))
    decreases d, 1
  {
    hide ParseValue, ParseItems, ParseMembers, ToDict;
    match d
    case Literal(token) => LiteralAccepted(token, k);
    case Number(n) => NumberAccepted(n, k);
    case Text(us) => TextAccepted(us, k);
    case EmptyList(blank) =>
      var body := blank + ("]" + k);
      assert d.Spelling() + k == "[" + body;
      OpenBracket(body);
      BlankSkipped(blank, "]" + k);
      assert ("]" + k)[1..] == k;
    case List(blank, items) =>
      var body := blank + (items.Spelling() + k);
      assert d.Spelling() + k == "[" + body;
      OpenBracket(body);
      ItemsStart(items);
      BlankSkipped(blank, items.Spelling() + k);
      ItemsAccepted(items, k);
    case EmptyDict(blank) =>
      var body := blank + ("}" + k);
      assert d.Spelling() + k == "{" + body;
      OpenBrace(body);
      BlankSkipped(blank, "}" + k);
      assert ("}" + k)[1..] == k;
    case Dict(blank, fields) =>
      var body := blank + (fields.Spelling() + k);
      assert d.Spelling() + k == "{" + body;
      OpenBrace(body);
      FieldsStart(fields);
      BlankSkipped(blank, fields.Spelling() + k);
      FieldsAccepted(fields, k);
  }

  lemma {:induction false} ItemsAccepted(items: Items, k: string)
    requires items.Valid()
    ensures ParseItems(items.Spelling() + k) == Some(Parsed(items.Values(), k))
    decreases items, 0
  {
    hide ParseValue, SkipSpace, Blank, Doc.Spelling, Doc.Value, Doc.Valid;
    var s := items.Spelling() + k;
    match items
    case LastItem(item, blank) =>
      var rest := blank + ("]" + k);
      assert s == item.Spelling() + rest;
      BlankFollows(blank, "]" + k);
      DocAccepted(item, rest);
      BlankSkipped(blank, "]" + k);
      assert ("]" + k)[1..] == k;
    case MoreItems(item, before, after, more) =>
      var tail := after + (more.Spelling() + k);
      var rest := before + ("," + tail);
      assert s == item.Spelling() + rest;
      BlankFollows(before, "," + tail);
      DocAccepted(item, rest);
      BlankSkipped(before, "," + tail);
      assert ("," + tail)[1..] == tail;
      ItemsStart(more);
      BlankSkipped(after, more.Spelling() + k);
      ItemsAccepted(more, k);
  }

  lemma {:induction false} FieldAccepted(f: Field, k: string)
    requires f.Valid() && Follow(k)
    ensures ParseMember(f.Spelling() + k) == Some(Parsed(f.Pair(), k))
    decreases f, 0
  {
    hide ParseValue, ParseString, Doc.Spelling, Doc.Value, UnitsSpelling, UnitsValue;
    var s := f.Spelling() + k;
    var value := f.value.Spelling() + k;
    var tail := f.afterColon + value;
    var rest := f.beforeColon + (":" + tail);
    assert s[1..] == UnitsSpelling(f.key) + "\"" + rest;
    StringAccepted(f.key, rest);
    BlankSkipped(f.beforeColon, ":" + tail);
    assert (":" + tail)[1..] == tail;
    DocStarts(f.value);
    BlankSkipped(f.afterColon, value);
    DocAccepted(f.value, k);
  }

  lemma {:induction false} FieldsAccepted(fields: Fields, k: string)
    requires fields.Valid()
    ensures ParseMembers(fields.Spelling() + k) == Some(Parsed(fields.Pairs(), k))
    decreases fields, 0
  {
    hide ParseMember, SkipSpace, Blank, Field.Spelling, Field.Pair, Field.Valid;
    var s := fields.Spelling() + k;
    match fields
    case LastField(field, blank) =>
      var rest := blank + ("}" + k);
      assert s == field.Spelling() + rest;
      BlankFollows(blank, "}" + k);
      FieldAccepted(field, rest);
      BlankSkipped(blank, "}" + k);
      assert ("}" + k)[1..] == k;
    case MoreFields(field, before, after, more) =>
      var tail := after + (more.Spelling() + k);
      var rest := before + ("," + tail);
      assert s == field.Spelling() + rest;
      BlankFollows(before, "," + tail);
      FieldAccepted(field, rest);
      BlankSkipped(before, "," + tail);
      assert ("," + tail)[1..] == tail;
      FieldsStart(more);
      BlankSkipped(after, more.Spelling() + k);
      FieldsAccepted(more, k);
  }

  // ---------------------------------------------------------------- the reader is the grammar

  /** `text` is a JSON text for `v`: a derivation of `v` between blanks. */
  ghost predicate Derives(text: string, v: Json, before: string, d: Doc, after: string) {
    Blank(before) && Blank(after) && d.Valid() && text == before + d.Spelling() + after && d.Value() == v
  }

  lemma DerivedIsRead(text: string, v: Json, before: string, d: Doc, after: string)
    requires Derives(text, v, before, d, after)
    ensures Parse(text) == Some(v)
  {
    hide ParseValue, Doc.Spelling, Doc.Value;
    var rest := d.Spelling() + after;
    assert text == before + rest;
    DocStarts(d);
    BlankSkipped(before, rest);
    BlankFollows(after, "");
    assert after + "" == after;
    DocAccepted(d, after);
    BlankSkipped(after, "");
  }

  lemma ReadIsDerived(text: string) returns (before: string, d: Doc, after: string)
    requires Parse(text).Some?
    ensures Derives(text, Parse(text).value, before, d, after)
  {
    hide ParseValue, SkipSpace;
    before := SkipsBlank(text);
    d := ValueDerived(SkipSpace(text));
    after := SkipsBlank(ParseValue(SkipSpace(text)).value.rest);
    assert after + "" == after;
  }

  /** The reader returns `v` exactly for the texts the grammar derives `v` from; every other text raises. */
  lemma ReaderIsGrammar(text: string, v: Json)
    ensures Parse(text) == Some(v) <==> exists before, d, after :: Derives(text, v, before, d, after)
  {
    hide Parse, Derives;
    if Parse(text) == Some(v) {
      var before, d, after := ReadIsDerived(text);
    }
    if before, d, after :| Derives(text, v, before, d, after) {
      DerivedIsRead(text, v, before, d, after);
    }
  }

  // ---------------------------------------------------------------- repeated keys

  /** Reading a list of pairs into a dict keeps, for each key, the value of its last pair. */
  lemma {:induction false} LastPairWins(pairs: seq<Member>, m: Member)
    ensures m in ToDict(pairs) <==>
            exists i | 0 <= i < |pairs| :: pairs[i] == m && forall j | i < j < |pairs| :: pairs[j].key != m.key
  {
    if pairs != [] {
      var n := |pairs| - 1;
      LastPairWins(pairs[..n], m);
      ToDictIsDict(pairs[..n]);
      StoreMembers(ToDict(pairs[..n]), pairs[n], m);
      if m in ToDict(pairs) && m != pairs[n] {
        var i :| 0 <= i < n && pairs[..n][i] == m && forall j | i < j < n :: pairs[..n][j].key != m.key;
        assert pairs[i] == m;
        forall j | i < j < |pairs| ensures pairs[j].key != m.key {
          if j < n { assert pairs[..n][j] == pairs[j]; }
        }
      }
    }
  }

  lemma {:induction false} StoreMembers(ms: seq<Member>, m: Member, x: Member)
    requires DistinctKeys(ms)
    ensures x in Store(ms, m) <==> x == m || (x in ms && x.key != m.key)
  {
    StoreKeepsDistinct(ms, m);
    if ms != [] {
      StoreMembers(ms[1..], m, x);
      assert ms == [ms[0]] + ms[1..];
    }
  }
}
