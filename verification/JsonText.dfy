/** The compact JSON printer and the JSON reader, over text. */
module JsonText {
  import opened Wrappers
  import opened Json
  import ByteStrings

  // ---------------------------------------------------------------- numbers

  function DigitChar(d: int): char
    requires 0 <= d < 10
  {
    '0' + d as char
  }

  function NatText(n: nat): (s: string)
    ensures IsNatural(s)
    ensures n > 0 ==> s[0] != '0'
  {
    if n < 10 then [DigitChar(n)] else NatText(n / 10) + [DigitChar(n % 10)]
  }

  function IntText(n: int): string {
    if n < 0 then "-" + NatText(-n) else NatText(n)
  }

  function DigitsValue(s: string): nat
    requires forall c | c in s :: IsDigit(c)
  {
    if s == "" then 0 else
      assert IsDigit(s[|s| - 1]);
      10 * DigitsValue(s[..|s| - 1]) + (s[|s| - 1] as int - '0' as int)
  }

  /** `int(token)`. */
  function IntValue(s: string): int
    requires IsInteger(s)
  {
    if s[0] == '-' then -(DigitsValue(s[1..]) as int) else DigitsValue(s)
  }

  lemma {:induction false} NatTextValue(n: nat)
    ensures DigitsValue(NatText(n)) == n
  {
    var s := NatText(n);
    if n < 10 {
      assert s[..0] == "";
    } else {
      NatTextValue(n / 10);
      assert s[..|s| - 1] == NatText(n / 10);
    }
  }

  lemma IntTextValue(n: int)
    ensures IsInteger(IntText(n)) && IntValue(IntText(n)) == n
  {
    NatTextValue(if n < 0 then -n else n);
    if n < 0 {
      assert IntText(n)[1..] == NatText(-n);
    } else {
      assert IsDigit(NatText(n)[0]);
    }
  }

  // ---------------------------------------------------------------- printer

  function Hex4(n: int): (s: string)
    requires 0 <= n < 0x10000
    ensures |s| == 4
  {
    [ByteStrings.HexDigit(n / 4096), ByteStrings.HexDigit(n / 256 % 16),
     ByteStrings.HexDigit(n / 16 % 16), ByteStrings.HexDigit(n % 16)]
  }

  /** What `ensure_ascii=False` leaves escaped: the quotation mark, the backslash and the control characters. */
  function EscapeChar(c: char): (s: string)
    ensures s != ""
  {
    if c == '\\' then "\\\\"
    else if c == '\"' then "\\\""
    else if c == '\n' then "\\n"
    else if c == '\r' then "\\r"
    else if c == '\t' then "\\t"
    else if c as int == 0x0C then "\\f"
    else if c as int == 0x08 then "\\b"
    else if c as int < 0x20 then "\\u" + Hex4(c as int)
    else [c]
  }

  function Escape(s: string): string {
    if s == "" then "" else EscapeChar(s[0]) + Escape(s[1..])
  }

  function Quote(s: string): string {
    "\"" + Escape(s) + "\""
  }

  /** Python's rendering; the last three are refused before printing and never reach the log. */
  function FloatText(f: PyFloat): string {
    match f
    case Finite(token) => token.Text()
    case NaN => "NaN"
    case Infinity => "Infinity"
    case NegInfinity => "-Infinity"
  }

  function Print(v: Json): string {
    match v
    case Null => "null"
    case Bool(b) => if b then "true" else "false"
    case Int(n) => IntText(n)
    case Float(f) => FloatText(f)
    case Str(s) => Quote(s)
    case Arr(items) => "[" + PrintItems(items) + "]"
    case Obj(ms) => "{" + PrintMembers(ms) + "}"
  }

  function PrintItems(items: seq<Json>): string {
    if items == [] then ""
    else if |items| == 1 then Print(items[0])
    else Print(items[0]) + "," + PrintItems(items[1..])
  }

  function PrintMember(m: Member): string {
    Quote(m.key) + ":" + Print(m.value)
  }

  function PrintMembers(ms: seq<Member>): string {
    if ms == [] then ""
    else if |ms| == 1 then PrintMember(ms[0])
    else PrintMember(ms[0]) + "," + PrintMembers(ms[1..])
  }

  // ---------------------------------------------------------------- reader

  /** What was read and the text after it; None where `json` raises JSONDecodeError. */
  datatype Parsed<+T> = Parsed(value: T, rest: string)

  predicate IsJsonSpace(c: char) {
    c == ' ' || c == '\t' || c == '\n' || c == '\r'
  }

  function SkipSpace(s: string): (r: string)
    ensures |r| <= |s|
  {
    if s != "" && IsJsonSpace(s[0]) then SkipSpace(s[1..]) else s
  }

  /** How many digits the text starts with. */
  function DigitRun(s: string): (n: nat)
    ensures n <= |s| && (forall c | c in s[..n] :: IsDigit(c)) && (n < |s| ==> !IsDigit(s[n]))
  {
    if s != "" && IsDigit(s[0]) then
      var m := DigitRun(s[1..]);
      assert s[..m + 1] == [s[0]] + s[1..][..m];
      1 + m
    else 0
  }

  /** Length of the longest match of `-?(0|[1-9][0-9]*)`, 0 if there is none. */
  function IntegerRun(s: string): (n: nat)
    ensures n <= |s| && (n > 0 ==> IsInteger(s[..n]))
  {
    var sign := if s != "" && s[0] == '-' then 1 else 0;
    var digits := DigitRun(s[sign..]);
    if digits == 0 then 0
    else
      var n := if s[sign] == '0' then 1 else digits;
      assert s[sign..][..n] == s[..sign + n][sign..];
      assert s[sign..][..n] <= s[sign..][..digits];
      assert forall c | c in s[sign..][..n] :: c in s[sign..][..digits];
      assert IsNatural(s[sign..][..n]);
      sign + n
  }

  /** Length of the longest match of `\.[0-9]+`, 0 if there is none. */
  function FractionRun(s: string): (n: nat)
    ensures n <= |s| && (n > 0 ==> IsFraction(s[..n]))
  {
    if s != "" && s[0] == '.' && DigitRun(s[1..]) > 0 then
      var n := 1 + DigitRun(s[1..]);
      assert s[..n][1..] == s[1..][..n - 1];
      n
    else 0
  }

  /** Length of the longest match of `[eE][-+]?[0-9]+`, 0 if there is none. */
  function ExponentRun(s: string): (n: nat)
    ensures n <= |s| && (n > 0 ==> IsExponent(s[..n]))
  {
    if |s| >= 2 && (s[0] == 'e' || s[0] == 'E') then
      var from := if IsSign(s[1]) then 2 else 1;
      var digits := DigitRun(s[from..]);
      if digits == 0 then 0
      else
        assert s[..from + digits][from..] == s[from..][..digits];
        from + digits
    else 0
  }

  /** Python's number pattern: the integer, fraction and exponent groups, each as long as it can be. */
  function LexNumeral(s: string): (r: Option<Parsed<Numeral>>)
    ensures r.Some? ==> r.value.value.Valid() && |r.value.rest| < |s|
  {
    var w := IntegerRun(s);
    if w == 0 then None
    else
      var (afterWhole, f) := (s[w..], FractionRun(s[w..]));
      var (afterFrac, e) := (afterWhole[f..], ExponentRun(afterWhole[f..]));
      Some(Parsed(Numeral(s[..w], afterWhole[..f], afterFrac[..e]), afterFrac[e..]))
  }

  /** `int(token)` without a fraction and exponent, else `float(token)`. */
  function NumeralValue(n: Numeral): Json
    requires n.Valid()
  {
    if n.IsFloat() then Float(Finite(n)) else Int(IntValue(n.whole))
  }

  function ParseNumber(s: string): (r: Option<Parsed<Json>>)
    ensures r.Some? ==> |r.value.rest| < |s|
  {
    match LexNumeral(s)
    case None => None
    case Some(Parsed(n, k)) => Some(Parsed(NumeralValue(n), k))
  }

  /** Four hex digits as a number. */
  function Hex4Value(s: string): Option<int>
  {
    if |s| < 4 then None
    else match (ByteStrings.HexValue(s[0]), ByteStrings.HexValue(s[1]),
                ByteStrings.HexValue(s[2]), ByteStrings.HexValue(s[3]))
      case (Some(a), Some(b), Some(c), Some(d)) => Some(4096 * a + 256 * b + 16 * c + d)
      case _ => None
  }

  /** The character a `\u` escape stands for, reading its low surrogate when it starts a pair. */
  function ParseUnicodeEscape(s: string): (r: Option<Parsed<char>>)
    ensures r.Some? ==> |r.value.rest| < |s|
  {
    match Hex4Value(s)
    case None => None
    case Some(n) =>
      if 0 <= n < 0xD800 || 0xE000 <= n < 0x10000 then Some(Parsed(n as char, s[4..]))
      else if 0xD800 <= n < 0xDC00 && |s| >= 6 && s[4..6] == "\\u" then
        match Hex4Value(s[6..])
        case Some(m) =>
          if 0xDC00 <= m < 0xE000
          then Some(Parsed((0x10000 + (n - 0xD800) * 1024 + (m - 0xDC00)) as char, s[10..]))
          else None
        case None => None
      else None
  }

  /** The character a backslash escape stands for; `s` starts after the backslash. */
  function ParseEscape(s: string): (r: Option<Parsed<char>>)
    ensures r.Some? ==> |r.value.rest| < |s|
  {
    if s == "" then None
    else match s[0]
      case '\"' => Some(Parsed('\"', s[1..]))
      case '\\' => Some(Parsed('\\', s[1..]))
      case '/' => Some(Parsed('/', s[1..]))
      case 'b' => Some(Parsed(8 as char, s[1..]))
      case 'f' => Some(Parsed(12 as char, s[1..]))
      case 'n' => Some(Parsed('\n', s[1..]))
      case 'r' => Some(Parsed('\r', s[1..]))
      case 't' => Some(Parsed('\t', s[1..]))
      case 'u' => ParseUnicodeEscape(s[1..])
      case _ => None
  }

  /** A string body up to its closing quotation mark; raw control characters are refused. */
  function ParseString(s: string): (r: Option<Parsed<string>>)
    ensures r.Some? ==> |r.value.rest| < |s|
    decreases |s|
  {
    if s == "" then None
    else if s[0] == '\"' then Some(Parsed("", s[1..]))
    else if s[0] as int < 0x20 then None
    else match if s[0] == '\\' then ParseEscape(s[1..]) else Some(Parsed(s[0], s[1..]))
      case None => None
      case Some(Parsed(c, rest)) =>
        match ParseString(rest)
        case None => None
        case Some(Parsed(t, k)) => Some(Parsed([c] + t, k))
  }

  /** `dict` of the pairs read: a repeated key keeps its first place and its last value. */
  function Store(ms: seq<Member>, m: Member): seq<Member> {
    if ms == [] then [m]
    else if ms[0].key == m.key then [m] + ms[1..]
    else [ms[0]] + Store(ms[1..], m)
  }

  function ToDict(pairs: seq<Member>): seq<Member> {
    if pairs == [] then [] else Store(ToDict(pairs[..|pairs| - 1]), pairs[|pairs| - 1])
  }

  /** The literals, the numerals and the three non-finite tokens Python also accepts. */
  function ParseScalar(s: string): (r: Option<Parsed<Json>>)
    ensures r.Some? ==> |r.value.rest| < |s|
  {
    if "null" <= s then Some(Parsed(Null, s[4..]))
    else if "true" <= s then Some(Parsed(Bool(true), s[4..]))
    else if "false" <= s then Some(Parsed(Bool(false), s[5..]))
    else if ParseNumber(s).Some? then ParseNumber(s)
    else if "NaN" <= s then Some(Parsed(Float(NaN), s[3..]))
    else if "Infinity" <= s then Some(Parsed(Float(Infinity), s[8..]))
    else if "-Infinity" <= s then Some(Parsed(Float(NegInfinity), s[9..]))
    else None
  }

  function ParseValue(s: string): (r: Option<Parsed<Json>>)
    ensures r.Some? ==> |r.value.rest| < |s|
    decreases |s|, 1
  {
    if s == "" then None
    else if s[0] == '\"' then
      match ParseString(s[1..])
      case None => None
      case Some(Parsed(t, k)) => Some(Parsed(Str(t), k))
    else if s[0] == '{' then
      var t := SkipSpace(s[1..]);
      if t != "" && t[0] == '}' then Some(Parsed(Obj([]), t[1..]))
      else
        match ParseMembers(t)
        case None => None
        case Some(Parsed(pairs, k)) => Some(Parsed(Obj(ToDict(pairs)), k))
    else if s[0] == '[' then
      var t := SkipSpace(s[1..]);
      if t != "" && t[0] == ']' then Some(Parsed(Arr([]), t[1..]))
      else
        match ParseItems(t)
        case None => None
        case Some(Parsed(items, k)) => Some(Parsed(Arr(items), k))
    else ParseScalar(s)
  }

  /** The elements of a non-empty list, through its closing bracket. */
  function ParseItems(s: string): (r: Option<Parsed<seq<Json>>>)
    ensures r.Some? ==> |r.value.rest| < |s|
    decreases |s|, 2
  {
    match ParseValue(s)
    case None => None
    case Some(Parsed(v, rest)) =>
      var t := SkipSpace(rest);
      if t == "" then None
      else if t[0] == ']' then Some(Parsed([v], t[1..]))
      else if t[0] != ',' then None
      else
        match ParseItems(SkipSpace(t[1..]))
        case None => None
        case Some(Parsed(vs, k)) => Some(Parsed([v] + vs, k))
  }

  function ParseMember(s: string): (r: Option<Parsed<Member>>)
    ensures r.Some? ==> |r.value.rest| < |s|
    decreases |s|, 2
  {
    if s == "" || s[0] != '\"' then None
    else match ParseString(s[1..])
      case None => None
      case Some(Parsed(key, rest)) =>
        var t := SkipSpace(rest);
        if t == "" || t[0] != ':' then None
        else match ParseValue(SkipSpace(t[1..]))
          case None => None
          case Some(Parsed(v, k)) => Some(Parsed(Member(key, v), k))
  }

  /** The members of a non-empty object, through its closing brace. */
  function ParseMembers(s: string): (r: Option<Parsed<seq<Member>>>)
    ensures r.Some? ==> |r.value.rest| < |s|
    decreases |s|, 3
  {
    match ParseMember(s)
    case None => None
    case Some(Parsed(m, rest)) =>
      var t := SkipSpace(rest);
      if t == "" then None
      else if t[0] == '}' then Some(Parsed([m], t[1..]))
      else if t[0] != ',' then None
      else
        match ParseMembers(SkipSpace(t[1..]))
        case None => None
        case Some(Parsed(ms, k)) => Some(Parsed([m] + ms, k))
  }

  /** `json.loads` on decoded text; None where it raises. */
  function Parse(s: string): Option<Json> {
    match ParseValue(SkipSpace(s))
    case None => None
    case Some(Parsed(v, k)) => if SkipSpace(k) == "" then Some(v) else None
  }
}
