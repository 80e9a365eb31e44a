/** Byte strings, and the lower-case hex text that carries them inside records. */
module ByteStrings {
  import opened Wrappers

  type Byte = b: int | 0 <= b < 256
  type Bytes = seq<Byte>

  function HexDigit(n: int): char
    requires 0 <= n < 16
  {
    if n < 10 then '0' + n as char else 'a' + (n - 10) as char
  }

  function HexValue(c: char): Option<int> {
    if '0' <= c <= '9' then Some(c as int - '0' as int)
    else if 'a' <= c <= 'f' then Some(c as int - 'a' as int + 10)
    else if 'A' <= c <= 'F' then Some(c as int - 'A' as int + 10)
    else None
  }

  /** `bytes.hex()`. */
  function Hex(b: Bytes): string {
    if b == [] then "" else [HexDigit(b[0] / 16), HexDigit(b[0] % 16)] + Hex(b[1..])
  }

  predicate IsAsciiSpace(c: char) {
    c == ' ' || 9 <= c as int <= 13
  }

  /** `bytes.fromhex`: either case, ASCII whitespace between bytes ignored; None where Python raises ValueError. */
  function FromHex(s: string): Option<Bytes> {
    if s == "" then Some([])
    else if IsAsciiSpace(s[0]) then FromHex(s[1..])
    else if |s| < 2 then None
    else match (HexValue(s[0]), HexValue(s[1]), FromHex(s[2..]))
      case (Some(hi), Some(lo), Some(rest)) => Some([16 * hi + lo] + rest)
      case _ => None
  }

  lemma HexDigitReads(n: int)
    requires 0 <= n < 16
    ensures HexValue(HexDigit(n)) == Some(n) && !IsAsciiSpace(HexDigit(n))
  {
  }

  lemma {:induction false} FromHexInvertsHex(b: Bytes)
    ensures FromHex(Hex(b)) == Some(b)
  {
    hide HexDigit, HexValue, IsAsciiSpace;
    if b != [] {
      FromHexInvertsHex(b[1..]);
      HexDigitReads(b[0] / 16);
      HexDigitReads(b[0] % 16);
      assert Hex(b)[2..] == Hex(b[1..]);
      assert [b[0]] + b[1..] == b;
    }
  }

  lemma HexInjective(a: Bytes, b: Bytes)
    requires Hex(a) == Hex(b)
    ensures a == b
  {
    FromHexInvertsHex(a);
    FromHexInvertsHex(b);
  }

  /** Two lower-case digits for each byte, the high one first. */
  lemma {:induction false} HexSpelled(b: Bytes, i: nat)
    requires i < |b|
    ensures |Hex(b)| == 2 * |b|
    ensures Hex(b)[2 * i] == "0123456789abcdef"[b[i] / 16] && Hex(b)[2 * i + 1] == "0123456789abcdef"[b[i] % 16]
  {
    HexLength(b);
    if i > 0 { HexSpelled(b[1..], i - 1); }
  }

  lemma {:induction false} HexLength(b: Bytes)
    ensures |Hex(b)| == 2 * |b|
  {
    if b != [] { HexLength(b[1..]); }
  }

  predicate IsHexDigit(c: char) {
    c in "0123456789abcdefABCDEF"
  }

  /** Equal letters of either case, and equal digits. */
  predicate SameHexDigit(c: char, lower: char) {
    c == lower || ('A' <= c <= 'F' && lower as int == c as int + 32)
  }

  lemma HexValueSpelled(c: char)
    ensures HexValue(c).Some? <==> IsHexDigit(c)
    ensures HexValue(c).Some? ==> 0 <= HexValue(c).value < 16 && SameHexDigit(c, HexDigit(HexValue(c).value))
  {
    if '0' <= c <= '9' { assert c == "0123456789"[c as int - '0' as int]; }
    if 'a' <= c <= 'f' { assert c == "abcdef"[c as int - 'a' as int]; }
    if 'A' <= c <= 'F' { assert c == "ABCDEF"[c as int - 'A' as int]; }
  }

  /** The text is the hex of the bytes, letter case aside. */
  ghost predicate Spells(s: string, b: Bytes) {
    |Hex(b)| == |s| && forall i | 0 <= i < |s| :: SameHexDigit(s[i], Hex(b)[i])
  }

  predicate HexPairs(s: string) {
    |s| % 2 == 0 && forall c | c in s :: IsHexDigit(c)
  }

  lemma SpellsCons(hi: char, lo: char, s: string, x: Byte, b: Bytes)
    requires Spells(s, b) && HexValue(hi) == Some(x / 16) && HexValue(lo) == Some(x % 16)
    ensures Spells([hi, lo] + s, [x] + b)
  {
    hide HexValue, HexDigit, SameHexDigit;
    HexValueSpelled(hi);
    HexValueSpelled(lo);
    assert ([x] + b)[1..] == b;
    assert Hex([x] + b) == [HexDigit(x / 16), HexDigit(x % 16)] + Hex(b);
  }

  lemma HexPairsCons(s: string)
    requires |s| >= 2
    ensures HexPairs(s) <==> IsHexDigit(s[0]) && IsHexDigit(s[1]) && HexPairs(s[2..])
  {
    hide IsHexDigit;
    assert s == [s[0], s[1]] + s[2..];
  }

  /** Text without whitespace is read exactly when it is pairs of hex digits, and then it spells the bytes read. */
  lemma {:induction false} FromHexExact(s: string)
    requires forall c | c in s :: !IsAsciiSpace(c)
    ensures FromHex(s).Some? <==> HexPairs(s)
    ensures FromHex(s).Some? ==> Spells(s, FromHex(s).value)
  {
    hide HexValue, IsHexDigit, IsAsciiSpace, HexPairs, Spells;
    if |s| >= 2 {
      assert s[0] in s && s[1] in s;
      FromHexExact(s[2..]);
      HexValueSpelled(s[0]);
      HexValueSpelled(s[1]);
      HexPairsCons(s);
      if FromHex(s).Some? {
        var hi, lo := HexValue(s[0]).value, HexValue(s[1]).value;
        SpellsCons(s[0], s[1], s[2..], 16 * hi + lo, FromHex(s[2..]).value);
        assert s == [s[0], s[1]] + s[2..];
      }
    } else if s != "" {
      assert s[0] in s;
      assert !HexPairs(s) by { OddIsNotPairs(s); }
    } else {
      assert HexPairs("") && Spells("", []) by { NothingSpelled(); }
    }
  }

  lemma OddIsNotPairs(s: string)
    requires |s| == 1
    ensures !HexPairs(s)
  {
  }

  lemma NothingSpelled()
    ensures HexPairs("") && Spells("", [])
  {
  }

  lemma {:induction false} SpacesSkipped(space: string, s: string)
    requires forall i | 0 <= i < |space| :: space[i] in [' ', '\t', '\n', '\r', 11 as char, 12 as char]
    ensures FromHex(space + s) == FromHex(s)
  {
    if space == "" {
      assert space + s == s;
    } else {
      assert (space + s)[1..] == space[1..] + s && space[0] in space;
      SpacesSkipped(space[1..], s);
    }
  }

  lemma PairRead(x: Byte, t: string)
    ensures FromHex([HexDigit(x / 16), HexDigit(x % 16)] + t)
            == match FromHex(t) case None => None case Some(b) => Some([x] + b)
  {
    hide HexDigit, HexValue;
    HexDigitReads(x / 16);
    HexDigitReads(x % 16);
    assert ([HexDigit(x / 16), HexDigit(x % 16)] + t)[2..] == t;
  }

  /** ASCII whitespace between bytes is passed over. */
  lemma {:induction false} FromHexSkips(a: Bytes, space: string, s: string)
    requires forall i | 0 <= i < |space| :: space[i] in [' ', '\t', '\n', '\r', 11 as char, 12 as char]
    ensures FromHex(Hex(a) + space + s) == match FromHex(s) case None => None case Some(b) => Some(a + b)
  {
    hide HexDigit, FromHex;
    if a == [] {
      assert Hex(a) + space + s == space + s;
      SpacesSkipped(space, s);
      assert forall b: Bytes :: a + b == b;
    } else {
      FromHexSkips(a[1..], space, s);
      PairRead(a[0], Hex(a[1..]) + space + s);
      assert Hex(a) + space + s == [HexDigit(a[0] / 16), HexDigit(a[0] % 16)] + (Hex(a[1..]) + space + s);
      assert forall b: Bytes :: [a[0]] + (a[1..] + b) == a + b;
    }
  }

  function Zeros(n: nat): Bytes {
    if n == 0 then [] else [0] + Zeros(n - 1)
  }

  /** `"00" * 32`: the genesis `prev_hash` and the head of an empty log. */
  const ZERO_HASH: Bytes := Zeros(32)
  const ZERO_HASH_HEX: string := Hex(ZERO_HASH)

  lemma {:induction false} HexOfZeros(n: nat)
    ensures |Zeros(n)| == n && |Hex(Zeros(n))| == 2 * n
    ensures (forall b | b in Zeros(n) :: b == 0) && forall c | c in Hex(Zeros(n)) :: c == '0'
  {
    if n > 0 { HexOfZeros(n - 1); }
  }

  /** Sixty-four zeros, for thirty-two zero bytes. */
  predicate IsZeroText(s: string) {
    |s| == 64 && forall c | c in s :: c == '0'
  }

  lemma ZeroHashSpelled()
    ensures IsZeroText(ZERO_HASH_HEX)
    ensures |ZERO_HASH| == 32 && forall b | b in ZERO_HASH :: b == 0
  {
    HexOfZeros(32);
  }
}
