/** UTF-8 as RFC 3629 section 3 defines it; the decoder is strict, as Python's is. */
module Utf8 {
  import opened Wrappers
  import opened ByteStrings

  function EncodeChar(c: char): (r: Bytes)
    ensures 1 <= |r| <= 4
  {
    var n := c as int;
    if n < 0x80 then [n]
    else if n < 0x800 then [0xC0 + n / 64, 0x80 + n % 64]
    else if n < 0x10000 then [0xE0 + n / 4096, 0x80 + n / 64 % 64, 0x80 + n % 64]
    else [0xF0 + n / 262144, 0x80 + n / 4096 % 64, 0x80 + n / 64 % 64, 0x80 + n % 64]
  }

  function Encode(s: string): Bytes {
    if s == "" then [] else EncodeChar(s[0]) + Encode(s[1..])
  }

  predicate Continues(b: Bytes, i: nat) {
    i < |b| && 0x80 <= b[i] < 0xC0
  }

  /** The six payload bits of a continuation byte. */
  function Low(b: Bytes, i: nat): int
    requires Continues(b, i)
  {
    b[i] as int - 0x80
  }

  predicate IsScalar(n: int) {
    0 <= n < 0xD800 || 0xE000 <= n < 0x110000
  }

  /** The first character and the number of bytes it takes. Overlong forms and surrogates are refused. */
  function DecodeChar(b: Bytes): (r: Option<(char, nat)>)
    requires b != []
    ensures r.Some? ==> 1 <= r.value.1 <= |b|
  {
    var lead := b[0] as int;
    if lead < 0x80 then Some((lead as char, 1))
    else if 0xC0 <= lead < 0xE0 && Continues(b, 1) then
      var n := (lead - 0xC0) * 64 + Low(b, 1);
      if 0x80 <= n then Some((n as char, 2)) else None
    else if 0xE0 <= lead < 0xF0 && Continues(b, 1) && Continues(b, 2) then
      var n := (lead - 0xE0) * 4096 + Low(b, 1) * 64 + Low(b, 2);
      if 0x800 <= n && IsScalar(n) then Some((n as char, 3)) else None
    else if 0xF0 <= lead < 0xF8 && Continues(b, 1) && Continues(b, 2) && Continues(b, 3) then
      var n := (lead - 0xF0) * 262144 + Low(b, 1) * 4096 + Low(b, 2) * 64 + Low(b, 3);
      if 0x10000 <= n && IsScalar(n) then Some((n as char, 4)) else None
    else None
  }

  /** `bytes.decode("utf-8")`; None where Python raises UnicodeDecodeError. */
  function Decode(b: Bytes): Option<string> {
    if b == [] then Some("")
    else match DecodeChar(b)
      case None => None
      case Some((c, n)) =>
        match Decode(b[n..])
        case None => None
        case Some(rest) => Some([c] + rest)
  }

  lemma DecodeTwo(c: char, k: Bytes)
    requires 0x80 <= c as int < 0x800
    ensures DecodeChar(EncodeChar(c) + k) == Some((c, 2))
  {
    var b := EncodeChar(c) + k;
    assert b[0] as int - 0xC0 == c as int / 64 && Low(b, 1) == c as int % 64;
  }

  lemma DecodeThree(c: char, k: Bytes)
    requires 0x800 <= c as int < 0x10000
    ensures DecodeChar(EncodeChar(c) + k) == Some((c, 3))
  {
    var n, b := c as int, EncodeChar(c) + k;
    assert n / 64 == n / 4096 * 64 + n / 64 % 64;
    assert b[0] as int - 0xE0 == n / 4096 && Low(b, 1) == n / 64 % 64 && Low(b, 2) == n % 64;
  }

  lemma DecodeFour(c: char, k: Bytes)
    requires 0x10000 <= c as int
    ensures DecodeChar(EncodeChar(c) + k) == Some((c, 4))
  {
    var n, b := c as int, EncodeChar(c) + k;
    assert n / 64 == n / 4096 * 64 + n / 64 % 64;
    assert n / 4096 == n / 262144 * 64 + n / 4096 % 64;
    assert b[0] as int - 0xF0 == n / 262144 && Low(b, 1) == n / 4096 % 64
           && Low(b, 2) == n / 64 % 64 && Low(b, 3) == n % 64;
  }

  lemma DecodeCharInverts(c: char, k: Bytes)
    ensures DecodeChar(EncodeChar(c) + k) == Some((c, |EncodeChar(c)|))
  {
    var n := c as int;
    if n < 0x80 {
    } else if n < 0x800 {
      DecodeTwo(c, k);
    } else if n < 0x10000 {
      DecodeThree(c, k);
    } else {
      DecodeFour(c, k);
    }
  }

  lemma EncodeCharInverts(b: Bytes)
    requires b != [] && DecodeChar(b).Some?
    ensures var (c, n) := DecodeChar(b).value; EncodeChar(c) == b[..n]
  {
    var (c, n) := DecodeChar(b).value;
    match n {
      case 1 =>
      case 2 => Digits(0, 0, b[0] as int - 0xC0, Low(b, 1));
      case 3 => Digits(0, b[0] as int - 0xE0, Low(b, 1), Low(b, 2));
      case _ => Digits(b[0] as int - 0xF0, Low(b, 1), Low(b, 2), Low(b, 3));
    }
  }

  /** Base-64 digits are recovered from the number they make. */
  lemma Digits(a: int, b: int, c: int, d: int)
    requires 0 <= b < 64 && 0 <= c < 64 && 0 <= d < 64
    ensures var n := a * 262144 + b * 4096 + c * 64 + d;
            n / 262144 == a && n / 4096 == a * 64 + b && n / 64 == a * 4096 + b * 64 + c &&
            n / 4096 % 64 == b && n / 64 % 64 == c && n % 64 == d
  {
  }

  lemma {:induction false} DecodeAppend(s: string, k: Bytes)
    ensures Decode(Encode(s) + k) == match Decode(k) case None => None case Some(t) => Some(s + t)
  {
    hide DecodeChar, EncodeChar;
    if s == "" {
      assert Encode(s) + k == k;
      assert forall t: string :: s + t == t;
    } else {
      var rest := Encode(s[1..]) + k;
      assert Encode(s) + k == EncodeChar(s[0]) + rest;
      DecodeCharInverts(s[0], rest);
      assert (Encode(s) + k)[|EncodeChar(s[0])|..] == rest;
      DecodeAppend(s[1..], k);
      assert forall t: string :: [s[0]] + (s[1..] + t) == s + t;
    }
  }

  /** Decoding undoes encoding on every text. */
  lemma DecodeInvertsEncode(s: string)
    ensures Decode(Encode(s)) == Some(s)
  {
    DecodeAppend(s, []);
    assert Encode(s) + [] == Encode(s);
    assert s + "" == s;
  }

  /** The decoder is strict: each text has one encoding, and it is the only byte string that decodes to it. */
  lemma {:induction false} EncodeInvertsDecode(b: Bytes)
    requires Decode(b).Some?
    ensures Encode(Decode(b).value) == b
  {
    if b != [] {
      var (c, n) := DecodeChar(b).value;
      EncodeCharInverts(b);
      EncodeInvertsDecode(b[n..]);
      assert b == b[..n] + b[n..];
      assert Decode(b).value[1..] == Decode(b[n..]).value;
    }
  }

  lemma EncodeInjective(s: string, t: string)
    requires Encode(s) == Encode(t)
    ensures s == t
  {
    DecodeInvertsEncode(s);
    DecodeInvertsEncode(t);
  }

  lemma {:induction false} EncodeConcat(s: string, t: string)
    ensures Encode(s + t) == Encode(s) + Encode(t)
  {
    if s == "" {
      assert s + t == t;
    } else {
      assert (s + t)[1..] == s[1..] + t;
      EncodeConcat(s[1..], t);
    }
  }

  /** An ASCII code occurs among the bytes exactly where that ASCII character occurs in the text. */
  lemma {:induction false} AsciiBytesAreCharacters(s: string, a: char)
    requires a as int < 0x80
    ensures (a as int) in Encode(s) <==> a in s
  {
    if s != "" {
      AsciiBytesAreCharacters(s[1..], a);
      assert s == [s[0]] + s[1..];
    }
  }

  /** A byte that starts with the bits 10 and carries six more. */
  predicate Trails(b: Byte) {
    0x80 <= b <= 0xBF
  }

  /** What is left of a byte when its marks above the lowest `bits` values are taken off. */
  function Payload(b: Byte, bits: nat): int
    requires bits > 0
  {
    b as int % bits
  }

  /** The table of RFC 3629 section 3, read from the bytes: how many there are, their marks, and the bits they carry. */
  lemma EncodeCharSpelled(c: char)
    ensures var n, b := c as int, EncodeChar(c);
            if n <= 0x7F then b == [n]
            else if n <= 0x7FF then
              |b| == 2 && 0xC2 <= b[0] <= 0xDF && Trails(b[1]) && n == Payload(b[0], 32) * 64 + Payload(b[1], 64)
            else if n <= 0xFFFF then
              |b| == 3 && 0xE0 <= b[0] <= 0xEF && Trails(b[1]) && Trails(b[2])
              && n == Payload(b[0], 16) * 4096 + Payload(b[1], 64) * 64 + Payload(b[2], 64)
            else
              |b| == 4 && 0xF0 <= b[0] <= 0xF4 && Trails(b[1]) && Trails(b[2]) && Trails(b[3])
              && n == Payload(b[0], 8) * 262144 + Payload(b[1], 64) * 4096 + Payload(b[2], 64) * 64 + Payload(b[3], 64)
  {
    var n, b := c as int, EncodeChar(c);
    Base64Digits(n);
    if 0x7F < n <= 0x7FF {
      assert b == [0xC0 + n / 64, 0x80 + n % 64];
      Marks(n / 64, n % 64);
    } else if 0x7FF < n <= 0xFFFF {
      assert b == [0xE0 + n / 4096, 0x80 + n / 64 % 64, 0x80 + n % 64];
      Marks(n / 4096, n / 64 % 64);
      Marks(0, n % 64);
    } else if n > 0xFFFF {
      assert b == [0xF0 + n / 262144, 0x80 + n / 4096 % 64, 0x80 + n / 64 % 64, 0x80 + n % 64];
      Marks(n / 262144, n / 4096 % 64);
      Marks(n / 64 % 64, n % 64);
    }
  }

  /** A mark lies above the bits it leaves free. */
  lemma Marks(lead: int, low: int)
    requires 0 <= lead && 0 <= low < 64
    ensures lead < 32 ==> (0xC0 + lead) % 32 == lead
    ensures lead < 16 ==> (0xE0 + lead) % 16 == lead
    ensures lead < 8 ==> (0xF0 + lead) % 8 == lead
    ensures lead < 64 ==> (0x80 + lead) % 64 == lead
    ensures (0x80 + low) % 64 == low
  {
  }

  lemma Base64Digits(n: nat)
    ensures n == n / 4096 * 4096 + n / 64 % 64 * 64 + n % 64
    ensures n == n / 262144 * 262144 + n / 4096 % 64 * 4096 + n / 64 % 64 * 64 + n % 64
  {
    var m, p, q := n / 64, n / 4096, n / 262144;
    assert p == m / 64;
    assert q == p / 64;
    assert n == m * 64 + n % 64 && m == p * 64 + m % 64 && p == q * 64 + p % 64;
  }

  /** A text is encoded character by character. */
  lemma {:induction false} EncodeAt(s: string, i: nat)
    requires i < |s|
    ensures Encode(s) == Encode(s[..i]) + EncodeChar(s[i]) + Encode(s[i + 1..])
  {
    hide EncodeChar;
    assert s == s[..i] + [s[i]] + s[i + 1..];
    EncodeConcat(s[..i], [s[i]]);
    EncodeConcat(s[..i] + [s[i]], s[i + 1..]);
    assert Encode([s[i]]) == EncodeChar(s[i]);
  }
}
