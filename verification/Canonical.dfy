/** Canonical JSON: the bytes behind every hash and signature. */
module Canonical {
  import opened Wrappers
  import opened Errors
  import opened ByteStrings
  import opened Json
  import opened JsonText
  import JsonGrammar
  import JsonRoundTrip
  import Text
  import Utf8

  /** The text `dumps` encodes: keys sorted at every depth, no whitespace. */
  function CanonText(v: Json): string {
    Print(Canon(v))
  }

  function Dumps(v: Json): Result<Bytes, Error> {
    if HasNonFinite(v) then Err(Canonicalization) else Ok(Utf8.Encode(CanonText(v)))
  }

  function Loads(data: Bytes): Option<Json> {
    match Utf8.Decode(data)
    case None => None
    case Some(text) => Parse(text)
  }

  /** `loads(dumps(v))` is v with its keys sorted at every depth. */
  lemma LoadsInvertsDumps(v: Json)
    requires WellFormed(v) && Dumps(v).Ok?
    ensures Loads(Dumps(v).value) == Some(Canon(v))
  {
    CanonKeepsWellFormed(v);
    CanonKeepsFinite(v);
    Utf8.DecodeInvertsEncode(CanonText(v));
    JsonRoundTrip.ParseInvertsPrint(Canon(v));
  }

  /** Canonical JSON is a faithful code: two trees share their bytes exactly when they agree up to key order. */
  lemma DumpsDecidesSame(a: Json, b: Json)
    requires WellFormed(a) && WellFormed(b) && Dumps(a).Ok?
    ensures Dumps(a) == Dumps(b) <==> Same(a, b)
  {
    if Dumps(a) == Dumps(b) {
      LoadsInvertsDumps(a);
      LoadsInvertsDumps(b);
      CanonImpliesSame(a, b);
    }
    if Same(a, b) {
      SameImpliesCanon(a, b);
      CanonKeepsFinite(a);
      CanonKeepsFinite(b);
    }
  }

  /** `loads` returns v exactly for the UTF-8 encodings of the texts from which the JSON grammar derives v. */
  lemma LoadsExact(data: Bytes, v: Json)
    ensures Loads(data) == Some(v) <==>
            exists before, d, after ::
              Utf8.Decode(data).Some? && JsonGrammar.Derives(Utf8.Decode(data).value, v, before, d, after)
    ensures Utf8.Decode(data).Some? ==> data == Utf8.Encode(Utf8.Decode(data).value)
  {
    hide Parse, JsonGrammar.Derives;
    if Utf8.Decode(data).Some? {
      Utf8.EncodeInvertsDecode(data);
      JsonGrammar.ReaderIsGrammar(Utf8.Decode(data).value, v);
    }
  }

  /** `dumps` refuses exactly the trees with a NaN or an infinity somewhere inside. */
  lemma DumpsRefuses(v: Json)
    ensures Dumps(v).Err? <==> exists f: PyFloat :: !f.Finite? && Within(Float(f), v)
  {
    NonFiniteExact(v);
  }

  /** In every object of the dumped tree, each key follows the one before it in code-point order. */
  lemma DumpedKeysAscend(v: Json, ms: seq<Member>, i: nat)
    requires WellFormed(v) && Dumps(v).Ok?
    requires Loads(Dumps(v).value).Some? && Within(Obj(ms), Loads(Dumps(v).value).value) && i + 1 < |ms|
    ensures var x, y := ms[i].key, ms[i + 1].key;
            exists k: nat :: k <= |x| && k < |y| && x[..k] == y[..k] && (k == |x| || x[k] as int < y[k] as int)
  {
    hide Dumps, Loads;
    LoadsInvertsDumps(v);
    CanonOrdered(v, ms, i);
  }

  // ---------------------------------------------------------------- how the text is spelled

  /** No string or key anywhere in the tree holds a space. */
  ghost predicate SpaceFree(v: Json) {
    match v
    case Str(s) => ' ' !in s
    case Arr(items) => forall x | x in items :: SpaceFree(x)
    case Obj(ms) => forall m | m in ms :: ' ' !in m.key && SpaceFree(m.value)
    case _ => true
  }

  lemma {:induction false} EscapeAddsNoSpace(s: string)
    requires ' ' !in s
    ensures ' ' !in Escape(s)
  {
    if s != "" {
      assert s == [s[0]] + s[1..];
      EscapeAddsNoSpace(s[1..]);
      assert ' ' !in EscapeChar(s[0]);
    }
  }

  lemma NumeralHasNoSpace(n: Numeral)
    requires n.Valid()
    ensures ' ' !in n.Text()
  {
    assert ' ' !in n.whole by {
      if n.whole[0] == '-' { assert n.whole == "-" + n.whole[1..]; }
    }
    assert ' ' !in n.frac by {
      if n.frac != "" { assert n.frac == "." + n.frac[1..]; }
    }
    assert ' ' !in n.exp by {
      if n.exp != "" {
        var from := if IsSign(n.exp[1]) then 2 else 1;
        assert n.exp == n.exp[..from] + n.exp[from..];
      }
    }
  }

  /** Compact separators: blanks come from strings only. */
  lemma {:induction false} PrintIsCompact(v: Json)
    requires SpaceFree(v)
    ensures forall c | c in Print(v) :: c !in [' ', '\t', '\n', '\r']
  {
    PrintNoControls(v);
    PrintAddsNoSpace(v);
  }

  lemma {:induction false} PrintAddsNoSpace(v: Json)
    requires SpaceFree(v)
    ensures ' ' !in Print(v)
  {
    match v
    case Int(n) =>
      IntTextValue(n);
      NumeralHasNoSpace(Numeral(IntText(n), "", ""));
      assert Numeral(IntText(n), "", "").Text() == IntText(n);
    case Float(Finite(token)) => NumeralHasNoSpace(token);
    case Str(s) => EscapeAddsNoSpace(s);
    case Arr(items) => ItemsAddNoSpace(items);
    case Obj(ms) => MembersAddNoSpace(ms);
    case _ =>
  }

  lemma {:induction false} ItemsAddNoSpace(items: seq<Json>)
    requires forall x | x in items :: SpaceFree(x)
    ensures ' ' !in PrintItems(items)
  {
    hide Print;
    if items != [] {
      PrintAddsNoSpace(items[0]);
      ItemsAddNoSpace(items[1..]);
    }
  }

  lemma {:induction false} MembersAddNoSpace(ms: seq<Member>)
    requires forall m | m in ms :: ' ' !in m.key && SpaceFree(m.value)
    ensures ' ' !in PrintMembers(ms)
  {
    hide Escape, Print;
    if ms != [] {
      assert ms[0] in ms;
      EscapeAddsNoSpace(ms[0].key);
      PrintAddsNoSpace(ms[0].value);
      MembersAddNoSpace(ms[1..]);
    }
  }

  /** The escapes of Python's encoder with `ensure_ascii=False`. */
  lemma EscapesSpelled(c: char)
    ensures EscapeChar('\"') == "\\\"" && EscapeChar('\\') == "\\\\"
    ensures EscapeChar(0x08 as char) == "\\b" && EscapeChar(0x09 as char) == "\\t" && EscapeChar(0x0A as char) == "\\n"
    ensures EscapeChar(0x0C as char) == "\\f" && EscapeChar(0x0D as char) == "\\r"
    ensures c as int < 0x20 && c as int !in {0x08, 0x09, 0x0A, 0x0C, 0x0D} ==>
              EscapeChar(c) == "\\u00" + Hex([c as int])
    ensures !NeedsEscape(c) ==> EscapeChar(c) == [c]
  {
    var n := c as int;
    if n < 0x20 { assert n / 4096 == 0 && n / 256 % 16 == 0 && n / 16 % 16 == n / 16; }
  }

  /** The scalars, as Python writes them. */
  lemma ScalarsSpelled()
    ensures CanonText(Null) == "null" && CanonText(Bool(true)) == "true" && CanonText(Bool(false)) == "false"
    ensures CanonText(Int(0)) == "0" && CanonText(Int(-1)) == "-1"
    ensures CanonText(Float(Finite(Numeral("1", ".5", "")))) == "1.5"
    ensures CanonText(Arr([])) == "[]" && CanonText(Obj([])) == "{}"
  {
  }

  lemma TwoSorted(a: Member, b: Member)
    requires Text.Less(a.key, b.key)
    ensures Sort([b, a]) == [a, b]
  {
    assert Sort([a]) == [a];
    assert Insert(b, []) == [b];
    Text.LessIrreflexive(a.key);
    if Text.Less(b.key, a.key) { Text.LessTransitive(a.key, b.key, a.key); }
    assert Insert(b, [a]) == [a] + Insert(b, []);
  }

  /** Separators and key order, on any two members given in the wrong order. */
  lemma PairSpelled(a: Member, b: Member)
    requires Text.Less(a.key, b.key)
    ensures var (x, y) := (Member(a.key, Canon(a.value)), Member(b.key, Canon(b.value)));
            CanonText(Obj([b, a])) == "{" + (PrintMember(x) + "," + PrintMember(y)) + "}"
  {
    var x, y := Member(a.key, Canon(a.value)), Member(b.key, Canon(b.value));
    assert CanonMembers([b, a]) == [y, x];
    TwoSorted(x, y);
    assert Canon(Obj([b, a])) == Obj([x, y]);
    hide Sort, CanonMembers, Canon, PrintMember;
    assert [x, y][1..] == [y];
    assert PrintMembers([y]) == PrintMember(y);
    assert PrintMembers([x, y]) == PrintMember(x) + "," + PrintMember(y);
    assert CanonText(Obj([b, a])) == "{" + PrintMembers([x, y]) + "}";
  }

  // ---------------------------------------------------------------- no raw line breaks

  predicate NeedsEscape(c: char) {
    c == '\\' || c == '\"' || c as int < 0x20
  }

  /** Non-ASCII text is emitted as it is: only quotation marks, backslashes and control characters change a string. */
  lemma {:induction false} OnlyMarksAndControlsAreEscaped(s: string)
    ensures Escape(s) == s <==> forall c | c in s :: !NeedsEscape(c)
    ensures |Escape(s)| >= |s|
  {
    hide Hex4;
    if s != "" {
      var e := EscapeChar(s[0]);
      OnlyMarksAndControlsAreEscaped(s[1..]);
      assert s == [s[0]] + s[1..];
      if NeedsEscape(s[0]) {
        assert |Escape(s)| > |s|;
      } else {
        assert e == [s[0]];
        assert Escape(s)[1..] == Escape(s[1..]);
      }
    }
  }

  predicate NoControls(s: string) {
    forall c | c in s :: c as int >= 0x20
  }

  lemma {:induction false} EscapeNoControls(s: string)
    ensures NoControls(Escape(s))
  {
    if s != "" {
      EscapeNoControls(s[1..]);
      assert NoControls(EscapeChar(s[0]));
    }
  }

  lemma NumeralNoControls(n: Numeral)
    requires n.Valid()
    ensures NoControls(n.Text())
  {
    assert NoControls(n.whole) by {
      if n.whole[0] == '-' { assert n.whole == "-" + n.whole[1..]; }
    }
    assert NoControls(n.frac) by {
      if n.frac != "" { assert n.frac == "." + n.frac[1..]; }
    }
    assert NoControls(n.exp) by {
      if n.exp != "" {
        var from := if IsSign(n.exp[1]) then 2 else 1;
        assert n.exp == n.exp[..from] + n.exp[from..];
      }
    }
  }

  lemma {:induction false} PrintNoControls(v: Json)
    ensures NoControls(Print(v))
  {
    match v
    case Int(n) =>
      IntTextValue(n);
      NumeralNoControls(Numeral(IntText(n), "", ""));
      assert Numeral(IntText(n), "", "").Text() == IntText(n);
    case Float(Finite(token)) => NumeralNoControls(token);
    case Str(s) => EscapeNoControls(s);
    case Arr(items) => ItemsNoControls(items);
    case Obj(ms) => MembersNoControls(ms);
    case _ =>
  }

  lemma {:induction false} ItemsNoControls(items: seq<Json>)
    ensures NoControls(PrintItems(items))
  {
    hide Print;
    if items != [] {
      PrintNoControls(items[0]);
      ItemsNoControls(items[1..]);
    }
  }

  lemma {:induction false} MembersNoControls(ms: seq<Member>)
    ensures NoControls(PrintMembers(ms))
  {
    hide Escape, Print;
    if ms != [] {
      EscapeNoControls(ms[0].key);
      PrintNoControls(ms[0].value);
      MembersNoControls(ms[1..]);
    }
  }
}
