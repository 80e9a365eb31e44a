/** The values the log hashes: trees of the Python types `json` reads and writes. */
module Json {
  import Text

  // ---------------------------------------------------------------- number tokens (RFC 8259 section 6)

  predicate IsDigit(c: char) { '0' <= c <= '9' }

  predicate IsDigits(s: string) {
    s != "" && forall c | c in s :: IsDigit(c)
  }

  predicate IsNatural(s: string) {
    IsDigits(s) && (s == "0" || s[0] != '0')
  }

  predicate IsInteger(s: string) {
    IsNatural(s) || (s != "" && s[0] == '-' && IsNatural(s[1..]))
  }

  predicate IsFraction(s: string) {
    s != "" && s[0] == '.' && IsDigits(s[1..])
  }

  predicate IsSign(c: char) { c == '+' || c == '-' }

  predicate IsExponent(s: string) {
    |s| >= 2 && (s[0] == 'e' || s[0] == 'E') && IsDigits(s[if IsSign(s[1]) then 2 else 1..])
  }

  /** A numeral cut into its integer part and its optional fraction and exponent. */
  datatype Numeral = Numeral(whole: string, frac: string, exp: string) {
    predicate Valid() {
      IsInteger(whole) && (frac == "" || IsFraction(frac)) && (exp == "" || IsExponent(exp))
    }

    /** What makes Python read a numeral as a float. */
    predicate IsFloat() { frac != "" || exp != "" }

    function Text(): string { whole + frac + exp }
  }

  /** A finite float, named by its shortest token. */
  type FloatToken = n: Numeral | n.Valid() && n.IsFloat() witness Numeral("0", ".0", "")

  datatype PyFloat = Finite(token: FloatToken) | NaN | Infinity | NegInfinity

  // ---------------------------------------------------------------- trees

  datatype Member = Member(key: string, value: Json)

  /** An object lists its members in insertion order. */
  datatype Json =
    | Null
    | Bool(b: bool)
    | Int(n: int)
    | Float(f: PyFloat)
    | Str(s: string)
    | Arr(items: seq<Json>)
    | Obj(members: seq<Member>)

  predicate DistinctKeys(ms: seq<Member>) {
    forall i, j | 0 <= i < j < |ms| :: ms[i].key != ms[j].key
  }

  /** What a Python dict guarantees by itself: no object holds a key twice. */
  predicate WellFormed(v: Json) {
    match v
    case Arr(items) => forall x | x in items :: WellFormed(x)
    case Obj(ms) => DistinctKeys(ms) && forall m | m in ms :: WellFormed(m.value)
    case _ => true
  }

  /** Where `_reject_non_finite` raises. */
  predicate HasNonFinite(v: Json) {
    match v
    case Float(f) => !f.Finite?
    case Arr(items) => exists x | x in items :: HasNonFinite(x)
    case Obj(ms) => exists m | m in ms :: HasNonFinite(m.value)
    case _ => false
  }

  /** Equal up to the order of object keys, at every depth. */
  predicate Same(a: Json, b: Json) {
    match (a, b)
    case (Arr(xs), Arr(ys)) =>
      |xs| == |ys| && forall i | 0 <= i < |xs| :: Same(xs[i], ys[i])
    case (Obj(ms), Obj(ns)) =>
      |ms| == |ns| &&
      forall i | 0 <= i < |ms| :: exists j | 0 <= j < |ns| :: ns[j].key == ms[i].key && Same(ms[i].value, ns[j].value)
    case _ => a == b
  }

  // ---------------------------------------------------------------- sorting

  function Insert(m: Member, ms: seq<Member>): seq<Member> {
    if ms == [] || Text.Less(m.key, ms[0].key) then [m] + ms else [ms[0]] + Insert(m, ms[1..])
  }

  function Sort(ms: seq<Member>): seq<Member> {
    if ms == [] then [] else Insert(ms[0], Sort(ms[1..]))
  }

  ghost predicate Sorted(ms: seq<Member>) {
    forall i, j | 0 <= i < j < |ms| :: Text.Less(ms[i].key, ms[j].key)
  }

  lemma {:induction false} InsertKeeps(m: Member, ms: seq<Member>)
    ensures |Insert(m, ms)| == |ms| + 1
    ensures forall x :: x in Insert(m, ms) <==> x == m || x in ms
  {
    if ms != [] {
      InsertKeeps(m, ms[1..]);
      assert ms == [ms[0]] + ms[1..];
    }
  }

  lemma {:induction false} InsertSorts(m: Member, ms: seq<Member>)
    requires Sorted(ms)
    requires forall x | x in ms :: x.key != m.key
    ensures Sorted(Insert(m, ms))
  {
    if ms != [] {
      if Text.Less(m.key, ms[0].key) {
        forall j | 0 < j < |ms| ensures Text.Less(m.key, ms[j].key) {
          Text.LessTransitive(m.key, ms[0].key, ms[j].key);
        }
      } else {
        assert ms[0] in ms;
        Text.LessTotal(m.key, ms[0].key);
        InsertSorts(m, ms[1..]);
        InsertKeeps(m, ms[1..]);
        var r := Insert(m, ms[1..]);
        forall j | 0 <= j < |r| ensures Text.Less(ms[0].key, r[j].key) {
          assert r[j] in r;
        }
      }
    }
  }

  lemma {:induction false} SortKeeps(ms: seq<Member>)
    ensures |Sort(ms)| == |ms|
    ensures forall x :: x in Sort(ms) <==> x in ms
  {
    if ms != [] {
      SortKeeps(ms[1..]);
      InsertKeeps(ms[0], Sort(ms[1..]));
      assert ms == [ms[0]] + ms[1..];
    }
  }

  lemma {:induction false} SortSorts(ms: seq<Member>)
    requires DistinctKeys(ms)
    ensures Sorted(Sort(ms))
  {
    if ms != [] {
      SortSorts(ms[1..]);
      SortKeeps(ms[1..]);
      InsertSorts(ms[0], Sort(ms[1..]));
    }
  }

  lemma SortedIsDistinct(ms: seq<Member>)
    requires Sorted(ms)
    ensures DistinctKeys(ms)
  {
    forall i, j | 0 <= i < j < |ms| ensures ms[i].key != ms[j].key {
      Text.LessIrreflexive(ms[i].key);
    }
  }

  /** Code-point order leaves one sorted arrangement of a set of members. */
  lemma {:induction false} SortedUnique(x: seq<Member>, y: seq<Member>)
    requires Sorted(x) && Sorted(y) && |x| == |y|
    requires forall m :: m in x <==> m in y
    ensures x == y
  {
    if x != [] {
      assert x[0] in y;
      SortedHead(x, y[0]);
      SortedHead(y, x[0]);
      if x[0] != y[0] {
        Text.LessTransitive(x[0].key, y[0].key, x[0].key);
        Text.LessIrreflexive(x[0].key);
      }
      assert x == [x[0]] + x[1..] && y == [y[0]] + y[1..];
      TailMembers(x);
      TailMembers(y);
      SortedUnique(x[1..], y[1..]);
    }
  }

  lemma TailMembers(x: seq<Member>)
    requires Sorted(x) && x != []
    ensures forall m :: m in x[1..] <==> m in x && m != x[0]
  {
    SortedIsDistinct(x);
    assert x == [x[0]] + x[1..];
    forall m | m in x[1..] ensures m != x[0] {
      var i :| 1 <= i < |x| && x[i] == m;
    }
  }

  lemma SortedHead(x: seq<Member>, m: Member)
    requires Sorted(x) && m in x
    ensures m == x[0] || Text.Less(x[0].key, m.key)
  {
  }

  // ---------------------------------------------------------------- keys sorted at every depth

  function Canon(v: Json): Json {
    match v
    case Arr(items) => Arr(CanonItems(items))
    case Obj(ms) => Obj(Sort(CanonMembers(ms)))
    case _ => v
  }

  function CanonItems(items: seq<Json>): (r: seq<Json>)
    ensures |r| == |items| && forall i | 0 <= i < |items| :: r[i] == Canon(items[i])
  {
    if items == [] then [] else [Canon(items[0])] + CanonItems(items[1..])
  }

  function CanonMembers(ms: seq<Member>): (r: seq<Member>)
    ensures |r| == |ms| && forall i | 0 <= i < |ms| :: r[i] == Member(ms[i].key, Canon(ms[i].value))
  {
    if ms == [] then [] else [Member(ms[0].key, Canon(ms[0].value))] + CanonMembers(ms[1..])
  }

  lemma {:induction false} CanonKeepsWellFormed(v: Json)
    requires WellFormed(v)
    ensures WellFormed(Canon(v))
  {
    match v
    case Arr(items) =>
      forall x | x in CanonItems(items) ensures WellFormed(x) {
        var i :| 0 <= i < |items| && CanonItems(items)[i] == x;
        CanonKeepsWellFormed(items[i]);
      }
    case Obj(ms) =>
      SortKeeps(CanonMembers(ms));
      SortSorts(CanonMembers(ms));
      SortedIsDistinct(Sort(CanonMembers(ms)));
      forall m | m in Sort(CanonMembers(ms)) ensures WellFormed(m.value) {
        var i :| 0 <= i < |ms| && CanonMembers(ms)[i] == m;
        CanonKeepsWellFormed(ms[i].value);
      }
    case _ =>
  }

  lemma FiniteItems(xs: seq<Json>, ys: seq<Json>)
    requires |xs| == |ys| && forall i | 0 <= i < |xs| :: HasNonFinite(xs[i]) <==> HasNonFinite(ys[i])
    ensures (exists x | x in xs :: HasNonFinite(x)) ==> (exists y | y in ys :: HasNonFinite(y))
  {
    hide HasNonFinite;
    if x :| x in xs && HasNonFinite(x) {
      var i :| 0 <= i < |xs| && xs[i] == x;
      assert ys[i] in ys;
    }
  }

  lemma FiniteMembers(xs: seq<Member>, ys: seq<Member>)
    requires |xs| == |ys| && forall i | 0 <= i < |xs| :: HasNonFinite(xs[i].value) <==> HasNonFinite(ys[i].value)
    ensures (exists x | x in xs :: HasNonFinite(x.value)) ==> (exists y | y in ys :: HasNonFinite(y.value))
  {
    hide HasNonFinite;
    if x :| x in xs && HasNonFinite(x.value) {
      var i :| 0 <= i < |xs| && xs[i] == x;
      assert ys[i] in ys;
    }
  }

  lemma {:induction false} CanonKeepsFinite(v: Json)
    ensures HasNonFinite(Canon(v)) <==> HasNonFinite(v)
  {
    hide Sort;
    match v
    case Arr(items) =>
      var cs := CanonItems(items);
      forall i | 0 <= i < |items| ensures HasNonFinite(cs[i]) <==> HasNonFinite(items[i]) {
        CanonKeepsFinite(items[i]);
      }
      FiniteItems(items, cs);
      FiniteItems(cs, items);
    case Obj(ms) =>
      var cs := CanonMembers(ms);
      SortKeeps(cs);
      forall i | 0 <= i < |ms| ensures HasNonFinite(cs[i].value) <==> HasNonFinite(ms[i].value) {
        CanonKeepsFinite(ms[i].value);
      }
      FiniteMembers(ms, cs);
      FiniteMembers(cs, ms);
    case _ =>
  }

  // ---------------------------------------------------------------- the canonical form decides Same

  ghost predicate Matched(m: Member, ns: seq<Member>) {
    exists j | 0 <= j < |ns| :: ns[j].key == m.key && Same(m.value, ns[j].value)
  }

  lemma {:induction false} SortedMembersMatch(ms: seq<Member>, ns: seq<Member>)
    requires Sort(CanonMembers(ms)) == Sort(CanonMembers(ns))
    ensures |ms| == |ns| && forall i | 0 <= i < |ms| :: Matched(ms[i], ns)
    decreases ms, 0
  {
    var cs, ds := CanonMembers(ms), CanonMembers(ns);
    SortKeeps(cs);
    SortKeeps(ds);
    hide Sort, CanonMembers, Canon;
    forall i | 0 <= i < |ms| ensures Matched(ms[i], ns) {
      assert cs[i] in ds;
      var j :| 0 <= j < |ds| && ds[j] == cs[i];
      CanonImpliesSame(ms[i].value, ns[j].value);
    }
  }

  lemma {:induction false} CanonImpliesSame(a: Json, b: Json)
    requires Canon(a) == Canon(b)
    ensures Same(a, b)
    decreases a, 1
  {
    hide Sort;
    match (a, b)
    case (Arr(xs), Arr(ys)) =>
      forall i | 0 <= i < |xs| ensures |xs| == |ys| && Same(xs[i], ys[i]) {
        assert CanonItems(xs)[i] == CanonItems(ys)[i];
        CanonImpliesSame(xs[i], ys[i]);
      }
    case (Obj(ms), Obj(ns)) =>
      SortedMembersMatch(ms, ns);
      forall i | 0 <= i < |ms|
        ensures exists j | 0 <= j < |ns| :: ns[j].key == ms[i].key && Same(ms[i].value, ns[j].value)
      {
        assert Matched(ms[i], ns);
      }
    case _ =>
  }

  ghost function Elements(ms: seq<Member>): set<Member> {
    set m | m in ms
  }

  lemma {:induction false} ElementsCount(ms: seq<Member>)
    requires DistinctKeys(ms)
    ensures |Elements(ms)| == |ms|
  {
    if ms != [] {
      ElementsCount(ms[1..]);
      assert Elements(ms) == {ms[0]} + Elements(ms[1..]) by { assert ms == [ms[0]] + ms[1..]; }
    }
  }

  lemma SubsetOfSameSize<T>(a: set<T>, b: set<T>)
    requires a <= b && |a| == |b|
    ensures a == b
  {
    assert b == a + (b - a);
    assert |b| == |a| + |b - a|;
  }

  lemma SortDetermined(cs: seq<Member>, ds: seq<Member>)
    requires DistinctKeys(cs) && DistinctKeys(ds) && |cs| == |ds|
    requires forall m | m in cs :: m in ds
    ensures Sort(cs) == Sort(ds)
  {
    ElementsCount(cs);
    ElementsCount(ds);
    SubsetOfSameSize(Elements(cs), Elements(ds));
    SortKeeps(cs);
    SortKeeps(ds);
    SortSorts(cs);
    SortSorts(ds);
    forall m ensures m in Sort(cs) <==> m in Sort(ds) {
      assert m in cs <==> m in Elements(cs);
      assert m in ds <==> m in Elements(ds);
    }
    SortedUnique(Sort(cs), Sort(ds));
  }

  lemma CanonDistinct(ms: seq<Member>)
    requires DistinctKeys(ms)
    ensures DistinctKeys(CanonMembers(ms))
  {
  }

  /** Every member of one object has its counterpart in the other. */
  lemma {:induction false} MembersMatch(ms: seq<Member>, ns: seq<Member>)
    requires forall m | m in ms :: WellFormed(m.value)
    requires forall n | n in ns :: WellFormed(n.value)
    requires forall i | 0 <= i < |ms| :: Matched(ms[i], ns)
    ensures forall m | m in CanonMembers(ms) :: m in CanonMembers(ns)
    decreases ms, 0
  {
    var cs, ds := CanonMembers(ms), CanonMembers(ns);
    hide CanonMembers, Canon;
    forall m | m in cs ensures m in ds {
      var i :| 0 <= i < |ms| && cs[i] == m;
      var j :| 0 <= j < |ns| && ns[j].key == ms[i].key && Same(ms[i].value, ns[j].value);
      assert ms[i] in ms && ns[j] in ns;
      SameImpliesCanon(ms[i].value, ns[j].value);
      assert ds[j] == m;
    }
  }

  lemma {:induction false} SameImpliesCanon(a: Json, b: Json)
    requires WellFormed(a) && WellFormed(b) && Same(a, b)
    ensures Canon(a) == Canon(b)
    decreases a, 1
  {
    hide Sort, DistinctKeys;
    match (a, b)
    case (Arr(xs), Arr(ys)) =>
      forall i | 0 <= i < |xs| ensures CanonItems(xs)[i] == CanonItems(ys)[i] {
        assert xs[i] in xs && ys[i] in ys;
        SameImpliesCanon(xs[i], ys[i]);
      }
      assert CanonItems(xs) == CanonItems(ys);
    case (Obj(ms), Obj(ns)) =>
      forall i | 0 <= i < |ms| ensures Matched(ms[i], ns) {
        var j :| 0 <= j < |ns| && ns[j].key == ms[i].key && Same(ms[i].value, ns[j].value);
        assert ns[j].key == ms[i].key;
      }
      MembersMatch(ms, ns);
      CanonDistinct(ms);
      CanonDistinct(ns);
      SortDetermined(CanonMembers(ms), CanonMembers(ns));
    case _ =>
  }

  /** Two dicts of one size are the same once every member of the first has its counterpart in the second. */
  lemma MatchedAreSame(ms: seq<Member>, ns: seq<Member>)
    requires WellFormed(Obj(ms)) && WellFormed(Obj(ns)) && |ms| == |ns|
    requires forall i | 0 <= i < |ms| :: Matched(ms[i], ns)
    ensures Same(Obj(ms), Obj(ns))
  {
    hide Sort, DistinctKeys, Matched, Same;
    MembersMatch(ms, ns);
    CanonDistinct(ms);
    CanonDistinct(ns);
    SortDetermined(CanonMembers(ms), CanonMembers(ns));
    CanonImpliesSame(Obj(ms), Obj(ns));
  }

  /** Sorting keys a second time changes nothing. */
  lemma {:induction false} CanonTwice(v: Json)
    requires WellFormed(v)
    ensures Canon(Canon(v)) == Canon(v)
  {
    hide Sort, DistinctKeys;
    match v
    case Arr(items) =>
      forall i | 0 <= i < |items| ensures Canon(CanonItems(items)[i]) == CanonItems(items)[i] {
        CanonTwice(items[i]);
      }
      assert CanonItems(CanonItems(items)) == CanonItems(items);
    case Obj(ms) =>
      var cs := CanonMembers(ms);
      var ss := Sort(cs);
      SortKeeps(cs);
      forall i | 0 <= i < |ss| ensures CanonMembers(ss)[i] == ss[i] {
        assert ss[i] in cs;
        var j :| 0 <= j < |ms| && cs[j] == ss[i];
        assert ms[j] in ms;
        CanonTwice(ms[j].value);
      }
      assert CanonMembers(ss) == ss;
      CanonDistinct(ms);
      SortTwice(cs);
    case _ =>
  }

  lemma SortTwice(cs: seq<Member>)
    requires DistinctKeys(cs)
    ensures Sort(Sort(cs)) == Sort(cs)
  {
    var ss := Sort(cs);
    SortSorts(cs);
    SortedIsDistinct(ss);
    SortSorts(ss);
    SortKeeps(ss);
    SortedUnique(Sort(ss), ss);
  }

  // ---------------------------------------------------------------- what lies inside a tree

  /** `x` is `v` or lies somewhere inside it. */
  ghost predicate Within(x: Json, v: Json) {
    x == v
    || match v
       case Arr(items) => exists y | y in items :: Within(x, y)
       case Obj(ms) => exists m | m in ms :: Within(x, m.value)
       case _ => false
  }

  /** A tree is refused exactly when a NaN or an infinity lies inside it, however deep. */
  lemma {:induction false} NonFiniteExact(v: Json)
    ensures HasNonFinite(v) <==> exists f: PyFloat :: !f.Finite? && Within(Float(f), v)
  {
    match v
    case Float(f) => assert Within(Float(f), v);
    case Arr(items) =>
      forall x | x in items ensures HasNonFinite(x) <==> exists f: PyFloat :: !f.Finite? && Within(Float(f), x) {
        NonFiniteExact(x);
      }
    case Obj(ms) =>
      forall m | m in ms
        ensures HasNonFinite(m.value) <==> exists f: PyFloat :: !f.Finite? && Within(Float(f), m.value)
      {
        NonFiniteExact(m.value);
      }
    case _ =>
  }

  lemma {:induction false} CanonSorts(v: Json, ms: seq<Member>)
    requires WellFormed(v) && Within(Obj(ms), Canon(v))
    ensures Sorted(ms)
  {
    match v
    case Arr(items) =>
      var y :| y in CanonItems(items) && Within(Obj(ms), y);
      var i :| 0 <= i < |items| && CanonItems(items)[i] == y;
      CanonSorts(items[i], ms);
    case Obj(ns) =>
      var cs := CanonMembers(ns);
      SortSorts(cs);
      SortKeeps(cs);
      if Obj(ms) != Canon(v) {
        var m :| m in Sort(cs) && Within(Obj(ms), m.value);
        var i :| 0 <= i < |ns| && cs[i] == m;
        CanonSorts(ns[i].value, ms);
      }
    case _ =>
  }

  /** In every object of a key-sorted tree, each key follows the one before it in code-point order. */
  lemma CanonOrdered(v: Json, ms: seq<Member>, i: nat)
    requires WellFormed(v) && Within(Obj(ms), Canon(v)) && i + 1 < |ms|
    ensures var x, y := ms[i].key, ms[i + 1].key;
            exists k: nat :: k <= |x| && k < |y| && x[..k] == y[..k] && (k == |x| || x[k] as int < y[k] as int)
  {
    CanonSorts(v, ms);
    Text.LessSpelled(ms[i].key, ms[i + 1].key);
  }
}
