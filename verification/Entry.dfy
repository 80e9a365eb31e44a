/** The wire schema: entries, signed records, receipts and tree heads, to and from JSON. */
module Entry {
  import opened Wrappers
  import opened Errors
  import opened ByteStrings
  import opened Json
  import opened Crypto
  import Canonical
  import JsonText
  import JsonRoundTrip
  import Utf8
  import Text

  datatype Status = StatusOk | StatusError

  datatype Entry = Entry(
    seqNo: int, prevHash: string, tsRequest: PyFloat, tsResponse: PyFloat,
    serverId: string, requestId: string, methodName: string, toolName: Option<string>,
    paramsHash: string, resultHash: string, status: Status)

  datatype SignedRecord = SignedRecord(entry: Entry, signature: string)

  datatype Receipt = Receipt(seqNo: int, entryHash: string, signature: string, serverId: string)

  datatype SignedTreeHead = SignedTreeHead(chainLength: int, headHash: string, timestamp: PyFloat, signature: string)

  // ---------------------------------------------------------------- to_dict

  const ENTRY_FIELDS: seq<string> :=
    ["seq", "prev_hash", "ts_request", "ts_response", "server_id", "request_id",
     "method", "tool_name", "params_hash", "result_hash", "status"]

  function StatusText(s: Status): string {
    match s case StatusOk => "ok" case StatusError => "error"
  }

  function EntryMembers(e: Entry): seq<Member> {
    [Member("seq", Int(e.seqNo)),
     Member("prev_hash", Str(e.prevHash)),
     Member("ts_request", Float(e.tsRequest)),
     Member("ts_response", Float(e.tsResponse)),
     Member("server_id", Str(e.serverId)),
     Member("request_id", Str(e.requestId)),
     Member("method", Str(e.methodName)),
     Member("tool_name", match e.toolName case None => Null case Some(name) => Str(name)),
     Member("params_hash", Str(e.paramsHash)),
     Member("result_hash", Str(e.resultHash)),
     Member("status", Str(StatusText(e.status)))]
  }

  function EntryDict(e: Entry): Json {
    Obj(EntryMembers(e))
  }

  function RecordMembers(r: SignedRecord): seq<Member> {
    [Member("entry", EntryDict(r.entry)), Member("signature", Str(r.signature))]
  }

  function RecordDict(r: SignedRecord): Json {
    Obj(RecordMembers(r))
  }

  function TreeHeadPayload(h: SignedTreeHead): Json {
    Obj([Member("chain_length", Int(h.chainLength)),
         Member("head_hash", Str(h.headHash)),
         Member("timestamp", Float(h.timestamp))])
  }

  // ---------------------------------------------------------------- from_dict

  /** `d[key]`, None when the key is missing. */
  function Get(ms: seq<Member>, key: string): Option<Json> {
    if ms == [] then None
    else if ms[0].key == key then Some(ms[0].value)
    else Get(ms[1..], key)
  }

  function Keys(ms: seq<Member>): set<string> {
    set m | m in ms :: m.key
  }

  function SchemaKeys(fields: seq<string>): set<string> {
    set k | k in fields
  }

  function AsInt(v: Option<Json>): Result<int, Error> {
    match v case Some(Int(n)) => Ok(n) case _ => Err(Mistyped)
  }

  function AsFloat(v: Option<Json>): Result<PyFloat, Error> {
    match v case Some(Float(f)) => Ok(f) case _ => Err(Mistyped)
  }

  function AsStr(v: Option<Json>): Result<string, Error> {
    match v case Some(Str(s)) => Ok(s) case _ => Err(Mistyped)
  }

  function AsOptionalStr(v: Option<Json>): Result<Option<string>, Error> {
    match v
    case Some(Null) => Ok(None)
    case Some(Str(s)) => Ok(Some(s))
    case _ => Err(Mistyped)
  }

  function EntryFromDict(d: Json): Result<Entry, Error> {
    if !d.Obj? then Err(NotADict)
    else
      var ms := d.members;
      if Keys(ms) != SchemaKeys(ENTRY_FIELDS) then Err(BadKeys)
      else if Get(ms, "status") != Some(Str("ok")) && Get(ms, "status") != Some(Str("error")) then Err(BadKeys)
      else
        var seqNo :- AsInt(Get(ms, "seq"));
        var prevHash :- AsStr(Get(ms, "prev_hash"));
        var tsRequest :- AsFloat(Get(ms, "ts_request"));
        var tsResponse :- AsFloat(Get(ms, "ts_response"));
        var serverId :- AsStr(Get(ms, "server_id"));
        var requestId :- AsStr(Get(ms, "request_id"));
        var methodName :- AsStr(Get(ms, "method"));
        var toolName :- AsOptionalStr(Get(ms, "tool_name"));
        var paramsHash :- AsStr(Get(ms, "params_hash"));
        var resultHash :- AsStr(Get(ms, "result_hash"));
        var status := if Get(ms, "status") == Some(Str("ok")) then StatusOk else StatusError;
        Ok(Entry(seqNo, prevHash, tsRequest, tsResponse, serverId, requestId, methodName, toolName,
                 paramsHash, resultHash, status))
  }

  function RecordFromDict(d: Json): Result<SignedRecord, Error> {
    if !d.Obj? then Err(NotADict)
    else
      var ms := d.members;
      if Keys(ms) != {"entry", "signature"} then Err(BadKeys)
      else
        var entry :- match Get(ms, "entry") case None => Err(BadKeys) case Some(e) => EntryFromDict(e);
        var signature :- AsStr(Get(ms, "signature"));
        Ok(SignedRecord(entry, signature))
  }

  /** `SignedRecord.from_dict(json.loads(line))`. */
  function RecordFromLine(line: string): Result<SignedRecord, Error> {
    match JsonText.Parse(line)
    case None => Err(JsonDecode)
    case Some(d) => RecordFromDict(d)
  }

  // ---------------------------------------------------------------- bytes and hashes

  /** The records `dumps` accepts. Only these can be written; a parsed one may still hold a NaN timestamp. */
  predicate Writable(r: SignedRecord) {
    r.entry.tsRequest.Finite? && r.entry.tsResponse.Finite?
  }

  function EntryBytes(e: Entry): Result<Bytes, Error> {
    Canonical.Dumps(EntryDict(e))
  }

  /** The line a record is stored as, without its newline. */
  function Line(r: SignedRecord): string {
    Canonical.CanonText(RecordDict(r))
  }

  /** The bytes `entry_hash` hashes when the record is finite. */
  function RecordBytes(r: SignedRecord): Bytes {
    Utf8.Encode(Line(r))
  }

  function RecordHash(c: Crypto, r: SignedRecord): string {
    HashHex(c, RecordBytes(r))
  }

  /** `entry_hash()`. */
  function EntryHash(c: Crypto, r: SignedRecord): Result<string, Error> {
    var data :- Canonical.Dumps(RecordDict(r));
    Ok(HashHex(c, data))
  }

  // ---------------------------------------------------------------- schema facts

  lemma EntryFieldsDistinct()
    ensures forall i, j | 0 <= i < j < |ENTRY_FIELDS| :: ENTRY_FIELDS[i] != ENTRY_FIELDS[j]
  {
    assert ENTRY_FIELDS[1][0] == 'p' && ENTRY_FIELDS[2][3] == 'r' && ENTRY_FIELDS[3][3] == 'r';
    assert ENTRY_FIELDS[4][0] == 's' && ENTRY_FIELDS[5][0] == 'r' && ENTRY_FIELDS[7][0] == 't';
    assert ENTRY_FIELDS[8][0] == 'p' && ENTRY_FIELDS[9][0] == 'r' && ENTRY_FIELDS[3][0] == 't';
    assert ENTRY_FIELDS[6][0] == 'm' && ENTRY_FIELDS[10][0] == 's' && ENTRY_FIELDS[2][0] == 't';
  }

  lemma EntryKeyAt(e: Entry, i: nat)
    requires i < |ENTRY_FIELDS|
    ensures |EntryMembers(e)| == |ENTRY_FIELDS| && EntryMembers(e)[i].key == ENTRY_FIELDS[i]
  {
  }

  /** Members under given keys, as a schema lists them. */
  lemma KeysFromFields(ms: seq<Member>, fields: seq<string>)
    requires |ms| == |fields| && forall i | 0 <= i < |ms| :: ms[i].key == fields[i]
    ensures Keys(ms) == SchemaKeys(fields)
  {
    forall k | k in fields ensures k in Keys(ms) {
      var i :| 0 <= i < |fields| && fields[i] == k;
      assert ms[i] in ms;
    }
    forall m | m in ms ensures m.key in fields {
      var i :| 0 <= i < |ms| && ms[i] == m;
    }
  }

  lemma EntryKeys(e: Entry)
    ensures DistinctKeys(EntryMembers(e))
    ensures Keys(EntryMembers(e)) == SchemaKeys(ENTRY_FIELDS)
  {
    var ms, fields := EntryMembers(e), ENTRY_FIELDS;
    forall i: nat | i < |fields| ensures ms[i].key == fields[i] { EntryKeyAt(e, i); }
    EntryFieldsDistinct();
    KeysFromFields(ms, fields);
  }

  lemma EntryLeaf(e: Entry, i: nat)
    requires i < |EntryMembers(e)|
    ensures var v := EntryMembers(e)[i].value;
            !v.Arr? && !v.Obj? && (v.Float? ==> v == Float(e.tsRequest) || v == Float(e.tsResponse))
  {
  }

  lemma EntryWellFormed(e: Entry)
    ensures WellFormed(EntryDict(e))
    ensures HasNonFinite(EntryDict(e)) <==> !(e.tsRequest.Finite? && e.tsResponse.Finite?)
  {
    hide DistinctKeys;
    EntryKeys(e);
    var ms := EntryMembers(e);
    assert ms[2].value == Float(e.tsRequest) && ms[3].value == Float(e.tsResponse);
    hide EntryMembers;
    assert ms[2] in ms && ms[3] in ms;
    forall m | m in ms
      ensures WellFormed(m.value) && (HasNonFinite(m.value) ==> m.value == ms[2].value || m.value == ms[3].value)
    {
      var i: nat :| i < |ms| && ms[i] == m;
      EntryLeaf(e, i);
    }
  }

  lemma RecordWellFormed(r: SignedRecord)
    ensures WellFormed(RecordDict(r))
    ensures DistinctKeys(RecordMembers(r)) && Keys(RecordMembers(r)) == {"entry", "signature"}
    ensures HasNonFinite(RecordDict(r)) <==> !Writable(r)
  {
    EntryWellFormed(r.entry);
    var ms := RecordMembers(r);
    assert ms[0] in ms && ms[1] in ms;
  }

  // ---------------------------------------------------------------- lookups survive canonicalisation

  lemma {:induction false} GetFinds(ms: seq<Member>, i: nat)
    requires DistinctKeys(ms) && i < |ms|
    ensures Get(ms, ms[i].key) == Some(ms[i].value)
  {
    if i > 0 { GetFinds(ms[1..], i - 1); }
  }

  lemma {:induction false} GetFindsKeys(ms: seq<Member>, key: string)
    ensures Get(ms, key).Some? <==> exists m :: m in ms && m.key == key
  {
    if ms != [] {
      GetFindsKeys(ms[1..], key);
      assert ms == [ms[0]] + ms[1..];
    }
  }

  /** In a dict, looking a key up finds the member under it, or there is none. */
  lemma GetExact(ms: seq<Member>, key: string, v: Json)
    requires DistinctKeys(ms)
    ensures Get(ms, key) == Some(v) <==> Member(key, v) in ms
    ensures Get(ms, key) == None <==> forall m | m in ms :: m.key != key
  {
    GetFindsKeys(ms, key);
    if Member(key, v) in ms {
      var i: nat :| i < |ms| && ms[i] == Member(key, v);
      GetFinds(ms, i);
    }
    if Get(ms, key) == Some(v) {
      var i := FoundAt(ms, key);
    }
  }

  /** A key found in an object is found in any object that is the same up to key order, with the same value. */
  lemma SameLookup(ms: seq<Member>, ns: seq<Member>, key: string)
    requires Same(Obj(ms), Obj(ns)) && DistinctKeys(ns) && Get(ms, key).Some?
    ensures Get(ns, key).Some? && Same(Get(ms, key).value, Get(ns, key).value)
  {
    hide Same;
    var i := FoundAt(ms, key);
    assert exists j | 0 <= j < |ns| :: ns[j].key == ms[i].key && Same(ms[i].value, ns[j].value) by {
      SameMember(ms, ns, i);
    }
    var j :| 0 <= j < |ns| && ns[j].key == ms[i].key && Same(ms[i].value, ns[j].value);
    GetFinds(ns, j);
  }

  lemma SameMember(ms: seq<Member>, ns: seq<Member>, i: nat)
    requires Same(Obj(ms), Obj(ns)) && i < |ms|
    ensures exists j | 0 <= j < |ns| :: ns[j].key == ms[i].key && Same(ms[i].value, ns[j].value)
  {
    assert ms[i].key == ms[i].key;
  }

  lemma {:induction false} FoundAt(ms: seq<Member>, key: string) returns (i: nat)
    requires Get(ms, key).Some?
    ensures i < |ms| && ms[i].key == key && Get(ms, key) == Some(ms[i].value)
  {
    if ms[0].key == key {
      i := 0;
    } else {
      var j := FoundAt(ms[1..], key);
      i := j + 1;
    }
  }

  lemma SameSymmetric(a: Json, b: Json)
    requires WellFormed(a) && WellFormed(b) && Same(a, b)
    ensures Same(b, a)
  {
    hide Same, WellFormed, Canon;
    SameImpliesCanon(a, b);
    CanonImpliesSame(b, a);
  }

  lemma FieldSurvives(ms: seq<Member>, i: nat)
    requires DistinctKeys(ms) && i < |ms|
    ensures Get(Sort(CanonMembers(ms)), ms[i].key) == Some(Canon(ms[i].value))
  {
    var cs := CanonMembers(ms);
    SortKeeps(cs);
    SortSorts(cs);
    SortedIsDistinct(Sort(cs));
    assert cs[i] in Sort(cs);
    var j :| 0 <= j < |Sort(cs)| && Sort(cs)[j] == cs[i];
    GetFinds(Sort(cs), j);
  }

  lemma KeysSurvive(ms: seq<Member>)
    ensures Keys(Sort(CanonMembers(ms))) == Keys(ms)
  {
    var cs := CanonMembers(ms);
    SortKeeps(cs);
    forall k | k in Keys(ms) ensures k in Keys(Sort(cs)) {
      var i :| 0 <= i < |ms| && ms[i].key == k;
      assert cs[i] in Sort(cs);
    }
    forall m | m in Sort(cs) ensures m.key in Keys(ms) {
      var i :| 0 <= i < |cs| && cs[i] == m;
      assert ms[i] in ms;
    }
  }

  ghost predicate Holds(d: seq<Member>, m: Member) {
    Get(d, m.key) == Some(m.value)
  }

  lemma EntryFromFields(d: seq<Member>, e: Entry)
    requires Keys(d) == SchemaKeys(ENTRY_FIELDS)
    requires Holds(d, Member("seq", Int(e.seqNo))) && Holds(d, Member("prev_hash", Str(e.prevHash)))
    requires Holds(d, Member("ts_request", Float(e.tsRequest))) && Holds(d, Member("ts_response", Float(e.tsResponse)))
    requires Holds(d, Member("server_id", Str(e.serverId))) && Holds(d, Member("request_id", Str(e.requestId)))
    requires Holds(d, Member("method", Str(e.methodName)))
    requires Holds(d, Member("tool_name", match e.toolName case None => Null case Some(name) => Str(name)))
    requires Holds(d, Member("params_hash", Str(e.paramsHash))) && Holds(d, Member("result_hash", Str(e.resultHash)))
    requires Holds(d, Member("status", Str(StatusText(e.status))))
    ensures EntryFromDict(Obj(d)) == Ok(e)
  {
    assert "ok" != "error";
  }

  /** The members of an entry, found under their keys in any dict `d`, rebuild the entry. */
  lemma EntryFromMembers(d: seq<Member>, e: Entry)
    requires Keys(d) == SchemaKeys(ENTRY_FIELDS)
    requires forall i | 0 <= i < |EntryMembers(e)| :: Holds(d, EntryMembers(e)[i])
    ensures EntryFromDict(Obj(d)) == Ok(e)
  {
    assert Holds(d, EntryMembers(e)[0]) && Holds(d, EntryMembers(e)[1]) && Holds(d, EntryMembers(e)[2]);
    assert Holds(d, EntryMembers(e)[3]) && Holds(d, EntryMembers(e)[4]) && Holds(d, EntryMembers(e)[5]);
    assert Holds(d, EntryMembers(e)[6]) && Holds(d, EntryMembers(e)[7]) && Holds(d, EntryMembers(e)[8]);
    assert Holds(d, EntryMembers(e)[9]) && Holds(d, EntryMembers(e)[10]);
    EntryFromFields(d, e);
  }

  lemma EntryField(e: Entry, i: nat)
    requires i < |EntryMembers(e)|
    ensures Get(Sort(CanonMembers(EntryMembers(e))), EntryMembers(e)[i].key) == Some(EntryMembers(e)[i].value)
  {
    EntryKeys(e);
    FieldSurvives(EntryMembers(e), i);
    var v := EntryMembers(e)[i].value;
    assert !v.Arr? && !v.Obj?;
  }

  lemma EntryRoundTrip(e: Entry)
    ensures EntryFromDict(Canon(EntryDict(e))) == Ok(e)
  {
    EntryKeys(e);
    var ms := EntryMembers(e);
    KeysSurvive(ms);
    var d := Sort(CanonMembers(ms));
    forall i: nat | i < |ms| ensures Holds(d, ms[i]) {
      EntryField(e, i);
    }
    EntryFromMembers(d, e);
  }

  lemma RecordFromFields(d: seq<Member>, r: SignedRecord, entry: Json)
    requires Keys(d) == {"entry", "signature"}
    requires Get(d, "entry") == Some(entry) && EntryFromDict(entry) == Ok(r.entry)
    requires Get(d, "signature") == Some(Str(r.signature))
    ensures RecordFromDict(Obj(d)) == Ok(r)
  {
  }

  lemma RecordRoundTrip(r: SignedRecord)
    ensures RecordFromDict(Canon(RecordDict(r))) == Ok(r)
  {
    var ms := RecordMembers(r);
    RecordWellFormed(r);
    KeysSurvive(ms);
    FieldSurvives(ms, 0);
    FieldSurvives(ms, 1);
    EntryRoundTrip(r.entry);
    RecordFromFields(Sort(CanonMembers(ms)), r, Canon(EntryDict(r.entry)));
  }

  // ---------------------------------------------------------------- exactly which dicts are records

  lemma KeysExact(ms: seq<Member>, key: string)
    ensures key in Keys(ms) <==> Get(ms, key).Some?
  {
    GetFindsKeys(ms, key);
  }

  lemma SameKeys(ms: seq<Member>, ns: seq<Member>)
    requires DistinctKeys(ms) && DistinctKeys(ns) && Same(Obj(ms), Obj(ns)) && Same(Obj(ns), Obj(ms))
    ensures Keys(ms) == Keys(ns)
  {
    hide Same;
    forall key ensures key in Keys(ms) <==> key in Keys(ns) {
      KeysExact(ms, key);
      KeysExact(ns, key);
      if Get(ms, key).Some? { SameLookup(ms, ns, key); }
      if Get(ns, key).Some? { SameLookup(ns, ms, key); }
    }
  }

  lemma SameLeaf(v: Json, w: Json)
    requires Same(v, w) && !v.Arr? && !v.Obj?
    ensures v == w
  {
  }

  lemma SameAsEntryIsRead(d: Json, e: Entry)
    requires WellFormed(d) && Same(d, EntryDict(e))
    ensures EntryFromDict(d) == Ok(e)
  {
    hide Same, WellFormed, DistinctKeys, EntryFromDict;
    EntryWellFormed(e);
    EntryKeys(e);
    SameSymmetric(d, EntryDict(e));
    DictLike(d, EntryDict(e));
    var ms, ns := EntryMembers(e), d.members;
    SameKeys(ns, ms);
    forall i: nat | i < |ms| ensures Holds(ns, ms[i]) {
      GetFinds(ms, i);
      SameLookup(ms, ns, ms[i].key);
      EntryLeaf(e, i);
      SameLeaf(ms[i].value, Get(ns, ms[i].key).value);
    }
    EntryFromMembers(ns, e);
  }

  lemma DictLike(d: Json, like: Json)
    requires WellFormed(d) && Same(d, like) && like.Obj?
    ensures d.Obj? && DistinctKeys(d.members)
  {
  }

  lemma {:induction false} KeysCount(ms: seq<Member>)
    requires DistinctKeys(ms)
    ensures |Keys(ms)| == |ms|
  {
    if ms != [] {
      KeysCount(ms[1..]);
      assert ms == [ms[0]] + ms[1..];
      assert Keys(ms) == {ms[0].key} + Keys(ms[1..]);
    }
  }

  lemma EntryHolds(d: seq<Member>, e: Entry, i: nat)
    requires EntryFromDict(Obj(d)) == Ok(e) && i < |EntryMembers(e)|
    ensures Holds(d, EntryMembers(e)[i])
  {
    assert "ok" != "error";
  }

  lemma FoundMemberMatches(d: seq<Member>, ms: seq<Member>, i: nat)
    requires DistinctKeys(d) && Keys(d) == Keys(ms) && i < |d|
    requires forall j | 0 <= j < |ms| :: Get(d, ms[j].key).Some? && Same(Get(d, ms[j].key).value, ms[j].value)
    ensures Matched(d[i], ms)
  {
    hide Same, DistinctKeys;
    assert d[i] in d && d[i].key in Keys(ms);
    var m :| m in ms && m.key == d[i].key;
    var j: nat :| j < |ms| && ms[j] == m;
    GetFinds(d, i);
    assert ms[j].key == d[i].key && Same(d[i].value, ms[j].value);
  }

  /** Members that are all found in a dict with no other keys make the same object. */
  lemma FoundMembersAreSame(d: seq<Member>, ms: seq<Member>)
    requires WellFormed(Obj(d)) && WellFormed(Obj(ms)) && Keys(d) == Keys(ms)
    requires forall i | 0 <= i < |ms| :: Get(d, ms[i].key).Some? && Same(Get(d, ms[i].key).value, ms[i].value)
    ensures Same(Obj(d), Obj(ms))
  {
    hide Same, DistinctKeys, Keys, Matched;
    KeysCount(d);
    KeysCount(ms);
    forall i | 0 <= i < |d| ensures Matched(d[i], ms) {
      FoundMemberMatches(d, ms, i);
    }
    MatchedAreSame(d, ms);
  }

  lemma ReadEntryIsSame(d: Json, e: Entry)
    requires WellFormed(d) && EntryFromDict(d) == Ok(e)
    ensures Same(d, EntryDict(e))
  {
    hide Same, DistinctKeys, EntryFromDict;
    var ms := EntryMembers(e);
    EntryKeys(e);
    ReadKeys(d, e);
    EntryWellFormed(e);
    forall i: nat | i < |ms| ensures Holds(d.members, ms[i]) && Same(ms[i].value, ms[i].value) {
      EntryHolds(d.members, e, i);
      EntryLeaf(e, i);
      LeafIsSame(ms[i].value);
    }
    FoundMembersAreSame(d.members, ms);
  }

  lemma LeafIsSame(v: Json)
    requires !v.Arr? && !v.Obj?
    ensures Same(v, v)
  {
  }

  lemma ReadKeys(d: Json, e: Entry)
    requires EntryFromDict(d) == Ok(e)
    ensures d.Obj? && Keys(d.members) == SchemaKeys(ENTRY_FIELDS)
  {
  }

  /** A dict is read as an entry exactly when it is that entry's dict, in any key order, and nothing more. */
  lemma EntryFromDictExact(d: Json, e: Entry)
    requires WellFormed(d)
    ensures EntryFromDict(d) == Ok(e) <==> Same(d, EntryDict(e))
  {
    hide Same, WellFormed, EntryFromDict, EntryDict;
    if EntryFromDict(d) == Ok(e) { ReadEntryIsSame(d, e); }
    if Same(d, EntryDict(e)) { SameAsEntryIsRead(d, e); }
  }

  lemma SameAsRecordIsRead(d: Json, r: SignedRecord)
    requires WellFormed(d) && Same(d, RecordDict(r))
    ensures RecordFromDict(d) == Ok(r)
  {
    hide Same, WellFormed, DistinctKeys, EntryFromDict, EntryDict;
    RecordWellFormed(r);
    SameSymmetric(d, RecordDict(r));
    DictLike(d, RecordDict(r));
    var ms, ns := RecordMembers(r), d.members;
    SameKeys(ns, ms);
    GetFinds(ms, 0);
    GetFinds(ms, 1);
    SameLookup(ms, ns, "entry");
    SameLookup(ms, ns, "signature");
    var entry := Get(ns, "entry").value;
    SameLeaf(Str(r.signature), Get(ns, "signature").value);
    FoundIsWellFormed(d, "entry");
    EntryWellFormed(r.entry);
    SameSymmetric(EntryDict(r.entry), entry);
    SameAsEntryIsRead(entry, r.entry);
    RecordFromFields(ns, r, entry);
  }

  lemma FoundIsWellFormed(d: Json, key: string)
    requires WellFormed(d) && d.Obj? && Get(d.members, key).Some?
    ensures WellFormed(Get(d.members, key).value)
  {
    var i := FoundAt(d.members, key);
    assert d.members[i] in d.members;
  }

  lemma ReadRecordIsSame(d: Json, r: SignedRecord)
    requires WellFormed(d) && RecordFromDict(d) == Ok(r)
    ensures Same(d, RecordDict(r))
  {
    hide Same, DistinctKeys, EntryFromDict, EntryDict;
    var ms, ns := RecordMembers(r), d.members;
    RecordWellFormed(r);
    var entry := Get(ns, "entry").value;
    FoundIsWellFormed(d, "entry");
    ReadEntryIsSame(entry, r.entry);
    LeafIsSame(Str(r.signature));
    FoundMembersAreSame(ns, ms);
  }

  /** A dict is read as a signed record exactly when it is that record's dict, in any key order. */
  lemma RecordFromDictExact(d: Json, r: SignedRecord)
    requires WellFormed(d)
    ensures RecordFromDict(d) == Ok(r) <==> Same(d, RecordDict(r))
  {
    hide Same, WellFormed, RecordFromDict, RecordDict;
    if RecordFromDict(d) == Ok(r) { ReadRecordIsSame(d, r); }
    if Same(d, RecordDict(r)) { SameAsRecordIsRead(d, r); }
  }

  /** A line is read as a record exactly when it is JSON for that record's dict, in any key order. */
  lemma RecordFromLineExact(line: string, r: SignedRecord)
    ensures RecordFromLine(line) == Ok(r) <==>
              JsonText.Parse(line).Some? && Same(JsonText.Parse(line).value, RecordDict(r))
    ensures RecordFromLine(line) == Err(JsonDecode) <==> JsonText.Parse(line).None?
  {
    hide Same, RecordDict, JsonText.Parse, EntryFromDict;
    if JsonText.Parse(line).Some? {
      JsonRoundTrip.LoadedIsWellFormed(line);
      RecordFromDictExact(JsonText.Parse(line).value, r);
      NotDecodeError(JsonText.Parse(line).value);
    }
  }

  lemma NotDecodeError(d: Json)
    ensures RecordFromDict(d) != Err(JsonDecode)
  {
  }

  lemma BadKeysCause(d: Json)
    ensures EntryFromDict(d) == Err(BadKeys) <==>
              d.Obj? && (Keys(d.members) != SchemaKeys(ENTRY_FIELDS)
                         || (Get(d.members, "status") != Some(Str("ok"))
                             && Get(d.members, "status") != Some(Str("error"))))
    ensures EntryFromDict(d) == Err(NotADict) <==> !d.Obj?
  {
    hide Keys, SchemaKeys, Get;
  }

  /** A dict raises ValueError exactly for other keys than the eleven fields, or a status but "ok" and "error". */
  lemma BadKeysExact(d: Json)
    requires WellFormed(d)
    ensures EntryFromDict(d) == Err(BadKeys) <==>
              d.Obj? && (Keys(d.members) != {"seq", "prev_hash", "ts_request", "ts_response", "server_id", "request_id",
                                             "method", "tool_name", "params_hash", "result_hash", "status"}
                         || (Member("status", Str("ok")) !in d.members && Member("status", Str("error")) !in d.members))
    ensures EntryFromDict(d) == Err(NotADict) <==> !d.Obj?
  {
    BadKeysCause(d);
    FieldsListed();
    hide EntryFromDict, Keys, SchemaKeys, Get, DistinctKeys;
    if d.Obj? {
      GetExact(d.members, "status", Str("ok"));
      GetExact(d.members, "status", Str("error"));
    }
  }

  lemma FieldsListed()
    ensures SchemaKeys(ENTRY_FIELDS) == {"seq", "prev_hash", "ts_request", "ts_response", "server_id", "request_id",
                                         "method", "tool_name", "params_hash", "result_hash", "status"}
  {
    hide SchemaKeys;
    KeysOf("seq", "prev_hash", "ts_request", "ts_response", "server_id", "request_id", "method", "tool_name",
           "params_hash", "result_hash", "status");
  }

  lemma KeysOf(a: string, b: string, c: string, d: string, e: string, f: string, g: string, h: string, i: string,
               j: string, k: string)
    ensures SchemaKeys([a, b, c, d, e, f, g, h, i, j, k]) == {a, b, c, d, e, f, g, h, i, j, k}
  {
    var fields := [a, b, c, d, e, f, g, h, i, j, k];
    assert fields[0] == a && fields[1] == b && fields[2] == c && fields[3] == d && fields[4] == e && fields[5] == f;
    assert fields[6] == g && fields[7] == h && fields[8] == i && fields[9] == j && fields[10] == k;
  }

  // ---------------------------------------------------------------- what is on the wire

  /** A dumped dict of leaves holds, when loaded, just the members it was made of. */
  lemma LoadedMembers(ms: seq<Member>, m: Member)
    requires DistinctKeys(ms) && forall x | x in ms :: WellFormed(x.value)
    requires Canonical.Dumps(Obj(ms)).Ok?
    requires forall x | x in ms :: Canon(x.value) == x.value
    ensures var d := Canonical.Loads(Canonical.Dumps(Obj(ms)).value);
            d.Some? && d.value.Obj? && |d.value.members| == |ms| && (m in d.value.members <==> m in ms)
  {
    hide Canonical.Dumps, Canonical.Loads;
    Canonical.LoadsInvertsDumps(Obj(ms));
    SortKeeps(CanonMembers(ms));
    forall i | 0 <= i < |ms| ensures CanonMembers(ms)[i] == ms[i] {
      assert ms[i] in ms;
    }
    assert CanonMembers(ms) == ms;
  }

  /** The signed bytes of an entry load to a dict with each field under its own name, and nothing more. */
  lemma EntryOnTheWire(e: Entry)
    requires EntryBytes(e).Ok?
    ensures var d := Canonical.Loads(EntryBytes(e).value);
            && d.Some? && d.value.Obj? && |d.value.members| == 11
            && Member("seq", Int(e.seqNo)) in d.value.members
            && Member("prev_hash", Str(e.prevHash)) in d.value.members
            && Member("ts_request", Float(e.tsRequest)) in d.value.members
            && Member("ts_response", Float(e.tsResponse)) in d.value.members
            && Member("server_id", Str(e.serverId)) in d.value.members
            && Member("request_id", Str(e.requestId)) in d.value.members
            && Member("method", Str(e.methodName)) in d.value.members
            && Member("tool_name", if e.toolName.None? then Null else Str(e.toolName.value)) in d.value.members
            && Member("params_hash", Str(e.paramsHash)) in d.value.members
            && Member("result_hash", Str(e.resultHash)) in d.value.members
            && Member("status", Str(if e.status.StatusOk? then "ok" else "error")) in d.value.members
  {
    EntryLoads(e);
    var ms := EntryMembers(e);
    var loaded := Canonical.Loads(EntryBytes(e).value).value.members;
    hide Canonical.Loads, EntryBytes;
    assert ms[0] in loaded && ms[1] in loaded && ms[2] in loaded && ms[3] in loaded;
    assert ms[4] in loaded && ms[5] in loaded;
    assert ms[6] in loaded && ms[7] in loaded && ms[8] in loaded && ms[9] in loaded && ms[10] in loaded;
  }

  lemma EntryLoads(e: Entry)
    requires EntryBytes(e).Ok?
    ensures var d := Canonical.Loads(EntryBytes(e).value);
            d.Some? && d.value.Obj? && |d.value.members| == |EntryMembers(e)|
            && forall i: nat | i < |EntryMembers(e)| :: EntryMembers(e)[i] in d.value.members
  {
    hide Canonical.Loads, DistinctKeys, Canonical.Dumps, EntryMembers, WellFormed, Canon;
    var ms := EntryMembers(e);
    EntryKeys(e);
    EntryLeaves(e);
    LoadedMembers(ms, Member("", Null));
    forall i: nat | i < |ms| ensures ms[i] in Canonical.Loads(EntryBytes(e).value).value.members {
      LoadedMembers(ms, ms[i]);
    }
  }

  lemma EntryLeaves(e: Entry)
    ensures forall x | x in EntryMembers(e) :: WellFormed(x.value) && Canon(x.value) == x.value
  {
    forall x | x in EntryMembers(e) ensures WellFormed(x.value) && Canon(x.value) == x.value {
      hide EntryMembers;
      var i: nat :| i < |EntryMembers(e)| && EntryMembers(e)[i] == x;
      EntryLeaf(e, i);
    }
  }

  /** A stored line holds the entry and the signature under their own names, and nothing more. */
  lemma RecordOnTheWire(r: SignedRecord)
    requires Writable(r)
    ensures var d := Canonical.Loads(RecordBytes(r));
            && d.Some? && d.value.Obj? && |d.value.members| == 2
            && Member("signature", Str(r.signature)) in d.value.members
            && exists entry :: Member("entry", entry) in d.value.members && Same(entry, EntryDict(r.entry))
  {
    hide Canonical.Loads, EntryDict, DistinctKeys, Same, WellFormed;
    RecordWellFormed(r);
    LineRoundTrip(r);
    Canonical.LoadsInvertsDumps(RecordDict(r));
    var ms := RecordMembers(r);
    var cs := CanonMembers(ms);
    SortKeeps(cs);
    assert cs[0] in Sort(cs) && cs[1] in Sort(cs);
    EntryWellFormed(r.entry);
    CanonIsSame(EntryDict(r.entry));
  }

  lemma CanonIsSame(v: Json)
    requires WellFormed(v)
    ensures Same(Canon(v), v)
  {
    hide WellFormed, Same, Canon;
    CanonTwice(v);
    CanonImpliesSame(Canon(v), v);
  }

  // ---------------------------------------------------------------- lines

  /** Every record that can be written reads back as itself from its own line. */
  lemma LineRoundTrip(r: SignedRecord)
    requires Writable(r)
    ensures Canonical.Dumps(RecordDict(r)) == Ok(RecordBytes(r))
    ensures RecordFromLine(Line(r)) == Ok(r)
  {
    RecordWellFormed(r);
    CanonKeepsWellFormed(RecordDict(r));
    CanonKeepsFinite(RecordDict(r));
    JsonRoundTrip.ParseInvertsPrint(Canon(RecordDict(r)));
    RecordRoundTrip(r);
  }

  /** `entry_hash` raises exactly on a non-finite timestamp, and otherwise hashes the stored line. */
  lemma EntryHashExact(c: Crypto, r: SignedRecord)
    ensures EntryHash(c, r) == if Writable(r) then Ok(RecordHash(c, r)) else Err(Canonicalization)
  {
    RecordWellFormed(r);
  }

  lemma RecordBytesInjective(r: SignedRecord, t: SignedRecord)
    requires Writable(r) && Writable(t) && RecordBytes(r) == RecordBytes(t)
    ensures r == t
  {
    Utf8.EncodeInjective(Line(r), Line(t));
    LineRoundTrip(r);
    LineRoundTrip(t);
  }

  /** Equal entry hashes name equal records, or two hashed byte strings collide. */
  lemma RecordHashBinds(c: Crypto, r: SignedRecord, t: SignedRecord)
    requires Writable(r) && Writable(t) && RecordHash(c, r) == RecordHash(c, t)
    ensures r == t || Genuine(c, Collision(RecordBytes(r), RecordBytes(t)))
  {
    EqualHashes(c, RecordBytes(r), RecordBytes(t));
    if RecordBytes(r) == RecordBytes(t) { RecordBytesInjective(r, t); }
  }

  /** A stored line holds no line break, and stripping it and its newline gives it back. */
  lemma LineShape(r: SignedRecord)
    ensures '\n' !in Line(r) && '\r' !in Line(r)
    ensures Text.Strip(Line(r) + "\n") == Line(r) && Line(r) != ""
  {
    Canonical.PrintNoControls(Canon(RecordDict(r)));
    var s := Line(r);
    assert s[0] == '{' && s[|s| - 1] == '}';
    Text.StripNewline(s);
  }

  // ---------------------------------------------------------------- what a signature covers

  /** The signed bytes of an entry determine every field of it. */
  lemma EntryBytesDetermineEntry(e: Entry, f: Entry)
    requires EntryBytes(e).Ok? && EntryBytes(e) == EntryBytes(f)
    ensures e == f
  {
    hide EntryDict;
    EntryWellFormed(e);
    EntryWellFormed(f);
    Canonical.LoadsInvertsDumps(EntryDict(e));
    Canonical.LoadsInvertsDumps(EntryDict(f));
    EntryRoundTrip(e);
    EntryRoundTrip(f);
  }

  function PayloadMembers(h: SignedTreeHead): seq<Member> {
    TreeHeadPayload(h).members
  }

  lemma PayloadWellFormed(h: SignedTreeHead)
    ensures DistinctKeys(PayloadMembers(h)) && WellFormed(TreeHeadPayload(h)) && |PayloadMembers(h)| == 3
  {
    var ms := PayloadMembers(h);
    assert ms[1].key[0] == 'h' && ms[2].key[0] == 't';
    assert forall m | m in ms :: m == ms[0] || m == ms[1] || m == ms[2];
  }

  lemma PayloadField(a: SignedTreeHead, b: SignedTreeHead, i: nat)
    requires i < 3 && Canon(TreeHeadPayload(a)) == Canon(TreeHeadPayload(b))
    ensures PayloadMembers(a)[i].value == PayloadMembers(b)[i].value
  {
    PayloadWellFormed(a);
    PayloadWellFormed(b);
    FieldSurvives(PayloadMembers(a), i);
    FieldSurvives(PayloadMembers(b), i);
  }

  /** The signed bytes of a tree head load to a dict with the three signed fields under their own names. */
  lemma TreeHeadOnTheWire(h: SignedTreeHead)
    requires Canonical.Dumps(TreeHeadPayload(h)).Ok?
    ensures var d := Canonical.Loads(Canonical.Dumps(TreeHeadPayload(h)).value);
            && d.Some? && d.value.Obj? && |d.value.members| == 3
            && Member("chain_length", Int(h.chainLength)) in d.value.members
            && Member("head_hash", Str(h.headHash)) in d.value.members
            && Member("timestamp", Float(h.timestamp)) in d.value.members
  {
    hide Canonical.Loads, Canonical.Dumps, DistinctKeys;
    var ms := PayloadMembers(h);
    PayloadWellFormed(h);
    assert forall x | x in ms :: x == ms[0] || x == ms[1] || x == ms[2];
    LoadedMembers(ms, ms[0]);
    LoadedMembers(ms, ms[1]);
    LoadedMembers(ms, ms[2]);
  }

  /** The signed bytes of a tree head determine its length, head and timestamp. */
  lemma PayloadBytesDetermineTreeHead(a: SignedTreeHead, b: SignedTreeHead)
    requires Canonical.Dumps(TreeHeadPayload(a)).Ok?
    requires Canonical.Dumps(TreeHeadPayload(a)) == Canonical.Dumps(TreeHeadPayload(b))
    ensures a.(signature := b.signature) == b
  {
    hide Canon;
    PayloadWellFormed(a);
    PayloadWellFormed(b);
    Canonical.LoadsInvertsDumps(TreeHeadPayload(a));
    Canonical.LoadsInvertsDumps(TreeHeadPayload(b));
    PayloadField(a, b, 0);
    PayloadField(a, b, 1);
    PayloadField(a, b, 2);
  }
}
