/** One append, as a function of the call and of the last record found on disk. */
module Append {
  import opened Wrappers
  import opened Errors
  import opened ByteStrings
  import opened Json
  import opened Crypto
  import opened Entry
  import opened Chain
  import Canonical

  /** The arguments of `append`. */
  datatype Call = Call(
    methodName: string, requestId: string, params: Json, result: Json, status: Status,
    tsRequest: PyFloat, tsResponse: PyFloat)

  datatype Hashes = Hashes(params: string, result: string)

  function ExtractToolName(c: Crypto, methodName: string, params: Json): Option<string> {
    if methodName != "tools/call" || !params.Obj? then None
    else match Get(params.members, "name")
      case None => None
      case Some(Null) => None
      case Some(name) => Some(ToStr(c, name))
  }

  /** The work done before any lock is taken. */
  function HashPayloads(c: Crypto, call: Call): Result<Hashes, Error> {
    var params :- Canonical.Dumps(call.params);
    var result :- Canonical.Dumps(call.result);
    Ok(Hashes(HashHex(c, params), HashHex(c, result)))
  }

  /** The `prev_hash` an append derives from the last record; hashing a non-finite one raises. */
  function HashOfLast(c: Crypto, last: Option<SignedRecord>): Result<string, Error> {
    match last
    case None => Ok(ZERO_HASH_HEX)
    case Some(r) => EntryHash(c, r)
  }

  function SignEntry(c: Crypto, key: Bytes, entry: Entry): Result<SignedRecord, Error> {
    var message :- EntryBytes(entry);
    var signature :- Sign(c, key, message);
    Ok(SignedRecord(entry, Hex(signature)))
  }

  function MakeEntry(c: Crypto, serverId: string, call: Call, hashes: Hashes, seqNo: int, prevHash: string): Entry {
    Entry(seqNo, prevHash, call.tsRequest, call.tsResponse, serverId, call.requestId, call.methodName,
          ExtractToolName(c, call.methodName, call.params), hashes.params, hashes.result, call.status)
  }

  /** The record an append writes after scanning `last`. */
  function NextRecord(c: Crypto, serverId: string, key: Bytes, call: Call, hashes: Hashes, last: Option<SignedRecord>)
    : Result<SignedRecord, Error>
  {
    var prevHash :- HashOfLast(c, last);
    var seqNo := match last case None => 0 case Some(r) => r.entry.seqNo + 1;
    SignEntry(c, key, MakeEntry(c, serverId, call, hashes, seqNo, prevHash))
  }

  function IssueReceipt(c: Crypto, serverId: string, r: SignedRecord): Receipt {
    Receipt(r.entry.seqNo, RecordHash(c, r), r.signature, serverId)
  }

  function LastOf(log: seq<SignedRecord>): Option<SignedRecord> {
    if log == [] then None else Some(log[|log| - 1])
  }

  /** The record commits to these payloads. */
  ghost predicate Attests(c: Crypto, r: SignedRecord, params: Json, result: Json) {
    && Canonical.Dumps(params).Ok? && r.entry.paramsHash == HashHex(c, Canonical.Dumps(params).value)
    && Canonical.Dumps(result).Ok? && r.entry.resultHash == HashHex(c, Canonical.Dumps(result).value)
  }

  /** The record repeats the call's own fields. */
  ghost predicate Describes(c: Crypto, r: SignedRecord, serverId: string, call: Call) {
    && r.entry.serverId == serverId
    && r.entry.requestId == call.requestId
    && r.entry.methodName == call.methodName
    && r.entry.status == call.status
    && r.entry.tsRequest == call.tsRequest
    && r.entry.tsResponse == call.tsResponse
    && r.entry.toolName == ExtractToolName(c, call.methodName, call.params)
  }

  lemma SignedVerifies(c: Crypto, key: Bytes, entry: Entry)
    requires SignEntry(c, key, entry).Ok?
    ensures var r := SignEntry(c, key, entry).value;
            r.entry == entry && Writable(r) && CheckSignature(c, c.publicOf(key), r) == Ok(true)
  {
    hide EntryBytes;
    FromHexInvertsHex(c.signWith(key, EntryBytes(entry).value));
    SignatureNeedsWritable(c, c.publicOf(key), SignEntry(c, key, entry).value);
  }

  lemma SignEntryExact(c: Crypto, key: Bytes, entry: Entry)
    ensures SignEntry(c, key, entry).Ok? <==> |key| == 32 && entry.tsRequest.Finite? && entry.tsResponse.Finite?
    ensures SignEntry(c, key, entry).Ok? ==> SignEntry(c, key, entry).value.entry == entry
  {
    hide EntryDict;
    EntryWellFormed(entry);
  }

  lemma LastHash(c: Crypto, pk: Bytes, log: seq<SignedRecord>)
    requires ChainValid(c, pk, log)
    ensures HashOfLast(c, LastOf(log)) == Ok(Head(c, log))
  {
    hide EntryHash, RecordHash, CheckSignature;
    if log != [] {
      ValidIsWritable(c, pk, log);
      EntryHashExact(c, log[|log| - 1]);
    }
  }

  /** Appending what `NextRecord` builds keeps a verified chain verified, one record longer. */
  lemma AppendKeepsValid(c: Crypto, serverId: string, key: Bytes, call: Call, hashes: Hashes, log: seq<SignedRecord>)
    requires ChainValid(c, c.publicOf(key), log)
    requires NextRecord(c, serverId, key, call, hashes, LastOf(log)).Ok?
    ensures var r := NextRecord(c, serverId, key, call, hashes, LastOf(log)).value;
            ChainValid(c, c.publicOf(key), log + [r]) && r.entry.seqNo == |log| && Writable(r)
  {
    hide CheckSignature, RecordHash, HashOfLast, SignEntry, ExtractToolName;
    LastHash(c, c.publicOf(key), log);
    assert log != [] ==> Linked(c, c.publicOf(key), log, |log| - 1);
    var entry := MakeEntry(c, serverId, call, hashes, |log|, Head(c, log));
    SignedVerifies(c, key, entry);
    var r := SignEntry(c, key, entry).value;
    assert (log + [r])[..|log|] == log;
    ValidSnoc(c, c.publicOf(key), log, r);
  }

  /** Only `tools/call` with a member `name` that is not null has a tool name: that string, or `str` of that value. */
  lemma ToolNameExact(c: Crypto, methodName: string, params: Json)
    requires WellFormed(params)
    ensures methodName != "tools/call" || !params.Obj? ==> ExtractToolName(c, methodName, params) == None
    ensures methodName == "tools/call" && params.Obj? ==>
              if forall m | m in params.members :: m.key != "name" then ExtractToolName(c, methodName, params) == None
              else forall name: Json | Member("name", name) in params.members ::
                     ExtractToolName(c, methodName, params)
                     == match name case Null => None case Str(s) => Some(s) case _ => Some(c.show(name))
  {
    if methodName == "tools/call" && params.Obj? {
      forall name: Json | Member("name", name) in params.members ensures Get(params.members, "name") == Some(name) {
        GetExact(params.members, "name", name);
      }
      GetExact(params.members, "name", Null);
    }
  }

  /** The `name` of a call's params is not itself an object or array, whose `str` would show the order of its keys. */
  ghost predicate PlainName(params: Json) {
    params.Obj? ==> match Get(params.members, "name") case None => true case Some(name) => !name.Obj? && !name.Arr?
  }

  /** The tool name does not depend on the order in which the params list their keys. */
  lemma ToolNameIgnoresOrder(c: Crypto, methodName: string, params: Json, params': Json)
    requires WellFormed(params) && WellFormed(params') && Same(params', params) && PlainName(params)
    ensures ExtractToolName(c, methodName, params') == ExtractToolName(c, methodName, params)
  {
    SameSymmetric(params', params);
    if params.Obj? {
      if Get(params.members, "name").Some? { SameLookup(params.members, params'.members, "name"); }
      if Get(params'.members, "name").Some? { SameLookup(params'.members, params.members, "name"); }
    }
  }
}
