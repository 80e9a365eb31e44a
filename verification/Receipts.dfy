/** `verify_receipt`: what acceptance proves, and when it is owed. */
module Receipts {
  import opened Wrappers
  import opened Errors
  import opened ByteStrings
  import opened Json
  import opened Crypto
  import opened Entry
  import opened Chain
  import opened Append
  import Canonical

  /** The specification of `read_record` on the non-blank lines of a log. */
  function ReadRecord(lines: seq<string>, seqNo: int): Result<SignedRecord, Error> {
    if seqNo < 0 then Err(NegativeSeq)
    else if seqNo < |lines| then RecordFromLine(lines[seqNo])
    else Err(SeqOutOfRange)
  }

  datatype Rejection = SignatureInvalid | ParamsMismatch | ResultMismatch | EntryHashMismatch | SignatureMismatch

  datatype ReceiptResult = Accepted | Rejected(why: Rejection) | Failed(error: Error)

  /** The checks in the order they are made, each with the exception it raises. */
  function VerifyReceipt(c: Crypto, receipt: Receipt, params: Json, result: Json, publicKey: Bytes, lines: seq<string>)
    : ReceiptResult
  {
    match ReadRecord(lines, receipt.seqNo)
    case Err(e) => Failed(e)
    case Ok(record) => CheckReceipt(c, receipt, params, result, publicKey, record)
  }

  function CheckReceipt(c: Crypto, receipt: Receipt, params: Json, result: Json, publicKey: Bytes, record: SignedRecord)
    : ReceiptResult
  {
    match CheckSignature(c, publicKey, record)
    case Err(e) => Failed(e)
    case Ok(false) => Rejected(Rejection.SignatureInvalid)
    case Ok(true) =>
      match Canonical.Dumps(params)
      case Err(e) => Failed(e)
      case Ok(paramsBytes) =>
        if HashHex(c, paramsBytes) != record.entry.paramsHash then Rejected(ParamsMismatch)
        else match Canonical.Dumps(result)
          case Err(e) => Failed(e)
          case Ok(resultBytes) =>
            if HashHex(c, resultBytes) != record.entry.resultHash then Rejected(ResultMismatch)
            else if RecordHash(c, record) != receipt.entryHash then Rejected(EntryHashMismatch)
            else if record.signature != receipt.signature then Rejected(SignatureMismatch)
            else Accepted
  }

  /** The payload's canonical bytes have this digest. */
  ghost predicate HashedAs(c: Crypto, payload: Json, hash: string) {
    Canonical.Dumps(payload).Ok? && hash == Hex(c.digest(Canonical.Dumps(payload).value))
  }

  /** The line the receipt points at, when there is one and it is a record. */
  ghost predicate Finds(lines: seq<string>, seqNo: int, r: SignedRecord) {
    0 <= seqNo < |lines| && RecordFromLine(lines[seqNo]) == Ok(r)
  }

  /** What must hold for a receipt to pass all five checks against the record it points at. */
  ghost predicate Passes(c: Crypto, receipt: Receipt, params: Json, result: Json, publicKey: Bytes, r: SignedRecord) {
    && SignedUnder(c, publicKey, r)
    && HashedAs(c, params, r.entry.paramsHash) && HashedAs(c, result, r.entry.resultHash)
    && receipt.entryHash == Hex(c.digest(RecordBytes(r))) && receipt.signature == r.signature
  }

  /** `verify_receipt` raises the reader's error exactly when its index names no readable record. */
  lemma UnreadableIsRaised(c: Crypto, receipt: Receipt, params: Json, result: Json, publicKey: Bytes,
                           lines: seq<string>)
    ensures var v, n := VerifyReceipt(c, receipt, params, result, publicKey, lines), receipt.seqNo;
            && (n < 0 ==> v == Failed(NegativeSeq))
            && (n >= |lines| ==> v == Failed(SeqOutOfRange))
            && (0 <= n < |lines| && RecordFromLine(lines[n]).Err? ==> v == Failed(RecordFromLine(lines[n]).error))
  {
    hide RecordFromLine, CheckReceipt;
  }

  lemma OnlyCanonicalization(payload: Json)
    ensures Canonical.Dumps(payload).Ok? || Canonical.Dumps(payload) == Err(Canonicalization)
  {
  }

  /** Each check decides its own outcome once the checks before it have passed. */
  lemma OutcomeExact(c: Crypto, receipt: Receipt, params: Json, result: Json, publicKey: Bytes, lines: seq<string>,
                     r: SignedRecord)
    requires Finds(lines, receipt.seqNo, r)
    ensures var v := VerifyReceipt(c, receipt, params, result, publicKey, lines);
            var (signed, paramsOk) := (SignedUnder(c, publicKey, r), HashedAs(c, params, r.entry.paramsHash));
            var resultOk := HashedAs(c, result, r.entry.resultHash);
            var entryOk := receipt.entryHash == Hex(c.digest(RecordBytes(r)));
            && (v == Accepted <==> Passes(c, receipt, params, result, publicKey, r))
            && (v == Rejected(Rejection.SignatureInvalid) <==>
                  Writable(r) && FromHex(r.signature).Some? && !signed)
            && (v == Rejected(ParamsMismatch) <==> signed && Canonical.Dumps(params).Ok? && !paramsOk)
            && (v == Rejected(ResultMismatch) <==> signed && paramsOk && Canonical.Dumps(result).Ok? && !resultOk)
            && (v == Rejected(EntryHashMismatch) <==> signed && paramsOk && resultOk && !entryOk)
            && (v == Rejected(SignatureMismatch) <==>
                  signed && paramsOk && resultOk && entryOk && receipt.signature != r.signature)
            && (v == Failed(BadHex) <==> Writable(r) && FromHex(r.signature).None?)
            && (v == Failed(Canonicalization) <==>
                  !Writable(r)
                  || (signed && (Canonical.Dumps(params).Err? || (paramsOk && Canonical.Dumps(result).Err?))))
  {
    hide CheckSignature, SignedUnder, FromHex, RecordBytes, Hex, RecordFromLine, Writable, Canonical.Dumps;
    SignatureExact(c, publicKey, r);
    OnlyTwoErrors(c, publicKey, r);
    OnlyCanonicalization(params);
    OnlyCanonicalization(result);
  }

  /** The colliding inputs behind a receipt that verifies for something else than what it was issued for. */
  function Discrepancy(r: SignedRecord, params: Json, result: Json, read: SignedRecord, params': Json, result': Json)
    : Evidence
    requires Canonical.Dumps(params).Ok? && Canonical.Dumps(result).Ok?
    requires Canonical.Dumps(params').Ok? && Canonical.Dumps(result').Ok?
  {
    if read != r then Collision(RecordBytes(read), RecordBytes(r))
    else if Canonical.Dumps(params') != Canonical.Dumps(params)
    then Collision(Canonical.Dumps(params').value, Canonical.Dumps(params).value)
    else Collision(Canonical.Dumps(result').value, Canonical.Dumps(result).value)
  }

  lemma PayloadBinds(c: Crypto, p: Json, q: Json)
    requires WellFormed(p) && WellFormed(q) && Canonical.Dumps(p).Ok? && Canonical.Dumps(q).Ok?
    requires HashHex(c, Canonical.Dumps(p).value) == HashHex(c, Canonical.Dumps(q).value)
    ensures Canonical.Dumps(p) == Canonical.Dumps(q) ==> Same(p, q)
    ensures Canonical.Dumps(p) != Canonical.Dumps(q) ==>
              Genuine(c, Collision(Canonical.Dumps(p).value, Canonical.Dumps(q).value))
  {
    Canonical.DumpsDecidesSame(p, q);
    EqualHashes(c, Canonical.Dumps(p).value, Canonical.Dumps(q).value);
  }

  lemma AcceptanceMeans(c: Crypto, receipt: Receipt, params: Json, result: Json, publicKey: Bytes, lines: seq<string>)
    requires VerifyReceipt(c, receipt, params, result, publicKey, lines) == Accepted
    ensures ReadRecord(lines, receipt.seqNo).Ok? && Canonical.Dumps(params).Ok? && Canonical.Dumps(result).Ok?
    ensures var read := ReadRecord(lines, receipt.seqNo).value;
            && CheckSignature(c, publicKey, read) == Ok(true)
            && HashHex(c, Canonical.Dumps(params).value) == read.entry.paramsHash
            && HashHex(c, Canonical.Dumps(result).value) == read.entry.resultHash
            && RecordHash(c, read) == receipt.entryHash && read.signature == receipt.signature
  {
    hide CheckSignature, RecordHash, Canonical.Dumps, HashHex, ReadRecord;
  }

  /**
   * A receipt binds its call on any log: if it verifies against any lines, under any key, for any payloads, then the
   * record read is the one issued and the payloads are the attested ones up to key order, or two inputs collide.
   */
  lemma ReceiptBinds(c: Crypto, serverId: string, r: SignedRecord, params: Json, result: Json,
                     params': Json, result': Json, publicKey: Bytes, lines: seq<string>)
    requires Writable(r) && Attests(c, r, params, result)
    requires WellFormed(params) && WellFormed(result) && WellFormed(params') && WellFormed(result')
    requires VerifyReceipt(c, IssueReceipt(c, serverId, r), params', result', publicKey, lines) == Accepted
    ensures Canonical.Dumps(params').Ok? && Canonical.Dumps(result').Ok? && ReadRecord(lines, r.entry.seqNo).Ok?
    ensures (ReadRecord(lines, r.entry.seqNo) == Ok(r) && Same(params', params) && Same(result', result))
            || Genuine(c, Discrepancy(r, params, result, ReadRecord(lines, r.entry.seqNo).value, params', result'))
  {
    hide CheckSignature, RecordHash, RecordBytes, Canonical.Dumps, HashHex, Genuine, ReadRecord, Same, WellFormed,
         VerifyReceipt, CheckReceipt, Writable;
    AcceptanceMeans(c, IssueReceipt(c, serverId, r), params', result', publicKey, lines);
    var read := ReadRecord(lines, r.entry.seqNo).value;
    SignatureNeedsWritable(c, publicKey, read);
    RecordHashBinds(c, read, r);
    if read == r {
      PayloadBinds(c, params', params);
      PayloadBinds(c, result', result);
    }
  }

  /**
   * A receipt vouches for the tool: the tool name in the record read is the one extracted from the params presented, in
   * whatever key order, or two inputs collide.
   */
  lemma ToolNameBinds(c: Crypto, serverId: string, r: SignedRecord, call: Call,
                      params': Json, result': Json, publicKey: Bytes, lines: seq<string>)
    requires Writable(r) && Attests(c, r, call.params, call.result) && Describes(c, r, serverId, call)
    requires WellFormed(call.params) && WellFormed(call.result) && WellFormed(params') && WellFormed(result')
    requires PlainName(call.params)
    requires VerifyReceipt(c, IssueReceipt(c, serverId, r), params', result', publicKey, lines) == Accepted
    ensures Canonical.Dumps(params').Ok? && Canonical.Dumps(result').Ok? && ReadRecord(lines, r.entry.seqNo).Ok?
    ensures var read := ReadRecord(lines, r.entry.seqNo).value;
            read.entry.toolName == ExtractToolName(c, read.entry.methodName, params')
            || Genuine(c, Discrepancy(r, call.params, call.result, read, params', result'))
  {
    hide Canonical.Dumps, Genuine, ReadRecord, Same, WellFormed, VerifyReceipt, Writable, PlainName, ExtractToolName,
         Discrepancy, IssueReceipt, HashHex;
    ReceiptBinds(c, serverId, r, call.params, call.result, params', result', publicKey, lines);
    if Same(params', call.params) { ToolNameIgnoresOrder(c, call.methodName, call.params, params'); }
  }

  /** A receipt is owed acceptance whenever its record is at its place, for its payloads in any key order. */
  lemma ReceiptAccepted(c: Crypto, serverId: string, r: SignedRecord, params: Json, result: Json,
                        params': Json, result': Json, publicKey: Bytes, lines: seq<string>)
    requires Attests(c, r, params, result) && CheckSignature(c, publicKey, r) == Ok(true)
    requires WellFormed(params) && WellFormed(result) && WellFormed(params') && WellFormed(result')
    requires Same(params', params) && Same(result', result)
    requires ReadRecord(lines, r.entry.seqNo) == Ok(r)
    ensures VerifyReceipt(c, IssueReceipt(c, serverId, r), params', result', publicKey, lines) == Accepted
  {
    hide CheckSignature, RecordHash, ReadRecord;
    SameBytes(params', params);
    SameBytes(result', result);
  }

  lemma SameBytes(p: Json, q: Json)
    requires WellFormed(p) && WellFormed(q) && Same(p, q)
    ensures Canonical.Dumps(p) == Canonical.Dumps(q)
  {
    SameImpliesCanon(p, q);
    CanonKeepsFinite(p);
    CanonKeepsFinite(q);
  }

  /** The last check is not implied by the others: with any other signature text the same receipt fails there. */
  lemma SignatureCheckIsIndependent(c: Crypto, receipt: Receipt, params: Json, result: Json, publicKey: Bytes,
                                    lines: seq<string>, signature: string)
    requires VerifyReceipt(c, receipt, params, result, publicKey, lines) == Accepted && signature != receipt.signature
    ensures VerifyReceipt(c, receipt.(signature := signature), params, result, publicKey, lines)
            == Rejected(SignatureMismatch)
  {
    hide CheckSignature, RecordHash, Canonical.Dumps, HashHex, ReadRecord;
    AcceptanceMeans(c, receipt, params, result, publicKey, lines);
  }

  /** Other params than the attested ones are named as such, or two inputs collide. */
  lemma WrongParamsAreNamed(c: Crypto, receipt: Receipt, params: Json, result: Json, params': Json, result': Json,
                            publicKey: Bytes, lines: seq<string>)
    requires VerifyReceipt(c, receipt, params, result, publicKey, lines) == Accepted
    requires WellFormed(params) && WellFormed(params') && Canonical.Dumps(params').Ok? && !Same(params', params)
    ensures Canonical.Dumps(params).Ok?
    ensures VerifyReceipt(c, receipt, params', result', publicKey, lines) == Rejected(ParamsMismatch)
            || Genuine(c, Collision(Canonical.Dumps(params').value, Canonical.Dumps(params).value))
  {
    hide CheckSignature, RecordHash, Canonical.Dumps, HashHex, ReadRecord, Same, WellFormed, Genuine;
    if HashHex(c, Canonical.Dumps(params').value) == HashHex(c, Canonical.Dumps(params).value) {
      PayloadBinds(c, params', params);
    }
  }

  /** With the right params, another result than the attested one is named as such, or two inputs collide. */
  lemma WrongResultIsNamed(c: Crypto, receipt: Receipt, params: Json, result: Json, result': Json,
                           publicKey: Bytes, lines: seq<string>)
    requires VerifyReceipt(c, receipt, params, result, publicKey, lines) == Accepted
    requires WellFormed(result) && WellFormed(result') && Canonical.Dumps(result').Ok? && !Same(result', result)
    ensures Canonical.Dumps(result).Ok?
    ensures VerifyReceipt(c, receipt, params, result', publicKey, lines) == Rejected(ResultMismatch)
            || Genuine(c, Collision(Canonical.Dumps(result').value, Canonical.Dumps(result).value))
  {
    hide CheckSignature, RecordHash, Canonical.Dumps, HashHex, ReadRecord, Same, WellFormed, Genuine;
    if HashHex(c, Canonical.Dumps(result').value) == HashHex(c, Canonical.Dumps(result).value) {
      PayloadBinds(c, result', result);
    }
  }
}
