/** `AttestationLog`: the log object, over a file other objects may share. */
module Log {
  import opened Wrappers
  import opened Errors
  import opened ByteStrings
  import opened Json
  import opened Text
  import opened Crypto
  import opened Entry
  import opened Chain
  import opened Append
  import opened Framing
  import opened TreeHeads
  import Receipts
  import Utf8

  /** A JSONL file and its `flock`. */
  class LogFile {
    var data: Bytes
    var flocked: bool
    ghost var log: seq<SignedRecord>  // the records appended so far

    /** An empty file is a valid empty log. */
    constructor ()
      ensures data == [] && !flocked && log == []
    {
      data, flocked, log := [], false, [];
    }

    /** Built by appends under one key pair: the bytes are the appended records, and they form a verified chain. */
    ghost predicate Valid(c: Crypto, publicKey: Bytes)
      reads this
    {
      data == FileOf(log) && ChainValid(c, publicKey, log)
    }
  }

  class AttestationLog {
    const c: Crypto
    const file: LogFile
    const serverId: string
    const privateKey: Option<Bytes>
    var writeLocked: bool

    /** Opening touches the file and changes nothing in it. */
    constructor (c: Crypto, file: LogFile, serverId: string, privateKey: Option<Bytes>)
      ensures this.c == c && this.file == file && this.serverId == serverId && this.privateKey == privateKey
      ensures !writeLocked
    {
      this.c, this.file, this.serverId, this.privateKey, this.writeLocked := c, file, serverId, privateKey, false;
    }

    /** Stripped, non-blank lines in file order. */
    method IterLines() returns (r: Result<seq<string>, Error>)
      ensures r == TextLines(file.data)
    {
      hide Strip, TranslateNewlines, Lines;
      match Utf8.Decode(file.data) {
        case None => return Err(NotUtf8);
        case Some(text) =>
          var raws := Lines(TranslateNewlines(text), '\n');
          var lines := [];
          for i := 0 to |raws|
            invariant lines + NonBlank(raws[i..]) == NonBlank(raws)
          {
            var line := Strip(raws[i]);
            assert raws[i..][0] == raws[i] && raws[i..][1..] == raws[i + 1..];
            if line != "" {
              assert lines + ([line] + NonBlank(raws[i + 1..])) == lines + [line] + NonBlank(raws[i + 1..]);
              lines := lines + [line];
            }
          }
          assert raws[|raws|..] == [] && lines + NonBlank([]) == lines;
          return Ok(lines);
      }
    }

    method ChainLength() returns (r: Result<nat, Error>)
      ensures r == match TextLines(file.data) case Err(e) => Err(e) case Ok(lines) => Ok(|lines|)
    {
      var lines :- IterLines();
      var count := 0;
      for i := 0 to |lines|
        invariant count == i
      {
        count := count + 1;
      }
      return Ok(count);
    }

    /** The last record the text reader yields. */
    method LastRecord() returns (r: Result<Option<SignedRecord>, Error>)
      ensures r == TextLast(file.data)
    {
      var lines :- IterLines();
      assert RecordsOf(lines[..0]) == Stream([], None);
      hide RecordFromLine, RecordsOf;
      var last: Option<SignedRecord> := None;
      ghost var seen: seq<SignedRecord> := [];
      for i := 0 to |lines|
        invariant |seen| == i && RecordsOf(lines[..i]) == Stream(seen, None) && last == LastOf(seen)
      {
        match RecordFromLine(lines[i]) {
          case Err(e) =>
            RecordsEnd(lines, i, e);
            return Err(e);
          case Ok(record) =>
            RecordsStep(lines, i, seen, record);
            last := Some(record);
            seen := seen + [record];
        }
      }
      assert lines[..|lines|] == lines;
      return Ok(last);
    }

    method HeadHash() returns (r: Result<string, Error>)
      ensures r == HeadHashOf(c, file.data)
      ensures file.data == [] ==> r.Ok? && IsZeroText(r.value)
    {
      ZeroHashSpelled();
      var last :- LastRecord();
      r := HashOfLast(c, last);
    }

    method ReadRecord(seqNo: int) returns (r: Result<SignedRecord, Error>)
      ensures seqNo < 0 ==> r == Err(NegativeSeq)
      ensures seqNo >= 0 ==> r == match TextLines(file.data)
                                  case Err(e) => Err(e)
                                  case Ok(lines) =>
                                    if seqNo < |lines| then RecordFromLine(lines[seqNo]) else Err(SeqOutOfRange)
    {
      if seqNo < 0 { return Err(NegativeSeq); }
      var lines :- IterLines();
      for i := 0 to |lines|
        invariant i <= seqNo
      {
        if i == seqNo { return RecordFromLine(lines[i]); }
      }
      return Err(SeqOutOfRange);
    }

    /** The binary scan an append makes under the locks. */
    method ScanLastRecord() returns (r: Result<Option<SignedRecord>, Error>)
      ensures r == ScanLast(file.data)
    {
      hide RecordFromLine, Strip;
      var last: Option<SignedRecord> := None;
      var raws := Lines(file.data, LF);
      for i := 0 to |raws|
        invariant ScanFrom(raws[i..], last) == ScanFrom(raws, None)
      {
        assert raws[i..][0] == raws[i] && raws[i..][1..] == raws[i + 1..];
        match Utf8.Decode(raws[i]) {
          case None => return Err(NotUtf8);
          case Some(text) =>
            var line := Strip(text);
            if line != "" {
              match RecordFromLine(line) {
                case Ok(record) => last := Some(record);
                case Err(e) => if !e.SkippedByScan() { return Err(e); }
              }
            }
        }
      }
      return Ok(last);
    }

    /** The body of the `try`: scan, build, sign, write. Raising leaves the file as it was. */
    method AppendUnderLocks(key: Bytes, call: Call, hashes: Hashes) returns (r: Result<SignedRecord, Error>)
      requires writeLocked && file.flocked
      modifies file`data, file`log
      ensures r == match old(ScanLast(file.data))
                   case Err(e) => Err(e)
                   case Ok(last) => NextRecord(c, serverId, key, call, hashes, last)
      ensures r.Err? ==> file.data == old(file.data) && file.log == old(file.log)
      ensures r.Ok? ==> file.data == old(file.data) + RecordLine(r.value) && file.log == old(file.log) + [r.value]
    {
      hide HashOfLast, SignEntry, ExtractToolName, ScanLast, RecordLine;
      var last :- ScanLastRecord();
      var seqNo := if last.None? then 0 else last.value.entry.seqNo + 1;
      var prevHash :- HashOfLast(c, last);
      var entry := MakeEntry(c, serverId, call, hashes, seqNo, prevHash);
      var record :- SignEntry(c, key, entry);
      file.data := file.data + RecordLine(record);
      file.log := file.log + [record];
      return Ok(record);
    }

    /** A caller alone on the file; one that finds a lock taken waits, as the Protocol module models. */
    method Append(call: Call) returns (r: Result<(SignedRecord, Receipt), Error>)
      requires !writeLocked && !file.flocked
      modifies this`writeLocked, file
      ensures !writeLocked && !file.flocked
      ensures match AppendOutcome(c, serverId, privateKey, call, old(file.data))
              case Err(e) => r == Err(e) && file.data == old(file.data) && file.log == old(file.log)
              case Ok(record) =>
                && r == Ok((record, IssueReceipt(c, serverId, record)))
                && file.data == old(file.data) + RecordLine(record)
                && file.log == old(file.log) + [record]
      ensures forall pk: Bytes | old(file.Valid(c, pk)) && (r.Ok? ==> pk == c.publicOf(privateKey.value)) ::
                file.Valid(c, pk)
      ensures forall pk: Bytes | old(file.Valid(c, pk)) && r.Ok? ::
                privateKey.Some? && IsRecordOf(c, serverId, privateKey.value, call, old(file.log), r.value.0)
    {
      hide NextRecord, ScanLast, RecordLine, ChainValid, FileOf, IsRecordOf, AllFinite;
      ghost var before := file.log;
      if privateKey == None { return Err(ReadOnly); }
      var hashes :- HashPayloads(c, call);
      writeLocked := true;
      file.flocked := true;
      var outcome := AppendUnderLocks(privateKey.value, call, hashes);
      forall pk: Bytes | old(file.Valid(c, pk)) && outcome.Ok?
        ensures IsRecordOf(c, serverId, privateKey.value, call, before, outcome.value)
      {
        AppendExact(c, serverId, privateKey, call, before, pk);
      }
      file.flocked := false;
      writeLocked := false;
      forall pk: Bytes | old(file.Valid(c, pk)) && (outcome.Ok? ==> pk == c.publicOf(privateKey.value))
        ensures file.Valid(c, pk)
      {
        AppendToHonestFile(c, serverId, privateKey, call, before, pk);
      }
      var record :- outcome;
      return Ok((record, IssueReceipt(c, serverId, record)));
    }

    /** With no append between its two scans: a tree head of the whole log. */
    method EmitSth(timestamp: PyFloat) returns (r: Result<SignedTreeHead, Error>)
      ensures privateKey == None ==> r == Err(ReadOnly)
      ensures forall pk: Bytes | privateKey.Some? && pk == c.publicOf(privateKey.value) && file.Valid(c, pk) && r.Ok? ::
                HeadOfPrefix(c, pk, r.value, file.log, |file.log|, |file.log|)
      ensures forall pk: Bytes | privateKey.Some? && pk == c.publicOf(privateKey.value) && file.Valid(c, pk) ::
                r == SignTreeHead(c, privateKey.value, |file.log|, Head(c, file.log), timestamp)
    {
      hide TextLines, HeadHashOf, SignTreeHead, HeadOfPrefix, ChainValid, FileOf, Head;
      if privateKey == None { return Err(ReadOnly); }
      forall pk: Bytes | file.Valid(c, pk)
        ensures TextLines(file.data) == Ok(LinesFor(file.log)) && |LinesFor(file.log)| == |file.log|
        ensures HeadHashOf(c, file.data) == Ok(Head(c, file.log))
      {
        ScansAgree(c, pk, file.log);
      }
      var chainLength :- ChainLength();
      var head :- HeadHash();
      r := SignTreeHead(c, privateKey.value, chainLength, head, timestamp);
      assert file.log[..|file.log|] == file.log;
      forall pk: Bytes | pk == c.publicOf(privateKey.value) && file.Valid(c, pk)
        ensures r == SignTreeHead(c, privateKey.value, |file.log|, Head(c, file.log), timestamp)
        ensures r.Ok? ==> HeadOfPrefix(c, pk, r.value, file.log, |file.log|, |file.log|)
      {
        if r.Ok? { SignedHeadOfPrefix(c, privateKey.value, file.log, |file.log|, |file.log|, timestamp); }
      }
    }
  }

  /** `verify_chain` on a log object; a file that does not decode raises. */
  method VerifyLog(log: AttestationLog, publicKey: Bytes) returns (r: ChainResult)
    ensures r == match TextLines(log.file.data)
                 case Err(e) => Raised(0, e)
                 case Ok(lines) => ChainVerdict(log.c, publicKey, RecordsOf(lines))
    ensures log.file.Valid(log.c, publicKey) ==> r == Verdict(true, |log.file.log|, None, None)
  {
    hide ChainVerdict, ChainValid, FileOf, RecordsOf;
    var lines := log.IterLines();
    match lines {
      case Err(e) => r := Raised(0, e);
      case Ok(ls) => r := VerifyChain(log.c, publicKey, ls);
    }
    if log.file.Valid(log.c, publicKey) {
      ValidIsWritable(log.c, publicKey, log.file.log);
      FileReadsBack(log.file.log);
      VerdictExact(log.c, publicKey, Stream(log.file.log, None));
    }
  }
}
