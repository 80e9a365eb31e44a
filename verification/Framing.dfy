/** The JSONL file: records to bytes, and the two ways the log reads them back. */
module Framing {
  import opened Wrappers
  import opened Errors
  import opened ByteStrings
  import opened Text
  import opened Crypto
  import opened Entry
  import opened Chain
  import opened Append
  import Canonical
  import Utf8

  /** What one append adds to the file. */
  function RecordLine(r: SignedRecord): Bytes {
    RecordBytes(r) + [LF]
  }

  /** The file after these records were appended to an empty one. */
  function FileOf(log: seq<SignedRecord>): Bytes {
    if log == [] then [] else RecordLine(log[0]) + FileOf(log[1..])
  }

  function LinesFor(log: seq<SignedRecord>): seq<string> {
    if log == [] then [] else [Line(log[0])] + LinesFor(log[1..])
  }

  // ---------------------------------------------------------------- the readers

  /** Strip each line and drop the blank ones. */
  function NonBlank(raws: seq<string>): seq<string> {
    if raws == [] then []
    else (if Strip(raws[0]) == "" then [] else [Strip(raws[0])]) + NonBlank(raws[1..])
  }

  /** `_iter_lines`: decode the file, translate newlines, then split. */
  function TextLines(data: Bytes): Result<seq<string>, Error> {
    match Utf8.Decode(data)
    case None => Err(NotUtf8)
    case Some(text) => Ok(NonBlank(Lines(TranslateNewlines(text), '\n')))
  }

  function DecodeEach(raws: seq<Bytes>): Result<seq<string>, Error> {
    if raws == [] then Ok([])
    else match Utf8.Decode(raws[0])
      case None => Err(NotUtf8)
      case Some(text) =>
        var rest :- DecodeEach(raws[1..]);
        Ok([text] + rest)
  }

  /** The lines `_scan_last_record` looks at: split the bytes on 0x0A, then decode each line. */
  function BinaryLines(data: Bytes): Result<seq<string>, Error> {
    var texts :- DecodeEach(Lines(data, LF));
    Ok(NonBlank(texts))
  }

  /** `_scan_last_record` over raw lines: the last one that parses, skipping those whose parsing raises ValueError. */
  function ScanFrom(raws: seq<Bytes>, last: Option<SignedRecord>): Result<Option<SignedRecord>, Error> {
    if raws == [] then Ok(last)
    else match Utf8.Decode(raws[0])
      case None => Err(NotUtf8)
      case Some(text) =>
        if Strip(text) == "" then ScanFrom(raws[1..], last)
        else match RecordFromLine(Strip(text))
          case Ok(r) => ScanFrom(raws[1..], Some(r))
          case Err(e) => if e.SkippedByScan() then ScanFrom(raws[1..], last) else Err(e)
  }

  function ScanLast(data: Bytes): Result<Option<SignedRecord>, Error> {
    ScanFrom(Lines(data, LF), None)
  }

  /** `_last_record`: the last record of the text reader, or the exception met on the way. */
  function TextLast(data: Bytes): Result<Option<SignedRecord>, Error> {
    var lines :- TextLines(data);
    var s := RecordsOf(lines);
    if s.failure.Some? then Err(s.failure.value) else Ok(LastOf(s.records))
  }

  /** `head_hash` read from a file. */
  function HeadHashOf(c: Crypto, data: Bytes): Result<string, Error> {
    var last :- TextLast(data);
    HashOfLast(c, last)
  }

  /** What `append` does to a file with these bytes: the record it adds, or the error that leaves the file alone. */
  function AppendOutcome(c: Crypto, serverId: string, key: Option<Bytes>, call: Call, data: Bytes)
    : Result<SignedRecord, Error>
  {
    if key.None? then Err(ReadOnly)
    else
      var hashes :- HashPayloads(c, call);
      var last :- ScanLast(data);
      NextRecord(c, serverId, key.value, call, hashes, last)
  }

  /** Lines are stripped one by one, and the blank ones dropped, in order. */
  lemma {:induction false} NonBlankExact(a: seq<string>, raw: string, b: seq<string>)
    ensures NonBlank(a + [raw] + b) == NonBlank(a) + (if AllSpace(raw) then [] else [Strip(raw)]) + NonBlank(b)
    ensures AllSpace(raw) <==> Strip(raw) == ""
  {
    hide Strip, AllSpace;
    BlankIsAllSpace(raw);
    var raws := a + [raw] + b;
    if a == [] {
      assert raws[1..] == b;
    } else {
      assert raws[1..] == a[1..] + [raw] + b;
      NonBlankExact(a[1..], raw, b);
    }
  }

  lemma BlankIsAllSpace(raw: string)
    ensures AllSpace(raw) <==> Strip(raw) == ""
  {
    hide IsSpace, Strip;
    StripExact(raw);
    var a, b :| AllSpace(a) && AllSpace(b) && raw == a + Strip(raw) + b;
    if Strip(raw) != "" { assert raw[|a|] == Strip(raw)[0] && raw[|a|] in raw; }
  }

  /** What the binary scan makes of one raw line: nothing, a record or an exception. */
  datatype Glance = Passed | Found(r: SignedRecord) | Stopped(e: Error)

  ghost predicate Looks(raw: Bytes, g: Glance) {
    match Utf8.Decode(raw)
    case None => g == Stopped(NotUtf8)
    case Some(text) =>
      if AllSpace(text) then g == Passed
      else match RecordFromLine(Strip(text))
        case Ok(r) => g == Found(r)
        case Err(e) => g == if e == JsonDecode || e == BadKeys then Passed else Stopped(e)
  }

  lemma ScanStep(raws: seq<Bytes>, last: Option<SignedRecord>, g: Glance)
    requires raws != [] && Looks(raws[0], g)
    ensures ScanFrom(raws, last) == match g
                                    case Passed => ScanFrom(raws[1..], last)
                                    case Found(r) => ScanFrom(raws[1..], Some(r))
                                    case Stopped(e) => Err(e)
  {
    hide RecordFromLine, Strip, AllSpace;
    if Utf8.Decode(raws[0]).Some? { BlankIsAllSpace(Utf8.Decode(raws[0]).value); }
  }

  /** The last line that is a record wins, if no line raises; without one, what was known before stays. */
  lemma {:induction false} ScanExact(raws: seq<Bytes>, glances: seq<Glance>, last: Option<SignedRecord>)
    requires |glances| == |raws| && forall i | 0 <= i < |raws| :: Looks(raws[i], glances[i])
    ensures forall i | 0 <= i < |raws| && glances[i].Stopped? && (forall j | 0 <= j < i :: !glances[j].Stopped?) ::
              ScanFrom(raws, last) == Err(glances[i].e)
    ensures (forall i | 0 <= i < |raws| :: !glances[i].Stopped?) ==>
              && (forall i | 0 <= i < |raws| && glances[i].Found?
                    && (forall j | i < j < |raws| :: glances[j].Passed?) ::
                    ScanFrom(raws, last) == Ok(Some(glances[i].r)))
              && ((forall i | 0 <= i < |raws| :: glances[i].Passed?) ==> ScanFrom(raws, last) == Ok(last))
  {
    hide Looks;
    if raws != [] {
      ScanStep(raws, last, glances[0]);
      ScanExact(raws[1..], glances[1..], if glances[0].Found? then Some(glances[0].r) else last);
      assert forall i | 0 < i < |raws| :: glances[i] == glances[1..][i - 1];
    }
  }

  // ---------------------------------------------------------------- both readers see the same lines

  lemma {:induction false} DecodeEachInverts(ts: seq<string>)
    ensures DecodeEach(EncodeEach(ts)) == Ok(ts)
  {
    if ts != [] {
      Utf8.DecodeInvertsEncode(ts[0]);
      DecodeEachInverts(ts[1..]);
      assert ts == [ts[0]] + ts[1..];
    }
  }

  /** On any file that decodes and holds no carriage return, decoding before or after the split makes no difference. */
  lemma ReadersAgree(data: Bytes)
    requires Utf8.Decode(data).Some? && 0x0D !in data
    ensures BinaryLines(data) == TextLines(data)
  {
    var text := Utf8.Decode(data).value;
    Utf8.EncodeInvertsDecode(data);
    Utf8.AsciiBytesAreCharacters(text, '\r');
    NothingToTranslate(text);
    LinesOfEncoding(text);
    DecodeEachInverts(Lines(text, '\n'));
  }

  // ---------------------------------------------------------------- files built by appends

  lemma {:induction false} FileSnoc(log: seq<SignedRecord>, r: SignedRecord)
    ensures FileOf(log + [r]) == FileOf(log) + RecordLine(r)
  {
    hide RecordLine;
    if log == [] {
      assert (log + [r])[1..] == [];
    } else {
      assert (log + [r])[1..] == log[1..] + [r];
      FileSnoc(log[1..], r);
    }
  }

  lemma {:induction false} LinesForIndex(log: seq<SignedRecord>)
    ensures |LinesFor(log)| == |log| && forall i | 0 <= i < |log| :: LinesFor(log)[i] == Line(log[i])
  {
    hide Line;
    if log != [] { LinesForIndex(log[1..]); }
  }

  /** The text of a file built by appends. */
  function TextOf(log: seq<SignedRecord>): string {
    if log == [] then "" else Line(log[0]) + "\n" + TextOf(log[1..])
  }

  lemma {:induction false} FileIsText(log: seq<SignedRecord>)
    ensures FileOf(log) == Utf8.Encode(TextOf(log)) && '\r' !in TextOf(log)
  {
    hide Line;
    if log != [] {
      FileIsText(log[1..]);
      LineShape(log[0]);
      Utf8.EncodeConcat(Line(log[0]), "\n");
      assert Utf8.Encode("\n") == [LF];
      Utf8.EncodeConcat(Line(log[0]) + "\n", TextOf(log[1..]));
    }
  }

  lemma {:induction false} LinesOfText(log: seq<SignedRecord>)
    ensures NonBlank(Lines(TextOf(log), '\n')) == LinesFor(log)
  {
    hide Line, Strip;
    if log != [] {
      LineShape(log[0]);
      LinesCons(Line(log[0]), '\n', TextOf(log[1..]));
      var raws := Lines(TextOf(log), '\n');
      assert raws[0] == Line(log[0]) + "\n" && raws[1..] == Lines(TextOf(log[1..]), '\n');
      LinesOfText(log[1..]);
    }
  }

  lemma {:induction false} LinesParse(log: seq<SignedRecord>)
    requires forall r | r in log :: Writable(r)
    ensures RecordsOf(LinesFor(log)) == Stream(log, None)
  {
    hide Line, RecordFromLine, RecordsOf;
    if log == [] {
      NoLines();
    } else {
      assert log[0] in log;
      LineRoundTrip(log[0]);
      LinesParse(log[1..]);
      RecordsCons(Line(log[0]), LinesFor(log[1..]));
      assert log == [log[0]] + log[1..];
    }
  }

  /** File refinement: a file built by appends reads back, through either reader, as the appended records in order. */
  lemma FileReadsBack(log: seq<SignedRecord>)
    requires forall r | r in log :: Writable(r)
    ensures TextLines(FileOf(log)) == Ok(LinesFor(log)) && BinaryLines(FileOf(log)) == Ok(LinesFor(log))
    ensures RecordsOf(LinesFor(log)) == Stream(log, None)
  {
    FileIsText(log);
    Utf8.DecodeInvertsEncode(TextOf(log));
    NothingToTranslate(TextOf(log));
    LinesOfText(log);
    Utf8.AsciiBytesAreCharacters(TextOf(log), '\r');
    ReadersAgree(FileOf(log));
    LinesParse(log);
  }

  lemma {:induction false} ScanFindsLast(log: seq<SignedRecord>, last: Option<SignedRecord>)
    requires forall r | r in log :: Writable(r)
    ensures ScanFrom(Lines(FileOf(log), LF), last) == Ok(if log == [] then last else LastOf(log))
  {
    hide Line, Strip, RecordFromLine;
    if log != [] {
      assert log[0] in log;
      LineShape(log[0]);
      LineRoundTrip(log[0]);
      Utf8.AsciiBytesAreCharacters(Line(log[0]), '\n');
      LinesCons(RecordBytes(log[0]), LF, FileOf(log[1..]));
      var raws := Lines(FileOf(log), LF);
      assert raws[0] == RecordLine(log[0]) && raws[1..] == Lines(FileOf(log[1..]), LF);
      assert Utf8.Encode("\n") == [LF];
      Utf8.EncodeConcat(Line(log[0]), "\n");
      Utf8.DecodeInvertsEncode(Line(log[0]) + "\n");
      ScanFindsLast(log[1..], Some(log[0]));
    }
  }

  lemma ScanOfFile(log: seq<SignedRecord>)
    requires forall r | r in log :: Writable(r)
    ensures ScanLast(FileOf(log)) == Ok(LastOf(log))
  {
    ScanFindsLast(log, None);
  }

  /** Re-deriving state from disk: the next sequence number is the line count, and the next `prev_hash` is the head. */
  lemma ScansAgree(c: Crypto, pk: Bytes, log: seq<SignedRecord>)
    requires ChainValid(c, pk, log)
    ensures ScanLast(FileOf(log)) == Ok(LastOf(log)) && TextLines(FileOf(log)) == Ok(LinesFor(log))
    ensures |LinesFor(log)| == |log| && HeadHashOf(c, FileOf(log)) == Ok(Head(c, log))
    ensures (match LastOf(log) case None => 0 case Some(r) => r.entry.seqNo + 1) == |log|
    ensures HashOfLast(c, LastOf(log)) == Ok(Head(c, log))
  {
    hide CheckSignature, RecordHash, HashOfLast;
    ValidIsWritable(c, pk, log);
    ScanOfFile(log);
    FileReadsBack(log);
    LinesForIndex(log);
    LastHash(c, pk, log);
    if log != [] { assert Linked(c, pk, log, |log| - 1); }
  }

  /** Exactly when an append to an honest file succeeds, and what it leaves: one more record at the next position. */
  lemma AppendToHonestFile(c: Crypto, serverId: string, key: Option<Bytes>, call: Call, log: seq<SignedRecord>,
                           pk: Bytes)
    requires ChainValid(c, pk, log)
    ensures AppendOutcome(c, serverId, key, call, FileOf(log)).Ok? <==>
              key.Some? && |key.value| == 32 && !Json.HasNonFinite(call.params) && !Json.HasNonFinite(call.result)
              && call.tsRequest.Finite? && call.tsResponse.Finite?
    ensures AppendOutcome(c, serverId, key, call, FileOf(log)).Ok? && pk == c.publicOf(key.value) ==>
              var r := AppendOutcome(c, serverId, key, call, FileOf(log)).value;
              && FileOf(log) + RecordLine(r) == FileOf(log + [r])
              && ChainValid(c, pk, log + [r])
              && r.entry.seqNo == |log| && (log == [] ==> IsZeroText(r.entry.prevHash))
              && Attests(c, r, call.params, call.result)
              && Describes(c, r, serverId, call)
  {
    hide CheckSignature, RecordHash, HashOfLast, FileOf, ChainValid, ScanLast, RecordLine;
    ScansAgree(c, pk, log);
    AppendExact(c, serverId, key, call, log, pk);
    if key.Some? && HashPayloads(c, call).Ok? {
      NextRecordExact(c, serverId, key.value, call, HashPayloads(c, call).value, LastOf(log));
      var next := NextRecord(c, serverId, key.value, call, HashPayloads(c, call).value, LastOf(log));
      if next.Ok? && pk == c.publicOf(key.value) {
        var r := next.value;
        AppendKeepsValid(c, serverId, key.value, call, HashPayloads(c, call).value, log);
        FileSnoc(log, r);
      }
    }
  }

  /**
   * The record an append adds to an honest file, field by field: the next index, 64 zeros or the hash of the last line,
   * the call's own fields, the digests of its payloads, and the key's signature on the entry. Otherwise, the exception.
   */
  lemma AppendExact(c: Crypto, serverId: string, key: Option<Bytes>, call: Call, log: seq<SignedRecord>, pk: Bytes)
    requires ChainValid(c, pk, log)
    ensures var outcome := AppendOutcome(c, serverId, key, call, FileOf(log));
            && (key.None? ==> outcome == Err(ReadOnly))
            && (key.Some? && !AllFinite(call) ==> outcome == Err(Canonicalization))
            && (key.Some? && AllFinite(call) && |key.value| != 32 ==> outcome == Err(BadKeyLength))
            && (key.Some? && AllFinite(call) && |key.value| == 32 ==>
                  outcome.Ok? && IsRecordOf(c, serverId, key.value, call, log, outcome.value))
  {
    hide CheckSignature, RecordHash, HashOfLast, FileOf, ChainValid, ScanLast, IsRecordOf, AllFinite, HashPayloads;
    ScansAgree(c, pk, log);
    HashPayloadsExact(c, call);
    if key.Some? {
      if HashPayloads(c, call).Ok? {
        NextRecordIs(c, serverId, key.value, call, HashPayloads(c, call).value, log);
      } else {
        NotAllFinite(call);
      }
    }
  }

  /** No NaN or infinity in the payloads or the timestamps. */
  predicate AllFinite(call: Call) {
    && !Json.HasNonFinite(call.params) && !Json.HasNonFinite(call.result)
    && call.tsRequest.Finite? && call.tsResponse.Finite?
  }

  lemma NotAllFinite(call: Call)
    requires Canonical.Dumps(call.params).Err? || Canonical.Dumps(call.result).Err?
    ensures !AllFinite(call)
  {
  }

  /** Every field of the record that attests `call` after `log`. */
  ghost predicate IsRecordOf(c: Crypto, serverId: string, key: Bytes, call: Call, log: seq<SignedRecord>,
                               r: SignedRecord)
  {
    && Canonical.Dumps(call.params).Ok? && Canonical.Dumps(call.result).Ok? && EntryBytes(r.entry).Ok?
    && r.entry.seqNo == |log|
    && (if log == [] then IsZeroText(r.entry.prevHash)
        else r.entry.prevHash == Hex(c.digest(RecordBytes(log[|log| - 1]))))
    && r.entry.tsRequest == call.tsRequest && r.entry.tsResponse == call.tsResponse
    && r.entry.serverId == serverId && r.entry.requestId == call.requestId && r.entry.methodName == call.methodName
    && r.entry.toolName == ExtractToolName(c, call.methodName, call.params)
    && r.entry.paramsHash == Hex(c.digest(Canonical.Dumps(call.params).value))
    && r.entry.resultHash == Hex(c.digest(Canonical.Dumps(call.result).value))
    && r.entry.status == call.status
    && r.signature == Hex(c.signWith(key, EntryBytes(r.entry).value))
  }

  lemma HashPayloadsExact(c: Crypto, call: Call)
    ensures var p, q, h := Canonical.Dumps(call.params), Canonical.Dumps(call.result), HashPayloads(c, call);
            && (h.Ok? <==> p.Ok? && q.Ok?)
            && (h.Ok? ==> h.value.params == Hex(c.digest(p.value)) && h.value.result == Hex(c.digest(q.value)))
            && (h.Err? ==> h == Err(Canonicalization))
  {
    hide Hex;
  }

  lemma HeadSpelled(c: Crypto, log: seq<SignedRecord>)
    ensures if log == [] then IsZeroText(Head(c, log)) else Head(c, log) == Hex(c.digest(RecordBytes(log[|log| - 1])))
  {
    hide RecordBytes, Hex;
    ZeroHashSpelled();
  }

  lemma SignEntryIs(c: Crypto, key: Bytes, entry: Entry)
    ensures var r := SignEntry(c, key, entry);
            && (!(entry.tsRequest.Finite? && entry.tsResponse.Finite?) ==> r == Err(Canonicalization))
            && (entry.tsRequest.Finite? && entry.tsResponse.Finite? && |key| != 32 ==> r == Err(BadKeyLength))
            && (entry.tsRequest.Finite? && entry.tsResponse.Finite? && |key| == 32 ==>
                  r.Ok? && EntryBytes(entry).Ok? && r.value.entry == entry
                  && r.value.signature == Hex(c.signWith(key, EntryBytes(entry).value)))
  {
    hide EntryDict, Hex;
    EntryWellFormed(entry);
  }

  lemma NextRecordIs(c: Crypto, serverId: string, key: Bytes, call: Call, hashes: Hashes, log: seq<SignedRecord>)
    requires HashPayloads(c, call) == Ok(hashes)
    requires HashOfLast(c, LastOf(log)) == Ok(Head(c, log))
    requires (match LastOf(log) case None => 0 case Some(r) => r.entry.seqNo + 1) == |log|
    ensures var next := NextRecord(c, serverId, key, call, hashes, LastOf(log));
            && (!AllFinite(call) ==> next == Err(Canonicalization))
            && (AllFinite(call) && |key| != 32 ==> next == Err(BadKeyLength))
            && (AllFinite(call) && |key| == 32 ==> next.Ok? && IsRecordOf(c, serverId, key, call, log, next.value))
  {
    hide HashOfLast, SignEntry, EntryBytes, Hex, RecordBytes, Head, LastOf, ExtractToolName, HashPayloads;
    HashPayloadsExact(c, call);
    HeadSpelled(c, log);
    SignEntryIs(c, key, MakeEntry(c, serverId, call, hashes, |log|, Head(c, log)));
  }

  lemma NextRecordExact(c: Crypto, serverId: string, key: Bytes, call: Call, hashes: Hashes, last: Option<SignedRecord>)
    requires HashOfLast(c, last).Ok?
    ensures var next := NextRecord(c, serverId, key, call, hashes, last);
            && (next.Ok? <==> |key| == 32 && call.tsRequest.Finite? && call.tsResponse.Finite?)
            && (next.Ok? ==>
                  && next.value.entry.paramsHash == hashes.params && next.value.entry.resultHash == hashes.result
                  && Describes(c, next.value, serverId, call))
  {
    hide HashOfLast, ExtractToolName, SignEntry;
    var seqNo := match last case None => 0 case Some(r) => r.entry.seqNo + 1;
    SignEntryExact(c, key, MakeEntry(c, serverId, call, hashes, seqNo, HashOfLast(c, last).value));
  }

  // ---------------------------------------------------------------- reading while others append

  /** The complete lines at the front of some bytes. */
  function CompletePart(got: Bytes): (r: Bytes)
    ensures r <= got
  {
    if got == [] then []
    else if got[|got| - 1] == LF then got
    else CompletePart(got[..|got| - 1])
  }

  /** Nothing but an unfinished line is left over. */
  lemma {:induction false} CompletePartExact(got: Bytes)
    ensures CompletePart(got) == [] || CompletePart(got)[|CompletePart(got)| - 1] == LF
    ensures LF !in got[|CompletePart(got)|..]
  {
    if got != [] && got[|got| - 1] != LF {
      var n := |got| - 1;
      CompletePartExact(got[..n]);
      assert got[|CompletePart(got)|..] == got[..n][|CompletePart(got)|..] + [got[n]];
    }
  }

  lemma {:induction false} CompleteAfter(a: Bytes, b: Bytes)
    requires a == [] || a[|a| - 1] == LF
    ensures CompletePart(a + b) == a + CompletePart(b)
  {
    if b == [] {
      assert a + b == a;
    } else if b[|b| - 1] != LF {
      assert (a + b)[..|a + b| - 1] == a + b[..|b| - 1];
      CompleteAfter(a, b[..|b| - 1]);
    }
  }

  lemma {:induction false} NoCompleteLine(b: Bytes)
    requires LF !in b
    ensures CompletePart(b) == []
  {
    if b != [] { NoCompleteLine(b[..|b| - 1]); }
  }

  /** Wherever a reader stops inside a file built by appends, the complete lines it holds are the first records. */
  lemma {:induction false} PartialRead(log: seq<SignedRecord>, got: Bytes) returns (n: nat)
    requires got <= FileOf(log)
    ensures n <= |log| && CompletePart(got) == FileOf(log[..n])
  {
    hide RecordBytes;
    n := 0;
    if log != [] {
      var first := RecordLine(log[0]);
      RecordHasNoBreak(log[0]);
      if |got| < |first| {
        assert got == RecordBytes(log[0])[..|got|];
        NoCompleteLine(got);
      } else {
        var rest := got[|first|..];
        assert got == first + rest;
        assert rest == FileOf(log)[|first|..][..|rest|] && FileOf(log)[|first|..] == FileOf(log[1..]);
        var m := PartialRead(log[1..], rest);
        CompleteAfter(first, rest);
        n := m + 1;
        assert log[..n][0] == log[0] && log[..n][1..] == log[1..][..m];
      }
    }
  }

  lemma RecordHasNoBreak(r: SignedRecord)
    ensures LF !in RecordBytes(r)
  {
    hide Line;
    LineShape(r);
    Utf8.AsciiBytesAreCharacters(Line(r), '\n');
  }
}
