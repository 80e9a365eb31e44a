/** The hash chain, and `verify_chain` walking it. */
module Chain {
  import opened Wrappers
  import opened Errors
  import opened ByteStrings
  import opened Crypto
  import opened Entry

  /** `head_hash` of a list of records: the hash the next record must carry. */
  function Head(c: Crypto, log: seq<SignedRecord>): string {
    if log == [] then ZERO_HASH_HEX else RecordHash(c, log[|log| - 1])
  }

  // ---------------------------------------------------------------- one record

  datatype Fault = SeqMismatch | PrevHashMismatch | SignatureInvalid | Raises(error: Error)

  /** The signature check on one record; it can raise before it answers. */
  function CheckSignature(c: Crypto, publicKey: Bytes, r: SignedRecord): Result<bool, Error> {
    var message :- EntryBytes(r.entry);
    match FromHex(r.signature)
    case None => Err(BadHex)
    case Some(signature) => Ok(Verify(c, publicKey, message, signature))
  }

  /** The library accepts the record's signature on the bytes of its entry. */
  ghost predicate SignedUnder(c: Crypto, publicKey: Bytes, r: SignedRecord) {
    && |publicKey| == 32
    && EntryBytes(r.entry).Ok? && FromHex(r.signature).Some? && |FromHex(r.signature).value| == 64
    && c.accepts(publicKey, EntryBytes(r.entry).value, FromHex(r.signature).value)
  }

  /** The check passes exactly for a signature the library accepts, and raises exactly where it cannot be asked. */
  lemma SignatureExact(c: Crypto, publicKey: Bytes, r: SignedRecord)
    ensures CheckSignature(c, publicKey, r) == Ok(true) <==> SignedUnder(c, publicKey, r)
    ensures CheckSignature(c, publicKey, r) == Ok(false) <==>
              Writable(r) && FromHex(r.signature).Some? && !SignedUnder(c, publicKey, r)
    ensures CheckSignature(c, publicKey, r) == Err(Canonicalization) <==> !Writable(r)
    ensures CheckSignature(c, publicKey, r) == Err(BadHex) <==> Writable(r) && FromHex(r.signature).None?
  {
    hide EntryDict, FromHex;
    EntryWellFormed(r.entry);
  }

  /** The first check a record fails at position `i`, in the order the checks are made. */
  function FaultOf(c: Crypto, publicKey: Bytes, r: SignedRecord, i: nat, expectedPrev: string): Option<Fault> {
    if r.entry.seqNo != i then Some(SeqMismatch)
    else if r.entry.prevHash != expectedPrev then Some(PrevHashMismatch)
    else match CheckSignature(c, publicKey, r)
      case Err(e) => Some(Raises(e))
      case Ok(valid) => if valid then None else Some(SignatureInvalid)
  }

  function FaultAt(c: Crypto, publicKey: Bytes, log: seq<SignedRecord>, i: nat): Option<Fault>
    requires i < |log|
  {
    FaultOf(c, publicKey, log[i], i, Head(c, log[..i]))
  }

  /** Record `i` carries its index, the hash of its predecessor and a valid signature. */
  predicate Linked(c: Crypto, publicKey: Bytes, log: seq<SignedRecord>, i: nat)
    requires i < |log|
  {
    && log[i].entry.seqNo == i
    && log[i].entry.prevHash == Head(c, log[..i])
    && CheckSignature(c, publicKey, log[i]) == Ok(true)
  }

  /** The chain relation. */
  ghost predicate ChainValid(c: Crypto, publicKey: Bytes, log: seq<SignedRecord>) {
    forall i: nat | i < |log| :: Linked(c, publicKey, log, i)
  }

  lemma LinkedIsFaultless(c: Crypto, publicKey: Bytes, log: seq<SignedRecord>, i: nat)
    requires i < |log|
    ensures FaultAt(c, publicKey, log, i).None? <==> Linked(c, publicKey, log, i)
  {
    hide CheckSignature, RecordHash;
  }

  /** Being linked looks only at the records up to the index. */
  lemma LinkedInPrefix(c: Crypto, publicKey: Bytes, log: seq<SignedRecord>, more: seq<SignedRecord>, i: nat)
    requires i < |log| && log <= more
    ensures Linked(c, publicKey, more, i) <==> Linked(c, publicKey, log, i)
  {
    hide CheckSignature, RecordHash;
    assert more[..i] == log[..i];
  }

  lemma SignatureNeedsWritable(c: Crypto, publicKey: Bytes, r: SignedRecord)
    requires CheckSignature(c, publicKey, r).Ok?
    ensures Writable(r)
  {
    EntryWellFormed(r.entry);
  }

  lemma ValidIsWritable(c: Crypto, publicKey: Bytes, log: seq<SignedRecord>)
    requires ChainValid(c, publicKey, log)
    ensures forall r | r in log :: Writable(r)
  {
    hide CheckSignature, RecordHash;
    forall r | r in log ensures Writable(r) {
      var i: nat :| i < |log| && log[i] == r;
      assert Linked(c, publicKey, log, i);
      SignatureNeedsWritable(c, publicKey, r);
    }
  }

  lemma LastIsLinked(c: Crypto, publicKey: Bytes, log: seq<SignedRecord>)
    requires ChainValid(c, publicKey, log) && log != []
    ensures var m := |log| - 1;
            log[m].entry.seqNo == m && log[m].entry.prevHash == Head(c, log[..m]) && Writable(log[m])
  {
    hide CheckSignature, RecordHash;
    assert Linked(c, publicKey, log, |log| - 1);
    SignatureNeedsWritable(c, publicKey, log[|log| - 1]);
  }

  lemma ValidPrefix(c: Crypto, publicKey: Bytes, log: seq<SignedRecord>, n: nat)
    requires n <= |log| && ChainValid(c, publicKey, log)
    ensures ChainValid(c, publicKey, log[..n])
  {
    hide Linked;
    forall i: nat | i < n ensures Linked(c, publicKey, log[..n], i) {
      LinkedInPrefix(c, publicKey, log[..n], log, i);
    }
  }

  lemma ValidSnoc(c: Crypto, publicKey: Bytes, log: seq<SignedRecord>, r: SignedRecord)
    requires ChainValid(c, publicKey, log) && Linked(c, publicKey, log + [r], |log|)
    ensures ChainValid(c, publicKey, log + [r])
  {
    hide Linked;
    forall i: nat | i <= |log| ensures Linked(c, publicKey, log + [r], i) {
      if i < |log| { LinkedInPrefix(c, publicKey, log, log + [r], i); }
    }
  }

  lemma ZeroTextIsZeroHash(s: string)
    ensures IsZeroText(s) <==> s == ZERO_HASH_HEX
  {
    hide Hex;
    ZeroHashSpelled();
    if IsZeroText(s) {
      forall i | 0 <= i < 64 ensures s[i] == ZERO_HASH_HEX[i] {
        assert s[i] in s && ZERO_HASH_HEX[i] in ZERO_HASH_HEX;
      }
    }
  }

  /** The hash the record at `i` must carry: 64 zeros at first, then the hash of the line before. */
  ghost predicate Follows(c: Crypto, log: seq<SignedRecord>, i: nat)
    requires i < |log|
  {
    if i == 0 then IsZeroText(log[i].entry.prevHash)
    else log[i].entry.prevHash == Hex(c.digest(RecordBytes(log[i - 1])))
  }

  lemma FollowsExact(c: Crypto, log: seq<SignedRecord>, i: nat)
    requires i < |log|
    ensures Follows(c, log, i) <==> log[i].entry.prevHash == Head(c, log[..i])
  {
    hide RecordBytes, Hex;
    ZeroTextIsZeroHash(log[i].entry.prevHash);
  }

  /** The chain relation, record by record. */
  lemma ChainValidExact(c: Crypto, publicKey: Bytes, log: seq<SignedRecord>)
    ensures ChainValid(c, publicKey, log) <==>
              forall i: nat | i < |log| ::
                log[i].entry.seqNo == i && Follows(c, log, i) && SignedUnder(c, publicKey, log[i])
  {
    hide CheckSignature, Follows, SignedUnder, Head;
    forall i: nat | i < |log|
      ensures Linked(c, publicKey, log, i) <==>
                log[i].entry.seqNo == i && Follows(c, log, i) && SignedUnder(c, publicKey, log[i])
    {
      FollowsExact(c, log, i);
      SignatureExact(c, publicKey, log[i]);
    }
  }

  // ---------------------------------------------------------------- the verdict

  /** What `iter_records` yields: records, then perhaps an exception instead of the end. */
  datatype Stream = Stream(records: seq<SignedRecord>, failure: Option<Error>)

  function RecordsOf(lines: seq<string>): Stream {
    if lines == [] then Stream([], None)
    else match RecordFromLine(lines[0])
      case Err(e) => Stream([], Some(e))
      case Ok(r) =>
        var rest := RecordsOf(lines[1..]);
        Stream([r] + rest.records, rest.failure)
  }

  /** The records are read from the front lines, up to the first line that is not one, which gives the exception. */
  lemma {:induction false} RecordsExact(lines: seq<string>)
    ensures var s := RecordsOf(lines);
            && |s.records| <= |lines|
            && (forall i | 0 <= i < |s.records| :: RecordFromLine(lines[i]) == Ok(s.records[i]))
            && (s.failure.None? ==> |s.records| == |lines|)
            && (s.failure.Some? ==>
                  |s.records| < |lines| && RecordFromLine(lines[|s.records|]) == Err(s.failure.value))
  {
    hide RecordFromLine;
    if lines != [] {
      RecordsExact(lines[1..]);
    }
  }

  datatype ChainResult =
    | Verdict(ok: bool, chainLength: nat, firstFailureIndex: Option<nat>, reason: Option<Fault>)
    | Raised(at: nat, error: Error)

  function Report(i: nat, f: Fault): ChainResult {
    if f.Raises? then Raised(i, f.error) else Verdict(false, i + 1, Some(i), Some(f))
  }

  function FirstFault(c: Crypto, publicKey: Bytes, log: seq<SignedRecord>, i: nat): Option<(nat, Fault)>
    requires i <= |log|
    decreases |log| - i
  {
    if i == |log| then None
    else match FaultAt(c, publicKey, log, i)
      case Some(f) => Some((i, f))
      case None => FirstFault(c, publicKey, log, i + 1)
  }

  /** The specification of `verify_chain` on what the log yields. */
  function ChainVerdict(c: Crypto, publicKey: Bytes, s: Stream): ChainResult {
    match FirstFault(c, publicKey, s.records, 0)
    case Some((i, f)) => Report(i, f)
    case None =>
      match s.failure
      case Some(e) => Raised(|s.records|, e)
      case None => Verdict(true, |s.records|, None, None)
  }

  /** `i` is the least failing index, and `f` the first check that fails there. */
  ghost predicate FailsFirst(c: Crypto, publicKey: Bytes, log: seq<SignedRecord>, i: nat, f: Fault) {
    i < |log| && FaultAt(c, publicKey, log, i) == Some(f) && ChainValid(c, publicKey, log[..i])
  }

  lemma {:induction false} FirstFaultIsLeast(c: Crypto, publicKey: Bytes, log: seq<SignedRecord>, i: nat)
    requires i <= |log| && ChainValid(c, publicKey, log[..i])
    ensures match FirstFault(c, publicKey, log, i)
            case None => ChainValid(c, publicKey, log)
            case Some((j, f)) => FailsFirst(c, publicKey, log, j, f)
    decreases |log| - i
  {
    hide Linked, FaultAt;
    if i == |log| {
      assert log[..i] == log;
    } else if FaultAt(c, publicKey, log, i).None? {
      ExtendValid(c, publicKey, log, i);
      FirstFaultIsLeast(c, publicKey, log, i + 1);
    }
  }

  lemma ExtendValid(c: Crypto, publicKey: Bytes, log: seq<SignedRecord>, i: nat)
    requires i < |log| && ChainValid(c, publicKey, log[..i]) && FaultAt(c, publicKey, log, i).None?
    ensures ChainValid(c, publicKey, log[..i + 1])
  {
    hide Linked, FaultAt;
    LinkedIsFaultless(c, publicKey, log, i);
    assert log[..i + 1] == log[..i] + [log[i]];
    LinkedInPrefix(c, publicKey, log[..i + 1], log, i);
    ValidSnoc(c, publicKey, log[..i], log[i]);
  }

  /** No two indices can both be the first to fail. */
  lemma FailsFirstUnique(c: Crypto, publicKey: Bytes, log: seq<SignedRecord>, i: nat, f: Fault)
    requires FailsFirst(c, publicKey, log, i, f)
    ensures FirstFault(c, publicKey, log, 0) == Some((i, f)) && !ChainValid(c, publicKey, log)
  {
    hide Linked, FaultAt;
    FirstFaultIsLeast(c, publicKey, log, 0);
    if ChainValid(c, publicKey, log) {
      NoFaultInside(c, publicKey, log, i);
      assert false;
    }
    var (j, g) := FirstFault(c, publicKey, log, 0).value;
    if j < i { NoFaultBefore(c, publicKey, log, i, j); }
    if i < j { NoFaultBefore(c, publicKey, log, j, i); }
  }

  lemma NoFaultInside(c: Crypto, publicKey: Bytes, log: seq<SignedRecord>, i: nat)
    requires ChainValid(c, publicKey, log) && i < |log|
    ensures FaultAt(c, publicKey, log, i).None?
  {
    hide Linked, FaultAt;
    LinkedIsFaultless(c, publicKey, log, i);
  }

  lemma NoFaultBefore(c: Crypto, publicKey: Bytes, log: seq<SignedRecord>, n: nat, i: nat)
    requires n <= |log| && ChainValid(c, publicKey, log[..n]) && i < n
    ensures FaultAt(c, publicKey, log, i).None?
  {
    hide Linked, FaultAt;
    LinkedInPrefix(c, publicKey, log[..n], log, i);
    LinkedIsFaultless(c, publicKey, log, i);
  }

  lemma VerdictReports(c: Crypto, publicKey: Bytes, log: seq<SignedRecord>)
    ensures ChainVerdict(c, publicKey, Stream(log, None)) == Verdict(true, |log|, None, None)
            <==> ChainValid(c, publicKey, log)
    ensures forall i: nat, f: Fault ::
              FailsFirst(c, publicKey, log, i, f) <==> ChainVerdict(c, publicKey, Stream(log, None)) == Report(i, f)
  {
    hide Linked, FaultAt;
    assert log[..0] == [];
    FirstFaultIsLeast(c, publicKey, log, 0);
    forall i: nat, f: Fault | FailsFirst(c, publicKey, log, i, f)
      ensures FirstFault(c, publicKey, log, 0) == Some((i, f)) && !ChainValid(c, publicKey, log)
    {
      FailsFirstUnique(c, publicKey, log, i, f);
    }
  }

  /** What each reason says of record `i`; the checks made before it have passed. */
  ghost predicate Explains(c: Crypto, publicKey: Bytes, log: seq<SignedRecord>, i: nat, f: Fault)
    requires i < |log|
  {
    match f
    case SeqMismatch => log[i].entry.seqNo != i
    case PrevHashMismatch => log[i].entry.seqNo == i && !Follows(c, log, i)
    case SignatureInvalid =>
      && log[i].entry.seqNo == i && Follows(c, log, i)
      && Writable(log[i]) && FromHex(log[i].signature).Some? && !SignedUnder(c, publicKey, log[i])
    case Raises(e) =>
      && log[i].entry.seqNo == i && Follows(c, log, i)
      && ((e == Canonicalization && !Writable(log[i]))
          || (e == BadHex && Writable(log[i]) && FromHex(log[i].signature).None?))
  }

  lemma FaultExplained(c: Crypto, publicKey: Bytes, log: seq<SignedRecord>, i: nat, f: Fault)
    requires i < |log|
    ensures FaultAt(c, publicKey, log, i) == Some(f) <==> Explains(c, publicKey, log, i, f)
  {
    hide CheckSignature, Follows, SignedUnder, Head, Writable, FromHex;
    FollowsExact(c, log, i);
    SignatureExact(c, publicKey, log[i]);
    OnlyTwoErrors(c, publicKey, log[i]);
  }

  lemma OnlyTwoErrors(c: Crypto, publicKey: Bytes, r: SignedRecord)
    ensures CheckSignature(c, publicKey, r).Ok? || CheckSignature(c, publicKey, r).error in {Canonicalization, BadHex}
  {
  }

  /** The walk stopped at record `i`, with a verdict or an exception. */
  ghost predicate StopsAt(v: ChainResult, i: nat) {
    || (v.Verdict? && !v.ok && v.chainLength == i + 1 && v.firstFailureIndex == Some(i) && v.reason.Some?)
    || (v.Raised? && v.at == i)
  }

  /**
   * `verify_chain` decides the chain relation; otherwise it names the least failing index, with that index plus one as
   * the length, and the first check the record there fails, or raises what that record or the line after the last
   * record raises.
   */
  lemma VerdictExact(c: Crypto, publicKey: Bytes, s: Stream)
    ensures var v, log := ChainVerdict(c, publicKey, s), s.records;
            && (v == Verdict(true, |log|, None, None) <==> ChainValid(c, publicKey, log) && s.failure.None?)
            && (v.Verdict? && v.ok ==> v == Verdict(true, |log|, None, None))
            && (v.Verdict? && !v.ok ==>
                  v.firstFailureIndex.Some? && v.reason.Some? && !v.reason.value.Raises? &&
                  var i := v.firstFailureIndex.value;
                  i < |log| && v.chainLength == i + 1 && ChainValid(c, publicKey, log[..i])
                  && Explains(c, publicKey, log, i, v.reason.value))
            && (v.Raised? ==>
                  v.at <= |log| && ChainValid(c, publicKey, log[..v.at]) &&
                  if v.at < |log| then Explains(c, publicKey, log, v.at, Raises(v.error))
                  else s.failure == Some(v.error))
    ensures forall i: nat, f: Fault
              | i < |s.records| && ChainValid(c, publicKey, s.records[..i])
                && Explains(c, publicKey, s.records, i, f) ::
              ChainVerdict(c, publicKey, s)
              == if f.Raises? then Raised(i, f.error) else Verdict(false, i + 1, Some(i), Some(f))
    ensures ChainValid(c, publicKey, s.records) && s.failure.Some? ==>
              ChainVerdict(c, publicKey, s) == Raised(|s.records|, s.failure.value)
  {
    hide Linked, FaultAt, Explains, ChainValid;
    var log := s.records;
    assert log[..0] == [] && log[..|log|] == log;
    assert ChainValid(c, publicKey, []) by { NothingIsValid(c, publicKey); }
    FirstFaultIsLeast(c, publicKey, log, 0);
    match FirstFault(c, publicKey, log, 0) {
      case None => assert ChainValid(c, publicKey, log);
      case Some((i, f)) =>
        FaultExplained(c, publicKey, log, i, f);
        FailsFirstUnique(c, publicKey, log, i, f);
    }
    forall i: nat, f: Fault | i < |log| && ChainValid(c, publicKey, log[..i]) && Explains(c, publicKey, log, i, f)
      ensures FirstFault(c, publicKey, log, 0) == Some((i, f))
    {
      FaultExplained(c, publicKey, log, i, f);
      FailsFirstUnique(c, publicKey, log, i, f);
    }
  }

  lemma NothingIsValid(c: Crypto, publicKey: Bytes)
    ensures ChainValid(c, publicKey, [])
  {
  }

  /** `verify_chain` raises at a record only for a timestamp `dumps` refuses or a signature that is not hex. */
  lemma RaisesExactly(c: Crypto, publicKey: Bytes, log: seq<SignedRecord>, i: nat, e: Error)
    requires i < |log|
    ensures FaultAt(c, publicKey, log, i) == Some(Raises(e)) <==>
              log[i].entry.seqNo == i && log[i].entry.prevHash == Head(c, log[..i]) &&
              ((e == Canonicalization && !Writable(log[i]))
               || (e == BadHex && Writable(log[i]) && FromHex(log[i].signature).None?))
  {
    hide EntryDict, RecordHash, FromHex;
    EntryWellFormed(log[i].entry);
  }

  /** A failure at `i` persists under every extension, and every prefix up to `i` still passes. */
  lemma FailurePersists(c: Crypto, publicKey: Bytes, log: seq<SignedRecord>, more: seq<SignedRecord>,
                        failure: Option<Error>, i: nat)
    requires StopsAt(ChainVerdict(c, publicKey, Stream(log, None)), i)
    ensures ChainVerdict(c, publicKey, Stream(log + more, failure)) == ChainVerdict(c, publicKey, Stream(log, None))
    ensures forall n: nat | n <= i ::
              n <= |log| && ChainVerdict(c, publicKey, Stream(log[..n], None)) == Verdict(true, n, None, None)
  {
    hide FaultAt, Linked, ChainValid;
    assert log[..0] == [] && ChainValid(c, publicKey, []) by { NothingIsValid(c, publicKey); }
    FirstFaultIsLeast(c, publicKey, log, 0);
    var f := FirstFault(c, publicKey, log, 0).value.1;
    assert (log + more)[..i] == log[..i];
    FaultAtGrows(c, publicKey, log, more, i);
    assert FailsFirst(c, publicKey, log + more, i, f);
    FailsFirstUnique(c, publicKey, log + more, i, f);
    forall n: nat | n <= i
      ensures n <= |log| && ChainVerdict(c, publicKey, Stream(log[..n], None)) == Verdict(true, n, None, None)
    {
      assert log[..i][..n] == log[..n];
      ValidPrefix(c, publicKey, log[..i], n);
      VerdictReports(c, publicKey, log[..n]);
    }
  }

  lemma FaultAtGrows(c: Crypto, publicKey: Bytes, log: seq<SignedRecord>, more: seq<SignedRecord>, i: nat)
    requires i < |log|
    ensures FaultAt(c, publicKey, log + more, i) == FaultAt(c, publicKey, log, i)
  {
    hide CheckSignature, RecordHash;
    assert (log + more)[..i] == log[..i];
  }

  // ---------------------------------------------------------------- the loop

  lemma RecordsCons(line: string, rest: seq<string>)
    ensures RecordsOf([line] + rest) ==
            match RecordFromLine(line)
            case Err(e) => Stream([], Some(e))
            case Ok(r) => Stream([r] + RecordsOf(rest).records, RecordsOf(rest).failure)
  {
    hide RecordFromLine;
    assert ([line] + rest)[1..] == rest;
  }

  lemma {:induction false} RecordsSplit(a: seq<string>, b: seq<string>)
    requires RecordsOf(a).failure.None?
    ensures RecordsOf(a + b) == Stream(RecordsOf(a).records + RecordsOf(b).records, RecordsOf(b).failure)
  {
    hide RecordFromLine, RecordsOf;
    if a == [] {
      NoLines();
      assert a + b == b;
    } else {
      var line, rest := a[0], a[1..];
      assert a == [line] + rest && a + b == [line] + (rest + b);
      RecordsCons(line, rest);
      RecordsSplit(rest, b);
      RecordsCons(line, rest + b);
    }
  }

  lemma NoLines()
    ensures RecordsOf([]) == Stream([], None)
  {
  }

  /** One more line that parses: what has been seen grows, and is the front of what the whole log yields. */
  lemma LineParses(before: seq<string>, line: string, after: seq<string>, r: SignedRecord)
    requires RecordsOf(before).failure.None? && RecordFromLine(line) == Ok(r)
    ensures RecordsOf(before + [line]) == Stream(RecordsOf(before).records + [r], None)
    ensures RecordsOf(before).records + [r] <= RecordsOf(before + ([line] + after)).records
  {
    hide RecordFromLine, RecordsOf;
    NoLines();
    RecordsSplit(before, [line] + after);
    RecordsSplit(before, [line]);
    RecordsCons(line, after);
    RecordsCons(line, []);
    assert [line] + [] == [line];
  }

  /** A line that does not parse ends the records. */
  lemma LineFails(before: seq<string>, line: string, after: seq<string>, e: Error)
    requires RecordsOf(before).failure.None? && RecordFromLine(line) == Err(e)
    ensures RecordsOf(before + ([line] + after)) == Stream(RecordsOf(before).records, Some(e))
  {
    hide RecordFromLine, RecordsOf;
    RecordsSplit(before, [line] + after);
    RecordsCons(line, after);
  }

  lemma RecordsStep(lines: seq<string>, i: nat, seen: seq<SignedRecord>, r: SignedRecord)
    requires i < |lines| && |seen| == i
    requires RecordsOf(lines[..i]) == Stream(seen, None) && RecordFromLine(lines[i]) == Ok(r)
    ensures RecordsOf(lines[..i + 1]) == Stream(seen + [r], None) && (seen + [r])[..i] == seen
    ensures var all := RecordsOf(lines).records; i < |all| && all[i] == r && all[..i] == seen
  {
    hide RecordFromLine, RecordsOf;
    assert lines == lines[..i] + ([lines[i]] + lines[i + 1..]);
    assert lines[..i + 1] == lines[..i] + [lines[i]];
    LineParses(lines[..i], lines[i], lines[i + 1..], r);
    assert (seen + [r])[i] == r;
  }

  lemma RecordsEnd(lines: seq<string>, i: nat, e: Error)
    requires i < |lines| && RecordsOf(lines[..i]).failure.None? && RecordFromLine(lines[i]) == Err(e)
    ensures RecordsOf(lines) == Stream(RecordsOf(lines[..i]).records, Some(e))
  {
    hide RecordFromLine, RecordsOf;
    assert lines == lines[..i] + ([lines[i]] + lines[i + 1..]);
    LineFails(lines[..i], lines[i], lines[i + 1..], e);
  }

  /** `verify_chain` over the stripped, non-blank lines of the log. */
  method VerifyChain(c: Crypto, publicKey: Bytes, lines: seq<string>) returns (r: ChainResult)
    ensures r == ChainVerdict(c, publicKey, RecordsOf(lines))
  {
    assert RecordsOf(lines[..0]) == Stream([], None) && Head(c, []) == ZERO_HASH_HEX;
    hide RecordFromLine, FaultOf, FaultAt, FirstFault, RecordHash, Linked, RecordsOf, Head;
    var expectedPrev := ZERO_HASH_HEX;
    var count := 0;
    ghost var seen: seq<SignedRecord> := [];
    for i := 0 to |lines|
      invariant RecordsOf(lines[..i]) == Stream(seen, None)
      invariant count == i == |seen|
      invariant expectedPrev == Head(c, seen)
      invariant ChainValid(c, publicKey, seen)
    {
      match RecordFromLine(lines[i]) {
        case Err(e) =>
          RecordsEnd(lines, i, e);
          VerdictOfPrefix(c, publicKey, seen);
          return Raised(i, e);
        case Ok(record) =>
          count := i + 1;
          RecordsStep(lines, i, seen, record);
          match FaultOf(c, publicKey, record, i, expectedPrev) {
            case Some(fault) =>
              FaultHere(c, publicKey, RecordsOf(lines).records, i, record, expectedPrev, fault);
              if fault.Raises? { return Raised(i, fault.error); }
              return Verdict(false, count, Some(i), Some(fault));
            case None =>
              Faultless(c, publicKey, seen + [record], i, record, expectedPrev);
              expectedPrev := RecordHash(c, record);
              seen := seen + [record];
          }
      }
    }
    assert lines[..|lines|] == lines;
    VerdictOfPrefix(c, publicKey, seen);
    return Verdict(true, count, None, None);
  }

  lemma FaultHere(c: Crypto, publicKey: Bytes, all: seq<SignedRecord>, i: nat, r: SignedRecord,
                  expectedPrev: string, f: Fault)
    requires i < |all| && all[i] == r && ChainValid(c, publicKey, all[..i]) && expectedPrev == Head(c, all[..i])
    requires FaultOf(c, publicKey, r, i, expectedPrev) == Some(f)
    ensures FirstFault(c, publicKey, all, 0) == Some((i, f))
  {
    hide FaultOf, Linked, RecordHash;
    FailsFirstUnique(c, publicKey, all, i, f);
  }

  lemma Faultless(c: Crypto, publicKey: Bytes, next: seq<SignedRecord>, i: nat, r: SignedRecord, expectedPrev: string)
    requires |next| == i + 1 && next[i] == r
    requires ChainValid(c, publicKey, next[..i]) && expectedPrev == Head(c, next[..i])
    requires FaultOf(c, publicKey, r, i, expectedPrev) == None
    ensures ChainValid(c, publicKey, next) && Head(c, next) == RecordHash(c, r)
  {
    hide FaultOf, Linked, RecordHash;
    ExtendValid(c, publicKey, next, i);
    assert next[..i + 1] == next;
  }

  lemma VerdictOfPrefix(c: Crypto, publicKey: Bytes, log: seq<SignedRecord>)
    requires ChainValid(c, publicKey, log)
    ensures FirstFault(c, publicKey, log, 0) == None
  {
    hide Linked, FaultAt;
    assert log[..0] == [];
    FirstFaultIsLeast(c, publicKey, log, 0);
    match FirstFault(c, publicKey, log, 0)
    case None =>
    case Some((i, f)) => FailsFirstUnique(c, publicKey, log, i, f);
  }
}
