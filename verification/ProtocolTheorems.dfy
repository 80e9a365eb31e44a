/** What the invariant means for writers, readers and auditors, over every run. */
module ProtocolTheorems {
  import opened Wrappers
  import opened ByteStrings
  import opened Json
  import opened Crypto
  import opened Entry
  import opened Chain
  import opened Append
  import opened Framing
  import opened Protocol
  import opened ProtocolSafety
  import Receipts
  import Canonical

  // ---------------------------------------------------------------- the file

  lemma HonestFileVerifies(c: Crypto, key: Bytes, log: seq<SignedRecord>)
    requires ChainValid(c, c.publicOf(key), log)
    ensures TextLines(FileOf(log)) == Ok(LinesFor(log)) && RecordsOf(LinesFor(log)) == Stream(log, None)
    ensures ChainVerdict(c, c.publicOf(key), RecordsOf(LinesFor(log))) == Verdict(true, |log|, None, None)
  {
    hide ChainVerdict, FileOf, Linked;
    ValidIsWritable(c, c.publicOf(key), log);
    FileReadsBack(log);
    VerdictExact(c, c.publicOf(key), Stream(log, None));
  }

  /** Every interleaving keeps the file a gap-free, linked, signed chain of exactly the records written. */
  lemma EveryInterleavingKeepsTheChain(c: Crypto, key: Bytes, schedule: seq<Action>)
    requires OneKey(key, schedule)
    ensures var s := Exec(c, EMPTY, schedule);
            && s.file == FileOf(s.log)
            && TextLines(s.file) == Ok(LinesFor(s.log))
            && ChainVerdict(c, c.publicOf(key), RecordsOf(LinesFor(s.log))) == Verdict(true, |s.log|, None, None)
  {
    hide Exec, ChainVerdict, FileOf, ChainValid;
    EveryRun(c, key, schedule);
    HonestFileVerifies(c, key, Exec(c, EMPTY, schedule).log);
  }

  /** A finished append owns exactly the record its receipt names; a failed one owns none; neither holds a lock. */
  lemma FinishedAppend(c: Crypto, key: Bytes, schedule: seq<Action>, w: nat)
    requires OneKey(key, schedule)
    requires var s := Exec(c, EMPTY, schedule); w < |s.writers| && s.writers[w].pc.Done?
    ensures var s := Exec(c, EMPTY, schedule);
            && |s.owners| == |s.log|
            && s.flock != Some(w)
            && (forall obj | obj in s.objectLocks :: s.objectLocks[obj] != w)
            && match s.writers[w].pc.outcome
               case Failed(_) => w !in s.owners
               case Returned(r, receipt) =>
                 && receipt == IssueReceipt(c, s.writers[w].job.serverId, r)
                 && receipt.serverId == s.writers[w].job.serverId && receipt.signature == r.signature
                 && receipt.entryHash == Hex(c.digest(RecordBytes(r)))
                 && 0 <= receipt.seqNo < |s.log| && s.log[receipt.seqNo] == r
                 && (forall i: nat | i < |s.owners| :: s.owners[i] == w <==> i == receipt.seqNo)
                 && Attests(c, r, s.writers[w].job.call.params, s.writers[w].job.call.result)
                 && Describes(c, r, s.writers[w].job.serverId, s.writers[w].job.call)
  {
    hide Exec, ChainValid, FileOf, Attests, Describes, ObserversOk;
    EveryRun(c, key, schedule);
    assert WriterOk(c, key, Exec(c, EMPTY, schedule), w);
  }

  /** At most one writer is between taking and dropping the file lock. */
  lemma MutualExclusion(c: Crypto, key: Bytes, schedule: seq<Action>, v: nat, w: nat)
    requires OneKey(key, schedule)
    requires var s := Exec(c, EMPTY, schedule);
             v < |s.writers| && w < |s.writers| && HoldsFile(s.writers[v].pc) && HoldsFile(s.writers[w].pc)
    ensures v == w
  {
    hide Exec, FileOk, Ledger, WritersOk, ObserversOk;
    EveryRun(c, key, schedule);
  }

  // ---------------------------------------------------------------- time

  lemma {:induction false} ExecConcat(c: Crypto, s: State, a: seq<Action>, b: seq<Action>)
    ensures Exec(c, s, a + b) == Exec(c, Exec(c, s, a), b)
    decreases a
  {
    hide Apply;
    if a == [] {
      assert a + b == b;
    } else {
      assert (a + b)[1..] == a[1..] + b;
      ExecConcat(c, Apply(c, s, a[0]), a[1..], b);
    }
  }

  lemma ExecOne(c: Crypto, s: State, a: Action)
    ensures Exec(c, s, [a]) == Apply(c, s, a)
  {
    hide Apply;
    assert [a][1..] == [];
  }

  lemma ExecSnoc(c: Crypto, s: State, schedule: seq<Action>, a: Action)
    ensures Exec(c, s, schedule + [a]) == Apply(c, Exec(c, s, schedule), a)
  {
    hide Apply;
    ExecConcat(c, s, schedule, [a]);
    ExecOne(c, Exec(c, s, schedule), a);
  }

  /** No record moved or removed, no finished call reopened. */
  ghost predicate Grows(s: State, t: State) {
    && s.log <= t.log && s.owners <= t.owners
    && |s.writers| <= |t.writers|
    && (forall w: nat | w < |s.writers| && s.writers[w].pc.Done? :: t.writers[w] == s.writers[w])
  }

  lemma AdvanceGrows(c: Crypto, s: State, w: nat)
    requires w < |s.writers|
    ensures Grows(s, AdvanceWriter(c, s, w))
  {
    hide NextRecord, ScanLast, HashPayloads, RecordLine, IssueReceipt;
  }

  lemma KillGrows(s: State, obj: nat)
    ensures Grows(s, KillObject(s, obj))
  {
  }

  lemma StepGrows(c: Crypto, s: State, a: Action)
    ensures Grows(s, Apply(c, s, a))
  {
    hide AdvanceWriter, KillObject, Finish, ReadSome;
    match a
    case Advance(w) => if w < |s.writers| { AdvanceGrows(c, s, w); }
    case Kill(obj) => KillGrows(s, obj);
    case _ =>
  }

  /** Records are never moved or removed, and finished calls stay finished. */
  lemma {:induction false} RunGrows(c: Crypto, s: State, schedule: seq<Action>)
    ensures Grows(s, Exec(c, s, schedule))
    decreases schedule
  {
    hide Apply;
    if schedule != [] {
      StepGrows(c, s, schedule[0]);
      RunGrows(c, Apply(c, s, schedule[0]), schedule[1..]);
    }
  }

  /** A writer that has not been given the file lock. */
  ghost predicate NotBegun(s: State, w: nat) {
    w < |s.writers| ==> s.writers[w].pc.Start? || s.writers[w].pc.Hashed? || s.writers[w].pc.ObjectLocked?
  }

  ghost predicate HasReturned(s: State, w: nat) {
    w < |s.writers| && s.writers[w].pc.Done? && s.writers[w].pc.outcome.Returned?
  }

  /**
   * Log order is real-time order: if one append has returned before another is given the file lock, then its record,
   * and the index its receipt names, come first.
   */
  lemma LogOrderIsTimeOrder(c: Crypto, key: Bytes, pre: seq<Action>, post: seq<Action>, v: nat, w: nat)
    requires OneKey(key, pre + post)
    requires HasReturned(Exec(c, EMPTY, pre), v) && NotBegun(Exec(c, EMPTY, pre), w)
    requires HasReturned(Exec(c, EMPTY, pre + post), w)
    ensures var s, t := Exec(c, EMPTY, pre), Exec(c, EMPTY, pre + post);
            && v < |t.writers| && t.writers[v] == s.writers[v]
            && s.writers[v].pc.outcome.receipt.seqNo < |s.log| <= t.writers[w].pc.outcome.receipt.seqNo
  {
    hide Exec, Grows, IssueReceipt, Attests, Describes, Inv, OneKey;
    var s, t := Exec(c, EMPTY, pre), Exec(c, EMPTY, pre + post);
    assert OneKey(key, pre) by { PrefixUsesKey(key, pre, post); }
    ExecConcat(c, EMPTY, pre, post);
    RunGrows(c, s, post);
    FinishedAppend(c, key, pre, v);
    FinishedAppend(c, key, pre + post, w);
    EveryRun(c, key, pre);
    OwnsNothingYet(c, key, s, w);
    GrowsKeeps(s, t, v);
    assert t.owners[t.writers[w].pc.outcome.receipt.seqNo] == w;
  }

  lemma PrefixUsesKey(key: Bytes, pre: seq<Action>, post: seq<Action>)
    requires OneKey(key, pre + post)
    ensures OneKey(key, pre)
  {
    forall a | a in pre ensures UsesKey(key, a) {
      assert a in pre + post;
    }
  }

  lemma OwnsNothingYet(c: Crypto, key: Bytes, s: State, w: nat)
    requires Inv(c, key, s) && NotBegun(s, w)
    ensures w !in s.owners
  {
    hide FileOk, Locks, ObserversOk, HashPayloads;
    if w < |s.writers| { assert WriterOk(c, key, s, w); }
  }

  lemma GrowsKeeps(s: State, t: State, v: nat)
    requires Grows(s, t) && v < |s.writers| && s.writers[v].pc.Done?
    ensures v < |t.writers| && t.writers[v] == s.writers[v] && s.owners <= t.owners
  {
  }

  // ---------------------------------------------------------------- receipts

  /** The call a finished writer made, if its payloads are dicts Python can hold. */
  ghost predicate Issued(s: State, w: nat, job: Job, r: SignedRecord, receipt: Receipt) {
    && w < |s.writers| && s.writers[w] == Writer(job, Done(Returned(r, receipt)))
    && WellFormed(job.call.params) && WellFormed(job.call.result)
  }

  /**
   * Every receipt issued is accepted in every later state, after any further appends, openings, kills and readers, for
   * the payloads of its call in any key order.
   */
  lemma ReceiptsArePermanent(c: Crypto, key: Bytes, schedule: seq<Action>, more: seq<Action>,
                             w: nat, job: Job, r: SignedRecord, receipt: Receipt, params: Json, result: Json)
    requires OneKey(key, schedule + more) && Issued(Exec(c, EMPTY, schedule), w, job, r, receipt)
    requires WellFormed(params) && WellFormed(result)
    requires Same(params, job.call.params) && Same(result, job.call.result)
    ensures var later := Exec(c, EMPTY, schedule + more);
            && TextLines(later.file).Ok?
            && Receipts.VerifyReceipt(c, receipt, params, result, c.publicOf(key), TextLines(later.file).value)
               == Receipts.Accepted
  {
    hide Exec, Inv, TextLines, Receipts.VerifyReceipt, Same, WellFormed;
    ExecConcat(c, EMPTY, schedule, more);
    RunGrows(c, Exec(c, EMPTY, schedule), more);
    EveryRun(c, key, schedule + more);
    ReceiptStands(c, key, Exec(c, EMPTY, schedule + more), w, job, r, receipt, params, result);
  }

  lemma ReceiptStands(c: Crypto, key: Bytes, s: State, w: nat, job: Job, r: SignedRecord, receipt: Receipt,
                      params: Json, result: Json)
    requires Inv(c, key, s) && Issued(s, w, job, r, receipt)
    requires WellFormed(params) && WellFormed(result)
    requires Same(params, job.call.params) && Same(result, job.call.result)
    ensures TextLines(s.file).Ok?
    ensures Receipts.VerifyReceipt(c, receipt, params, result, c.publicOf(key), TextLines(s.file).value)
            == Receipts.Accepted
  {
    hide ChainValid, FileOf, Attests, Describes, TextLines, Receipts.VerifyReceipt, Receipts.ReadRecord,
         Locks, Ledger, ObserversOk, Same, WellFormed, CheckSignature, RecordFromLine, IssueReceipt;
    assert WriterOk(c, key, s, w);
    HonestFileVerifies(c, key, s.log);
    RecordIsRead(c, key, s.log, r);
    Receipts.ReceiptAccepted(c, job.serverId, r, job.call.params, job.call.result, params, result,
                             c.publicOf(key), LinesFor(s.log));
  }

  lemma RecordIsRead(c: Crypto, key: Bytes, log: seq<SignedRecord>, r: SignedRecord)
    requires ChainValid(c, c.publicOf(key), log)
    requires 0 <= r.entry.seqNo < |log| && log[r.entry.seqNo] == r
    ensures Receipts.ReadRecord(LinesFor(log), r.entry.seqNo) == Ok(r)
    ensures CheckSignature(c, c.publicOf(key), r) == Ok(true) && Writable(r)
  {
    hide RecordFromLine, CheckSignature, RecordHash, Line;
    assert Linked(c, c.publicOf(key), log, r.entry.seqNo);
    ValidIsWritable(c, c.publicOf(key), log);
    LinesForIndex(log);
    LineRoundTrip(r);
  }

  /** A receipt issued in any run binds its call on any log whatever, or two inputs collide. */
  lemma IssuedReceiptsBind(c: Crypto, key: Bytes, schedule: seq<Action>,
                           w: nat, job: Job, r: SignedRecord, receipt: Receipt,
                           params: Json, result: Json, publicKey: Bytes, lines: seq<string>)
    requires OneKey(key, schedule) && Issued(Exec(c, EMPTY, schedule), w, job, r, receipt)
    requires WellFormed(params) && WellFormed(result)
    requires Receipts.VerifyReceipt(c, receipt, params, result, publicKey, lines) == Receipts.Accepted
    ensures Canonical.Dumps(params).Ok? && Canonical.Dumps(result).Ok? && Receipts.ReadRecord(lines, receipt.seqNo).Ok?
    ensures Canonical.Dumps(job.call.params).Ok? && Canonical.Dumps(job.call.result).Ok?
    ensures (Receipts.ReadRecord(lines, receipt.seqNo) == Ok(r)
             && Same(params, job.call.params) && Same(result, job.call.result))
            || Genuine(c, Receipts.Discrepancy(r, job.call.params, job.call.result,
                                               Receipts.ReadRecord(lines, receipt.seqNo).value, params, result))
  {
    hide Exec, ChainValid, FileOf, Describes, Receipts.VerifyReceipt, Locks, Ledger, ObserversOk,
         Same, WellFormed, Genuine, Receipts.ReadRecord, Canonical.Dumps, Receipts.Discrepancy;
    var s := Exec(c, EMPTY, schedule);
    EveryRun(c, key, schedule);
    assert WriterOk(c, key, s, w);
    ValidIsWritable(c, c.publicOf(key), s.log);
    Receipts.ReceiptBinds(c, job.serverId, r, job.call.params, job.call.result, params, result, publicKey, lines);
  }

  // ---------------------------------------------------------------- readers that take no lock

  /**
   * `verify_chain` running beside writers never reports a failure: at end of file it accepts the log as it stood then,
   * and before that the complete lines it holds are the first records of the log.
   */
  lemma ReadersNeverMisjudge(c: Crypto, key: Bytes, schedule: seq<Action>, o: nat)
    requires OneKey(key, schedule) && o < |Exec(c, EMPTY, schedule).observers|
    ensures match Exec(c, EMPTY, schedule).observers[o]
            case Verified(got, length) =>
              && TextLines(got).Ok?
              && length <= |Exec(c, EMPTY, schedule).log|
              && TextLines(got).value == LinesFor(Exec(c, EMPTY, schedule).log[..length])
              && ChainVerdict(c, c.publicOf(key), RecordsOf(TextLines(got).value)) == Verdict(true, length, None, None)
            case Verifying(got) =>
              && TextLines(CompletePart(got)).Ok?
              && exists n: nat ::
                   && n <= |Exec(c, EMPTY, schedule).log|
                   && TextLines(CompletePart(got)).value == LinesFor(Exec(c, EMPTY, schedule).log[..n])
                   && ChainVerdict(c, c.publicOf(key), RecordsOf(TextLines(CompletePart(got)).value))
                      == Verdict(true, n, None, None)
            case _ => true
  {
    hide Exec, FileOf, TextLines, ChainVerdict, Locks, Ledger, WritersOk, ChainValid, RecordsOf, CompletePart;
    var s := Exec(c, EMPTY, schedule);
    EveryRun(c, key, schedule);
    assert ObserverOk(c, key, s, s.observers[o]);
    match s.observers[o]
    case Verified(got, length) =>
      ValidPrefix(c, c.publicOf(key), s.log, length);
      HonestFileVerifies(c, key, s.log[..length]);
    case Verifying(got) =>
      var n := PartialRead(s.log, got);
      ValidPrefix(c, c.publicOf(key), s.log, n);
      HonestFileVerifies(c, key, s.log[..n]);
    case _ =>
  }

  /** The snapshot is the log of the very state in which the reader met the end of the file. */
  lemma EndOfFileIsNow(c: Crypto, key: Bytes, s: State, o: nat)
    requires Inv(c, key, s) && o < |s.observers| && s.observers[o].Verifying? && |s.observers[o].got| == |s.file|
    ensures Apply(c, s, AtEof(o)).observers[o] == Verified(s.file, |s.log|)
  {
    hide FileOf, ChainValid, WritersOk, Locks, Ledger;
    assert ObserverOk(c, key, s, s.observers[o]);
    assert s.observers[o].got == s.file;
  }
}
