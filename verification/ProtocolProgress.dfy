/** No run gets stuck, and a writer left alone does what `append` does. */
module ProtocolProgress {
  import opened Wrappers
  import opened Errors
  import opened ByteStrings
  import opened Crypto
  import opened Entry
  import opened Append
  import opened Framing
  import opened Protocol
  import opened ProtocolSafety

  // ---------------------------------------------------------------- no deadlock

  /** How many steps a writer still takes when nothing blocks it. */
  function StepsLeft(pc: Pc): nat {
    match pc
    case Start => 8
    case Hashed(_) => 7
    case ObjectLocked(_) => 6
    case FileLocked(_) => 5
    case Scanned(_, _) => 4
    case Signed(_, _) => 3
    case Written(_) => 2
    case Raising(_) => 2
    case Unlocked(_) => 1
    case Done(_) => 0
    case Killed => 0
  }

  function TotalLeft(ws: seq<Writer>): nat {
    if ws == [] then 0 else StepsLeft(ws[0].pc) + TotalLeft(ws[1..])
  }

  lemma {:induction false} TotalDrops(before: seq<Writer>, after: seq<Writer>, w: nat)
    requires w < |before| && |after| == |before| && after == before[w := after[w]]
    requires StepsLeft(after[w].pc) < StepsLeft(before[w].pc)
    ensures TotalLeft(after) < TotalLeft(before)
  {
    if w == 0 {
      assert after[1..] == before[1..];
    } else {
      assert after[1..] == before[1..][w - 1 := after[w]];
      TotalDrops(before[1..], after[1..], w - 1);
    }
  }

  ghost predicate Moves(c: Crypto, s: State, w: nat) {
    && w < |s.writers|
    && var t := AdvanceWriter(c, s, w);
       |t.writers| == |s.writers| && t.writers == s.writers[w := t.writers[w]]
       && StepsLeft(t.writers[w].pc) < StepsLeft(s.writers[w].pc)
  }

  lemma HolderMoves(c: Crypto, key: Bytes, s: State, w: nat)
    requires Inv(c, key, s) && w < |s.writers|
    requires HoldsFile(s.writers[w].pc) || (s.flock.None? && HoldsObject(s.writers[w].pc))
    ensures Moves(c, s, w)
  {
    hide NextRecord, ScanLast, HashPayloads, FileOk, ObserversOk, Ledger, Owns, IssuedBy, IssueReceipt,
         RecordLine, LastOf;
    assert WriterOk(c, key, s, w);
  }

  lemma NewcomerMoves(c: Crypto, key: Bytes, s: State, w: nat)
    requires Inv(c, key, s) && w < |s.writers|
    requires s.writers[w].pc.Start? || (s.writers[w].pc.Hashed? && s.writers[w].job.obj !in s.objectLocks)
    ensures Moves(c, s, w)
  {
    hide NextRecord, ScanLast, HashPayloads, FileOk, ObserversOk, WritersOk;
  }

  /** In every reachable state with an unfinished append, some append can take its next step. */
  lemma NoDeadlock(c: Crypto, key: Bytes, s: State, waiting: nat) returns (w: nat)
    requires Inv(c, key, s) && waiting < |s.writers| && StepsLeft(s.writers[waiting].pc) > 0
    ensures Moves(c, s, w)
  {
    hide Moves, FileOk, Ledger, WritersOk, ObserversOk;
    var pc, obj := s.writers[waiting].pc, s.writers[waiting].job.obj;
    if s.flock.Some? {
      w := s.flock.value;
      HolderMoves(c, key, s, w);
    } else if pc.Hashed? && obj in s.objectLocks {
      w := s.objectLocks[obj];
      HolderMoves(c, key, s, w);
    } else if HoldsObject(pc) {
      w := waiting;
      HolderMoves(c, key, s, w);
    } else {
      w := waiting;
      NewcomerMoves(c, key, s, w);
    }
  }

  ghost predicate Settled(s: State) {
    forall w: nat | w < |s.writers| :: StepsLeft(s.writers[w].pc) == 0
  }

  /** From every reachable state the pending appends can all run to their end, without help from anyone else. */
  lemma {:induction false} EveryAppendCanFinish(c: Crypto, key: Bytes, s: State) returns (schedule: seq<Action>)
    requires Inv(c, key, s)
    ensures forall a | a in schedule :: a.Advance?
    ensures Settled(Exec(c, s, schedule)) && Inv(c, key, Exec(c, s, schedule))
    decreases TotalLeft(s.writers)
  {
    hide Inv, AdvanceWriter;
    schedule := [];
    if !Settled(s) {
      var waiting: nat :| waiting < |s.writers| && StepsLeft(s.writers[waiting].pc) > 0;
      var w := NoDeadlock(c, key, s, waiting);
      var t := AdvanceWriter(c, s, w);
      TotalDrops(s.writers, t.writers, w);
      AdvanceKeepsInv(c, key, s, w);
      var rest := EveryAppendCanFinish(c, key, t);
      schedule := [Advance(w)] + rest;
      assert schedule[1..] == rest;
    }
  }

  // ---------------------------------------------------------------- one writer alone

  function Repeat(a: Action, n: nat): seq<Action> {
    if n == 0 then [] else [a] + Repeat(a, n - 1)
  }

  lemma ExecRepeat(c: Crypto, s: State, w: nat, n: nat)
    requires n > 0 && w < |s.writers|
    ensures Exec(c, s, Repeat(Advance(w), n)) == Exec(c, AdvanceWriter(c, s, w), Repeat(Advance(w), n - 1))
  {
    hide AdvanceWriter;
    assert Repeat(Advance(w), n)[1..] == Repeat(Advance(w), n - 1);
  }

  lemma {:induction false} FinishedStays(c: Crypto, s: State, w: nat, n: nat)
    requires w < |s.writers| && s.writers[w].pc.Done?
    ensures Exec(c, s, Repeat(Advance(w), n)) == s
  {
    if n > 0 {
      ExecRepeat(c, s, w, n);
      FinishedStays(c, s, w, n - 1);
    }
  }

  lemma SetTwice(s: State, w: nat, p: Pc, q: Pc)
    requires w < |s.writers|
    ensures SetPc(SetPc(s, w, p), w, q) == SetPc(s, w, q)
  {
  }

  /** What `append` alone on the file leaves behind. */
  function AfterAppend(c: Crypto, s: State, w: nat): State
    requires w < |s.writers|
  {
    var job := s.writers[w].job;
    match AppendOutcome(c, job.serverId, job.key, job.call, s.file)
    case Err(e) => SetPc(s, w, Done(Failed(e)))
    case Ok(r) =>
      SetPc(s, w, Done(Returned(r, IssueReceipt(c, job.serverId, r)))).(
        file := s.file + RecordLine(r), log := s.log + [r], owners := s.owners + [w])
  }

  /** The state while `w` holds both locks. */
  function WithLocks(s: State, w: nat, pc: Pc): State
    requires w < |s.writers|
  {
    SetPc(s, w, pc).(flock := Some(w), objectLocks := s.objectLocks[s.writers[w].job.obj := w])
  }

  lemma LocksDropped(s: State, w: nat, outcome: Outcome)
    requires w < |s.writers| && s.flock.None? && s.writers[w].job.obj !in s.objectLocks
    ensures s.objectLocks[s.writers[w].job.obj := w] - {s.writers[w].job.obj} == s.objectLocks
  {
  }

  lemma TakeLocks(c: Crypto, s: State, w: nat, hashes: Hashes)
    requires w < |s.writers| && s.writers[w].pc.Start? && s.flock.None? && s.writers[w].job.obj !in s.objectLocks
    requires s.writers[w].job.key.Some? && HashPayloads(c, s.writers[w].job.call) == Ok(hashes)
    ensures Exec(c, s, Repeat(Advance(w), 8)) == Exec(c, WithLocks(s, w, FileLocked(hashes)), Repeat(Advance(w), 5))
  {
    hide HashPayloads, Exec, Repeat;
    var s1 := SetPc(s, w, Hashed(hashes));
    var s2 := SetPc(s, w, ObjectLocked(hashes)).(objectLocks := s.objectLocks[s.writers[w].job.obj := w]);
    var s3 := WithLocks(s, w, FileLocked(hashes));
    assert AdvanceWriter(c, s, w) == s1;
    assert AdvanceWriter(c, s1, w) == s2 by { SetTwice(s, w, Hashed(hashes), ObjectLocked(hashes)); }
    assert AdvanceWriter(c, s2, w) == s3 by { SetTwice(s, w, ObjectLocked(hashes), FileLocked(hashes)); }
    ExecRepeat(c, s, w, 8);
    ExecRepeat(c, s1, w, 7);
    ExecRepeat(c, s2, w, 6);
  }

  lemma RaiseAndRelease(c: Crypto, s: State, w: nat, e: Error, n: nat)
    requires w < |s.writers| && s.flock.None? && s.writers[w].job.obj !in s.objectLocks && n >= 2
    ensures Exec(c, WithLocks(s, w, Raising(e)), Repeat(Advance(w), n)) == SetPc(s, w, Done(Failed(e)))
  {
    hide Exec, Repeat;
    var s1 := WithLocks(s, w, Raising(e));
    var s2 := SetPc(s, w, Unlocked(Failed(e))).(objectLocks := s.objectLocks[s.writers[w].job.obj := w]);
    var s3 := SetPc(s, w, Done(Failed(e)));
    LocksDropped(s, w, Failed(e));
    assert AdvanceWriter(c, s1, w) == s2 by { SetTwice(s, w, Raising(e), Unlocked(Failed(e))); }
    assert AdvanceWriter(c, s2, w) == s3 by { SetTwice(s, w, Unlocked(Failed(e)), Done(Failed(e))); }
    ExecRepeat(c, s1, w, n);
    ExecRepeat(c, s2, w, n - 1);
    FinishedStays(c, s3, w, n - 2);
  }

  lemma WriteAndRelease(c: Crypto, s: State, w: nat, hashes: Hashes, r: SignedRecord)
    requires w < |s.writers| && s.flock.None? && s.writers[w].job.obj !in s.objectLocks
    ensures Exec(c, WithLocks(s, w, Signed(hashes, r)), Repeat(Advance(w), 3))
            == SetPc(s, w, Done(Returned(r, IssueReceipt(c, s.writers[w].job.serverId, r)))).(
                 file := s.file + RecordLine(r), log := s.log + [r], owners := s.owners + [w])
  {
    hide Exec, Repeat, RecordLine, IssueReceipt;
    var base := s.(file := s.file + RecordLine(r), log := s.log + [r], owners := s.owners + [w]);
    var outcome := Returned(r, IssueReceipt(c, s.writers[w].job.serverId, r));
    var s1 := WithLocks(s, w, Signed(hashes, r));
    var s2 := WithLocks(base, w, Written(r));
    var s3 := SetPc(base, w, Unlocked(outcome)).(objectLocks := s.objectLocks[s.writers[w].job.obj := w]);
    var s4 := SetPc(base, w, Done(outcome));
    LocksDropped(s, w, outcome);
    assert AdvanceWriter(c, s1, w) == s2 by { SetTwice(s, w, Signed(hashes, r), Written(r)); }
    assert AdvanceWriter(c, s2, w) == s3 by { SetTwice(base, w, Written(r), Unlocked(outcome)); }
    assert AdvanceWriter(c, s3, w) == s4 by { SetTwice(base, w, Unlocked(outcome), Done(outcome)); }
    ExecRepeat(c, s1, w, 3);
    ExecRepeat(c, s2, w, 2);
    ExecRepeat(c, s3, w, 1);
    FinishedStays(c, s4, w, 0);
  }

  lemma RunUnderLocks(c: Crypto, s: State, w: nat, hashes: Hashes)
    requires w < |s.writers| && s.flock.None? && s.writers[w].job.obj !in s.objectLocks && s.writers[w].job.key.Some?
    requires HashPayloads(c, s.writers[w].job.call) == Ok(hashes)
    ensures Exec(c, WithLocks(s, w, FileLocked(hashes)), Repeat(Advance(w), 5)) == AfterAppend(c, s, w)
  {
    hide Exec, Repeat, ScanLast, NextRecord, HashPayloads, RecordLine, IssueReceipt;
    var job := s.writers[w].job;
    var s1 := WithLocks(s, w, FileLocked(hashes));
    ExecRepeat(c, s1, w, 5);
    match ScanLast(s.file)
    case Err(e) =>
      assert AdvanceWriter(c, s1, w) == WithLocks(s, w, Raising(e)) by {
        SetTwice(s, w, FileLocked(hashes), Raising(e));
      }
      RaiseAndRelease(c, s, w, e, 4);
    case Ok(last) =>
      var s2 := WithLocks(s, w, Scanned(hashes, last));
      assert AdvanceWriter(c, s1, w) == s2 by { SetTwice(s, w, FileLocked(hashes), Scanned(hashes, last)); }
      ExecRepeat(c, s2, w, 4);
      match NextRecord(c, job.serverId, job.key.value, job.call, hashes, last)
      case Err(e) =>
        assert AdvanceWriter(c, s2, w) == WithLocks(s, w, Raising(e)) by {
          SetTwice(s, w, Scanned(hashes, last), Raising(e));
        }
        RaiseAndRelease(c, s, w, e, 3);
      case Ok(r) =>
        assert AdvanceWriter(c, s2, w) == WithLocks(s, w, Signed(hashes, r)) by {
          SetTwice(s, w, Scanned(hashes, last), Signed(hashes, r));
        }
        WriteAndRelease(c, s, w, hashes, r);
  }

  /** The steps refine the call: uninterrupted, they leave what `AttestationLog.Append` leaves, locks free again. */
  lemma LoneWriterAppends(c: Crypto, s: State, w: nat)
    requires w < |s.writers| && s.writers[w].pc.Start? && s.flock.None? && s.writers[w].job.obj !in s.objectLocks
    ensures Exec(c, s, Repeat(Advance(w), 8)) == AfterAppend(c, s, w)
  {
    hide Exec, Repeat, ScanLast, NextRecord, HashPayloads;
    var job := s.writers[w].job;
    if job.key.Some? && HashPayloads(c, job.call).Ok? {
      var hashes := HashPayloads(c, job.call).value;
      TakeLocks(c, s, w, hashes);
      RunUnderLocks(c, s, w, hashes);
    } else {
      ExecRepeat(c, s, w, 8);
      FinishedStays(c, AdvanceWriter(c, s, w), w, 7);
    }
  }

  // ---------------------------------------------------------------- readers and kills

  /** What a reader in the middle of a scan has read. */
  function Got(o: Observer): Option<Bytes> {
    match o
    case Verifying(got) => Some(got)
    case Counting(_, _, got) => Some(got)
    case Heading(_, _, _, got) => Some(got)
    case _ => None
  }

  /** A read of `n` bytes takes exactly the next ones, or all there are, and touches nothing but the reader. */
  lemma ReadAdvances(c: Crypto, key: Bytes, s: State, o: nat, n: nat)
    requires Inv(c, key, s) && o < |s.observers| && Got(s.observers[o]).Some?
    ensures var t, m := Apply(c, s, Read(o, n)), |Got(s.observers[o]).value|;
            && m <= |s.file|
            && t == s.(observers := s.observers[o := t.observers[o]])
            && Got(t.observers[o]) == Some(s.file[..if m + n <= |s.file| then m + n else |s.file|])
  {
    hide FileOk, WritersOk, Locks, Ledger, FileOf;
    assert ObserverOk(c, key, s, s.observers[o]);
    var got := Got(s.observers[o]).value;
    assert got == s.file[..|got|];
    if |got| + n <= |s.file| {
      assert got + s.file[|got|..|got| + n] == s.file[..|got| + n];
    } else {
      assert got + s.file[|got|..] == s.file[..|s.file|];
    }
  }

  /** A killed process leaves both its locks free, its finished calls as they are, and everybody else alone. */
  lemma KillReleases(c: Crypto, key: Bytes, s: State, obj: nat)
    requires Inv(c, key, s)
    ensures var t := KillObject(s, obj);
            && obj !in t.objectLocks && |t.writers| == |s.writers|
            && t.file == s.file && t.log == s.log && t.observers == s.observers
            && (forall w: nat | w < |s.writers| && s.writers[w].job.obj == obj ::
                  t.flock != Some(w) && t.writers[w].pc == if s.writers[w].pc.Done? then s.writers[w].pc else Killed)
            && (forall w: nat | w < |s.writers| && s.writers[w].job.obj != obj ::
                  t.writers[w] == s.writers[w] && (t.flock == Some(w) <==> s.flock == Some(w)))
  {
    hide FileOk, WritersOk, ObserversOk, Ledger;
  }
}
