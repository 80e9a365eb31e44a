/** Every step of every schedule keeps the protocol's invariant. */
module ProtocolSafety {
  import opened Wrappers
  import opened ByteStrings
  import opened Json
  import opened Crypto
  import opened Entry
  import opened Chain
  import opened Append
  import opened Framing
  import opened TreeHeads
  import opened Protocol

  // ---------------------------------------------------------------- one writer's step

  /** `t` is `s` after writer `w` moved to `pc`, taking or dropping only its own locks. */
  ghost predicate OnlyMoves(s: State, t: State, w: nat, pc: Pc)
    requires w < |s.writers|
  {
    var obj := s.writers[w].job.obj;
    && t.writers == s.writers[w := s.writers[w].(pc := pc)]
    && t.observers == s.observers
    && (t.flock == s.flock || (s.flock == None && t.flock == Some(w)) || (s.flock == Some(w) && t.flock == None))
    && (t.objectLocks == s.objectLocks
        || (obj !in s.objectLocks && t.objectLocks == s.objectLocks[obj := w])
        || (obj in s.objectLocks && s.objectLocks[obj] == w && t.objectLocks == s.objectLocks - {obj}))
  }

  lemma MoveKeepsLocks(s: State, t: State, w: nat, pc: Pc)
    requires Locks(s) && w < |s.writers| && OnlyMoves(s, t, w, pc)
    requires HoldsFile(pc) <==> t.flock == Some(w)
    requires HoldsObject(pc) <==> s.writers[w].job.obj in t.objectLocks && t.objectLocks[s.writers[w].job.obj] == w
    ensures Locks(t)
  {
    hide HoldsFile, HoldsObject;
  }

  /** The file, log and owners stand still. */
  ghost predicate SameFile(s: State, t: State) {
    t.file == s.file && t.log == s.log && t.owners == s.owners
  }

  lemma MoveKeepsLedger(s: State, t: State, w: nat, pc: Pc)
    requires Ledger(s) && w < |s.writers| && OnlyMoves(s, t, w, pc) && SameFile(s, t)
    requires w in s.owners ==> WrittenBy(pc) == WrittenBy(s.writers[w].pc) && !s.writers[w].pc.Killed?
    ensures Ledger(t)
  {
    forall i: nat | i < |t.owners|
      ensures t.owners[i] < |t.writers| &&
              var pc := t.writers[t.owners[i]].pc; pc.Killed? || WrittenBy(pc) == Some(t.log[i])
    {
      assert s.owners[i] in s.owners;
    }
  }

  lemma MoveKeepsWriters(c: Crypto, key: Bytes, s: State, t: State, w: nat, pc: Pc)
    requires WritersOk(c, key, s) && w < |s.writers| && OnlyMoves(s, t, w, pc) && SameFile(s, t)
    requires WriterOk(c, key, t, w)
    ensures WritersOk(c, key, t)
  {
    forall v: nat | v < |t.writers| ensures WriterOk(c, key, t, v) {
      if v != w { WriterOkDepends(c, key, s, t, v); }
    }
  }

  /** A writer's condition looks at itself, the log and the owners only. */
  lemma WriterOkDepends(c: Crypto, key: Bytes, s: State, t: State, v: nat)
    requires v < |s.writers| && v < |t.writers| && t.writers[v] == s.writers[v]
    requires t.log == s.log && t.owners == s.owners && WriterOk(c, key, s, v)
    ensures WriterOk(c, key, t, v)
  {
    hide Attests, Describes, NextRecord, HashPayloads, IssueReceipt;
  }

  /** A step that moves no record keeps the invariant once its own writer and locks are in order. */
  lemma MoveKeepsInv(c: Crypto, key: Bytes, s: State, t: State, w: nat, pc: Pc)
    requires Inv(c, key, s) && w < |s.writers| && OnlyMoves(s, t, w, pc) && SameFile(s, t)
    requires HoldsFile(pc) <==> t.flock == Some(w)
    requires HoldsObject(pc) <==> s.writers[w].job.obj in t.objectLocks && t.objectLocks[s.writers[w].job.obj] == w
    requires w in s.owners ==> WrittenBy(pc) == WrittenBy(s.writers[w].pc) && !s.writers[w].pc.Killed?
    requires WriterOk(c, key, t, w)
    ensures Inv(c, key, t)
  {
    hide WriterOk, Locks, Ledger, ChainValid, FileOf;
    MoveKeepsLocks(s, t, w, pc);
    MoveKeepsLedger(s, t, w, pc);
    MoveKeepsWriters(c, key, s, t, w, pc);
    forall o: nat | o < |t.observers| ensures ObserverOk(c, key, t, t.observers[o]) {
      ObserverOkGrows(c, key, s, t, s.observers[o]);
    }
  }

  /** A reader's condition survives any growth of the file and the log. */
  lemma ObserverOkGrows(c: Crypto, key: Bytes, s: State, t: State, o: Observer)
    requires ObserverOk(c, key, s, o) && s.file <= t.file && s.log <= t.log
    ensures ObserverOk(c, key, t, o)
  {
    hide VerifyTreeHead, FileOf, Head;
    match o
    case Verified(_, length) => assert t.log[..length] == s.log[..length];
    case Emitted(_, _, signed) => assert t.log[..signed] == s.log[..signed];
    case _ =>
  }

  // ---------------------------------------------------------------- the write

  lemma WriteKeepsFile(c: Crypto, key: Bytes, s: State, w: nat)
    requires Inv(c, key, s) && w < |s.writers| && s.writers[w].pc.Signed?
    ensures var job, r := s.writers[w].job, s.writers[w].pc.record;
            && FileOk(c, key, AdvanceWriter(c, s, w))
            && r.entry.seqNo == |s.log| && Attests(c, r, job.call.params, job.call.result)
            && Describes(c, r, job.serverId, job.call)
  {
    hide NextRecord, ChainValid, FileOf, RecordLine, ScanLast, HashOfLast, Locks, Ledger, ObserversOk;
    var job := s.writers[w].job;
    var hashes, r := s.writers[w].pc.hashes, s.writers[w].pc.record;
    assert WriterOk(c, key, s, w);
    LastHash(c, c.publicOf(key), s.log);
    NextRecordExact(c, job.serverId, job.key.value, job.call, hashes, LastOf(s.log));
    AppendKeepsValid(c, job.serverId, key, job.call, hashes, s.log);
    FileSnoc(s.log, r);
  }

  lemma WriteKeepsLedger(s: State, t: State, w: nat, r: SignedRecord)
    requires Ledger(s) && w < |s.writers| && w !in s.owners
    requires OnlyMoves(s, t, w, Written(r)) && t.log == s.log + [r] && t.owners == s.owners + [w]
    ensures Ledger(t)
  {
    forall i: nat | i < |t.owners|
      ensures t.owners[i] < |t.writers| &&
              var pc := t.writers[t.owners[i]].pc; pc.Killed? || WrittenBy(pc) == Some(t.log[i])
    {
      if i < |s.owners| { assert s.owners[i] in s.owners; }
    }
    forall i: nat, j: nat | i < j < |t.owners| ensures t.owners[i] != t.owners[j] {
      assert s.owners[i] in s.owners;
    }
  }

  /** Only the holder of the file lock can be between its scan and its write, so nobody else's scan goes stale. */
  lemma OthersSurviveWrite(c: Crypto, key: Bytes, s: State, t: State, w: nat, r: SignedRecord, v: nat)
    requires Locks(s) && w < |s.writers| && HoldsFile(s.writers[w].pc)
    requires OnlyMoves(s, t, w, Written(r)) && t.log == s.log + [r] && t.owners == s.owners + [w]
    requires v < |s.writers| && v != w && WriterOk(c, key, s, v)
    ensures WriterOk(c, key, t, v)
  {
    hide Attests, Describes, NextRecord, HashPayloads, IssueReceipt;
    assert !HoldsFile(s.writers[v].pc);
  }

  lemma WriteKeepsInv(c: Crypto, key: Bytes, s: State, w: nat)
    requires Inv(c, key, s) && w < |s.writers| && s.writers[w].pc.Signed?
    ensures Inv(c, key, AdvanceWriter(c, s, w))
  {
    hide ChainValid, FileOf, NextRecord, HashPayloads, RecordLine, Attests, Describes;
    var t := AdvanceWriter(c, s, w);
    var r := s.writers[w].pc.record;
    WriteKeepsFile(c, key, s, w);
    assert WriterOk(c, key, s, w);
    assert OnlyMoves(s, t, w, Written(r));
    assert Locks(t) by { MoveKeepsLocks(s, t, w, Written(r)); }
    WriteKeepsLedger(s, t, w, r);
    forall v: nat | v < |t.writers| ensures WriterOk(c, key, t, v) {
      if v != w { OthersSurviveWrite(c, key, s, t, w, r, v); }
    }
    forall o: nat | o < |t.observers| ensures ObserverOk(c, key, t, t.observers[o]) {
      ObserverOkGrows(c, key, s, t, s.observers[o]);
    }
  }

  // ---------------------------------------------------------------- every writer step

  lemma TakingLocksKeepsInv(c: Crypto, key: Bytes, s: State, w: nat)
    requires Inv(c, key, s) && w < |s.writers|
    requires s.writers[w].pc.Start? || s.writers[w].pc.Hashed? || s.writers[w].pc.ObjectLocked?
    ensures Inv(c, key, AdvanceWriter(c, s, w))
  {
    hide ChainValid, FileOf, NextRecord, HashPayloads, ScanLast, Owns, ObserverOk, Ledger;
    var t := AdvanceWriter(c, s, w);
    assert WriterOk(c, key, s, w);
    if t != s { MoveKeepsInv(c, key, s, t, w, t.writers[w].pc); }
  }

  lemma ScanningKeepsInv(c: Crypto, key: Bytes, s: State, w: nat)
    requires Inv(c, key, s) && w < |s.writers| && s.writers[w].pc.FileLocked?
    ensures Inv(c, key, AdvanceWriter(c, s, w))
  {
    hide ChainValid, FileOf, NextRecord, HashPayloads, ScanLast, Owns, ObserverOk, Ledger, LastOf;
    var t := AdvanceWriter(c, s, w);
    assert WriterOk(c, key, s, w);
    assert ScanLast(s.file) == Ok(LastOf(s.log)) by {
      ValidIsWritable(c, c.publicOf(key), s.log);
      ScanOfFile(s.log);
    }
    MoveKeepsInv(c, key, s, t, w, t.writers[w].pc);
  }

  lemma SigningKeepsInv(c: Crypto, key: Bytes, s: State, w: nat)
    requires Inv(c, key, s) && w < |s.writers| && s.writers[w].pc.Scanned?
    ensures Inv(c, key, AdvanceWriter(c, s, w))
  {
    hide ChainValid, FileOf, NextRecord, HashPayloads, ScanLast, Owns, ObserverOk, Ledger, LastOf;
    var t := AdvanceWriter(c, s, w);
    assert WriterOk(c, key, s, w);
    MoveKeepsInv(c, key, s, t, w, t.writers[w].pc);
  }

  lemma DroppingLocksKeepsInv(c: Crypto, key: Bytes, s: State, w: nat)
    requires Inv(c, key, s) && w < |s.writers|
    requires s.writers[w].pc.Written? || s.writers[w].pc.Raising? || s.writers[w].pc.Unlocked?
    ensures Inv(c, key, AdvanceWriter(c, s, w))
  {
    hide ChainValid, FileOf, NextRecord, HashPayloads, ScanLast, Attests, Describes, IssueReceipt, ObserverOk, Ledger;
    var t := AdvanceWriter(c, s, w);
    assert WriterOk(c, key, s, w);
    MoveKeepsInv(c, key, s, t, w, t.writers[w].pc);
  }

  lemma AdvanceKeepsInv(c: Crypto, key: Bytes, s: State, w: nat)
    requires Inv(c, key, s) && w < |s.writers|
    ensures Inv(c, key, AdvanceWriter(c, s, w))
  {
    hide Inv;
    var pc := s.writers[w].pc;
    if pc.Start? || pc.Hashed? || pc.ObjectLocked? {
      TakingLocksKeepsInv(c, key, s, w);
    } else if pc.FileLocked? {
      ScanningKeepsInv(c, key, s, w);
    } else if pc.Scanned? {
      SigningKeepsInv(c, key, s, w);
    } else if pc.Signed? {
      WriteKeepsInv(c, key, s, w);
    } else if pc.Written? || pc.Raising? || pc.Unlocked? {
      DroppingLocksKeepsInv(c, key, s, w);
    }
  }

  // ---------------------------------------------------------------- the other actions

  lemma SpawnKeepsInv(c: Crypto, key: Bytes, s: State, job: Job)
    requires Inv(c, key, s) && UsesKey(key, Spawn(job))
    ensures Inv(c, key, Apply(c, s, Spawn(job)))
  {
    hide ChainValid, FileOf, NextRecord, HashPayloads, Attests, Describes, IssueReceipt;
    var t := Apply(c, s, Spawn(job));
    forall v: nat | v < |t.writers| ensures WriterOk(c, key, t, v) {
      if v < |s.writers| { WriterOkDepends(c, key, s, t, v); }
    }
    forall o: nat | o < |t.observers| ensures ObserverOk(c, key, t, t.observers[o]) {
      ObserverOkGrows(c, key, s, t, s.observers[o]);
    }
    assert Ledger(t);
    assert Locks(t);
  }

  lemma KillKeepsInv(c: Crypto, key: Bytes, s: State, obj: nat)
    requires Inv(c, key, s)
    ensures Inv(c, key, KillObject(s, obj))
  {
    hide ChainValid, FileOf, NextRecord, HashPayloads, Attests, Describes, IssueReceipt;
    var t := KillObject(s, obj);
    forall v: nat | v < |t.writers| ensures WriterOk(c, key, t, v) {
      assert WriterOk(c, key, s, v) && t.writers[v] == KillWriter(s.writers[v], obj);
      if t.writers[v] == s.writers[v] { WriterOkDepends(c, key, s, t, v); }
    }
    forall o: nat | o < |t.observers| ensures ObserverOk(c, key, t, t.observers[o]) {
      ObserverOkGrows(c, key, s, t, s.observers[o]);
    }
    KillKeepsLedger(s, obj);
    KillKeepsLocks(s, obj);
  }

  lemma KillKeepsLedger(s: State, obj: nat)
    requires Ledger(s)
    ensures Ledger(KillObject(s, obj))
  {
  }

  lemma KillKeepsLocks(s: State, obj: nat)
    requires Locks(s)
    ensures Locks(KillObject(s, obj))
  {
    var t := KillObject(s, obj);
    forall w: nat | w < |t.writers|
      ensures HoldsFile(t.writers[w].pc) <==> t.flock == Some(w)
      ensures HoldsObject(t.writers[w].pc) <==>
              t.writers[w].job.obj in t.objectLocks && t.objectLocks[t.writers[w].job.obj] == w
    {
      assert t.writers[w] == KillWriter(s.writers[w], obj);
    }
  }

  lemma HeadSigned(c: Crypto, key: Bytes, k: Bytes, log: seq<SignedRecord>, claimed: nat, timestamp: PyFloat)
    requires |k| == 32 ==> k == key
    requires SignTreeHead(c, k, claimed, Head(c, log), timestamp).Ok?
    ensures HeadOfPrefix(c, c.publicOf(key), SignTreeHead(c, k, claimed, Head(c, log), timestamp).value, log, claimed,
                         |log|)
  {
    hide SignTreeHead, HeadOfPrefix, Head;
    SignNeedsKey(c, k, claimed, Head(c, log), timestamp);
    assert log[..|log|] == log;
    SignedHeadOfPrefix(c, k, log, claimed, |log|, timestamp);
  }

  /** A scan of an honest file that reaches the end holds the log as it stands. */
  lemma FinishKeeps(c: Crypto, key: Bytes, s: State, o: Observer)
    requires Inv(c, key, s) && ObserverOk(c, key, s, o)
    ensures ObserverOk(c, key, s, Finish(c, s, o))
  {
    hide ChainValid, FileOf, TextLines, HeadHashOf, SignTreeHead, HeadOfPrefix, Head,
         WritersOk, Locks, Ledger, ScanLast, HashOfLast, LinesFor;
    match o
    case Verifying(got) =>
      if |got| == |s.file| {
        assert got == s.file && s.log[..|s.log|] == s.log;
      }
    case Counting(_, _, got) =>
      if |got| == |s.file| {
        assert got == s.file && [] <= s.file;
        ScansAgree(c, c.publicOf(key), s.log);
      }
    case Heading(k, timestamp, claimed, got) =>
      if |got| == |s.file| {
        assert got == s.file;
        ScansAgree(c, c.publicOf(key), s.log);
        if SignTreeHead(c, k, claimed, Head(c, s.log), timestamp).Ok? {
          HeadSigned(c, key, k, s.log, claimed, timestamp);
        }
      }
    case _ =>
  }

  lemma SignNeedsKey(c: Crypto, k: Bytes, claimed: nat, head: string, timestamp: PyFloat)
    requires SignTreeHead(c, k, claimed, head, timestamp).Ok?
    ensures |k| == 32
  {
  }

  lemma MoreBytesIsPrefix(file: Bytes, got: Bytes, n: nat)
    requires got <= file
    ensures got <= MoreBytes(file, got, n) <= file
  {
    assert file == got + file[|got|..];
  }

  lemma ReadKeeps(c: Crypto, key: Bytes, s: State, o: Observer, n: nat)
    requires ObserverOk(c, key, s, o)
    ensures ObserverOk(c, key, s, ReadSome(s, o, n))
  {
    hide MoreBytes, HeadOfPrefix, FileOf;
    match o
    case Verifying(got) => MoreBytesIsPrefix(s.file, got, n);
    case Counting(_, _, got) => MoreBytesIsPrefix(s.file, got, n);
    case Heading(_, _, _, got) => MoreBytesIsPrefix(s.file, got, n);
    case _ =>
  }

  /** Observers come and go without touching anything a writer sees. */
  lemma ObserveKeepsInv(c: Crypto, key: Bytes, s: State, t: State)
    requires Inv(c, key, s) && t == s.(observers := t.observers) && ObserversOk(c, key, t)
    ensures Inv(c, key, t)
  {
    hide ChainValid, FileOf, WriterOk;
    forall v: nat | v < |t.writers| ensures WriterOk(c, key, t, v) {
      WriterOkDepends(c, key, s, t, v);
    }
  }

  lemma ObserverStepKeepsInv(c: Crypto, key: Bytes, s: State, a: Action)
    requires Inv(c, key, s) && UsesKey(key, a)
    requires a.OpenReader? || a.StartSth? || a.Read? || a.AtEof?
    ensures Inv(c, key, Apply(c, s, a))
  {
    hide ChainValid, FileOf, WritersOk, Locks, Ledger, Finish, ReadSome, ObserverOk;
    var t := Apply(c, s, a);
    forall i: nat | i < |t.observers| ensures ObserverOk(c, key, t, t.observers[i]) {
      if i < |s.observers| {
        ObserverOkGrows(c, key, s, t, s.observers[i]);
        if a.Read? && i == a.o {
          ReadKeeps(c, key, s, s.observers[i], a.n);
          ObserverOkGrows(c, key, s, t, t.observers[i]);
        }
        if a.AtEof? && i == a.o {
          FinishKeeps(c, key, s, s.observers[i]);
          ObserverOkGrows(c, key, s, t, t.observers[i]);
        }
      } else {
        NewObserver(c, key, t, t.observers[i]);
      }
    }
    ObserveKeepsInv(c, key, s, t);
  }

  lemma NewObserver(c: Crypto, key: Bytes, s: State, o: Observer)
    requires o == Verifying([]) || (o.Counting? && o.got == [] && UsesKey(key, StartSth(o.key, NaN)))
    ensures ObserverOk(c, key, s, o)
  {
  }

  // ---------------------------------------------------------------- every schedule

  lemma StepKeepsInv(c: Crypto, key: Bytes, s: State, a: Action)
    requires Inv(c, key, s) && UsesKey(key, a)
    ensures Inv(c, key, Apply(c, s, a))
  {
    hide Inv;
    match a
    case Spawn(job) => SpawnKeepsInv(c, key, s, job);
    case Advance(w) => if w < |s.writers| { AdvanceKeepsInv(c, key, s, w); }
    case Kill(obj) => KillKeepsInv(c, key, s, obj);
    case _ => ObserverStepKeepsInv(c, key, s, a);
  }

  lemma {:induction false} RunKeepsInv(c: Crypto, key: Bytes, s: State, schedule: seq<Action>)
    requires Inv(c, key, s) && OneKey(key, schedule)
    ensures Inv(c, key, Exec(c, s, schedule))
    decreases schedule
  {
    hide Inv, Apply, UsesKey;
    if schedule != [] {
      assert schedule[0] in schedule;
      StepKeepsInv(c, key, s, schedule[0]);
      RunKeepsInv(c, key, Apply(c, s, schedule[0]), schedule[1..]);
    }
  }

  /** From an empty file, under every schedule, the invariant holds. */
  lemma EveryRun(c: Crypto, key: Bytes, schedule: seq<Action>)
    requires OneKey(key, schedule)
    ensures Inv(c, key, Exec(c, EMPTY, schedule))
  {
    hide Exec, OneKey;
    assert Inv(c, key, EMPTY) by { assert |key| == 32 by { OneKeySize(key, schedule); } }
    RunKeepsInv(c, key, EMPTY, schedule);
  }

  lemma OneKeySize(key: Bytes, schedule: seq<Action>)
    requires OneKey(key, schedule)
    ensures |key| == 32
  {
  }
}
