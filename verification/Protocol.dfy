/**
 * Writers, readers and tree-head emitters on one file, one step at a time. A schedule is any sequence of actions; an
 * action that is not enabled (a lock is taken, the agent is finished) leaves the state as it is.
 */
module Protocol {
  import opened Wrappers
  import opened Errors
  import opened ByteStrings
  import opened Json
  import opened Crypto
  import opened Entry
  import opened Chain
  import opened Append
  import opened Framing
  import opened TreeHeads

  // ---------------------------------------------------------------- state

  /** One call of `append` on log object `obj`. Jobs with one `obj` number share a thread lock; all share the file. */
  datatype Job = Job(obj: nat, serverId: string, key: Option<Bytes>, call: Call)

  datatype Outcome = Returned(record: SignedRecord, receipt: Receipt) | Failed(error: Error)

  datatype Pc =
    | Start
    | Hashed(hashes: Hashes)                                  // waiting for the thread lock
    | ObjectLocked(hashes: Hashes)                            // file open, waiting for flock
    | FileLocked(hashes: Hashes)
    | Scanned(hashes: Hashes, last: Option<SignedRecord>)
    | Signed(hashes: Hashes, record: SignedRecord)
    | Written(record: SignedRecord)
    | Raising(error: Error)                                   // an exception on its way through `finally`
    | Unlocked(outcome: Outcome)                              // flock released, thread lock still held
    | Done(outcome: Outcome)
    | Killed

  datatype Writer = Writer(job: Job, pc: Pc)

  /** Agents that read without any lock. `got` is what the current scan has read so far. */
  datatype Observer =
    | Verifying(got: Bytes)                                   // `verify_chain` consuming `iter_records`
    | Verified(got: Bytes, length: nat)                       // at end of file, when the log had `length` records
    | Counting(key: Bytes, timestamp: PyFloat, got: Bytes)    // `emit_sth`, first scan
    | Heading(key: Bytes, timestamp: PyFloat, claimed: nat, got: Bytes)
    | Emitted(head: Result<SignedTreeHead, Error>, claimed: nat, signed: nat)

  /** `log` and `owners` record the history: what was written, and by which writer. */
  datatype State = State(
    file: Bytes, flock: Option<nat>, objectLocks: map<nat, nat>, writers: seq<Writer>, observers: seq<Observer>,
    log: seq<SignedRecord>, owners: seq<nat>)

  const EMPTY := State([], None, map[], [], [], [], [])

  // ---------------------------------------------------------------- steps

  datatype Action =
    | Spawn(job: Job)
    | Advance(w: nat)
    | Kill(obj: nat)                                          // the process behind a log object dies
    | OpenReader
    | StartSth(key: Bytes, timestamp: PyFloat)
    | Read(o: nat, n: nat)                                    // up to `n` more bytes
    | AtEof(o: nat)

  function SetPc(s: State, w: nat, pc: Pc): State
    requires w < |s.writers|
  {
    s.(writers := s.writers[w := s.writers[w].(pc := pc)])
  }

  function AdvanceWriter(c: Crypto, s: State, w: nat): State
    requires w < |s.writers|
  {
    var job := s.writers[w].job;
    match s.writers[w].pc
    case Start =>
      if job.key.None? then SetPc(s, w, Done(Failed(ReadOnly)))
      else (match HashPayloads(c, job.call)
            case Err(e) => SetPc(s, w, Done(Failed(e)))
            case Ok(hashes) => SetPc(s, w, Hashed(hashes)))
    case Hashed(hashes) =>
      if job.obj in s.objectLocks then s
      else SetPc(s, w, ObjectLocked(hashes)).(objectLocks := s.objectLocks[job.obj := w])
    case ObjectLocked(hashes) =>
      if s.flock.Some? then s else SetPc(s, w, FileLocked(hashes)).(flock := Some(w))
    case FileLocked(hashes) =>
      (match ScanLast(s.file)
       case Err(e) => SetPc(s, w, Raising(e))
       case Ok(last) => SetPc(s, w, Scanned(hashes, last)))
    case Scanned(hashes, last) =>
      if job.key.None? then s
      else (match NextRecord(c, job.serverId, job.key.value, job.call, hashes, last)
            case Err(e) => SetPc(s, w, Raising(e))
            case Ok(record) => SetPc(s, w, Signed(hashes, record)))
    case Signed(_, record) =>
      SetPc(s, w, Written(record)).(
        file := s.file + RecordLine(record), log := s.log + [record], owners := s.owners + [w])
    case Written(record) =>
      SetPc(s, w, Unlocked(Returned(record, IssueReceipt(c, job.serverId, record)))).(flock := None)
    case Raising(e) =>
      SetPc(s, w, Unlocked(Failed(e))).(flock := None)
    case Unlocked(outcome) =>
      SetPc(s, w, Done(outcome)).(objectLocks := s.objectLocks - {job.obj})
    case Done(_) => s
    case Killed => s
  }

  function KillWriter(w: Writer, obj: nat): Writer {
    if w.job.obj == obj && !w.pc.Done? then w.(pc := Killed) else w
  }

  /** The kernel drops the dead process's file lock; its thread lock dies with it. */
  function KillObject(s: State, obj: nat): State {
    s.(writers := seq(|s.writers|, i requires 0 <= i < |s.writers| => KillWriter(s.writers[i], obj)),
       objectLocks := s.objectLocks - {obj},
       flock := if s.flock.Some? && s.flock.value < |s.writers| && s.writers[s.flock.value].job.obj == obj then None
                else s.flock)
  }

  /** A scan reads on from where it stopped. */
  function MoreBytes(file: Bytes, got: Bytes, n: nat): Bytes {
    if |got| + n <= |file| then got + file[|got|..|got| + n]
    else if |got| <= |file| then got + file[|got|..]
    else got
  }

  function ReadSome(s: State, o: Observer, n: nat): Observer {
    match o
    case Verifying(got) => Verifying(MoreBytes(s.file, got, n))
    case Counting(key, timestamp, got) => Counting(key, timestamp, MoreBytes(s.file, got, n))
    case Heading(key, timestamp, claimed, got) => Heading(key, timestamp, claimed, MoreBytes(s.file, got, n))
    case _ => o
  }

  /** A scan meets the end of the file when it holds as many bytes as the file does. */
  function Finish(c: Crypto, s: State, o: Observer): Observer {
    match o
    case Verifying(got) =>
      if |got| == |s.file| then Verified(got, |s.log|) else o
    case Counting(key, timestamp, got) =>
      if |got| != |s.file| then o
      else (match TextLines(got)
            case Err(e) => Emitted(Err(e), 0, 0)
            case Ok(lines) => Heading(key, timestamp, |lines|, []))
    case Heading(key, timestamp, claimed, got) =>
      if |got| != |s.file| then o
      else (match HeadHashOf(c, got)
            case Err(e) => Emitted(Err(e), claimed, |s.log|)
            case Ok(head) => Emitted(SignTreeHead(c, key, claimed, head, timestamp), claimed, |s.log|))
    case _ => o
  }

  function Apply(c: Crypto, s: State, a: Action): State {
    match a
    case Spawn(job) => s.(writers := s.writers + [Writer(job, Start)])
    case Advance(w) => if w < |s.writers| then AdvanceWriter(c, s, w) else s
    case Kill(obj) => KillObject(s, obj)
    case OpenReader => s.(observers := s.observers + [Verifying([])])
    case StartSth(key, timestamp) => s.(observers := s.observers + [Counting(key, timestamp, [])])
    case Read(o, n) =>
      if o < |s.observers| then s.(observers := s.observers[o := ReadSome(s, s.observers[o], n)]) else s
    case AtEof(o) =>
      if o < |s.observers| then s.(observers := s.observers[o := Finish(c, s, s.observers[o])]) else s
  }

  function Exec(c: Crypto, s: State, schedule: seq<Action>): State
    decreases schedule
  {
    if schedule == [] then s else Exec(c, Apply(c, s, schedule[0]), schedule[1..])
  }

  // ---------------------------------------------------------------- the invariant

  /** All signers of one file use one key; a key of the wrong length is allowed and cannot sign. */
  ghost predicate UsesKey(key: Bytes, a: Action) {
    match a
    case Spawn(job) => job.key.Some? && |job.key.value| == 32 ==> job.key.value == key
    case StartSth(k, _) => |k| == 32 ==> k == key
    case _ => true
  }

  ghost predicate OneKey(key: Bytes, schedule: seq<Action>) {
    |key| == 32 && forall a | a in schedule :: UsesKey(key, a)
  }

  predicate HoldsFile(pc: Pc) {
    pc.FileLocked? || pc.Scanned? || pc.Signed? || pc.Written? || pc.Raising?
  }

  predicate HoldsObject(pc: Pc) {
    pc.ObjectLocked? || HoldsFile(pc) || pc.Unlocked?
  }

  /** Each lock is held by exactly the writer whose program counter says so. */
  ghost predicate Locks(s: State) {
    && (forall w: nat | w < |s.writers| :: HoldsFile(s.writers[w].pc) <==> s.flock == Some(w))
    && (s.flock.Some? ==> s.flock.value < |s.writers|)
    && (forall w: nat | w < |s.writers| ::
          HoldsObject(s.writers[w].pc) <==>
          s.writers[w].job.obj in s.objectLocks && s.objectLocks[s.writers[w].job.obj] == w)
    && (forall obj | obj in s.objectLocks ::
          s.objectLocks[obj] < |s.writers| && s.writers[s.objectLocks[obj]].job.obj == obj)
  }

  /** The record a writer has put in the file, from its write on. */
  function WrittenBy(pc: Pc): Option<SignedRecord> {
    match pc
    case Written(r) => Some(r)
    case Unlocked(Returned(r, _)) => Some(r)
    case Done(Returned(r, _)) => Some(r)
    case _ => None
  }

  /** Every record has one owner, and no writer owns two. */
  ghost predicate Ledger(s: State) {
    && |s.owners| == |s.log|
    && (forall i: nat | i < |s.owners| ::
          s.owners[i] < |s.writers| &&
          var pc := s.writers[s.owners[i]].pc; pc.Killed? || WrittenBy(pc) == Some(s.log[i]))
    && (forall i: nat, j: nat | i < j < |s.owners| :: s.owners[i] != s.owners[j])
  }

  /** Writer `w` wrote `r`: at the index its sequence number names, for its own call. */
  ghost predicate Owns(c: Crypto, s: State, w: nat, r: SignedRecord)
    requires w < |s.writers|
  {
    var job := s.writers[w].job;
    && 0 <= r.entry.seqNo < |s.log| && r.entry.seqNo < |s.owners|
    && s.log[r.entry.seqNo] == r && s.owners[r.entry.seqNo] == w
    && Attests(c, r, job.call.params, job.call.result)
    && Describes(c, r, job.serverId, job.call)
  }

  ghost predicate IssuedBy(c: Crypto, s: State, w: nat, outcome: Outcome)
    requires w < |s.writers|
  {
    match outcome
    case Failed(_) => w !in s.owners
    case Returned(r, receipt) => Owns(c, s, w, r) && receipt == IssueReceipt(c, s.writers[w].job.serverId, r)
  }

  /** What holds of one writer at its program counter. */
  ghost predicate WriterOk(c: Crypto, key: Bytes, s: State, w: nat)
    requires w < |s.writers|
  {
    var job := s.writers[w].job;
    && UsesKey(key, Spawn(job))
    && (match s.writers[w].pc
        case Start => w !in s.owners
        case Hashed(h) => w !in s.owners && job.key.Some? && HashPayloads(c, job.call) == Ok(h)
        case ObjectLocked(h) => w !in s.owners && job.key.Some? && HashPayloads(c, job.call) == Ok(h)
        case FileLocked(h) => w !in s.owners && job.key.Some? && HashPayloads(c, job.call) == Ok(h)
        case Scanned(h, last) =>
          w !in s.owners && job.key.Some? && HashPayloads(c, job.call) == Ok(h) && last == LastOf(s.log)
        case Signed(h, r) =>
          w !in s.owners && job.key.Some? && HashPayloads(c, job.call) == Ok(h)
          && NextRecord(c, job.serverId, job.key.value, job.call, h, LastOf(s.log)) == Ok(r)
        case Written(r) => Owns(c, s, w, r)
        case Raising(_) => w !in s.owners
        case Unlocked(outcome) => IssuedBy(c, s, w, outcome)
        case Done(outcome) => IssuedBy(c, s, w, outcome)
        case Killed => true)
  }

  /** What holds of one lock-free reader. */
  ghost predicate ObserverOk(c: Crypto, key: Bytes, s: State, o: Observer) {
    match o
    case Verifying(got) => got <= s.file
    case Verified(got, length) => length <= |s.log| && got == FileOf(s.log[..length])
    case Counting(k, _, got) => UsesKey(key, StartSth(k, NaN)) && got <= s.file
    case Heading(k, _, claimed, got) => UsesKey(key, StartSth(k, NaN)) && got <= s.file && claimed <= |s.log|
    case Emitted(head, claimed, signed) =>
      claimed <= signed <= |s.log|
      && (head.Ok? ==> HeadOfPrefix(c, c.publicOf(key), head.value, s.log, claimed, signed))
  }

  ghost predicate FileOk(c: Crypto, key: Bytes, s: State) {
    s.file == FileOf(s.log) && ChainValid(c, c.publicOf(key), s.log)
  }

  ghost predicate WritersOk(c: Crypto, key: Bytes, s: State) {
    forall w: nat | w < |s.writers| :: WriterOk(c, key, s, w)
  }

  ghost predicate ObserversOk(c: Crypto, key: Bytes, s: State) {
    forall o: nat | o < |s.observers| :: ObserverOk(c, key, s, s.observers[o])
  }

  ghost predicate Inv(c: Crypto, key: Bytes, s: State) {
    |key| == 32 && FileOk(c, key, s) && Locks(s) && Ledger(s) && WritersOk(c, key, s) && ObserversOk(c, key, s)
  }
}
