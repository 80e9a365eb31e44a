/** A run of an honest server whose tree heads read as equivocation: an append lands between two scans. */
module TreeHeadRace {
  import opened Wrappers
  import opened ByteStrings
  import opened Json
  import opened Crypto
  import opened Entry
  import opened Chain
  import opened Append
  import opened Framing
  import opened TreeHeads
  import opened Protocol
  import opened ProtocolSafety
  import opened ProtocolTheorems
  import opened TreeHeadRuns
  import opened ProtocolProgress

  const ZERO_TIME: PyFloat := Finite(Numeral("0", ".0", ""))

  /** A call that succeeds under any key of the right length. */
  function PlainJob(key: Bytes): Job {
    Job(0, "srv", Some(key), Call("ping", "1", Null, Null, StatusOk, ZERO_TIME, ZERO_TIME))
  }

  lemma TreeHeadSigned(c: Crypto, key: Bytes, claimed: nat, head: string)
    requires |key| == 32
    ensures SignTreeHead(c, key, claimed, head, ZERO_TIME).Ok?
  {
    var ms := TreeHeadPayload(SignedTreeHead(claimed, head, ZERO_TIME, "")).members;
    assert forall m | m in ms :: m == ms[0] || m == ms[1] || m == ms[2];
    assert !HasNonFinite(ms[0].value) && !HasNonFinite(ms[1].value) && !HasNonFinite(ms[2].value);
  }

  // ---------------------------------------------------------------- the four legs of the run

  function Emit0(c: Crypto, key: Bytes): Observer {
    Emitted(SignTreeHead(c, key, 0, Head(c, []), ZERO_TIME), 0, 0)
  }

  /** One tree head of the empty log, with nothing in between its scans. */
  function HeadOfEmpty(key: Bytes): seq<Action> {
    [StartSth(key, ZERO_TIME)] + [AtEof(0)] + [AtEof(0)]
  }

  /** A second `emit_sth` counts no records. */
  function SecondCount(key: Bytes): seq<Action> {
    [StartSth(key, ZERO_TIME)] + [AtEof(1)]
  }

  function Commit(key: Bytes): seq<Action> {
    [Spawn(PlainJob(key))] + Repeat(Advance(0), 8)
  }

  /** The same `emit_sth` signs the head it now finds. */
  function SecondHead(file: Bytes): seq<Action> {
    [Read(1, |file|)] + [AtEof(1)]
  }

  lemma FirstLeg(c: Crypto, key: Bytes)
    requires |key| == 32
    ensures Exec(c, EMPTY, HeadOfEmpty(key)) == EMPTY.(observers := [Emit0(c, key)])
  {
    hide Inv, SignTreeHead, Finish, Exec;
    var s1 := EMPTY.(observers := [Counting(key, ZERO_TIME, [])]);
    var s2 := EMPTY.(observers := [Heading(key, ZERO_TIME, 0, [])]);
    EveryRun(c, key, []);
    ExecNone(c);
    StepKeepsInv(c, key, EMPTY, StartSth(key, ZERO_TIME));
    assert Apply(c, EMPTY, StartSth(key, ZERO_TIME)) == s1;
    FirstScanOfEmitSth(c, key, s1, 0);
    assert Apply(c, s1, AtEof(0)) == s2;
    StepKeepsInv(c, key, s1, AtEof(0));
    SecondScanOfEmitSth(c, key, s2, 0);
    assert Apply(c, s2, AtEof(0)) == EMPTY.(observers := [Emit0(c, key)]);
    ExecOne(c, EMPTY, StartSth(key, ZERO_TIME));
    ExecSnoc(c, EMPTY, [StartSth(key, ZERO_TIME)], AtEof(0));
    ExecSnoc(c, EMPTY, [StartSth(key, ZERO_TIME)] + [AtEof(0)], AtEof(0));
  }

  lemma ExecNone(c: Crypto)
    ensures Exec(c, EMPTY, []) == EMPTY
  {
  }

  lemma SecondLeg(c: Crypto, key: Bytes, s: State)
    requires Inv(c, key, s) && s == EMPTY.(observers := [Emit0(c, key)])
    ensures Exec(c, s, SecondCount(key)) == EMPTY.(observers := [Emit0(c, key), Heading(key, ZERO_TIME, 0, [])])
  {
    hide Inv, Finish, Exec, Emit0;
    var s1 := EMPTY.(observers := [Emit0(c, key), Counting(key, ZERO_TIME, [])]);
    assert |key| == 32 by { KeySize(c, key, s); }
    StepKeepsInv(c, key, s, StartSth(key, ZERO_TIME));
    assert Apply(c, s, StartSth(key, ZERO_TIME)) == s1;
    FirstScanOfEmitSth(c, key, s1, 1);
    ExecOne(c, s, StartSth(key, ZERO_TIME));
    ExecSnoc(c, s, [StartSth(key, ZERO_TIME)], AtEof(1));
  }

  lemma KeySize(c: Crypto, key: Bytes, s: State)
    requires Inv(c, key, s)
    ensures |key| == 32
  {
  }

  lemma ThirdLeg(c: Crypto, key: Bytes, s: State)
    requires Inv(c, key, s) && s.flock.None? && s.objectLocks == map[] && s.writers == [] && s.file == [] && s.log == []
    ensures var t := Exec(c, s, Commit(key)); |t.log| == 1 && t.observers == s.observers
  {
    hide Exec, AppendOutcome, Repeat, RecordLine, WritersOk, ObserversOk;
    var s1 := s.(writers := [Writer(PlainJob(key), Start)]);
    ExecOne(c, s, Spawn(PlainJob(key)));
    ExecConcat(c, s, [Spawn(PlainJob(key))], Repeat(Advance(0), 8));
    assert Apply(c, s, Spawn(PlainJob(key))) == s1;
    LoneWriterAppends(c, s1, 0);
    AppendToHonestFile(c, "srv", Some(key), PlainJob(key).call, [], c.publicOf(key));
  }

  lemma FourthLeg(c: Crypto, key: Bytes, s: State)
    requires Inv(c, key, s)
    requires |s.observers| == 2 && s.observers[1] == Heading(key, ZERO_TIME, 0, [])
    ensures Exec(c, s, SecondHead(s.file)).observers
            == [s.observers[0], Emitted(SignTreeHead(c, key, 0, Head(c, s.log), ZERO_TIME), 0, |s.log|)]
  {
    hide Inv, Finish, SignTreeHead, Head, Exec;
    var s1 := s.(observers := s.observers[1 := Heading(key, ZERO_TIME, 0, s.file)]);
    assert [] + s.file[0..0 + |s.file|] == s.file;
    assert Apply(c, s, Read(1, |s.file|)) == s1;
    StepKeepsInv(c, key, s, Read(1, |s.file|));
    SecondScanOfEmitSth(c, key, s1, 1);
    ExecOne(c, s, Read(1, |s.file|));
    ExecSnoc(c, s, [Read(1, |s.file|)], AtEof(1));
  }

  lemma FourthLegKeepsLog(c: Crypto, s: State)
    ensures Exec(c, s, SecondHead(s.file)).log == s.log
  {
    hide Exec, Finish, ReadSome;
    ExecOne(c, s, Read(1, |s.file|));
    ExecSnoc(c, s, [Read(1, |s.file|)], AtEof(1));
  }

  // ---------------------------------------------------------------- the run

  lemma {:induction false} RepeatKey(key: Bytes, n: nat)
    ensures forall a | a in Repeat(Advance(0), n) :: UsesKey(key, a)
  {
    if n > 0 { RepeatKey(key, n - 1); }
  }

  lemma LegsUseKey(key: Bytes, file: Bytes)
    requires |key| == 32
    ensures OneKey(key, HeadOfEmpty(key)) && OneKey(key, HeadOfEmpty(key) + SecondCount(key))
    ensures OneKey(key, HeadOfEmpty(key) + SecondCount(key) + Commit(key))
    ensures OneKey(key, HeadOfEmpty(key) + SecondCount(key) + Commit(key) + SecondHead(file))
  {
    hide Repeat;
    RepeatKey(key, 8);
  }

  /**
   * With a tree head of the empty log at hand, a second `emit_sth` counts no records, an append commits, and that same
   * `emit_sth` signs the new head. Both heads are valid and claim length 0: evidence against a server that never
   * forked.
   */
  lemma HonestServerLooksEquivocal(c: Crypto, key: Bytes) returns (schedule: seq<Action>)
    requires |key| == 32
    ensures OneKey(key, schedule)
    ensures var s := Exec(c, EMPTY, schedule);
            && |s.log| == 1
            && |s.observers| == 2 && s.observers[0].Emitted? && s.observers[1].Emitted?
            && s.observers[0].head.Ok? && s.observers[1].head.Ok?
            && (DetectEquivocation(c, s.observers[0].head.value, s.observers[1].head.value, c.publicOf(key)) == Ok(true)
                || Genuine(c, ZeroPreimage(RecordBytes(s.log[0]))))
  {
    hide Exec, Inv, Apply, SignTreeHead, DetectEquivocation, Genuine, HeadOfEmpty, SecondCount,
         Commit, SecondHead, OneKey, Head;
    var leg1 := HeadOfEmpty(key);
    var leg2 := leg1 + SecondCount(key);
    var leg3 := leg2 + Commit(key);
    var s1, s2, s3 := Exec(c, EMPTY, leg1), Exec(c, EMPTY, leg2), Exec(c, EMPTY, leg3);
    schedule := leg3 + SecondHead(s3.file);
    LegsUseKey(key, s3.file);
    FirstLeg(c, key);
    EveryRun(c, key, leg1);
    SecondLeg(c, key, s1);
    ExecConcat(c, EMPTY, leg1, SecondCount(key));
    EveryRun(c, key, leg2);
    ThirdLeg(c, key, s2);
    ExecConcat(c, EMPTY, leg2, Commit(key));
    EveryRun(c, key, leg3);
    FourthLeg(c, key, s3);
    FourthLegKeepsLog(c, s3);
    ExecConcat(c, EMPTY, leg3, SecondHead(s3.file));
    TreeHeadSigned(c, key, 0, Head(c, []));
    TreeHeadSigned(c, key, 0, Head(c, s3.log));
    EvidenceFromLengths(c, key, schedule, 0, 1);
    assert s3.log[..0] == [] && s3.log[..1] == s3.log;
  }
}
