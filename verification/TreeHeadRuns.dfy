/** Tree heads in whole runs: where the two scans of `emit_sth` end decides what is claimed and what is signed. */
module TreeHeadRuns {
  import opened Wrappers
  import opened ByteStrings
  import opened Crypto
  import opened Chain
  import opened Append
  import opened Framing
  import opened TreeHeads
  import opened Binding
  import opened Protocol
  import opened ProtocolSafety
  import opened ProtocolTheorems

  // ---------------------------------------------------------------- the end of a scan, as one step

  /** Observer `o` is in the first scan of `emit_sth` and has read the whole file. */
  predicate CountEnds(s: State, o: nat) {
    o < |s.observers| && s.observers[o].Counting? && |s.observers[o].got| == |s.file|
  }

  /** Observer `o` is in the second scan of `emit_sth` and has read the whole file. */
  predicate HeadEnds(s: State, o: nat) {
    o < |s.observers| && s.observers[o].Heading? && |s.observers[o].got| == |s.file|
  }

  /** The first scan claims the length of the log at the moment it meets the end of the file. */
  lemma FirstScanOfEmitSth(c: Crypto, key: Bytes, s: State, o: nat)
    requires Inv(c, key, s) && CountEnds(s, o)
    ensures Apply(c, s, AtEof(o)).observers[o] == Heading(s.observers[o].key, s.observers[o].timestamp, |s.log|, [])
  {
    hide FileOf, ChainValid, WritersOk, Locks, Ledger, TextLines, HeadHashOf, SignTreeHead, HeadOfPrefix, HashOfLast,
         ScanLast, LinesFor, LastOf, Head, UsesKey;
    assert ObserverOk(c, key, s, s.observers[o]);
    ScansAgree(c, c.publicOf(key), s.log);
    assert s.observers[o].got == s.file;
  }

  /** The second scan signs the head of the log at its own end of file, under the length claimed before. */
  lemma SecondScanOfEmitSth(c: Crypto, key: Bytes, s: State, o: nat)
    requires Inv(c, key, s) && HeadEnds(s, o)
    ensures var Heading(k, timestamp, claimed, _) := s.observers[o];
            && claimed <= |s.log|
            && Apply(c, s, AtEof(o)).observers[o]
               == Emitted(SignTreeHead(c, k, claimed, Head(c, s.log), timestamp), claimed, |s.log|)
  {
    hide FileOf, ChainValid, WritersOk, Locks, Ledger, TextLines, HeadHashOf, SignTreeHead, HeadOfPrefix, HashOfLast,
         ScanLast, LinesFor, LastOf, Head, UsesKey;
    assert ObserverOk(c, key, s, s.observers[o]);
    ScansAgree(c, c.publicOf(key), s.log);
    assert s.observers[o].got == s.file;
  }

  /** Every tree head emitted signs the head of some prefix no shorter than it claims, and verifies. */
  lemma TreeHeadsSignPrefixes(c: Crypto, key: Bytes, schedule: seq<Action>, o: nat)
    requires OneKey(key, schedule)
    requires var s := Exec(c, EMPTY, schedule); o < |s.observers| && s.observers[o].Emitted? && s.observers[o].head.Ok?
    ensures var s := Exec(c, EMPTY, schedule);
            var Emitted(head, claimed, signed) := s.observers[o];
            claimed <= signed && HeadOfPrefix(c, c.publicOf(key), head.value, s.log, claimed, signed)
  {
    hide Exec, FileOk, WritersOk, Locks, Ledger, HeadOfPrefix;
    EveryRun(c, key, schedule);
    assert ObserverOk(c, key, Exec(c, EMPTY, schedule), Exec(c, EMPTY, schedule).observers[o]);
  }

  // ---------------------------------------------------------------- points of a run

  /** The state before action `i` of a run. */
  function At(c: Crypto, schedule: seq<Action>, i: nat): State
    requires i <= |schedule|
  {
    Exec(c, EMPTY, schedule[..i])
  }

  lemma AtStep(c: Crypto, schedule: seq<Action>, i: nat)
    requires i < |schedule|
    ensures At(c, schedule, i + 1) == Apply(c, At(c, schedule, i), schedule[i])
  {
    hide Exec, Apply;
    assert schedule[..i + 1] == schedule[..i] + [schedule[i]];
    ExecSnoc(c, EMPTY, schedule[..i], schedule[i]);
  }

  lemma AtEnd(c: Crypto, schedule: seq<Action>)
    ensures At(c, schedule, |schedule|) == Exec(c, EMPTY, schedule)
  {
    hide Exec;
    assert schedule[..|schedule|] == schedule;
  }

  lemma AtKeepsInv(c: Crypto, key: Bytes, schedule: seq<Action>, i: nat)
    requires OneKey(key, schedule) && i <= |schedule|
    ensures Inv(c, key, At(c, schedule, i))
  {
    hide Exec, Inv;
    EveryRun(c, key, schedule[..i]);
  }

  /** The step that puts a record in the file. */
  predicate Commits(s: State, a: Action) {
    a.Advance? && a.w < |s.writers| && s.writers[a.w].pc.Signed?
  }

  lemma LogGrowsByCommits(c: Crypto, s: State, a: Action)
    ensures s.log <= Apply(c, s, a).log && |Apply(c, s, a).log| == |s.log| + if Commits(s, a) then 1 else 0
  {
    hide NextRecord, ScanLast, HashPayloads, RecordLine, IssueReceipt, Finish, ReadSome;
  }

  /** No record is committed between points `i` and `j` of a run, in whichever order they lie. */
  ghost predicate Quiet(c: Crypto, schedule: seq<Action>, i: nat, j: nat)
    requires i <= |schedule| && j <= |schedule|
  {
    forall k: nat | i <= k < j || j <= k < i :: !Commits(At(c, schedule, k), schedule[k])
  }

  /** The log at two points is the same exactly when nothing is committed between them. */
  lemma {:induction false} QuietForward(c: Crypto, schedule: seq<Action>, i: nat, j: nat)
    requires i <= j <= |schedule|
    ensures At(c, schedule, i).log <= At(c, schedule, j).log
    ensures Quiet(c, schedule, i, j) <==> |At(c, schedule, i).log| == |At(c, schedule, j).log|
    decreases j
  {
    hide At, Apply, Commits;
    if i < j {
      QuietForward(c, schedule, i, j - 1);
      AtStep(c, schedule, j - 1);
      LogGrowsByCommits(c, At(c, schedule, j - 1), schedule[j - 1]);
    }
  }

  lemma QuietExact(c: Crypto, schedule: seq<Action>, i: nat, j: nat)
    requires i <= |schedule| && j <= |schedule|
    ensures Quiet(c, schedule, i, j) <==> |At(c, schedule, i).log| == |At(c, schedule, j).log|
    ensures Quiet(c, schedule, i, j) <==> At(c, schedule, i).log == At(c, schedule, j).log
  {
    hide At, Commits;
    if i <= j { QuietForward(c, schedule, i, j); } else { QuietForward(c, schedule, j, i); }
  }

  // ---------------------------------------------------------------- an emitter between its scans

  /** What a tree-head emitter keeps: the key, timestamp and claim of a second scan, and all of an emitted head. */
  ghost predicate Keeps(before: Observer, after: Observer) {
    match before
    case Heading(k, timestamp, claimed, _) =>
      after.Emitted? || (after.Heading? && after.key == k && after.timestamp == timestamp && after.claimed == claimed)
    case Emitted(_, _, _) => after == before
    case _ => true
  }

  lemma StepKeepsEmitter(c: Crypto, s: State, a: Action, o: nat)
    requires o < |s.observers|
    ensures o < |Apply(c, s, a).observers| && Keeps(s.observers[o], Apply(c, s, a).observers[o])
  {
    hide NextRecord, ScanLast, HashPayloads, RecordLine, IssueReceipt, SignTreeHead, HeadHashOf, TextLines, MoreBytes;
  }

  /** Nothing in between changes what the first scan recorded, or a tree head once emitted. */
  lemma {:induction false} RunKeepsEmitter(c: Crypto, schedule: seq<Action>, i: nat, j: nat, o: nat)
    requires i <= j <= |schedule| && o < |At(c, schedule, i).observers|
    ensures o < |At(c, schedule, j).observers|
    ensures Keeps(At(c, schedule, i).observers[o], At(c, schedule, j).observers[o])
    decreases j
  {
    hide At, Apply;
    if i < j {
      RunKeepsEmitter(c, schedule, i, j - 1, o);
      AtStep(c, schedule, j - 1);
      StepKeepsEmitter(c, At(c, schedule, j - 1), schedule[j - 1], o);
    }
  }

  /** The two scans of one `emit_sth` call meet the end of the file at actions `i` and `j`. */
  ghost predicate TwoScans(c: Crypto, schedule: seq<Action>, o: nat, i: nat, j: nat) {
    && i < j < |schedule|
    && schedule[i] == AtEof(o) && CountEnds(At(c, schedule, i), o)
    && schedule[j] == AtEof(o) && HeadEnds(At(c, schedule, j), o)
  }

  lemma ScansInside(c: Crypto, schedule: seq<Action>, o: nat, i: nat, j: nat)
    requires TwoScans(c, schedule, o, i, j)
    ensures i < j < |schedule|
  {
  }

  /**
   * In every run, `emit_sth` claims the length the log has when its first scan ends and signs the head the log has when
   * its second scan ends; claim and signed prefix agree exactly when no record is committed between the two.
   */
  lemma EmitSthInRun(c: Crypto, key: Bytes, schedule: seq<Action>, o: nat, i: nat, j: nat)
    requires OneKey(key, schedule) && TwoScans(c, schedule, o, i, j)
    ensures var s, first, second := Exec(c, EMPTY, schedule), At(c, schedule, i), At(c, schedule, j);
            && o < |s.observers| && first.log <= second.log <= s.log
            && s.observers[o] == Emitted(SignTreeHead(c, first.observers[o].key, |first.log|, Head(c, second.log),
                                                      first.observers[o].timestamp), |first.log|, |second.log|)
    ensures |At(c, schedule, i).log| == |At(c, schedule, j).log| <==> Quiet(c, schedule, i, j)
  {
    hide At, Exec, Inv, Apply, SignTreeHead, Head;
    AtKeepsInv(c, key, schedule, i);
    FirstScanOfEmitSth(c, key, At(c, schedule, i), o);
    AtStep(c, schedule, i);
    EmitterGrows(c, schedule, i, o);
    RunKeepsEmitter(c, schedule, i + 1, j, o);
    AtKeepsInv(c, key, schedule, j);
    SecondScanOfEmitSth(c, key, At(c, schedule, j), o);
    AtStep(c, schedule, j);
    EmitterGrows(c, schedule, j, o);
    RunKeepsEmitter(c, schedule, j + 1, |schedule|, o);
    AtEnd(c, schedule);
    QuietForward(c, schedule, i, j);
    QuietForward(c, schedule, j, |schedule|);
  }

  lemma EmitterGrows(c: Crypto, schedule: seq<Action>, i: nat, o: nat)
    requires i < |schedule| && o < |At(c, schedule, i).observers|
    ensures o < |At(c, schedule, i + 1).observers|
  {
    RunKeepsEmitter(c, schedule, i, i + 1, o);
  }

  /** Only the end of a scan starts the next phase of an emitter. */
  lemma PhaseBegins(c: Crypto, s: State, a: Action, o: nat)
    requires o < |Apply(c, s, a).observers|
    ensures Apply(c, s, a).observers[o].Heading? ==>
              o < |s.observers| && (s.observers[o].Heading? || (a == AtEof(o) && CountEnds(s, o)))
    ensures Apply(c, s, a).observers[o].Emitted? ==>
              o < |s.observers| && (s.observers[o].Emitted? || (a == AtEof(o) && (CountEnds(s, o) || HeadEnds(s, o))))
  {
    hide NextRecord, ScanLast, HashPayloads, RecordLine, IssueReceipt, SignTreeHead, HeadHashOf, TextLines, MoreBytes;
  }

  /** In an honest run the first scan does not fail, so a tree head is emitted at the end of a second one. */
  lemma BeginsEmitted(c: Crypto, key: Bytes, s: State, a: Action, o: nat)
    requires Inv(c, key, s) && o < |Apply(c, s, a).observers| && Apply(c, s, a).observers[o].Emitted?
    ensures o < |s.observers| && (s.observers[o].Emitted? || (a == AtEof(o) && HeadEnds(s, o)))
  {
    hide Inv, Apply, CountEnds, HeadEnds;
    PhaseBegins(c, s, a, o);
    if a == AtEof(o) && CountEnds(s, o) { FirstScanOfEmitSth(c, key, s, o); }
  }

  lemma {:induction false} HeadingCounted(c: Crypto, schedule: seq<Action>, o: nat, n: nat) returns (i: nat)
    requires n <= |schedule|
    requires o < |At(c, schedule, n).observers| && At(c, schedule, n).observers[o].Heading?
    ensures i < n && schedule[i] == AtEof(o) && CountEnds(At(c, schedule, i), o)
    decreases n
  {
    hide At, Apply, CountEnds;
    if n == 0 {
      AtStart(c, schedule);
      assert false;
    } else {
      AtStep(c, schedule, n - 1);
      PhaseBegins(c, At(c, schedule, n - 1), schedule[n - 1], o);
      if At(c, schedule, n - 1).observers[o].Heading? {
        i := HeadingCounted(c, schedule, o, n - 1);
      } else {
        i := n - 1;
      }
    }
  }

  lemma AtStart(c: Crypto, schedule: seq<Action>)
    ensures At(c, schedule, 0) == EMPTY
  {
  }

  /** Every tree head emitted in a run comes from two such scans. */
  lemma EmittedByTwoScans(c: Crypto, key: Bytes, schedule: seq<Action>, o: nat) returns (i: nat, j: nat)
    requires OneKey(key, schedule)
    requires o < |Exec(c, EMPTY, schedule).observers| && Exec(c, EMPTY, schedule).observers[o].Emitted?
    ensures TwoScans(c, schedule, o, i, j)
  {
    AtEnd(c, schedule);
    j := EmittedHeaded(c, key, schedule, o, |schedule|);
    i := HeadingCounted(c, schedule, o, j);
  }

  lemma {:induction false} EmittedHeaded(c: Crypto, key: Bytes, schedule: seq<Action>, o: nat, n: nat) returns (j: nat)
    requires OneKey(key, schedule) && n <= |schedule|
    requires o < |At(c, schedule, n).observers| && At(c, schedule, n).observers[o].Emitted?
    ensures j < n && schedule[j] == AtEof(o) && HeadEnds(At(c, schedule, j), o)
    decreases n
  {
    hide At, Apply, Inv, OneKey, HeadEnds;
    if n == 0 {
      AtStart(c, schedule);
      assert false;
    } else {
      AtStep(c, schedule, n - 1);
      AtKeepsInv(c, key, schedule, n - 1);
      BeginsEmitted(c, key, At(c, schedule, n - 1), schedule[n - 1], o);
      if At(c, schedule, n - 1).observers[o].Emitted? {
        j := EmittedHeaded(c, key, schedule, o, n - 1);
      } else {
        j := n - 1;
      }
    }
  }

  // ---------------------------------------------------------------- evidence against an honest server

  /** What any two tree heads of one run come to as evidence, from the lengths they claim and sign. */
  lemma EvidenceFromLengths(c: Crypto, key: Bytes, schedule: seq<Action>, a: nat, b: nat)
    requires OneKey(key, schedule)
    requires var s := Exec(c, EMPTY, schedule);
             && a < |s.observers| && s.observers[a].Emitted? && s.observers[a].head.Ok?
             && b < |s.observers| && s.observers[b].Emitted? && s.observers[b].head.Ok?
    ensures var s := Exec(c, EMPTY, schedule);
            var Emitted(ha, claimedA, signedA) := s.observers[a];
            var Emitted(hb, claimedB, signedB) := s.observers[b];
            var evidence := DetectEquivocation(c, ha.value, hb.value, c.publicOf(key));
            && (evidence == Ok(true) ==> claimedA == claimedB && signedA != signedB)
            && signedA <= |s.log| && signedB <= |s.log|
            && (claimedA == claimedB && signedA != signedB ==>
                  evidence == Ok(true) || Genuine(c, WalkBack(c, s.log[..signedA], s.log[..signedB])))
            && (claimedA == signedA && claimedB == signedB ==> evidence == Ok(false))
  {
    hide Exec, DetectEquivocation, VerifyTreeHead, Head, WritersOk, Locks, Ledger, ChainValid, FileOf, Genuine,
         WalkBack;
    var s := Exec(c, EMPTY, schedule);
    EveryRun(c, key, schedule);
    TreeHeadsSignPrefixes(c, key, schedule, a);
    TreeHeadsSignPrefixes(c, key, schedule, b);
    EvidenceFromOneLog(c, c.publicOf(key), s.log, s.observers[a].head.value, s.observers[a].claimed,
                       s.observers[a].signed, s.observers[b].head.value, s.observers[b].claimed, s.observers[b].signed);
  }

  /**
   * Exactly which pairs of `emit_sth` calls of one run read as equivocation by an honest server: those with no commit
   * between the ends of their first scans and some commit between the ends of their second scans. Two calls, neither of
   * which has a commit between its own two scans, never do.
   */
  lemma EvidenceInOneRun(c: Crypto, key: Bytes, schedule: seq<Action>, a: nat, ia: nat, ja: nat,
                         b: nat, ib: nat, jb: nat)
    requires OneKey(key, schedule) && TwoScans(c, schedule, a, ia, ja) && TwoScans(c, schedule, b, ib, jb)
    requires var s := Exec(c, EMPTY, schedule);
             a < |s.observers| && s.observers[a].Emitted? && s.observers[a].head.Ok? &&
             b < |s.observers| && s.observers[b].Emitted? && s.observers[b].head.Ok?
    ensures var s := Exec(c, EMPTY, schedule);
            var ha, hb := s.observers[a].head.value, s.observers[b].head.value;
            var evidence := DetectEquivocation(c, ha, hb, c.publicOf(key));
            && (evidence == Ok(true) ==> Quiet(c, schedule, ia, ib) && !Quiet(c, schedule, ja, jb))
            && (Quiet(c, schedule, ia, ib) && !Quiet(c, schedule, ja, jb) ==>
                  evidence == Ok(true) || Genuine(c, WalkBack(c, At(c, schedule, ja).log, At(c, schedule, jb).log)))
            && (Quiet(c, schedule, ia, ja) && Quiet(c, schedule, ib, jb) ==> evidence == Ok(false))
  {
    hide At, Exec, DetectEquivocation, SignTreeHead, Quiet, Genuine, WalkBack, OneKey, TwoScans, Head;
    EmitSthInRun(c, key, schedule, a, ia, ja);
    EmitSthInRun(c, key, schedule, b, ib, jb);
    EvidenceFromLengths(c, key, schedule, a, b);
    ScansInside(c, schedule, a, ia, ja);
    ScansInside(c, schedule, b, ib, jb);
    QuietExact(c, schedule, ia, ib);
    QuietExact(c, schedule, ja, jb);
    var s := Exec(c, EMPTY, schedule);
    assert s.log[..|At(c, schedule, ja).log|] == At(c, schedule, ja).log;
    assert s.log[..|At(c, schedule, jb).log|] == At(c, schedule, jb).log;
  }
}
