/** What a chain that verifies commits to: its whole history, against forks, edits and rearrangement. */
module Binding {
  import opened Wrappers
  import opened ByteStrings
  import opened Crypto
  import opened Entry
  import opened Chain

  // ---------------------------------------------------------------- the head names the history

  /** Walk two logs back from their ends to the first records that differ, or to the end of the shorter log. */
  function WalkBack(c: Crypto, a: seq<SignedRecord>, b: seq<SignedRecord>): Evidence
    decreases |a|
  {
    var m, n := |a| - 1, |b| - 1;
    if a == [] then ZeroPreimage(if b == [] then [] else RecordBytes(b[n]))
    else if b == [] then ZeroPreimage(RecordBytes(a[m]))
    else if a[m] == b[n] then WalkBack(c, a[..m], b[..n])
    else Collision(RecordBytes(a[m]), RecordBytes(b[n]))
  }

  /**
   * Two verified logs with one head are one log, or the walk back from their heads exhibits why not: a collision,
   * unless exactly one of the logs is empty. `seq` keeps the last records of logs of two lengths apart.
   */
  lemma {:induction false} HeadDeterminesHistory(c: Crypto, pkA: Bytes, pkB: Bytes,
                                                 a: seq<SignedRecord>, b: seq<SignedRecord>)
    requires ChainValid(c, pkA, a) && ChainValid(c, pkB, b)
    requires Head(c, a) == Head(c, b)
    ensures a == b || Genuine(c, WalkBack(c, a, b))
    ensures a != [] && b != [] && a != b ==> WalkBack(c, a, b).Collision?
    decreases |a|
  {
    hide Linked, RecordHash, RecordBytes, Genuine, Writable;
    var m, n := |a| - 1, |b| - 1;
    if a == [] || b == [] {
      if a != [] { ZeroHead(c, a[m]); }
      if b != [] { ZeroHead(c, b[n]); }
    } else {
      LastIsLinked(c, pkA, a);
      LastIsLinked(c, pkB, b);
      RecordHashBinds(c, a[m], b[n]);
      SeqIsIndex(c, pkA, a, m);
      SeqIsIndex(c, pkB, b, n);
      if a[m] == b[n] {
        ValidPrefix(c, pkA, a, m);
        ValidPrefix(c, pkB, b, n);
        HeadDeterminesHistory(c, pkA, pkB, a[..m], b[..n]);
        assert a == a[..m] + [a[m]] && b == b[..n] + [b[n]];
      }
    }
  }

  lemma ZeroHead(c: Crypto, r: SignedRecord)
    requires RecordHash(c, r) == ZERO_HASH_HEX
    ensures Genuine(c, ZeroPreimage(RecordBytes(r)))
  {
    hide RecordBytes;
    ZeroHash(c, RecordBytes(r));
  }

  /** Forks never re-merge: once two verified logs differ, their heads differ at every later common length. */
  lemma ForksStayApart(c: Crypto, pkA: Bytes, pkB: Bytes, a: seq<SignedRecord>, b: seq<SignedRecord>, i: nat, n: nat)
    requires ChainValid(c, pkA, a) && ChainValid(c, pkB, b)
    requires i < n <= |a| && n <= |b| && a[i] != b[i]
    ensures Head(c, a[..n]) != Head(c, b[..n])
            || (WalkBack(c, a[..n], b[..n]).Collision? && Genuine(c, WalkBack(c, a[..n], b[..n])))
  {
    hide CheckSignature, RecordHash, RecordBytes;
    ValidPrefix(c, pkA, a, n);
    ValidPrefix(c, pkB, b, n);
    assert a[..n][i] != b[..n][i];
    if Head(c, a[..n]) == Head(c, b[..n]) {
      HeadDeterminesHistory(c, pkA, pkB, a[..n], b[..n]);
    }
  }

  // ---------------------------------------------------------------- truncation

  /** Truncation by itself goes unnoticed: every prefix of a verified log verifies, with its own length. */
  lemma PrefixesVerify(c: Crypto, pk: Bytes, log: seq<SignedRecord>, n: nat)
    requires ChainValid(c, pk, log) && n <= |log|
    ensures ChainVerdict(c, pk, Stream(log[..n], None)) == Verdict(true, n, None, None)
  {
    hide CheckSignature, RecordHash;
    ValidPrefix(c, pk, log, n);
    VerdictExact(c, pk, Stream(log[..n], None));
  }

  // ---------------------------------------------------------------- replacing a record

  /** Before the replaced record nothing changes, so the first failure cannot lie there. */
  lemma ReplacedPrefix(c: Crypto, pk: Bytes, log: seq<SignedRecord>, k: nat, r: SignedRecord)
    requires ChainValid(c, pk, log) && k < |log|
    ensures var bad := log[k := r];
            ChainValid(c, pk, bad[..k]) && (FaultAt(c, pk, bad, k).None? ==> ChainValid(c, pk, bad[..k + 1]))
  {
    hide CheckSignature, RecordHash;
    var bad := log[k := r];
    ValidPrefix(c, pk, log, k);
    assert bad[..k] == log[..k];
    if FaultAt(c, pk, bad, k).None? { ExtendValid(c, pk, bad, k); }
  }

  /** An edited record that itself passes is caught by its successor's `prev_hash`. */
  lemma SuccessorCatches(c: Crypto, pk: Bytes, log: seq<SignedRecord>, k: nat, r: SignedRecord)
    requires ChainValid(c, pk, log) && k + 1 < |log| && r != log[k]
    requires FaultAt(c, pk, log[k := r], k).None?
    ensures FaultAt(c, pk, log[k := r], k + 1) == Some(PrevHashMismatch)
            || Genuine(c, Collision(RecordBytes(log[k]), RecordBytes(r)))
  {
    hide CheckSignature, RecordHash, RecordBytes;
    var bad := log[k := r];
    assert bad[..k + 1][k] == r && log[..k + 1][k] == log[k];
    assert Linked(c, pk, log, k) && Linked(c, pk, log, k + 1);
    SignatureNeedsWritable(c, pk, log[k]);
    SignatureNeedsWritable(c, pk, r);
    if RecordHash(c, log[k]) == RecordHash(c, r) { RecordHashBinds(c, log[k], r); }
  }

  /** Replacing a record other than the last fails at it or at its successor, whatever replaces it. */
  lemma ReplacementIsCaught(c: Crypto, pk: Bytes, log: seq<SignedRecord>, k: nat, r: SignedRecord)
    requires ChainValid(c, pk, log) && k + 1 < |log| && r != log[k]
    ensures StopsAt(ChainVerdict(c, pk, Stream(log[k := r], None)), k)
            || ChainVerdict(c, pk, Stream(log[k := r], None))
               == Verdict(false, k + 2, Some(k + 1), Some(PrevHashMismatch))
            || Genuine(c, Collision(RecordBytes(log[k]), RecordBytes(r)))
  {
    hide CheckSignature, RecordHash, RecordBytes, ChainVerdict;
    var bad := log[k := r];
    ReplacedPrefix(c, pk, log, k, r);
    VerdictReports(c, pk, bad);
    match FaultAt(c, pk, bad, k)
    case Some(f) => assert FailsFirst(c, pk, bad, k, f);
    case None =>
      SuccessorCatches(c, pk, log, k, r);
      if FaultAt(c, pk, bad, k + 1) == Some(PrevHashMismatch) {
        assert FailsFirst(c, pk, bad, k + 1, PrevHashMismatch);
      }
  }

  /** Replacing the last record fails at it, or verifies under another head. */
  lemma LastReplacementIsCaught(c: Crypto, pk: Bytes, log: seq<SignedRecord>, r: SignedRecord)
    requires ChainValid(c, pk, log) && log != [] && r != log[|log| - 1]
    ensures var k := |log| - 1;
            StopsAt(ChainVerdict(c, pk, Stream(log[k := r], None)), k)
            || (ChainVerdict(c, pk, Stream(log[k := r], None)) == Verdict(true, |log|, None, None)
                && Head(c, log[k := r]) != Head(c, log))
            || Genuine(c, Collision(RecordBytes(log[k]), RecordBytes(r)))
  {
    hide CheckSignature, RecordHash, RecordBytes, ChainVerdict;
    var k := |log| - 1;
    var bad := log[k := r];
    ReplacedPrefix(c, pk, log, k, r);
    VerdictReports(c, pk, bad);
    match FaultAt(c, pk, bad, k)
    case Some(f) => assert FailsFirst(c, pk, bad, k, f);
    case None =>
      assert bad[..k + 1] == bad;
      assert Linked(c, pk, log, k);
      SignatureNeedsWritable(c, pk, log[k]);
      SignatureNeedsWritable(c, pk, r);
      if RecordHash(c, log[k]) == RecordHash(c, r) { RecordHashBinds(c, log[k], r); }
  }

  // ---------------------------------------------------------------- rearranging records

  /** How far `b` runs along `a`. */
  function Agreement(a: seq<SignedRecord>, b: seq<SignedRecord>): (n: nat)
    ensures n <= |a| && n <= |b| && a[..n] == b[..n]
    ensures n == |a| || n == |b| || a[n] != b[n]
  {
    if a == [] || b == [] || a[0] != b[0] then 0
    else
      var n := Agreement(a[1..], b[1..]);
      assert a == [a[0]] + a[1..] && b == [b[0]] + b[1..];
      assert a[..n + 1] == [a[0]] + a[1..][..n] && b[..n + 1] == [b[0]] + b[1..][..n];
      n + 1
  }

  /**
   * Deleting, duplicating and reordering records of a verified log leaves a verified log only when it leaves a prefix;
   * otherwise the walk stops where the records first depart, on the sequence number. No assumption about hashing.
   */
  lemma RearrangementIsCaught(c: Crypto, pk: Bytes, a: seq<SignedRecord>, b: seq<SignedRecord>)
    requires ChainValid(c, pk, a)
    requires forall r | r in b :: r in a
    ensures var n := Agreement(a, b);
            ChainVerdict(c, pk, Stream(b, None))
            == if n == |b| then Verdict(true, |b|, None, None) else Verdict(false, n + 1, Some(n), Some(SeqMismatch))
    ensures Agreement(a, b) == |b| <==> b <= a
  {
    hide Linked, ChainVerdict, Agreement;
    var n := Agreement(a, b);
    ValidPrefix(c, pk, a, n);
    VerdictReports(c, pk, b);
    if n == |b| {
      assert b[..n] == b;
    } else {
      assert b[n] in a;
      var j: nat :| j < |a| && a[j] == b[n];
      SeqIsIndex(c, pk, a, j);
      assert FailsFirst(c, pk, b, n, SeqMismatch) by { OutOfPlace(c, pk, b, n); }
    }
  }

  lemma SeqIsIndex(c: Crypto, pk: Bytes, log: seq<SignedRecord>, j: nat)
    requires ChainValid(c, pk, log) && j < |log|
    ensures log[j].entry.seqNo == j
  {
    hide CheckSignature, RecordHash;
    assert Linked(c, pk, log, j);
  }

  lemma OutOfPlace(c: Crypto, pk: Bytes, log: seq<SignedRecord>, n: nat)
    requires n < |log| && log[n].entry.seqNo != n
    ensures FaultAt(c, pk, log, n) == Some(SeqMismatch)
  {
    hide CheckSignature, RecordHash;
  }
}
