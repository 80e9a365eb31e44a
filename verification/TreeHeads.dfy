/** Signed tree heads, and the evidence two of them can make. */
module TreeHeads {
  import opened Wrappers
  import opened Errors
  import opened ByteStrings
  import opened Json
  import opened Crypto
  import opened Entry
  import opened Chain
  import opened Binding
  import Canonical

  /** The second half of `emit_sth`: sign what the two scans found. */
  function SignTreeHead(c: Crypto, key: Bytes, chainLength: int, headHash: string, timestamp: PyFloat)
    : Result<SignedTreeHead, Error>
  {
    var payload :- Canonical.Dumps(TreeHeadPayload(SignedTreeHead(chainLength, headHash, timestamp, "")));
    var signature :- Sign(c, key, payload);
    Ok(SignedTreeHead(chainLength, headHash, timestamp, Hex(signature)))
  }

  function VerifyTreeHead(c: Crypto, h: SignedTreeHead, publicKey: Bytes): Result<bool, Error> {
    var payload :- Canonical.Dumps(TreeHeadPayload(h));
    match FromHex(h.signature)
    case None => Err(BadHex)
    case Some(signature) => Ok(Verify(c, publicKey, payload, signature))
  }

  function DetectEquivocation(c: Crypto, a: SignedTreeHead, b: SignedTreeHead, publicKey: Bytes): Result<bool, Error> {
    var validA :- VerifyTreeHead(c, a, publicKey);
    if !validA then Ok(false) else
    var validB :- VerifyTreeHead(c, b, publicKey);
    if !validB then Ok(false)
    else if a.chainLength != b.chainLength then Ok(false)
    else Ok(a.headHash != b.headHash)
  }

  /** The library accepts the tree head's signature on the bytes of its payload. */
  ghost predicate HeadSignedUnder(c: Crypto, publicKey: Bytes, h: SignedTreeHead) {
    && |publicKey| == 32
    && Canonical.Dumps(TreeHeadPayload(h)).Ok? && FromHex(h.signature).Some? && |FromHex(h.signature).value| == 64
    && c.accepts(publicKey, Canonical.Dumps(TreeHeadPayload(h)).value, FromHex(h.signature).value)
  }

  /** There is something to ask the library: a payload that can be dumped and a signature that is hex. */
  ghost predicate Answerable(h: SignedTreeHead) {
    h.timestamp.Finite? && FromHex(h.signature).Some?
  }

  lemma PayloadFinite(h: SignedTreeHead)
    ensures Canonical.Dumps(TreeHeadPayload(h)).Ok? <==> h.timestamp.Finite?
    ensures Canonical.Dumps(TreeHeadPayload(h)).Err? ==> Canonical.Dumps(TreeHeadPayload(h)) == Err(Canonicalization)
  {
    var ms := TreeHeadPayload(h).members;
    assert ms[2] in ms && forall m | m in ms :: m == ms[0] || m == ms[1] || m == ms[2];
    assert !HasNonFinite(ms[0].value) && !HasNonFinite(ms[1].value);
    assert HasNonFinite(ms[2].value) <==> !h.timestamp.Finite?;
  }

  /** `verify_sth` says yes exactly for a signature the library accepts, and raises exactly where it cannot ask. */
  lemma VerifyTreeHeadExact(c: Crypto, h: SignedTreeHead, publicKey: Bytes)
    ensures VerifyTreeHead(c, h, publicKey) == Ok(true) <==> HeadSignedUnder(c, publicKey, h)
    ensures VerifyTreeHead(c, h, publicKey) == Ok(false) <==> Answerable(h) && !HeadSignedUnder(c, publicKey, h)
    ensures VerifyTreeHead(c, h, publicKey) == Err(Canonicalization) <==> !h.timestamp.Finite?
    ensures VerifyTreeHead(c, h, publicKey) == Err(BadHex) <==> h.timestamp.Finite? && FromHex(h.signature).None?
  {
    PayloadFinite(h);
    hide Canonical.Dumps, TreeHeadPayload, FromHex;
  }

  /** A tree head is signed exactly with a key of 32 bytes and a finite timestamp, over the fields it is given. */
  lemma SignTreeHeadExact(c: Crypto, key: Bytes, chainLength: int, headHash: string, timestamp: PyFloat)
    ensures var r := SignTreeHead(c, key, chainLength, headHash, timestamp);
            && (!timestamp.Finite? ==> r == Err(Canonicalization))
            && (timestamp.Finite? && |key| != 32 ==> r == Err(BadKeyLength))
            && (timestamp.Finite? && |key| == 32 ==>
                  r.Ok? && r.value == SignedTreeHead(chainLength, headHash, timestamp, r.value.signature)
                  && HeadSignedUnder(c, c.publicOf(key), r.value))
  {
    PayloadFinite(SignedTreeHead(chainLength, headHash, timestamp, ""));
    if timestamp.Finite? && |key| == 32 {
      SignedTreeHeadVerifies(c, key, chainLength, headHash, timestamp);
      VerifyTreeHeadExact(c, SignTreeHead(c, key, chainLength, headHash, timestamp).value, c.publicOf(key));
    }
  }

  /**
   * Evidence takes two signatures the library accepts, one length and two hashes. A head that is not signed so proves
   * nothing: the answer is no, and the second head is not even looked at when it is the first.
   */
  lemma EvidenceExact(c: Crypto, a: SignedTreeHead, b: SignedTreeHead, publicKey: Bytes)
    ensures var (v, signedA, signedB) := (DetectEquivocation(c, a, b, publicKey), HeadSignedUnder(c, publicKey, a),
                                          HeadSignedUnder(c, publicKey, b));
            && (v == Ok(true) <==> signedA && signedB && a.chainLength == b.chainLength && a.headHash != b.headHash)
            && (v == Ok(false) <==>
                  Answerable(a) && (!signedA || (Answerable(b) &&
                    (!signedB || a.chainLength != b.chainLength || a.headHash == b.headHash))))
            && (v.Err? <==> !Answerable(a) || (signedA && !Answerable(b)))
    ensures DetectEquivocation(c, a, b, publicKey) == Ok(true) <==> DetectEquivocation(c, b, a, publicKey) == Ok(true)
  {
    hide VerifyTreeHead, HeadSignedUnder, FromHex;
    VerifyTreeHeadExact(c, a, publicKey);
    VerifyTreeHeadExact(c, b, publicKey);
    if HeadSignedUnder(c, publicKey, a) { SignedIsAnswerable(c, publicKey, a); }
    if HeadSignedUnder(c, publicKey, b) { SignedIsAnswerable(c, publicKey, b); }
  }

  lemma SignedIsAnswerable(c: Crypto, publicKey: Bytes, h: SignedTreeHead)
    requires HeadSignedUnder(c, publicKey, h)
    ensures Answerable(h)
  {
    PayloadFinite(h);
  }

  lemma SignedTreeHeadVerifies(c: Crypto, key: Bytes, chainLength: int, headHash: string, timestamp: PyFloat)
    requires SignTreeHead(c, key, chainLength, headHash, timestamp).Ok?
    ensures VerifyTreeHead(c, SignTreeHead(c, key, chainLength, headHash, timestamp).value, c.publicOf(key)) == Ok(true)
  {
    hide Canonical.Dumps;
    var blank := SignedTreeHead(chainLength, headHash, timestamp, "");
    var payload := Canonical.Dumps(TreeHeadPayload(blank)).value;
    FromHexInvertsHex(c.signWith(key, payload));
    assert TreeHeadPayload(SignTreeHead(c, key, chainLength, headHash, timestamp).value) == TreeHeadPayload(blank);
  }

  /** A valid tree head of the first `n` records of a log, claiming length `length`. */
  ghost predicate HeadOfPrefix(c: Crypto, pk: Bytes, h: SignedTreeHead, log: seq<SignedRecord>, length: nat, n: nat) {
    n <= |log| && h.chainLength == length && h.headHash == Head(c, log[..n]) && VerifyTreeHead(c, h, pk) == Ok(true)
  }

  /** Signing the head of a prefix under a claimed length makes such a tree head. */
  lemma SignedHeadOfPrefix(c: Crypto, key: Bytes, log: seq<SignedRecord>, length: nat, n: nat, timestamp: PyFloat)
    requires n <= |log| && SignTreeHead(c, key, length, Head(c, log[..n]), timestamp).Ok?
    ensures HeadOfPrefix(c, c.publicOf(key), SignTreeHead(c, key, length, Head(c, log[..n]), timestamp).value,
                         log, length, n)
  {
    hide VerifyTreeHead, Head, Canonical.Dumps;
    SignedTreeHeadVerifies(c, key, length, Head(c, log[..n]), timestamp);
  }

  /** Two histories that differ below a common length are proved apart by any valid tree heads of that length. */
  lemma ForkIsEvidence(c: Crypto, pk: Bytes, a: seq<SignedRecord>, b: seq<SignedRecord>, i: nat, n: nat,
                       ha: SignedTreeHead, hb: SignedTreeHead)
    requires ChainValid(c, pk, a) && ChainValid(c, pk, b)
    requires i < n <= |a| && n <= |b| && a[i] != b[i]
    requires HeadOfPrefix(c, pk, ha, a, n, n) && HeadOfPrefix(c, pk, hb, b, n, n)
    ensures DetectEquivocation(c, ha, hb, pk) == Ok(true) || Genuine(c, WalkBack(c, a[..n], b[..n]))
  {
    hide ChainValid, Head, VerifyTreeHead, WalkBack, Genuine;
    ForksStayApart(c, pk, pk, a, b, i, n);
  }

  /**
   * Exactly when two valid tree heads of one log read as equivocation: they claim one length but were signed over
   * prefixes of different lengths. Heads whose claim equals their prefix never do.
   */
  lemma EvidenceFromOneLog(c: Crypto, pk: Bytes, log: seq<SignedRecord>,
                           ha: SignedTreeHead, lengthA: nat, a: nat, hb: SignedTreeHead, lengthB: nat, b: nat)
    requires ChainValid(c, pk, log)
    requires HeadOfPrefix(c, pk, ha, log, lengthA, a) && HeadOfPrefix(c, pk, hb, log, lengthB, b)
    ensures DetectEquivocation(c, ha, hb, pk) == Ok(true) ==> lengthA == lengthB && a != b
    ensures lengthA == lengthB && a != b ==>
              DetectEquivocation(c, ha, hb, pk) == Ok(true) || Genuine(c, WalkBack(c, log[..a], log[..b]))
    ensures lengthA == a && lengthB == b ==> DetectEquivocation(c, ha, hb, pk) == Ok(false)
  {
    hide VerifyTreeHead, WalkBack, Genuine, CheckSignature, RecordHash;
    if lengthA == lengthB && a != b && Head(c, log[..a]) == Head(c, log[..b]) {
      ValidPrefix(c, pk, log, a);
      ValidPrefix(c, pk, log, b);
      HeadDeterminesHistory(c, pk, pk, log[..a], log[..b]);
    }
  }

  /** A log cut short still verifies, but not against a tree head of the records it lost. */
  lemma TruncationShowsAgainstHead(c: Crypto, pk: Bytes, log: seq<SignedRecord>, n: nat, h: SignedTreeHead, m: nat)
    requires ChainValid(c, pk, log) && n < m <= |log| && HeadOfPrefix(c, pk, h, log, m, m)
    ensures ChainVerdict(c, pk, Stream(log[..n], None)) == Verdict(true, n, None, None)
    ensures h.chainLength != n
    ensures Head(c, log[..n]) != h.headHash || Genuine(c, WalkBack(c, log[..n], log[..m]))
  {
    hide VerifyTreeHead, WalkBack, Genuine, Linked, RecordHash, ChainVerdict;
    PrefixesVerify(c, pk, log, n);
    ValidPrefix(c, pk, log, n);
    ValidPrefix(c, pk, log, m);
    if Head(c, log[..n]) == h.headHash { HeadDeterminesHistory(c, pk, pk, log[..n], log[..m]); }
  }
}
