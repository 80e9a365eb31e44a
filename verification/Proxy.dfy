/**
 * `AttestingProxy.handle`, cut at its `await`: `Begin` runs up to it, `Resume` or `UpstreamRaises` runs from it. Any
 * order of these calls is an interleaving of concurrent `handle` coroutines on one event loop.
 */
module Proxy {
  import opened Wrappers
  import opened Errors
  import opened ByteStrings
  import opened Json
  import opened Crypto
  import opened Entry
  import opened Chain
  import opened Append
  import opened Framing
  import opened Log
  import Canonical
  import Receipts
  import opened ProtocolTheorems

  /** What a coroutine keeps across its `await`. */
  datatype Pending = Pending(
    request: seq<Member>, methodName: string, requestId: string, params: Json, tsRequest: PyFloat)

  /** One finished `handle`: what was asked, what came back, what was written and returned. */
  datatype Completion = Completion(pending: Pending, response: Json, record: SignedRecord, receipt: Receipt)

  /** Why a `handle` returns nothing: the response is not a dict, or the append raised. */
  datatype Refusal = NonDictResponse | AppendRaised(error: Error)

  function GetOr(ms: seq<Member>, key: string, default: Json): Json {
    match Get(ms, key) case None => default case Some(v) => v
  }

  function StringifyRequestId(c: Crypto, value: Json): string {
    if value == Null then "<missing>" else ToStr(c, value)
  }

  /** The fields read defensively from the request. */
  function ReadRequest(c: Crypto, request: seq<Member>, now: PyFloat): Pending {
    Pending(request, ToStr(c, GetOr(request, "method", Str(""))), StringifyRequestId(c, GetOr(request, "id", Null)),
            GetOr(request, "params", Null), now)
  }

  /** `result` if the response carries it, else `error`, else null. */
  function Payload(response: seq<Member>): Json {
    GetOr(response, "result", GetOr(response, "error", Null))
  }

  function StatusOf(response: seq<Member>): Status {
    if Get(response, "result").Some? then StatusOk else StatusError
  }

  /** A null result still counts as a result; without one the error, or null, is attested under status "error". */
  lemma AttestedPayload(response: seq<Member>)
    ensures StatusOf(response) == StatusOk <==> exists m :: m in response && m.key == "result"
    ensures match (Get(response, "result"), Get(response, "error"))
            case (Some(v), _) => Payload(response) == v
            case (None, Some(v)) => Payload(response) == v
            case (None, None) => Payload(response) == Null
  {
    GetFindsKeys(response, "result");
  }

  /** The id as logged: the sentinel for none or null, a string as it is, anything else through `str`. */
  lemma RequestIdLogged(c: Crypto, request: seq<Member>, now: PyFloat)
    ensures ReadRequest(c, request, now).requestId == match Get(request, "id")
                                                      case None => "<missing>"
                                                      case Some(Null) => "<missing>"
                                                      case Some(Str(s)) => s
                                                      case Some(v) => c.show(v)
    ensures ShowsSomething(c) ==>
              (ReadRequest(c, request, now).requestId == "" <==> Get(request, "id") == Some(Str("")))
  {
  }

  lemma MethodLogged(c: Crypto, request: seq<Member>, now: PyFloat)
    ensures ReadRequest(c, request, now).methodName == match Get(request, "method")
                                                       case None => ""
                                                       case Some(Str(s)) => s
                                                       case Some(v) => c.show(v)
    ensures ReadRequest(c, request, now).params == match Get(request, "params") case None => Null case Some(v) => v
  {
  }

  /** Python's `str` of a value that is not a string is never empty. */
  ghost predicate ShowsSomething(c: Crypto) {
    forall v: Json :: c.show(v) != ""
  }

  function CallFor(p: Pending, response: seq<Member>, now: PyFloat): Call {
    Call(p.methodName, p.requestId, p.params, Payload(response), StatusOf(response), p.tsRequest, now)
  }

  function RecordsOfCompletions(done: seq<Completion>): seq<SignedRecord> {
    if done == [] then [] else RecordsOfCompletions(done[..|done| - 1]) + [done[|done| - 1].record]
  }

  lemma {:induction false} CompletionRecord(done: seq<Completion>, i: nat)
    requires i < |done|
    ensures |RecordsOfCompletions(done)| == |done| && RecordsOfCompletions(done)[i] == done[i].record
  {
    var n := |done| - 1;
    CompletionCount(done[..n]);
    if i < n { CompletionRecord(done[..n], i); }
  }

  /** A completion's record attests and describes its own request and response. */
  ghost predicate Faithful(c: Crypto, serverId: string, d: Completion) {
    && d.response.Obj?
    && d.pending == ReadRequest(c, d.pending.request, d.pending.tsRequest)
    && d.receipt == IssueReceipt(c, serverId, d.record)
    && Attests(c, d.record, d.pending.params, Payload(d.response.members))
    && Describes(c, d.record, serverId, CallFor(d.pending, d.response.members, d.record.entry.tsResponse))
  }

  /** Each completion's record sits at its receipt's index, in completion order, after the first `start` records. */
  ghost predicate InOrder(log: seq<SignedRecord>, start: nat, done: seq<Completion>) {
    && (forall i: nat | i < |done| ::
          start <= done[i].receipt.seqNo < |log| && log[done[i].receipt.seqNo] == done[i].record)
    && (forall i: nat, j: nat | i < j < |done| :: done[i].receipt.seqNo < done[j].receipt.seqNo)
  }

  class AttestingProxy {
    const log: AttestationLog
    const key: Bytes
    ghost const start: seq<SignedRecord>     // the log when the proxy was bound to it
    var pending: map<nat, Pending>           // coroutines suspended at their `await`
    var nextId: nat
    ghost var completed: seq<Completion>     // in completion order

    /** The file may hold records of other proxies and processes, as long as they sign with the same key. */
    ghost predicate Valid()
      reads this, log, log.file
    {
      && log.privateKey == Some(key)
      && !log.writeLocked && !log.file.flocked
      && log.file.Valid(log.c, log.c.publicOf(key))
      && start <= log.file.log
      && InOrder(log.file.log, |start|, completed)
      && (forall i: nat | i < |completed| :: Faithful(log.c, log.serverId, completed[i]))
      && (forall id | id in pending ::
            id < nextId && pending[id] == ReadRequest(log.c, pending[id].request, pending[id].tsRequest))
    }

    /** Nobody else has written since the proxy was bound to its log. */
    ghost predicate Alone()
      reads this, log, log.file
    {
      Valid() && log.file.log == start + RecordsOfCompletions(completed)
    }

    constructor (log: AttestationLog, key: Bytes)
      requires log.privateKey == Some(key) && !log.writeLocked && !log.file.flocked
      requires log.file.Valid(log.c, log.c.publicOf(key))
      ensures Alone() && this.log == log && this.key == key && pending == map[] && completed == []
      ensures start == log.file.log
    {
      this.log, this.key, this.start, this.pending, this.nextId, this.completed := log, key, log.file.log, map[], 0, [];
    }

    /** Up to the `await`: nothing is written. */
    method Begin(request: seq<Member>, now: PyFloat) returns (id: nat)
      requires Valid()
      modifies this`pending, this`nextId
      ensures Valid() && (old(Alone()) ==> Alone())
      ensures id !in old(pending) && pending == old(pending)[id := ReadRequest(log.c, request, now)]
    {
      id := nextId;
      pending := pending[id := ReadRequest(log.c, request, now)];
      nextId := nextId + 1;
    }

    /** The upstream raised: the coroutine ends, and the log is as it was. */
    method UpstreamRaises(id: nat)
      requires Valid() && id in pending
      modifies this`pending
      ensures Valid() && (old(Alone()) ==> Alone()) && pending == old(pending) - {id}
    {
      pending := pending - {id};
    }

    /** Whatever others append between two calls on this proxy, its own state stays in order. */
    twostate lemma OthersMayAppend()
      requires old(Valid()) && unchanged(this)
      requires !log.writeLocked && !log.file.flocked && log.file.Valid(log.c, log.c.publicOf(key))
      requires old(log.file.log) <= log.file.log
      ensures Valid()
    {
      hide Faithful, FileOf, ChainValid, ReadRequest;
    }

    /** `append` on this proxy's log, seen from outside. */
    method Attest(call: Call) returns (r: Result<(SignedRecord, Receipt), Error>)
      requires Valid()
      modifies log`writeLocked, log.file
      ensures !log.writeLocked && !log.file.flocked && log.file.Valid(log.c, log.c.publicOf(key))
      ensures r.Ok? <==> |key| == 32 && !HasNonFinite(call.params) && !HasNonFinite(call.result)
                         && call.tsRequest.Finite? && call.tsResponse.Finite?
      ensures r.Err? ==> log.file.data == old(log.file.data) && log.file.log == old(log.file.log)
      ensures r.Ok? ==>
                && log.file.log == old(log.file.log) + [r.value.0]
                && r.value.1 == IssueReceipt(log.c, log.serverId, r.value.0)
                && AppendOutcome(log.c, log.serverId, Some(key), call, FileOf(old(log.file.log))) == Ok(r.value.0)
    {
      hide FileOf, ChainValid, AppendOutcome, RecordLine, IssueReceipt, HasNonFinite, Faithful, InOrder, ReadRequest;
      AppendToHonestFile(log.c, log.serverId, Some(key), call, log.file.log, log.c.publicOf(key));
      r := log.Append(call);
    }

    /** The upstream answered: attest the answer and hand it back with its receipt. */
    method Resume(id: nat, response: Json, now: PyFloat) returns (r: Result<(Json, Receipt), Refusal>)
      requires Valid() && id in pending
      modifies this`pending, this`completed, log`writeLocked, log.file
      ensures Valid() && (old(Alone()) ==> Alone()) && pending == old(pending) - {id}
      ensures r.Ok? <==> response.Obj? && |key| == 32
                         && !HasNonFinite(old(pending)[id].params) && !HasNonFinite(Payload(response.members))
                         && old(pending)[id].tsRequest.Finite? && now.Finite?
      ensures r.Err? ==> completed == old(completed)
      ensures r.Err? ==> log.file.data == old(log.file.data) && log.file.log == old(log.file.log)
      ensures r.Ok? ==>
                && |completed| == |old(completed)| + 1 && completed[..|old(completed)|] == old(completed)
                && var d := completed[|old(completed)|];
                   && d.pending == old(pending)[id] && d.response == response && r.value == (response, d.receipt)
                   && d.record.entry.tsResponse == now
                   && log.file.log == old(log.file.log) + [d.record]
    {
      hide FileOf, ChainValid, AppendOutcome, Faithful, CallFor, HasNonFinite, Payload, IssueReceipt, ReadRequest,
           RecordsOfCompletions, InOrder;
      var p := pending[id];
      pending := pending - {id};
      if !response.Obj? { return Err(NonDictResponse); }
      var call := CallFor(p, response.members, now);
      CallFields(p, response.members, now);
      ghost var before, earlier := log.file.log, completed;
      var outcome := Attest(call);
      match outcome {
        case Err(e) => return Err(AppendRaised(e));
        case Ok((record, receipt)) =>
          ghost var d := Completion(p, response, record, receipt);
          CompletionSnoc(earlier, d);
          IsFaithful(log.c, log.serverId, Some(key), p, response, now, before, d);
          InOrderSnoc(before, |start|, earlier, d);
          completed := earlier + [d];
          assert start + RecordsOfCompletions(earlier) + [record] == start + RecordsOfCompletions(completed);
          return Ok((response, receipt));
      }
    }

    /** The only writer: in every interleaving, one record per completed call, in completion order. */
    lemma OneRecordPerCompletion()
      requires Alone()
      ensures |log.file.log| == |start| + |completed|
      ensures forall i: nat | i < |completed| :: log.file.log[|start| + i] == completed[i].record
    {
      hide FileOf, ChainValid, Faithful;
      CompletionCount(completed);
      forall i: nat | i < |completed| ensures log.file.log[|start| + i] == completed[i].record {
        CompletionRecord(completed, i);
      }
    }

    /**
     * A log that others write too: the records of this proxy's completions stand at their receipts' indices, in
     * completion order, and the log is exactly that much longer than at the start only if nobody else wrote.
     */
    lemma SharedLogHoldsCompletions()
      requires Valid()
      ensures InOrder(log.file.log, |start|, completed)
      ensures |start| + |completed| <= |log.file.log|
      ensures |start| + |completed| == |log.file.log| <==> Alone()
    {
      hide FileOf, ChainValid, Faithful, ReadRequest;
      CompletionCount(completed);
      if completed != [] { IndicesFromBelow(log.file.log, |start|, completed, |completed| - 1); }
      if |start| + |completed| == |log.file.log| {
        forall i: nat | i < |completed| ensures log.file.log[|start| + i] == RecordsOfCompletions(completed)[i] {
          IndicesFromBelow(log.file.log, |start|, completed, i);
          IndicesFromAbove(log.file.log, |start|, completed, i);
          CompletionRecord(completed, i);
        }
        assert log.file.log == start + RecordsOfCompletions(completed);
      }
    }

    /** In every interleaving: each returned receipt verifies for that request's params and that response's payload. */
    lemma CompletionVerifies(i: nat, params: Json, result: Json)
      requires Valid() && i < |completed| && WellFormed(params) && WellFormed(result)
      requires WellFormed(completed[i].pending.params) && WellFormed(Payload(completed[i].response.members))
      requires Same(params, completed[i].pending.params) && Same(result, Payload(completed[i].response.members))
      ensures TextLines(log.file.data).Ok?
      ensures Receipts.VerifyReceipt(log.c, completed[i].receipt, params, result, log.c.publicOf(key),
                                     TextLines(log.file.data).value) == Receipts.Accepted
    {
      hide FileOf, ChainValid, TextLines, Receipts.VerifyReceipt, Payload, Same, WellFormed, Faithful;
      HonestFileVerifies(log.c, key, log.file.log);
      CompletionReceipt(log.c, log.serverId, key, log.file.log, completed[i], params, result);
    }

    /**
     * In every interleaving: the record a receipt points at describes the very request that was answered and the answer
     * it got, so no two coroutines are mixed up. Its request id is empty exactly when the request sent an empty string.
     */
    lemma RecordDescribesRequest(i: nat)
      requires Valid() && i < |completed|
      ensures 0 <= completed[i].receipt.seqNo < |log.file.log|
      ensures var d := completed[i];
              var (request, response, entry) := (d.pending.request, d.response, log.file.log[d.receipt.seqNo].entry);
              && entry.serverId == log.serverId && entry.tsRequest == d.pending.tsRequest
              && entry.methodName == (match Get(request, "method")
                                      case None => ""
                                      case Some(Str(s)) => s
                                      case Some(v) => log.c.show(v))
              && entry.requestId == (match Get(request, "id")
                                     case None => "<missing>"
                                     case Some(Null) => "<missing>"
                                     case Some(Str(s)) => s
                                     case Some(v) => log.c.show(v))
              && (ShowsSomething(log.c) ==> (entry.requestId == "" <==> Get(request, "id") == Some(Str(""))))
              && entry.toolName == ExtractToolName(log.c, entry.methodName, GetOr(request, "params", Null))
              && Receipts.HashedAs(log.c, GetOr(request, "params", Null), entry.paramsHash)
              && response.Obj? && Receipts.HashedAs(log.c, Payload(response.members), entry.resultHash)
              && (entry.status == StatusOk <==> Get(response.members, "result").Some?)
    {
      hide FileOf, ChainValid, ExtractToolName, Canonical.Dumps, Hex, ShowsSomething, StringifyRequestId, Get, Payload;
      var d := completed[i];
      assert Faithful(log.c, log.serverId, d);
      RequestIdLogged(log.c, d.pending.request, d.pending.tsRequest);
      MethodLogged(log.c, d.pending.request, d.pending.tsRequest);
    }
  }

  /** Proxies on one file: one of them answering a request leaves every other in order and its completions alone. */
  method ResumeAmong(proxies: set<AttestingProxy>, p: AttestingProxy, id: nat, response: Json, now: PyFloat)
    returns (r: Result<(Json, Receipt), Refusal>)
    requires p in proxies && id in p.pending
    requires forall q | q in proxies ::
               q.Valid() && q.log.file == p.log.file && q.log.c == p.log.c && q.key == p.key
    modifies p`pending, p`completed, p.log`writeLocked, p.log.file
    ensures forall q | q in proxies :: q.Valid()
    ensures forall q | q in proxies && q != p :: q.pending == old(q.pending) && q.completed == old(q.completed)
    ensures p.pending == old(p.pending) - {id}
    ensures if r.Err? then p.log.file.log == old(p.log.file.log) && p.completed == old(p.completed)
            else exists d :: p.completed == old(p.completed) + [d] && p.log.file.log == old(p.log.file.log) + [d.record]
                             && d.pending == old(p.pending)[id] && r.value == (response, d.receipt)
  {
    hide Faithful, InOrder, FileOf, ChainValid, ReadRequest, RecordsOfCompletions, HasNonFinite, Payload;
    label Before:
    ghost var earlier := p.completed;
    r := p.Resume(id, response, now);
    if r.Ok? { assert p.completed == earlier + [p.completed[|earlier|]]; }
    forall q | q in proxies && q != p ensures q.Valid() {
      q.OthersMayAppend@Before();
    }
  }

  lemma CompletionReceipt(c: Crypto, serverId: string, key: Bytes, log: seq<SignedRecord>, d: Completion,
                          params: Json, result: Json)
    requires ChainValid(c, c.publicOf(key), log)
    requires 0 <= d.receipt.seqNo < |log| && log[d.receipt.seqNo] == d.record
    requires Faithful(c, serverId, d)
    requires WellFormed(params) && WellFormed(result)
    requires WellFormed(d.pending.params) && WellFormed(Payload(d.response.members))
    requires Same(params, d.pending.params) && Same(result, Payload(d.response.members))
    ensures Receipts.VerifyReceipt(c, d.receipt, params, result, c.publicOf(key), LinesFor(log)) == Receipts.Accepted
  {
    hide ChainValid, Attests, Receipts.VerifyReceipt, Receipts.ReadRecord, CheckSignature, RecordHash, Payload,
         Same, WellFormed, StatusOf, Describes, ReadRequest;
    RecordIsRead(c, key, log, d.record);
    Receipts.ReceiptAccepted(c, serverId, d.record, d.pending.params, Payload(d.response.members), params, result,
                             c.publicOf(key), LinesFor(log));
  }

  lemma CallFields(p: Pending, response: seq<Member>, now: PyFloat)
    ensures var call := CallFor(p, response, now);
            && call.params == p.params && call.result == Payload(response)
            && call.tsRequest == p.tsRequest && call.tsResponse == now
  {
  }

  lemma {:induction false} CompletionCount(done: seq<Completion>)
    ensures |RecordsOfCompletions(done)| == |done|
  {
    if done != [] { CompletionCount(done[..|done| - 1]); }
  }

  lemma CompletionSnoc(earlier: seq<Completion>, d: Completion)
    ensures RecordsOfCompletions(earlier + [d]) == RecordsOfCompletions(earlier) + [d.record]
    ensures |RecordsOfCompletions(earlier)| == |earlier|
  {
    CompletionCount(earlier);
    assert (earlier + [d])[..|earlier|] == earlier;
  }

  lemma InOrderSnoc(log: seq<SignedRecord>, start: nat, earlier: seq<Completion>, d: Completion)
    requires InOrder(log, start, earlier) && start <= |log| && d.receipt.seqNo == |log|
    ensures InOrder(log + [d.record], start, earlier + [d])
  {
  }

  /** Indices that only grow leave room for every completion before them... */
  lemma {:induction false} IndicesFromBelow(log: seq<SignedRecord>, start: nat, done: seq<Completion>, i: nat)
    requires InOrder(log, start, done) && i < |done|
    ensures start + i <= done[i].receipt.seqNo
  {
    if i > 0 { IndicesFromBelow(log, start, done, i - 1); }
  }

  /** ... and for every completion after them. */
  lemma {:induction false} IndicesFromAbove(log: seq<SignedRecord>, start: nat, done: seq<Completion>, i: nat)
    requires InOrder(log, start, done) && i < |done|
    ensures done[i].receipt.seqNo + (|done| - i) <= |log|
    decreases |done| - i
  {
    if i + 1 < |done| { IndicesFromAbove(log, start, done, i + 1); }
  }

  lemma IsFaithful(c: Crypto, serverId: string, key: Option<Bytes>, p: Pending, response: Json, now: PyFloat,
                   before: seq<SignedRecord>, d: Completion)
    requires key.Some? && ChainValid(c, c.publicOf(key.value), before) && response.Obj?
    requires AppendOutcome(c, serverId, key, CallFor(p, response.members, now), FileOf(before)) == Ok(d.record)
    requires p == ReadRequest(c, p.request, p.tsRequest)
    requires d.pending == p && d.response == response && d.receipt == IssueReceipt(c, serverId, d.record)
    ensures Faithful(c, serverId, d) && d.receipt.seqNo == |before| && d.record.entry.tsResponse == now
  {
    hide FileOf, ChainValid, AppendOutcome, RecordLine, RecordHash, Attests, ExtractToolName, HasNonFinite, ReadRequest;
    AppendToHonestFile(c, serverId, key, CallFor(p, response.members, now), before, c.publicOf(key.value));
  }
}
