# Verification of the attestation log

A Dafny model of mcp-attest: an append-only, signed, hash-chained log of tool calls kept as JSON Lines, the receipts and
signed tree heads it hands out, and the checks a relying party makes. The model goes down to the bytes (canonical JSON,
UTF-8, the two line readers) and up to every interleaving of writers, readers and tree-head emitters on one file.

`dafny verify dfyconfig.toml` checks the whole project.

## How the model is laid out

| file | what it holds |
|---|---|
| `Bytes.dfy`, `Utf8.dfy`, `Text.dfy` | bytes and hex, RFC 3629 UTF-8, code-point order, `str.strip`, line splitting |
| `Json.dfy`, `JsonText.dfy`, `JsonRoundTrip.dfy`, `JsonGrammar.dfy`, `Canonical.dfy` | JSON trees, the printer, the reader, their round trip, the grammar of RFC 8259 the reader decides, `dumps` and `loads` |
| `Crypto.dfy` | hashing and signing as arbitrary functions |
| `Entry.dfy`, `Append.dfy` | the wire schema and one append as a function of the last record |
| `Chain.dfy`, `Binding.dfy`, `Receipts.dfy`, `TreeHeads.dfy` | the relying party's checks and what they commit a server to |
| `Framing.dfy`, `Log.dfy`, `Proxy.dfy` | the file, the `AttestationLog` class, the `AttestingProxy` class |
| `Protocol.dfy`, `ProtocolSafety.dfy`, `ProtocolTheorems.dfy`, `ProtocolProgress.dfy`, `TreeHeadRuns.dfy`, `TreeHeadRace.dfy` | the step machine, its invariant, and what holds in every run |

Three choices decide what the theorems say.

* **Cryptography is not assumed to be strong.** `Crypto` is any record of functions with the right output sizes in which
  a signature verifies under its signer's public key. No theorem supposes that hashes are injective. A binding theorem
  ends in "or here is the evidence": a computed pair of different byte strings with one digest (`Collision`), or a byte
  string whose digest is all zeros (`ZeroPreimage`). The pair is always named by a function of the objects at hand.
* **A schedule is any sequence of actions.** An action that is not enabled does nothing, so "for every schedule" is
  "in every interleaving", with any number of threads, log objects, processes, kills, readers and tree-head emitters.
* **`handle` is cut at its `await`.** `Begin`, `Resume` and `UpstreamRaises` in any order are the interleavings of
  concurrent coroutines on one event loop. Other proxies and processes may append to the same file between these calls.

## Where the code and its documentation part

* `docs/PROTOCOL.md:125-126` and `src/mcp_attest/verifier.py:177-184` call two valid tree heads of one length with
  different heads unforgeable proof of misbehaviour. `emit_sth` counts the lines in one scan and hashes the last record
  in a second (`src/mcp_attest/log.py:191-192`), so an append that lands between them makes an honest server sign a head
  longer than its claim. `TreeHeadRace.HonestServerLooksEquivocal` builds such a run, and
  `TreeHeadRuns.EvidenceInOneRun` says exactly which pairs of `emit_sth` calls of one run read as equivocation, by where
  commits fall between the ends of their scans.
* `src/mcp_attest/log.py:170-171` says the chain itself catches truncation. `Binding.PrefixesVerify` shows that every
  prefix of a verified log verifies; `TreeHeads.TruncationShowsAgainstHead` says what does reveal the loss.
* `docs/PROTOCOL.md:164-168` calls the last receipt check redundant. `Receipts.SignatureCheckIsIndependent` shows that
  it alone constrains the signature text of the receipt.
* `src/mcp_attest/proxy.py:98-100` promises a request id that is never empty. An empty string id is logged as it is;
  `Proxy.AttestingProxy.RecordDescribesRequest` says that nothing else makes the logged id empty.

## Model

| member | source | states |
|---|---|---|
| ByteStrings.FromHexInvertsHex | src/mcp_attest/entry.py:144 | hex text decodes to the bytes it came from, so equal hex strings are equal digests |
| ByteStrings.HexSpelled | src/mcp_attest/entry.py:144 | hex text is two lower-case digits for each byte, the high one first |
| ByteStrings.FromHexExact | src/mcp_attest/verifier.py:70 | text without whitespace is read exactly when it is pairs of hex digits of either case, and then it spells the bytes read |
| ByteStrings.FromHexSkips | src/mcp_attest/verifier.py:70 | ASCII whitespace between bytes is passed over |
| ByteStrings.ZeroHashSpelled | src/mcp_attest/entry.py:25-27 | the genesis hash is 64 characters, all zeros, for 32 zero bytes |
| Utf8.DecodeInvertsEncode | src/mcp_attest/canonical.py:76-88 | UTF-8 decoding gives back every encoded text |
| Utf8.EncodeInvertsDecode | src/mcp_attest/canonical.py:88 | the strict decoder accepts only the one encoding of a text |
| Utf8.EncodeCharSpelled | src/mcp_attest/canonical.py:76 | the bytes of a character have the count, the marks and the payload bits of the table in section 3 of RFC 3629 |
| Text.LessSpelled | src/mcp_attest/canonical.py:73 | keys are compared at their first difference, by code point, and a proper prefix comes first |
| Text.StripExact | src/mcp_attest/log.py:231 | `strip` cuts off whitespace at both ends, all of it and nothing else |
| Text.LinesExact | src/mcp_attest/log.py:230 | iterating a file cuts it after each newline and nowhere else, and loses nothing |
| Json.SortedUnique | src/mcp_attest/canonical.py:73 | code-point order leaves a set of members one sorted arrangement |
| Json.CanonKeepsFinite | src/mcp_attest/canonical.py:31-51 | sorting keys neither hides nor creates a non-finite number |
| Json.NonFiniteExact | src/mcp_attest/canonical.py:31-51 | a tree is refused exactly when a NaN or an infinity lies somewhere inside it |
| JsonRoundTrip.NumeralLexes | src/mcp_attest/canonical.py:81-88 | in front of any text that may follow a value, the reader cuts a numeral exactly where the printer ended it |
| JsonRoundTrip.StringParses | src/mcp_attest/canonical.py:70-88 | the reader undoes every string escape, whatever follows the closing quote |
| JsonRoundTrip.ParseInvertsPrint | src/mcp_attest/canonical.py:70-88 | every finite tree with dict-like objects, in any key order, is read back as itself |
| JsonRoundTrip.ParsedIsWellFormed | src/mcp_attest/canonical.py:81-88 | whatever the text, objects read from it hold no key twice |
| JsonGrammar.ReaderIsGrammar | src/mcp_attest/canonical.py:81-88 | the reader returns v exactly for the texts from which the grammar of RFC 8259, with Python's non-finite tokens, derives v; every other text raises |
| JsonGrammar.LastPairWins | src/mcp_attest/canonical.py:88 | of repeated keys in an object text, the last value is kept |
| Canonical.LoadsInvertsDumps | src/mcp_attest/canonical.py:54-88 | `loads(dumps(v))` is v with keys sorted at every depth |
| Canonical.DumpsDecidesSame | src/mcp_attest/canonical.py:54-78 | two trees have the same canonical bytes if and only if they are equal up to key order at every depth |
| Canonical.LoadsExact | src/mcp_attest/canonical.py:81-88 | `loads` returns v exactly for UTF-8 of a text that the grammar derives v from |
| Canonical.DumpsRefuses | src/mcp_attest/canonical.py:31-51 | `dumps` raises exactly for a tree with a NaN or an infinity inside |
| Canonical.DumpedKeysAscend | src/mcp_attest/canonical.py:73 | in every object of a dumped tree each key is above the one before it at their first difference, by code point, or extends it |
| Canonical.PrintIsCompact | src/mcp_attest/canonical.py:28-74 | blanks in the printed text come from strings only |
| Canonical.OnlyMarksAndControlsAreEscaped | src/mcp_attest/canonical.py:72 | a string is printed unescaped exactly when it holds no quotation mark, backslash or control character |
| Canonical.PrintNoControls | src/mcp_attest/canonical.py:70-76 | printed JSON contains no raw control character, hence no line break |
| Crypto.EqualHashes | src/mcp_attest/crypto.py:103-109 | equal hash texts come from equal inputs or a collision is at hand |
| Entry.EntryRoundTrip | src/mcp_attest/entry.py:51-112 | an entry survives `to_dict`, key sorting and `from_dict` unchanged |
| Entry.EntryFromDictExact | src/mcp_attest/entry.py:72-112 | a dict is read as an entry exactly when it is that entry's dict in some key order: nothing missing, nothing more |
| Entry.BadKeysExact | src/mcp_attest/entry.py:91-98 | ValueError is raised exactly for keys other than the eleven fields, or a status that is neither "ok" nor "error" |
| Entry.RecordFromDictExact | src/mcp_attest/entry.py:146-157 | a dict is read as a signed record exactly when it is that record's dict in some key order |
| Entry.RecordFromLineExact | src/mcp_attest/log.py:207-210 | a line is read as a record exactly when it is JSON for that record's dict |
| Entry.EntryOnTheWire | src/mcp_attest/entry.py:51-69 | the signed bytes load to a dict with each of the eleven fields under its own name, and nothing more |
| Entry.RecordOnTheWire | src/mcp_attest/entry.py:127-136 | a stored line loads to a dict with the entry and the signature under their own names, and nothing more |
| Entry.LineRoundTrip | src/mcp_attest/entry.py:127-157 | every writable record reads back as itself from its own line |
| Entry.EntryHashExact | src/mcp_attest/entry.py:142-144 | `entry_hash` raises exactly on a non-finite timestamp and otherwise hashes the stored line |
| Entry.RecordHashBinds | src/mcp_attest/entry.py:134-144 | equal entry hashes name equal records, signature included, or the two lines collide |
| Entry.EntryBytesDetermineEntry | src/mcp_attest/entry.py:67-69 | the bytes that are signed determine every field of the entry |
| Entry.PayloadBytesDetermineTreeHead | src/mcp_attest/entry.py:220-232 | the bytes that are signed determine the length, head and timestamp of a tree head |
| Entry.TreeHeadOnTheWire | src/mcp_attest/entry.py:220-232 | the signed bytes of a tree head load to a dict with length, head and timestamp under their own names, and nothing more |
| Entry.LineShape | src/mcp_attest/entry.py:138-140 | a stored line has no line break, and stripping it with its newline gives it back |
| Chain.VerifyChain | src/mcp_attest/verifier.py:102-157 | the loop with running `expected_prev` and `count` returns the specified verdict for any lines, unparseable ones included |
| Chain.VerdictExact | src/mcp_attest/verifier.py:113-157 | ok iff every record satisfies the chain relation; otherwise the verdict's fields are the least failing index, that index plus one, and the first failing check described by the record's own fields, or the exception that record or the next line raises |
| Chain.SignatureExact | src/mcp_attest/crypto.py:80-100 | the signature check passes exactly for a 32-byte key and 64 hex-decoded bytes that the library accepts on the entry's canonical bytes; otherwise it says no, or raises for a timestamp or a text that is not hex |
| Chain.ChainValidExact | src/mcp_attest/verifier.py:116-150 | the chain relation, record by record: its index, 64 zeros or the digest of the line before, and a signature the library accepts |
| Chain.RecordsExact | src/mcp_attest/log.py:207-210 | records are read from the front lines up to the first line that is not one, which gives the exception |
| Chain.RaisesExactly | src/mcp_attest/verifier.py:138-142 | the walk raises at a record only for a timestamp `dumps` refuses or a signature that is not hex, after seq and prev_hash passed |
| Chain.FailurePersists | src/mcp_attest/verifier.py:113-157 | the whole verdict of a failure at an index stays under every extension, and every prefix up to its index passes |
| Chain.ValidIsWritable | src/mcp_attest/verifier.py:138-150 | a record whose signature was checked has finite timestamps, so hashing it cannot raise |
| Binding.HeadDeterminesHistory | src/mcp_attest/verifier.py:113-157 | two verified logs with one head hash are the same log, or walking back from the heads computes a collision; a zero preimage only when exactly one log is empty |
| Binding.ForksStayApart | src/mcp_attest/verifier.py:127-150 | verified logs that differ at an index have different heads at every later common length, or a collision is computed |
| Binding.PrefixesVerify | src/mcp_attest/verifier.py:152-157 | every prefix of a verified log verifies, with its own length |
| Binding.ReplacementIsCaught | src/mcp_attest/verifier.py:127-150 | replacing a record other than the last stops the walk at that index or gives a prev_hash mismatch at the next, or the two records collide |
| Binding.LastReplacementIsCaught | src/mcp_attest/verifier.py:127-157 | replacing the last record fails there or verifies under another head, or the two records collide |
| Binding.RearrangementIsCaught | src/mcp_attest/verifier.py:116-125 | any mix of deleting, duplicating and reordering verifies iff a prefix is left; else the first failure index is where the records first depart, on the sequence number |
| Append.SignedVerifies | src/mcp_attest/log.py:164-165 | a signed entry keeps its fields and its hex signature verifies under the signer's public key |
| Append.AppendKeepsValid | src/mcp_attest/log.py:142-165 | the record built from the last one extends a verified chain to a verified chain, at the next index |
| Append.ToolNameExact | src/mcp_attest/log.py:245-258 | only `tools/call` with a member `name` that is not null has a tool name: that string, or `str` of that value |
| Append.ToolNameIgnoresOrder | src/mcp_attest/log.py:245-258 | params equal up to key order give one tool name, unless the name is itself an object or array, whose `str` may show key order |
| Receipts.ReceiptBinds | src/mcp_attest/verifier.py:65-99 | a receipt accepted on any log, under any key, for any payloads, means the issued record and the attested payloads up to key order, or a collision is computed |
| Receipts.OutcomeExact | src/mcp_attest/verifier.py:65-99 | each outcome of `verify_receipt` exactly: acceptance needs a signature the library accepts, both digests, the entry hash and the signature text; each rejection is owed to its own check once those before it passed |
| Receipts.ToolNameBinds | src/mcp_attest/log.py:135-159 | a receipt accepted on any log vouches for the tool: the tool name read is the one extracted from the params presented, or a collision is computed |
| Receipts.ReceiptAccepted | src/mcp_attest/verifier.py:65-99 | acceptance is owed whenever the record is at its index, for its payloads in any key order |
| Receipts.WrongParamsAreNamed | src/mcp_attest/verifier.py:76-81 | other params raise the params mismatch, or collide |
| Receipts.WrongResultIsNamed | src/mcp_attest/verifier.py:83-88 | another result raises the result mismatch, or collides |
| Receipts.SignatureCheckIsIndependent | src/mcp_attest/verifier.py:96-99 | a receipt with any other signature text fails at the last check and only there |
| TreeHeads.SignTreeHeadExact | src/mcp_attest/log.py:193-205 | a tree head is signed exactly with a 32-byte key and a finite timestamp, over the fields it is given |
| TreeHeads.VerifyTreeHeadExact | src/mcp_attest/verifier.py:160-169 | `verify_sth` says yes exactly for a signature the library accepts on the payload, and raises exactly where it cannot ask |
| TreeHeads.SignedTreeHeadVerifies | src/mcp_attest/log.py:194-205 | a tree head signed with a key verifies under its public key |
| TreeHeads.EvidenceExact | src/mcp_attest/verifier.py:172-192 | evidence takes two signatures the library accepts, one length and two hashes, in either order; a head not signed so gives no, and only what cannot be asked raises |
| TreeHeads.ForkIsEvidence | src/mcp_attest/verifier.py:172-192 | valid heads of two histories that differ below their common length are evidence, or a collision is computed |
| TreeHeads.EvidenceFromOneLog | src/mcp_attest/verifier.py:172-192 | heads of one log are evidence exactly when their claims agree and their prefixes do not |
| TreeHeads.TruncationShowsAgainstHead | src/mcp_attest/log.py:97-100 | a truncated log still verifies but departs in length and head from any tree head of the lost records |
| Framing.ReadersAgree | src/mcp_attest/log.py:226-284 | on any file that decodes and holds no carriage return, splitting bytes and then decoding gives the lines of decoding and then splitting |
| Framing.FileReadsBack | src/mcp_attest/log.py:168-233 | a file built by appends reads back through either reader as the appended records in order |
| Framing.ScanOfFile | src/mcp_attest/log.py:261-284 | the binary scan of such a file finds its last record |
| Framing.ScansAgree | src/mcp_attest/log.py:92-149 | line count, last sequence number plus one, head hash and the next `prev_hash` all describe one (length, head) pair |
| Framing.AppendToHonestFile | src/mcp_attest/log.py:130-183 | an append succeeds iff key, payloads and timestamps allow it, and then adds one linked, signed record that repeats the call's fields and attests its payloads |
| Framing.AppendExact | src/mcp_attest/log.py:130-165 | every field of the record an append adds, the genesis link as 64 zeros among them, or the exception it raises |
| Framing.ScanExact | src/mcp_attest/log.py:261-284 | the scan returns the last line that is a record, passing over blank lines and lines that raise ValueError; the first other error is raised |
| Framing.NonBlankExact | src/mcp_attest/log.py:230-233 | lines are stripped one by one and dropped exactly when they are all whitespace |
| Framing.CompletePartExact | src/mcp_attest/log.py:229-233 | nothing but an unfinished line is left over of what a reader holds |
| Framing.PartialRead | src/mcp_attest/log.py:229-233 | wherever a reader stops, the complete lines it holds are the first records of the log |
| Log.AttestationLog.IterLines | src/mcp_attest/log.py:226-233 | the loop yields the stripped, non-blank lines in order, or the decoding error |
| Log.AttestationLog.ChainLength | src/mcp_attest/log.py:91-94 | counts those lines |
| Log.AttestationLog.LastRecord | src/mcp_attest/log.py:235-239 | the last record yielded, or the exception met on the way |
| Log.AttestationLog.HeadHash | src/mcp_attest/log.py:96-100 | the hash of that record; of an empty file, 64 zeros |
| Log.AttestationLog.ReadRecord | src/mcp_attest/log.py:212-224 | the record on the given line, or the error for a negative or excessive index |
| Log.AttestationLog.ScanLastRecord | src/mcp_attest/log.py:261-284 | the loop returns the last line that parses, skipping lines whose parsing raises ValueError |
| Log.AttestationLog.Append | src/mcp_attest/log.py:102-183 | success adds exactly one line, with every field as it should be, and returns its record and receipt; an error leaves the file alone, both locks end released, and a valid file stays valid |
| Log.AttestationLog.EmitSth | src/mcp_attest/log.py:185-205 | with nothing between its scans, the tree head signs the length and head of the whole log |
| Log.VerifyLog | src/mcp_attest/verifier.py:102-157 | `verify_chain` on a log object accepts every file built by appends, with its length |
| ProtocolSafety.StepKeepsInv | src/mcp_attest/log.py:139-183 | every step of every agent keeps locks, ledger, file, writers and readers consistent |
| ProtocolSafety.OthersSurviveWrite | src/mcp_attest/log.py:140-149 | while one writer writes, no other writer is between its scan and its write |
| ProtocolSafety.EveryRun | src/mcp_attest/log.py:49-51 | from an empty file the invariant holds after every schedule |
| ProtocolTheorems.EveryInterleavingKeepsTheChain | src/mcp_attest/log.py:139-172 | in every interleaving the file is exactly the records written, and it verifies |
| ProtocolTheorems.FinishedAppend | src/mcp_attest/log.py:173-183 | a finished append owns exactly the record its receipt names and a failed one owns none; both hold no lock |
| ProtocolTheorems.MutualExclusion | src/mcp_attest/log.py:140 | at most one writer holds the file lock |
| ProtocolTheorems.RunGrows | docs/PROTOCOL.md:134-135 | records are never moved or removed, and finished calls stay finished |
| ProtocolTheorems.LogOrderIsTimeOrder | src/mcp_attest/log.py:139-149 | if one append has returned before another is given the file lock, its record and its receipt's index come first |
| ProtocolTheorems.ReceiptsArePermanent | src/mcp_attest/verifier.py:43-99 | every issued receipt is accepted in every later state, for its payloads in any key order |
| ProtocolTheorems.IssuedReceiptsBind | src/mcp_attest/verifier.py:65-99 | a receipt issued in any run binds its call on any log, or a collision is computed |
| ProtocolTheorems.ReadersNeverMisjudge | src/mcp_attest/verifier.py:116-157 | `verify_chain` beside writers never reports a failure, and the complete lines it holds, before or at end of file, are the first records of the log |
| ProtocolTheorems.EndOfFileIsNow | src/mcp_attest/log.py:229-233 | a reader at end of file holds the log of that very state |
| TreeHeadRuns.FirstScanOfEmitSth | src/mcp_attest/log.py:191 | in the step that ends the first scan, the log's length is claimed |
| TreeHeadRuns.SecondScanOfEmitSth | src/mcp_attest/log.py:192-205 | in the step that ends the second scan, the log's head is signed under the length claimed before |
| TreeHeadRuns.QuietExact | src/mcp_attest/log.py:167-169 | the log is the same at two points of a run exactly when no write step lies between them |
| TreeHeadRuns.EmitSthInRun | src/mcp_attest/log.py:185-205 | in every run the claim is the length at the end of the first scan and the signed head that of the log at the end of the second; the two agree iff no record is committed in between |
| TreeHeadRuns.EmittedByTwoScans | src/mcp_attest/log.py:191-192 | every tree head emitted in a run comes from two such scans |
| TreeHeadRuns.TreeHeadsSignPrefixes | src/mcp_attest/log.py:185-205 | every emitted tree head verifies and signs a prefix at least as long as it claims |
| TreeHeadRuns.EvidenceInOneRun | src/mcp_attest/verifier.py:172-192 | two `emit_sth` calls of one run read as equivocation iff no record is committed between the ends of their first scans and some record between the ends of their second scans, or a collision or zero preimage is computed; never when neither has a commit between its own scans |
| ProtocolProgress.NoDeadlock | src/mcp_attest/log.py:139-140 | with an append unfinished, some append can take its next step |
| ProtocolProgress.EveryAppendCanFinish | src/mcp_attest/log.py:139-183 | from every reachable state all pending appends can run to their end |
| ProtocolProgress.LoneWriterAppends | src/mcp_attest/log.py:130-183 | eight uninterrupted steps leave what one call of append leaves, locks free again |
| ProtocolProgress.ReadAdvances | src/mcp_attest/log.py:229-233 | a reader's next read takes exactly the next bytes of the file, or all there are, and touches nothing else |
| ProtocolProgress.KillReleases | src/mcp_attest/log.py:139-140 | a killed process leaves both its locks free, its finished calls as they are, and everybody else alone |
| TreeHeadRace.HonestServerLooksEquivocal | src/mcp_attest/log.py:191-192 | a run without a fork whose two valid tree heads are reported as equivocation, or the first record hashes to zero |
| Proxy.AttestingProxy.Begin | src/mcp_attest/proxy.py:65-70 | up to the await a request is remembered and nothing is written |
| Proxy.AttestingProxy.UpstreamRaises | src/mcp_attest/proxy.py:70 | an upstream that raises adds nothing |
| Proxy.AttestingProxy.Resume | src/mcp_attest/proxy.py:70-92 | an answer is attested iff it is a dict and the append succeeds; then one record is added at the end of the log, else nothing changes |
| Proxy.AttestingProxy.OneRecordPerCompletion | src/mcp_attest/proxy.py:76-84 | with no other writer, in every interleaving the log grows by one record per completed call, in completion order |
| Proxy.AttestingProxy.SharedLogHoldsCompletions | src/mcp_attest/log.py:4-6 | in a log others write too, each completion's record is at its receipt's index, in completion order, and the log is just that much longer iff nobody else wrote |
| Proxy.AttestingProxy.OthersMayAppend | src/mcp_attest/log.py:4-6 | appends by others between two steps of a proxy leave it in order |
| Proxy.ResumeAmong | src/mcp_attest/proxy.py:70-92 | among any number of proxies on one file, one answering a request leaves all others in order and their completions alone |
| Proxy.AttestingProxy.CompletionVerifies | src/mcp_attest/proxy.py:73-92 | in a log others may write too, each returned receipt verifies for that request's params and that response's payload |
| Proxy.AttestedPayload | src/mcp_attest/proxy.py:73-74 | a null result still counts as a result; without one the error, or null, is attested under status error |
| Proxy.AttestingProxy.RecordDescribesRequest | src/mcp_attest/proxy.py:65-104 | in every interleaving the record at a receipt's index carries the method, id, tool and params digest of the request it answered and the status and result digest of its answer; a string id stands as it is, none or null as the sentinel, and the id is empty only for an empty string |

## Left out

- EntryFromDict: does not model `int`, `float` and `str` coercing a field of another JSON type; such a field is an error here.
- RecordFromDict: the same for `str(d["signature"])`.
- NumeralValue: a float is named by its token, so IEEE rounding, overflow to infinity and non-shortest spellings of one double are not modelled.
- ParseUnicodeEscape: a lone surrogate escape, which Python keeps in the string and refuses to encode, is refused here.
- TextLines: a file that does not decode raises before any line; Python may first yield lines from earlier buffers.
- LinesOfText: text files are taken whole; the chunk size of Python's decoder and a carriage return at a chunk's end are not modelled.
- Tuples, dict keys that are not strings, and Python's limits on integer digits and nesting depth.
- Ed25519, BLAKE2b and key generation: arbitrary functions here, with the length checks of `crypto.py`.
- `to_dict` and `from_dict` of receipts and tree heads: the same shape as records, with fewer fields.
- Half-written lines after a crash: a record and its newline appear in one step.
- A killed process is modelled as kills of its log objects one by one, which allows more interleavings than real ones.
- Writers of one file that sign with different keys; a key of the wrong length is allowed and makes its append raise.
- `fsync`, directory creation, logging, warnings, clock values and any order of timestamps.
- The command line, the mock server and client, HTTP, and the exception class hierarchy.
