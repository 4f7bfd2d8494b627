# A verified model of Lockrail

Lockrail keeps secrets away from coding agents: it seals secrets in text behind
`lockrail://secret/` handles, keeps the values in a vault, lets them be used only through
a relay that checks signed capabilities, and records every use in a hash-chained audit log.
This project models those parts in Dafny and proves what they promise, over every input
and every interleaving. `dafny verify dfyconfig.toml` checks all of it.

How the modules follow the system:

- **Shared.** `Basics`, `Text` (the string operations of Rust's standard library), `Ordering`
  (the order of a `BTreeMap`), `Tallies` (counting).
- **Relay.** `Relay` is `perform_relay` as a step machine: any number of requests over one
  clock, vault, replay store (in memory or on file, with whatever it held at the start), usage store
  and audit log. `RelaySafety` holds the invariant, `RelayResults` the guarantees, `RelayWitness` a
  concrete environment. `Policy` has the token, proof and request checks. `PolicyLaws`, `RelaySteps`
  and `RelayLaws` say on characters, numbers and fields what each check asks, what each step does, and
  what a request has to meet from beginning to end.
- **Stores.** `Replay` and `Usage` model the in-memory and the file stores as classes.
  `LockedFile` runs any number of processes through the lock, read, write and unlock steps
  of one file, `LockProgress` says that none blocks the others for good;
  `Replay`, `Usage` and `AuditWriters` instantiate the first.
- **Audit log.** `Audit`, `AuditWriters`.
- **Paths.** `Glob` (the wildcard matcher against its declarative meaning), `PathRules`.
- **Sealing.** `Visits` (what a marker-driven loop reports, said without the loop), `TokenRuns`,
  `Scanners`, `FieldScanners`, `KeyShapes`, `BlockScanners`, `Findings` (overlaps), `Replace`
  (rewriting), `Seal` (the whole engine), `ScannerLaws` and `SealLaws` (what is detected, character by
  character), `MixedOverlap` (a text on which the scanners disturb each other), `Handles` (saving
  findings and unsealing).
- **Vault.** `Vaults` (the vault as a class whose saves may fail, whose previews may panic and
  which can be reopened), `VaultRuns` (whole runs), `Environments`, `Dotenv`, `DotenvRoundTrip`,
  `DotenvLaws` and `DotenvShapes` (what an imported text gives, line by line).

Parameters of the model: hash, fingerprint, signature check, token decoding, URL parsing, the
entropy test, the clock, the outcome of each input/output step, and the schedule. The hash and
the fingerprint are never assumed injective: a result names, as its condition, the values or rows
at hand that must not share one. Text is a sequence of characters; on ASCII text positions are the
byte offsets of the source.

Where the code and its documentation or promises differ, the model follows the code. Where a promise
fails, one lemma has an input on which it does and another the exact condition under which it holds:

- `docs/LRAP.md` describes tokens `lrap2` and version `LRAP/0.2`; the code issues and accepts
  `lrap3` and `LRAP/0.3` (`crates/lockrail-protocol/src/lib.rs:17-18`).
- Line 38 of the repository's `README.md` says `audit verify` detects any tampering. Cutting rows
  off the end goes unseen, and so does replacing all rows from some place on by new ones with fresh
  hashes. `Audit.UnseenIff` says that nothing else does (`Audit.RearrangedRowsShow` and
  `Audit.EditedRowShows` are the cases without new rows and with one), and `Audit.TamperShows` shows
  that a trusted last hash closes the gap.
- Line 36 of the repository's `README.md` says replayed tokens are rejected. A proof can pass twice
  when the token expires between the token check and the replay check of one of the two requests:
  `RelayResults.ReplayOnlyAcrossExpiry` shows this is the only way, `RelayResults.OneProofSentTwice`
  and `RelayWitness.SomeProofIsSentTwice` that it happens. `RelayResults.ReplayRefusedIff` says
  when a replay check that reads the clock at once is refused.
- A clock that steps back makes the replay stores forget unexpired keys
  (`Replay.BackwardClockForgets`). `Replay.RejectsExactlyHeld` says under any clock which checks each
  store rejects, `Replay.StoresPart` where the two stores part, and `Replay.BackwardClockParts`
  shows a run on which they do.
- The joined replay key does not separate an agent id with a colon from the nonce
  (`Replay.ColonBlursKeys`); `Replay.AgentsClashIff` says which agent ids can clash.
- `scan_bearer`, and so `seal_text`, `add_key`, `upsert_key` and `set_secret`, panics on some texts
  that end in `bearer `, such as that word alone (`Scanners.BearerAlonePanics`). `Scanners.PanicIff`
  says on which, from the text alone.
- Redaction promises that no detected secret is shown. A span of one scanner that partially overlaps
  a longer span of another is dropped with all its characters: `MixedOverlap.TokenStaysVisible` has
  a text whose assigned token is detected and whose first six characters stay readable.
  `Seal.SealedIff` says of every text exactly which positions are sealed, and
  `Seal.RedactionCovers` and `Seal.PlainTextIsCovered` when a detected token is hidden as a whole.
- `save_sealed_findings` reports success when a record of the name exists with another value
  (`Handles.ExistingRecordWins`); `Handles.StoredOneIff` and `Handles.RecoveredIff` say exactly when
  the sealed values can be had back.
- `remove_key` can take a registered agent's private key (`VaultRuns.RemoveKeyOrphans`), exactly
  when it names it (`VaultRuns.RemoveKeyIff`, and `VaultRuns.AgentsKeepKeys` for runs).
- `set_secret` can overwrite an agent's private key (`VaultRuns.SecretOverwritesAgentKey`), exactly
  when it writes another value under its name (`VaultRuns.WriteKeepsKeyIff`).
- A revocation whose save failed is forgotten on reopening (`VaultRuns.UnsavedRevocationIsLost`),
  exactly when no save succeeds before (`VaultRuns.RevocationHoldsIff`).
- A dotenv export loses environments with `=` or a leading `#` in a name, or a line feed in a
  value (`DotenvRoundTrip.RoundTripIff`, exactly those).
- The comment on `import_dotenv` says inline comments after an unquoted value are stripped. Behind an
  empty value the comment is taken as the value (`DotenvShapes.CommentIsValue`);
  `DotenvShapes.CommentedLine` has the values behind which a comment is stripped.
- The usage counter is a `u64` that wraps in release builds; with a maximum set it never does
  (`RelayResults.SendsWithinMaximum`).

## Model

| member | source | states |
|---|---|---|
| RelayResults.SendsAreCounted | crates/lockrail-relay/src/lib.rs:270-439 | in every interleaving the attempts to send for a capability are at most its accepted `record_use` calls, and the stored counter moved by exactly those, modulo 2^64 |
| RelayResults.SendsWithinMaximum | crates/lockrail-relay/src/lib.rs:163-179 | with a maximum, and no other request sharing the digest, earlier uses plus sends stay within the maximum in every interleaving and the counter never wraps |
| RelayResults.EverySendJustified | crates/lockrail-relay/src/lib.rs:274-402 | each attempt to send belongs to a process of its own whose token was in force and unrevoked when it was checked, whose proof, if one is needed, carries a good signature of the agent over exactly this request within the skew window, whose URL, method, body and content type the claims permit, whose addresses are all external, and which had one accepted use and its own `relay.request` row in the log before |
| RelayResults.UsesAreNumbered | crates/lockrail-relay/src/lib.rs:367-369 | in every run the accepted uses of a capability are numbered on, one by one, from the uses before the run, modulo 2^64 |
| RelayResults.UseNumbersWithinMaximum | crates/lockrail-relay/src/lib.rs:163-179 | under a maximum those numbers are distinct, increasing and at most the maximum |
| RelayResults.ResponsesWithinRequests | crates/lockrail-relay/src/lib.rs:373-431 | in every run the log stays a chain extending the earlier one and gains at most as many `relay.response` as `relay.request` rows per capability |
| RelayResults.ReplayOnlyAcrossExpiry | crates/lockrail-relay/src/lib.rs:356-365 | two processes pass the replay check with one key only if one of them had its token checked by the expiry and its replay check after it |
| RelayResults.ReplayRefusedIff | crates/lockrail-relay/src/lib.rs:356-362 | in every run, from any stored replay entries, a replay check that reads the clock at once and does not fail is refused if and only if its key was stored unexpired at the start or a process has passed with it and its token has not expired |
| RelayResults.HeldKeyWaits | crates/lockrail-relay/src/lib.rs:140-154 | a key that the store held at the start passes only once the clock is past its expiry, also when checks use old clock readings |
| RelayResults.OneProofSentTwice | crates/lockrail-relay/src/lib.rs:356-402 | that exception is real: from an empty replay store, a run in which one proof-bound request goes upstream twice |
| RelayWitness.SomeProofIsSentTwice | crates/lockrail-relay/src/lib.rs:356-402 | and it needs no strange environment: a concrete token, proof and URL with which it happens |
| RelayResults.RevokedNeverAdvances | crates/lockrail-relay/src/lib.rs:279-283 | a capability revoked before a process verifies it never gets that process past verification, whatever happens next |
| RelayResults.Reachable | crates/lockrail-relay/src/lib.rs:270-439 | the invariant behind these results holds in every reachable state |
| RelayLaws.AnsweredIff | crates/lockrail-relay/src/lib.rs:270-480 | a request left alone while every input and output works is answered if and only if its token, proof, URL, method, body, content type, resolved addresses, replay key and uses left all meet what is written out on their fields; otherwise it ends in a `relay.denied` row |
| RelayLaws.VerifiedIff | crates/lockrail-relay/src/lib.rs:274-317 | the block under the vault lock lets a request through if and only if token, proof and stored secret are in order |
| RelaySteps.VerifyStep | crates/lockrail-relay/src/lib.rs:279-306 | the first step passes exactly then and otherwise halts, with nothing else changed, for the first defect of the token, the missing proof or agent key, the first defect of the proof, or the missing secret |
| RelaySteps.PolicyStep | crates/lockrail-relay/src/lib.rs:319-321 | the next step passes or halts for the first reason in the order URL, scheme, host, port, method, path, query, body size, content type |
| RelaySteps.ResolveStep | crates/lockrail-relay/src/lib.rs:328-354 | a failed lookup, no address, or one internal address among the resolved ones halts the request; otherwise exactly these addresses are kept |
| RelaySteps.ReplayStep | crates/lockrail-relay/src/lib.rs:356-365 | the replay check on the stored entries: an unexpired key is refused and stays, another is stored with the expiry of the token, and no other unexpired entry is lost |
| RelaySteps.CountStep | crates/lockrail-relay/src/lib.rs:367-369 | an accepted use adds one to the counter of this capability and to no other, a refused or failed one changes nothing |
| RelaySteps.AnnounceStep | crates/lockrail-relay/src/lib.rs:371-382 | the `relay.request` row, field by field, or a halt without a row |
| RelaySteps.SendStep | crates/lockrail-relay/src/lib.rs:384-402 | one attempt to send is made with the row and the uses there are; a failed one halts the request |
| RelaySteps.RespondStep | crates/lockrail-relay/src/lib.rs:404-433 | the `relay.response` row, field by field, or a halt without a row |
| RelaySteps.DenyStep | crates/lockrail-relay/src/lib.rs:463-478 | a halted request is finished by one `relay.denied` row with its error, or by none if the log fails |
| RelaySafety.MoveHasEffect | crates/lockrail-relay/src/lib.rs:270-480 | one step of one request, failures included, changes each store only as its stage may |
| RelaySafety.NextKeepsInvariant | crates/lockrail-relay/src/lib.rs:270-480 | every step of every request, every clock tick and every revocation keeps the invariant |
| Policy.FirstDefectReported | crates/lockrail-protocol/src/lib.rs:434-453 | a token is accepted if and only if it has none of the five defects, and is otherwise refused for the first it has, in the order audience, issue time, start, expiry, revocation |
| PolicyLaws.ProofAcceptedIff | crates/lockrail-protocol/src/lib.rs:675-721 | any proof, signed or forged, is accepted if and only if its version, capability hash, method in upper case, URL, body hash, time, task and purpose fit the request and its signature is good |
| PolicyLaws.FirstProofDefectReported | crates/lockrail-protocol/src/lib.rs:675-721 | a refused proof is refused for the first of its six possible defects |
| PolicyLaws.EnforcedIff | crates/lockrail-protocol/src/lib.rs:505-586 | a request is let through if and only if scheme, host, port, method, path and query are permitted, each said on characters and numbers; otherwise the first that is not is the answer |
| PolicyLaws.HostAllowedIff | crates/lockrail-protocol/src/lib.rs:463-470 | a host rule allows exactly the hosts it spells, or for `*.` those that end in its base, up to the case of letters and dots at the end |
| PolicyLaws.BlockedIffInternal | crates/lockrail-protocol/src/lib.rs:486-503 | an address is blocked if and only if it lies in one of the internal networks, written as prefix and length |
| PolicyLaws.PrivateNameIff | crates/lockrail-protocol/src/lib.rs:472-484 | a host name is private if and only if it spells `localhost` or ends in `.local`, `.internal` or `.lan`, up to case and dots at the end |
| PolicyLaws.ContentTypeAllowedIff | crates/lockrail-protocol/src/lib.rs:588-605 | a content type is allowed if and only if what stands in front of the first semicolon, trimmed, is on the list in any case |
| RelayResults.NewCapabilityServes | crates/lockrail-protocol/src/lib.rs:333-397 | from issue to use: a request with a newly issued capability and any proof, signed or forged, passes the token, proof and policy checks if and only if the capability is in force and unrevoked, its secret is stored, every field of the proof fits the request and its signature is good, and the request is one the issued lists admit |
| PolicyLaws.NewClaimsAdmit | crates/lockrail-protocol/src/lib.rs:333-397 | a request passes `enforce_request` under newly issued claims if and only if it goes by https to port 443 of a host that is not internal and that an issued host names, character by character up to the case of letters and dots at the end, without credentials, with an issued method, to a path their rules accept |
| PolicyLaws.PlainHostsOnly | crates/lockrail-protocol/src/lib.rs:463-470 | hosts issued without a star let requests through to no host but themselves |
| Policy.HostCaseIrrelevant | crates/lockrail-protocol/src/lib.rs:463-470 | host rules ignore the case of letters on both sides |
| Policy.StarredHostMeansBelow | crates/lockrail-protocol/src/lib.rs:463-470 | a `*.` host rule accepts exactly the hosts below its base, never the base |
| Replay.InMemoryReplayStore.CheckAndStore | crates/lockrail-relay/src/lib.rs:88-109 | rejects exactly a stored key that has not expired; new map is the pruned one, plus the key when accepted |
| Replay.FileReplayStore.CheckAndStore | crates/lockrail-relay/src/lib.rs:140-154 | the same check on the file, which a reject leaves unpruned |
| Replay.StoresAgree | crates/lockrail-relay/src/lib.rs:88-156 | on every run with a forward clock both stores give the verdicts of a history that is never pruned |
| Replay.ChecksRefine | crates/lockrail-relay/src/lib.rs:102-106 | one check of either store gives the history's verdict and keeps the pruned map a refinement of the history |
| Replay.RejectsExactlyLive | crates/lockrail-relay/src/lib.rs:88-156 | a check is rejected if and only if an earlier accepted check of the same key is unexpired at that time |
| Replay.RejectsExactlyHeld | crates/lockrail-relay/src/lib.rs:88-156 | under any clock, a check is rejected if and only if an earlier accepted check of its key has outlived every pruning since: by every check in memory, by the accepted ones in the file |
| Replay.StoresPart | crates/lockrail-relay/src/lib.rs:102-106 | the first verdict on which the two stores differ, for any clock: exactly where a rejected check has pruned from memory all that the file still holds |
| Replay.BackwardClockParts | crates/lockrail-relay/src/lib.rs:140-154 | a run on which they do differ |
| Replay.StaleCheckContinues | crates/lockrail-relay/src/lib.rs:88-156 | one check of either store, with a clock reading that may have grown old before the lock was taken, answers and keeps for every key what the start and the accepted checks since say |
| Replay.InterleavedFollowsHistory | crates/lockrail-relay/src/lib.rs:122-156 | processes of the file store, interleaved at lock, read, write and unlock, answer as the unpruned history does in the order of their writes |
| Replay.InterleavedRejectsExactlyLive | crates/lockrail-relay/src/lib.rs:122-156 | so under any interleaving a process is rejected exactly when an unexpired accepted check of its key committed before it |
| Replay.BackwardClockForgets | crates/lockrail-relay/src/lib.rs:102-106 | with a clock that steps back an unexpired key is accepted again |
| Replay.AgentsClashIff | crates/lockrail-relay/src/lib.rs:96-96 | two agent ids can share a key, for some nonces, if and only if they are equal or one continues the other behind a colon |
| Replay.JoinedKeysDistinguish | crates/lockrail-relay/src/lib.rs:96-96 | colon-free agent ids make the key tell all triples apart |
| Replay.ColonBlursKeys | crates/lockrail-relay/src/lib.rs:148-148 | an agent id with a colon can share a key with another agent's nonce |
| Usage.InMemoryUsageStore.Record | crates/lockrail-relay/src/lib.rs:163-179 | counts one more use unless the maximum is reached; an accepted use under a maximum stays within it; other counters are untouched |
| Usage.FileUsageStore.Record | crates/lockrail-relay/src/lib.rs:205-219 | the same on the file, which a refusal leaves alone |
| Usage.FileLinearisesToMemory | crates/lockrail-relay/src/lib.rs:192-221 | every interleaving of file-store processes has a sequential order in which the in-memory store gives the same answers and the same counts |
| Usage.CounterStopsAtMax | crates/lockrail-relay/src/lib.rs:169-176 | under one maximum the counter runs up to it and stays there |
| Usage.UsesExactlyUpToMax | crates/lockrail-relay/src/lib.rs:192-221 | under any interleaving a call is accepted exactly while uses are left, and is told its own number |
| LockedFile.Linearizable | crates/lockrail-relay/src/lib.rs:133-154 | any operation done between locking, reading, writing and unlocking one file linearises: same answers, same file, at nondecreasing times |
| LockedFile.HistoryGrows | crates/lockrail-relay/src/lib.rs:197-220 | a call that took effect keeps its place before all later ones |
| LockProgress.EveryCallCanFinish | crates/lockrail-relay/src/lib.rs:133-154 | no deadlock: however the processes were interleaved so far, some continuation answers every call, in as many steps as are left |
| LockProgress.MovesCount | crates/lockrail-relay/src/lib.rs:133-154 | in every schedule each step of a process that can move brings all calls together one step closer to their end, and no other step does anything |
| Audit.AuditLog.Append | crates/lockrail-audit/src/lib.rs:61-114 | adds exactly one row, every field of it stated, numbered, linked and hashed, and keeps a chain a chain |
| Audit.AuditLog.Verify | crates/lockrail-audit/src/lib.rs:116-134 | intact if and only if the rows form a chain; otherwise the first bad row and its first defect |
| Audit.SameEndSameChain | crates/lockrail-audit/src/lib.rs:46-59 | two non-empty chains that end in one hash are identical, or a row of one and a row of the other collide |
| Audit.TamperShows | crates/lockrail-audit/src/lib.rs:116-134 | against a trusted last hash, verification succeeds if and only if nothing changed, for rows that do not collide with the original ones |
| Audit.UnseenIff | crates/lockrail-audit/src/lib.rs:116-134 | without one, whatever was done to the log, it verifies if and only if it is a prefix of the original followed by new well-made rows, for rows that do not collide |
| Audit.OriginalRowFixesPrefix | crates/lockrail-audit/src/lib.rs:46-59 | in a log that verifies, a row of the original stands only in its old place, behind all the rows that stood before it |
| Audit.RearrangedRowsShow | crates/lockrail-audit/src/lib.rs:116-134 | so dropping, repeating or moving rows goes unseen if and only if the result is a prefix of the log, and no collision can change that |
| Audit.EditedRowShows | crates/lockrail-audit/src/lib.rs:116-134 | and rewriting one row, without colliding with the old row, goes unseen if and only if it is the last and is well made itself |
| Audit.PrefixIsChain | crates/lockrail-audit/src/lib.rs:116-134 | every prefix of a chain verifies |
| AuditWriters.WritersKeepChain | crates/lockrail-audit/src/lib.rs:82-113 | any interleaving of writers keeps the log a chain that extends the old one, one row per committed call, in commit order, numbered on |
| AuditWriters.LogOnlyGrows | crates/lockrail-audit/src/lib.rs:99-113 | rows once written stay, whatever follows |
| Glob.WildcardMatch | crates/lockrail-protocol/src/lib.rs:262-292 | the greedy leftmost search is true exactly when the value is the pattern with each `*` filled by some string |
| Glob.LeftmostServes | crates/lockrail-protocol/src/lib.rs:285-289 | the exchange argument: taking the leftmost occurrence never loses a match |
| Glob.PartsMeanGlob | crates/lockrail-protocol/src/lib.rs:266-292 | matching the parts between the stars in order is the declarative meaning |
| PathRules.Matches | crates/lockrail-protocol/src/lib.rs:252-260 | a rule accepts exactly the paths its policy stands for |
| PolicyLaws.AcceptsIff | crates/lockrail-protocol/src/lib.rs:252-260 | the same said on the characters of the path for each of the four policies |
| PathRules.RuleAgreesExactly | crates/lockrail-protocol/src/presets.rs:345-358 | the two readings of one pattern accept the same absolute paths if and only if it is not an absolute directory without a star |
| PathRules.StarRulesAgree | crates/lockrail-protocol/src/lib.rs:366-379 | for patterns that all hold a star, both rule lists accept the same absolute paths |
| PathRules.ClaimRulesAcceptMore | crates/lockrail-protocol/src/lib.rs:366-379 | for any patterns, the rules of new claims accept every absolute path that the default rules accept |
| Scanners.ScanPrefixed | crates/lockrail-protocol/src/seal.rs:179-205 | terminates and reports exactly what the visited occurrences give, in order |
| Scanners.VisitedIsFirst | crates/lockrail-protocol/src/seal.rs:189-204 | the loop stops at exactly the first occurrence of the prefix in each token run |
| Scanners.PrefixedFindings | crates/lockrail-protocol/src/seal.rs:189-204 | a finding for each such occurrence with a long enough rest of its run, and nothing else |
| ScannerLaws.PrefixedIff | crates/lockrail-protocol/src/seal.rs:179-205 | the same with the classes of characters, the rest of the run, the preview and the decision to seal written out |
| Scanners.EveryOccurrenceFound | crates/lockrail-protocol/src/seal.rs:189-204 | every occurrence whose rest of the run is long enough lies with all of that rest inside a finding |
| Scanners.PrefixedDisjoint | crates/lockrail-protocol/src/seal.rs:204-204 | the findings of one pass are in order and disjoint |
| Scanners.ScanBearer | crates/lockrail-protocol/src/seal.rs:207-234 | panics if and only if the text ends in a visited `bearer `; otherwise reports exactly the tokens behind visited occurrences |
| Scanners.BearerFindings | crates/lockrail-protocol/src/seal.rs:210-233 | a finding for each visited `bearer ` with sixteen or more token characters behind it, and nothing else |
| ScannerLaws.BearerIff | crates/lockrail-protocol/src/seal.rs:207-234 | a bearer token is reported if and only if sixteen or more token characters stand behind `bearer `, in any case, with an even chain of such words in front |
| Scanners.VisitedIsEven | crates/lockrail-protocol/src/seal.rs:210-233 | of words that are each the token of the one before, the loop visits every other one |
| Scanners.PanicIff | crates/lockrail-protocol/src/seal.rs:210-233 | the panic, said of the text alone: it ends in `bearer `, and the number of words chained directly in front of that one is even |
| Scanners.BearerAlonePanics | crates/lockrail-protocol/src/seal.rs:210-211 | the word alone panics |
| FieldScanners.ScanAssignment | crates/lockrail-protocol/src/seal.rs:339-379 | the loop over the keys returns what its visited keys give, in order; SealLaws.AssignmentsIff says what that is |
| FieldScanners.AssignmentReported | crates/lockrail-protocol/src/seal.rs:347-377 | for keys that overlap no copy of themselves, what is assigned at a key is reported wherever the key stands |
| FieldScanners.AssignmentJustified | crates/lockrail-protocol/src/seal.rs:347-377 | nothing else is reported |
| Seal.AssignedTokenReported | crates/lockrail-protocol/src/seal.rs:699-740 | all the keys in use are such keys, so no occurrence of one is passed over |
| SealLaws.AssignmentsIff | crates/lockrail-protocol/src/seal.rs:339-379 | an assigned value is reported if and only if a key in use stands in the text in any case, and from the first `=`, `:` or blank behind it on, the first character that is no space, tab, line end, `=`, `:` or quote starts a token of eight or more characters that runs to the reported end |
| FieldScanners.ScanGenericEntropy | crates/lockrail-protocol/src/seal.rs:381-413 | reports the suspicious maximal token runs in order |
| FieldScanners.EntropyFindings | crates/lockrail-protocol/src/seal.rs:384-412 | a finding is reported exactly for each maximal run that is long, high in entropy, mixed, not a handle, and in a suspicious context |
| ScannerLaws.EntropyIff | crates/lockrail-protocol/src/seal.rs:381-413 | the same on characters: twenty-four or more, a digit and a letter among them, no handle, and a hint within the forty-eight characters in front |
| BlockScanners.ScanJwt | crates/lockrail-protocol/src/seal.rs:236-262 | reports exactly the two-dotted runs of forty or more characters at visited `eyJ` markers |
| BlockScanners.JwtFindings | crates/lockrail-protocol/src/seal.rs:236-262 | a JWT is reported exactly for the first marker of each run of its characters, if the rest has two dots and forty or more characters |
| ScannerLaws.JwtIff | crates/lockrail-protocol/src/seal.rs:236-262 | the same with the characters of the run, its two dots and its forty characters written out |
| BlockScanners.ScanPrivateKeyBlocks | crates/lockrail-protocol/src/seal.rs:264-295 | reports exactly the closed blocks that name a private key, from visited begin markers |
| ScannerLaws.KeyBlockIff | crates/lockrail-protocol/src/seal.rs:264-295 | a block is reported if and only if a begin marker the scan reaches is closed by the next end marker and the block names a private key |
| BlockScanners.ScanDatabaseUrls | crates/lockrail-protocol/src/seal.rs:297-337 | reports exactly the URLs with an `@` and sixteen or more characters, scheme after scheme |
| BlockScanners.UrlFindings | crates/lockrail-protocol/src/seal.rs:297-337 | a URL is reported for a scheme exactly for its first occurrence in each run, if it has an `@` and sixteen or more characters |
| ScannerLaws.UrlIff | crates/lockrail-protocol/src/seal.rs:297-337 | the same with the end of the URL, its `@` and its sixteen characters written out |
| Visits.Visit | crates/lockrail-protocol/src/seal.rs:189-204 | one round of any marker-driven loop: nothing between the occurrence found and the resume position is visited |
| Visits.VisitedIffFirst | crates/lockrail-protocol/src/seal.rs:189-204 | when occurrences that one jumps over resume where it does, the loop stops at exactly those that no earlier occurrence jumps over |
| Visits.EmittedFrom | crates/lockrail-protocol/src/seal.rs:210-233 | such a pass reports exactly what its visited occurrences give |
| Visits.EmittedDisjoint | crates/lockrail-protocol/src/seal.rs:189-204 | a pass whose findings stay in front of the resume position is in order and disjoint |
| TokenRuns.TokenSpansNest | crates/lockrail-protocol/src/seal.rs:105-107 | overlapping spans that end where token runs end nest |
| Findings.NormalizeFindings | crates/lockrail-protocol/src/seal.rs:415-431 | the push and pop loop computes the resolution of the sorted findings |
| Findings.NormalizedIsDisjoint | crates/lockrail-protocol/src/seal.rs:415-431 | the result is a sorted, pairwise disjoint sub-collection of the input, and normalising again changes nothing |
| Findings.NormalizedIff | crates/lockrail-protocol/src/seal.rs:415-431 | a span is kept if and only if it is longer than each earlier one that stood and overlaps it, and no later one that overlaps it is longer |
| Findings.NormalizedIsMaximal | crates/lockrail-protocol/src/seal.rs:415-431 | on a family whose overlapping spans nest it keeps exactly the maximal spans, each once, and covers everything |
| Findings.NormalizedKeeps | crates/lockrail-protocol/src/seal.rs:415-431 | so a span longer than whatever else overlaps it is kept |
| Findings.SortIsStable | crates/lockrail-protocol/src/seal.rs:416-416 | findings of one span keep their order, so the first emitted wins |
| Findings.SortOrders | crates/lockrail-protocol/src/seal.rs:416-416 | and findings of different spans stand by start, then by end |
| Findings.ChainEvicts | crates/lockrail-protocol/src/seal.rs:422-425 | without nesting a chain of partial overlaps drops a span that touches nothing kept |
| Replace.ReplaceWithHandles | crates/lockrail-protocol/src/seal.rs:748-761 | the cursor loop computes the rewriting of the text |
| Replace.RewrittenPerPosition | crates/lockrail-protocol/src/seal.rs:748-761 | position by position: each character outside the spans is copied once and in order, none inside, and each handle stands where its span started |
| Replace.RewrittenLength | crates/lockrail-protocol/src/seal.rs:748-761 | the output length is the input length minus the spans plus the handles |
| SealLaws.HandleSpells | crates/lockrail-protocol/src/seal.rs:753-756 | a handle is the scheme, the kind, a slash and the fingerprint |
| Seal.ScanText | crates/lockrail-protocol/src/seal.rs:433-746 | all scanners in order, then normalised; fails exactly when the bearer scan panics |
| SealLaws.DetectedIff | crates/lockrail-protocol/src/seal.rs:433-746 | a finding is detected in a text if and only if one of the seven scanners finds it, each by its law on characters |
| SealLaws.EarlierScannerWins | crates/lockrail-protocol/src/seal.rs:415-431 | of findings with one span the one whose scanner runs first is kept |
| Seal.SealedMeetsSpans | crates/lockrail-protocol/src/seal.rs:763-776 | the sealed part of every scan result is sorted, disjoint, inside the text and genuine, as rewriting demands |
| Seal.SealText | crates/lockrail-protocol/src/seal.rs:763-780 | the safe text is the input, position by position, with exactly the spans marked for sealing replaced |
| Seal.RedactForDisplay | crates/lockrail-protocol/src/seal.rs:782-791 | every kept span is replaced, whatever its confidence |
| Seal.TokenFindingsCovered | crates/lockrail-protocol/src/seal.rs:415-431 | the spans of the prefixed, bearer, assignment and entropy scanners nest, and normalising them keeps exactly the maximal ones, on every input |
| Seal.SealedIff | crates/lockrail-protocol/src/seal.rs:763-780 | on every text, with any options, a position is sealed if and only if it lies in a span marked for sealing that stays among all that is reported |
| Seal.PrevailingIsSealed | crates/lockrail-protocol/src/seal.rs:782-791 | so no position of a span is copied into the redacted text when the span lies in one longer than whatever else overlaps it |
| Seal.RedactionCovers | crates/lockrail-protocol/src/seal.rs:782-791 | so no position inside a span of those scanners is copied into the redacted text when no JWT, key block or URL finding touches its token run, and also when all spans nest |
| Seal.PlainTextIsCovered | crates/lockrail-protocol/src/seal.rs:782-791 | in particular in every text without `eyJ`, a begin marker or a database scheme |
| Seal.PrefixedTokenHidden | crates/lockrail-protocol/src/seal.rs:433-436 | so no character of a long enough prefixed token reaches the display, under the same condition on its run |
| MixedOverlap.TokenStaysVisible | crates/lockrail-protocol/src/seal.rs:415-431 | without it one can: a text whose assigned token is found by the scanner, with its first six characters left in the redacted text |
| Seal.FoundValuesAreSafe | crates/lockrail-vault/src/lib.rs:222-238 | previewing the value of any finding never panics |
| Handles.SaveSealedFindings | crates/lockrail-cli/src/main.rs:1296-1306 | saves the sealed findings in turn under prefix, kind and fingerprint, skips names that exist, stops at any other error |
| Handles.SavedUnderSpells | crates/lockrail-cli/src/main.rs:1296-1306 | a secret is looked up under prefix, kind and fingerprint with slashes between, and under nothing else |
| Handles.SealRoundTrip | crates/lockrail-protocol/src/seal.rs:748-780 | when every `lockrail://secret/` of the text overlaps a sealed span, saving succeeds, no other record is in the way and names tell the sealed values apart, replacing each handle of the sealed text by the value stored under its name gives the text back |
| Handles.SealRoundTripDistinct | crates/lockrail-cli/src/main.rs:1296-1306 | in terms of fingerprints of one length, with records filed under them: they need only tell apart the values sealed and the values stored |
| Handles.SealRoundTripFresh | crates/lockrail-cli/src/main.rs:1296-1306 | into an empty vault whose saves work, for a text without the scheme, under valid names: fingerprints need only tell the sealed values apart for saving to succeed and the text to come back |
| Handles.SchemeHasNoBorder | crates/lockrail-protocol/src/seal.rs:753-756 | the handle prefix is unbordered, so no handle is read across the start of another |
| Handles.RecoveredIff | crates/lockrail-cli/src/main.rs:1296-1306 | when saving succeeds, every sealed value is found again under its name if and only if no record with another value was there before and no two sealed findings share a name but not a value |
| Handles.StoredSucceeds | crates/lockrail-cli/src/main.rs:1296-1306 | saving succeeds when the names are valid, every save works and no preview panics |
| Handles.CopiedHandleIsReplaced | crates/lockrail-protocol/src/seal.rs:748-761 | a resolvable handle that was already in the text is unsealed too, so some such condition is needed |
| Handles.UnknownStays | crates/lockrail-cli/src/main.rs:1207-1224 | text without resolvable handles is left as it is, unknown handles included |
| Vaults.Vault.AddKey | crates/lockrail-vault/src/lib.rs:491-504 | refuses names that are empty or hold a blank or two dots in a row, and taken ones, panics without a change on a value whose preview panics, otherwise adds a fresh record, every field of it stated, changes nothing else and saves; the answer is Ok exactly if the save worked |
| Vaults.Vault.UpsertKey | crates/lockrail-vault/src/lib.rs:506-527 | the same on a taken name too, whose creation time is kept |
| Vaults.Vault.SetSecret | crates/lockrail-vault/src/lib.rs:676-708 | the same with the environment tag among the tags, added last if it was missing |
| Vaults.Vault.UseKey | crates/lockrail-vault/src/lib.rs:551-563 | answers the stored value if the save works; either way the record is stamped with the time as last used and updated, and nothing else changes; a missing name changes nothing |
| Vaults.Vault.RemoveKey | crates/lockrail-vault/src/lib.rs:529-533 | the name is gone and nothing else changed; the answer is Ok exactly if the save worked, and tells whether there was a record |
| Vaults.Vault.DeleteSecret | crates/lockrail-vault/src/lib.rs:736-741 | a name that starts with `agent-private/` is refused without a change; any other is removed, with the same answer |
| Vaults.Vault.SaveAgent | crates/lockrail-vault/src/lib.rs:597-615 | stores the private key under `agent-private/` and the id first, then the agent with the public fields, each with its own save; says what memory and disk hold for each combination of failures |
| Vaults.Vault.LoadAgent | crates/lockrail-vault/src/lib.rs:617-638 | refuses unknown and revoked agents without a change, otherwise stamps the key record and answers the public fields with the stored key |
| Vaults.Vault.RevokeAgent | crates/lockrail-vault/src/lib.rs:661-673 | marks the record and the revocation set of this agent and nothing else, then saves and publishes; the answer is Ok exactly if both worked |
| Vaults.ValidNameIff | crates/lockrail-vault/src/lib.rs:215-220 | a name is valid if and only if it is not empty and holds neither a blank nor two dots in a row |
| VaultRuns.AgentsKeepKeys | crates/lockrail-vault/src/lib.rs:597-615 | over every run, failed saves and reopening included, every registered agent has a private-key record at every moment, in memory and on disk, if and only if no `remove_key` names one |
| VaultRuns.NextSoundIff | crates/lockrail-vault/src/lib.rs:529-533 | one call keeps that so if and only if it is not a `remove_key` of the key of an agent then registered |
| VaultRuns.GuardedRun | crates/lockrail-vault/src/lib.rs:736-741 | runs that delete through `delete_secret` only are among them |
| VaultRuns.LoadFindsKey | crates/lockrail-vault/src/lib.rs:617-638 | so, from an empty vault and after any such run, loading a registered agent succeeds if and only if it is not revoked and the save succeeds |
| VaultRuns.RemoveKeyIff | crates/lockrail-vault/src/lib.rs:529-533 | removing a key keeps the vault sound if and only if it is no registered agent's |
| VaultRuns.RevokedForever | crates/lockrail-vault/src/lib.rs:617-673 | once revoked, an agent is refused by `load_agent` and listed as revoked forever, even after a later `save_agent` with its id |
| VaultRuns.RevocationHoldsIff | crates/lockrail-vault/src/lib.rs:661-673 | after a revocation, and no other of that agent, the agent is refused at the end of a run if and only if the vault is not reopened before the first save that succeeds, the one of the revocation included |
| VaultRuns.UnsavedRevocationIsLost | crates/lockrail-vault/src/lib.rs:661-673 | one whose save failed is undone by reopening |
| VaultRuns.CreationTimeKept | crates/lockrail-vault/src/lib.rs:506-527 | a key vanishes or changes its creation time only in a run that deletes it |
| VaultRuns.SavedAgentLoads | crates/lockrail-vault/src/lib.rs:597-638 | a saved agent loads back unchanged, private key included, after any run none of whose calls replaces or removes its key or its public half, unless revoked |
| VaultRuns.NextKeepsAgentIff | crates/lockrail-vault/src/lib.rs:506-533 | one call leaves a saved agent as it was if and only if it is not one of those |
| VaultRuns.WriteKeepsKeyIff | crates/lockrail-vault/src/lib.rs:676-708 | writing a value under a name leaves a registered agent's private key as it was if and only if the name is another one, the value is that key, or the preview panics |
| VaultRuns.ListedRevoked | crates/lockrail-vault/src/lib.rs:640-651 | a revoked agent is listed, and listed as revoked |
| Ordering.AscendingIsUnique | crates/lockrail-vault/src/lib.rs:711-720 | a set of names has one listing in key order |
| Dotenv.ExportDotenv | crates/lockrail-cli/src/sync.rs:235-244 | prints one quoted, escaped line per pair |
| Dotenv.ParseDoubleQuoted | crates/lockrail-cli/src/sync.rs:333-352 | resolves escapes up to the closing quote or the end |
| Dotenv.ImportDotenv | crates/lockrail-cli/src/sync.rs:294-331 | the loop collects what its lines give, in order; DotenvLaws.ImportedIff says what that is |
| DotenvLaws.ImportedIff | crates/lockrail-cli/src/sync.rs:294-352 | for every text: its pairs are what its lines give, in order, where a line gives a value for a key if and only if its characters stand in the relation written out for double quotes with escapes, single quotes, and unquoted values with and without a comment |
| DotenvLaws.UnescapedIff | crates/lockrail-cli/src/sync.rs:333-352 | a value is read from double quotes if and only if its characters are read one after the other, two positions from each backslash, up to a quote or the end |
| DotenvShapes.PlainLine | crates/lockrail-cli/src/sync.rs:318-325 | a value without blanks at its ends, quotes or comment is taken as it stands |
| DotenvShapes.CommentedLine | crates/lockrail-cli/src/sync.rs:318-325 | a comment behind such a value, unless that is empty, changes nothing |
| DotenvShapes.CommentIsValue | crates/lockrail-cli/src/sync.rs:318-325 | behind an empty value a comment is the value |
| DotenvShapes.SingleQuotedLine | crates/lockrail-cli/src/sync.rs:354-363 | in single quotes a one-line value without them is taken as it stands |
| DotenvShapes.SpelledLine | crates/lockrail-cli/src/sync.rs:333-352 | in double quotes every value can be written, line feeds, returns and tabs as `\n`, `\r` and `\t` |
| DotenvShapes.IdleIff | crates/lockrail-cli/src/sync.rs:296-309 | a line gives nothing if and only if it has no equals sign or starts, behind blanks, with `#` or `=` |
| DotenvShapes.IdleAddsNothing | crates/lockrail-cli/src/sync.rs:296-309 | and such a line can stand anywhere in a text without changing what it gives |
| DotenvRoundTrip.UnescapedEscaped | crates/lockrail-cli/src/sync.rs:240-241 | parsing undoes the two chained replaces on every value |
| DotenvRoundTrip.CutValueIsOneLine | crates/lockrail-cli/src/sync.rs:333-352 | however an escaped one-line value is cut off, no line feed comes out of it |
| DotenvRoundTrip.RoundTripIff | crates/lockrail-cli/src/sync.rs:235-331 | an environment with valid names comes back, same pairs and order, if and only if no name has `=` or a leading `#` and no value a line feed |
| Environments.ImportSecrets | crates/lockrail-cli/src/main.rs:3762-3770 | sets the pairs in turn, stopping at the first error |
| Environments.ImportsStop | crates/lockrail-cli/src/main.rs:3762-3770 | each pair is set in the store the one before it left; the first that cannot be set ends the import with its error |
| Environments.ViewAscends | crates/lockrail-cli/src/sync.rs:20-30 | an environment lists stored names in key order |
| Environments.EnvironmentRebuilt | crates/lockrail-cli/src/main.rs:3762-3770 | exporting a portable environment of a sound vault and importing the text into an empty vault rebuilds the same environment view |

## Left out

- Cryptography and encodings (SHA-256, Ed25519, AES-GCM, Argon2, base64url, JSON): parameters or absent; token decoding and signature checks are functions of the environment.
- URL parsing, DNS, HTTP, TLS, the proxy, shims, installers and the command line: a parsed URL, the resolved addresses and the success of each step are inputs of the relay model.
- Non-ASCII text: positions count characters, while several loops of the source step by bytes.
- Floating-point entropy: the test on a token is a parameter.
- Corrupt store files, partial writes, poisoned mutexes and crashes under a lock: a write under the lock is atomic and a file reads back as written.
- Relay.Send: every attempt counts as a send, also one whose client cannot be built, so that nothing leaves.
- Relay.Respond: a response that ends in `bearer ` makes the response scan panic; the model lets such a request fail like any other error.
- Relay.VerifyStage: looking up the secret is modelled by the set of stored names; the save inside `use_key` and the injected headers are not.
- The prefix scanner calls of `scan_text` are one loop over a table of the same rules in the same order, and each scanner returns its findings where the source pushes into a shared vector.
- Scanners.RawPrefixRule: covers nonempty prefixes of token characters, as all prefixes in use are.
- Handles.SealRoundTrip: leaves out texts that hold a handle which resolves to nothing; by Handles.UnknownStays such a handle stays as it is.
- `resolve_handle`: unsealing looks records up by the name that `save_sealed_findings` writes; the kind comparison of `resolve_handle` is not modelled.
- The text of `redacted_preview` in vault metadata (only its panic is modelled), capability revocation and usage inside the vault, legacy migration, and the public agent documents beyond the success of writing them.
- YAML and JSON export, environment name sanitising, remote sync, doctor and harness reports: easy or JSON-shaped.
- Vaults.Vault: one `now` stands for all clock readings of one operation.
