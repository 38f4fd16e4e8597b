# The PSO integration layer, modelled and proved in Dafny

The integration layer sits between wallets, attesters and the PSO chain. It mints SpendingUnits from sealed
batches, checks committee certificates, classifies refusals, reports scenarios, and carries mint requests over a
bridge. This project models that logic and proves what each part promises the others. `dafny verify dfyconfig.toml`
checks all of it.

| area | modules |
|---|---|
| sealed-batch issuance | `Statements` (the four byte layouts), `SealedBatches` (the attester's pass and its order of checks), `Issuance` (what acceptance and refusal mean), `BatchBinding` (grants, settlements, totals, key directory), `Producers` (the two builders of batches) |
| certificate to leaf | `Finalization` (varints, proposals, namespaces), `Inclusion` (path, digest, certificate, receipt), `Responses` (the responses as rendered, and the tree behind a path) |
| refusal texts | `Text`, `Hex`, `SelectorText`, `RevertText`, `PoolDumps`, `RevertMessages` (what the messages of a chain come to) |
| reports | `Xml` (escaping, printer, reader), `Junit` (the report class and its round trip) |
| bridge | `BridgeProtocol` (the protocol as steps, and the class whose methods take them) |
| wire and order | `PowEnvelope`, `SortedSets`, `Records`, `ProofOrder`, `Aggregation` |
| shared | `Octets` (bytes, machine integers, integer encodings, the field modulus), `Checklists` (checks in an order), `Wrappers` |

How it is modelled:

- SHA-256, signature verification, entity hashing, the tree's node hash, proof-of-work solving and the generated
  contract bindings are function-typed fields of a record every theorem is universally quantified over.
- A binding theorem says "the fields are equal, or these two inputs are distinct and hash alike". The two inputs are
  always named, because the bare existence of a collision holds of every fixed-length digest.
- Nothing is assumed of a signature scheme where a theorem is about what signatures bind. Such a theorem ends in the
  bound fact, or in the evidence against the signer: one signature that verifies on two messages, two signatures on
  two conflicting statements, or a signature on a statement that is not among those the signer made.
- Integer widths are subset types. Casts, wrapping sums, and the reductions modulo the BN254 scalar field are written
  out.
- An error is a datatype value with the data its message is formatted from.
- Code that works in steps is a method with a loop, proved against a function of its inputs. `Bridge` and `Report`
  are classes. Seals are signed in place in an array.

What the proofs found, beyond confirming the documentation:

- A pool rejection as the pool words it is never classified as one. The bare-hex scan runs first and takes the
  address in the dump for revert bytes. The typed `MethodNotPermitted` comes out exactly when the message also holds a
  closed `data: "0x…"` whose contents are not hex (`NotPermittedExactly`, `RejectionRecognized`,
  `FramedDump`, and `DumpBehindBadQuote` for one such message).
- A selector dumped in decimal, which the code says it accepts, is misread exactly when a byte has two digits,
  because every token is tried as hex first (`DecSelectorRoundTrip`); `[0, 0, 0, 10]` is one (`TenReadsAsSixteen`).
- On the command line the submitted record lists are the hashed ones exactly when both were typed strictly ascending
  (`MintSu`); the ids 2, 1 are hashed as 1, 2 (`TwoBeforeOne`).
- The suite's batch builder adds folds without reducing. Its batches verify exactly when the counts sum below 2^64
  and the unreduced folds below the field modulus (`SuiteBatchVerifiedExactly`); folds r - 1 and 1 are refused
  (`FoldsReachingTheModulus`).
- The four-byte length prefixes of the proof blob and of the envelope are exact up to 2^32 and wrong from there on
  (`ProofReadsBack`, `PowEnvelope.DecodeEncode`).

## Model

| member | source | states |
|---|---|---|
| Statements.PushLenPrefixed | crates/pso-attester-integration/src/lib.rs:685-688 | behind what was there: four bytes that read as the length modulo 2^32, then the bytes |
| Statements.HandleMessage | crates/pso-attester-integration/src/lib.rs:722-741 | the pushed bytes read back as the handle statement with all seven fields |
| Statements.SettlementMessage | crates/pso-attester-integration/src/lib.rs:746-766 | the pushed bytes read back as the settlement statement with all ten fields, for any commitment-root length |
| Statements.DecodeEncode | crates/pso-attester-integration/src/lib.rs:692-766 | one reader takes all four layouts apart again, field for field |
| Statements.EncodeInjective | crates/pso-attester-integration/src/lib.rs:670-766 | every layout determines its fields, and no statement of one family has the bytes of another |
| Statements.IdsBindOrCollide | crates/pso-attester-integration/src/lib.rs:692-718 | equal seal or settlement ids come from equal facts, or the two preimages collide |
| Octets.LastWeighsMost | crates/pso-attester-integration/src/lib.rs:702-704 | in the integers of the statements the last byte weighs most |
| SealedBatches.CheckLengths | crates/pso-attester-integration/src/lib.rs:515-522 | the eight length checks in order: none fails, or the error is that of the first that does |
| SealedBatches.CheckShape | crates/pso-attester-integration/src/lib.rs:524-538 | one to five seals first, strictly ascending pools second |
| SealedBatches.CheckSealFields | crates/pso-attester-integration/src/lib.rs:545-571 | widths, epoch entry, key width, day window, key equality: the first failing one is the error |
| SealedBatches.CheckHandle | crates/pso-attester-integration/src/lib.rs:573-597 | the verdict is the committee's on the handle statement with the seal id derived from the batch's own context and sequence |
| SealedBatches.CheckSeal | crates/pso-attester-integration/src/lib.rs:544-597 | one seal passes all eight checks, or fails with its first |
| SealedBatches.CheckSeals | crates/pso-attester-integration/src/lib.rs:540-602 | one pass: on success all seals passed and count, fold and day are the true sum (no 128-bit overflow), the residue of the unreduced sum, and the maximum; on failure the error is the first failing check over all seals |
| SealedBatches.Accumulate | crates/pso-attester-integration/src/lib.rs:599-601 | one step of the three accumulators keeps them exact, for folds at or above the modulus too |
| SealedBatches.AddModIsSum | crates/pso-attester-integration/src/lib.rs:600 | reducing after every addition gives the residue of the unreduced sum |
| SealedBatches.CheckTotals | crates/pso-attester-integration/src/lib.rs:604-613 | count, fold, day against what the enclave signed, in that order |
| SealedBatches.Settle | crates/pso-attester-integration/src/lib.rs:615-656 | settlement signature, then entity hash, then the minted unit and report field for field |
| SealedBatches.IssueFromSealedBatch | crates/pso-attester-integration/src/lib.rs:507-656 | the outcome is what the documented order prescribes: the first failing check's error, or the unit |
| Checklists.FlatFails | crates/pso-attester-integration/src/lib.rs:480-502 | the first failing check of the first failing group is the first failing check of all |
| Issuance.OutcomeDetermined | crates/pso-attester-integration/src/lib.rs:480-502 | the documented order leaves one outcome for every request |
| Issuance.AcceptedExactly | crates/pso-attester-integration/src/lib.rs:480-656 | all checks pass exactly when the request is acceptable, an order-free conjunction |
| Issuance.MintsExactlyAcceptable | crates/pso-attester-integration/src/lib.rs:507-656 | issuance succeeds exactly on acceptable requests |
| Issuance.VerifiedExactly | crates/pso-attester-integration/src/lib.rs:507-634 | a request passes everything before the hash exactly when it is minted or fails in the entity hash |
| Issuance.RefusalPlaced | crates/pso-attester-integration/src/lib.rs:507-656 | every refusal belongs to one stage; every earlier stage, and every earlier seal, passed |
| Issuance.SealRefusalExplained | crates/pso-attester-integration/src/lib.rs:544-597 | a window, key or signature error names the first unacceptable seal's epoch and day, and what is wrong with it |
| Issuance.TotalsRefusalExplained | crates/pso-attester-integration/src/lib.rs:604-613 | a mismatch names the first wrong total, of count, fold and day |
| Issuance.WidthRefusalExplained | crates/pso-attester-integration/src/lib.rs:515-522 | a wrong width is reported first, by its name, expected and actual width, and the first of the eight |
| BatchBinding.HandleBindsGrant | crates/pso-attester-integration/src/lib.rs:692-741 | one handle message is one grant: attester, context, sequence, pool, count, fold, epoch, day, or a named collision |
| BatchBinding.AcceptedSealsWereGranted | crates/pso-attester-integration/src/lib.rs:544-597 | whatever grant an accepted seal's handle was signed for, all its eight values are the batch's; otherwise a named collision, or this handle verifies on two named messages |
| BatchBinding.SealGrantedOrForged | crates/pso-attester-integration/src/lib.rs:544-597 | given the grants a committee issued, every accepted seal has one of them up to a named collision, or a handle forged against that list |
| BatchBinding.SealIdsDistinct | crates/pso-attester-integration/src/lib.rs:530-538 | pools of an accepted batch differ, and so do their seal ids, or a named collision |
| BatchBinding.MintedUnit | crates/pso-attester-integration/src/lib.rs:621-655 | field by field: the minted unit has the request's id, owner, attester and referrer, the batch's day, currency, base, atto and context, and the settlement id of its sync; the report has the header's values and the unit's hash |
| BatchBinding.MintedWasSettled | crates/pso-attester-integration/src/lib.rs:615-656 | given the statements an enclave signed, a minted unit has the base, atto, currency, day, context and settlement id of one of them, or its signature is forged against that list |
| BatchBinding.OneSettlementOneAmount | crates/pso-attester-integration/src/lib.rs:615-656 | two units minted under one enclave key with one settlement id agree in base, atto, currency, day and context; otherwise a named collision, or two conflicting settlements of one sync that both verify |
| BatchBinding.TotalsOrderFree | crates/pso-attester-integration/src/lib.rs:599-601 | the three totals do not depend on the order of the seals |
| BatchBinding.NoSealCanBeDropped | crates/pso-attester-integration/src/lib.rs:604-613 | no sub-list that drops a seal of positive count is accepted with the same totals |
| BatchBinding.OutcomeDependsOnKeysUsed | crates/pso-attester-integration/src/lib.rs:548-554 | directories that agree on the seals' epochs give the same outcome, errors included |
| BatchBinding.UnusedEntryIgnored | crates/pso-attester-integration/src/lib.rs:476-479 | an entry no seal refers to can be added or removed anywhere |
| BatchBinding.FirstEntryWins | crates/pso-attester-integration/src/lib.rs:548-551 | of entries with one number, later ones never matter |
| BatchBinding.OrderOfKeysIgnored | crates/pso-attester-integration/src/lib.rs:476-479 | entries with distinct numbers may be listed in any order |
| Producers.SuiteSealId | testsuite/src/scenarios/registries.rs:203-212 | the mirrored seal id equals the attester's |
| Producers.SuiteSettlementId | testsuite/src/scenarios/registries.rs:216-222 | the mirrored settlement id equals the attester's |
| Producers.SuiteHandleMessage | testsuite/src/scenarios/registries.rs:226-242 | the mirrored handle message has the attester's bytes |
| Producers.SuiteSettlementMessage | testsuite/src/scenarios/registries.rs:248-267 | the mirrored settlement message has the attester's bytes |
| Producers.SignHandles | testsuite/src/scenarios/s053_su_v2_settles_sealed_batch.rs:87-97 | every seal gets the committee's signature over the statement the attester rebuilds; nothing else of it changes |
| Producers.SettledBatch | testsuite/src/scenarios/s053_su_v2_settles_sealed_batch.rs:101-130 | totals as plain wrapping sums and the latest day, settled over exactly these totals |
| Producers.WrapAgreesBelowModulus | testsuite/src/scenarios/s053_su_v2_settles_sealed_batch.rs:115-122 | for five folds the 256-bit sum equals the field sum exactly below the modulus |
| Producers.SuiteBatchVerifiedExactly | testsuite/src/scenarios/s053_su_v2_settles_sealed_batch.rs:85-130 | a produced batch passes every attester check before the hash exactly when counts fit 64 bits and folds sum below the modulus |
| Producers.FoldsReachingTheModulus | testsuite/src/scenarios/s053_su_v2_settles_sealed_batch.rs:115-122 | one failing input: folds r - 1 and 1 give a batch fold of r, and the attester refuses the batch |
| Producers.SignSettleIssue | testsuite/src/scenarios/s053_su_v2_settles_sealed_batch.rs:85-130 | sign, settle and issue in sequence: nothing is refused before the entity hash exactly when the sums fit |
| Producers.FieldElementsFit | testsuite/src/scenarios/s053_su_v2_settles_sealed_batch.rs:55-63 | five folds below 2^248 sum below the modulus |
| Producers.SignedPoolSeal | crates/pso-attester-integration/src/lib.rs:946-975 | the crate's own seal is signed over the statement its attester rebuilds |
| Producers.SettleTotals | crates/pso-attester-integration/src/lib.rs:978-994 | the crate's own totals: wrapping count, reduced fold, latest day, settled over exactly these |
| Producers.CrateBatchVerifiedExactly | crates/pso-attester-integration/src/lib.rs:946-994 | such a batch passes every check before the hash exactly when its counts fit 64 bits |
| Finalization.UintVarint | testsuite/src/bls_verify.rs:40-53 | the shift loop's bytes, followed by anything, read back as the number and the rest |
| Finalization.VarintReadsBack | testsuite/src/bls_verify.rs:37-53 | decoding an encoding followed by any suffix gives the number and the suffix |
| Finalization.VarintPrefixFree | testsuite/src/bls_verify.rs:37-53 | no encoding is a prefix of another |
| Finalization.VarintMinimal | testsuite/src/bls_verify.rs:37-53 | no shorter byte string reads as the same number |
| Finalization.VarintOfU64 | testsuite/src/bls_verify.rs:40-53 | a 64-bit number takes one to ten bytes |
| Finalization.ProposalBytes | testsuite/src/bls_verify.rs:57-63 | the proposal reads back as epoch, view, parent view and digest |
| Finalization.NamespaceBytes | testsuite/src/bls_verify.rs:24-35 | the 27 bytes: the chain's prefix, an eight-byte big-endian id that reads back, the vote's suffix |
| Octets.FirstWeighsMost | testsuite/src/bls_verify.rs:31 | in the integers of namespace and header the first byte weighs most |
| Finalization.NamespaceInjective | testsuite/src/bls_verify.rs:28-35 | the namespace determines the chain id |
| Finalization.SignedStatementInjective | testsuite/src/bls_verify.rs:28-63 | namespace and proposal determine all five values a finalize signature covers |
| Inclusion.VerifyFinalizeCert | testsuite/src/bls_verify.rs:113-130 | accepted exactly when the key has 256 bytes and the signature verifies over namespace and proposal; otherwise the verifier's reason |
| Inclusion.CheckPath | testsuite/src/scenarios/s046_cert_inclusion.rs:100-114 | root, block number and 32 siblings decode and the leaf's path ends in the root, or the first that fails is reported |
| Inclusion.DecodeHeader | testsuite/src/scenarios/s046_cert_inclusion.rs:133-148 | the header fields decode in order and the digest is that of their preimage, or the first that does not decode is reported |
| Inclusion.CheckDigest | testsuite/src/scenarios/s046_cert_inclusion.rs:139-154 | the tip digest decodes and is the header's, or the first that fails is reported |
| Inclusion.DecodeRound | testsuite/src/scenarios/s046_cert_inclusion.rs:156-163 | the four round fields decode, or the first that does not is reported |
| Inclusion.CheckAnchor | testsuite/src/scenarios/s046_cert_inclusion.rs:121-131 | header present, its root decodes, its root is the path's: all three, or the first that fails |
| Inclusion.CheckCertificate | testsuite/src/scenarios/s046_cert_inclusion.rs:165-190 | accepted exactly when the committee signed this digest in this round |
| Inclusion.CheckInclusion | testsuite/src/scenarios/s046_cert_inclusion.rs:92-190 | two responses are accepted exactly when what they decode to proves the leaf, and otherwise the first failing of all nineteen steps is reported |
| Responses.SiblingsRead | testsuite/src/scenarios/s046_cert_inclusion.rs:266-283 | an array of rendered words decodes to exactly these words in this order, each reduced into the field |
| Responses.ResponsesDecode | testsuite/src/scenarios/s046_cert_inclusion.rs:100-163 | responses that render evidence under their keys, hex with or without prefix, decode to it and to nothing else |
| Responses.CheckRendered | testsuite/src/scenarios/s046_cert_inclusion.rs:92-190 | rendered evidence is accepted exactly when it proves the leaf, and the result is that evidence |
| Responses.LeafProvesIntoRoot | testsuite/src/scenarios/s046_cert_inclusion.rs:104-114 | the co-path of any leaf of a full tree, from the leaf upwards and left child first, folds to the root |
| Inclusion.PathBinds | testsuite/src/scenarios/s046_cert_inclusion.rs:104-114 | two paths from one position to one node agree in leaf and all siblings, or a named pair of nodes collides |
| Inclusion.PreimageReadsBack | testsuite/src/scenarios/s046_cert_inclusion.rs:141-148 | the digest preimage determines all six fields despite its variable-length context |
| Inclusion.DigestBindsHeader | testsuite/src/scenarios/s046_cert_inclusion.rs:141-154 | one digest is one header, or the two preimages collide |
| Inclusion.DigestBindsLeaf | testsuite/src/scenarios/s046_cert_inclusion.rs:92-154 | one tip digest carries one root, and one leaf (as a field element) at each position, or a named collision |
| Inclusion.CertificateIsFinalization | testsuite/src/scenarios/s046_cert_inclusion.rs:156-190 | given what a committee finalized, an accepted certificate states one of it, view, chain and digest included, or is forged against that list |
| Inclusion.FinalizedViewBindsLeaf | testsuite/src/scenarios/s046_cert_inclusion.rs:79-190 | end to end: two accepted checks in one view at one position show the same leaf; otherwise a named collision, or two signatures of the committee on two digests in that view |
| Inclusion.AgreementBindsLeaf | testsuite/src/scenarios/s046_cert_inclusion.rs:79-190 | when the finalized list has one digest a view, only a named collision or a forged certificate parts two leaves |
| Inclusion.TopicReads | testsuite/src/scenarios/s046_cert_inclusion.rs:225-227 | an indexed number is the low eight bytes of its topic, big-endian |
| Inclusion.LeafInserted | testsuite/src/scenarios/s046_cert_inclusion.rs:205-235 | the first matching log decides alone: its three values, or its error |
| Hex.DecodeAccepts | testsuite/src/scenarios/s046_cert_inclusion.rs:300-315 | hex decoding accepts exactly digit strings of even length, two digits a byte |
| Hex.DigitValues | testsuite/src/scenarios/s046_cert_inclusion.rs:300-315 | the sixteen digits and their values, in either case |
| RevertText.PlainErrorsRecognized | testsuite/src/clients/contract_errors.rs:238-288 | with distinct selectors each argument-free error is recognized whatever follows its selector |
| RevertMessages.ArgumentsDecoded | testsuite/src/clients/contract_errors.rs:290-330 | with distinct selectors each of the five errors with arguments is recognized, arguments in order, the tier saturated at 32 bits |
| RevertMessages.UnknownKept | testsuite/src/clients/contract_errors.rs:332-338 | an unknown selector, and a known one whose body does not decode, keep the raw bytes |
| RevertMessages.ShortData | testsuite/src/clients/contract_errors.rs:238-241 | fewer than four bytes are reported with their number |
| RevertText.RevertBytesAreNoRejection | testsuite/src/clients/contract_errors.rs:115-121 | nothing decoded from revert bytes counts as a pool rejection |
| RevertText.ScanBareHex | testsuite/src/clients/contract_errors.rs:357-375 | the cursor loop returns the first run of even length at least eight that the left-to-right walk meets, and nothing exactly when there is none |
| RevertText.LookAtRun | testsuite/src/clients/contract_errors.rs:361-374 | one turn of the cursor loop: the run it looks at is the first candidate, or everything up to its end is scanned |
| RevertText.ExtractRevertBytes | testsuite/src/clients/contract_errors.rs:349-376 | a closed quoted `data` decides alone; otherwise the scan does |
| RevertMessages.QuotedDecidesAlone | testsuite/src/clients/contract_errors.rs:350-356 | the contents of the first closed `data: "0x…"` yield bytes exactly when they are pairs of hex digits |
| RevertMessages.QuotedRevert | testsuite/src/clients/contract_errors.rs:208-216 | quoted bytes are the revert bytes, whatever surrounds the quote, and decide the classification |
| RevertMessages.QuotedExample | testsuite/src/clients/contract_errors.rs:481-485 | `data: "0x82b42900"` has the four bytes it spells |
| RevertMessages.BareRevert | testsuite/src/clients/contract_errors.rs:357-375 | without quoted data, pairs of digits behind the first `0x` of a text, at least four and in either case, are the revert bytes |
| RevertMessages.BareBytes | testsuite/src/clients/contract_errors.rs:357-375 | bytes rendered behind the first `0x` are read back |
| RevertMessages.DecodeIgnoresCase | testsuite/src/clients/contract_errors.rs:359 | lowering a text changes no bytes its digits stand for |
| Text.LowersLetters | testsuite/src/clients/contract_errors.rs:359 | lowering maps capitals to their small letters and keeps the rest |
| RevertText.FoundIsMet | testsuite/src/clients/contract_errors.rs:361-374 | every `0x` the cursor finds is one the walk meets: none whose zero an earlier run consumed |
| RevertText.DecodeText | testsuite/src/clients/contract_errors.rs:208-234 | the classification, and that a typed rejection implies undecodable quoted data |
| RevertMessages.KeptWhole | testsuite/src/clients/contract_errors.rs:218-234 | without revert bytes and without a dump a message is a rejection exactly when it holds one of four phrases, and is kept whole |
| RevertText.RevertBytesTakePrecedence | testsuite/src/clients/contract_errors.rs:208-234 | whenever a rejection dump would parse, revert bytes are found first, except behind undecodable quoted data |
| RevertText.NotPermittedExactly | testsuite/src/clients/contract_errors.rs:208-234 | the typed rejection is returned exactly when the quoted data is undecodable and the dump parses |
| RevertText.RejectionRecognized | testsuite/src/clients/contract_errors.rs:208-234 | a message whose dump would parse counts as a rejection exactly when its quoted data is undecodable, whatever surrounds the dump |
| SelectorText.ParseSelectorAfter | testsuite/src/clients/contract_errors.rs:413-441 | the filling loop returns exactly four bytes when there are exactly four tokens and each is a byte |
| SelectorText.SpacesAre | testsuite/src/clients/contract_errors.rs:426 | a token is trimmed of the 25 code points that are white space |
| SelectorText.StripsEvery0x | testsuite/src/clients/contract_errors.rs:426 | every `0x` in front of a token is taken away |
| SelectorText.DigitsOfRadix | testsuite/src/clients/contract_errors.rs:427-431 | a number is read from digits of its radix and from nothing else |
| SelectorText.SignedBytes | testsuite/src/clients/contract_errors.rs:427-431 | a sign in front of digits changes nothing, a sign alone is no number, and values from 256 on are none |
| SelectorText.HexByteParses | testsuite/src/clients/contract_errors.rs:426-431 | a byte rendered as `0x` and two digits parses back, also behind a space |
| SelectorText.DecByteParses | testsuite/src/clients/contract_errors.rs:426-431 | a byte rendered in decimal reads as hex exactly when it has two digits |
| SelectorText.HexSelectorRoundTrip | testsuite/src/clients/contract_errors.rs:413-441 | four hex bytes parse back inside any text without an earlier key or bracket |
| SelectorText.DecSelectorRoundTrip | testsuite/src/clients/contract_errors.rs:413-441 | four decimal bytes always parse, and parse back exactly when none lies in 10..99 |
| SelectorText.TenReadsAsSixteen | testsuite/src/clients/contract_errors.rs:413-441 | one failing input: `selector: [0, 0, 0, 10]` reads as 0, 0, 0, 16 |
| PoolDumps.DumpParses | testsuite/src/clients/contract_errors.rs:382-411 | the first dump of any text parses to its address and selector |
| PoolDumps.FramedDump | testsuite/src/clients/contract_errors.rs:208-234 | the first dump of any text counts as a rejection exactly when the text's quoted data is undecodable |
| PoolDumps.DumpTakenForRevertBytes | testsuite/src/clients/contract_errors.rs:208-234 | without quoted data, and with no x in front of the dump, what the message decodes to are the bytes of the dump's address |
| PoolDumps.DumpBehindBadQuote | testsuite/src/clients/contract_errors.rs:350-356 | one message that is classified as the typed rejection: a dump, with any text behind it, after a closed quote that is not hex |
| Xml.XmlEscape | testsuite/src/scenario.rs:421-434 | the escaped text resolves to the original and holds no `<` and no quote |
| Xml.NodeReadsBack | testsuite/src/scenario.rs:368-416 | a printed element, attribute for attribute and text for text, reads back in front of any suffix |
| Junit.Report.Push | testsuite/src/scenario.rs:250-267 | appends one result; the failure count and the total time grow by that result |
| Junit.Report.CaseRow | testsuite/src/scenario.rs:380-410 | the text pushed for one scenario is its printed element on its own line |
| Junit.Report.ToJunitXml | testsuite/src/scenario.rs:368-416 | what is pushed piece by piece is the printed document, and reads back as the report: cases, totals and times |
| Junit.JunitRoundTrip | testsuite/src/scenario.rs:346-416 | for any report of arbitrary strings, stated without the printer: cases in order, name as id, dash, description, a failure exactly on Fail with first line and full text, times, and the same totals on both levels |
| Junit.FailedCounts | testsuite/src/scenario.rs:255-257 | the printed failure count is the number of positions whose outcome is a failure |
| Junit.FirstLineUnique | testsuite/src/scenario.rs:401-404 | the message of a failure is determined: a text has one first line |
| BridgeProtocol.InvReachable | testsuite/src/bridge.rs:162-178 | the protocol's invariant holds after every run |
| BridgeProtocol.ExactlyOnePlace | testsuite/src/bridge.rs:162-178 | an accepted request is answered, in service or queued, and exactly one of these |
| BridgeProtocol.ServedInOrder | testsuite/src/bridge.rs:168-175 | service is first in, first out |
| BridgeProtocol.SlotEmptyWhenAnswered | testsuite/src/bridge.rs:171-174 | a reply goes into an empty slot |
| BridgeProtocol.RunKeepsReplies | testsuite/src/bridge.rs:136-178 | over whole runs no reply is overwritten or lost, nothing accepted is forgotten or reordered |
| BridgeProtocol.OpenWhileHeld | testsuite/src/bridge.rs:136-155 | while a sender is alive the loop has not exited |
| BridgeProtocol.ExitLeavesNothing | testsuite/src/bridge.rs:157-178 | once the loop has exited everything accepted was served, and everyone still waiting has a reply |
| BridgeProtocol.ProgressAfterLastDrop | testsuite/src/bridge.rs:157-178 | after the last drop the loop is never stuck and each of its steps takes one off what remains |
| BridgeProtocol.DrainsExactly | testsuite/src/bridge.rs:157-178 | after the last drop the loop exits after exactly the remaining number of its steps, whatever callers do |
| BridgeProtocol.Bridge.SendRequest | testsuite/src/bridge.rs:136-141 | one poll of a send: accepted at the end of the channel with a fresh reply slot exactly when there is room, otherwise nothing changes |
| BridgeProtocol.Bridge.Receive | testsuite/src/bridge.rs:168 | one poll of a receive: the oldest request, the end exactly when queue and senders are gone, otherwise a wait that changes nothing |
| BridgeProtocol.Bridge.Reply | testsuite/src/bridge.rs:171-173 | writes an empty slot unless its caller went away |
| BridgeProtocol.Bridge.ServeOne | testsuite/src/bridge.rs:168-174 | one turn of the loop: one reply to the oldest unserved request, then a poll for the next |
| BridgeProtocol.Bridge.RunLoop | testsuite/src/bridge.rs:168-175 | the loop, however many senders are alive: it answers all that is accepted, each with its own result, keeps old replies, and ends exactly when no sender is left |
| BridgeProtocol.Bridge.Shutdown | testsuite/src/bridge.rs:151-155 | drops one sender; everything accepted is answered with its own result unless its caller left, and the loop has ended exactly when that was the last sender |
| SortedSets.SortedUniqueU256 | testsuite/src/lib.rs:64-68 | strictly ascending, with exactly the elements of the input |
| SortedSets.AscendingUnique | testsuite/src/lib.rs:59-68 | a strictly ascending list is determined by its elements |
| SortedSets.SortedUniqueFixed | testsuite/src/lib.rs:59-68 | the helper changes nothing exactly on strictly ascending lists |
| Records.FingerprintsAccept | crates/pso-attester-integration/src/lib.rs:321-334 | accepted unchanged exactly when all are canonical; otherwise the error is that of the first that is not, a width or a position |
| Records.SortSetIsTheSet | crates/pso-attester-integration/src/lib.rs:409-425 | the sorted set has strictly ascending field values and exactly the words of the list |
| Records.IssueWithHeader | crates/pso-attester-integration/src/lib.rs:395-472 | every accepted fingerprint is canonical; the unit has the arguments field by field and strictly ascending lists of exactly the given fingerprints; the report has the unit's hash and the header's values |
| Records.IssuanceOfSets | crates/pso-attester-integration/src/lib.rs:409-440 | issuance depends on the sets of fingerprints only |
| Records.IssuedEntity | crates/pso-attester-integration/src/lib.rs:395-472 | over ids, issuance succeeds exactly on right widths, canonical ids and a hashable entity, and that entity holds the sorted sets of the ids |
| Records.HandleMint | testsuite/src/bridge.rs:181-285 | on the bridge the submission has the caller's amounts, currency, day, referrer and the header's identities, and the reported hash is that of the entity it spells out, for any record ids |
| Records.MintSu | cli/pso-attester-cli/src/commands/mint_su.rs:51-108 | on the command line the same is submitted as typed; hashed and submitted entity differ at most in the record lists, and agree exactly when both id lists were strictly ascending |
| Records.TwoBeforeOne | cli/pso-attester-cli/src/commands/mint_su.rs:105-106 | one failing input: the ids 2, 1 are hashed as 1, 2 |
| ProofOrder.SortByKeySorts | testsuite/src/scenarios/s001_happy_flow.rs:198-199 | sorting the receipts sorts their ids |
| ProofOrder.BuildWitnesses | testsuite/src/scenarios/s001_happy_flow.rs:232-259 | one agreeing witness per receipt in their order, or the first receipt without one |
| ProofOrder.OrderForSubmit | testsuite/src/scenarios/s001_happy_flow.rs:198-292 | succeeds exactly when every receipt has an agreeing witness; the lists are equally long exactly when ids are distinct, and then the k-th witness belongs to the k-th submitted id |
| ProofOrder.OrderedIds | testsuite/src/scenarios/s001_happy_flow.rs:289-292 | the second sort is the identity, and the dedup drops nothing exactly on distinct ids |
| ProofOrder.CombinedProof | testsuite/src/scenarios/s001_happy_flow.rs:299-308 | the blob parses back to inputs and proof exactly when there are fewer than 2^32 inputs |
| ProofOrder.ProofReadsBack | testsuite/src/scenarios/s001_happy_flow.rs:293-308 | the same of the format itself, for any proof bytes |
| Aggregation.BuildSlots | crates/pso-mobile-integration/src/lib.rs:489-525 | one slot per witness in order with the witness's own values, or the first refused witness with its own first failing check |
| Aggregation.PrepareDraft | testsuite/src/scenarios/s001_happy_flow.rs:198-292 | succeeds exactly when every receipt has an admissible, agreeing witness; then, ids being distinct, the k-th slot states that receipt's witness value for value, and the owner the chain stores for the k-th submitted id |
| PowEnvelope.DecodeEncode | testsuite/src/clients/envelope.rs:161-169 | an envelope reads back in all five fields exactly when its length prefix can state the solution's width |
| PowEnvelope.BuildSuiteEnvelope | testsuite/src/clients/envelope.rs:137-170 | refuses difficulty zero only; otherwise the envelope of the solution for exactly this signer, nonce, block and chain, all zero in the scheme's width if there is none |
| PowEnvelope.BuildWalletEnvelope | crates/pso-mobile-integration/src/lib.rs:825-866 | refuses an empty transaction, a signer that is not 20 bytes, a seed under 32, difficulty zero and an unsolvable scheme, the first that applies; otherwise the suite's bytes for the same submission |
| PowEnvelope.RangesAreLenses | testsuite/src/clients/envelope.rs:86-98 | for an 8-byte solution, overwriting a published range changes exactly its own decoded field |

## Left out

- Curve arithmetic, BLS, Ed25519 and Schnorr verification, Poseidon, entity hashing, hashcash and proving are
  uninterpreted. Producers' keys are assumed to verify what they sign, and point conversion to be undone by its inverse.
- The framing of namespace and message inside the threshold verifier: it is one uninterpreted predicate of both.
- Contract and node behaviour (`submitSU`, epoch registry, pool admission): the repository does not hold that code.
- RPC clients, polling, command-line and environment parsing, foreign-language packaging, file and terminal output.
- Error texts: modelled as the data they are formatted from.
- `Attester` is a value here, because no method of it updates a field.
- Overflow of the producers' 64-bit and 256-bit sums wraps, as in a release build; a debug build panics instead.
- `root_from_inclusion_path` rejecting an index or path on its own: it is not part of this repository.
- Tier selection and padding in `prove_ownership`, `binding_fr`, `tribute_draft_hash_fr`, and the seeded generators: calls into foreign code.
- Text lowering covers ASCII. No other character lowers to a hex digit or to `x`, and positions are only taken in the lowered text.
- Seconds in the report are uninterpreted text without markup; attribute and line-ending normalisation of XML 1.0 is not modelled.
- BridgeProtocol.Bridge.RunLoop: runs the loop as far as it goes without other tasks; interleaved tasks are covered by the lemmas on runs. The mint is a total function, so a panic inside it, and the closed reply it would leave, are not modelled.
- Records.MintSu: takes the amount's fraction below 2^64, the width of its command-line argument.
- The JSON and Markdown renderings of the report, and the other scenarios: single calls with one-branch assertions.
