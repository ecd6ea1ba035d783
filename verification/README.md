# Threshold TLS attestation: a Dafny model

This project models the hard core of a threshold TLS attestation system and proves what it is meant
to guarantee. Five parts are covered.

- **The circuit stack.** SHA-256 over lists of booleans, HMAC with its outer hash unrolled by hand, the
  TLS 1.2 PRF, the 248-bit packing of the key block into the BLS12-377 scalar field, and the small
  key-commitment circuit (`Bits`, `Bytes`, `Fips180`, `Fips180Facts`, `Sha256Gadget`, `Sha256Padding`,
  `HmacPrf`, `PrimeField`, `TlsPrfCircuit`, `KeyCircuit`). `Fips180` and the functions `Hmac`, `PHash` and `Prf`
  state FIPS 180-4, RFC 2104 and RFC 5246; the gadgets are methods proved equal to them. `Fips180Facts` checks that
  statement itself: its constants against the roots of primes that define them, its word functions bit by bit, and
  its schedule and rounds against their inverses.
- **The key-generation ceremony.** One participant's state machine, the ceremony in the clear, sealed and
  over network messages, signed key announcements and the participant registry (`DkgNode`, `DkgEncrypt`,
  `DkgCeremony`, `DkgLibrary`, `DkgSealed`, `DkgAnnounce`, `ParticipantRegistry`). `DkgCeremony.Plan` is the
  ceremony as a function of its inputs; every driver is proved against it, and `DkgLibrary` says what it is on the
  FROST library's three calls alone.
- **Sessions.** The session state machine, the in-memory store as one caller sees it, the store under every
  interleaving of its critical sections, and the coordinator's runs (`Session`, `SessionStore`,
  `StoreInterleaving`, `Coordinator`).
- **The commitment chain.** Canonical multi-field hashing, dx-DCTLS evidence, attestation packages and
  envelopes, the auxiliary verifier's basic and full checks, and the domain tags of all hashed messages (`Canonical`,
  `Dctls`, `Attestation`, `FullCheck`, `Domains`).
- **Quorum, randomness, framing** (`Quorum`, `Threshold`, `Randomness`, `Codec`).

Conventions. The hash of the commitment chain is a parameter, never assumed injective: agreement theorems
end in "or this pair of encodings collides", and the pairs are named, not existentially chosen among all
strings. FROST, Ed25519, X25519, HKDF, the AEAD and JSON are records of functions; where a theorem needs a
law of theirs it is stated in a `Lawful` predicate: part 2 makes one package per package it was given, both
ends of a key exchange agree, opening undoes sealing whenever sealing succeeds, decoding undoes encoding.
Clocks, fresh identifiers, nonces and the randomness of a participant are parameters. Machine integers are
explicit: 32-bit sums are taken modulo 2^32, the padding's bit length modulo 2^64, identifiers modulo 2^16, frame
lengths modulo 2^32.

Where a documented property does not hold of the code, the model keeps the code, shows an input, and proves
exactly when the property holds:

- The central key circuit treats exclusive or as field addition (`circuit.rs`, line 116): `CentralSystem`
  and `SharedBitUnsatisfied`.
- The prover's commitment is said to match the PRF circuit's (`mpc_prover.rs`, line 363): `CommitmentsAgree` and
  `CommitmentsDiffer`.
- A quorum is said to count each verifier at most once (`types.rs`, line 138): `CountsOnceExactly` and
  `DuplicateCounterexample`; its effect on approvals: `DuplicateQuorumCounterexample` and `AggregateVerifies`.
- An approval on a terminated session is refused by each call but not by every interleaving (`memory.rs`,
  lines 81 to 103): `CommitIsAtomic` and `LateApproval`.
- Identifiers are 16 bits wide and the participant count is not checked: `LookupsInverseExactly` and
  `IdentifierCollision`. Both lookups panic at a position whose identifier would be zero; the model returns that as
  an outcome of its own.
- A frame's length is truncated to 32 bits before it is checked: `FrameExactly` and `OversizeAccepted`.
- Package and envelope digests leave out the roles of the two transcript commitments, and no check reads them,
  so an approved package is not fixed by its digest: `RolesUnchecked` and `TamperedRole`; everything else is, and
  equal digests mean equal packages exactly when the roles agree: `CheckedPackagesAgree`, `CheckedEnvelopesAgree`.
- The full check is documented to bind query, response and statement to the session (`verify.rs`, lines 289 to
  294), but compares nothing in the package with the evidence except the randomness: `UnrelatedApproved`,
  `CrossSession`; the comparisons that would do it: `LinkedExactly`, `GuardedApprovalsAgree`.
- Randomness verification accepts an output without contributions: `Regenerate` and `EmptyOutputVerifies`.

Where code and comments differ the code is followed: an empty list of statement tags accepts every tag
(`verify.rs`, line 65, says it rejects all); the master secret is 32 bytes long, not the 48 of section 8.1 of
RFC 5246; an unknown sender in part 2 leaves the round-1 secret unused (`dkg_node.rs` says any outcome
consumes it).

## Model

| member | source | states |
|---|---|---|
| `Sha256Gadget.AddMany` | crates/co-snark-prover/src/sha256_gadget.rs:153-162 | addition of 32-bit words as bit lists has the value of the sum modulo 2^32, for any number of operands |
| `Sha256Gadget.RotrVal` | crates/co-snark-prover/src/sha256_gadget.rs:114-128 | rotating a 32-bit list has the value of the FIPS 180-4 rotation `(x >> n) or (x << 32-n)` |
| `Sha256Gadget.Shr32` | crates/co-snark-prover/src/sha256_gadget.rs:59-68 | the loop that drops `n` low bits and pads with false computes `x / 2^n` |
| `Sha256Gadget.Ch32Val` | crates/co-snark-prover/src/sha256_gadget.rs:85-97 | the bitwise `(a and b) xor (not a and c)` over lists has the value of `Ch` on 32-bit words |
| `Sha256Gadget.Maj32Val` | crates/co-snark-prover/src/sha256_gadget.rs:99-112 | the bitwise exclusive or of three conjunctions over lists has the value of `Maj` on 32-bit words |
| `Sha256Gadget.Sigma0Small` | crates/co-snark-prover/src/sha256_gadget.rs:122-124 | value of the schedule function sigma-0, built from two rotations and one shift |
| `Sha256Gadget.Sigma1Small` | crates/co-snark-prover/src/sha256_gadget.rs:126-128 | value of the schedule function sigma-1 |
| `Sha256Gadget.ExpandSchedule` | crates/co-snark-prover/src/sha256_gadget.rs:136-142 | the 64-word schedule loop produces exactly `W_0 .. W_63` of section 6.2.2 of FIPS 180-4 |
| `Sha256Gadget.CircuitRound` | crates/co-snark-prover/src/sha256_gadget.rs:149-163 | one in-place round update of the eight working variables is one step of the standard's round |
| `Sha256Gadget.Sha256Compress` | crates/co-snark-prover/src/sha256_gadget.rs:132-175 | for every state and block of bit lists, the values of the result are the standard's compression of the values of the inputs |
| `Fips180Facts.RoundConstantsAre` | crates/co-snark-prover/src/sha256_gadget.rs:24-41 | each of the 64 round constants is the first 32 bits of the fractional part of the cube root of the prime at its place, as section 4.2.2 of FIPS 180-4 defines it |
| `Fips180Facts.InitialStateIs` | crates/co-snark-prover/src/sha256_gadget.rs:19-22 | each word of the initial state is the first 32 bits of the fractional part of the square root of one of the first eight primes |
| `Fips180Facts.SigmaBits` | crates/co-snark-prover/src/sha256_gadget.rs:114-128 | every bit of the four sigma functions is the exclusive or of the three (or two) input bits that rotation and shift bring there |
| `Fips180Facts.ChoiceBits` | crates/co-snark-prover/src/sha256_gadget.rs:85-112 | every bit of `Ch` selects, and every bit of `Maj` is the majority of, the input bits at its place |
| `Fips180Facts.RoundsInvert` | crates/co-snark-prover/src/sha256_gadget.rs:149-163 | running the rounds backwards from the working variables they end with recovers the state they began with |
| `Fips180Facts.ScheduleInverts` | crates/co-snark-prover/src/sha256_gadget.rs:136-142 | every schedule word can be recovered from the sixteen after it |
| `Fips180Facts.CompressAdds` | crates/co-snark-prover/src/sha256_gadget.rs:165-174 | the compressed state is, word by word, the input state plus what the rounds leave, modulo 2^32 |
| `Sha256Padding.FillZeros` | crates/co-snark-prover/src/sha256_gadget.rs:183-183 | the zero-fill loop stops, at the first length that leaves eight bytes in the block |
| `Sha256Padding.Sha256Pad` | crates/co-snark-prover/src/sha256_gadget.rs:179-194 | for every message whose bit length fits in 64 bits, the loops give the blocks of section 5.1.1 of FIPS 180-4 |
| `Sha256Padding.PadLayout` | crates/co-snark-prover/src/sha256_gadget.rs:179-194 | the padded bytes are the message, one byte 0x80, zeros, and the bit length in the last eight bytes, in as few blocks as possible |
| `Sha256Padding.PadBlockCount` | crates/co-snark-prover/src/sha256_gadget.rs:179-194 | every message takes exactly ceil((len + 9) / 64) blocks |
| `Sha256Padding.UnpadPad` | crates/co-snark-prover/src/sha256_gadget.rs:179-194 | the message is recovered from its padded blocks |
| `Sha256Padding.PadInjective` | crates/co-snark-prover/src/sha256_gadget.rs:179-194 | two messages with the same padded blocks are equal |
| `HmacPrf.Sha256FromBytes` | crates/co-snark-prover/src/hmac_sha256.rs:73-87 | the block loop over the gadget equals iterated compression of the padded message |
| `HmacPrf.OuterPadding` | crates/co-snark-prover/src/hmac_sha256.rs:41-62 | padding `okey` and a 32-byte inner digest gives two blocks: `okey`, and the hand-built block with bit length 768 |
| `HmacPrf.HmacCircuit` | crates/co-snark-prover/src/hmac_sha256.rs:19-71 | for every 32-byte key and message, the circuit with its unrolled outer hash has the bytes of HMAC as in section 2 of RFC 2104 over SHA-256 |
| `HmacPrf.HmacIs` | crates/co-snark-prover/src/hmac_sha256.rs:118-129 | `Hmac` is the hash of the outer key block and the hash of the inner key block and message, the blocks being the key masked with 0x5c and 0x36 and filled up with those bytes |
| `HmacPrf.TlsPrfNative` | crates/co-snark-prover/src/hmac_sha256.rs:136-148 | the while loop over A(i) returns the first `n` bytes of P_hash of section 5 of RFC 5246 |
| `HmacPrf.PrfByte` | crates/co-snark-prover/src/hmac_sha256.rs:136-148 | byte `j` of the output is byte `j mod 32` of the HMAC of `A(j / 32 + 1)` followed by label and seed |
| `HmacPrf.AFromSeed` | crates/co-snark-prover/src/hmac_sha256.rs:140-142 | `A(i + 1)` of a seed is `A(i)` of its HMAC: the chain of the loop |
| `HmacPrf.PrfPrefix` | crates/co-snark-prover/src/hmac_sha256.rs:136-148 | asking for fewer bytes gives a prefix of asking for more |
| `TlsPrfCircuit.MasterSecretPhase` | crates/co-snark-prover/src/tls_prf_circuit.rs:82-92 | the phase-1 circuit block has exactly the bytes of the native 32-byte master secret |
| `TlsPrfCircuit.KeyExpansionPhase` | crates/co-snark-prover/src/tls_prf_circuit.rs:101-116 | the five-step loop yields P_hash blocks 1 to 5 of the native key expansion |
| `TlsPrfCircuit.UnrolledBlocksAreNative` | crates/co-snark-prover/src/tls_prf_circuit.rs:105-116 | block `j` of the loop is bytes `32j .. 32j+32` of the native PRF output |
| `TlsPrfCircuit.PackBits` | crates/co-snark-prover/src/tls_prf_circuit.rs:141-155 | the bit vector that reorders words, bytes and bits packs to the little-endian integer of the first 31 bytes |
| `PrimeField.ShareSumSystem` | crates/co-snark-prover/src/tls_prf_circuit.rs:155-170 | for operands below 2^248 the field equations hold exactly when the integer sum does: 2^249 is below the modulus |
| `PrimeField.ModulusIs` | crates/co-snark-prover/src/mpc_prover.rs:45-45 | the modulus is `x^4 - x^2 + 1` for the BLS12-377 parameter `x = 0x8508c00000000001` |
| `TlsPrfCircuit.GenerateConstraints` | crates/co-snark-prover/src/tls_prf_circuit.rs:77-173 | the system is satisfied exactly when the 31 native key bytes equal LE248(p) + LE248(v) as integers and the commitment opens to that sum plus the binding |
| `TlsPrfCircuit.CommitmentOpens` | crates/co-snark-prover/src/tls_prf_circuit.rs:49-69 | the constructor's commitment always opens |
| `TlsPrfCircuit.ProveSystem` | crates/co-snark-prover/src/tls_prf_circuit.rs:49-173 | constructor and constraints together: for all shares, secret and randoms, satisfied exactly when the first 31 bytes of the native key block, read little-endian, are LE248(p) + LE248(v) |
| `TlsPrfCircuit.ProvableExactly` | crates/co-snark-prover/src/tls_prf_circuit.rs:155-170 | with the two shares as free field witnesses, the recorded equations can be satisfied exactly when the commitment is the derived key plus the binding |
| `KeyCircuit.XorShares` | crates/co-snark-prover/src/circuit.rs:130-134 | the loop computes the bitwise exclusive or of the two little-endian integers |
| `KeyCircuit.CentralSystem` | crates/co-snark-prover/src/circuit.rs:64-124 | the central system is satisfied exactly when the modulus divides the bitwise and of the shares |
| `KeyCircuit.SharedBitUnsatisfied` | crates/co-snark-prover/src/circuit.rs:64-124 | with shares that are both the integer one the central system is not satisfied, whatever the binding: exclusive or is not addition |
| `KeyCircuit.DistributedSatisfied` | crates/co-snark-prover/src/mpc_prover.rs:268-275 | for all shares and bindings the two parties' additive shares sum to a satisfying assignment |
| `KeyCircuit.OpenedWitnesses` | crates/co-snark-prover/src/mpc_prover.rs:268-275 | opening the two parties' shares leaves the one equation between the commitment and the sum of both packed shares and the binding |
| `KeyCircuit.SharesApart` | crates/co-snark-prover/src/mpc_prover.rs:268-275 | party 0 contributes only the prover's packed share and party 1 only the verifier's |
| `KeyCircuit.CommitmentsAgree` | crates/co-snark-prover/src/mpc_prover.rs:360-371 | the prover's commitment equals the PRF circuit's exactly when both shares end in a zero byte |
| `KeyCircuit.CommitmentsDiffer` | crates/co-snark-prover/src/mpc_prover.rs:360-371 | a share that is zero but for a last byte of one makes the two commitments differ |
| `Canonical.CanonicalHasher.constructor` | crates/core/src/hash.rs:121-127 | a new builder has absorbed the length-prefixed domain tag |
| `Canonical.CanonicalHasher.UpdateBytes` | crates/core/src/hash.rs:130-134 | absorbs a 64-bit length and the data; the state stays the encoding of all fields so far |
| `Canonical.CanonicalHasher.UpdateFixed` | crates/core/src/hash.rs:137-140 | absorbs fixed-size data; the state stays the encoding of all fields so far |
| `Canonical.CanonicalHasher.UpdateU64` | crates/core/src/hash.rs:143-146 | absorbs eight big-endian bytes; the state stays the encoding of all fields so far |
| `Canonical.CanonicalHasher.UpdateU32` | crates/core/src/hash.rs:149-152 | absorbs four big-endian bytes; the state stays the encoding of all fields so far |
| `Canonical.CanonicalHasher.Finalize` | crates/core/src/hash.rs:167-169 | the digest is the hash of the encoding of the fields in call order |
| `Canonical.FieldLayout` | crates/core/src/hash.rs:121-152 | what a reader of the bytes sees: four-byte tag lengths, eight-byte data lengths and numbers, four-byte small numbers, all big-endian, then the data as it is |
| `Canonical.EncodeInjective` | crates/core/src/hash.rs:121-170 | equal encodings of equally shaped field lists, whatever follows, come from equal fields; lengths bounded by the 32- and 64-bit prefixes |
| `Canonical.DomainsSeparate` | crates/core/src/hash.rs:121-127 | encodings under distinct domain tags never coincide |
| `Canonical.SameDigest` | crates/core/src/hash.rs:121-170 | equal digests of equally shaped fields mean equal fields, or these two encodings collide |
| `Domains.KindsApart` | crates/core/src/hash.rs:82-127 | all 21 kinds of hashed messages, transcript commitments of every role included: no encoding of one kind is an encoding of another, so equal digests across kinds are a collision of this pair |
| `Domains.TagsDiffer` | crates/core/src/hash.rs:121-127 | the twenty fixed domain tags are pairwise different and none is the tag of a transcript commitment, whatever its role |
| `Dctls.AcceptanceMeans` | crates/attestation/src/dctls.rs:216-712 | evidence is accepted exactly when every equation holds: engine tag, no attached proof, age within 86400 seconds, randomness, certificate hash, one session and transcript across the proofs, the handshake proof's digest, and all seven recomputed digests; the returned binding names the proofs' own fields |
| `Dctls.HspDigestBinds` | crates/attestation/src/dctls.rs:197-205 | the digest of a handshake proof determines session, randomness, commitment, certificate and handshake hash, or these two encodings collide |
| `Dctls.BindingAgreement` | crates/attestation/src/dctls.rs:602-712 | two accepted packages with the same binding digest agree on session, rand, exporter, certificate hash, version, server name, time, query, response, statement content and tag, or one of eight named pairs of encodings collides |
| `Dctls.HonestAccepted` | crates/attestation/src/dctls.rs:128-165 | honestly generated evidence is accepted exactly when it has no time or is at most 86400 seconds old |
| `Attestation.HonestApproved` | crates/attestation/src/verify.rs:119-262 | a package and statement from the honest builders are approved exactly when unexpired, tags allowed and duration within policy, so both copies of the encodings agree |
| `Attestation.CheckNamesFirst` | crates/attestation/src/verify.rs:119-262 | for every package: approved exactly when all nine conditions hold, and a refusal names the first that does not; the duration condition is `expiresAt <= createdAt + maxDuration` |
| `Attestation.CommitmentBinds` | crates/crypto/src/transcript.rs:26-57 | a commitment verifies for one session, randomness and data only, or these two encodings collide |
| `Attestation.TranscriptBinds` | crates/crypto/src/transcript.rs:74-95 | a session transcript digest determines session and both commitments, or these two encodings collide |
| `Attestation.StatementBinds` | crates/attestation/src/statement.rs:39-49 | a statement digest determines tag, transcript and content, or these two encodings collide |
| `Attestation.ComputeDigest` | crates/attestation/src/envelope.rs:93-137 | the hasher loop hashes exactly the envelope's field list, including every verifier of the quorum |
| `Attestation.Assemble` | crates/attestation/src/envelope.rs:140-159 | an assembled envelope carries its body, its approval and the digest of its body |
| `Attestation.VerifyDigest` | crates/attestation/src/envelope.rs:166-175 | accepted exactly when the stored digest is the digest of the body |
| `Attestation.EnvelopeInjective` | crates/attestation/src/envelope.rs:93-137 | equal envelope encodings have equal threshold, whole verifier list, tags, digests and every other hashed field |
| `Attestation.EnvelopeAgreement` | crates/attestation/src/envelope.rs:93-137 | equal envelope digests mean equal hashed fields, or these two encodings collide |
| `Attestation.CheckedPackagesAgree` | crates/attestation/src/verify.rs:119-262 | two approved packages with the same package digest agree on every field except the two transcript roles, and are equal exactly when the roles are; or one of four named pairs of encodings collides |
| `Attestation.CheckedEnvelopesAgree` | crates/attestation/src/verify.rs:119-262 | two checked packages whose envelopes have equal digests have equal statements, agree on every field except the two transcript roles, and are equal exactly when the roles are; or one of three named pairs of encodings collides |
| `Attestation.RolesUnchecked` | crates/attestation/src/verify.rs:119-262 | replacing the roles of the two transcript commitments changes neither the verdict, nor the package digest, nor the envelope digest |
| `Attestation.TamperedRole` | crates/crypto/src/transcript.rs:26-57 | an honest package with another query role is approved under the same digest, and its query commitment then verifies for the query only if a named pair of encodings collides |
| `FullCheck.FullCheckIs` | crates/attestation/src/verify.rs:301-394 | the full check is exactly the package check, the randomness proof, the evidence chain and one shared randomness value |
| `FullCheck.UnrelatedApproved` | crates/attestation/src/verify.rs:301-394 | honest package and honest evidence with the same randomness are approved together exactly when each is on its own, whatever sessions, queries, responses and statements they are about |
| `FullCheck.CrossSession` | crates/attestation/src/verify.rs:301-394 | honest sides for two different sessions are approved together although the package is not made from what the evidence proves |
| `FullCheck.LinkedExactly` | crates/attestation/src/verify.rs:287-394 | an approved package is made from the session, query, response and statement of its evidence exactly when session id, both commitments and the statement's content and tag compare equal |
| `FullCheck.GuardedApprovalsAgree` | crates/attestation/src/verify.rs:301-394 | with those comparisons, two approvals under one envelope digest agree on package, statement, session, query and response, or one of five named pairs of encodings collides |
| `FullCheck.UnguardedApprovalsDiffer` | crates/attestation/src/verify.rs:301-394 | without them, one package and statement are approved with evidence for any two queries and responses |
| `Session.PathsExactly` | crates/attestation/src/session.rs:69-82 | the paths of allowed transitions are exactly the prefixes of the five stages, possibly cut short by `Expired` or `Failed` |
| `Session.LiveSession.constructor` | crates/attestation/src/session.rs:209-214 | a new session is pending |
| `Session.LiveSession.Transition` | crates/attestation/src/session.rs:217-226 | moves exactly when the transition is allowed, otherwise changes nothing |
| `Session.LiveSession.Expire` | crates/attestation/src/session.rs:228-232 | a terminal session stays as it is, any other expires |
| `Session.LiveSession.Fail` | crates/attestation/src/session.rs:234-238 | a terminal session stays as it is, any other fails with the reason |
| `SessionStore.InMemorySessionStore.constructor` | crates/storage/src/memory.rs:39-41 | an empty store |
| `SessionStore.InMemorySessionStore.Insert` | crates/storage/src/memory.rs:45-59 | refuses a known id; otherwise adds the session and an empty approval set, keeping both key sets equal |
| `SessionStore.InMemorySessionStore.UpdateState` | crates/storage/src/memory.rs:66-79 | refuses unknown and terminal sessions; otherwise replaces the state and nothing else |
| `SessionStore.InMemorySessionStore.RecordApproval` | crates/storage/src/memory.rs:81-103 | refuses unknown, terminal and duplicate; otherwise adds one verifier |
| `SessionStore.InMemorySessionStore.HasApproved` | crates/storage/src/memory.rs:105-111 | true exactly for a recorded verifier of a known session |
| `SessionStore.InMemorySessionStore.Remove` | crates/storage/src/memory.rs:113-119 | the session and its approvals are gone, and nothing else is |
| `SessionStore.RemoveForgets` | crates/storage/src/memory.rs:45-119 | after a removal every other session is as before, updating or approving the removed one is refused, and it can be inserted again with nobody's approval |
| `StoreInterleaving.EveryInterleaving` | crates/storage/src/memory.rs:45-119 | every interleaving of critical sections keeps the invariant relating both maps and the approval history |
| `StoreInterleaving.Reachable` | crates/storage/src/memory.rs:45-119 | from the empty store: both key sets stay equal, a verifier is recorded at most once per inserted session, and the recorded sets are exactly the successful approvals |
| `StoreInterleaving.TerminalIsForever` | crates/storage/src/memory.rs:66-79 | a terminal session never changes in any interleaving that does not remove it |
| `StoreInterleaving.CommitIsAtomic` | crates/storage/src/memory.rs:81-103 | the second section acts like the whole call exactly when the session is not terminal at that moment |
| `StoreInterleaving.UndisturbedCallIsAtomic` | crates/storage/src/memory.rs:81-103 | the two sections act as one step unless that session turns terminal or is removed in between |
| `StoreInterleaving.LateApproval` | crates/storage/src/memory.rs:81-103 | a run in which an approval is recorded on an already finalized session |
| `StoreInterleaving.Linearisable` | crates/storage/src/memory.rs:45-119 | an interleaving without such a late commit ends in the same store, and gives every caller the same answer, as its calls made whole in the order in which they return |
| `StoreInterleaving.Isolation` | crates/storage/src/memory.rs:45-119 | what happens to one session depends only on the calls that name it |
| `Coordinator.Advance` | crates/node/src/coordinator.rs:191-192 | after a protocol step the local and the stored state agree, and no other session changed |
| `Coordinator.PrepareSession` | crates/node/src/coordinator.rs:163-261 | the stored states form a path from pending; success exactly when both engines succeed, and then the body carries the job's context, its response as statement content under its tag, the engines' randomness, transcript and evidence digest, and the digests of statement and package made from them |
| `Coordinator.PreparedAttests` | crates/node/src/coordinator.rs:206-222 | whatever is prepared attests its job, and statement and package are the ones the body's digests name |
| `Coordinator.PreparedApproved` | crates/node/src/coordinator.rs:163-261 | for a new context and an engine that returns the interaction's own transcript and evidence, package and statement are the honest ones, and are approved by an auxiliary verifier exactly on freshness, tags and duration |
| `Coordinator.CollectPartials` | crates/node/src/coordinator.rs:290-331 | records exactly the signers that signed, and returns each one's first partial in order |
| `Coordinator.PartialsAre` | crates/node/src/coordinator.rs:290-331 | the partials collected are one from each signer that signed, its first, and nothing else |
| `Coordinator.Attest` | crates/node/src/coordinator.rs:263-358 | every run: stored states are a path of allowed transitions in step with the local copy; recorded are exactly the signers that signed; finalized exactly when preparation succeeded and the partials satisfy the quorum; the envelope carries the digest of the prepared body, and with a duplicate-free quorum and signers using their own id at least `threshold` quorum members are recorded and the approval verifies for that digest; the body attests this job, and the approval verifies for no other envelope digest unless the two approval encodings collide |
| `Coordinator.RecordAll` | crates/node/src/coordinator.rs:516-523 | succeeds exactly when no signer repeats, and then records exactly the signers |
| `Coordinator.RunRounds` | crates/node/src/coordinator.rs:911-997 | every node's commitment goes into the package and every node's share into the signature, in node order; the first refusal stops the run |
| `Coordinator.SignedMeans` | crates/node/src/coordinator.rs:911-997 | a signature comes out exactly when every node answers both rounds for this session, both digests and the whole signer list, the library packs all commitments, and it aggregates all shares into that signature |
| `Coordinator.Round1Fails` | crates/node/src/coordinator.rs:911-951 | the first round fails exactly when some node refuses to commit |
| `Coordinator.Round2Fails` | crates/node/src/coordinator.rs:953-997 | the second round fails exactly when all commit, the library packs, and some node refuses to sign |
| `Coordinator.AttestFrost` | crates/node/src/coordinator.rs:455-544 | every run: path of allowed transitions; success exactly when preparation and the library succeed with at least `threshold` distinct signers; then exactly the signers are recorded and the envelope is the prepared one, attesting this job |
| `Coordinator.AttestFrostDistributed` | crates/node/src/coordinator.rs:855-1023 | the same for the two-round run over nodes and for its transport variant; failed exactly when there are too few nodes or a node refuses a round |
| `Quorum.SatisfiedIsDistinct` | crates/core/src/types.rs:139-146 | for a duplicate-free quorum, satisfied exactly when at least `threshold` distinct members approved |
| `Quorum.NewExactly` | crates/core/src/types.rs:112-133 | a quorum is accepted exactly when all its verifiers together satisfy it and an empty list of approvers does not |
| `Quorum.DuplicateCounterexample` | crates/core/src/types.rs:112-146 | `[a, a]` with threshold 2 is a valid quorum that one approver satisfies |
| `Quorum.CountsOnceExactly` | crates/core/src/types.rs:139-146 | the check counts each verifier once for every list of approvers exactly when the list has no duplicates or the threshold is at most one or out of reach |
| `Threshold.AggregateSignatures` | crates/crypto/src/threshold.rs:132-187 | succeeds exactly when every quorum member's partial is valid and the quorum is met; the approval holds one valid signature per member that signed, in order of arrival |
| `Threshold.VerifyThresholdApproval` | crates/crypto/src/threshold.rs:190-237 | accepts exactly when the digest matches, every listed quorum member's signature is valid, the listed signers satisfy the quorum and at least `threshold` signatures were counted |
| `Threshold.ApprovalMeans` | crates/crypto/src/threshold.rs:190-237 | an approval verifies exactly when it signs this envelope's encoding, every member's signature is 64 bytes that the scheme accepts under the first key registered for that member, the signers satisfy the quorum, and at least `threshold` signatures are by members |
| `Threshold.ValidSigMeans` | crates/crypto/src/threshold.rs:206-228 | a signature is valid exactly when it has 64 bytes and the scheme accepts it under the first key registered for its signer |
| `Threshold.OneEnvelope` | crates/crypto/src/threshold.rs:190-248 | an approval verifies for one envelope digest only, unless the two approval encodings collide |
| `Threshold.SignedDigestBinds` | crates/crypto/src/threshold.rs:239-248 | what is signed determines the envelope digest, or these two encodings collide |
| `Threshold.AggregateVerifies` | crates/crypto/src/threshold.rs:132-237 | an aggregated approval passes verification exactly when `threshold` distinct quorum members are among the partials handed in |
| `Threshold.AggregatedSigners` | crates/crypto/src/threshold.rs:141-172 | the signers of an aggregated approval are exactly the quorum members among the partials, each once |
| `Threshold.AggregateSound` | crates/crypto/src/threshold.rs:132-237 | for a duplicate-free quorum, an aggregated approval has at least `threshold` distinct member signers and verifies |
| `Threshold.DuplicateQuorumCounterexample` | crates/crypto/src/threshold.rs:132-237 | for quorum `[a, a]` with threshold 2, aggregation returns an approval that verification refuses |
| `DkgNode.IdentifierToVid` | crates/node/src/dkg_node.rs:454-463 | for every list: finds the participant at position `id - 1` within sixteen bits; otherwise it reports nothing, or panics when there are more than 65535 participants |
| `DkgNode.LookupsInverseExactly` | crates/node/src/dkg_node.rs:437-463 | the two lookups as written are mutually inverse exactly when there are at most 65535 participants |
| `DkgNode.IdentifierCollision` | crates/node/src/dkg_node.rs:437-463 | with 65537 participants the first and the last share an identifier, the lookup of the last but one panics, and so does a reverse lookup that finds nothing |
| `DkgNode.ToIdentifiers` | crates/node/src/dkg_node.rs:293-298 | rekeys the packages by identifier, or refuses if a sender is not a participant, for every duplicate-free list of at most 65535; panics only beyond that |
| `DkgNode.ToVerifiers` | crates/node/src/dkg_node.rs:323-334 | rekeys the packages by participant, or refuses an identifier nobody has, for every duplicate-free list of at most 65535; panics only beyond that |
| `DkgNode.KeysRoundTrip` | crates/node/src/dkg_node.rs:293-334 | rekeying by identifier and back returns the packages |
| `DkgNode.FrostDkgNode.Create` | crates/node/src/dkg_node.rs:135-192 | succeeds exactly for at least two distinct participants including this one, with a threshold between two and their number and a non-zero 16-bit identifier |
| `DkgNode.FrostDkgNode.Part1` | crates/node/src/dkg_node.rs:218-247 | new state and reply are those of the pure step; a refused call changes nothing |
| `DkgNode.FrostDkgNode.Part2` | crates/node/src/dkg_node.rs:270-348 | new state and reply are those of the pure step on lists of at most 65535, including the failed state left when the library refuses; on any list a refusal keeps the state or fails the node |
| `DkgNode.FrostDkgNode.Part3` | crates/node/src/dkg_node.rs:370-431 | new state and reply are those of the pure step on lists of at most 65535; on any list a failure leaves the node able to retry |
| `DkgNode.RefusedCall` | crates/node/src/dkg_node.rs:218-431 | a refused call changes nothing, except a part 2 that had already handed the round-1 secret over, which fails the node |
| `DkgNode.RefusalMeans` | crates/node/src/dkg_node.rs:218-400 | each part is refused as already done, too early or failed exactly according to how far the node got |
| `DkgNode.EveryCallSequence` | crates/node/src/dkg_node.rs:218-431 | every sequence of calls: the parts that succeed are a prefix of 1, 2, 3 each once; the round-1 secret is used at most once; completed and failed are final |
| `DkgEncrypt.SealedPackageOpens` | crates/crypto/src/dkg_encrypt.rs:206-328 | a package sealed to a recipient opens with that recipient's key to the same package in its own ceremony and direction, and is refused in any other |
| `DkgEncrypt.ContextInjective` | crates/crypto/src/dkg_encrypt.rs:351-379 | associated data and key-derivation context each determine ceremony, sender and recipient |
| `DkgEncrypt.OpensExactly` | crates/crypto/src/dkg_encrypt.rs:265-379 | a package comes out exactly when version, ceremony, sender and recipient match, the ciphertext opens under the key and associated data spelled out for these, and its content unpacks |
| `DkgEncrypt.KeyBinds` | crates/crypto/src/dkg_encrypt.rs:337-361 | a derived key determines ceremony, sender, recipient and shared secret, or these two inputs of the key derivation collide |
| `DkgEncrypt.RelabelledRefused` | crates/crypto/src/dkg_encrypt.rs:265-379 | an envelope relabelled to another ceremony, sender or recipient is refused by whoever opens it as that, unless the cipher opens the one ciphertext under both associated data |
| `DkgCeremony.InboxExact` | crates/node/src/dkg_node.rs:517-547 | part 3 of each participant is given one package from every other participant, the one made for it, keyed by who made it, and none from itself |
| `DkgLibrary.OutputsAreCalls` | crates/node/src/dkg_node.rs:218-571 | the ceremony completes exactly when every library call does: part 1 on a node's own identifier, counts and randomness, part 2 on the state part 1 returned and every other node's part-1 package by identifier, part 3 on the state part 2 returned, those packages, and the package every other node made for this one; each node ends with what its part 3 returned |
| `DkgLibrary.SecondIs` | crates/node/src/dkg_node.rs:270-348 | after part 2 a node holds what the library returned for the other nodes' part-1 packages, and exactly those packages for part 3 |
| `DkgLibrary.ThirdIs` | crates/node/src/dkg_node.rs:370-431 | part 3 of a node is the library call on its identity and identifier, its own part-2 state and the packages of both rounds |
| `DkgLibrary.CeremonyOnCalls` | crates/node/src/dkg_node.rs:493-742 | a run that meets its plan succeeds exactly when all library calls do and derive one key, and returns those shares and that key |
| `DkgCeremony.CollectBroadcasts` | crates/node/src/dkg_node.rs:504-509 | part 1 of every node succeeds exactly when the plan says so, and the broadcasts are the plan's |
| `DkgCeremony.Deliver` | crates/node/src/dkg_node.rs:528-533 | in any order, each package is added to its recipient's mailbox under its sender and nothing else changes |
| `DkgCeremony.CheckKeys` | crates/node/src/dkg_node.rs:552-560 | accepts exactly when all group keys are equal |
| `DkgCeremony.RunDkgCeremony` | crates/node/src/dkg_node.rs:493-571 | success, shares and group key are those the plan determines, and every node completes; a node that already started makes it fail |
| `DkgCeremony.CeremonyDetermined` | crates/node/src/dkg_node.rs:493-742 | two ceremonies that meet the same plan succeed or fail together, with the same shares and key |
| `DkgSealed.Post` | crates/node/src/dkg_node.rs:662-682 | succeeds exactly when every recipient has a known key and the cipher seals its package; each sealed package is appended to its recipient's mailbox |
| `DkgSealed.PostedLabels` | crates/node/src/dkg_node.rs:662-682 | what is posted is one envelope filed under its sender, naming ceremony, sender and recipient, with the nonce drawn for this pair; it opens as nothing else |
| `DkgSealed.OpenInbox` | crates/node/src/dkg_node.rs:1145-1162 | opens the packages in order, refusing the first that does not decrypt for this sender and recipient |
| `DkgSealed.OpenedIsInbox` | crates/node/src/dkg_node.rs:693-716 | what each recipient opens is exactly the inbox of the ceremony in the clear |
| `DkgSealed.SealableByAll` | crates/node/src/dkg_node.rs:652-683 | with a key for every node and a cipher that never refuses, all packages of a lawful library can be sealed |
| `DkgSealed.ReceivedIsThird` | crates/node/src/dkg_node.rs:693-720 | with matching keys, what a node derives from its sealed mailbox is what part 3 of the ceremony in the clear gives it |
| `DkgSealed.Part3FromDelivery` | crates/node/src/dkg_node.rs:1133-1165 | state and reply are those of part 3 on the opened packages |
| `DkgSealed.RunDkgCeremonyEncrypted` | crates/node/src/dkg_node.rs:605-742 | if all packages can be sealed the encrypted ceremony has the result of the ceremony in the clear; otherwise, with a wrong number of keys, or with a node that already started, it fails |
| `DkgSealed.BuildDeliveries` | crates/node/src/dkg_node.rs:1045-1110 | succeeds exactly when parts 1 and 2 succeed and every package can be sealed; one delivery per recipient, holding the sealed packages of all senders in order |
| `DkgSealed.RunNetworkCeremony` | crates/node/src/dkg_node.rs:1000-1165 | whatever keys were announced, every node ends with part 3 on exactly what it opens; when the announced keys are the nodes' own, that is the output of the ceremony in the clear |
| `DkgAnnounce.PreimageBinds` | crates/crypto/src/dkg_announce.rs:386-398 | equal signed digests announce the same key, participant, ceremony and version, or these payloads collide |
| `DkgAnnounce.CollectVerifiedEncKeys` | crates/crypto/src/dkg_announce.rs:274-317 | succeeds exactly when there is one authentic announcement from every expected participant and none from anyone else; returns the announced keys |
| `DkgAnnounce.HonestAnnouncementsAccepted` | crates/crypto/src/dkg_announce.rs:338-365 | announcements created by all registered participants are accepted |
| `DkgAnnounce.CheckOwnKeys` | crates/node/src/dkg_node.rs:832-843 | accepts exactly when every node's public key is its announced one |
| `DkgAnnounce.ToDkgRegistry` | crates/crypto/src/participant_registry.rs:514-522 | the announcement registry holds exactly the active participants, each with its registered key |
| `DkgAnnounce.RunWithAuthenticatedKeys` | crates/node/src/dkg_node.rs:787-857 | succeeds exactly when every key in use is authentically announced, every package can be sealed and the ceremony in the clear succeeds, with the same result |
| `DkgAnnounce.RunWithRegistry` | crates/node/src/dkg_node.rs:897-940 | succeeds exactly when, besides, the epoch is the snapshot's and every node is active, with announcements checked against active keys only |
| `DkgAnnounce.BuildDkgNetworkMessages` | crates/node/src/dkg_node.rs:1000-1122 | succeeds exactly when keys and announcements are complete, parts 1 and 2 succeed and every package can be sealed under the announced keys; says when those keys match the nodes' own |
| `ParticipantRegistry.New` | crates/crypto/src/participant_registry.rs:350-365 | succeeds exactly for a non-empty list without repeated ids, and files every entry under its id |
| `ParticipantRegistry.CheckCeremonyAdmission` | crates/crypto/src/participant_registry.rs:487-502 | admits exactly when the epoch matches and everyone is active; otherwise reports the wrong epoch, or the first participant that is not active and why |
| `ParticipantRegistry.OneChange` | crates/crypto/src/participant_registry.rs:557-662 | a change is accepted exactly for a higher epoch, a known target and, for a revocation, a target not yet revoked; it keeps the participants, touches only its target and dates it with the new epoch |
| `ParticipantRegistry.EveryHistory` | crates/crypto/src/participant_registry.rs:557-662 | along every chain of changes epochs strictly increase, the participant set is constant, and each status, date and key is that of the last change that set it |
| `ParticipantRegistry.RefusedUntilRotated` | crates/crypto/src/participant_registry.rs:443-662 | after a revocation or retirement the participant is active exactly if the last later change naming it is a key rotation |
| `Randomness.XorWith` | crates/core/src/hash.rs:62-68 | the loop computes the byte-wise exclusive or |
| `Randomness.XorAllOrderFree` | crates/crypto/src/randomness.rs:157-169 | the combined exclusive or is the same for every order of the contributions |
| `Randomness.SortByIdSorts` | crates/crypto/src/randomness.rs:157-160 | the sort leaves the contributions in byte order of their identities |
| `Randomness.Combine` | crates/crypto/src/randomness.rs:157-169 | sorting and folding gives the same value for every ordering of the same contributions |
| `Randomness.ContributionBinds` | crates/crypto/src/randomness.rs:133-146 | a contribution determines session, nonce, verifier and secret, or these two encodings collide |
| `Randomness.CombinedBinds` | crates/crypto/src/randomness.rs:162-168 | equal combined values come from contributions with one exclusive or, or these two encodings collide |
| `Randomness.SessionBindingBinds` | crates/crypto/src/randomness.rs:202-207 | a session binding determines session and nonce, or these two encodings collide |
| `Randomness.OneNonce` | crates/crypto/src/randomness.rs:219-268 | an output verifies for one nonce only, unless the two session encodings collide |
| `Randomness.Generate` | crates/crypto/src/randomness.rs:173-217 | succeeds exactly for a non-empty list of known verifiers; the output is well derived, so it verifies |
| `Randomness.Verify` | crates/crypto/src/randomness.rs:219-268 | accepts exactly the well-derived outputs |
| `Randomness.ValueDetermined` | crates/crypto/src/randomness.rs:157-268 | outputs that verify for one session with the same verifiers in any order carry the same value |
| `Randomness.Regenerate` | crates/crypto/src/randomness.rs:173-268 | an output that verifies is what generation returns for its verifier list, exactly when it has contributions |
| `Randomness.EmptyOutputVerifies` | crates/crypto/src/randomness.rs:219-268 | verification accepts an output without contributions |
| `Codec.Stream.WriteFrame` | crates/network/src/codec.rs:73-92 | appends header and body exactly when the length modulo 2^32 is within the limit |
| `Codec.Stream.ReadFrame` | crates/network/src/codec.rs:98-127 | result and remaining stream are those of the pure read |
| `Codec.FrameLayout` | crates/network/src/codec.rs:73-92 | a frame is the body behind a four-byte big-endian header of its length modulo 2^32, accepted exactly when that is at most 4194304 |
| `Codec.ReadExactly` | crates/network/src/codec.rs:98-127 | a message is read exactly when the stream starts with a frame of at most 4 MiB whose body decodes to it, leaving what follows; fewer than four bytes, and nothing else, is a closed channel |
| `Codec.FrameExactly` | crates/network/src/codec.rs:73-127 | an accepted frame reads back whole exactly when its body is at most 4 MiB |
| `Codec.OversizeAccepted` | crates/network/src/codec.rs:73-92 | a body of 2^32 bytes is accepted under a header that says zero |
| `Codec.RoundTrip` | crates/network/src/codec.rs:73-127 | any sequence of messages of at most 4 MiB comes back whole and in order, followed by a closed channel |

## Left out

- FROST, Ed25519, X25519, HKDF, the AEAD, Groth16 and the MPC engine are opaque functions; secrecy, unforgeability, unpredictability and zero knowledge are not stated.
- The gate-level constraints the circuit library emits for bit operations are not modelled: a gadget is its value, a constraint an equation over the scalar field.
- `and32`, `not32`, `sha256_circuit` and the array helpers of the gadget file: the circuits here do not call them.
- The randomness proof inside the full check and the Groth16 variants of the HSP check are opaque.
- TLS engines, sockets, certificates, key files, mTLS, process and port plumbing of the prover.
- The on-chain encoders and the DECO and DiStefano variants of the evidence: fixed-offset copying, and the same commitment pattern with fewer checks.
- The secp256k1 randomness engine and the secp256k1 ceremony: the same shapes over a different library.
- `ParticipantRegistry::new_validated` and the listing helpers of the registry; the store's `get` and `contains`: plain lookups.
- The ceremony announcement and round-1 response messages of the network form: they repeat data and nothing reads them back.
- Error texts are collapsed to the kind of failure; a `Failed` state in a coordinator run carries a short fixed reason.
- DkgCeremony.RunDkgCeremony: stated for distinct nodes that share one participant list of at most 65535, as the function's documentation demands; the sealed and network ceremonies are stated for the same nodes.
- DkgNode.FrostDkgNode.Part2: beyond 65535 participants only the shape of the transition is stated, because two senders can then share an identifier and which package survives depends on the iteration order of a hash map.
- DkgNode.FrostDkgNode.Part3: as for part 2.
- HmacPrf.HmacCircuit: the bit length of key block and message must fit in 64 bits, where the circuit's own padding stops being the standard's.
- Coordinator.Attest: the two engines and the signers are functions of what they are asked, so replies do not depend on the store.
- Coordinator.PrepareSession: the session context is handed in; drawing its identifier, nonce and times is not modelled.
- Dctls.BindingAgreement: strings are shorter than 2^64 bytes, as their length prefixes demand.
- Attestation.EnvelopeAgreement: threshold, verifier count and tag lengths are below 2^64, as their encodings demand.
- Attestation.CheckedPackagesAgree: threshold, verifier count, tag and evidence lengths are below 2^64, as their encodings demand.
- Attestation.CheckedEnvelopesAgree: the same, with the statement's length.
- Attestation.CommitmentBinds: role, tag and data lengths fit their 32- and 64-bit prefixes; so for StatementBinds.
- Domains.KindsApart: a role is short enough for its tag's 32-bit length prefix.
