# DecPKI, verified

A Dafny model of DecPKI: an offline trust bundle of identities under a Merkle root, the browser that
checks it, the login service with its two session stores, and the ledger and enrolment commands that
feed the bundle. The proofs are about all inputs, all runs and all interleavings.

- **Encoding** (`Bytes`, `Sorting`, `Cbor`, `CborLaws`, `JsBits`, `JsCbor`): canonical CBOR as a recursive
  specification with a strict decoder, and the JavaScript push-buffer encoder, 32-bit operators
  included, proved equal to it. The specification also stands for cbor2's canonical mode; `WireVectors` ties
  it, the tree and base64 to published bytes.
- **Merkle tree** (`Merkle`, `MerkleLaws`, `JsMerkle`): building, proving and checking as loops, and what an
  accepted proof and an equal root are worth.
- **Trust bundle** (`Fields`, `Models`, `PyValues`, `Bundle`, `Publication`, `BundleReading`, `Verify`, `VerifySound`,
  `VerifyComplete`): writing, reading, generating and verifying bundles, with soundness and completeness end
  to end.
- **Browser** (`JsBundle`, `JsReading`, `JsAgreement`): decoding and validation on the page and in the service
  worker, and their agreement with Python.
- **Sessions** (`SessionSpec`, `SessionStores`, `LoginHandlers`, `SessionLaws`, `SessionRuns`, `SessionMeaning`,
  `SessionListing`, `SessionDiffer`, `SessionDurable`, `ChallengeRuns`, `Base64`): both stores as classes that
  refine one state machine, their simulation, revocation, and challenges under overlapping calls.
- **Ledger and enrolment** (`LedgerSpec`, `IdentityLogs`, `LedgerRuns`, `EnrolmentSpec`, `EnrolmentStores`,
  `EnrolmentRuns`, `EnrolmentMeaning`): record objects and request files that are changed in place, what every
  run keeps, and the way from a request to a bundle that vouches for it.
- **Synchronisation** (`SyncProtocol`, `SyncRuns`, `SyncWorker`, `SyncHistory`, `SyncWitness`, `JsSound`,
  `JsComplete`): the service worker and the page, cut at every `await`, what the page's answer is worth, and
  that it comes.

`dafny verify dfyconfig.toml` checks everything.

## Assumptions

- SHA-256 is any function from byte strings to 32 bytes. It cannot be injective, and a collision exists
  for every such function, so the theorems conclude "or two strings *of the finite set that was actually
  hashed* collide": whoever holds the two trees and the proof can exhibit it.
- Signatures are a check on key, message and signature. Completeness asks that what a validator signs
  checks. Soundness is about one signature on the bundle at hand: it is no forgery, which is to say that
  its message is in the set of those that were signed with the key, and that set has only payloads of
  bundles that its owner generated and strings of 32 bytes. Other signatures that check under the key,
  and other keys, may be anything. Every generated bundle meets this (`VerifyComplete.GeneratedIsUnforged`,
  `JsComplete.StoredIsUnforged`).
- How JavaScript takes a text, a list, an object or a buffer for a number is any function.
- Text is UTF-8. Bytewise order of UTF-8 is the order of code points by which Python sorts DIDs.
- The clock, the random generator, the network and the databases' successes and failures are inputs.
  Fresh tokens and JWT ids have not been drawn before. SQL statements are operations on maps and on
  rows in order of insertion.
- An endpoint is one step of the session state machine, except for challenges, whose calls are two.
- `register_identity` gets a record object that is not in the log already: otherwise it would change
  that record before refusing it.

## Where the code does less than it seems

Each is proved with its exact condition, and where it takes a run, with a run.

- The Merkle root binds a list of leaves up to the padding of odd levels (`MerkleLaws.RootBindsIff`), and so
  it binds lists without repetition; [a, b, c] and [a, b, c, c] share theirs
  (`MerkleLaws.RepetitionSharesRoot`).
- SQLite is not quite a drop-in replacement. `list_sessions` differs exactly for a session that expires at
  this second (`SessionDiffer.ListAgreesIff`), `revoke_session` exactly where the id does not name the same
  in both stores, which takes an expired session (`SessionDiffer.RevokeAgreesIff`, and the run beside it).
- `revoke_session` covers the session's latest JWT only (`SessionDurable.RefusedIff`,
  `SessionDurable.FirstJwtSurvives`).
- `enrol_sign` reads the clock twice, so `signed_at` may lie past `expires_at`, exactly if the expiry falls
  between the readings (`EnrolmentRuns.SignsLateIff`, `EnrolmentRuns.SignedLate`).
- A quorum is one of different signers exactly if none has two signatures that count
  (`EnrolmentRuns.QuorumIff`); `add_signature` can bring that about (`EnrolmentRuns.OneMakesTwo`).
- Promoting a DID that the ledger holds reports success and changes nothing
  (`LedgerRuns.RepeatPromoteIsVoid`, `EnrolmentRuns.RepeatPromotionReportsSuccess`).
- `IdentityLog.save` raises on a byte value in any field but the key (`LedgerSpec.LedgerReadBack`); a ledger
  that was loaded has none.
- `SYNC_FAILED` means that nothing was stored exactly if it is not the sync state that failed to be saved
  (`SyncProtocol.FailedSync`, `SyncWitness.FailedThoughSaved`).
- The browser enforces a threshold and an expiry exactly if they are not NaN when taken as numbers. Without
  them an unsigned document is accepted and answers VALID (`SyncProtocol.TrustedMeans`, `SyncProtocol.ClientValidMeans`,
  `SyncWitness.UnsignedIsAccepted`). A bundle with one honest signer always has both (`JsSound.ClientSound`).

## Model

| member | source | states |
|---|---|---|
| `Merkle.BuildTree` | src/decpki/merkle.py:12-22 | the appending loop produces the layers of the specification, the last node of an odd layer doubled |
| `Merkle.GetRoot` | src/decpki/merkle.py:25-26 | the single node of the last layer is the root |
| `Merkle.FindSibling` | src/decpki/merkle.py:35-38 | the sibling and its side; the fallback `else layer[index]` is never taken |
| `Merkle.GetProof` | src/decpki/merkle.py:29-40 | the loop returns the path of siblings from leaf to root and leaves the tree alone |
| `Merkle.VerifyProof` | src/decpki/merkle.py:43-51 | the loop accepts exactly when climbing from the leaf hash ends in the root |
| `WireVectors.SmallTrees` | src/decpki/merkle.py:4-22 | the roots of the trees of up to three leaves, as hashes of prefixed strings |
| `MerkleLaws.LayerSizes` | src/decpki/merkle.py:15-21 | layer k of a tree of n leaves has exactly ceil(n / 2^k) nodes |
| `MerkleLaws.ProofLength` | src/decpki/merkle.py:29-40 | a proof is as long as the least h with 2^h >= n |
| `MerkleLaws.ProofComplete` | src/decpki/merkle.py:29-51 | the proof made for any leaf of any list is accepted |
| `MerkleLaws.RootBindsIff` | src/decpki/merkle.py:12-26 | for any two lists of leaves: they share their root exactly if padding every odd level makes them one list, or two hashed strings collide |
| `MerkleLaws.SameTreeIff` | src/decpki/merkle.py:15-21 | the tree is determined by the padded list, and the other way round |
| `MerkleLaws.RootBinding` | src/decpki/merkle.py:12-26 | equal roots of lists without repetition mean equal lists, across lengths, heights and the empty list, or two hashed strings collide |
| `MerkleLaws.RepetitionSharesRoot` | src/decpki/merkle.py:17-20 | without that condition the root need not bind: every odd list longer than one shares its root with itself plus its last leaf again |
| `MerkleLaws.TwoAlikeAreBound` | src/decpki/merkle.py:17-20 | but a repetition alone does no harm: nothing else is padded to [x, x] |
| `MerkleLaws.MembershipSound` | src/decpki/merkle.py:43-51 | whatever proof is accepted for a root, the leaf is in the list, or two hashed strings collide; for the empty list none is accepted |
| `MerkleLaws.HashOnlySound` | browser/src/crypto.js:57-70 | a 32-byte hash accepted with k siblings stands exactly k layers below the root, or two hashed strings collide |
| `JsMerkle.HashLeaf` | browser/src/crypto.js:38-44 | the buffer that is filled in place holds the leaf prefix and the leaf; the hash is Python's leaf hash |
| `JsMerkle.HashNode` | browser/src/crypto.js:46-52 | the same for a node and its two children |
| `JsMerkle.VerifyFromHash` | browser/src/crypto.js:57-70 | accepts exactly when climbing from the given hash ends in the root |
| `JsMerkle.VerifyMerkleProof` | browser/src/crypto.js:72-85 | accepts exactly what Python's check accepts, and what the hash-only check accepts for the hash of the leaf |
| `JsBits.ByteAt` | browser/src/cbor-canonical.js:27-37 | `(x >> k) & 0xff` is a byte of the number modulo 2^32, also where the shifted number is negative |
| `JsBits.HeadByte` | browser/src/cbor-canonical.js:21-32 | `major << 5 \| info` is the head byte of section 2.1 of RFC 7049 |
| `JsCbor.WriteHead` | browser/src/cbor-canonical.js:20-39 | what is pushed is the shortest head for the number, with the 8-byte form split into halves under 32-bit arithmetic |
| `JsCbor.CompareKeys` | browser/src/cbor-canonical.js:87-93 | the comparator decides shorter first, then bytewise, and answers 0 only for equal keys |
| `JsCbor.SortKeyed` | browser/src/cbor-canonical.js:87-93 | the encoded keys end up in that order |
| `JsCbor.EncodeItem` | browser/src/cbor-canonical.js:41-103 | throws exactly on an unsupported value, and otherwise appends the canonical encoding of section 3.9 of RFC 7049 and touches nothing before it |
| `JsCbor.EncodeObject` | browser/src/cbor-canonical.js:78-99 | a map is written with its keys sorted, whatever the order of insertion |
| `JsCbor.ToUint8Array` | browser/src/cbor-canonical.js:108 | the buffer becomes a byte array, each element reduced to a byte; where the encoder wrote it nothing is lost |
| `JsCbor.EncodeCbor` | browser/src/cbor-canonical.js:105-109 | the push-buffer encoder refines the recursive specification |
| `WireVectors.CborLongNumbers` | browser/src/cbor-canonical.js:20-39 | numbers encode as in appendix A of RFC 7049, and so do simple values and strings (`CborNumbers`, `CborStrings`) and lists |
| `WireVectors.CborKeyOrder` | browser/src/cbor-canonical.js:87-93 | a longer key comes after a shorter one, whatever it starts with |
| `CborLaws.CanonIsCanonical` | browser/src/cbor-canonical.js:78-99 | in what is written, keys are strictly increasing by encoded length, then bytes, at every depth |
| `Cbor.ReadWrittenHead` | browser/src/cbor-canonical.js:20-39 | a reader that insists on the shortest form reads back every head below 2^64 and leaves what follows |
| `CborLaws.UniqueDecoding` | browser/src/cbor-canonical.js:41-103 | decoding an encoding followed by anything returns the value, its keys sorted, and exactly what followed |
| `CborLaws.DecodesExactlyEncodings` | browser/src/cbor-canonical.js:41-103 | a strict decoder accepts a string exactly if it begins with the encoding of some value |
| `CborLaws.PrefixFree` | browser/src/cbor-canonical.js:41-103 | no encoding is a proper prefix of another |
| `CborLaws.EncodeIffSame` | browser/src/cbor-canonical.js:78-99 | two values have one encoding exactly if they differ at most in the order of keys, at any depth |
| `CborLaws.NumberReadBackIff` | browser/src/cbor-canonical.js:30-38 | a number survives the encoder exactly if it is below 2^64; above, only its low 64 bits are written |
| `Bundle.SerialiseForSigning` | src/decpki/bundle.py:62-88 | the loops build the canonical encoding of the document with an empty list of signatures |
| `Bundle.Deserialise` | src/decpki/bundle.py:91-131 | the reader makes its conversions in the source's order and stops at the first that raises |
| `BundleReading.ReadsIff` | src/decpki/bundle.py:91-131 | a document is read exactly if every conversion of the reader, by field name and in order, goes through; otherwise the first that does not decides between a BundleDecodeError and another exception |
| `BundleReading.OnlyVersionOne` | src/decpki/bundle.py:97-100 | what is read has version 1, and a map with another version, or none, is a BundleDecodeError whatever else it holds |
| `BundleReading.ReadsByName` | src/decpki/bundle.py:102-129 | every field of what is read, at any depth, is the document's field of that name |
| `BundleReading.BytesIff` | src/decpki/bundle.py:102-129 | when `bytes` takes a list, and that a number above 255 is the one failure that is not reported as a BundleDecodeError |
| `BundleReading.DecodeFailsIff` | src/decpki/verify.py:46-123 | `verify` passes on a decoding error exactly for bytes that do not parse and for documents whose first failing conversion is one |
| `Bundle.ReadIdentities` | src/decpki/bundle.py:103-107 | the loop over the identities stops at the first malformed entry |
| `Bundle.BuildEntries` | src/decpki/bundle.py:151-160 | entry i is the i-th record by DID with the proof for position i |
| `Bundle.GenerateBundle` | src/decpki/bundle.py:134-218 | a quorum error below the threshold, and otherwise the encoding of the bundle whose signatures are over its own signing bytes |
| `Publication.PublishedByName` | src/decpki/bundle.py:134-218 | what is published, field by field under the names that readers use: block, root, times, threshold and validators, each identity with a proof that leads from its leaf to the root, each validator's signature, and what it is over |
| `Publication.LeafByName` | src/decpki/bundle.py:22-32 | a leaf of the tree encodes a map with the seven fields of the record under their names |
| `Verify.DecisionTable` | src/decpki/verify.py:46-123 | on every bundle, each outcome of the six ordered steps is given exactly when its step fails and all before it pass, and a comparison that raises exactly then; the record, where there is one, is the first with the DID |
| `VerifySound.SigningBytesAreLong` | src/decpki/bundle.py:62-88 | every signing payload of a bundle is longer than the 32 bytes of an enrolment digest, so a signature on one is none on the other |
| `VerifySound.VerifySound` | src/decpki/verify.py:46-123 | end-to-end soundness: VALID and one signature that is no forgery, by a validator that has signed only its own bundles and 32-byte digests, imply that the record is an active one of a log it bundled, before that bundle's expiry |
| `VerifyComplete.BundleReadBack` | src/decpki/bundle.py:91-131 | reading a published bundle gives back every field, and the very bytes that were signed |
| `VerifyComplete.SortedActiveFacts` | src/decpki/bundle.py:143 | the records bundled are the active ones of the log, each once, in strict DID order |
| `VerifyComplete.GeneratedIsValid` | src/decpki/verify.py:57-123 | end-to-end completeness: until it expires, a generated bundle verifies as VALID for every active DID and returns its record |
| `VerifyComplete.GeneratedIsNotFound` | src/decpki/verify.py:103-108 | and as NOT_FOUND for every other DID |
| `VerifyComplete.GeneratedIsUnforged` | src/decpki/bundle.py:172-187 | every generated bundle meets the hypotheses of soundness for each of its validators, whatever enrolment digests these have signed |
| `JsBundle.BuildSigningPayload` | browser/src/bundle.js:67-97 | the bytes are the encoding of the rebuilt object, or the encoder throws |
| `JsBundle.ValidateBundle` | browser/src/bundle.js:99-127 | the loop and the early throws compute what the specification says |
| `JsBundle.ValidatesIff` | browser/src/bundle.js:99-127 | validation returns exactly for a bundle of version 1 whose expiry is not a number up to now, that can be encoded, none of whose signature checks throws, and whose threshold is not above the number of those that check; it attaches that number |
| `JsReading.DecodesIff` | browser/src/bundle.js:14-63 | a document is decoded exactly if it has version 1, its lists are lists or missing, and no entry, proof, sibling or signature is null or undefined |
| `JsReading.ExpiryTable` | browser/src/bundle.js:105-107 | when an expiry has come, by the kind of value it is: null counts as zero, and what is undefined never comes |
| `JsReading.BytesFromList` | browser/src/bundle.js:8-13 | lists of bytes, and on the page buffers, become arrays of these bytes |
| `JsAgreement.PayloadIsSigningValue` | browser/src/bundle.js:67-97 | the object that the browser rebuilds from a bundle is the document that Python signed |
| `JsAgreement.BrowserCountsEverySignature` | browser/src/bundle.js:99-127 | for every generated bundle that the parser returns with plain numbers, decoding and rebuilding in the browser yields byte for byte what Python signed, and every signature is counted |
| `JsAgreement.CopiesAgree` | browser/sw/decpki-sw.js:52-129 | on every parsed document the service worker's copy throws with the page's and otherwise rebuilds the same payload |
| `SessionStores.SessionStore.CreateChallenge` | bff/session.py:42-54 | stores the challenge with a lifetime of 60 seconds |
| `SessionStores.SessionStore.ConsumeChallenge` | bff/session.py:56-62 | removes the challenge whatever the answer, and returns it only until it expires |
| `SessionStores.SessionStore.IssueSessionToken` | bff/session.py:66-84 | records the JWT id on the session that has the refresh token, if there is one |
| `SessionStores.SessionStore.IssueRefreshToken` | bff/session.py:92-107 | adds the session and its entry in the DID's index |
| `SessionStores.SessionStore.RevokeRefreshToken` | bff/session.py:113-118 | removes the session and its index entry, and nothing else |
| `SessionStores.SessionStore.ListSessions` | bff/session.py:127-142 | lists each unexpired session of the DID once, with its own times and latest JWT and the first 16 characters of its token, although it discards from the index while it iterates |
| `SessionStores.SessionStore.RevokeSession` | bff/session.py:144-152 | the loop finds the first session with that id, blocks its latest JWT and removes it |
| `SessionStores.SqliteSessionStore.constructor` | bff/session.py:158-165 | opening the database prunes what has expired |
| `SessionStores.SqliteSessionStore.PruneExpired` | bff/session.py:199-204 | deletes the expired rows of all three tables and no other |
| `SessionStores.SqliteSessionStore.ConsumeChallenge` | bff/session.py:219-240 | deletes the row whether or not it has expired, and returns it only until then |
| `SessionStores.SqliteSessionStore.IssueSessionToken` | bff/session.py:244-260 | the UPDATE sets the JWT id of that session's row only |
| `SessionStores.SqliteSessionStore.ConsumeRefreshToken` | bff/session.py:281-293 | returns the row, unless it has expired, and keeps it |
| `SessionStores.SqliteSessionStore.ListSessions` | bff/session.py:311-328 | lists each of the DID's sessions that expires later than now, with the same fields |
| `SessionStores.SqliteSessionStore.RevokeSession` | bff/session.py:330-347 | the loop finds the first session with that id, blocks its latest JWT unless it is blocked already, and deletes its row |
| `SessionListing.LoginIsListed` | bff/session.py:311-328 | after a login the listing shows it, with the second of the login, its expiry and the JWT issued |
| `SessionListing.LoginIsListedInMemory` | bff/session.py:127-142 | so it does on the in-memory store |
| `SessionListing.ListedIdRevokes` | bff/session.py:330-347 | the id in that listing, given to `revoke_session`, ends that session and no other exactly if no other token begins with the same 16 characters |
| `LoginHandlers.MemLoginComplete` | bff/main.py:338-368 | the endpoint on the in-memory store is one step of the state machine, with its five ways to end |
| `LoginHandlers.SqlLoginComplete` | bff/main.py:338-368 | the same on the SQLite store |
| `LoginHandlers.MemLoginRefresh` | bff/main.py:386-398 | on the in-memory store the endpoint itself refuses and drops an expired token |
| `LoginHandlers.SqlLoginRefresh` | bff/main.py:386-398 | on SQLite the endpoint is the step at its own clock reading, unless the token expires between that and the store's reading: then it refuses and deletes it |
| `LoginHandlers.MemApiRevokeSession` | bff/main.py:457-474 | the endpoint on the in-memory store, with `self_revoked` read after the revocation |
| `LoginHandlers.SqlApiRevokeSession` | bff/main.py:457-474 | the same on the SQLite store |
| `SessionMeaning.LoginInRunIff` | bff/main.py:310-357 | in every run, restarts included, a login succeeds exactly if the last call that named its challenge created it, for that DID and at most 60 seconds ago, the assertion checks and the DID is active; otherwise the answer names the first of these that fails |
| `SessionMeaning.LoginWorks` | bff/main.py:359-368 | the JWT that a login issues passes, and its refresh token is good until its expiry and not beyond |
| `SessionMeaning.RefreshIff` | bff/main.py:386-398 | a refresh is granted exactly for an unexpired session of an active DID, and refused with the detail that applies; it changes that session's latest JWT and nothing else |
| `SessionMeaning.RevokeTable` | bff/main.py:457-474 | a caller whose JWT is blocked is turned away, one whose session id names nothing is told so, and in both cases nothing changes |
| `SessionMeaning.MemoryTidiesUp` | bff/session.py:127-142 | on the in-memory store a refresh drops an expired session and its index entry, and a listing leaves in the DID's index exactly what it lists |
| `SessionMeaning.RestartKeeps` | bff/session.py:199-204 | opening the database keeps exactly the unexpired rows of all three tables, unchanged |
| `SessionMeaning.LogoutIsFinal` | bff/main.py:401-405 | after a logout the refresh token is refused in every later state |
| `SessionLaws.ListIsExact` | bff/session.py:127-142 | `list_sessions` returns exactly the DID's sessions with now <= expires_at and keeps the index sound |
| `SessionRuns.MemStepInv` | bff/session.py:92-142 | every step keeps each DID's index a subset of its tokens that omits only expired ones |
| `SessionRuns.LazyIndex` | bff/session.py:92-142 | so it is in every state reached from the empty store, where `list_sessions` returns exactly the DID's tokens with now <= expires_at |
| `SessionRuns.StepAgrees` | bff/session.py:33-347 | one step of both stores gives the same answer and keeps them in agreement; a restart of SQLite goes unnoticed |
| `SessionRuns.Simulation` | bff/session.py:33-347 | over every run both stores give the same answers and issue the same JWTs, and at its end agree on unexpired challenges and tokens and on which of the unexpired JWTs issued are revoked |
| `SessionRuns.SimulationFromEmpty` | bff/session.py:155-165 | the same for runs from two empty stores |
| `SessionDiffer.ListAgreesIff` | bff/session.py:311-317 | the stores list the same sessions exactly if none of them expires at this second |
| `SessionDiffer.RevokeAgreesIff` | bff/session.py:144-152 | the stores answer a revocation alike exactly if the id names a session in both or in neither, and the caller's own in both or in neither |
| `SessionDiffer.RevokeAgreesUnexpired` | bff/session.py:330-347 | that can fail only if the session the id names in one of the stores has expired |
| `SessionDiffer.MemoryRevokesExpired` | bff/session.py:144-152 | a run in which the in-memory store revokes an expired session and blocks its JWT |
| `SessionDiffer.SqliteForgetsExpired` | bff/session.py:199-204 | the same run on SQLite: after a restart there is no such session, and its JWT stays good |
| `SessionDurable.RevocationNow` | bff/session.py:330-347 | a revocation blocks the latest JWT at least until its exp, keeping an entry that is there, removes that row and no other, changes no other JWT, and reports `self_revoked` exactly if the caller's JWT was the one |
| `SessionDurable.DurableRevocation` | bff/session.py:301-347 | in every later state, across all operations and restarts, that JWT is refused until its exp (section 4.1.4 of RFC 7519) and the refresh token for good |
| `SessionDurable.RefusedIff` | bff/session.py:338-345 | of the JWTs issued for a revoked session, in every later state and until it expires, one is refused exactly if it was the latest or was refused before |
| `SessionDurable.FirstJwtSurvives` | bff/session.py:338-345 | a run: login, refresh, revocation; the first JWT of the session still passes |
| `SessionDurable.ReachableFromEmpty` | bff/session.py:155-347 | every state reached from the empty database, with what that run has issued and drawn, meets what the revocation theorems ask |
| `SessionDurable.RevocationFromEmpty` | bff/session.py:301-347 | so in every run from the empty database: after a revocation the refresh token is refused for good, and of the JWTs issued for that session an unexpired one is refused exactly if it was the latest or was refused before |
| `ChallengeRuns.AcceptedOnce` | bff/session.py:219-240 | with calls interleaved between clock reading and lock, and restarts anywhere, a challenge is accepted at most once |
| `ChallengeRuns.AcceptedInTime` | bff/session.py:208-240 | what is accepted was created in the run for that DID and key, at most 60 seconds before the consuming call read the clock |
| `ChallengeRuns.ReadingIsGenuine` | bff/session.py:220 | the reading is what the clock showed when that call started |
| `ChallengeRuns.ConsumedForGood` | bff/session.py:221-232 | a challenge once looked up is accepted by no later call, even if it was refused as late |
| `Base64.Base64UrlRoundTrip` | bff/main.py:66-75 | base64url without padding (section 5 of RFC 4648) decodes to the bytes it was made from, for every byte string |
| `Base64.ChallengeRoundTrip` | bff/main.py:310-340 | the challenge sent to the browser comes back as the key under which it is stored |
| `Base64.HexInjective` | bff/session.py:43-44 | two draws of the generator never become one key |
| `WireVectors.Base64Letters` | bff/main.py:66-75 | base64 as in section 10 of RFC 4648 |
| `WireVectors.HexDigits` | bff/session.py:43-44 | the sixteen hexadecimal digits |
| `LedgerSpec.LedgerReadBack` | src/decpki/models.py:111-142 | what was saved loads as it was, keys in hexadecimal included; saving raises exactly if some other field holds a byte value, at any depth |
| `LedgerSpec.LoadsByName` | src/decpki/models.py:111-126 | which entries of a ledger file load, and that each field of the record is the entry's of that name, or its default |
| `LedgerSpec.RevokedFileHolds` | cli/enrol_sign.py:173-187 | the command raises exactly if there are enough validators and the ledger does not load; the file is written exactly if a record is revoked, and then holds the ledger as it was left |
| `LedgerSpec.PromotedFileHolds` | cli/enrol_sign.py:124-136 | so it is after a promotion |
| `IdentityLogs.IdentityLog.Add` | src/decpki/models.py:144-147 | a record with a new DID is appended, and a duplicate refused with the log unchanged |
| `IdentityLogs.IdentityLog.Get` | src/decpki/models.py:149-153 | the loop returns the first record object with the DID |
| `IdentityLogs.IdentityLog.Save` | src/decpki/models.py:128-142 | the loop builds the document, and `json.dumps` raises on byte values |
| `IdentityLogs.Load` | src/decpki/models.py:111-126 | the loop creates a new object for each record, or fails as a whole |
| `IdentityLogs.RegisterIdentity` | src/decpki/quorum.py:5-18 | block and issuers are set on the record passed in, which is appended unless the quorum is short or the DID is known |
| `IdentityLogs.EnrolRevoke` | cli/enrol_sign.py:167-187 | the file is rewritten exactly when an active record is revoked, with that record's object changed in place |
| `IdentityLogs.PromoteInLedger` | cli/enrol_sign.py:124-136 | the record is added and the file saved; a duplicate error is swallowed |
| `LedgerRuns.StepKeeps` | src/decpki/models.py:144-162 | registering, promoting, revoking, saving and loading keep DIDs unique and blocks growing |
| `LedgerRuns.RunKeeps` | src/decpki/models.py:144-162 | over every run records are only appended, and each stays as it is or is revoked once at a later block |
| `LedgerRuns.NextBlockFollows` | src/decpki/models.py:159-162 | the next block is 1000 at first and then the one after the highest issued |
| `LedgerRuns.RegistersIff` | src/decpki/quorum.py:11-18 | a registration succeeds exactly with the quorum and a new DID, and appends that record, issued by those validators at a block above all others |
| `LedgerRuns.RevokesIff` | cli/enrol_sign.py:162-187 | a revocation goes through exactly with the quorum, for an active record; it sets the block after the highest issued on it and changes nothing else, and otherwise the answer says why |
| `LedgerRuns.HoldsIff` | src/decpki/models.py:144-162 | a run ends with a DID in the ledger exactly if it was there or a step brought it in: nothing takes it out |
| `LedgerRuns.RepeatPromoteIsVoid` | cli/enrol_sign.py:132-136 | in every run a promotion leaves the ledger unchanged exactly if the DID was promoted, or registered by a quorum, before, revoked since or not |
| `LedgerRuns.StaysOutOfForce` | cli/enrol_sign.py:173-187 | a revoked DID is never active again in any later state |
| `LedgerRuns.RevokedIsNotFound` | src/decpki/bundle.py:143 | every bundle generated at any time after a revocation verifies the DID as NOT_FOUND until it expires |
| `EnrolmentStores.EnrolmentStore.AllCredentialIds` | bff/enrolment.py:82-96 | the loops collect the credential ids of both directories |
| `EnrolmentStores.EnrolmentStore.Create` | bff/enrolment.py:98-130 | a known credential id is refused; otherwise one new pending file is written |
| `EnrolmentStores.EnrolmentStore.AddSignature` | bff/enrolment.py:151-161 | the signature is appended and the file written to the pending directory, even for a promoted request |
| `EnrolmentStores.EnrolmentStore.Promote` | bff/enrolment.py:163-171 | the request is closed, written to the promoted directory and unlinked from the pending one |
| `EnrolmentStores.EnrolSign` | cli/enrol_sign.py:27-58 | the checks in order, then the signature over the request's payload is appended |
| `EnrolmentStores.CheckSignatures` | cli/enrol_sign.py:97-118 | the loop keeps the signers with a known key and a signature that parses and checks |
| `EnrolmentStores.EnrolPromote` | cli/enrol_sign.py:70-142 | the command changes directories and ledger as specified, and neither of them when it fails |
| `EnrolmentMeaning.CreateIff` | bff/enrolment.py:98-130 | a new request is open, unsigned and dated from now until its time to live has passed; it is refused exactly if some request has its credential id |
| `EnrolmentMeaning.AddSignatureMeans` | bff/enrolment.py:151-161 | the pending file gets the signature, or a closed copy of the promoted one, which itself stays |
| `EnrolmentMeaning.StorePromoteMeans` | bff/enrolment.py:163-171 | the request is closed and moved, and no other changes |
| `EnrolmentMeaning.SignTable` | cli/enrol_sign.py:27-58 | every answer of `enrol-sign`, each exactly when its check fails and all before it pass; a finished one appends the validator's signature in hexadecimal and writes no other file |
| `EnrolmentMeaning.PromoteTable` | cli/enrol_sign.py:70-142 | every answer of `enrol-promote` likewise; only a finished one changes anything |
| `EnrolmentMeaning.PayloadByName` | cli/enrol_sign.py:14-16 | what is hashed and signed encodes the request's DID, id and key under these names |
| `EnrolmentRuns.RunKeeps` | bff/enrolment.py:98-171 | over every run distinct request ids never share a credential id, and copies of a request stay copies |
| `EnrolmentRuns.StaysClean` | cli/enrol_sign.py:36-58 | a request signed only through `enrol-sign` has pairwise distinct signers, none recorded later after expiry than the two clock readings of a command can differ |
| `EnrolmentRuns.CountIsRightIff` | cli/enrol_sign.py:97-118 | the count compared with the threshold is that of the different verified signers exactly if none of them has two signatures that count |
| `EnrolmentRuns.QuorumIff` | cli/enrol_sign.py:97-142 | in every state, a ready request is promoted at exactly the thresholds that its different verified signers reach, if and only if none of them has two signatures that count |
| `EnrolmentRuns.PromotesIff` | cli/enrol_sign.py:97-142 | a request signed only through `enrol-sign` is promoted exactly if it is open, unexpired, at least `threshold` different signers verify, and ledger and key parse |
| `EnrolmentRuns.PromotionMeans` | cli/enrol_sign.py:104-142 | in every run, a finished promotion of a DID that the ledger did not hold appends exactly one record: active, with that DID and the key that the request's hexadecimal text stands for, at a block above all others, issued by the signers counted, with the request's ids in its metadata; at least `threshold` signatures were counted, and the verified signers are exactly those with a signature that checks under their key, given or looked up |
| `EnrolmentRuns.PromotionMeansInTime` | cli/enrol_sign.py:36-142 | for a request signed only through `enrol-sign` there are that many in any case, each in time |
| `EnrolmentRuns.SignersInOrder` | cli/enrol_sign.py:97-118 | the signers are counted in the order of signing |
| `EnrolmentMeaning.PromotedIsValid` | cli/enrol_sign.py:124-142 | end to end: in every bundle generated from the ledger after the promotion, the DID verifies as VALID until it expires, under the key of the request and with the counted signers as issuers |
| `EnrolmentRuns.RepeatPromotionReportsSuccess` | cli/enrol_sign.py:132-147 | promoting a DID that the ledger holds reports success, closes the request and leaves the ledger as it is |
| `EnrolmentRuns.EnrolmentCompletes` | cli/enrol_sign.py:52-142 | distinct validators who each sign before expiry suffice: the promotion with their keys goes through, and the new record is issued by exactly them |
| `EnrolmentRuns.OneMakesTwo` | bff/enrolment.py:151-161 | a run: `add_signature` appends one signature twice, and one validator makes up a quorum of two |
| `EnrolmentRuns.SignsLateIff` | cli/enrol_sign.py:36-56 | in every run, a request signed only through `enrol-sign` has a signature dated after its expiry exactly if the expiry fell between the two clock readings of a command that went through |
| `EnrolmentRuns.SignedLate` | cli/enrol_sign.py:36-56 | a run in which it does |
| `EnrolmentRuns.PayloadBinds` | cli/enrol_sign.py:14-16 | equal payloads mean equal request id, DID and key, or a collision of two given strings |
| `SyncWorker.ServiceWorker.DoSync` | browser/sw/decpki-sw.js:161-166 | a call is turned away while another is under way, and otherwise raises the flag |
| `SyncWorker.ServiceWorker.AfterValidation` | browser/sw/decpki-sw.js:171 | only a bundle that validation returned goes on to be saved |
| `SyncWorker.ServiceWorker.AfterSaveSyncState` | browser/sw/decpki-sw.js:174-193 | what is announced at the end of the try and catch blocks, and that the flag falls even if the handler's own save fails |
| `SyncWorker.DecPKIClient.OnMessage` | browser/src/index.js:72-80 | only BUNDLE_UPDATED makes the page load |
| `SyncWorker.DecPKIClient.Verify` | browser/src/index.js:83-147 | the early-return chain gives each outcome exactly when its step fails and all before it pass |
| `SyncProtocol.ClientDecides` | browser/src/index.js:83-147 | and so does the function that stands for it in the theorems |
| `SyncProtocol.StepKeeps` | browser/sw/decpki-sw.js:161-194 | every step of worker, database and page keeps: at most one sync past the guard, and only validated bundles stored, loaded or held |
| `SyncProtocol.NeverQuorumFailure` | browser/src/index.js:107-115 | from an empty database, under every interleaving, the client's check never answers QUORUM_FAILURE |
| `SyncProtocol.UncountedFailsClosed` | browser/src/index.js:105-115 | a bundle to which no count of signatures is attached is not accepted, unless its threshold is not a number or below zero |
| `SyncHistory.NothingExpired` | browser/sw/decpki-sw.js:131-173 | in every run, what is stored, held, loaded or being saved is a document that a sync of the run has read and that had not expired at that sync's reading of the clock |
| `SyncHistory.RefusedIsNotWritten` | browser/sw/decpki-sw.js:131-173 | in every run, a sync whose document validation refuses, an expired one for instance, never writes |
| `SyncHistory.RefusedSync` | browser/sw/decpki-sw.js:165-193 | and leaves the database as it was when it was called |
| `SyncHistory.SyncEnds` | browser/sw/decpki-sw.js:173-193 | the four ways in which a sync ends, with what is announced, and what the death of the worker leaves |
| `SyncHistory.UpdateReachesPage` | browser/src/index.js:70-80 | in every run, a page that starts, or listens and has BUNDLE_UPDATED first in its inbox, loads and then holds the stored bundle, whatever it held before |
| `SyncHistory.LoadDelivers` | browser/src/index.js:72-76 | whatever else happens meanwhile, a load ends with what the database held when it answered |
| `SyncHistory.DestroyedIsDeaf` | browser/src/index.js:157-166 | a page that has closed its channel hears nothing until it opens one again |
| `SyncProtocol.ClientValidMeans` | browser/src/index.js:83-147 | VALID means a validated bundle whose first entry for the DID has a proof that climbs to its root; the signatures reach the threshold, and the time is not past the expiry, exactly if that field is not NaN when taken as a number |
| `SyncProtocol.FieldsOfDocument` | browser/src/bundle.js:52-62 | those two fields are the document's own |
| `JsSound.ClientSound` | browser/src/index.js:83-147 | end-to-end soundness in the browser: VALID and one counted signature that is no forgery, by a validator that has signed only its own bundles and 32-byte digests, imply that the record is an active one of a log it bundled, with that bundle's quorum and before its expiry |
| `JsComplete.ClientComplete` | browser/src/index.js:83-147 | end-to-end completeness in the browser: from any state that a run can reach, whatever is stored and held, once a sync has fetched a generated bundle, a page that starts or listens answers VALID for every active DID and NOT_FOUND for every other, until the bundle expires |
| `JsComplete.StoredIsUnforged` | browser/sw/decpki-sw.js:131-157 | what is stored of a generated bundle meets the hypotheses of soundness for each of its validators |
| `SyncProtocol.TrustedMeans` | browser/sw/decpki-sw.js:131-157 | the count that validation attaches is that of the signatures that check over the rebuilt bytes, and it reaches the threshold exactly if that is not NaN when taken as a number |
| `SyncProtocol.OnlyWritesChange` | browser/sw/decpki-sw.js:173 | the stored bundle changes only to one that its sync has validated |
| `SyncProtocol.UpdateFollowsSave` | browser/sw/decpki-sw.js:173-182 | when BUNDLE_UPDATED is posted, the bundle announced is the one stored |
| `SyncProtocol.FailedSync` | browser/sw/decpki-sw.js:165-193 | in every run, a sync that fails has written its bundle exactly if it was the sync state that could not be saved; otherwise the stored bundle is what it was at the call |
| `SyncProtocol.UnwrittenChangesNothing` | browser/sw/decpki-sw.js:165-173 | so it is while a sync is still fetching, decoding, validating or about to save |
| `SyncProtocol.TurnedAwayIff` | browser/sw/decpki-sw.js:161-163 | a request is turned away exactly while a sync is under way: the guard never stays closed |
| `SyncWitness.FailedThoughSaved` | browser/sw/decpki-sw.js:173-190 | a run from an empty database, for every bundle that validation passes: SYNC_FAILED is posted and the bundle is stored |
| `SyncWitness.UnsignedIsAccepted` | browser/src/bundle.js:99-127 | a document without signatures, threshold and expiry passes validation at any time, and the client answers VALID for its DID at any other |
| `SyncWitness.ServedAsValid` | browser/src/index.js:83-147 | a run in which it takes that way from the network to the page |

## Left out

- Negative numbers, floats, tags, big numbers and maps with keys that are not text in CBOR; Python integers of 2^64 and more.
- An object as threshold or expiry in the browser whose conversion to a number throws.
- `dict()` of a list of pairs, and comparing DIDs that are not texts while sorting: both are modelled as an exception that nobody catches.
- A byte string where the browser expects a list of entries, signatures or siblings: a Uint8Array has a `map` of its own, with which an empty one, or any one for signatures or siblings, gets through decoding; here it counts as a value without `map`.
- Properties named `__proto__`.
- A grace period that would put the expiry before 1970.
- `bytes(n)` for a number too large for memory.
- Lone surrogates in JavaScript strings, which are not text that UTF-8 can express.
- The wording of messages, and the fields of results that only repeat the input.
- That counted signatures come from different or pinned validators, that `valid_until` is enforced, and that an older valid bundle never replaces a newer one: the code does not claim it.
- Agreement of Python and browser at the very second of expiry, where they differ.
- `verify_assertion`, JWT signing and parsing, a missing SESSION_SECRET, and the WebAuthn ceremonies in the browser: an assertion is a given yes or no, a JWT its id and expiry.
- Overlapping calls of session endpoints other than those for challenges.
- Ledger files whose `issued_by` is not a list or whose `metadata` is not an object; they are modelled as failing to load.
- Request files that do not parse, and the fields of a request that nothing here reads (type, existing DID, metadata, algorithm, COSE key).
- Request files outside the two enrolment directories, and key files that do not exist.
- The stored sync state and `GET_BUNDLE_STATUS`, beyond whether saving the state succeeds; when a sync is due, as any call may come at any time.
- The in-memory fallback of `storage.js`, `bundle_cache.py` and its threads, and `bff/cose.py`.
- More than one page at a time: the protocol has one, which shares nothing with others but the database and the channel.
- What the parser returns for large numbers: agreement is stated for documents that it returns with plain numbers; it may return a BigInt for large ones, which the encoder rejects.
- Proofs in a browser bundle that hold something other than byte arrays and buffers: what the Merkle check makes of them is a parameter.
- Command-line parsing, routing, printing and the demo pages.
- VerifySound.VerifySound: returns the record up to the order of its metadata, which is all that signing bytes determine; and is about files whose maps, if they parse, have texts as keys, each of them once.
- VerifyComplete.GeneratedIsValid: assumes that the parser returns the published document, its keys in some order; the parser itself is library code.
- JsSound.ClientSound: asks that the document to be encoded is one in which a map has each name once and lengths and numbers stay below 2^64.
