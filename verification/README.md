# A verified model of PIVSS

PIVSS stores versioned wallet backups for pay. A server keeps every version of a
backup under its own key of an optimistic-concurrency store, records the history
of a series in a manifest, seeds each version as a torrent, and answers
proof-of-storage challenges; a client pays only while the proofs check out.

This project models that service in Dafny and proves what it is for.

**The upload protocol** (`Uploads`, `UploadRuns`). Storing a version takes three
store calls with no lock held in between. The model is a transition system with
any number of uploads, each stopping anywhere, and with writes that are applied
but reported as failed. Its specification is one append-only log per series. The
create-once write of `v<n+1>` turns out to be a lock on version n+1, so the
manifest write that follows can never lose. From the invariant follow refinement
of the log, durability, safe readers, and exactly when uploads progress.

Two statements one might expect of it are false, and the project says exactly
when they hold. An upload that runs alone does not always succeed: it does so
exactly when `v<latest+1>` is absent (`UploadRuns.SoloUploadSucceedsExactly`). A
series cannot always get another version: it can exactly when no upload to it
stopped between its two writes, which leaves that key behind for ever
(`UploadRuns.SeriesGrowsExactly`, `UploadRuns.StrandedSeriesIsWedged`,
`UploadRuns.StrandingHappens`). A third is false of discovery: what is kept of a
provider depends on the order of arrival exactly when two of its newest verified
events share their time (`Discover.OrderIgnoredExactly`).

**The service** (`Store`, `Service`). The in-memory store and `AppState` are
classes whose methods are proved against the same steps: `AppState` carries the run
of the transition system that its calls amount to. `Keys` shows that the
three spellings of keys never collide, which carries the string-keyed store over
to the structured one.

**Who gets paid** (`StorageProof`, `Crypto`, `Client`, `Watch`, `Payments`). The
challenge and proof functions, the envelope the client can reproduce, the pay
loop over runs interleaved with uploads, and the ledger of wallet events.

**Torrents** (`Bencode`, `Torrent`, `Magnet`). The writers are proved against
parsers of the formats they write: bencoding and the single-file info dictionary
of BEP 3, percent-encoding of RFC 3986 (sections 2.1 and 2.3), and the link.

**Discovery, settings, seeding** (`Discover`, `Settings`, `Seeding`). The merge of
relay answers, the configuration bounds that every patch keeps and what they mean
for quotes, and the ports of the torrents that runs of uploads seed.

`Bytes`, `Ordering` and `Wrappers` hold byte strings with their textual
encodings and hashes, key order with the stable sort, and optional values.

## Conventions

- A byte is written as the character with that code, so that formats read as
  string literals. Text that is only compared or measured is a sequence of
  Unicode scalar values; its UTF-8 length is computed where the code uses it.
- Hashes, key derivation, the cipher, JSON encodings, signature verification and
  the decoding of announcements are parameters. A law one of them must satisfy is
  a hypothesis of the lemma that needs it; where the code relies on a hash being
  collision-free, the lemma exhibits the colliding inputs instead.
- Randomness, clocks, relay answers, the outcome of file-system calls and the
  steps of other clients are parameters.
- 64-bit products and sums are those of a release build: they wrap where the code
  does not saturate. The statements say when they do not.
- In `Manifest`, `labelText` is the source's `label`, a reserved word here, and
  `payMethod` is its `method`. `Bencoder.dict` takes a closure in the source; its
  two brackets are written by `Bencoder.Raw` here.
- Readers do not write, so a reader is modelled by the states its reads see along
  a run, with arbitrary steps of others in between.

The project's README says that uploading the same file name again creates a new
version; for a wedged series the code answers with a conflict instead, and the
model follows the code.

## Model

| member | source | states |
|---|---|---|
| `Uploads.InitInv` | crates/pivss-server/src/state.rs:279-366 | The invariant that ties manifest, store version, version list, data keys and in-flight claims holds of the empty store. |
| `Uploads.StepKeepsInv` | crates/pivss-server/src/state.rs:279-366 | Every step of every upload keeps the invariant: reads, claims, commits, aborts at any point, and writes applied but reported as failed, as well as payment writes; the specification log moves exactly at the manifest write. |
| `Uploads.ClaimHolderWins` | crates/pivss-server/src/state.rs:319-362 | Creating `v<n+1>` acts as a lock: until its holder commits, the manifest is the one it read, so its compare-and-swap never returns a conflict. |
| `Uploads.ClaimOutcome` | crates/pivss-server/src/state.rs:315-321 | The create-once write is refused exactly when the key exists, and when it is accepted the uploader's snapshot is the current history. |
| `Uploads.HeldMeansPresent` | crates/pivss-server/src/state.rs:318-321 | A data key beyond the log exists exactly when some upload created it and has not committed it. |
| `Uploads.HistoryGrows` | crates/pivss-server/src/state.rs:342-362 | Extending the snapshot as the code does yields the manifest of the log with one more commit, and the store then holds exactly that history. |
| `Uploads.CommitStep` | crates/pivss-server/src/state.rs:360-362 | The manifest write, reported or not, appends the upload to the log of its own series and to nothing else. |
| `Uploads.ReadsHistory` | crates/pivss-server/src/state.rs:266-275 | Reading a manifest returns the manifest of the whole log with the log length as its store version, and never the corrupt-manifest error. |
| `UploadRuns.StepRefinesLog` | crates/pivss-server/src/state.rs:279-366 | One step of any interleaving leaves all logs as they are or appends one not yet committed upload to its series. |
| `UploadRuns.RunRefinesLog` | crates/pivss-server/src/state.rs:279-366 | Over any run the invariant holds at the end and every log has only been extended. |
| `UploadRuns.ReachableStatesAreGood` | crates/pivss-server/src/state.rs:279-366 | Every state reachable from the empty store satisfies the invariant. |
| `UploadRuns.StoreShowsLog` | crates/pivss-server/src/state.rs:266-275 | In every reachable state the manifest lists versions 1..n in order, its key has store version n, and the store returns for each listed version the bytes of its upload. |
| `UploadRuns.ListedVersionRecordsItsData` | crates/pivss-server/src/state.rs:315-350 | In every reachable state a listed version has its number, the length and SHA-256 in hex of the very bytes the store returns for it, and the time of its upload. |
| `UploadRuns.ListedVersionRecordsItsTorrent` | crates/pivss-server/src/state.rs:324-350 | Its link parses to its infohash, its seed name and the trackers, and the infohash is the SHA-1 in hex of the info value of a metainfo whose length and pieces accept those bytes and nothing else without a collision. |
| `UploadRuns.CommitsAreTheLog` | crates/pivss-server/src/state.rs:342-366 | Committed uploads and log entries correspond one to one: none is lost, none appears twice. |
| `UploadRuns.CompletedUploadResult` | crates/pivss-server/src/state.rs:364-365 | A completed upload returned the manifest of the log as it stood right after its own commit, its own version record and its own quote. |
| `UploadRuns.VersionsAreUnique` | crates/pivss-server/src/state.rs:315-362 | Two uploads never commit the same version of a series. |
| `UploadRuns.VersionsFollowTime` | crates/pivss-server/src/state.rs:298-362 | Versions follow real time: over any run, aborts and faults included, an upload commits only a version above all those committed when it began. |
| `UploadRuns.ConflictChangesNothing` | crates/pivss-server/src/state.rs:319-321 | An upload that ends with a version conflict was refused at its first write and has changed nothing. |
| `UploadRuns.RunAdvances` | crates/pivss-server/src/store.rs:98-116 | Over any run keys stay and a key's version strictly grows whenever its value changes. |
| `UploadRuns.RunKeepsPayment` | crates/pivss-server/src/state.rs:438-439 | A payment once recorded is never overwritten. |
| `UploadRuns.CasMeansUnchanged` | crates/pivss-server/src/store.rs:72-75 | A conditional write that succeeds with a version read earlier finds the very value that was read. |
| `UploadRuns.CreationsAreNew` | crates/pivss-server/src/state.rs:319-321 | Over any run no version of a series is created twice, whether or not its creation was reported. |
| `UploadRuns.ListedVersionIsForever` | crates/pivss-server/src/state.rs:389-395 | A version once listed stays listed with the same record, and its bytes are returned in every later state. |
| `UploadRuns.LatestIsReadable` | crates/pivss-server/src/state.rs:399-409 | A challenge without a version never misses its data, whatever runs between its two reads, and gets the bytes that were latest at the manifest read. |
| `UploadRuns.ExplicitVersionReadable` | crates/pivss-server/src/state.rs:399-409 | With an explicit version, and other steps between the two reads: refused if the series has no manifest at the first read; otherwise answered exactly when the version is, at the data read, committed or created by an upload that has not committed it. |
| `UploadRuns.ScanIsFaithful` | crates/pivss-server/src/state.rs:371-377 | Reading the listed manifests one by one, with other steps in between, returns one per series, each as it was at some moment of the scan. |
| `UploadRuns.ListingIsComplete` | crates/pivss-server/src/state.rs:368-371 | The keys listed at the start are those of all series that exist then, each once. |
| `Service.ListingUnderInterleaving` | crates/pivss-server/src/state.rs:368-380 | Listing, reads and sort together, with other steps in between: every series that existed at the start is returned exactly once, under its own id, as it was at some moment of the scan, nothing else is, and update times do not increase along the result. |
| `UploadRuns.QuiescentIsClean` | crates/pivss-server/src/state.rs:315-362 | When all uploads have ended and none stopped between its two writes, the data keys are exactly the committed versions. |
| `UploadRuns.FaultFreeLeavesNoStrands` | crates/pivss-server/src/state.rs:315-362 | A run without aborts and faults leaves no upload stopped between its two writes. |
| `UploadRuns.RacingUploadsCommit` | crates/pivss-server/src/state.rs:279-366 | If an upload of admissible size starts and everything runs to its end without faults, its series has grown. |
| `UploadRuns.SoloUploadSucceedsExactly` | crates/pivss-server/src/state.rs:298-365 | An upload running alone and failing nowhere itself succeeds exactly when `v<latest+1>` is absent; otherwise it ends with a conflict. |
| `UploadRuns.StrandedSeriesIsWedged` | crates/pivss-server/src/state.rs:319-362 | An upload stopped between its two writes wedges its series: whatever runs later, the series never gets another version. |
| `UploadRuns.SeriesGrowsExactly` | crates/pivss-server/src/state.rs:319-362 | In every reachable state, some continuation gives a series another version if and only if no upload to it stopped between its two writes. |
| `UploadRuns.StrandingHappens` | crates/pivss-server/src/state.rs:326-334 | That state is reachable: one upload whose seed file cannot be written. |
| `Keys.KeyTextInjective` | crates/pivss-server/src/state.rs:99-105 | Manifest, data and payment keys never collide, for arbitrary ids and every version number including its decimal printing. |
| `Keys.ManifestKeysByText` | crates/pivss-server/src/state.rs:368-371 | The prefix `backups/` with the ending `/meta` selects manifest keys and no others; `payments/` selects payment keys. |
| `Bytes.DecimalReadsBack` | crates/pivss-server/src/state.rs:103-105 | A printed number is a canonical numeral and reads back as the number. |
| `Bytes.HexReadsBack` | crates/pivss-core/src/crypto.rs:102-109 | Decoding undoes hexadecimal encoding on every byte string. |
| `Store.ConditionalPut` | crates/pivss-server/src/store.rs:98-116 | A conditional write succeeds exactly when the key is as the expected version says, then advances its version by one, and otherwise changes nothing. |
| `Store.VssReportsTheRule` | crates/pivss-server/src/store.rs:231-235 | The version the remote store's client computes is the one the version rule gives for every accepted write. |
| `Store.MemoryStore.Put` | crates/pivss-server/src/store.rs:98-116 | The in-memory store follows the version rule. |
| `Store.MemoryStore.List` | crates/pivss-server/src/store.rs:118-131 | The scan from the prefix, cut off at the first mismatch, returns exactly the keys with the prefix, each once, in order, with current versions. |
| `Store.ListingUnique` | crates/pivss-server/src/store.rs:118-131 | That description determines the listing. |
| `Store.ScanReaches` | crates/pivss-server/src/store.rs:123-124 | Keys sharing a prefix are contiguous in key order, so the scan misses none of them. |
| `Store.ListPaged` | crates/pivss-server/src/store.rs:238-256 | Against any finite chain of answers the page loop ends with all pages in order, or with the first failing call. |
| `Store.CutsServe` | crates/pivss-server/src/store.rs:238-256 | A server that cuts a listing into consecutive non-empty pages, with a non-empty token exactly while keys remain, gives such a chain, holding the whole listing unless a call fails. |
| `Store.ListCut` | crates/pivss-server/src/store.rs:238-256 | So against such a server the loop ends with the very listing of the in-memory store, or with the error of a failed call. |
| `Store.PagedListingAgrees` | crates/pivss-server/src/store.rs:238-256 | Against a server that pages the sorted listing the result is that of the in-memory store. |
| `Service.RenderedPut` | crates/pivss-server/src/state.rs:319-321 | A write by spelled key does to the string-keyed store what the write by key does to the structured one. |
| `Service.AppState.StoreBackup` | crates/pivss-server/src/state.rs:279-366 | The sequential upload over the in-memory store returns and stores what its specification says, and takes the service from a reachable world of the protocol to the one its own run leads to. The receipt has the new version with size and digest of the data, the manifest listing it last, and the 64-bit quote for that size; the store returns the data under that version. |
| `Service.StoredIsProtocolRun` | crates/pivss-server/src/state.rs:279-366 | That specification is the run of one more uploader in any world, with the same result, store and effect on the logs, so everything proved of runs applies to it. |
| `Service.StoredOutcome` | crates/pivss-server/src/state.rs:289-365 | Too large and conflict change nothing; a failed file write leaves only the data key; otherwise the log grows by the upload and the manifest, record and quote of the new version are returned. |
| `Service.UploadOutcome` | crates/pivss-server/src/state.rs:289-365 | The same endings in the transition system: from any reachable world the upload leads to one, and is in the log exactly if it succeeded. |
| `Service.UploadReceipt` | crates/pivss-server/src/state.rs:315-365 | In any reachable world a successful upload's receipt tells the next version number, the size, digest and time of the data sent, the manifest with that version last, and the quote for its size; the store returns the data. |
| `Service.UploadReceiptTorrent` | crates/pivss-server/src/state.rs:324-350 | The receipt's link and infohash are those of a torrent of the data sent, with its seed name and the configured trackers. |
| `Service.AppState.AnswerChallenge` | crates/pivss-server/src/state.rs:399-409 | The challenge is answered from the bytes stored for the version named: one digest per range of nonce followed by that range of the data (empty past its end), the digest of nonce and data, and the digest of the data; it fails only on an out-of-order slice. |
| `Service.AnswersFromTheLog` | crates/pivss-server/src/state.rs:399-409 | It is answered for the latest version by default, for any logged version on request, and not at all for an unknown series. |
| `Service.AnswersProveTheLog` | crates/pivss-server/src/state.rs:399-409 | So an answer holds the digests of the bytes uploaded as that version. |
| `Service.AppState.ListBackups` | crates/pivss-server/src/state.rs:368-380 | All manifests, found by prefix and ending, with non-increasing update times. |
| `Service.ManifestsAreTheLogs` | crates/pivss-server/src/state.rs:368-380 | Each listed manifest is that of its series' whole log. |
| `Service.AppState.ListPayments` | crates/pivss-server/src/state.rs:503-515 | All stored payments, with non-increasing payment times. |
| `Service.StreamTotalIsExact` | crates/pivss-server/src/state.rs:451-515 | For any stream of wallet events interleaved with uploads from an empty store, the listed total is 1000 times the satoshis of the first matched event of each payment exactly when none of those products saturates, and never more. |
| `Service.CallsTotalIsExact` | crates/pivss-server/src/state.rs:451-515 | Uploads and observed payments called one after the other on a new service are such a stream, so the total it lists is that of the first matched events it observed. |
| `Service.AppState.RecordPayment` | crates/pivss-server/src/state.rs:415-442 | A claimed payment is refused when a wallet is connected or the backup is unknown, and otherwise written once under its id. |
| `Service.AppState.MatchIncomingPayment` | crates/pivss-server/src/state.rs:451-501 | An observed payment is recorded only if its note names a known backup, exactly as one delivery of the ledger model in the world the service is in. |
| `Service.AppState.ApplySettingsPatch` | crates/pivss-server/src/state.rs:156-264 | A patch that fails validation changes nothing; one that passes replaces exactly its fields, and stays in force when saving fails. |
| `Manifest.ManifestRecordsLog` | crates/pivss-server/src/state.rs:298-356 | The manifest of a log: name, kind and creation time of its first upload, time of its last, the last label given, and versions 1..n. |
| `Manifest.SeriesNameInjective` | crates/pivss-server/src/state.rs:107-111 | Different names or kinds are hashed differently, so only truncated digests can confuse two series. |
| `Manifest.IdIsDigestPrefix` | crates/pivss-server/src/state.rs:107-111 | A backup id is the hex of the first 8 digest bytes of kind and name as spelled out; two series have the same id exactly when those bytes agree. |
| `Manifest.SeedNameInjective` | crates/pivss-server/src/state.rs:324-325 | Seed files of different versions or series have different names. |
| `Manifest.QuoteExactAndMonotone` | crates/pivss-core/src/manifest.rs:82-85 | If the largest admitted size can be quoted without overflow, every smaller one is quoted exactly, and larger backups never cost less. |
| `Manifest.AllQuotedExactly` | crates/pivss-core/src/manifest.rs:82-85 | All sizes up to a limit are quoted exactly if and only if the product for the limit is below 2^64. |
| `Manifest.SatsPayTheQuote` | crates/pivss-client/src/main.rs:410-410 | The satoshis a client sends are exactly the quote when the quote did not overflow. |
| `Manifest.SatsCoverQuote` | crates/pivss-client/src/main.rs:410-410 | Whatever the quote, at least one satoshi is sent, at least the quote, and not a satoshi too much. |
| `Service.AdmittedUploadsPayExactly` | crates/pivss-server/src/state.rs:286-294 | Under every valid configuration with 512 times price times 1000 below 2^64, each admitted upload is quoted exactly and paid exactly in satoshis. |
| `Payments.LedgerIsFirstMatches` | crates/pivss-server/src/state.rs:451-501 | For any stream of wallet events interleaved with uploads, the stored payments are exactly the first matched event of every payment id. |
| `Payments.FirstRecordsAreFirst` | crates/pivss-server/src/state.rs:469-493 | The ledger keeps the first record of each id and never replaces one. |
| `Payments.MatchedIsRecorded` | crates/pivss-server/src/state.rs:468-493 | A matched event not yet on record at the write is stored under its payment hash, or a drawn id, with the backup its note names, its amount, the time, the method "bolt12-breez" and its preimage. |
| `Payments.RedeliveryChangesNothing` | crates/pivss-server/src/state.rs:489-500 | Delivering an event again whose hash is on record changes nothing. |
| `Payments.StoredPaymentsNameBackups` | crates/pivss-server/src/state.rs:459-493 | After any such stream every payment in the store reads back as a matched record of its own id, for a backup that exists. |
| `Payments.ListedTotal` | crates/pivss-server/src/state.rs:503-515 | However the payments are enumerated and sorted, their total is that of the first matched events. |
| `StorageProof.MakeChallenge` | crates/pivss-core/src/proof.rs:45-64 | A challenge for a non-empty file has exactly the ranges asked for, each non-empty, at most 4096 bytes and inside the file; an empty file gets none; the nonce field is the drawn nonce in hex. |
| `StorageProof.ChallengeHolds` | crates/pivss-core/src/proof.rs:45-64 | The same of the function that draws it, whatever is drawn. |
| `StorageProof.EveryRangeCanBeDrawn` | crates/pivss-core/src/proof.rs:54-57 | Every admissible range is drawn by some pair of draws, so no byte is out of reach of a challenge. |
| `StorageProof.SliceableExactly` | crates/pivss-core/src/proof.rs:79-84 | In a release build a range cannot be sliced exactly when its 64-bit sum wraps to a position inside the file; sums below 2^64 are always safe. |
| `StorageProof.ProofHoldsDigests` | crates/pivss-core/src/proof.rs:68-95 | A proof has one digest per range, in order: of the nonce followed by the bytes of that range, cut at the end of the data; the full digest is of nonce and data, the file digest of the data. |
| `StorageProof.VerifyAcceptsExactly` | crates/pivss-core/src/proof.rs:98-104 | An arbitrary proof is accepted if and only if its nonce field is the challenge's and its full and range digests are those of the local data. |
| `StorageProof.HonestProofAccepted` | crates/pivss-core/src/proof.rs:98-104 | Every honestly computed proof is accepted, with no assumption on the hash. |
| `StorageProof.AcceptedMeansSameBytes` | crates/pivss-core/src/proof.rs:98-104 | An accepted proof was computed from the same nonce and the same data, whatever its nonce field says, or exhibits a SHA-256 collision. |
| `StorageProof.VerifiesExactlyTheData` | crates/pivss-core/src/proof.rs:98-104 | Against an honest server verification succeeds exactly when it holds the client's bytes, unless two hashed inputs collide. |
| `StorageProof.ReplayPassesExactly` | crates/pivss-core/src/proof.rs:98-104 | A proof made for another nonce passes exactly when the two nonces decode alike. |
| `StorageProof.DrawnChallengeSliceable` | crates/pivss-core/src/proof.rs:45-64 | A challenge made for one file can be answered from any other without an out-of-order slice. |
| `Crypto.Encrypt` | crates/pivss-core/src/crypto.rs:80-92 | Encryption produces the envelope of the drawn salt and nonce and returns both in hexadecimal. |
| `Crypto.EnvelopeRoundTrip` | crates/pivss-core/src/crypto.rs:60-138 | What was encrypted starts with PIVSS1, has salt, nonce and ciphertext at bytes 6, 22 and 34, decrypts to the plaintext, and is reproduced byte for byte from the stored salt and nonce. |
| `Crypto.LayoutInjective` | crates/pivss-core/src/crypto.rs:12-13 | Envelopes that differ in salt, nonce or ciphertext are different. |
| `Crypto.PlainRestoresExactly` | crates/pivss-client/src/main.rs:363-373 | For every passphrase, none included, restoring returns the payload as it is exactly when it does not start with PIVSS1. |
| `Crypto.MarkedOpensExactly` | crates/pivss-core/src/crypto.rs:110-138 | Data that starts with PIVSS1 needs the passphrase, and is opened as salt, nonce and ciphertext at their places or refused with the step that failed. |
| `Crypto.UnmarkedRefused` | crates/pivss-core/src/crypto.rs:110-118 | Data without the magic is never decrypted: it is refused as too short or as no envelope. |
| `Crypto.MalformedFields` | crates/pivss-core/src/crypto.rs:96-112 | An envelope is reproduced only from hex of a 16-byte salt and a 12-byte nonce; otherwise, and only then, the stored fields are reported as truncated. |
| `Client.Client.Backup` | crates/pivss-client/src/main.rs:274-337 | A backup uploads the file or its envelope. On success exactly the entry of the upload's own id changes: it has id, name, kind, digest of what was sent, the version committed, the 64-bit quote for its size, and the salt and nonce in hex if sealed. On every other ending the ledger is unchanged, also when only the note fails and the version is stored. |
| `Client.BackupNotes` | crates/pivss-client/src/main.rs:315-337 | In any reachable world the same holds of the entry noted, and the backup succeeds exactly when note and files can be written, the size is admitted and the next version is free. |
| `Client.EntryReproducesUpload` | crates/pivss-client/src/main.rs:170-188 | While the file is unchanged its ledger entry reproduces the uploaded bytes exactly; without the file or a needed passphrase it reproduces none. |
| `Client.LocalBytesDetermineFile` | crates/pivss-client/src/main.rs:170-188 | Two contents of the file that reproduce the same bytes are the same. |
| `Client.Client.Restore` | crates/pivss-client/src/main.rs:351-382 | A restore goes through the listing, the stored bytes and the envelope check. |
| `Client.RestoresFromTheLog` | crates/pivss-client/src/main.rs:351-382 | It returns what the log holds: the latest version by default, any logged version on request, nothing for an unknown series. |
| `Client.RestoresTheUpload` | crates/pivss-client/src/main.rs:351-382 | What is returned for a logged version is the uploaded data itself unless it starts with PIVSS1; then the passphrase is needed and the envelope is opened or refused. |
| `Client.LatestRestoredAmid` | crates/pivss-client/src/main.rs:351-370 | With other steps between its calls, a restore without a version returns what was latest at some moment of the listing, as stored or opened if it starts with PIVSS1; its data is never missing, and an unknown series is not restored. |
| `Client.VersionRestoredAmid` | crates/pivss-client/src/main.rs:351-370 | With other steps between its calls, a restore of a version committed before it began returns that version, as stored or opened if it starts with PIVSS1. |
| `Client.EncryptedPathCloses` | crates/pivss-client/src/main.rs:274-382 | Once an encrypted upload is committed, a restore of its version at any later time, through listing, read and envelope with other steps in between, gives the file back to whoever has the passphrase. |
| `Watch.RunWatch` | crates/pivss-client/src/main.rs:452-509 | With a positive number of rounds the loop ends after exactly that many. |
| `Watch.RoundPaysExactly` | crates/pivss-client/src/main.rs:454-504 | A payment is attempted in a round exactly when the client reproduces its bytes and they are those of the version latest at the server's manifest read; it is for the ledger's quote. It ends in an error exactly when one of the two has no bytes at all. |
| `Watch.RoundRecordsAttempt` | crates/pivss-client/src/main.rs:487-492 | What the server records in a round belongs to an attempt of that round and has its amount. |
| `Watch.RoundRecordsExactly` | crates/pivss-client/src/main.rs:487-492 | An attempt is recorded exactly when the server has no wallet and the payment id is free at the write, and then with method "mock", the quote, the server's clock and the note. |
| `Watch.RoundChallengeHolds` | crates/pivss-client/src/lib.rs:186-201 | Every round asks for three ranges of the client's own bytes, unless there are none, with its own nonce. |
| `Watch.RoundIsRun` | crates/pivss-client/src/lib.rs:186-201 | A round is a run of the transition system: its reads change nothing. |
| `Watch.WatchPaysExactly` | crates/pivss-client/src/main.rs:441-510 | Over any watch interleaved with uploads every round pays exactly when it should; recorded payments are at most the rounds whose proof checked out, each is for the quote and still in the store at the end, and no two share an id. |
| `Watch.WatchPaysTheQuote` | crates/pivss-client/src/main.rs:441-510 | From a backup to its watch: a ledger entry noted by a backup makes every attempt pay Mebibytes of what was sent times price times 1000, while that fits in 64 bits. |
| `Bencode.EncodeRoundTrip` | crates/pivss-core/src/torrent.rs:11-41 | A strict parser of bencoded data returns the tree that was encoded and leaves what follows it. |
| `Bencode.ParseCanonical` | crates/pivss-core/src/torrent.rs:11-41 | Whatever parses is the encoding of the tree it parses to, with increasing keys: there is one spelling per tree. |
| `Bencode.Bencoder.Str` | crates/pivss-core/src/torrent.rs:21-29 | The writer appends the length-prefixed string. |
| `Torrent.HashPieces` | crates/pivss-core/src/torrent.rs:56-63 | The loop over chunks yields the hashes of the pieces in order, and one hash for an empty file. |
| `Torrent.ChunksPartition` | crates/pivss-core/src/torrent.rs:58-60 | The pieces concatenate to the data; all but the last are 256 KiB and none is empty. |
| `Torrent.PiecesLength` | crates/pivss-core/src/torrent.rs:56-63 | The pieces string has 20 bytes for every piece and 20 for the empty file. |
| `Torrent.PieceCountMatches` | crates/pivss-core/src/torrent.rs:61-63 | One hash per piece, as BEP 3 wants, holds of every file except the empty one. |
| `Torrent.OriginalAccepted` | crates/pivss-core/src/torrent.rs:65-76 | A downloader checking length and piece hashes accepts the original data. |
| `Torrent.OnlyOriginalAccepted` | crates/pivss-core/src/torrent.rs:65-76 | It accepts nothing else, unless two pieces collide under SHA-1. |
| `Torrent.MetainfoWellFormed` | crates/pivss-core/src/torrent.rs:65-106 | Both dictionaries have strictly increasing keys, for every name, data and tracker list. |
| `Torrent.MetainfoParses` | crates/pivss-core/src/torrent.rs:55-119 | A strict parser consumes the whole metainfo and returns the intended tree; re-encoding its info value gives the bytes the infohash was taken over. |
| `Torrent.TorrentDescribesFile` | crates/pivss-core/src/torrent.rs:55-119 | The parsed file has the keys of BEP 3: in "info" the "length" of the data, the "name", "piece length" 262144 and "pieces" that accept the data and nothing else without a collision; "announce" and "announce-list" with each tracker in a tier of its own, or neither. |
| `Torrent.InfoSpan` | crates/pivss-core/src/torrent.rs:98-106 | The info bytes stand in the file right after their encoded key and end one byte before its end. |
| `Torrent.NamesSeparateInfohashes` | crates/pivss-core/src/torrent.rs:65-76 | Files of different names have different infohashes, unless their info dictionaries collide under SHA-1. |
| `Torrent.CreateTorrent` | crates/pivss-core/src/torrent.rs:55-119 | The writer produces a metainfo that parses to those fields, the SHA-1 in hex of its info value, and a link that parses to infohash, name and trackers. |
| `Torrent.TorrentLinkParses` | crates/pivss-core/src/torrent.rs:108-112 | The link of a torrent parses back to its infohash, its name and all its trackers. |
| `Magnet.UrlEncode` | crates/pivss-core/src/torrent.rs:121-132 | The encoding loop computes the percent-encoding of every byte string. |
| `Magnet.UrlEncodeRoundTrip` | crates/pivss-core/src/torrent.rs:121-132 | Percent-decoding undoes it, and its output has only unreserved characters and `%`. |
| `Magnet.EncodesEachByte` | crates/pivss-core/src/torrent.rs:121-132 | Letters, digits and `-_.~` are copied, every other byte becomes `%` and two upper-case hex digits. |
| `Magnet.OutputCharacters` | crates/pivss-core/src/torrent.rs:121-132 | Nothing but those characters and `%` is in the output. |
| `Magnet.MagnetRoundTrip` | crates/pivss-core/src/torrent.rs:108-112 | A link splits back into infohash, name and the whole tracker list. |
| `Magnet.LinkText` | crates/pivss-core/src/torrent.rs:108-112 | The link is spelled `magnet:?xt=urn:btih:`, infohash, `&dn=`, name, and `&tr=` with each tracker. |
| `Magnet.MagnetInjective` | crates/pivss-core/src/torrent.rs:108-112 | Distinct infohash, name or trackers give distinct links. |
| `Discover.MergeAnswers` | crates/pivss-client/src/discover.rs:32-58 | The nested loops compute the fold of all received events, in order. |
| `Discover.EveryEventReceived` | crates/pivss-client/src/discover.rs:34-45 | The events merged are those of the relays that answered, all of them, in order, and no others. |
| `Discover.MergeKeepsNewest` | crates/pivss-client/src/discover.rs:46-56 | A key is kept exactly when it has a verified event, and what is kept is the first of its newest ones. |
| `Discover.SeenOnRelays` | crates/pivss-client/src/discover.rs:46-56 | Next to a kept event stand the relays of all verified events of its key, in order of arrival. |
| `Discover.MergeIgnoresOrder` | crates/pivss-client/src/discover.rs:34-58 | If no two verified events of a key share its newest time, what is kept does not depend on the order of relays or events, on repetition, or on forged events. |
| `Discover.OrderIgnoredExactly` | crates/pivss-client/src/discover.rs:34-58 | Order does not matter for a key if and only if its newest time belongs to one verified event. |
| `Discover.DiscoverProviders` | crates/pivss-client/src/discover.rs:60-77 | The output has one provider for each key whose kept event decodes, and no other, each with that event's announcement and time and the relays it was seen on, with non-decreasing prices. |
| `Settings.CleanRelays` | crates/pivss-server/src/state.rs:181-201 | The relay list is refused exactly when a non-blank entry has another scheme; otherwise blanks and repetitions are dropped and order is kept. |
| `Settings.TrimSplits` | crates/pivss-server/src/state.rs:181-187 | A text is white space, its trimmed form and white space; the trimmed form neither begins nor ends with any. |
| `Settings.ValidationLimits` | crates/pivss-server/src/state.rs:156-221 | Each field of a patch is judged by itself: price from 1, period from 60, size from 1024 to 536870912, name up to 100 and description up to 500 bytes and not blank, relays with scheme ws or wss, an offer only without a wallet. |
| `Settings.CleanedUnique` | crates/pivss-server/src/state.rs:181-201 | That description determines the cleaned list. |
| `Settings.PatchKeepsConfigOk` | crates/pivss-server/src/state.rs:224-248 | A valid patch keeps price, period, size limit, relays, name and description within their bounds. |
| `Settings.PatchRunKeepsConfigOk` | crates/pivss-server/src/state.rs:156-264 | So does every run of patches from a valid configuration. |
| `Seeding.CarlSeeder.Seed` | crates/pivss-server/src/seeder.rs:98-131 | Each seed is given the base port plus the number of children; it becomes a child exactly when its process starts, and its status is added. |
| `Seeding.SeedKeepsPortsApart` | crates/pivss-server/src/seeder.rs:98-114 | While ports are left, a started seed keeps the children at different consecutive ports if and only if its torrent is new; when none is left a new one breaks this. |
| `Seeding.DistinctTorrentsDistinctPorts` | crates/pivss-server/src/seeder.rs:98-119 | From any such children, seeds of distinct new torrents give those that start consecutive, hence different, ports. |
| `Seeding.UploadsSeedApart` | crates/pivss-server/src/state.rs:336-340 | Over any run of uploads, in whatever order created versions are seeded and whichever seeds start, the children have different consecutive ports while ports last, or two info dictionaries collide under SHA-1. |
| `Seeding.ReseedingSharesPort` | crates/pivss-server/src/seeder.rs:99-114 | From any such children, a torrent seeded again is not counted twice and the next new torrent gets its port; uploads never do this. |

## Left out

- HTTP routing and status codes, web pages, command-line parsing and printing: plumbing around the modelled calls.
- The breez-sdk wallet and BOLT12 offers: only the stream of incoming payments is modelled; what a real payment does at the wallet is outside the program.
- Nostr signing and relay connections: discovery starts from the answers the relays gave.
- The remote VSS store inside the protocol: each listing and each read or write is one atomic step there, as in the in-memory store; a listing fetched page by page while others write is not modelled.
- Wrap-around of the store's signed 64-bit version counters and of manifest version numbers: unreachable in practice.
- Time: clock readings are arbitrary, so nothing is claimed of creation and update times beyond which upload they come from.
- Concurrent port choice in the seeder, which counts and inserts under separate locks: seeds are taken one at a time.
- File contents under the seeds directory and the saved configuration: only whether writing them succeeded.
- The file a restore writes, and a ledger file left half written: a save that fails leaves the old ledger.
- `AppState::announcement`, `settings_view` and the info page: field copies and sums.
- Seed statuses returned by an upload: only the receipt of manifest, version and quote is modelled.
- Real-wallet payments of the pay loop: the amount sent is covered by `Manifest.SatsPayTheQuote`; the loop models the mock endpoint.
