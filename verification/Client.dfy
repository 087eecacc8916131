/**
  The client (crates/pivss-client/src/main.rs): its ledger, backing up and
  restoring, and reproducing the uploaded bytes from the local file.
 */
module Client {
  import opened Bytes
  import opened Wrappers
  import opened Keys
  import opened Ordering
  import opened Manifest
  import opened Crypto
  import opened Uploads
  import opened UploadRuns
  import opened Payments
  import opened Service

  datatype ClientError =
    | NotInLedger
    | FileUnreadable
    | PassphraseNeeded
    | EnvelopeFailed(error: CryptoError)
    | Server(reason: ServiceError)
    | LedgerNotSaved

  datatype LedgerEntry = LedgerEntry(backupId: Bytes, filename: Bytes, kind: BackupKind, sha256: Bytes,
                                     latestVersion: nat, quoteMsat: nat,
                                     encrypted: bool, saltHex: string, nonceHex: string)

  /** The bytes that were uploaded for an entry, reproduced from the file as it is now. */
  function LocalStoredBytes(c: Cipher, entry: LedgerEntry, file: Option<Bytes>, passphrase: Option<Bytes>)
    : Result<Bytes, ClientError>
  {
    if file.None? then Err(FileUnreadable)
    else if !entry.encrypted then Ok(file.value)
    else if passphrase.None? then Err(PassphraseNeeded)
    else match EncryptWith(c, passphrase.value, entry.saltHex, entry.nonceHex, file.value)
      case Ok(e) => Ok(e)
      case Err(e) => Err(EnvelopeFailed(e))
  }

  /** What `backup` uploads for a payload. */
  function Uploaded(c: Cipher, passphrase: Option<Bytes>, salt: Bytes, nonce: Bytes, payload: Bytes): Result<Bytes, CryptoError> {
    if passphrase.None? then Ok(payload) else Envelope(c, passphrase.value, salt, nonce, payload)
  }

  /** The entry written for an upload that was received. */
  function EntryFor(sha256: Hash, filename: Bytes, kind: BackupKind, encrypted: bool, salt: Bytes, nonce: Bytes,
                    uploaded: Bytes, receipt: Receipt): LedgerEntry
  {
    LedgerEntry(receipt.manifest.backupId, filename, kind, HexEncode(sha256(uploaded)),
                receipt.stored.version, receipt.quoteMsat, encrypted,
                if encrypted then HexEncode(salt) else [], if encrypted then HexEncode(nonce) else [])
  }

  /** What the client reports and the ledger it leaves, from the server's answer to an upload. */
  function AfterUpload(entries: map<Bytes, LedgerEntry>, response: Result<Receipt, ServiceError>, noted: bool,
                       sha256: Hash, filename: Bytes, kind: BackupKind, encrypted: bool, salt: Bytes, nonce: Bytes,
                       uploaded: Bytes): (Result<Receipt, ClientError>, map<Bytes, LedgerEntry>)
  {
    match response
    case Err(e) => (Err(Server(e)), entries)
    case Ok(receipt) =>
      if !noted then (Err(LedgerNotSaved), entries)
      else (Ok(receipt), entries[receipt.manifest.backupId :=
              EntryFor(sha256, filename, kind, encrypted, salt, nonce, uploaded, receipt)])
  }

  /** While the file is unchanged, its ledger entry reproduces the uploaded bytes exactly. */
  lemma EntryReproducesUpload(c: Cipher, sha256: Hash, filename: Bytes, kind: BackupKind,
                              passphrase: Option<Bytes>, salt: Bytes, nonce: Bytes, payload: Bytes, receipt: Receipt)
    requires |salt| == SALT_LEN && |nonce| == NONCE_LEN
    requires Uploaded(c, passphrase, salt, nonce, payload).Ok?
    ensures var sent := Uploaded(c, passphrase, salt, nonce, payload).value;
            LocalStoredBytes(c, EntryFor(sha256, filename, kind, passphrase.Some?, salt, nonce, sent, receipt),
                             Some(payload), passphrase) == Ok(sent)
    ensures var entry := EntryFor(sha256, filename, kind, passphrase.Some?, salt, nonce,
                                  Uploaded(c, passphrase, salt, nonce, payload).value, receipt);
            && LocalStoredBytes(c, entry, None, passphrase) == Err(FileUnreadable)
            && (passphrase.Some? ==> LocalStoredBytes(c, entry, Some(payload), None) == Err(PassphraseNeeded))
  {
    HexReadsBack(salt);
    HexReadsBack(nonce);
  }

  /** The reproduced bytes determine the file: a changed one reproduces something else. */
  lemma LocalBytesDetermineFile(c: Cipher, entry: LedgerEntry, f1: Bytes, f2: Bytes, passphrase: Option<Bytes>)
    requires Invertible(c)
    requires LocalStoredBytes(c, entry, Some(f1), passphrase).Ok?
    requires LocalStoredBytes(c, entry, Some(f1), passphrase) == LocalStoredBytes(c, entry, Some(f2), passphrase)
    ensures f1 == f2
  {
    if entry.encrypted {
      var salt, nonce := HexDecode(entry.saltHex).value, HexDecode(entry.nonceHex).value;
      EnvelopeRoundTrip(c, passphrase.value, salt, nonce, f1);
      EnvelopeRoundTrip(c, passphrase.value, salt, nonce, f2);
    }
  }

  /**
    What a successful backup leaves in the ledger: one entry, under the series' id,
    that tells of the upload, of the version it became and of its quote, and how to
    reproduce an envelope; all other entries stay.
   */
  ghost predicate NotesUpload(env: Env, logs: Logs, before: map<Bytes, LedgerEntry>, after: map<Bytes, LedgerEntry>, up: Upload,
                              encrypted: bool, salt: Bytes, nonce: Bytes)
  {
    var id := IdOf(env, up);
    && id in after && after == before[id := after[id]]
    && var entry := after[id];
    && entry.backupId == id && entry.filename == up.filename && entry.kind == up.kind
    && entry.sha256 == HexEncode(env.sha256(up.data)) && entry.latestVersion == |Series(logs, id)|
    && entry.encrypted == encrypted
    && (encrypted ==> HexDecode(entry.saltHex) == Some(salt) && HexDecode(entry.nonceHex) == Some(nonce))
    && entry.quoteMsat == Mebibytes(|up.data|) * up.config.priceSatsPerMib * 1000 % 18446744073709551616
  }

  lemma EntryNotes(env: Env, w: World, logs: Logs, before: map<Bytes, LedgerEntry>, up: Upload, receipt: Receipt,
                   encrypted: bool, salt: Bytes, nonce: Bytes)
    requires ReceiptTells(env, w.logs, up, receipt)
    requires |Series(logs, IdOf(env, up))| == |Series(w.logs, IdOf(env, up))| + 1
    ensures var (r, after) := AfterUpload(before, Ok(receipt), true, env.sha256, up.filename, up.kind, encrypted, salt, nonce, up.data);
            r == Ok(receipt) && NotesUpload(env, logs, before, after, up, encrypted, salt, nonce)
  {
    HexReadsBack(salt);
    HexReadsBack(nonce);
  }

  /** A backup changes the ledger exactly if the upload succeeded and could be noted, and then notes that upload. */
  lemma BackupNotes(env: Env, w: World, t: nat, up: Upload, filesWritten: bool, noted: bool, before: map<Bytes, LedgerEntry>,
                    encrypted: bool, salt: Bytes, nonce: Bytes)
    requires Good(env, w) && t !in w.s.uploaders
    ensures var id := IdOf(env, up); var response := Stored(env, w.s.store, up, filesWritten).0;
            var (r, after) := AfterUpload(before, response, noted, env.sha256, up.filename, up.kind, encrypted, salt, nonce, up.data);
            && (r.Ok? <==> noted && filesWritten && |up.data| <= up.config.maxBackupBytes
                           && Data(id, |Series(w.logs, id)| + 1) !in w.s.store)
            && if r.Ok? then NotesUpload(env, Run(env, w, Script(t, up, filesWritten)).logs, before, after, up, encrypted, salt, nonce)
               else after == before
  {
    UploadSucceedsExactly(env, w, t, up, filesWritten);
    var response := Stored(env, w.s.store, up, filesWritten).0;
    if response.Ok? {
      EntryNotes(env, w, Run(env, w, Script(t, up, filesWritten)).logs, before, up, response.value, encrypted, salt, nonce);
    }
  }

  /** What was uploaded with a passphrase is restored by it. */
  lemma UploadRestores(c: Cipher, passphrase: Bytes, salt: Bytes, nonce: Bytes, payload: Bytes)
    requires |salt| == SALT_LEN && |nonce| == NONCE_LEN && Invertible(c)
    requires Uploaded(c, Some(passphrase), salt, nonce, payload).Ok?
    ensures Restored(c, Some(passphrase), Uploaded(c, Some(passphrase), salt, nonce, payload).value) == Ok(payload)
  {
    EnvelopeRoundTrip(c, passphrase, salt, nonce, payload);
  }

  function FindBackup(manifests: seq<BackupManifest>, id: Bytes): Option<BackupManifest> {
    if manifests == [] then None
    else if manifests[0].backupId == id then Some(manifests[0])
    else FindBackup(manifests[1..], id)
  }

  lemma {:induction false} FindBackupFinds(manifests: seq<BackupManifest>, id: Bytes)
    ensures FindBackup(manifests, id).Some? <==> exists m :: m in manifests && m.backupId == id
    ensures FindBackup(manifests, id).Some? ==>
              FindBackup(manifests, id).value in manifests && FindBackup(manifests, id).value.backupId == id
  {
    if manifests != [] {
      FindBackupFinds(manifests[1..], id);
      if m :| m in manifests && m.backupId == id {
        assert m == manifests[0] || m in manifests[1..];
      }
    }
  }

  /** Each listed manifest is its series', under the series' own id. */
  lemma ListedSeries(env: Env, db: KeyStore, logs: Logs, ids: seq<string>)
    requires Means(env, db, logs) && MetaListing(db, ids)
    ensures |ReadManifests(env, db, ids)| == |ids|
    ensures forall i :: 0 <= i < |ids| ==>
              && Series(logs, ids[i]) != []
              && ReadManifests(env, db, ids)[i] == ManifestOf(env, Series(logs, ids[i]))
              && ReadManifests(env, db, ids)[i].backupId == ids[i]
  {
    forall i | 0 <= i < |ids| ensures Series(logs, ids[i]) != [] {
      assert ids[i] in ids;
      assert SeriesOk(env, db, ids[i], Series(logs, ids[i]));
    }
    ManifestsAreTheLogs(env, db, logs, ids);
    forall i | 0 <= i < |ids| ensures ManifestOf(env, Series(logs, ids[i])).backupId == ids[i] {
      var log := Series(logs, ids[i]);
      assert SeriesOk(env, db, ids[i], log);
      ManifestRecordsLog(env, IdOf(env, log[0].upload), log);
    }
  }

  lemma ListedIsCurrent(env: Env, db: KeyStore, logs: Logs, ids: seq<string>, id: Bytes, m: BackupManifest)
    requires Means(env, db, logs) && MetaListing(db, ids)
    requires m in ReadManifests(env, db, ids) && m.backupId == id
    ensures Series(logs, id) != [] && m == ManifestOf(env, Series(logs, id))
  {
    ListedSeries(env, db, logs, ids);
    var i :| 0 <= i < |ids| && ReadManifests(env, db, ids)[i] == m;
  }

  lemma SeriesListed(env: Env, db: KeyStore, logs: Logs, ids: seq<string>, id: Bytes)
    requires Means(env, db, logs) && MetaListing(db, ids) && Series(logs, id) != []
    ensures exists m :: m in ReadManifests(env, db, ids) && m.backupId == id
  {
    assert SeriesOk(env, db, id, Series(logs, id));
    ListedSeries(env, db, logs, ids);
    var i :| 0 <= i < |ids| && ids[i] == id;
    assert ReadManifests(env, db, ids)[i] in ReadManifests(env, db, ids);
  }

  lemma SortedSameMembers(manifests: seq<BackupManifest>)
    ensures forall m :: m in SortBy(manifests, Newest) <==> m in manifests
  {
    SortByIsStableSort(manifests, Newest);
    assert forall m :: m in SortBy(manifests, Newest) <==> m in multiset(SortBy(manifests, Newest));
    assert forall m :: m in manifests <==> m in multiset(manifests);
  }

  /** The listing a client fetches holds a series' current manifest, or none if the series does not exist. */
  lemma ListingFindsSeries(env: Env, db: KeyStore, logs: Logs, ids: seq<string>, id: Bytes)
    requires Means(env, db, logs) && MetaListing(db, ids)
    ensures FindBackup(SortBy(ReadManifests(env, db, ids), Newest), id) ==
            if Series(logs, id) == [] then None else Some(ManifestOf(env, Series(logs, id)))
  {
    var sorted := SortBy(ReadManifests(env, db, ids), Newest);
    SortedSameMembers(ReadManifests(env, db, ids));
    FindBackupFinds(sorted, id);
    if FindBackup(sorted, id).Some? {
      ListedIsCurrent(env, db, logs, ids, id, FindBackup(sorted, id).value);
    } else if Series(logs, id) != [] {
      SeriesListed(env, db, logs, ids, id);
    }
  }

  function RestoreOutcome(c: Cipher, passphrase: Option<Bytes>, data: Bytes): Result<Bytes, ClientError> {
    match Restored(c, passphrase, data)
    case Ok(plain) => Ok(plain)
    case Err(NeedsPassphrase) => Err(PassphraseNeeded)
    case Err(Crypto(e)) => Err(EnvelopeFailed(e))
  }

  /**
    What restored bytes have to be: those stored, unless they start with the magic;
    then the passphrase is needed, and they are opened as an envelope or not at all.
   */
  ghost predicate RestoresAs(c: Cipher, passphrase: Option<Bytes>, data: Bytes, r: Result<Bytes, ClientError>) {
    if !("PIVSS1" <= data) then r == Ok(data)
    else if passphrase.None? then r == Err(PassphraseNeeded)
    else if |data| < 34 then r == Err(EnvelopeFailed(Truncated))
    else match c.derive(passphrase.value, data[6..22])
      case None => r == Err(EnvelopeFailed(Kdf))
      case Some(key) =>
        match c.decrypt(key, data[22..34], data[34..])
        case None => r == Err(EnvelopeFailed(Decryption))
        case Some(plain) => r == Ok(plain)
  }

  lemma OutcomeRestoresAs(c: Cipher, passphrase: Option<Bytes>, data: Bytes)
    ensures RestoresAs(c, passphrase, data, RestoreOutcome(c, passphrase, data))
  {
    EnvelopeMark(data);
    if "PIVSS1" <= data {
      MarkedOpensExactly(c, passphrase, data);
    }
  }

  /** What a client makes of the listing's answer and of the store it then reads from. */
  function Fetched(c: Cipher, found: Option<BackupManifest>, db: KeyStore, backupId: Bytes, version: Option<nat>,
                   passphrase: Option<Bytes>): Result<Bytes, ClientError>
  {
    match found
    case None => Err(Server(NotFound))
    case Some(m) =>
      match GetBackupData(db, backupId, if version.Some? then version.value else m.latestVersion)
      case Err(e) => Err(Server(e))
      case Ok(data) => RestoreOutcome(c, passphrase, data)
  }

  /** A restore against a server that lists these series. */
  function RestoredFrom(c: Cipher, env: Env, db: KeyStore, ids: seq<string>, backupId: Bytes, version: Option<nat>,
                        passphrase: Option<Bytes>): Result<Bytes, ClientError>
  {
    Fetched(c, FindBackup(SortBy(ReadManifests(env, db, ids), Newest), backupId), db, backupId, version, passphrase)
  }

  /** A restore returns what the log holds: the latest version if none is named, an unknown series not at all. */
  lemma RestoresFromTheLog(c: Cipher, env: Env, db: KeyStore, logs: Logs, ids: seq<string>,
                           backupId: Bytes, version: Option<nat>, passphrase: Option<Bytes>)
    requires Means(env, db, logs) && MetaListing(db, ids)
    ensures var log := Series(logs, backupId); var v := if version.Some? then version.value else |log|;
            var r := RestoredFrom(c, env, db, ids, backupId, version, passphrase);
            && (log == [] ==> r == Err(Server(NotFound)))
            && (log != [] && 1 <= v <= |log| ==> r == RestoreOutcome(c, passphrase, log[v - 1].upload.data))
            && (log != [] && (v == 0 || v > |log| + 1) ==> r == Err(Server(NotFound)))
  {
    var log := Series(logs, backupId);
    ListingFindsSeries(env, db, logs, ids, backupId);
    assert SeriesOk(env, db, backupId, log);
    if log != [] {
      SnapshotLatest(env, log, log[0].upload);
    }
  }

  /** So a restore gives back the bytes uploaded as that version, opened if they are marked as an envelope. */
  lemma RestoresTheUpload(c: Cipher, env: Env, db: KeyStore, logs: Logs, ids: seq<string>,
                          backupId: Bytes, version: Option<nat>, passphrase: Option<Bytes>)
    requires Means(env, db, logs) && MetaListing(db, ids)
    requires var v := if version.Some? then version.value else |Series(logs, backupId)|; 1 <= v <= |Series(logs, backupId)|
    ensures var v := if version.Some? then version.value else |Series(logs, backupId)|;
            RestoresAs(c, passphrase, Series(logs, backupId)[v - 1].upload.data,
                       RestoredFrom(c, env, db, ids, backupId, version, passphrase))
  {
    var v := if version.Some? then version.value else |Series(logs, backupId)|;
    RestoresFromTheLog(c, env, db, logs, ids, backupId, version, passphrase);
    OutcomeRestoresAs(c, passphrase, Series(logs, backupId)[v - 1].upload.data);
  }

  class Client {
    const cipher: Cipher
    /** The ledger as saved. */
    var entries: map<Bytes, LedgerEntry>

    constructor (cipher: Cipher)
      ensures this.cipher == cipher && entries == map[]
    {
      this.cipher, entries := cipher, map[];
    }

    /** What to upload for a payload, with the salt and nonce to note. */
    method Seal(payload: Bytes, passphrase: Option<Bytes>, salt: Bytes, nonce: Bytes)
      returns (r: Result<(Bytes, Bytes, Bytes), CryptoError>)
      requires |salt| == SALT_LEN && |nonce| == NONCE_LEN
      ensures r == match Uploaded(cipher, passphrase, salt, nonce, payload)
                   case Err(e) => Err(e)
                   case Ok(sent) => Ok((sent, if passphrase.Some? then HexEncode(salt) else [],
                                        if passphrase.Some? then HexEncode(nonce) else []))
    {
      if passphrase.None? {
        return Ok((payload, [], []));
      }
      r := Encrypt(cipher, passphrase.value, payload, salt, nonce);
    }

    /**
      Upload a file, encrypted first if there is a passphrase, and note it in the
      ledger. `noted` says whether the file's path could be resolved and the
      ledger saved; if not, the version is stored and the ledger does not know it.
      What is sent is one more upload of the server's run, by `owner`.
     */
    method Backup(server: AppState, file: Option<Bytes>, filename: Bytes, kind: BackupKind, labelText: string,
                  passphrase: Option<Bytes>, salt: Bytes, nonce: Bytes, now: nat, filesWritten: bool, noted: bool)
      returns (r: Result<Receipt, ClientError>, ghost owner: nat)
      requires server.Valid() && BuiltOn(server.env, server.sha1)
      requires |salt| == SALT_LEN && |nonce| == NONCE_LEN
      modifies this`entries, server`db, server`world, server.store
      ensures server.Valid()
      ensures file.None? ==>
              r == Err(FileUnreadable) && entries == old(entries) && server.world == old(server.world) && server.db == old(server.db)
      ensures file.Some? ==>
              match Uploaded(cipher, passphrase, salt, nonce, file.value)
              case Err(e) =>
                && r == Err(EnvelopeFailed(e)) && entries == old(entries)
                && server.world == old(server.world) && server.db == old(server.db)
              case Ok(sent) =>
                var up := Upload(filename, kind, labelText, sent, now,
                  UploadConfig(server.config.maxBackupBytes, server.config.priceSatsPerMib, server.config.trackers));
                var (response, db) := Stored(server.env, old(server.db), up, filesWritten);
                && server.db == db && owner !in old(server.world).s.uploaders
                && server.world == Run(server.env, old(server.world), Script(owner, up, filesWritten))
                && (r, entries) == AfterUpload(old(entries), response, noted, server.env.sha256, filename, kind,
                                               passphrase.Some?, salt, nonce, sent)
                && if r.Ok? then NotesUpload(server.env, server.world.logs, old(entries), entries, up, passphrase.Some?, salt, nonce)
                   else entries == old(entries)
    {
      if file.None? {
        return Err(FileUnreadable), 0;
      }
      var sealed := Seal(file.value, passphrase, salt, nonce);
      if sealed.Err? {
        return Err(EnvelopeFailed(sealed.error)), 0;
      }
      var (sent, saltHex, nonceHex) := sealed.value;
      var sha256 := HexEncode(server.env.sha256(sent));
      ghost var before := server.world;
      ghost var up := Upload(filename, kind, labelText, sent, now,
        UploadConfig(server.config.maxBackupBytes, server.config.priceSatsPerMib, server.config.trackers));
      var response, upload := server.StoreBackup(filename, kind, labelText, sent, now, filesWritten);
      owner := upload;
      BackupNotes(server.env, before, owner, up, filesWritten, noted, entries, passphrase.Some?, salt, nonce);
      if response.Err? {
        return Err(Server(response.error)), owner;
      }
      if !noted {
        return Err(LedgerNotSaved), owner;
      }
      var receipt := response.value;
      entries := entries[receipt.manifest.backupId :=
        LedgerEntry(receipt.manifest.backupId, filename, kind, sha256, receipt.stored.version, receipt.quoteMsat,
                    passphrase.Some?, saltHex, nonceHex)];
      r := Ok(receipt);
    }

    /** Fetch a version, the latest by default, and undo the envelope if it is one. */
    method Restore(server: AppState, backupId: Bytes, version: Option<nat>, passphrase: Option<Bytes>)
      returns (r: Result<Bytes, ClientError>)
      requires server.Valid()
      ensures exists ids :: MetaListing(server.db, ids) &&
                r == RestoredFrom(cipher, server.env, server.db, ids, backupId, version, passphrase)
    {
      var manifests := server.ListBackups();
      var found := FindBackup(manifests, backupId);
      if found.None? {
        return Err(Server(NotFound));
      }
      var v := if version.Some? then version.value else found.value.latestVersion;
      var data := server.ReadBackupData(backupId, v);
      if data.Err? {
        return Err(Server(data.error));
      }
      r := RestoreOutcome(cipher, passphrase, data.value);
    }
  }

  // ------------------------------------------------- restores under interleaving

  /** What a listing shows of a series, with steps of others between its reads. */
  function FoundAmid(env: Env, w: World, ids: seq<string>, between: seq<seq<Action>>, id: Bytes): Option<BackupManifest>
    requires |between| == |ids|
  {
    FindBackup(SortBy(Scan(env, w, ids, between), Newest), id)
  }

  /** A restore whose listing, reads of manifests and read of data are apart, with steps of others in between. */
  function RestoredAmid(c: Cipher, env: Env, w: World, ids: seq<string>, between: seq<seq<Action>>, after: seq<Action>,
                        backupId: Bytes, version: Option<nat>, passphrase: Option<Bytes>): Result<Bytes, ClientError>
    requires |between| == |ids|
  {
    Fetched(c, FoundAmid(env, w, ids, between, backupId), Run(env, RunAll(env, w, between), after).s.store,
            backupId, version, passphrase)
  }

  /** These bytes were the latest version of the series at some moment from `w` to `end`. */
  ghost predicate LatestBetween(w: World, end: World, id: string, data: Bytes) {
    exists log: Log :: log != [] && Series(w.logs, id) <= log && log <= Series(end.logs, id) && data == log[|log| - 1].upload.data
  }

  lemma FindInListing(env: Env, w: World, end: World, out: seq<BackupManifest>, id: Bytes)
    requires ListsSeries(env, w, end, out)
    ensures FindBackup(out, id).None? <==> Series(w.logs, id) == []
    ensures FindBackup(out, id).Some? ==> HadBetween(env, w, end, id, FindBackup(out, id).value)
  {
    FindBackupFinds(out, id);
  }

  lemma FoundAmidListing(env: Env, w: World, ids: seq<string>, between: seq<seq<Action>>, id: Bytes)
    requires Good(env, w) && MetaListing(w.s.store, ids) && |between| == |ids|
    ensures var found := FoundAmid(env, w, ids, between, id);
            && (found.None? <==> Series(w.logs, id) == [])
            && (found.Some? ==> HadBetween(env, w, RunAll(env, w, between), id, found.value))
  {
    ListingUnderInterleaving(env, w, ids, between);
    FindInListing(env, w, RunAll(env, w, between), SortBy(Scan(env, w, ids, between), Newest), id);
  }

  lemma LoggedDataReadable(env: Env, end: World, after: seq<Action>, id: Bytes, log: Log)
    requires Good(env, end) && log != [] && log <= Series(end.logs, id)
    ensures GetBackupData(Run(env, end, after).s.store, id, ManifestOf(env, log).latestVersion) == Ok(log[|log| - 1].upload.data)
  {
    SnapshotLatest(env, log, log[0].upload);
    LoggedDataStays(env, end, after, id, |log|);
  }

  /** The data of a version listed at some moment is there at any later one. */
  lemma ListedDataReadable(env: Env, w: World, end: World, after: seq<Action>, id: Bytes, m: BackupManifest) returns (data: Bytes)
    requires Good(env, end) && HadBetween(env, w, end, id, m)
    ensures LatestBetween(w, end, id, data)
    ensures GetBackupData(Run(env, end, after).s.store, id, m.latestVersion) == Ok(data)
  {
    var log: Log :| log != [] && Series(w.logs, id) <= log && log <= Series(end.logs, id) && m == ManifestOf(env, log);
    data := log[|log| - 1].upload.data;
    LoggedDataReadable(env, end, after, id, log);
  }

  lemma CommittedDataReadable(env: Env, w: World, between: seq<seq<Action>>, after: seq<Action>, id: Bytes, v: nat)
    requires Good(env, w) && 1 <= v <= |Series(w.logs, id)|
    ensures GetBackupData(Run(env, RunAll(env, w, between), after).s.store, id, v) == Ok(Series(w.logs, id)[v - 1].upload.data)
  {
    RunAllRefines(env, w, between, id);
    LoggedDataStays(env, RunAll(env, w, between), after, id, v);
  }

  lemma FoundDataReadable(env: Env, w: World, between: seq<seq<Action>>, after: seq<Action>, id: Bytes, m: BackupManifest)
    returns (data: Bytes)
    requires Good(env, w) && HadBetween(env, w, RunAll(env, w, between), id, m)
    ensures LatestBetween(w, RunAll(env, w, between), id, data)
    ensures GetBackupData(Run(env, RunAll(env, w, between), after).s.store, id, m.latestVersion) == Ok(data)
  {
    RunAllRefines(env, w, between, id);
    data := ListedDataReadable(env, w, RunAll(env, w, between), after, id, m);
  }

  /**
    A restore of the latest version never misses its data, whatever runs between
    its calls: it returns what was latest at some moment of the listing. An
    unknown series is not restored at all.
   */
  lemma LatestRestoredAmid(c: Cipher, env: Env, w: World, ids: seq<string>, between: seq<seq<Action>>, after: seq<Action>,
                           backupId: Bytes, passphrase: Option<Bytes>) returns (data: Bytes)
    requires Good(env, w) && MetaListing(w.s.store, ids) && |between| == |ids|
    ensures var r := RestoredAmid(c, env, w, ids, between, after, backupId, None, passphrase);
            if Series(w.logs, backupId) == [] then r == Err(Server(NotFound))
            else
              && LatestBetween(w, RunAll(env, w, between), backupId, data)
              && r == RestoreOutcome(c, passphrase, data) && RestoresAs(c, passphrase, data, r)
  {
    FoundAmidListing(env, w, ids, between, backupId);
    var found := FoundAmid(env, w, ids, between, backupId);
    data := [];
    if found.Some? {
      data := FoundDataReadable(env, w, between, after, backupId, found.value);
      OutcomeRestoresAs(c, passphrase, data);
    }
  }

  /** A restore of a version that was committed when it began returns that version, whatever runs between its calls. */
  lemma VersionRestoredAmid(c: Cipher, env: Env, w: World, ids: seq<string>, between: seq<seq<Action>>, after: seq<Action>,
                            backupId: Bytes, v: nat, passphrase: Option<Bytes>)
    requires Good(env, w) && MetaListing(w.s.store, ids) && |between| == |ids|
    requires 1 <= v <= |Series(w.logs, backupId)|
    ensures var r := RestoredAmid(c, env, w, ids, between, after, backupId, Some(v), passphrase);
            var data := Series(w.logs, backupId)[v - 1].upload.data;
            r == RestoreOutcome(c, passphrase, data) && RestoresAs(c, passphrase, data, r)
  {
    OutcomeRestoresAs(c, passphrase, Series(w.logs, backupId)[v - 1].upload.data);
    FoundAmidListing(env, w, ids, between, backupId);
    CommittedDataReadable(env, w, between, after, backupId, v);
  }

  lemma StillCommitted(env: Env, w: World, actions: seq<Action>, id: Bytes, v: nat)
    requires Good(env, w) && 1 <= v <= |Series(w.logs, id)|
    ensures var log' := Series(Run(env, w, actions).logs, id);
            Good(env, Run(env, w, actions)) && v <= |log'| && log'[v - 1] == Series(w.logs, id)[v - 1]
  {
    RunExtends(env, w, actions, id);
  }

  /**
    The encrypted path closes: once an encrypted upload is committed, a restore of
    its version at any later time, with others running between its calls, gives the
    file back to whoever has the passphrase.
   */
  lemma EncryptedPathCloses(c: Cipher, env: Env, w: World, actions: seq<Action>,
                            ids: seq<string>, between: seq<seq<Action>>, after: seq<Action>,
                            id: Bytes, v: nat, passphrase: Bytes, salt: Bytes, nonce: Bytes, payload: Bytes)
    requires Good(env, w) && 1 <= v <= |Series(w.logs, id)| && Invertible(c)
    requires |salt| == SALT_LEN && |nonce| == NONCE_LEN
    requires Uploaded(c, Some(passphrase), salt, nonce, payload) == Ok(Series(w.logs, id)[v - 1].upload.data)
    requires MetaListing(Run(env, w, actions).s.store, ids) && |between| == |ids|
    ensures RestoredAmid(c, env, Run(env, w, actions), ids, between, after, id, Some(v), Some(passphrase)) == Ok(payload)
  {
    StillCommitted(env, w, actions, id, v);
    VersionRestoredAmid(c, env, Run(env, w, actions), ids, between, after, id, v, Some(passphrase));
    UploadRestores(c, passphrase, salt, nonce, payload);
  }
}
