/**
  The backup service (`AppState`, crates/pivss-server/src/state.rs) run one call
  at a time over the in-memory store. Every method is proved to do what the same
  steps do in the transition system; lemmas say what that means for the logs.
 */
module Service {
  import opened Bytes
  import opened Wrappers
  import opened Keys
  import opened Ordering
  import opened Store
  import opened Torrent
  import opened StorageProof
  import opened Manifest
  import opened Uploads
  import opened UploadRuns
  import opened Payments
  import opened Settings

  /** The string-keyed store spells out `db`, and holds nothing else. */
  ghost predicate Rendered(db: KeyStore, contents: map<string, Versioned>) {
    && (forall k: Key :: k in db ==> KeyText(k) in contents && contents[KeyText(k)] == db[k])
    && (forall text :: text in contents ==> exists k: Key :: k in db && KeyText(k) == text)
  }

  lemma RenderedLookup(db: KeyStore, contents: map<string, Versioned>, key: Key)
    requires Rendered(db, contents)
    ensures Lookup(contents, KeyText(key)) == Lookup(db, key)
  {
    if KeyText(key) in contents {
      var k: Key :| k in db && KeyText(k) == KeyText(key);
      KeyTextInjective(k, key);
    }
  }

  /** A write by spelled key is the write by key, since no two keys are spelled alike. */
  lemma RenderedPut(db: KeyStore, contents: map<string, Versioned>, key: Key, version: int, value: Bytes)
    requires Rendered(db, contents)
    ensures PutResult(contents, KeyText(key), version) == PutResult(db, key, version)
    ensures Rendered(PutState(db, key, version, value), PutState(contents, KeyText(key), version, value))
  {
    RenderedLookup(db, contents, key);
    var db' := PutState(db, key, version, value);
    var contents' := PutState(contents, KeyText(key), version, value);
    forall k: Key | k in db' ensures KeyText(k) in contents' && contents'[KeyText(k)] == db'[k] {
      if KeyText(k) == KeyText(key) {
        KeyTextInjective(k, key);
      }
    }
    forall text | text in contents' ensures exists k: Key :: k in db' && KeyText(k) == text {
      if text == KeyText(key) && PutResult(db, key, version).Ok? {
        assert key in db';
      } else {
        var k: Key :| k in db && KeyText(k) == text;
        assert k in db';
      }
    }
  }

  datatype Receipt = Receipt(manifest: BackupManifest, stored: BackupVersion, quoteMsat: nat)

  type Answer = Result<Proof, Panic>

  // ------------------------------------------------------------ specifications

  /** The steps of one upload; it is aborted if a file cannot be written. */
  function Script(t: nat, up: Upload, filesWritten: bool): seq<Action> {
    [Begin(t, up), ReadMeta(t), ClaimData(t), if filesWritten then CommitMeta(t) else Abort(t)]
  }

  function ResultOf(phase: Phase): Result<Receipt, ServiceError> {
    match phase
    case Done(m, stored, quote) => Ok(Receipt(m, stored, quote))
    case Failed(e, _) => Err(e)
    case _ => Err(Internal)
  }

  function StartFrom(env: Env, db: KeyStore, up: Upload): Result<(BackupManifest, int), ServiceError> {
    match GetManifest(env, db, IdOf(env, up))
    case Err(e) => Err(e)
    case Ok(Some(found)) => Ok(found)
    case Ok(None) => Ok((Fresh(env, up), 0))
  }

  function Installed(env: Env, db: KeyStore, up: Upload, m: BackupManifest, v: int): (Result<Receipt, ServiceError>, KeyStore) {
    var id := IdOf(env, up);
    var m' := Extend(env, m, up);
    (if PutResult(db, Meta(id), v).Err? then Err(StoreFailed(Conflict))
     else Ok(Receipt(m', VersionOf(env, id, m.latestVersion + 1, up), QuoteMsat(|up.data|, up.config.priceSatsPerMib))),
     PutState(db, Meta(id), v, env.encodeManifest(m')))
  }

  /** How an upload with nothing else running ends, and the store it leaves. */
  function Stored(env: Env, db: KeyStore, up: Upload, filesWritten: bool): (Result<Receipt, ServiceError>, KeyStore) {
    if |up.data| > up.config.maxBackupBytes then (Err(TooLarge), db)
    else match StartFrom(env, db, up)
      case Err(e) => (Err(e), db)
      case Ok((m, v)) =>
        var key := Data(IdOf(env, up), m.latestVersion + 1);
        var claimed := PutState(db, key, 0, up.data);
        if PutResult(db, key, 0).Err? then (Err(StoreFailed(Conflict)), db)
        else if !filesWritten then (Err(Internal), claimed)
        else Installed(env, claimed, up, m, v)
  }

  /** A world in which upload `t` has come this far, next to these others. */
  function With(others: Uploaders, db: KeyStore, logs: Logs, t: nat, up: Upload, phase: Phase): World {
    World(State(db, others[t := Uploader(up, phase)]), logs)
  }

  lemma ScriptUnrolled(env: Env, w: World, t: nat, up: Upload, filesWritten: bool)
    requires t !in w.s.uploaders
    ensures var begun := With(w.s.uploaders, w.s.store, w.logs, t, up, Admitted(up));
            Run(env, w, Script(t, up, filesWritten)) ==
            StepWorld(env, StepWorld(env, StepWorld(env, begun, ReadMeta(t)), ClaimData(t)),
                      if filesWritten then CommitMeta(t) else Abort(t))
  {
    var last := if filesWritten then CommitMeta(t) else Abort(t);
    assert Script(t, up, filesWritten)[1..] == [ReadMeta(t), ClaimData(t), last];
    RunThree(env, StepWorld(env, w, Begin(t, up)), ReadMeta(t), ClaimData(t), last);
  }

  lemma Advanced(others: Uploaders, t: nat, up: Upload, before: Phase, after: Phase)
    ensures others[t := Uploader(up, before)][t := Uploader(up, after)] == others[t := Uploader(up, after)]
  {}

  lemma ReadsAlone(env: Env, others: Uploaders, db: KeyStore, logs: Logs, t: nat, up: Upload)
    ensures StepWorld(env, With(others, db, logs, t, up, Started), ReadMeta(t))
            == With(others, db, logs, t, up, AfterRead(env, db, up))
  {
    Advanced(others, t, up, Started, AfterRead(env, db, up));
  }

  lemma ClaimsAlone(env: Env, others: Uploaders, db: KeyStore, logs: Logs, t: nat, up: Upload, m: BackupManifest, v: int)
    ensures var key := Data(IdOf(env, up), m.latestVersion + 1);
            StepWorld(env, With(others, db, logs, t, up, HasManifest(m, v)), ClaimData(t)) ==
            With(others, PutState(db, key, 0, up.data), logs, t, up,
                 if PutResult(db, key, 0).Ok? then Claimed(m, v) else Failed(StoreFailed(Conflict), Nothing))
  {
    var key := Data(IdOf(env, up), m.latestVersion + 1);
    Advanced(others, t, up, HasManifest(m, v),
             if PutResult(db, key, 0).Ok? then Claimed(m, v) else Failed(StoreFailed(Conflict), Nothing));
  }

  /** An upload has ended with this result and store, and is in the log exactly if it succeeded. */
  ghost predicate Ended(env: Env, w: World, logs: Logs, t: nat, up: Upload, outcome: (Result<Receipt, ServiceError>, KeyStore)) {
    && t in w.s.uploaders && w.s.uploaders[t].upload == up && Terminal(w.s.uploaders[t].phase)
    && outcome == (ResultOf(w.s.uploaders[t].phase), w.s.store)
    && w.logs == (if outcome.0.Ok? then Append(logs, IdOf(env, up), Commit(t, up)) else logs)
  }

  lemma EndsAlone(env: Env, others: Uploaders, db: KeyStore, logs: Logs, t: nat, up: Upload, m: BackupManifest, v: int,
                  filesWritten: bool)
    ensures Ended(env, StepWorld(env, With(others, db, logs, t, up, Claimed(m, v)), if filesWritten then CommitMeta(t) else Abort(t)),
                  logs, t, up, if filesWritten then Installed(env, db, up, m, v) else (Err(Internal), db))
  {}

  lemma StaysEnded(env: Env, others: Uploaders, db: KeyStore, logs: Logs, t: nat, up: Upload, error: ServiceError, a: Action)
    requires By(a, t) && !a.Begin?
    ensures var w := With(others, db, logs, t, up, Failed(error, Nothing));
            StepWorld(env, w, a) == w && Ended(env, w, logs, t, up, (Err(error), db))
  {}

  lemma ClaimedRun(env: Env, others: Uploaders, db: KeyStore, logs: Logs, t: nat, up: Upload, m: BackupManifest, v: int,
                   filesWritten: bool)
    requires Admitted(up).Started? && AfterRead(env, db, up) == HasManifest(m, v)
    ensures Ended(env, StepWorld(env, StepWorld(env, With(others, db, logs, t, up, HasManifest(m, v)), ClaimData(t)),
                                 if filesWritten then CommitMeta(t) else Abort(t)),
                  logs, t, up, Stored(env, db, up, filesWritten))
  {
    var key := Data(IdOf(env, up), m.latestVersion + 1);
    ClaimsAlone(env, others, db, logs, t, up, m, v);
    if PutResult(db, key, 0).Ok? {
      EndsAlone(env, others, PutState(db, key, 0, up.data), logs, t, up, m, v, filesWritten);
    } else {
      StaysEnded(env, others, db, logs, t, up, StoreFailed(Conflict), if filesWritten then CommitMeta(t) else Abort(t));
    }
  }

  lemma AdmittedRun(env: Env, w: World, t: nat, up: Upload, filesWritten: bool)
    requires Admitted(up).Started?
    ensures var begun := With(w.s.uploaders, w.s.store, w.logs, t, up, Started);
            Ended(env, StepWorld(env, StepWorld(env, StepWorld(env, begun, ReadMeta(t)), ClaimData(t)),
                                 if filesWritten then CommitMeta(t) else Abort(t)),
                  w.logs, t, up, Stored(env, w.s.store, up, filesWritten))
  {
    var others, db, logs := w.s.uploaders, w.s.store, w.logs;
    ReadsAlone(env, others, db, logs, t, up);
    var phase := AfterRead(env, db, up);
    if phase.HasManifest? {
      ClaimedRun(env, others, db, logs, t, up, phase.manifest, phase.metaVersion, filesWritten);
    } else {
      StaysEnded(env, others, db, logs, t, up, phase.error, ClaimData(t));
      StaysEnded(env, others, db, logs, t, up, phase.error, if filesWritten then CommitMeta(t) else Abort(t));
    }
  }

  /** The sequential service takes exactly the steps of the protocol, whatever world it runs in. */
  lemma StoredIsProtocolRun(env: Env, w: World, t: nat, up: Upload, filesWritten: bool)
    requires t !in w.s.uploaders
    ensures Ended(env, Run(env, w, Script(t, up, filesWritten)), w.logs, t, up, Stored(env, w.s.store, up, filesWritten))
  {
    ScriptUnrolled(env, w, t, up, filesWritten);
    if Admitted(up).Started? {
      AdmittedRun(env, w, t, up, filesWritten);
    } else {
      StaysEnded(env, w.s.uploaders, w.s.store, w.logs, t, up, TooLarge, ReadMeta(t));
      StaysEnded(env, w.s.uploaders, w.s.store, w.logs, t, up, TooLarge, ClaimData(t));
      StaysEnded(env, w.s.uploaders, w.s.store, w.logs, t, up, TooLarge, if filesWritten then CommitMeta(t) else Abort(t));
    }
  }

  function Answered(env: Env, db: KeyStore, id: string, version: Option<nat>, challenge: Challenge)
    : Result<(Answer, nat), ServiceError>
  {
    match GetBackup(env, db, id)
    case Err(e) => Err(e)
    case Ok(m) =>
      var v := if version.Some? then version.value else m.latestVersion;
      match GetBackupData(db, id, v)
      case Err(e) => Err(e)
      case Ok(data) => Ok((ComputeProof(env.sha256, challenge, data), v))
  }

  /** An answer holds the digests of the bytes stored for the version it names. */
  ghost predicate AnswerProves(env: Env, db: KeyStore, id: string, c: Challenge, nonce: Bytes, answer: Answer, version: nat) {
    var data := GetBackupData(db, id, version);
    && data.Ok?
    && if Sliceable(c, |data.value|) then
         answer.Ok? && HoldsDigests(env.sha256, c, nonce, data.value, answer.value)
         && answer.value.fileSha256 == HexEncode(env.sha256(data.value))
       else answer == Err(SliceOutOfOrder)
  }

  lemma AnsweredProves(env: Env, db: KeyStore, id: string, version: Option<nat>, c: Challenge, nonce: Bytes)
    requires NonceIs(c, nonce) && Answered(env, db, id, version, c).Ok?
    ensures var (answer, v) := Answered(env, db, id, version, c).value;
            AnswerProves(env, db, id, c, nonce, answer, v) && (version.Some? ==> v == version.value)
  {
    var data := GetBackupData(db, id, Answered(env, db, id, version, c).value.1).value;
    if Sliceable(c, |data|) {
      ProofHoldsDigests(env.sha256, c, nonce, data);
    }
  }

  /** An event delivered with nothing else running: one payment write, if its note names a known backup. */
  lemma DeliverAlone(env: Env, w: World, payment: IncomingPayment, draw: string, now: nat)
    ensures var d := Delivery(payment, draw, now, [], []);
            Deliver(env, w, d) ==
            if payment.payerNote.None? || GetBackup(env, w.s.store, payment.payerNote.value).Err? then w
            else StepWorld(env, w, PutPayment(RecordOf(d).paymentId, RecordOf(d)))
  {}

  function Newest(m: BackupManifest): int {
    var t: int := m.updatedAt;
    -t
  }

  function LastPaid(p: PaymentRecord): int {
    var t: int := p.paidAt;
    -t
  }

  /** Most recently updated first. */
  ghost predicate NewestFirst(out: seq<BackupManifest>) {
    forall i, j :: 0 <= i < j < |out| ==> out[i].updatedAt >= out[j].updatedAt
  }

  /** Latest payment first. */
  ghost predicate LastPaidFirst(out: seq<PaymentRecord>) {
    forall i, j :: 0 <= i < j < |out| ==> out[i].paidAt >= out[j].paidAt
  }

  lemma ListingsOrdered(manifests: seq<BackupManifest>, payments: seq<PaymentRecord>)
    ensures NewestFirst(SortBy(manifests, Newest)) && LastPaidFirst(SortBy(payments, LastPaid))
  {
    SortByIsStableSort(manifests, Newest);
    SortByIsStableSort(payments, LastPaid);
    var m, p := SortBy(manifests, Newest), SortBy(payments, LastPaid);
    forall i, j | 0 <= i < j < |m| ensures m[i].updatedAt >= m[j].updatedAt {
      assert Newest(m[i]) <= Newest(m[j]);
    }
    forall i, j | 0 <= i < j < |p| ensures p[i].paidAt >= p[j].paidAt {
      assert LastPaid(p[i]) <= LastPaid(p[j]);
    }
  }

  function ReadManifests(env: Env, db: KeyStore, ids: seq<string>): seq<BackupManifest> {
    if ids == [] then [] else ReadManifests(env, db, ids[..|ids| - 1]) + ReadOne(env, db, ids[|ids| - 1])
  }

  lemma ReadManifestsSnoc(env: Env, db: KeyStore, ids: seq<string>, id: string)
    ensures ReadManifests(env, db, ids + [id]) == ReadManifests(env, db, ids) + ReadOne(env, db, id)
  {
    assert (ids + [id])[..|ids|] == ids;
  }

  function ReadPayment(env: Env, db: KeyStore, paymentId: string): seq<PaymentRecord> {
    match Lookup(db, Payment(paymentId))
    case None => []
    case Some(kv) =>
      match env.decodePayment(kv.value)
      case Some(p) => [p]
      case None => []
  }

  function ReadPayments(env: Env, db: KeyStore, ids: seq<string>): seq<PaymentRecord> {
    if ids == [] then [] else ReadPayments(env, db, ids[..|ids| - 1]) + ReadPayment(env, db, ids[|ids| - 1])
  }

  lemma ReadPaymentsSnoc(env: Env, db: KeyStore, ids: seq<string>, id: string)
    ensures ReadPayments(env, db, ids + [id]) == ReadPayments(env, db, ids) + ReadPayment(env, db, id)
  {
    assert (ids + [id])[..|ids|] == ids;
  }

  ghost predicate PaymentListing(db: KeyStore, ids: seq<string>) {
    && (forall p :: p in ids <==> Payment(p) in db)
    && (forall i, j :: 0 <= i < j < |ids| ==> LexLess(KeyText(Payment(ids[i])), KeyText(Payment(ids[j]))))
  }

  // ------------------------------------------------- what it means for the logs

  /** The store means these logs. */
  ghost predicate Means(env: Env, db: KeyStore, logs: Logs) {
    Faithful(env) && VersionsPositive(db) && Histories(env, db, logs)
  }

  /** What the caller of a successful upload gets. */
  ghost function ReceiptOf(env: Env, log: Log, c: Commit): Receipt {
    Receipt(ManifestOf(env, log + [c]), VersionOf(env, IdOf(env, c.upload), |log| + 1, c.upload),
            QuoteMsat(|c.upload.data|, c.upload.config.priceSatsPerMib))
  }

  lemma MeansAfterClaim(env: Env, db: KeyStore, logs: Logs, id: string, data: Bytes)
    requires Means(env, db, logs)
    ensures var key := Data(id, |Series(logs, id)| + 1);
            && PutResult(db, key, 0) == (if key in db then Err(Conflict) else Ok(1))
            && Means(env, PutState(db, key, 0, data), logs)
  {
    var key := Data(id, |Series(logs, id)| + 1);
    assert key in db ==> db[key].version >= 1;
    if key !in db {
      HistoriesAfterClaim(env, db, logs, id, data);
    }
  }

  lemma MeansAfterInstall(env: Env, db: KeyStore, logs: Logs, c: Commit)
    requires Means(env, db, logs)
    requires var id := IdOf(env, c.upload); var key := Data(id, |Series(logs, id)| + 1);
             key in db && db[key] == Versioned(1, c.upload.data)
    ensures var id := IdOf(env, c.upload); var log := Series(logs, id);
            var m := Extend(env, Snapshot(env, log, c.upload), c.upload);
            && m == ManifestOf(env, log + [c])
            && PutResult(db, Meta(id), |log|) == Ok(|log| + 1)
            && Means(env, PutState(db, Meta(id), |log|, env.encodeManifest(m)), Append(logs, id, c))
  {
    var id := IdOf(env, c.upload);
    var log := Series(logs, id);
    assert SeriesOk(env, db, id, log);
    HistoryGrows(env, db, id, log, c);
    HistoriesAfterCommit(env, db, logs, id, c, Versioned(|log| + 1, env.encodeManifest(ManifestOf(env, log + [c]))));
  }

  /** What installing the manifest over a fresh claim returns. */
  lemma InstalledOutcome(env: Env, db: KeyStore, logs: Logs, owner: nat, up: Upload)
    requires Means(env, db, logs)
    requires var id := IdOf(env, up); var key := Data(id, |Series(logs, id)| + 1);
             key in db && db[key] == Versioned(1, up.data)
    ensures var id := IdOf(env, up); var log := Series(logs, id); var c := Commit(owner, up);
            var (r, db') := Installed(env, db, up, Snapshot(env, log, up), |log|);
            r == Ok(ReceiptOf(env, log, c)) && Means(env, db', Append(logs, id, c))
  {
    MeansAfterInstall(env, db, logs, Commit(owner, up));
    SnapshotLatest(env, Series(logs, IdOf(env, up)), up);
  }

  lemma StoredReads(env: Env, db: KeyStore, logs: Logs, up: Upload, filesWritten: bool)
    requires Means(env, db, logs) && |up.data| <= up.config.maxBackupBytes
    ensures var id := IdOf(env, up); var log := Series(logs, id); var key := Data(id, |log| + 1);
            Stored(env, db, up, filesWritten) ==
            if PutResult(db, key, 0).Err? then (Err(StoreFailed(Conflict)), db)
            else if !filesWritten then (Err(Internal), PutState(db, key, 0, up.data))
            else Installed(env, PutState(db, key, 0, up.data), up, Snapshot(env, log, up), |log|)
  {
    var log := Series(logs, IdOf(env, up));
    ReadsHistory(env, db, IdOf(env, up), log);
    SnapshotLatest(env, log, up);
  }

  /** The four ways an upload can end, and what each leaves behind. */
  lemma StoredOutcome(env: Env, db: KeyStore, logs: Logs, owner: nat, up: Upload, filesWritten: bool)
    requires Means(env, db, logs)
    ensures var id := IdOf(env, up); var log := Series(logs, id); var c := Commit(owner, up);
            var (r, db') := Stored(env, db, up, filesWritten); var key := Data(id, |log| + 1);
            if |up.data| > up.config.maxBackupBytes then r == Err(TooLarge) && db' == db
            else if key in db then r == Err(StoreFailed(Conflict)) && db' == db
            else if !filesWritten then
              r == Err(Internal) && db' == db[key := Versioned(1, up.data)] && Means(env, db', logs)
            else r == Ok(ReceiptOf(env, log, c)) && Means(env, db', Append(logs, id, c))
  {
    if |up.data| <= up.config.maxBackupBytes {
      var id := IdOf(env, up);
      var key := Data(id, |Series(logs, id)| + 1);
      StoredReads(env, db, logs, up, filesWritten);
      MeansAfterClaim(env, db, logs, id, up.data);
      if key !in db && filesWritten {
        InstalledOutcome(env, PutState(db, key, 0, up.data), logs, owner, up);
      }
    }
  }

  /** How an upload by `t` changed the world: refused, stopped at its files, or stored. */
  ghost predicate UploadEnds(env: Env, w: World, w': World, t: nat, up: Upload, filesWritten: bool)
  {
    var id := IdOf(env, up);
    var log := Series(w.logs, id);
    var key := Data(id, |log| + 1);
    && t in w'.s.uploaders
    && var r := ResultOf(w'.s.uploaders[t].phase);
    if |up.data| > up.config.maxBackupBytes then r == Err(TooLarge) && w'.s.store == w.s.store && w'.logs == w.logs
    else if key in w.s.store then r == Err(StoreFailed(Conflict)) && w'.s.store == w.s.store && w'.logs == w.logs
    else if !filesWritten then
      r == Err(Internal) && w'.s.store == w.s.store[key := Versioned(1, up.data)] && w'.logs == w.logs
    else r == Ok(ReceiptOf(env, log, Commit(t, up))) && w'.logs == Append(w.logs, id, Commit(t, up))
  }

  lemma EndedAsStored(env: Env, w: World, w': World, t: nat, up: Upload, filesWritten: bool)
    requires Means(env, w.s.store, w.logs)
    requires Ended(env, w', w.logs, t, up, Stored(env, w.s.store, up, filesWritten))
    ensures UploadEnds(env, w, w', t, up, filesWritten)
  {
    StoredOutcome(env, w.s.store, w.logs, t, up, filesWritten);
  }

  /**
    The same in the transition system: a refused upload changes neither store nor
    logs, one whose files cannot be written leaves only its data key, and one that
    succeeds is appended to its log and returns the manifest of that log.
   */
  lemma UploadOutcome(env: Env, w: World, t: nat, up: Upload, filesWritten: bool)
    requires Good(env, w) && t !in w.s.uploaders
    ensures var w' := Run(env, w, Script(t, up, filesWritten));
            Good(env, w') && UploadEnds(env, w, w', t, up, filesWritten)
  {
    StoredIsProtocolRun(env, w, t, up, filesWritten);
    EndedAsStored(env, w, Run(env, w, Script(t, up, filesWritten)), t, up, filesWritten);
    RunRefinesLog(env, w, Script(t, up, filesWritten));
  }

  /**
    What a receipt tells of an upload that followed these logs: the new version with
    the size and digest of the bytes sent, the manifest that lists it last, and the
    quote for those bytes, wrapped to 64 bits.
   */
  ghost predicate ReceiptTells(env: Env, logs: Logs, up: Upload, r: Receipt) {
    var n := |Series(logs, IdOf(env, up))|;
    && RecordsData(env, r.stored, n + 1, up.data, up.now)
    && r.manifest.backupId == IdOf(env, up) && r.manifest.latestVersion == n + 1 == |r.manifest.versions|
    && r.manifest.versions[n] == r.stored && r.manifest.updatedAt == up.now
    && r.quoteMsat == Mebibytes(|up.data|) * up.config.priceSatsPerMib * 1000 % 18446744073709551616
  }

  lemma StoredReceiptTells(env: Env, w: World, t: nat, up: Upload)
    requires var id := IdOf(env, up); OneSeries(env, id, Series(w.logs, id))
    ensures var r := ReceiptOf(env, Series(w.logs, IdOf(env, up)), Commit(t, up));
            ReceiptTells(env, w.logs, up, r)
            && r.stored == VersionOf(env, IdOf(env, up), |Series(w.logs, IdOf(env, up))| + 1, up)
  {
    var id := IdOf(env, up);
    var log := Series(w.logs, id);
    VersionRecordsData(env, id, |log| + 1, up);
    ManifestAfterCommit(env, id, log, Commit(t, up));
  }

  /** The receipt of every successful upload tells of the bytes that were sent, and the store holds them under its version. */
  lemma UploadReceipt(env: Env, w: World, t: nat, up: Upload, filesWritten: bool)
    requires Good(env, w) && t !in w.s.uploaders
    ensures var w' := Run(env, w, Script(t, up, filesWritten));
            && t in w'.s.uploaders
            && var r := ResultOf(w'.s.uploaders[t].phase);
            r.Ok? ==> ReceiptTells(env, w.logs, up, r.value)
                      && GetBackupData(w'.s.store, IdOf(env, up), r.value.stored.version) == Ok(up.data)
  {
    var id := IdOf(env, up);
    var n := |Series(w.logs, id)|;
    var w' := Run(env, w, Script(t, up, filesWritten));
    UploadOutcome(env, w, t, up, filesWritten);
    if ResultOf(w'.s.uploaders[t].phase).Ok? {
      assert SeriesOk(env, w.s.store, id, Series(w.logs, id));
      StoredReceiptTells(env, w, t, up);
      DataIsLogged(env, w', id, n + 1);
    }
  }

  /** An upload succeeds exactly if it is small enough, its version is free and its files can be written. */
  lemma UploadSucceedsExactly(env: Env, w: World, t: nat, up: Upload, filesWritten: bool)
    requires Good(env, w) && t !in w.s.uploaders
    ensures var id := IdOf(env, up); var response := Stored(env, w.s.store, up, filesWritten).0;
            && (response.Ok? <==> |up.data| <= up.config.maxBackupBytes && Data(id, |Series(w.logs, id)| + 1) !in w.s.store && filesWritten)
            && (response.Ok? ==>
                  && ReceiptTells(env, w.logs, up, response.value)
                  && |Series(Run(env, w, Script(t, up, filesWritten)).logs, id)| == |Series(w.logs, id)| + 1)
  {
    StoredIsProtocolRun(env, w, t, up, filesWritten);
    UploadOutcome(env, w, t, up, filesWritten);
    UploadReceipt(env, w, t, up, filesWritten);
  }

  /** And its link leads to a torrent of those bytes. */
  lemma UploadReceiptTorrent(env: Env, sha1: Hash, w: World, t: nat, up: Upload, filesWritten: bool)
    requires Good(env, w) && t !in w.s.uploaders && BuiltOn(env, sha1) && HashesTo20(sha1)
    ensures var w' := Run(env, w, Script(t, up, filesWritten));
            && t in w'.s.uploaders
            && var r := ResultOf(w'.s.uploaders[t].phase);
            r.Ok? ==> RecordsTorrent(sha1, r.value.stored, IdOf(env, up), up.filename, up.data, up.config.trackers)
  {
    UploadOutcome(env, w, t, up, filesWritten);
    VersionRecordsTorrent(env, sha1, IdOf(env, up), |Series(w.logs, IdOf(env, up))| + 1, up);
  }

  /** A challenge is answered from the log: the latest version if none is named, an unknown series not at all. */
  lemma AnswersFromTheLog(env: Env, db: KeyStore, logs: Logs, id: string, version: Option<nat>, challenge: Challenge)
    requires Means(env, db, logs)
    ensures var log := Series(logs, id); var v := if version.Some? then version.value else |log|;
            if log == [] then Answered(env, db, id, version, challenge) == Err(NotFound)
            else if 1 <= v <= |log| then
              Answered(env, db, id, version, challenge) == Ok((ComputeProof(env.sha256, challenge, log[v - 1].upload.data), v))
            else Answered(env, db, id, version, challenge).Ok? <==> v == |log| + 1 && Data(id, v) in db
  {
    var log := Series(logs, id);
    ReadsHistory(env, db, id, log);
    assert SeriesOk(env, db, id, log);
    if log != [] {
      SnapshotLatest(env, log, log[0].upload);
    }
  }

  /** The same of the log: the digests are of the bytes uploaded as the version asked for, or as the latest. */
  lemma AnswersProveTheLog(env: Env, db: KeyStore, logs: Logs, id: string, version: Option<nat>, c: Challenge, nonce: Bytes)
    requires Means(env, db, logs) && NonceIs(c, nonce)
    requires var v := if version.Some? then version.value else |Series(logs, id)|; 1 <= v <= |Series(logs, id)|
    ensures var v := if version.Some? then version.value else |Series(logs, id)|;
            var data := Series(logs, id)[v - 1].upload.data; var r := Answered(env, db, id, version, c);
            && r.Ok? && r.value.1 == v
            && if Sliceable(c, |data|) then
                 r.value.0.Ok? && HoldsDigests(env.sha256, c, nonce, data, r.value.0.value)
                 && r.value.0.value.fileSha256 == HexEncode(env.sha256(data))
               else r.value.0 == Err(SliceOutOfOrder)
  {
    var v := if version.Some? then version.value else |Series(logs, id)|;
    var data := Series(logs, id)[v - 1].upload.data;
    AnswersFromTheLog(env, db, logs, id, version, c);
    if Sliceable(c, |data|) {
      ProofHoldsDigests(env.sha256, c, nonce, data);
    }
  }

  lemma ReadOneIs(env: Env, db: KeyStore, logs: Logs, id: string)
    requires Means(env, db, logs) && Series(logs, id) != []
    ensures ReadOne(env, db, id) == [ManifestOf(env, Series(logs, id))]
  {
    assert SeriesOk(env, db, id, Series(logs, id));
  }

  lemma {:induction false} ManifestsRead(env: Env, db: KeyStore, ids: seq<string>, manifests: seq<BackupManifest>)
    requires |manifests| == |ids| && forall i :: 0 <= i < |ids| ==> ReadOne(env, db, ids[i]) == [manifests[i]]
    ensures ReadManifests(env, db, ids) == manifests
  {
    if ids != [] {
      var n := |ids| - 1;
      ManifestsRead(env, db, ids[..n], manifests[..n]);
      assert manifests == manifests[..n] + [manifests[n]];
    }
  }

  /** The listing shows every series with its whole history, once. */
  lemma ManifestsAreTheLogs(env: Env, db: KeyStore, logs: Logs, ids: seq<string>)
    requires Means(env, db, logs) && AllStarted(logs, ids)
    ensures |ReadManifests(env, db, ids)| == |ids|
    ensures forall i :: 0 <= i < |ids| ==> ReadManifests(env, db, ids)[i] == ManifestOf(env, Series(logs, ids[i]))
  {
    var manifests := seq(|ids|, i requires 0 <= i < |ids| => ManifestOf(env, Series(logs, ids[i])));
    forall i | 0 <= i < |ids| ensures ReadOne(env, db, ids[i]) == [manifests[i]] {
      ReadOneIs(env, db, logs, ids[i]);
    }
    ManifestsRead(env, db, ids, manifests);
  }

  // ------------------------------------------------------------ listing proofs

  lemma KeyListed(db: KeyStore, contents: map<string, Versioned>, prefix: string, keys: seq<KeyVersion>, i: nat)
    returns (k: Key)
    requires Rendered(db, contents) && IsListing(contents, prefix, keys) && i < |keys|
    ensures k in db && KeyText(k) == keys[i].key && keys[i].key in contents && contents[keys[i].key] == db[k]
    ensures StartsWith(keys[i].key, prefix)
  {
    assert Listed(contents, prefix, keys[i]);
    k :| k in db && KeyText(k) == keys[i].key;
  }

  /** The manifest keys among the first `i` listed ones, in order. */
  ghost predicate Collected(keys: seq<KeyVersion>, i: nat, ids: seq<string>)
    requires i <= |keys|
  {
    && (forall id :: id in ids <==> KeyText(Meta(id)) in KeysOf(keys[..i]))
    && (forall a, b :: 0 <= a < b < |ids| ==> LexLess(KeyText(Meta(ids[a])), KeyText(Meta(ids[b]))))
  }

  lemma CollectedMembers(before: seq<string>, key: string, ids: seq<string>, k: Key)
    requires KeyText(k) == key && forall id :: id in ids <==> KeyText(Meta(id)) in before
    ensures forall id :: id in (if k.Meta? then ids + [k.id] else ids) <==> KeyText(Meta(id)) in before + [key]
  {
    forall id ensures id in (if k.Meta? then ids + [k.id] else ids) <==> KeyText(Meta(id)) in before + [key] {
      if KeyText(Meta(id)) == key {
        KeyTextInjective(Meta(id), k);
      }
    }
  }

  lemma CollectedBefore(keys: seq<KeyVersion>, i: nat, ids: seq<string>, id: string)
    requires i < |keys| && Collected(keys, i, ids) && id in ids
    requires forall a, b :: 0 <= a < b < |keys| ==> LexLess(keys[a].key, keys[b].key)
    ensures LexLess(KeyText(Meta(id)), keys[i].key)
  {
    var before := KeysOf(keys[..i]);
    var j :| 0 <= j < |before| && before[j] == KeyText(Meta(id));
    assert keys[j].key == before[j];
  }

  lemma KeysOfNext(keys: seq<KeyVersion>, i: nat)
    requires i < |keys|
    ensures KeysOf(keys[..i + 1]) == KeysOf(keys[..i]) + [keys[i].key]
  {}

  lemma OrderedNext(ids: seq<string>, id: string)
    requires forall a, b :: 0 <= a < b < |ids| ==> LexLess(KeyText(Meta(ids[a])), KeyText(Meta(ids[b])))
    requires forall a :: 0 <= a < |ids| ==> LexLess(KeyText(Meta(ids[a])), KeyText(Meta(id)))
    ensures forall a, b :: 0 <= a < b < |ids + [id]| ==> LexLess(KeyText(Meta((ids + [id])[a])), KeyText(Meta((ids + [id])[b])))
  {}

  lemma CollectedStep(keys: seq<KeyVersion>, i: nat, ids: seq<string>, k: Key)
    requires i < |keys| && Collected(keys, i, ids) && KeyText(k) == keys[i].key
    requires forall a, b :: 0 <= a < b < |keys| ==> LexLess(keys[a].key, keys[b].key)
    ensures Collected(keys, i + 1, if k.Meta? then ids + [k.id] else ids)
  {
    KeysOfNext(keys, i);
    CollectedMembers(KeysOf(keys[..i]), keys[i].key, ids, k);
    if k.Meta? {
      forall a | 0 <= a < |ids| ensures LexLess(KeyText(Meta(ids[a])), KeyText(Meta(k.id))) {
        CollectedBefore(keys, i, ids, ids[a]);
      }
      OrderedNext(ids, k.id);
    }
  }

  lemma CollectedAll(db: KeyStore, contents: map<string, Versioned>, keys: seq<KeyVersion>, ids: seq<string>)
    requires Rendered(db, contents) && IsListing(contents, BACKUPS, keys) && Collected(keys, |keys|, ids)
    ensures MetaListing(db, ids)
  {
    assert keys[..|keys|] == keys;
    forall id ensures id in ids <==> Meta(id) in db {
      ListingKeys(contents, BACKUPS, keys, KeyText(Meta(id)));
      RenderedLookup(db, contents, Meta(id));
      ManifestKeysByText(Meta(id));
    }
  }

  /** The first `i` listed keys are those of these payments. */
  ghost predicate Spelled(keys: seq<KeyVersion>, i: nat, ids: seq<string>)
    requires i <= |keys|
  {
    |ids| == i && forall j :: 0 <= j < i ==> KeyText(Payment(ids[j])) == keys[j].key
  }

  lemma SpelledStep(keys: seq<KeyVersion>, i: nat, ids: seq<string>, k: Key)
    requires i < |keys| && Spelled(keys, i, ids) && k.Payment? && KeyText(k) == keys[i].key
    ensures Spelled(keys, i + 1, ids + [k.paymentId])
  {
    assert k == Payment(k.paymentId);
  }

  lemma PaymentsCollected(db: KeyStore, contents: map<string, Versioned>, keys: seq<KeyVersion>, ids: seq<string>)
    requires Rendered(db, contents) && IsListing(contents, PAYMENTS, keys)
    requires Spelled(keys, |keys|, ids)
    ensures PaymentListing(db, ids)
  {
    forall p ensures p in ids <==> Payment(p) in db {
      var text := KeyText(Payment(p));
      ListingKeys(contents, PAYMENTS, keys, text);
      RenderedLookup(db, contents, Payment(p));
      ManifestKeysByText(Payment(p));
      if text in KeysOf(keys) {
        var j :| 0 <= j < |keys| && KeysOf(keys)[j] == text;
        KeyTextInjective(Payment(ids[j]), Payment(p));
      }
      if p in ids {
        var j :| 0 <= j < |ids| && ids[j] == p;
        assert KeysOf(keys)[j] == text;
      }
    }
  }

  // ------------------------------------------------------------------ service

  /** The version record, with the torrent made for it. */
  method DescribeVersion(env: Env, sha1: Hash, id: Bytes, version: nat, up: Upload) returns (stored: BackupVersion)
    requires BuiltOn(env, sha1)
    ensures stored == VersionOf(env, id, version, up)
  {
    var torrent := CreateTorrent(sha1, SeedName(id, version, up.filename), up.data, up.config.trackers);
    stored := BackupVersion(version, |up.data|, HexEncode(env.sha256(up.data)), up.now, torrent.infohash, torrent.magnet);
  }

  method SeriesId(env: Env, sha1: Hash, filename: Bytes, kind: BackupKind) returns (id: Bytes)
    requires BuiltOn(env, sha1)
    ensures id == env.backupId(filename, kind)
  {
    id := BackupId(env.sha256, filename, kind);
  }

  class AppState {
    const env: Env
    const sha1: Hash
    /** A real wallet is connected. */
    const wallet: bool
    /** Settings have a file to be saved to. */
    const persistent: bool
    const store: MemoryStore
    var config: Config
    /** What the store holds, by meaning of its keys. */
    ghost var db: KeyStore
    /** The run of the transition system that the calls so far amount to. */
    ghost var world: World

    /** The store spells out what it is meant to hold. */
    ghost predicate Renders()
      reads this, store
    {
      Rendered(db, store.contents)
    }

    /** Between calls the store is that of the run. */
    ghost predicate Valid()
      reads this, store
    {
      Renders() && db == world.s.store && Good(env, world)
    }

    constructor (env: Env, sha1: Hash, wallet: bool, persistent: bool, config: Config)
      requires Faithful(env)
      ensures Valid() && fresh(store)
      ensures db == map[] && world == START && this.config == config
      ensures this.env == env && this.sha1 == sha1 && this.wallet == wallet && this.persistent == persistent
    {
      this.env, this.sha1, this.wallet, this.persistent, this.config := env, sha1, wallet, persistent, config;
      store := new MemoryStore();
      db, world := map[], START;
      new;
      InitInv(env);
    }

    method ReadManifest(id: string) returns (r: Result<Option<(BackupManifest, int)>, ServiceError>)
      requires Renders()
      ensures r == GetManifest(env, db, id)
    {
      RenderedLookup(db, store.contents, Meta(id));
      var found := store.Get(KeyText(Meta(id)));
      if found.None? {
        return Ok(None);
      }
      var m := env.decodeManifest(found.value.value);
      r := if m.Some? then Ok(Some((m.value, found.value.version))) else Err(Internal);
    }

    method Write(key: Key, version: int, value: Bytes) returns (r: Result<int, StoreError>)
      requires Renders()
      modifies this`db, store
      ensures Renders()
      ensures r == PutResult(old(db), key, version) && db == PutState(old(db), key, version, value)
    {
      RenderedPut(db, store.contents, key, version, value);
      r := store.Put(KeyText(key), version, value);
      db := PutState(db, key, version, value);
    }

    /** The manifest to extend and the version to replace: the stored one, or a fresh one. */
    method StartManifest(up: Upload, id: Bytes) returns (r: Result<(BackupManifest, int), ServiceError>)
      requires Renders() && id == IdOf(env, up)
      ensures r == StartFrom(env, db, up)
    {
      var found := ReadManifest(id);
      if found.Err? {
        return Err(found.error);
      }
      r := if found.value.Some? then Ok(found.value.value)
           else Ok((BackupManifest(id, up.labelText, up.filename, up.kind, 0, [], up.now, up.now), 0));
    }

    /** Torrent, then manifest: the second half of an upload. */
    method Install(up: Upload, id: Bytes, manifest: BackupManifest, metaVersion: int) returns (r: Result<Receipt, ServiceError>)
      requires Renders() && BuiltOn(env, sha1) && id == IdOf(env, up)
      modifies this`db, store
      ensures Renders()
      ensures (r, db) == Installed(env, old(db), up, manifest, metaVersion)
    {
      var version := manifest.latestVersion + 1;
      var stored := DescribeVersion(env, sha1, id, version, up);
      var m := manifest.(latestVersion := version, updatedAt := up.now);
      if up.labelText != "" {
        m := m.(labelText := up.labelText);
      }
      m := m.(versions := m.versions + [stored]);
      assert m == Extend(env, manifest, up);
      var installed := Write(Meta(id), metaVersion, env.encodeManifest(m));
      r := if installed.Err? then Err(StoreFailed(installed.error))
           else Ok(Receipt(m, stored, QuoteMsat(|up.data|, up.config.priceSatsPerMib)));
    }

    /** Read the manifest, create the version, write the files, install the manifest. */
    method StoreVersion(filename: Bytes, kind: BackupKind, labelText: string, data: Bytes, now: nat, filesWritten: bool)
      returns (r: Result<Receipt, ServiceError>)
      requires Renders() && BuiltOn(env, sha1)
      modifies this`db, store
      ensures Renders()
      ensures (r, db) == Stored(env, old(db), Upload(filename, kind, labelText, data, now,
                UploadConfig(config.maxBackupBytes, config.priceSatsPerMib, config.trackers)), filesWritten)
    {
      var cfg := UploadConfig(config.maxBackupBytes, config.priceSatsPerMib, config.trackers);
      if |data| > cfg.maxBackupBytes {
        return Err(TooLarge);
      }
      var up := Upload(filename, kind, labelText, data, now, cfg);
      var id := SeriesId(env, sha1, filename, kind);
      var start := StartManifest(up, id);
      if start.Err? {
        return Err(start.error);
      }
      var (manifest, metaVersion) := start.value;
      var claimed := Write(Data(id, manifest.latestVersion + 1), 0, data);
      if claimed.Err? {
        return Err(StoreFailed(claimed.error));
      }
      if !filesWritten {
        return Err(Internal);
      }
      r := Install(up, id, manifest, metaVersion);
    }

    /**
      Store a new version. `filesWritten` says whether the seed directory, the
      seed file and the torrent file could all be written. The call is the run of
      one more upload, `owner`.
     */
    method StoreBackup(filename: Bytes, kind: BackupKind, labelText: string, data: Bytes, now: nat, filesWritten: bool)
      returns (r: Result<Receipt, ServiceError>, ghost owner: nat)
      requires Valid() && BuiltOn(env, sha1)
      modifies this`db, this`world, store
      ensures Valid()
      ensures var up := Upload(filename, kind, labelText, data, now,
                UploadConfig(config.maxBackupBytes, config.priceSatsPerMib, config.trackers));
              && (r, db) == Stored(env, old(db), up, filesWritten)
              && owner !in old(world).s.uploaders && world == Run(env, old(world), Script(owner, up, filesWritten))
              && owner in world.s.uploaders && r == ResultOf(world.s.uploaders[owner].phase)
              && (r.Ok? ==> ReceiptTells(env, old(world).logs, up, r.value)
                            && GetBackupData(db, IdOf(env, up), r.value.stored.version) == Ok(data))
    {
      ghost var up := Upload(filename, kind, labelText, data, now,
        UploadConfig(config.maxBackupBytes, config.priceSatsPerMib, config.trackers));
      owner := FreshOwner(world.s.uploaders);
      StoredIsProtocolRun(env, world, owner, up, filesWritten);
      UploadReceipt(env, world, owner, up, filesWritten);
      RunRefinesLog(env, world, Script(owner, up, filesWritten));
      r := StoreVersion(filename, kind, labelText, data, now, filesWritten);
      world := Run(env, world, Script(owner, up, filesWritten));
    }

    method GetBackupManifest(id: string) returns (r: Result<BackupManifest, ServiceError>)
      requires Renders()
      ensures r == GetBackup(env, db, id)
    {
      var found := ReadManifest(id);
      if found.Err? {
        return Err(found.error);
      }
      r := if found.value.Some? then Ok(found.value.value.0) else Err(NotFound);
    }

    method ReadBackupData(id: string, version: nat) returns (r: Result<Bytes, ServiceError>)
      requires Renders()
      ensures r == GetBackupData(db, id, version)
    {
      RenderedLookup(db, store.contents, Data(id, version));
      var found := store.Get(KeyText(Data(id, version)));
      r := if found.Some? then Ok(found.value.value) else Err(NotFound);
    }

    /** Answer from the stored bytes; without a version, those of the latest one. */
    method AnswerChallenge(id: string, version: Option<nat>, challenge: Challenge)
      returns (r: Result<(Answer, nat), ServiceError>)
      requires Renders()
      ensures r == Answered(env, db, id, version, challenge)
      ensures forall nonce :: r.Ok? && NonceIs(challenge, nonce) ==>
                AnswerProves(env, db, id, challenge, nonce, r.value.0, r.value.1)
    {
      forall nonce | NonceIs(challenge, nonce) && Answered(env, db, id, version, challenge).Ok?
        ensures AnswerProves(env, db, id, challenge, nonce, Answered(env, db, id, version, challenge).value.0,
                             Answered(env, db, id, version, challenge).value.1)
      {
        AnsweredProves(env, db, id, version, challenge, nonce);
      }
      var manifest := GetBackupManifest(id);
      if manifest.Err? {
        return Err(manifest.error);
      }
      var v := if version.Some? then version.value else manifest.value.latestVersion;
      var data := ReadBackupData(id, v);
      if data.Err? {
        return Err(data.error);
      }
      r := Ok((ComputeProof(env.sha256, challenge, data.value), v));
    }

    method FetchManifest(key: string, ghost id: string) returns (m: Option<BackupManifest>)
      requires Renders() && key == KeyText(Meta(id))
      ensures ReadOne(env, db, id) == if m.Some? then [m.value] else []
    {
      RenderedLookup(db, store.contents, Meta(id));
      var found := store.Get(key);
      m := if found.Some? then env.decodeManifest(found.value.value) else None;
    }

    /** Every series, most recently updated first. */
    method ListBackups() returns (out: seq<BackupManifest>)
      requires Renders()
      ensures exists ids :: MetaListing(db, ids) && out == SortBy(ReadManifests(env, db, ids), Newest)
      ensures NewestFirst(out)
    {
      var keys := store.List(BACKUPS);
      ghost var ids: seq<string> := [];
      out := [];
      for i := 0 to |keys|
        invariant Collected(keys, i, ids)
        invariant out == ReadManifests(env, db, ids)
      {
        ghost var k := KeyListed(db, store.contents, BACKUPS, keys, i);
        ManifestKeysByText(k);
        CollectedStep(keys, i, ids, k);
        if EndsWith(keys[i].key, META_SUFFIX) {
          var m := FetchManifest(keys[i].key, k.id);
          if m.Some? {
            out := out + [m.value];
          }
          ReadManifestsSnoc(env, db, ids, k.id);
          ids := ids + [k.id];
        }
      }
      CollectedAll(db, store.contents, keys, ids);
      ListingsOrdered(out, []);
      out := SortBy(out, Newest);
    }

    method FetchPayment(key: string, ghost paymentId: string) returns (p: Option<PaymentRecord>)
      requires Renders() && key == KeyText(Payment(paymentId))
      ensures ReadPayment(env, db, paymentId) == if p.Some? then [p.value] else []
    {
      RenderedLookup(db, store.contents, Payment(paymentId));
      var found := store.Get(key);
      p := if found.Some? then env.decodePayment(found.value.value) else None;
    }

    /** Every recorded payment, latest first. */
    method ListPayments() returns (out: seq<PaymentRecord>)
      requires Renders()
      ensures exists ids :: PaymentListing(db, ids) && out == SortBy(ReadPayments(env, db, ids), LastPaid)
      ensures LastPaidFirst(out)
    {
      var keys := store.List(PAYMENTS);
      ghost var ids: seq<string> := [];
      out := [];
      for i := 0 to |keys|
        invariant Spelled(keys, i, ids)
        invariant out == ReadPayments(env, db, ids)
      {
        ghost var k := KeyListed(db, store.contents, PAYMENTS, keys, i);
        ManifestKeysByText(k);
        var p := FetchPayment(keys[i].key, k.paymentId);
        if p.Some? {
          out := out + [p.value];
        }
        ReadPaymentsSnoc(env, db, ids, k.paymentId);
        SpelledStep(keys, i, ids, k);
        ids := ids + [k.paymentId];
      }
      PaymentsCollected(db, store.contents, keys, ids);
      ListingsOrdered([], out);
      out := SortBy(out, LastPaid);
    }

    /** Write a payment once, under its id. */
    method WritePayment(record: PaymentRecord) returns (r: Result<int, StoreError>)
      requires Valid()
      modifies this`db, this`world, store
      ensures Valid()
      ensures world == StepWorld(env, old(world), PutPayment(record.paymentId, record))
      ensures db == PutState(old(db), Payment(record.paymentId), 0, env.encodePayment(record))
      ensures r == PutResult(old(db), Payment(record.paymentId), 0)
    {
      PaymentLeavesLogs(env, world, record);
      r := Write(Payment(record.paymentId), 0, env.encodePayment(record));
      world := StepWorld(env, world, PutPayment(record.paymentId, record));
    }

    /** A payment a client claims to have made: refused once a real wallet is connected. */
    method RecordPayment(backupId: string, amountMsat: nat, payMethod: string, note: Option<string>,
                         paymentId: string, now: nat)
      returns (r: Result<PaymentRecord, ServiceError>)
      requires Valid()
      modifies this`db, this`world, store
      ensures Valid()
      ensures var record := PaymentRecord(paymentId, backupId, amountMsat, now, payMethod, note);
              if wallet then r == Err(MockPaymentsDisabled) && world == old(world)
              else if GetBackup(env, old(db), backupId).Err? then
                r == Err(GetBackup(env, old(db), backupId).error) && world == old(world)
              else
                && world == StepWorld(env, old(world), PutPayment(paymentId, record))
                && db == PutState(old(db), Payment(paymentId), 0, env.encodePayment(record))
                && r == (if PutResult(old(db), Payment(paymentId), 0).Ok? then Ok(record)
                         else Err(StoreFailed(PutResult(old(db), Payment(paymentId), 0).error)))
    {
      if wallet {
        return Err(MockPaymentsDisabled);
      }
      var backup := GetBackupManifest(backupId);
      if backup.Err? {
        return Err(backup.error);
      }
      var record := PaymentRecord(paymentId, backupId, amountMsat, now, payMethod, note);
      var written := WritePayment(record);
      r := if written.Ok? then Ok(record) else Err(StoreFailed(written.error));
    }

    /** A payment the provider's own wallet observed: recorded if its note names a known backup. */
    method MatchIncomingPayment(payment: IncomingPayment, draw: string, now: nat)
      requires Valid()
      modifies this`db, this`world, store
      ensures Valid()
      ensures world == Deliver(env, old(world), Delivery(payment, draw, now, [], []))
    {
      DeliverAlone(env, world, payment, draw, now);
      if payment.payerNote.None? {
        return;
      }
      var backupId := payment.payerNote.value;
      var backup := GetBackupManifest(backupId);
      if backup.Err? {
        return;
      }
      var amountMsat := if payment.amountSat * 1000 < U64_LIMIT then payment.amountSat * 1000 else U64_LIMIT - 1;
      var paymentId := if payment.paymentHash.Some? then payment.paymentHash.value else draw;
      var record := PaymentRecord(paymentId, backupId, amountMsat, now, "bolt12-breez", payment.preimage);
      var written := WritePayment(record);
    }

    /** The checks of a patch; on success, its cleaned relays if it has any. */
    method ValidatePatch(p: Patch) returns (ok: bool, relays: Option<seq<string>>)
      ensures ok <==> PatchOk(p, wallet)
      ensures ok ==> (relays.Some? <==> p.relays.Some?)
      ensures ok && p.relays.Some? ==> CleanedFrom(relays.value, p.relays.value)
    {
      ok, relays := false, None;
      if p.priceSatsPerMib.Some? && p.priceSatsPerMib.value == 0 {
        return;
      }
      if p.billingPeriodSecs.Some? && p.billingPeriodSecs.value < 60 {
        return;
      }
      if p.maxBackupBytes.Some? && !(1024 <= p.maxBackupBytes.value <= MAX_BACKUP_BYTES_CEILING) {
        return;
      }
      if p.relays.Some? {
        relays := CleanRelays(p.relays.value);
        if relays.None? {
          return;
        }
      }
      if p.name.Some? && (Trim(p.name.value) == "" || Utf8Len(p.name.value) > 100) {
        return;
      }
      if p.description.Some? && (Trim(p.description.value) == "" || Utf8Len(p.description.value) > 500) {
        return;
      }
      ok := !(p.bolt12Offer.Some? && wallet);
    }

    /**
      Validate a patch, apply it, and save the result; `saved` says whether the
      file could be written. A patch that is turned away changes nothing; one
      that could not be saved is in force all the same.
     */
    method ApplySettingsPatch(p: Patch, saved: bool) returns (r: Result<(Config, bool), ServiceError>)
      modifies this`config
      ensures r == Err(InvalidSettings) <==> !PatchOk(p, wallet)
      ensures if PatchOk(p, wallet) then Patched(old(config), p, config) else config == old(config)
      ensures PatchOk(p, wallet) ==> r == if persistent && !saved then Err(Internal) else Ok((config, persistent))
    {
      var ok, relays := ValidatePatch(p);
      if !ok {
        return Err(InvalidSettings);
      }
      var cfg := config;
      if p.name.Some? {
        cfg := cfg.(name := Trim(p.name.value));
      }
      if p.description.Some? {
        cfg := cfg.(description := Trim(p.description.value));
      }
      if p.priceSatsPerMib.Some? {
        cfg := cfg.(priceSatsPerMib := p.priceSatsPerMib.value);
      }
      if p.billingPeriodSecs.Some? {
        cfg := cfg.(billingPeriodSecs := p.billingPeriodSecs.value);
      }
      if p.maxBackupBytes.Some? {
        cfg := cfg.(maxBackupBytes := p.maxBackupBytes.value);
      }
      if relays.Some? {
        cfg := cfg.(relays := relays.value);
      }
      if p.bolt12Offer.Some? {
        cfg := cfg.(bolt12Offer := p.bolt12Offer.value);
      }
      config := cfg;
      if persistent && !saved {
        return Err(Internal);
      }
      r := Ok((config, persistent));
    }
  }

  // ----------------------------------------------- what the payments listed mean

  /** What `list_payments` reads is the ledger, entry by entry. */
  lemma {:induction false} PaymentsAreTheLedger(env: Env, db: KeyStore, ledger: Ledger, ids: seq<string>)
    requires Faithful(env) && LedgerStored(env, db, ledger) && forall i :: 0 <= i < |ids| ==> ids[i] in ledger
    ensures ReadPayments(env, db, ids) == Enumerated(ledger, ids)
  {
    if ids != [] {
      var init, last := ids[..|ids| - 1], ids[|ids| - 1];
      PaymentsAreTheLedger(env, db, ledger, init);
      assert ReadPayment(env, db, last) == [ledger[last]];
      assert Enumerated(ledger, ids) == Enumerated(ledger, init) + [ledger[last]];
    }
  }

  /** The total shown for these records is that of the first one of every payment. */
  lemma ListedPaymentsTotal(env: Env, db: KeyStore, records: seq<PaymentRecord>, ids: seq<string>)
    requires Faithful(env) && LedgerStored(env, db, FirstRecords(map[], records)) && PaymentListing(db, ids)
    ensures TotalMsat(SortBy(ReadPayments(env, db, ids), LastPaid)) == TotalMsat(Firsts(records, {}))
  {
    var ledger := FirstRecords(map[], records);
    assert forall i :: 0 <= i < |ids| ==> ids[i] in ids;
    PaymentsAreTheLedger(env, db, ledger, ids);
    forall i, j | 0 <= i < j < |ids| ensures ids[i] != ids[j] {
      LexTrichotomy(KeyText(Payment(ids[i])), KeyText(Payment(ids[j])));
    }
    ListedTotal(records, ids, LastPaid);
  }

  /** What a listing of the payments in this world adds up to. */
  function ListedMsat(env: Env, w: World, ids: seq<string>): nat {
    TotalMsat(SortBy(ReadPayments(env, w.s.store, ids), LastPaid))
  }

  /** A thousand times these satoshis exactly when none of the products saturates, and never more. */
  ghost predicate ExactUnlessSaturated(total: nat, events: seq<IncomingPayment>) {
    && total <= 1000 * TotalSat(events)
    && (total == 1000 * TotalSat(events) <==> forall i :: 0 <= i < |events| ==> events[i].amountSat * 1000 < U64_LIMIT)
  }

  /**
    Over any stream of wallet events interleaved with uploads, which may go on
    after the last event, the listed total is a thousand times the satoshis of the
    first matched event of each payment, exactly when none of their products
    saturates, and never more.
   */
  lemma StreamTotalIsExact(env: Env, ds: seq<Delivery>, after: seq<Action>, ids: seq<string>)
    requires Faithful(env) && DrainedAlone(ds) && UploadsOnly(after)
    requires PaymentListing(Run(env, DeliverAll(env, START, ds), after).s.store, ids)
    ensures ExactUnlessSaturated(ListedMsat(env, Run(env, DeliverAll(env, START, ds), after), ids), FirstMatches(env, ds))
  {
    var w := DeliverAll(env, START, ds);
    LedgerFromStart(env, ds);
    UploadsLeaveLedger(env, w, after, FirstRecords(map[], Matched(env, START, ds)));
    ListedPaymentsTotal(env, Run(env, w, after).s.store, Matched(env, START, ds), ids);
    FirstMatchesTotal(env, ds);
  }

  /** The calls that change a service whose wallet is connected. */
  datatype Call =
    | Uploading(t: nat, upload: Upload, filesWritten: bool)
    | Observing(payment: IncomingPayment, draw: string, now: nat)

  /** The world after a call, as the contracts of the methods say. */
  function AfterCall(env: Env, w: World, call: Call): World {
    match call
    case Uploading(t, up, filesWritten) => Run(env, w, Script(t, up, filesWritten))
    case Observing(payment, draw, now) => Deliver(env, w, Delivery(payment, draw, now, [], []))
  }

  function AfterCalls(env: Env, w: World, calls: seq<Call>): World
    decreases |calls|
  {
    if calls == [] then w else AfterCalls(env, AfterCall(env, w, calls[0]), calls[1..])
  }

  function Observed(calls: seq<Call>): seq<IncomingPayment> {
    if calls == [] then []
    else (if calls[0].Observing? then [calls[0].payment] else []) + Observed(calls[1..])
  }

  function EventsOf(ds: seq<Delivery>): seq<IncomingPayment> {
    if ds == [] then [] else [ds[0].event] + EventsOf(ds[1..])
  }

  /** Steps that run before an event can be counted to its delivery. */
  lemma DeliverAfter(env: Env, w: World, first: seq<Action>, d: Delivery)
    ensures Deliver(env, w, d.(before := first + d.before)) == Deliver(env, Run(env, w, first), d)
  {
    RunAppend(env, w, first, d.before);
  }

  lemma UploadFirst(env: Env, w: World, first: seq<Action>, ds: seq<Delivery>, after: seq<Action>)
    returns (ds': seq<Delivery>, after': seq<Action>)
    requires UploadsOnly(first) && DrainedAlone(ds) && UploadsOnly(after)
    ensures DrainedAlone(ds') && UploadsOnly(after') && EventsOf(ds') == EventsOf(ds)
    ensures Run(env, DeliverAll(env, w, ds'), after') == Run(env, DeliverAll(env, Run(env, w, first), ds), after)
  {
    if ds == [] {
      ds', after' := [], first + after;
      RunAppend(env, w, first, after);
    } else {
      ds', after' := [ds[0].(before := first + ds[0].before)] + ds[1..], after;
      DeliverAfter(env, w, first, ds[0]);
      assert ds'[1..] == ds[1..];
    }
  }

  lemma EventFirst(env: Env, w: World, d: Delivery, ds: seq<Delivery>)
    requires DrainedAlone(ds) && d.before == [] && d.meanwhile == []
    ensures DrainedAlone([d] + ds) && EventsOf([d] + ds) == [d.event] + EventsOf(ds)
    ensures DeliverAll(env, w, [d] + ds) == DeliverAll(env, Deliver(env, w, d), ds)
  {
    assert ([d] + ds)[1..] == ds;
  }

  /** Calls to the service, one after the other, are a stream of events interleaved with uploads. */
  lemma {:induction false} CallsAreStream(env: Env, w: World, calls: seq<Call>)
    returns (ds: seq<Delivery>, after: seq<Action>)
    ensures DrainedAlone(ds) && UploadsOnly(after) && EventsOf(ds) == Observed(calls)
    ensures AfterCalls(env, w, calls) == Run(env, DeliverAll(env, w, ds), after)
    decreases |calls|
  {
    if calls == [] {
      ds, after := [], [];
    } else {
      ds, after := CallsAreStream(env, AfterCall(env, w, calls[0]), calls[1..]);
      match calls[0] {
        case Uploading(t, up, filesWritten) =>
          ds, after := UploadFirst(env, w, Script(t, up, filesWritten), ds, after);
        case Observing(payment, draw, now) =>
          var d := Delivery(payment, draw, now, [], []);
          EventFirst(env, w, d, ds);
          ds := [d] + ds;
      }
    }
  }

  /** What a service lists after any calls: the first matched of the events it observed. */
  lemma CallsTotalIsExact(env: Env, calls: seq<Call>, ids: seq<string>) returns (ds: seq<Delivery>)
    requires Faithful(env) && PaymentListing(AfterCalls(env, START, calls).s.store, ids)
    ensures DrainedAlone(ds) && EventsOf(ds) == Observed(calls)
    ensures ExactUnlessSaturated(ListedMsat(env, AfterCalls(env, START, calls), ids), FirstMatches(env, ds))
  {
    var after;
    ds, after := CallsAreStream(env, START, calls);
    StreamTotalIsExact(env, ds, after, ids);
  }

  // ------------------------------------------------------------------- quotes

  /** Under a valid configuration every admitted upload is quoted exactly, and paid exactly in satoshis. */
  lemma AdmittedUploadsPayExactly(c: Config, size: nat)
    requires ConfigOk(c) && size <= c.maxBackupBytes && 512 * c.priceSatsPerMib * 1000 < U64_LIMIT
    ensures QuotedExactly(size, c.priceSatsPerMib)
    ensures SatsForQuote(QuoteMsat(size, c.priceSatsPerMib)) * 1000 == Mebibytes(size) * c.priceSatsPerMib * 1000
  {
    assert Mebibytes(MAX_BACKUP_BYTES_CEILING) == 512;
    QuoteExactAndMonotone(size, size, MAX_BACKUP_BYTES_CEILING, c.priceSatsPerMib);
    SatsPayTheQuote(size, c.priceSatsPerMib);
  }

  // ------------------------------------------------- listing under interleaving

  function IdOfManifest(m: BackupManifest): string {
    m.backupId
  }

  /** Every series that existed at `w` is listed once, as it was at some moment from `w` to `end`, and nothing else is. */
  ghost predicate ListsSeries(env: Env, w: World, end: World, out: seq<BackupManifest>) {
    && DistinctBy(out, IdOfManifest)
    && (forall m :: m in out ==> Series(w.logs, m.backupId) != [] && HadBetween(env, w, end, m.backupId, m))
    && (forall id :: Series(w.logs, id) != [] ==> exists m :: m in out && m.backupId == id)
  }

  lemma InOrderListsSeries(env: Env, w: World, end: World, ids: seq<string>, out: seq<BackupManifest>)
    requires ScannedInOrder(env, w, end, ids, out)
    requires forall id :: id in ids <==> Series(w.logs, id) != []
    requires forall i, j :: 0 <= i < j < |ids| ==> ids[i] != ids[j]
    ensures ListsSeries(env, w, end, out)
  {
    forall id | Series(w.logs, id) != [] ensures exists m :: m in out && m.backupId == id {
      assert id in ids;
      var i :| 0 <= i < |ids| && ids[i] == id;
      assert out[i] in out && out[i].backupId == id;
    }
    forall m | m in out ensures Series(w.logs, m.backupId) != [] && HadBetween(env, w, end, m.backupId, m) {
      var i :| 0 <= i < |out| && out[i] == m;
    }
  }

  lemma ScanListsSeries(env: Env, w: World, ids: seq<string>, between: seq<seq<Action>>)
    requires Good(env, w) && MetaListing(w.s.store, ids) && |between| == |ids|
    ensures ListsSeries(env, w, RunAll(env, w, between), Scan(env, w, ids, between))
  {
    ScanOfListing(env, w, ids, between);
    ListingIsComplete(env, w, ids);
    InOrderListsSeries(env, w, RunAll(env, w, between), ids, Scan(env, w, ids, between));
  }

  lemma ListsPermuted(env: Env, w: World, end: World, xs: seq<BackupManifest>, ys: seq<BackupManifest>)
    requires ListsSeries(env, w, end, xs) && multiset(xs) == multiset(ys)
    ensures ListsSeries(env, w, end, ys)
  {
    PermutationKeepsDistinct(xs, ys, IdOfManifest);
  }

  /** `list_backups` while others run, sorted most recently updated first. */
  lemma ListingUnderInterleaving(env: Env, w: World, ids: seq<string>, between: seq<seq<Action>>)
    requires Good(env, w) && MetaListing(w.s.store, ids) && |between| == |ids|
    ensures var out := SortBy(Scan(env, w, ids, between), Newest);
            NewestFirst(out) && ListsSeries(env, w, RunAll(env, w, between), out)
  {
    var scanned := Scan(env, w, ids, between);
    ScanListsSeries(env, w, ids, between);
    ListingsOrdered(scanned, []);
    SortByIsStableSort(scanned, Newest);
    ListsPermuted(env, w, RunAll(env, w, between), scanned, SortBy(scanned, Newest));
  }
}
