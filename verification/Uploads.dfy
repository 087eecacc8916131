/**
  The upload protocol (`AppState::store_backup`, crates/pivss-server/src/state.rs)
  as a transition system. Any number of uploads interleave at their store calls:

    read the manifest; create `v<n+1>` (expected version 0); compare-and-swap the
    manifest on the version that was read.

  No lock is held in between, an upload may stop at any point, and a write may be
  applied and still be reported as failed. The specification the store is proved
  to refine is one append-only log per series.
 */
module Uploads {
  import opened Bytes
  import opened Wrappers
  import opened Keys
  import opened Store
  import opened Manifest

  type KeyStore = map<Key, Versioned>

  datatype ServiceError =
    | StoreFailed(error: StoreError)
    | NotFound
    | TooLarge
    | MockPaymentsDisabled
    | InvalidSettings
    | Internal

  /** What an upload that failed had already made durable. */
  datatype Wrote = Nothing | DataOnly(version: nat) | Everything(version: nat)

  datatype Phase =
    | Started
    | HasManifest(manifest: BackupManifest, metaVersion: int)
    | Claimed(manifest: BackupManifest, metaVersion: int)
    | Done(manifest: BackupManifest, stored: BackupVersion, quote: nat)
    | Failed(error: ServiceError, wrote: Wrote)

  datatype Uploader = Uploader(upload: Upload, phase: Phase)

  type Uploaders = map<nat, Uploader>

  datatype State = State(store: KeyStore, uploaders: Uploaders)

  datatype Action =
    | Begin(t: nat, upload: Upload)
    | ReadMeta(t: nat)
    | ClaimData(t: nat)
    | CommitMeta(t: nat)
    | Abort(t: nat)
    | ClaimFault(t: nat)
    | CommitFault(t: nat)
    | PutPayment(paymentId: string, record: PaymentRecord)

  const INIT := State(map[], map[])

  // -------------------------------------------------------------- transitions

  function GetManifest(env: Env, store: KeyStore, id: string): Result<Option<(BackupManifest, int)>, ServiceError> {
    match Lookup(store, Meta(id))
    case None => Ok(None)
    case Some(kv) =>
      match env.decodeManifest(kv.value)
      case Some(m) => Ok(Some((m, kv.version)))
      case None => Err(Internal)
  }

  function GetBackup(env: Env, store: KeyStore, id: string): Result<BackupManifest, ServiceError> {
    match GetManifest(env, store, id)
    case Ok(Some((m, _))) => Ok(m)
    case Ok(None) => Err(NotFound)
    case Err(e) => Err(e)
  }

  function GetBackupData(store: KeyStore, id: string, version: nat): Result<Bytes, ServiceError> {
    match Lookup(store, Data(id, version))
    case Some(kv) => Ok(kv.value)
    case None => Err(NotFound)
  }

  function Admitted(up: Upload): Phase {
    if |up.data| > up.config.maxBackupBytes then Failed(TooLarge, Nothing) else Started
  }

  function AfterRead(env: Env, store: KeyStore, up: Upload): Phase {
    match GetManifest(env, store, IdOf(env, up))
    case Ok(Some((m, v))) => HasManifest(m, v)
    case Ok(None) => HasManifest(Fresh(env, up), 0)
    case Err(e) => Failed(e, Nothing)
  }

  /** The version this upload is after. */
  function Target(phase: Phase): nat
    requires phase.HasManifest? || phase.Claimed?
  {
    phase.manifest.latestVersion + 1
  }

  function ClaimKey(env: Env, u: Uploader): Key
    requires u.phase.HasManifest? || u.phase.Claimed?
  {
    Data(IdOf(env, u.upload), Target(u.phase))
  }

  function Completed(env: Env, u: Uploader): Phase
    requires u.phase.Claimed?
  {
    Done(Extend(env, u.phase.manifest, u.upload),
         VersionOf(env, IdOf(env, u.upload), Target(u.phase), u.upload),
         QuoteMsat(|u.upload.data|, u.upload.config.priceSatsPerMib))
  }

  function SetPhase(s: State, t: nat, phase: Phase): State
    requires t in s.uploaders
  {
    s.(uploaders := s.uploaders[t := s.uploaders[t].(phase := phase)])
  }

  /** A conditional write by uploader `t`, and what it becomes. */
  function Write(s: State, t: nat, key: Key, version: int, value: Bytes, accepted: Phase, refused: Phase): State
    requires t in s.uploaders
  {
    SetPhase(s.(store := PutState(s.store, key, version, value)), t,
             if PutResult(s.store, key, version).Ok? then accepted else refused)
  }

  function Claim(env: Env, s: State, t: nat, accepted: Phase): State
    requires t in s.uploaders && s.uploaders[t].phase.HasManifest?
  {
    var u := s.uploaders[t];
    Write(s, t, ClaimKey(env, u), 0, u.upload.data, accepted, Failed(StoreFailed(Conflict), Nothing))
  }

  function Install(env: Env, s: State, t: nat, accepted: Phase): State
    requires t in s.uploaders && s.uploaders[t].phase.Claimed?
  {
    var u := s.uploaders[t];
    Write(s, t, Meta(IdOf(env, u.upload)), u.phase.metaVersion,
          env.encodeManifest(Extend(env, u.phase.manifest, u.upload)),
          accepted, Failed(StoreFailed(Conflict), DataOnly(Target(u.phase))))
  }

  predicate Enabled(s: State, a: Action) {
    match a
    case Begin(t, _) => t !in s.uploaders
    case ReadMeta(t) => t in s.uploaders && s.uploaders[t].phase.Started?
    case ClaimData(t) => t in s.uploaders && s.uploaders[t].phase.HasManifest?
    case ClaimFault(t) => t in s.uploaders && s.uploaders[t].phase.HasManifest?
    case CommitMeta(t) => t in s.uploaders && s.uploaders[t].phase.Claimed?
    case CommitFault(t) => t in s.uploaders && s.uploaders[t].phase.Claimed?
    case Abort(t) => t in s.uploaders && !s.uploaders[t].phase.Done? && !s.uploaders[t].phase.Failed?
    case PutPayment(_, _) => true
  }

  /** One step; an action that is not enabled does nothing. */
  function Next(env: Env, s: State, a: Action): State {
    if !Enabled(s, a) then s
    else match a
      case Begin(t, up) => s.(uploaders := s.uploaders[t := Uploader(up, Admitted(up))])
      case ReadMeta(t) => SetPhase(s, t, AfterRead(env, s.store, s.uploaders[t].upload))
      case ClaimData(t) =>
        Claim(env, s, t, Claimed(s.uploaders[t].phase.manifest, s.uploaders[t].phase.metaVersion))
      case ClaimFault(t) =>
        Claim(env, s, t, Failed(StoreFailed(Backend), DataOnly(Target(s.uploaders[t].phase))))
      case CommitMeta(t) => Install(env, s, t, Completed(env, s.uploaders[t]))
      case CommitFault(t) =>
        Install(env, s, t, Failed(StoreFailed(Backend), Everything(Target(s.uploaders[t].phase))))
      case Abort(t) =>
        SetPhase(s, t, Failed(Internal, if s.uploaders[t].phase.Claimed? then DataOnly(Target(s.uploaders[t].phase)) else Nothing))
      case PutPayment(paymentId, record) =>
        s.(store := PutState(s.store, Payment(paymentId), 0, env.encodePayment(record)))
  }

  // ------------------------------------------------------------ specification

  /** The abstract state: one append-only log per series. */
  type Logs = map<string, Log>

  function Series(logs: Logs, id: string): Log {
    if id in logs then logs[id] else []
  }

  function Append(logs: Logs, id: string, c: Commit): Logs {
    logs[id := Series(logs, id) + [c]]
  }

  /** A step takes effect in the log at the manifest write, and only there. */
  function LogNext(env: Env, s: State, logs: Logs, a: Action): Logs {
    if (a.CommitMeta? || a.CommitFault?) && Enabled(s, a)
       && PutResult(s.store, Meta(IdOf(env, s.uploaders[a.t].upload)), s.uploaders[a.t].phase.metaVersion).Ok?
    then Append(logs, IdOf(env, s.uploaders[a.t].upload), Commit(a.t, s.uploaders[a.t].upload))
    else logs
  }

  // ---------------------------------------------------------------- invariant

  /** The store holds exactly this history, plus at most one version beyond it. */
  ghost predicate SeriesOk(env: Env, store: KeyStore, id: string, log: Log) {
    && (if log == [] then Meta(id) !in store
        else Meta(id) in store && store[Meta(id)] == Versioned(|log|, env.encodeManifest(ManifestOf(env, log))))
    && (forall i :: 0 <= i < |log| ==> IdOf(env, log[i].upload) == id)
    && (forall v: nat :: 1 <= v <= |log| ==> Data(id, v) in store && store[Data(id, v)] == Versioned(1, log[v - 1].upload.data))
    && (forall v: nat :: v == 0 || v > |log| + 1 ==> Data(id, v) !in store)
  }

  ghost predicate CommittedAt(log: Log, t: nat, up: Upload, version: nat) {
    1 <= version <= |log| && log[version - 1] == Commit(t, up)
  }

  ghost predicate UploaderOk(env: Env, store: KeyStore, log: Log, t: nat, u: Uploader) {
    var id := IdOf(env, u.upload);
    match u.phase
    case Started => true
    case HasManifest(m, v) => 0 <= v <= |log| && m == Snapshot(env, log[..v], u.upload)
    case Claimed(m, v) =>
      v == |log| && m == Snapshot(env, log, u.upload)
      && Data(id, |log| + 1) in store && store[Data(id, |log| + 1)] == Versioned(1, u.upload.data)
    case Done(m, stored, quote) =>
      && CommittedAt(log, t, u.upload, stored.version)
      && m == ManifestOf(env, log[..stored.version])
      && stored == VersionOf(env, id, stored.version, u.upload)
      && quote == QuoteMsat(|u.upload.data|, u.upload.config.priceSatsPerMib)
    case Failed(_, Nothing) => true
    case Failed(_, DataOnly(v)) => v == |log| + 1 && Data(id, v) in store
    case Failed(_, Everything(v)) => CommittedAt(log, t, u.upload, v)
  }

  /** This uploader created the data key beyond the log of series `id`. */
  predicate Holds(env: Env, u: Uploader, id: string) {
    IdOf(env, u.upload) == id && (u.phase.Claimed? || (u.phase.Failed? && u.phase.wrote.DataOnly?))
  }

  /** The version this uploader committed, or 0. */
  function CommittedVersion(u: Uploader): nat {
    if u.phase.Done? then u.phase.stored.version
    else if u.phase.Failed? && u.phase.wrote.Everything? then u.phase.wrote.version
    else 0
  }

  ghost predicate OwnerOk(us: Uploaders, c: Commit, version: nat) {
    c.owner in us && us[c.owner].upload == c.upload && CommittedVersion(us[c.owner]) == version
  }

  ghost predicate Histories(env: Env, store: KeyStore, logs: Logs) {
    forall id :: SeriesOk(env, store, id, Series(logs, id))
  }

  ghost predicate UploadersOk(env: Env, store: KeyStore, us: Uploaders, logs: Logs) {
    forall t :: t in us ==> UploaderOk(env, store, Series(logs, IdOf(env, us[t].upload)), t, us[t])
  }

  /** Nobody shares a claim. */
  ghost predicate ClaimsExclusive(env: Env, us: Uploaders) {
    forall t1, t2, id ::
      (t1 in us && t2 in us && Holds(env, us[t1], id) && Holds(env, us[t2], id)) ==> t1 == t2
  }

  ghost predicate Held(env: Env, us: Uploaders, id: string) {
    exists t :: t in us && Holds(env, us[t], id)
  }

  /** A data key beyond the log has an uploader that created it. */
  ghost predicate PendingHeld(env: Env, store: KeyStore, us: Uploaders, logs: Logs) {
    forall id :: Data(id, |Series(logs, id)| + 1) in store ==> Held(env, us, id)
  }

  ghost predicate OwnersOk(us: Uploaders, logs: Logs) {
    forall id, i :: 0 <= i < |Series(logs, id)| ==> OwnerOk(us, Series(logs, id)[i], i + 1)
  }

  ghost predicate Inv(env: Env, s: State, logs: Logs) {
    && Faithful(env)
    && VersionsPositive(s.store)
    && Histories(env, s.store, logs)
    && UploadersOk(env, s.store, s.uploaders, logs)
    && ClaimsExclusive(env, s.uploaders)
    && PendingHeld(env, s.store, s.uploaders, logs)
    && OwnersOk(s.uploaders, logs)
  }

  lemma InitInv(env: Env)
    requires Faithful(env)
    ensures Inv(env, INIT, map[])
  {}

  // -------------------------------------------------------------- preservation

  /** Reading a manifest of the store gives the history so far. */
  lemma ReadsHistory(env: Env, store: KeyStore, id: string, log: Log)
    requires Faithful(env) && SeriesOk(env, store, id, log)
    ensures GetManifest(env, store, id) == Ok(if log == [] then None else Some((ManifestOf(env, log), |log|)))
  {}

  lemma SnapshotLatest(env: Env, log: Log, up: Upload)
    ensures Snapshot(env, log, up).latestVersion == |log|
    decreases |log|
  {
    if log != [] {
      SnapshotLatest(env, log[..|log| - 1], log[|log| - 1].upload);
    }
  }

  /** The same claim and the same commitment, as far as the invariant can tell. */
  ghost predicate SameStanding(env: Env, us: Uploaders, t: nat, u: Uploader) {
    if t in us then
      && us[t].upload == u.upload
      && Holds(env, us[t], IdOf(env, u.upload)) == Holds(env, u, IdOf(env, u.upload))
      && CommittedVersion(us[t]) == CommittedVersion(u)
    else !Holds(env, u, IdOf(env, u.upload)) && CommittedVersion(u) == 0
  }

  lemma HeldPersists(env: Env, us: Uploaders, t: nat, u: Uploader, id: string)
    requires Held(env, us, id)
    requires t in us && Holds(env, us[t], id) ==> Holds(env, u, id)
    ensures Held(env, us[t := u], id)
  {
    var h :| h in us && Holds(env, us[h], id);
    assert Holds(env, us[t := u][h], id);
  }

  lemma StandingHeld(env: Env, store: KeyStore, us: Uploaders, logs: Logs, t: nat, u: Uploader)
    requires SameStanding(env, us, t, u) && PendingHeld(env, store, us, logs)
    ensures PendingHeld(env, store, us[t := u], logs)
  {
    forall id | Data(id, |Series(logs, id)| + 1) in store ensures Held(env, us[t := u], id) {
      HeldPersists(env, us, t, u, id);
    }
  }

  lemma StandingExclusive(env: Env, us: Uploaders, t: nat, u: Uploader)
    requires SameStanding(env, us, t, u) && ClaimsExclusive(env, us)
    ensures ClaimsExclusive(env, us[t := u])
  {}

  lemma SameCommitment(us: Uploaders, logs: Logs, t: nat, u: Uploader)
    requires OwnersOk(us, logs)
    requires if t in us then us[t].upload == u.upload && CommittedVersion(us[t]) == CommittedVersion(u)
             else CommittedVersion(u) == 0
    ensures OwnersOk(us[t := u], logs)
  {
    forall id, i | 0 <= i < |Series(logs, id)| ensures OwnerOk(us[t := u], Series(logs, id)[i], i + 1) {
      assert OwnerOk(us, Series(logs, id)[i], i + 1);
    }
  }

  /** A step that only sets one uploader, without changing what it holds or has committed. */
  lemma UploaderStep(env: Env, s: State, logs: Logs, t: nat, u: Uploader)
    requires Inv(env, s, logs)
    requires UploaderOk(env, s.store, Series(logs, IdOf(env, u.upload)), t, u)
    requires SameStanding(env, s.uploaders, t, u)
    ensures Inv(env, s.(uploaders := s.uploaders[t := u]), logs)
  {
    StandingHeld(env, s.store, s.uploaders, logs, t, u);
    StandingExclusive(env, s.uploaders, t, u);
    SameCommitment(s.uploaders, logs, t, u);
  }

  lemma ReadStep(env: Env, s: State, logs: Logs, t: nat)
    requires Inv(env, s, logs) && Enabled(s, ReadMeta(t))
    ensures Inv(env, Next(env, s, ReadMeta(t)), logs)
  {
    var up := s.uploaders[t].upload;
    var log := Series(logs, IdOf(env, up));
    ReadsHistory(env, s.store, IdOf(env, up), log);
    assert log[..|log|] == log;
    UploaderStep(env, s, logs, t, Uploader(up, AfterRead(env, s.store, up)));
  }

  lemma KeysOfHistory(env: Env, store: KeyStore, id: string, log: Log, v: nat)
    requires SeriesOk(env, store, id, log) && VersionsPositive(store)
    ensures 1 <= v <= |log| ==> Data(id, v) in store
    ensures PutResult(store, Data(id, v), 0).Ok? <==> Data(id, v) !in store
  {
    assert Data(id, v) in store ==> store[Data(id, v)].version >= 1;
  }

  /** What an upload with a manifest knows of its series. */
  lemma KnownPrefix(env: Env, s: State, logs: Logs, t: nat)
    requires Inv(env, s, logs) && Enabled(s, ClaimData(t))
    ensures var u := s.uploaders[t]; var log := Series(logs, IdOf(env, u.upload)); var v := u.phase.metaVersion;
            && 0 <= v <= |log| && u.phase.manifest == Snapshot(env, log[..v], u.upload) && Target(u.phase) == v + 1
            && SeriesOk(env, s.store, IdOf(env, u.upload), log)
  {
    var u := s.uploaders[t];
    var log := Series(logs, IdOf(env, u.upload));
    assert UploaderOk(env, s.store, log, t, u);
    SnapshotLatest(env, log[..u.phase.metaVersion], u.upload);
  }

  /** A claim is accepted when its key is absent, and then the upload's manifest is up to date. */
  lemma ClaimOutcome(env: Env, s: State, logs: Logs, t: nat)
    requires Inv(env, s, logs) && Enabled(s, ClaimData(t))
    ensures var u := s.uploaders[t]; var log := Series(logs, IdOf(env, u.upload));
            && Target(u.phase) == u.phase.metaVersion + 1
            && (PutResult(s.store, ClaimKey(env, u), 0).Ok? <==> ClaimKey(env, u) !in s.store)
            && (ClaimKey(env, u) !in s.store ==> u.phase.metaVersion == |log| && u.phase.manifest == Snapshot(env, log, u.upload))
  {
    var u := s.uploaders[t];
    var log := Series(logs, IdOf(env, u.upload));
    KnownPrefix(env, s, logs, t);
    KeysOfHistory(env, s.store, IdOf(env, u.upload), log, u.phase.metaVersion + 1);
    assert log[..|log|] == log;
  }

  predicate Concerns(key: Key, id: string) {
    !key.Payment? && key.id == id
  }

  /** A write to another series, or to the payments, leaves a history alone. */
  lemma SeriesUntouched(env: Env, store: KeyStore, id: string, log: Log, key: Key, kv: Versioned)
    requires SeriesOk(env, store, id, log) && !Concerns(key, id)
    ensures SeriesOk(env, store[key := kv], id, log)
  {
    assert key != Meta(id) && forall v: nat :: key != Data(id, v);
  }

  lemma UploaderUntouched(env: Env, store: KeyStore, log: Log, t: nat, u: Uploader, key: Key, kv: Versioned)
    requires UploaderOk(env, store, log, t, u) && !Concerns(key, IdOf(env, u.upload))
    ensures UploaderOk(env, store[key := kv], log, t, u)
  {}

  /** The store after a version beyond the log of `id` was created. */
  lemma HistoriesAfterClaim(env: Env, store: KeyStore, logs: Logs, id: string, data: Bytes)
    requires Histories(env, store, logs)
    ensures Histories(env, store[Data(id, |Series(logs, id)| + 1) := Versioned(1, data)], logs)
  {}

  lemma UploadersAfterClaim(env: Env, store: KeyStore, us: Uploaders, logs: Logs, key: Key, kv: Versioned)
    requires UploadersOk(env, store, us, logs) && key !in store
    ensures UploadersOk(env, store[key := kv], us, logs)
  {
    forall t | t in us
      ensures UploaderOk(env, store[key := kv], Series(logs, IdOf(env, us[t].upload)), t, us[t])
    {
      assert UploaderOk(env, store, Series(logs, IdOf(env, us[t].upload)), t, us[t]);
    }
  }

  lemma PendingAfterClaim(env: Env, store: KeyStore, us: Uploaders, logs: Logs, t: nat, u: Uploader, id: string, kv: Versioned)
    requires PendingHeld(env, store, us, logs) && Holds(env, u, id) && IdOf(env, u.upload) == id
    requires t in us ==> us[t].upload == u.upload
    ensures PendingHeld(env, store[Data(id, |Series(logs, id)| + 1) := kv], us[t := u], logs)
  {
    var store' := store[Data(id, |Series(logs, id)| + 1) := kv];
    forall other | Data(other, |Series(logs, other)| + 1) in store' ensures Held(env, us[t := u], other) {
      if other == id {
        assert Holds(env, us[t := u][t], id);
      } else {
        HeldPersists(env, us, t, u, other);
      }
    }
  }

  /** A holder's key is in the store. */
  lemma HeldMeansPresent(env: Env, s: State, logs: Logs, id: string)
    requires Inv(env, s, logs)
    ensures Held(env, s.uploaders, id) <==> Data(id, |Series(logs, id)| + 1) in s.store
  {}

  lemma ExclusiveAfterClaim(env: Env, us: Uploaders, t: nat, u: Uploader)
    requires ClaimsExclusive(env, us) && !Held(env, us, IdOf(env, u.upload))
    ensures ClaimsExclusive(env, us[t := u])
  {}

  ghost predicate ClaimPhase(u: Uploader, phase: Phase)
    requires u.phase.HasManifest?
  {
    phase == Claimed(u.phase.manifest, u.phase.metaVersion)
    || phase == Failed(StoreFailed(Backend), DataOnly(Target(u.phase)))
  }

  /** The uploader that created the key, with its new phase, and all the others. */
  lemma ClaimantOk(env: Env, s: State, logs: Logs, t: nat, phase: Phase)
    requires Inv(env, s, logs) && Enabled(s, ClaimData(t))
    requires ClaimKey(env, s.uploaders[t]) !in s.store && ClaimPhase(s.uploaders[t], phase)
    ensures var u := s.uploaders[t]; var kv := Versioned(1, u.upload.data);
            UploadersOk(env, s.store[ClaimKey(env, u) := kv], s.uploaders[t := u.(phase := phase)], logs)
  {
    var u := s.uploaders[t];
    ClaimOutcome(env, s, logs, t);
    UploadersAfterClaim(env, s.store, s.uploaders, logs, ClaimKey(env, u), Versioned(1, u.upload.data));
  }

  lemma ClaimStaysExclusive(env: Env, s: State, logs: Logs, t: nat, u: Uploader)
    requires Inv(env, s, logs)
    requires var id := IdOf(env, u.upload); Data(id, |Series(logs, id)| + 1) !in s.store
    ensures ClaimsExclusive(env, s.uploaders[t := u])
  {
    HeldMeansPresent(env, s, logs, IdOf(env, u.upload));
    ExclusiveAfterClaim(env, s.uploaders, t, u);
  }

  lemma ClaimAccepted(env: Env, s: State, logs: Logs, t: nat, phase: Phase)
    requires Inv(env, s, logs) && Enabled(s, ClaimData(t))
    requires ClaimKey(env, s.uploaders[t]) !in s.store && ClaimPhase(s.uploaders[t], phase)
    ensures var u := s.uploaders[t];
            Inv(env, State(s.store[ClaimKey(env, u) := Versioned(1, u.upload.data)], s.uploaders[t := u.(phase := phase)]), logs)
  {
    var u := s.uploaders[t];
    var u' := u.(phase := phase);
    var id := IdOf(env, u.upload);
    var kv := Versioned(1, u.upload.data);
    ClaimOutcome(env, s, logs, t);
    assert ClaimKey(env, u) == Data(id, |Series(logs, id)| + 1);
    HistoriesAfterClaim(env, s.store, logs, id, u.upload.data);
    ClaimantOk(env, s, logs, t, phase);
    ClaimStaysExclusive(env, s, logs, t, u');
    PendingAfterClaim(env, s.store, s.uploaders, logs, t, u', id, kv);
    SameCommitment(s.uploaders, logs, t, u');
  }

  /** Creating the key one beyond the log. */
  lemma ClaimStep(env: Env, s: State, logs: Logs, t: nat, accepted: Phase)
    requires Inv(env, s, logs) && Enabled(s, ClaimData(t))
    requires ClaimPhase(s.uploaders[t], accepted)
    ensures Inv(env, Claim(env, s, t, accepted), logs)
  {
    var u := s.uploaders[t];
    if ClaimKey(env, u) in s.store {
      ClaimOutcome(env, s, logs, t);
      UploaderStep(env, s, logs, t, u.(phase := Failed(StoreFailed(Conflict), Nothing)));
    } else {
      ClaimAccepted(env, s, logs, t, accepted);
    }
  }

  /**
    The manifest write of a claim holder never loses: since it created
    `v<n+1>`, the manifest is still the one it read.
   */
  lemma ClaimHolderWins(env: Env, s: State, logs: Logs, t: nat)
    requires Inv(env, s, logs) && Enabled(s, CommitMeta(t))
    ensures var u := s.uploaders[t]; var log := Series(logs, IdOf(env, u.upload));
            && PutResult(s.store, Meta(IdOf(env, u.upload)), u.phase.metaVersion) == Ok(|log| + 1)
            && u.phase.metaVersion == |log| && u.phase.manifest == Snapshot(env, log, u.upload)
            && Target(u.phase) == |log| + 1
            && GetManifest(env, s.store, IdOf(env, u.upload)) == Ok(if log == [] then None else Some((u.phase.manifest, |log|)))
  {
    var u := s.uploaders[t];
    var log := Series(logs, IdOf(env, u.upload));
    assert UploaderOk(env, s.store, log, t, u);
    assert SeriesOk(env, s.store, IdOf(env, u.upload), log);
    SnapshotLatest(env, log, u.upload);
    ReadsHistory(env, s.store, IdOf(env, u.upload), log);
  }

  /** The history grown by one commit, and the manifest that records it. */
  lemma HistoryGrows(env: Env, store: KeyStore, id: string, log: Log, c: Commit)
    requires SeriesOk(env, store, id, log) && IdOf(env, c.upload) == id
    requires Data(id, |log| + 1) in store && store[Data(id, |log| + 1)] == Versioned(1, c.upload.data)
    requires Data(id, |log| + 2) !in store
    ensures ManifestOf(env, log + [c]) == Extend(env, Snapshot(env, log, c.upload), c.upload)
    ensures SeriesOk(env, store[Meta(id) := Versioned(|log| + 1, env.encodeManifest(ManifestOf(env, log + [c])))], id, log + [c])
  {
    assert (log + [c])[..|log|] == log;
  }

  lemma HistoriesAfterCommit(env: Env, store: KeyStore, logs: Logs, id: string, c: Commit, kv: Versioned)
    requires Histories(env, store, logs)
    requires SeriesOk(env, store[Meta(id) := kv], id, Series(logs, id) + [c])
    ensures Histories(env, store[Meta(id) := kv], Append(logs, id, c))
  {
    forall other ensures SeriesOk(env, store[Meta(id) := kv], other, Series(Append(logs, id, c), other)) {
      if other != id {
        SeriesUntouched(env, store, other, Series(logs, other), Meta(id), kv);
      }
    }
  }

  /** An uploader without a claim is undisturbed by a commit to its series. */
  lemma BystanderAfterCommit(env: Env, store: KeyStore, log: Log, t: nat, u: Uploader, c: Commit, kv: Versioned)
    requires UploaderOk(env, store, log, t, u) && !Holds(env, u, IdOf(env, u.upload))
    ensures UploaderOk(env, store[Meta(IdOf(env, u.upload)) := kv], log + [c], t, u)
  {
    if u.phase.HasManifest? {
      assert (log + [c])[..u.phase.metaVersion] == log[..u.phase.metaVersion];
    } else if u.phase.Done? {
      var v := u.phase.stored.version;
      assert (log + [c])[..v] == log[..v];
    }
  }

  lemma UploadersAfterCommit(env: Env, store: KeyStore, us: Uploaders, logs: Logs, t: nat, u: Uploader, kv: Versioned)
    requires UploadersOk(env, store, us, logs) && ClaimsExclusive(env, us)
    requires t in us && us[t].upload == u.upload && Holds(env, us[t], IdOf(env, u.upload))
    requires var id := IdOf(env, u.upload); var c := Commit(t, u.upload);
             UploaderOk(env, store[Meta(id) := kv], Series(logs, id) + [c], t, u)
    ensures var id := IdOf(env, u.upload);
            UploadersOk(env, store[Meta(id) := kv], us[t := u], Append(logs, id, Commit(t, u.upload)))
  {
    var id := IdOf(env, u.upload);
    var c := Commit(t, u.upload);
    var logs' := Append(logs, id, c);
    var us' := us[t := u];
    forall o | o in us'
      ensures UploaderOk(env, store[Meta(id) := kv], Series(logs', IdOf(env, us'[o].upload)), o, us'[o])
    {
      if o != t {
        var mine := IdOf(env, us[o].upload);
        if mine == id {
          BystanderAfterCommit(env, store, Series(logs, id), o, us[o], c, kv);
        } else {
          UploaderUntouched(env, store, Series(logs, mine), o, us[o], Meta(id), kv);
        }
      }
    }
  }

  lemma OwnersAfterCommit(us: Uploaders, logs: Logs, t: nat, u: Uploader, id: string)
    requires OwnersOk(us, logs) && t in us && us[t].upload == u.upload
    requires CommittedVersion(us[t]) == 0 && CommittedVersion(u) == |Series(logs, id)| + 1
    ensures OwnersOk(us[t := u], Append(logs, id, Commit(t, u.upload)))
  {
    var logs' := Append(logs, id, Commit(t, u.upload));
    forall other, i | 0 <= i < |Series(logs', other)| ensures OwnerOk(us[t := u], Series(logs', other)[i], i + 1) {
      if i < |Series(logs, other)| {
        assert OwnerOk(us, Series(logs, other)[i], i + 1);
      }
    }
  }

  lemma PendingAfterCommit(env: Env, store: KeyStore, us: Uploaders, logs: Logs, t: nat, u: Uploader, kv: Versioned)
    requires PendingHeld(env, store, us, logs) && t in us && us[t].upload == u.upload
    requires Data(IdOf(env, u.upload), |Series(logs, IdOf(env, u.upload))| + 2) !in store
    ensures var id := IdOf(env, u.upload);
            PendingHeld(env, store[Meta(id) := kv], us[t := u], Append(logs, id, Commit(t, u.upload)))
  {
    var id := IdOf(env, u.upload);
    var logs' := Append(logs, id, Commit(t, u.upload));
    forall other | Data(other, |Series(logs', other)| + 1) in store[Meta(id) := kv] ensures Held(env, us[t := u], other) {
      assert other != id;
      HeldPersists(env, us, t, u, other);
    }
  }

  ghost predicate CommitPhase(env: Env, u: Uploader, phase: Phase)
    requires u.phase.Claimed?
  {
    phase == Completed(env, u) || phase == Failed(StoreFailed(Backend), Everything(Target(u.phase)))
  }

  lemma CommitterOk(env: Env, store: KeyStore, log: Log, t: nat, u: Uploader, phase: Phase)
    requires u.phase.Claimed? && CommitPhase(env, u, phase)
    requires u.phase.manifest == Snapshot(env, log, u.upload) && Target(u.phase) == |log| + 1
    ensures UploaderOk(env, store, log + [Commit(t, u.upload)], t, u.(phase := phase))
  {
    var log' := log + [Commit(t, u.upload)];
    assert log'[..|log|] == log && log'[..|log| + 1] == log';
  }

  lemma CommitKeepsInv(env: Env, s: State, logs: Logs, t: nat, u: Uploader, kv: Versioned)
    requires Inv(env, s, logs) && t in s.uploaders && s.uploaders[t].phase.Claimed? && s.uploaders[t].upload == u.upload
    requires !Holds(env, u, IdOf(env, u.upload)) && kv.version >= 1
    requires var id := IdOf(env, u.upload); var log' := Series(logs, id) + [Commit(t, u.upload)];
             && SeriesOk(env, s.store[Meta(id) := kv], id, log')
             && UploaderOk(env, s.store[Meta(id) := kv], log', t, u)
             && CommittedVersion(u) == |log'|
    ensures var id := IdOf(env, u.upload);
            Inv(env, State(s.store[Meta(id) := kv], s.uploaders[t := u]), Append(logs, id, Commit(t, u.upload)))
  {
    var id := IdOf(env, u.upload);
    assert SeriesOk(env, s.store, id, Series(logs, id));
    HistoriesAfterCommit(env, s.store, logs, id, Commit(t, u.upload), kv);
    UploadersAfterCommit(env, s.store, s.uploaders, logs, t, u, kv);
    OwnersAfterCommit(s.uploaders, logs, t, u, id);
    PendingAfterCommit(env, s.store, s.uploaders, logs, t, u, kv);
  }

  /** The manifest write, reported or not, appends the upload to its series' log. */
  lemma CommitStep(env: Env, s: State, logs: Logs, t: nat, phase: Phase)
    requires Inv(env, s, logs) && Enabled(s, CommitMeta(t)) && CommitPhase(env, s.uploaders[t], phase)
    ensures var u := s.uploaders[t];
            Inv(env, Install(env, s, t, phase), Append(logs, IdOf(env, u.upload), Commit(t, u.upload)))
  {
    var u := s.uploaders[t];
    var id := IdOf(env, u.upload);
    var log := Series(logs, id);
    var c := Commit(t, u.upload);
    ClaimHolderWins(env, s, logs, t);
    assert SeriesOk(env, s.store, id, log);
    HistoryGrows(env, s.store, id, log, c);
    var kv := Versioned(|log| + 1, env.encodeManifest(ManifestOf(env, log + [c])));
    CommitterOk(env, s.store[Meta(id) := kv], log, t, u, phase);
    CommitKeepsInv(env, s, logs, t, u.(phase := phase), kv);
  }

  lemma PaymentStored(env: Env, s: State, logs: Logs, paymentId: string, kv: Versioned)
    requires Inv(env, s, logs) && kv.version >= 1
    ensures Inv(env, s.(store := s.store[Payment(paymentId) := kv]), logs)
  {
    forall id ensures SeriesOk(env, s.store[Payment(paymentId) := kv], id, Series(logs, id)) {
      SeriesUntouched(env, s.store, id, Series(logs, id), Payment(paymentId), kv);
    }
    forall t | t in s.uploaders
      ensures UploaderOk(env, s.store[Payment(paymentId) := kv], Series(logs, IdOf(env, s.uploaders[t].upload)), t, s.uploaders[t])
    {
      UploaderUntouched(env, s.store, Series(logs, IdOf(env, s.uploaders[t].upload)), t, s.uploaders[t], Payment(paymentId), kv);
    }
  }

  lemma PaymentStep(env: Env, s: State, logs: Logs, paymentId: string, record: PaymentRecord)
    requires Inv(env, s, logs)
    ensures Inv(env, Next(env, s, PutPayment(paymentId, record)), logs)
  {
    ConditionalPut(s.store, Payment(paymentId), 0, env.encodePayment(record));
    if PutResult(s.store, Payment(paymentId), 0).Ok? {
      PaymentStored(env, s, logs, paymentId, Versioned(1, env.encodePayment(record)));
    }
  }

  lemma AbortStep(env: Env, s: State, logs: Logs, t: nat)
    requires Inv(env, s, logs) && Enabled(s, Abort(t))
    ensures Inv(env, Next(env, s, Abort(t)), logs)
  {
    var u := s.uploaders[t];
    if u.phase.Claimed? {
      ClaimHolderWins(env, s, logs, t);
      UploaderStep(env, s, logs, t, u.(phase := Failed(Internal, DataOnly(Target(u.phase)))));
    } else {
      UploaderStep(env, s, logs, t, u.(phase := Failed(Internal, Nothing)));
    }
  }

  lemma BeginStep(env: Env, s: State, logs: Logs, t: nat, up: Upload)
    requires Inv(env, s, logs) && Enabled(s, Begin(t, up))
    ensures Inv(env, Next(env, s, Begin(t, up)), logs)
  {
    UploaderStep(env, s, logs, t, Uploader(up, Admitted(up)));
  }

  lemma CommitMetaStep(env: Env, s: State, logs: Logs, t: nat)
    requires Inv(env, s, logs) && Enabled(s, CommitMeta(t))
    ensures Inv(env, Next(env, s, CommitMeta(t)), LogNext(env, s, logs, CommitMeta(t)))
  {
    ClaimHolderWins(env, s, logs, t);
    CommitStep(env, s, logs, t, Completed(env, s.uploaders[t]));
  }

  lemma CommitFaultStep(env: Env, s: State, logs: Logs, t: nat)
    requires Inv(env, s, logs) && Enabled(s, CommitFault(t))
    ensures Inv(env, Next(env, s, CommitFault(t)), LogNext(env, s, logs, CommitFault(t)))
  {
    ClaimHolderWins(env, s, logs, t);
    CommitStep(env, s, logs, t, Failed(StoreFailed(Backend), Everything(Target(s.uploaders[t].phase))));
  }

  lemma ClaimDataStep(env: Env, s: State, logs: Logs, t: nat)
    requires Inv(env, s, logs) && Enabled(s, ClaimData(t))
    ensures Inv(env, Next(env, s, ClaimData(t)), logs)
  {
    ClaimStep(env, s, logs, t, Claimed(s.uploaders[t].phase.manifest, s.uploaders[t].phase.metaVersion));
  }

  lemma ClaimFaultStep(env: Env, s: State, logs: Logs, t: nat)
    requires Inv(env, s, logs) && Enabled(s, ClaimFault(t))
    ensures Inv(env, Next(env, s, ClaimFault(t)), logs)
  {
    ClaimStep(env, s, logs, t, Failed(StoreFailed(Backend), DataOnly(Target(s.uploaders[t].phase))));
  }

  /** Every step keeps the invariant, with the log moving as the specification says. */
  lemma StepKeepsInv(env: Env, s: State, logs: Logs, a: Action)
    requires Inv(env, s, logs)
    ensures Inv(env, Next(env, s, a), LogNext(env, s, logs, a))
  {
    if Enabled(s, a) {
      match a {
        case Begin(t, up) => BeginStep(env, s, logs, t, up);
        case ReadMeta(t) => ReadStep(env, s, logs, t);
        case ClaimData(t) => ClaimDataStep(env, s, logs, t);
        case ClaimFault(t) => ClaimFaultStep(env, s, logs, t);
        case CommitMeta(t) => CommitMetaStep(env, s, logs, t);
        case CommitFault(t) => CommitFaultStep(env, s, logs, t);
        case Abort(t) => AbortStep(env, s, logs, t);
        case PutPayment(paymentId, record) => PaymentStep(env, s, logs, paymentId, record);
      }
    }
  }
}
