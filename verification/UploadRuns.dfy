/**
  What the upload protocol guarantees over whole runs: refinement of the
  append-only log, durability, safe readers, and exactly when uploads progress.
 */
module UploadRuns {
  import opened Bytes
  import opened Wrappers
  import opened Keys
  import opened Ordering
  import opened Store
  import opened Torrent
  import opened Manifest
  import opened Uploads

  /** The store side by side with its specification. */
  datatype World = World(s: State, logs: Logs)

  function StepWorld(env: Env, w: World, a: Action): World {
    World(Next(env, w.s, a), LogNext(env, w.s, w.logs, a))
  }

  function Run(env: Env, w: World, actions: seq<Action>): World
    decreases |actions|
  {
    if actions == [] then w else Run(env, StepWorld(env, w, actions[0]), actions[1..])
  }

  ghost predicate Good(env: Env, w: World) {
    Inv(env, w.s, w.logs)
  }

  lemma {:induction false} RunAppend(env: Env, w: World, first: seq<Action>, second: seq<Action>)
    ensures Run(env, w, first + second) == Run(env, Run(env, w, first), second)
    decreases |first|
  {
    if first == [] {
      assert first + second == second;
    } else {
      RunAppend(env, StepWorld(env, w, first[0]), first[1..], second);
      assert (first + second)[1..] == first[1..] + second;
    }
  }

  // --------------------------------------------------------------- refinement

  /**
    One step refines the specification: the logs stay, or one uploader's
    upload is appended to its own series.
   */
  lemma StepRefinesLog(env: Env, w: World, a: Action)
    requires Good(env, w)
    ensures Good(env, StepWorld(env, w, a))
    ensures var logs' := StepWorld(env, w, a).logs;
            logs' == w.logs ||
            (exists t :: t in w.s.uploaders && CommittedVersion(w.s.uploaders[t]) == 0
               && logs' == Append(w.logs, IdOf(env, w.s.uploaders[t].upload), Commit(t, w.s.uploaders[t].upload)))
  {
    StepKeepsInv(env, w.s, w.logs, a);
  }

  lemma StepExtends(env: Env, w: World, a: Action, id: string)
    ensures Series(w.logs, id) <= Series(StepWorld(env, w, a).logs, id)
  {}

  /** In every reachable state the invariant holds, and logs have only grown. */
  lemma {:induction false} RunRefinesLog(env: Env, w: World, actions: seq<Action>)
    requires Good(env, w)
    ensures Good(env, Run(env, w, actions))
    ensures forall id :: Series(w.logs, id) <= Series(Run(env, w, actions).logs, id)
    decreases |actions|
  {
    if actions != [] {
      var w' := StepWorld(env, w, actions[0]);
      StepRefinesLog(env, w, actions[0]);
      RunRefinesLog(env, w', actions[1..]);
      forall id ensures Series(w.logs, id) <= Series(Run(env, w, actions).logs, id) {
        StepExtends(env, w, actions[0], id);
        assert Series(w'.logs, id) <= Series(Run(env, w', actions[1..]).logs, id);
      }
    }
  }

  lemma RunExtends(env: Env, w: World, actions: seq<Action>, id: string)
    requires Good(env, w)
    ensures Good(env, Run(env, w, actions))
    ensures Series(w.logs, id) <= Series(Run(env, w, actions).logs, id)
  {
    RunRefinesLog(env, w, actions);
  }

  /** What the manifest and the store say of version `v`: the upload that committed it. */
  ghost predicate ShowsVersion(env: Env, store: KeyStore, id: Bytes, m: BackupManifest, log: Log, v: nat)
    requires 1 <= v <= |log|
  {
    var up := log[v - 1].upload;
    && v <= |m.versions| && m.versions[v - 1] == VersionOf(env, id, v, up)
    && RecordsData(env, m.versions[v - 1], v, up.data, up.now) && GetBackupData(store, id, v) == Ok(up.data)
  }

  lemma VersionShown(env: Env, store: KeyStore, id: Bytes, log: Log, v: nat)
    requires SeriesOk(env, store, id, log) && 1 <= v <= |log|
    ensures ShowsVersion(env, store, id, ManifestOf(env, log), log, v)
  {
    assert OneSeries(env, id, log);
    ManifestRecordsLog(env, id, log);
    VersionRecordsData(env, id, v, log[v - 1].upload);
    assert Data(id, v) in store;
  }

  /**
    What a client can read of a series is its log: the manifest's versions are
    1..n in order, the manifest key's store version is n, and every listed
    version has the uploaded bytes, with their size and digest.
   */
  lemma StoreShowsLog(env: Env, w: World, id: Bytes)
    requires Good(env, w)
    ensures var log := Series(w.logs, id);
            if log == [] then GetManifest(env, w.s.store, id) == Ok(None)
            else
              && GetManifest(env, w.s.store, id) == Ok(Some((ManifestOf(env, log), |log|)))
              && var m := ManifestOf(env, log);
              && m.backupId == id && m.latestVersion == |m.versions| == |log|
              && forall v :: 1 <= v <= |log| ==> ShowsVersion(env, w.s.store, id, m, log, v)
  {
    var log := Series(w.logs, id);
    assert SeriesOk(env, w.s.store, id, log);
    ReadsHistory(env, w.s.store, id, log);
    if log != [] {
      assert OneSeries(env, id, log);
      ManifestRecordsLog(env, id, log);
      forall v | 1 <= v <= |log| ensures ShowsVersion(env, w.s.store, id, ManifestOf(env, log), log, v) {
        VersionShown(env, w.s.store, id, log, v);
      }
    }
  }

  /**
    What a listed version is recorded as: its number, the size and digest of the
    very bytes the store returns for it, and when they were uploaded.
   */
  lemma ListedVersionRecordsItsData(env: Env, w: World, id: Bytes, v: nat)
    requires Good(env, w) && 1 <= v <= |Series(w.logs, id)|
    ensures var found, data := GetManifest(env, w.s.store, id), GetBackupData(w.s.store, id, v);
            && found.Ok? && found.value.Some? && data.Ok?
            && var m := found.value.value.0;
            && v <= |m.versions| && data.value == Series(w.logs, id)[v - 1].upload.data
            && RecordsData(env, m.versions[v - 1], v, data.value, Series(w.logs, id)[v - 1].upload.now)
  {
    StoreShowsLog(env, w, id);
    var log := Series(w.logs, id);
    assert ShowsVersion(env, w.s.store, id, ManifestOf(env, log), log, v);
  }

  /** And its link leads to a torrent of those bytes. */
  lemma ListedVersionRecordsItsTorrent(env: Env, sha1: Hash, w: World, id: Bytes, v: nat)
    requires Good(env, w) && BuiltOn(env, sha1) && HashesTo20(sha1) && 1 <= v <= |Series(w.logs, id)|
    ensures var found, data := GetManifest(env, w.s.store, id), GetBackupData(w.s.store, id, v);
            && found.Ok? && found.value.Some? && data.Ok?
            && var m := found.value.value.0; var up := Series(w.logs, id)[v - 1].upload;
            && v <= |m.versions|
            && RecordsTorrent(sha1, m.versions[v - 1], id, up.filename, data.value, up.config.trackers)
  {
    StoreShowsLog(env, w, id);
    var log := Series(w.logs, id);
    assert ShowsVersion(env, w.s.store, id, ManifestOf(env, log), log, v);
    VersionRecordsTorrent(env, sha1, id, v, log[v - 1].upload);
  }

  /** No committed upload is lost or duplicated: committed uploaders and log entries correspond one to one. */
  lemma CommitsAreTheLog(env: Env, w: World, t: nat, id: string)
    requires Good(env, w) && t in w.s.uploaders && IdOf(env, w.s.uploaders[t].upload) == id
    ensures var u := w.s.uploaders[t]; var log := Series(w.logs, id);
            && (forall i :: 0 <= i < |log| ==> (log[i].owner == t <==> CommittedVersion(u) == i + 1))
            && (CommittedVersion(u) > 0 ==> CommittedAt(log, t, u.upload, CommittedVersion(u)))
  {
    var u := w.s.uploaders[t];
    var log := Series(w.logs, id);
    forall i | 0 <= i < |log| ensures log[i].owner == t <==> CommittedVersion(u) == i + 1 {
      assert OwnerOk(w.s.uploaders, Series(w.logs, id)[i], i + 1);
      assert UploaderOk(env, w.s.store, log, t, u);
    }
  }

  /** A completed upload returned the manifest of the log as it stood right after its own commit. */
  lemma CompletedUploadResult(env: Env, w: World, t: nat)
    requires Good(env, w) && t in w.s.uploaders && w.s.uploaders[t].phase.Done?
    ensures var u := w.s.uploaders[t]; var log := Series(w.logs, IdOf(env, u.upload)); var v := u.phase.stored.version;
            && CommittedAt(log, t, u.upload, v)
            && u.phase.manifest == ManifestOf(env, log[..v]) && u.phase.manifest.latestVersion == v
            && u.phase.stored == VersionOf(env, IdOf(env, u.upload), v, u.upload)
            && u.phase.quote == QuoteMsat(|u.upload.data|, u.upload.config.priceSatsPerMib)
  {
    var u := w.s.uploaders[t];
    var log := Series(w.logs, IdOf(env, u.upload));
    SnapshotLatest(env, log[..u.phase.stored.version], u.upload);
  }

  /** Every run from the empty store. */
  lemma ReachableStatesAreGood(env: Env, actions: seq<Action>)
    requires Faithful(env)
    ensures Good(env, Run(env, World(INIT, map[]), actions))
  {
    InitInv(env);
    RunRefinesLog(env, World(INIT, map[]), actions);
  }

  /** Two uploads never commit the same version of a series. */
  lemma VersionsAreUnique(env: Env, w: World, t1: nat, t2: nat)
    requires Good(env, w) && t1 in w.s.uploaders && t2 in w.s.uploaders
    requires var u1, u2 := w.s.uploaders[t1], w.s.uploaders[t2];
             && IdOf(env, u1.upload) == IdOf(env, u2.upload)
             && CommittedVersion(u1) == CommittedVersion(u2) > 0
    ensures t1 == t2
  {
    CommitsAreTheLog(env, w, t1, IdOf(env, w.s.uploaders[t1].upload));
    CommitsAreTheLog(env, w, t2, IdOf(env, w.s.uploaders[t1].upload));
  }

  predicate By(a: Action, t: nat) {
    !a.PutPayment? && a.t == t
  }

  lemma StepOfOther(env: Env, s: State, a: Action, t: nat)
    requires t in s.uploaders && (!By(a, t) || !Enabled(s, a))
    ensures t in Next(env, s, a).uploaders && Next(env, s, a).uploaders[t] == s.uploaders[t]
  {}

  lemma ReadSucceeds(env: Env, w: World, t: nat)
    requires Good(env, w) && Enabled(w.s, ReadMeta(t))
    ensures var u := w.s.uploaders[t]; var log := Series(w.logs, IdOf(env, u.upload));
            Next(env, w.s, ReadMeta(t)) == SetPhase(w.s, t, HasManifest(Snapshot(env, log, u.upload), |log|))
  {
    var id := IdOf(env, w.s.uploaders[t].upload);
    ReadsHistory(env, w.s.store, id, Series(w.logs, id));
  }

  lemma CommitSucceeds(env: Env, w: World, t: nat, phase: Phase)
    requires Good(env, w) && Enabled(w.s, CommitMeta(t))
    ensures t in Install(env, w.s, t, phase).uploaders && Install(env, w.s, t, phase).uploaders[t].phase == phase
  {
    ClaimHolderWins(env, w.s, w.logs, t);
  }

  /** A refused claim only ends its upload. */
  lemma ClaimRefusedOrAccepted(env: Env, s: State, t: nat, accepted: Phase)
    requires Enabled(s, ClaimData(t))
    ensures Claim(env, s, t, accepted) == SetPhase(s, t, Failed(StoreFailed(Conflict), Nothing))
            || (t in Claim(env, s, t, accepted).uploaders && Claim(env, s, t, accepted).uploaders[t].phase == accepted)
  {}

  predicate EndsInConflict(before: Phase, after: Phase) {
    before != after && after.Failed? && after.error == StoreFailed(Conflict)
  }

  /** If `t` ended in a conflict between `w` and `w'`, it had written nothing, and nothing else changed. */
  ghost predicate ConflictIsHarmless(w: World, w': World, t: nat)
    requires t in w.s.uploaders
  {
    && t in w'.s.uploaders
    && var before, after := w.s.uploaders[t].phase, w'.s.uploaders[t].phase;
    EndsInConflict(before, after) ==>
      before.HasManifest? && after.wrote == Nothing && w' == World(SetPhase(w.s, t, after), w.logs)
  }

  lemma UntouchedHarmless(w: World, w': World, t: nat)
    requires t in w.s.uploaders && t in w'.s.uploaders && w'.s.uploaders[t] == w.s.uploaders[t]
    ensures ConflictIsHarmless(w, w', t)
  {}

  lemma AbortConflict(env: Env, w: World, t: nat)
    requires Enabled(w.s, Abort(t))
    ensures ConflictIsHarmless(w, StepWorld(env, w, Abort(t)), t)
  {}

  lemma ReadConflict(env: Env, w: World, t: nat)
    requires Good(env, w) && Enabled(w.s, ReadMeta(t))
    ensures ConflictIsHarmless(w, StepWorld(env, w, ReadMeta(t)), t)
  {
    ReadSucceeds(env, w, t);
  }

  lemma ClaimConflict(env: Env, w: World, t: nat, accepted: Phase)
    requires Enabled(w.s, ClaimData(t)) && !EndsInConflict(w.s.uploaders[t].phase, accepted)
    ensures ConflictIsHarmless(w, World(Claim(env, w.s, t, accepted), w.logs), t)
  {
    ClaimRefusedOrAccepted(env, w.s, t, accepted);
  }

  lemma CommitConflict(env: Env, w: World, t: nat, phase: Phase, logs': Logs)
    requires Good(env, w) && Enabled(w.s, CommitMeta(t)) && !EndsInConflict(w.s.uploaders[t].phase, phase)
    ensures ConflictIsHarmless(w, World(Install(env, w.s, t, phase), logs'), t)
  {
    CommitSucceeds(env, w, t, phase);
  }

  /** An upload refused with a version conflict has changed nothing in the store, then or before. */
  lemma ConflictChangesNothing(env: Env, w: World, a: Action, t: nat)
    requires Good(env, w)
    requires t in w.s.uploaders
    ensures ConflictIsHarmless(w, StepWorld(env, w, a), t)
  {
    if !By(a, t) || !Enabled(w.s, a) {
      StepOfOther(env, w.s, a, t);
      UntouchedHarmless(w, StepWorld(env, w, a), t);
    } else {
      var u := w.s.uploaders[t];
      var logs' := LogNext(env, w.s, w.logs, a);
      match a {
        case ReadMeta(_) => ReadConflict(env, w, t);
        case ClaimData(_) => ClaimConflict(env, w, t, Claimed(u.phase.manifest, u.phase.metaVersion));
        case ClaimFault(_) => ClaimConflict(env, w, t, Failed(StoreFailed(Backend), DataOnly(Target(u.phase))));
        case CommitMeta(_) => CommitConflict(env, w, t, Completed(env, u), logs');
        case CommitFault(_) => CommitConflict(env, w, t, Failed(StoreFailed(Backend), Everything(Target(u.phase))), logs');
        case Abort(_) => AbortConflict(env, w, t);
      }
    }
  }

  // --------------------------------------------------------------- durability

  /** Keys stay, and a key's version moves forward whenever its value changes. */
  ghost predicate Advances(before: KeyStore, after: KeyStore) {
    forall k :: k in before ==> k in after && (after[k] == before[k] || after[k].version > before[k].version)
  }

  lemma PutAdvances(store: KeyStore, key: Key, version: int, value: Bytes)
    requires VersionsPositive(store) && version >= 0
    ensures Advances(store, PutState(store, key, version, value))
  {
    ConditionalPut(store, key, version, value);
  }

  lemma CommitAdvances(env: Env, w: World, t: nat, phase: Phase)
    requires Good(env, w) && Enabled(w.s, CommitMeta(t))
    ensures Advances(w.s.store, Install(env, w.s, t, phase).store)
  {
    var u := w.s.uploaders[t];
    ClaimHolderWins(env, w.s, w.logs, t);
    PutAdvances(w.s.store, Meta(IdOf(env, u.upload)), u.phase.metaVersion,
                env.encodeManifest(Extend(env, u.phase.manifest, u.upload)));
  }

  lemma StepAdvances(env: Env, w: World, a: Action)
    requires Good(env, w)
    ensures Advances(w.s.store, StepWorld(env, w, a).s.store)
  {
    var s := w.s;
    if Enabled(s, a) {
      match a {
        case ClaimData(t) => PutAdvances(s.store, ClaimKey(env, s.uploaders[t]), 0, s.uploaders[t].upload.data);
        case ClaimFault(t) => PutAdvances(s.store, ClaimKey(env, s.uploaders[t]), 0, s.uploaders[t].upload.data);
        case CommitMeta(t) => CommitAdvances(env, w, t, Completed(env, s.uploaders[t]));
        case CommitFault(t) => CommitAdvances(env, w, t, Failed(StoreFailed(Backend), Everything(Target(s.uploaders[t].phase))));
        case PutPayment(p, record) => PutAdvances(s.store, Payment(p), 0, env.encodePayment(record));
        case _ =>
      }
    }
  }

  lemma {:induction false} RunAdvances(env: Env, w: World, actions: seq<Action>)
    requires Good(env, w)
    ensures Advances(w.s.store, Run(env, w, actions).s.store)
    decreases |actions|
  {
    if actions != [] {
      StepAdvances(env, w, actions[0]);
      StepRefinesLog(env, w, actions[0]);
      RunAdvances(env, StepWorld(env, w, actions[0]), actions[1..]);
    }
  }

  /** A payment once recorded is never overwritten: every payment write expects an absent key. */
  lemma StepKeepsPayment(env: Env, w: World, a: Action, p: string)
    requires Good(env, w) && Payment(p) in w.s.store
    ensures var store' := StepWorld(env, w, a).s.store; Payment(p) in store' && store'[Payment(p)] == w.s.store[Payment(p)]
  {
    assert w.s.store[Payment(p)].version >= 1;
  }

  lemma {:induction false} RunKeepsPayment(env: Env, w: World, actions: seq<Action>, p: string)
    requires Good(env, w) && Payment(p) in w.s.store
    ensures Good(env, Run(env, w, actions))
    ensures var store' := Run(env, w, actions).s.store; Payment(p) in store' && store'[Payment(p)] == w.s.store[Payment(p)]
    decreases |actions|
  {
    if actions != [] {
      StepKeepsPayment(env, w, actions[0], p);
      StepRefinesLog(env, w, actions[0]);
      RunKeepsPayment(env, StepWorld(env, w, actions[0]), actions[1..], p);
    }
  }

  /** A version key and the upload that created it. */
  datatype Creation = Creation(id: Bytes, version: nat, upload: Upload)

  /** What a step creates: something if it is a claim and is accepted. */
  function CreatedBy(env: Env, s: State, a: Action): seq<Creation> {
    if (a.ClaimData? || a.ClaimFault?) && Enabled(s, a) && PutResult(s.store, ClaimKey(env, s.uploaders[a.t]), 0).Ok?
    then [Creation(IdOf(env, s.uploaders[a.t].upload), Target(s.uploaders[a.t].phase), s.uploaders[a.t].upload)]
    else []
  }

  /** Every version key created along a run, in order. */
  function Creations(env: Env, w: World, actions: seq<Action>): seq<Creation>
    decreases |actions|
  {
    if actions == [] then []
    else CreatedBy(env, w.s, actions[0]) + Creations(env, StepWorld(env, w, actions[0]), actions[1..])
  }

  lemma CreatedIsNew(env: Env, w: World, a: Action, c: Creation)
    requires Good(env, w) && CreatedBy(env, w.s, a) == [c]
    ensures c.id == IdOf(env, c.upload)
    ensures Data(c.id, c.version) !in w.s.store && Data(c.id, c.version) in Next(env, w.s, a).store
  {
    ClaimOutcome(env, w.s, w.logs, a.t);
  }

  /** Keys not yet in this store, all different. */
  ghost predicate NewVersions(env: Env, store: KeyStore, cs: seq<Creation>) {
    && (forall i :: 0 <= i < |cs| ==> cs[i].id == IdOf(env, cs[i].upload) && Data(cs[i].id, cs[i].version) !in store)
    && (forall i, j :: 0 <= i < j < |cs| ==> Data(cs[i].id, cs[i].version) != Data(cs[j].id, cs[j].version))
  }

  lemma NewVersionsEarlier(env: Env, before: KeyStore, after: KeyStore, cs: seq<Creation>)
    requires NewVersions(env, after, cs) && Advances(before, after)
    ensures NewVersions(env, before, cs)
  {}

  lemma NewVersionsCons(env: Env, store: KeyStore, after: KeyStore, c: Creation, cs: seq<Creation>)
    requires NewVersions(env, store, cs) && NewVersions(env, after, cs)
    requires c.id == IdOf(env, c.upload) && Data(c.id, c.version) !in store && Data(c.id, c.version) in after
    ensures NewVersions(env, store, [c] + cs)
  {}

  /** Over any run no version of a series is created twice. */
  lemma {:induction false} CreationsAreNew(env: Env, w: World, actions: seq<Action>)
    requires Good(env, w)
    ensures NewVersions(env, w.s.store, Creations(env, w, actions))
    decreases |actions|
  {
    if actions != [] {
      var w' := StepWorld(env, w, actions[0]);
      var rest := Creations(env, w', actions[1..]);
      StepRefinesLog(env, w, actions[0]);
      StepAdvances(env, w, actions[0]);
      CreationsAreNew(env, w', actions[1..]);
      NewVersionsEarlier(env, w.s.store, w'.s.store, rest);
      var created := CreatedBy(env, w.s, actions[0]);
      if created != [] {
        CreatedIsNew(env, w, actions[0], created[0]);
        NewVersionsCons(env, w.s.store, w'.s.store, created[0], rest);
      } else {
        assert created + rest == rest;
      }
    }
  }

  /** A conditional write that succeeds finds the value that was read with that version: no change goes unnoticed. */
  lemma CasMeansUnchanged(env: Env, w: World, actions: seq<Action>, key: Key, value: Bytes)
    requires Good(env, w) && key in w.s.store
    requires PutResult(Run(env, w, actions).s.store, key, w.s.store[key].version).Ok?
    ensures Run(env, w, actions).s.store[key] == w.s.store[key]
  {
    RunAdvances(env, w, actions);
    RunRefinesLog(env, w, actions);
  }

  lemma {:induction false} VersionCount(env: Env, log: Log)
    requires log != []
    ensures |ManifestOf(env, log).versions| == |log|
  {
    if |log| > 1 {
      VersionCount(env, log[..|log| - 1]);
    }
  }

  /** A longer log has the same records for the versions of the shorter one. */
  lemma {:induction false} ManifestsExtend(env: Env, log: Log, log': Log)
    requires log != [] && log <= log'
    ensures |ManifestOf(env, log').versions| == |log'|
    ensures ManifestOf(env, log').versions[..|log|] == ManifestOf(env, log).versions
    decreases |log'|
  {
    VersionCount(env, log);
    VersionCount(env, log');
    if log != log' {
      var init := log'[..|log'| - 1];
      ManifestsExtend(env, log, init);
    }
  }

  lemma DataIsLogged(env: Env, w: World, id: string, v: nat)
    requires Good(env, w) && 1 <= v <= |Series(w.logs, id)|
    ensures GetBackupData(w.s.store, id, v) == Ok(Series(w.logs, id)[v - 1].upload.data)
  {
    assert SeriesOk(env, w.s.store, id, Series(w.logs, id));
    assert Data(id, v) in w.s.store;
  }

  lemma LoggedDataStays(env: Env, w: World, actions: seq<Action>, id: string, v: nat)
    requires Good(env, w) && 1 <= v <= |Series(w.logs, id)|
    ensures GetBackupData(Run(env, w, actions).s.store, id, v) == Ok(Series(w.logs, id)[v - 1].upload.data)
  {
    RunExtends(env, w, actions, id);
    DataIsLogged(env, Run(env, w, actions), id, v);
  }

  /** A listed version stays listed, with the same record and the same bytes, in every later state. */
  lemma ListedVersionIsForever(env: Env, w: World, actions: seq<Action>, id: Bytes, v: nat)
    requires Good(env, w) && 1 <= v <= |Series(w.logs, id)|
    ensures var w' := Run(env, w, actions);
            && var log, log' := Series(w.logs, id), Series(w'.logs, id);
            && v <= |log| <= |log'| == |ManifestOf(env, log').versions|
            && GetManifest(env, w'.s.store, id) == Ok(Some((ManifestOf(env, log'), |log'|)))
            && ManifestOf(env, log').versions[..|log|] == ManifestOf(env, log).versions
            && GetBackupData(w'.s.store, id, v) == GetBackupData(w.s.store, id, v) == Ok(log[v - 1].upload.data)
  {
    var w' := Run(env, w, actions);
    RunRefinesLog(env, w, actions);
    assert Series(w.logs, id) <= Series(w'.logs, id);
    assert SeriesOk(env, w'.s.store, id, Series(w'.logs, id));
    ManifestsExtend(env, Series(w.logs, id), Series(w'.logs, id));
    ReadsHistory(env, w'.s.store, id, Series(w'.logs, id));
    DataIsLogged(env, w, id, v);
    DataIsLogged(env, w', id, v);
  }

  // ------------------------------------------------------------------ readers

  /** The reads of a challenge: the manifest, steps of others, then the data of the version named or latest. */
  function ReadAmid(env: Env, w: World, meanwhile: seq<Action>, id: string, version: Option<nat>): Result<(Bytes, nat), ServiceError> {
    match GetBackup(env, w.s.store, id)
    case Err(e) => Err(e)
    case Ok(m) =>
      var v := if version.Some? then version.value else m.latestVersion;
      match GetBackupData(Run(env, w, meanwhile).s.store, id, v)
      case Err(e) => Err(e)
      case Ok(data) => Ok((data, v))
  }

  /**
    A challenge without a version reads the manifest and, some steps later, the
    data: the data is never missing, and it is what was latest at the first read.
   */
  lemma LatestIsReadable(env: Env, w: World, meanwhile: seq<Action>, id: Bytes, m: BackupManifest)
    requires Good(env, w) && GetBackup(env, w.s.store, id) == Ok(m)
    ensures var log := Series(w.logs, id);
            && log != [] && m == ManifestOf(env, log) && m.latestVersion == |log|
            && GetBackupData(Run(env, w, meanwhile).s.store, id, m.latestVersion) == Ok(log[|log| - 1].upload.data)
  {
    StoreShowsLog(env, w, id);
    ListedVersionIsForever(env, w, meanwhile, id, |Series(w.logs, id)|);
  }

  lemma LatestReadAmid(env: Env, w: World, meanwhile: seq<Action>, id: Bytes)
    requires Good(env, w) && GetBackup(env, w.s.store, id).Ok?
    ensures var log := Series(w.logs, id);
            log != [] && ReadAmid(env, w, meanwhile, id, None) == Ok((log[|log| - 1].upload.data, |log|))
  {
    LatestIsReadable(env, w, meanwhile, id, GetBackup(env, w.s.store, id).value);
  }

  /** The data of a version is present when it is committed, or created by an upload that has not committed it. */
  lemma DataPresentExactly(env: Env, w: World, id: string, v: nat)
    requires Good(env, w)
    ensures GetBackupData(w.s.store, id, v).Ok? <==>
            1 <= v <= |Series(w.logs, id)| || (v == |Series(w.logs, id)| + 1 && Held(env, w.s.uploaders, id))
  {
    HeldMeansPresent(env, w.s, w.logs, id);
    assert SeriesOk(env, w.s.store, id, Series(w.logs, id));
  }

  lemma KnownExactly(env: Env, w: World, id: string)
    requires Good(env, w)
    ensures GetBackup(env, w.s.store, id) ==
            if Series(w.logs, id) == [] then Err(NotFound) else Ok(ManifestOf(env, Series(w.logs, id)))
  {
    ReadsHistory(env, w.s.store, id, Series(w.logs, id));
  }

  /**
    A challenge that names a version: refused if the series has no manifest when
    it begins; otherwise answered exactly when, at the data read, that version is
    committed or has been created by an upload that has not committed it.
   */
  lemma ExplicitVersionReadable(env: Env, w: World, meanwhile: seq<Action>, id: string, v: nat)
    requires Good(env, w)
    ensures var w' := Run(env, w, meanwhile); var log' := Series(w'.logs, id);
            var r := ReadAmid(env, w, meanwhile, id, Some(v));
            if Series(w.logs, id) == [] then r == Err(NotFound)
            else
              && (r.Ok? <==> 1 <= v <= |log'| || (v == |log'| + 1 && Held(env, w'.s.uploaders, id)))
              && (r.Err? ==> r == Err(NotFound))
              && (1 <= v <= |log'| ==> r == Ok((log'[v - 1].upload.data, v)))
  {
    var w' := Run(env, w, meanwhile);
    KnownExactly(env, w, id);
    RunExtends(env, w, meanwhile, id);
    DataPresentExactly(env, w', id, v);
    if 1 <= v <= |Series(w'.logs, id)| {
      DataIsLogged(env, w', id, v);
    }
  }

  /** The manifest keys at one moment, in listing order. */
  ghost predicate MetaListing(store: KeyStore, ids: seq<string>) {
    && (forall id :: id in ids <==> Meta(id) in store)
    && (forall i, j :: 0 <= i < j < |ids| ==> LexLess(KeyText(Meta(ids[i])), KeyText(Meta(ids[j]))))
  }

  function ReadOne(env: Env, store: KeyStore, id: string): seq<BackupManifest> {
    match Lookup(store, Meta(id))
    case None => []
    case Some(kv) =>
      match env.decodeManifest(kv.value)
      case Some(m) => [m]
      case None => []
  }

  /** `list_backups` after its listing: each manifest is read in its own step, others run in between. */
  function Scan(env: Env, w: World, ids: seq<string>, between: seq<seq<Action>>): seq<BackupManifest>
    requires |between| == |ids|
    decreases |ids|
  {
    if ids == [] then []
    else
      var w' := Run(env, w, between[0]);
      ReadOne(env, w'.s.store, ids[0]) + Scan(env, w', ids[1..], between[1..])
  }

  function RunAll(env: Env, w: World, between: seq<seq<Action>>): World
    decreases |between|
  {
    if between == [] then w else RunAll(env, Run(env, w, between[0]), between[1..])
  }

  lemma {:induction false} RunAllRefines(env: Env, w: World, between: seq<seq<Action>>, id: string)
    requires Good(env, w)
    ensures Good(env, RunAll(env, w, between))
    ensures Series(w.logs, id) <= Series(RunAll(env, w, between).logs, id)
    decreases |between|
  {
    if between != [] {
      RunRefinesLog(env, w, between[0]);
      RunAllRefines(env, Run(env, w, between[0]), between[1..], id);
    }
  }

  /** A manifest the series `id` had at some moment from `w` to `w'`. */
  ghost predicate HadBetween(env: Env, w: World, w': World, id: string, m: BackupManifest) {
    exists log: Log :: log != [] && Series(w.logs, id) <= log && log <= Series(w'.logs, id) && m == ManifestOf(env, log)
  }

  /** One manifest per listed series, in order, each as it was at some moment from `w` to `end`. */
  ghost predicate FaithfulScan(env: Env, w: World, end: World, ids: seq<string>, out: seq<BackupManifest>) {
    |out| == |ids| && forall i :: 0 <= i < |ids| ==> HadBetween(env, w, end, ids[i], out[i])
  }

  lemma FaithfulEarlier(env: Env, w: World, w1: World, end: World, ids: seq<string>, out: seq<BackupManifest>)
    requires FaithfulScan(env, w1, end, ids, out)
    requires forall id :: Series(w.logs, id) <= Series(w1.logs, id)
    ensures FaithfulScan(env, w, end, ids, out)
  {
    forall i | 0 <= i < |ids| ensures HadBetween(env, w, end, ids[i], out[i]) {
      assert HadBetween(env, w1, end, ids[i], out[i]);
      var log: Log :| log != [] && Series(w1.logs, ids[i]) <= log && log <= Series(end.logs, ids[i])
                      && out[i] == ManifestOf(env, log);
      assert Series(w.logs, ids[i]) <= Series(w1.logs, ids[i]);
    }
  }

  lemma FaithfulUncons(env: Env, w: World, end: World, ids: seq<string>, m: BackupManifest, out: seq<BackupManifest>)
    requires ids != [] && HadBetween(env, w, end, ids[0], m) && FaithfulScan(env, w, end, ids[1..], out)
    ensures FaithfulScan(env, w, end, ids, [m] + out)
  {
    forall i | 0 <= i < |ids| ensures HadBetween(env, w, end, ids[i], ([m] + out)[i]) {
      if i > 0 {
        var id, listed := ids[1..][i - 1], out[i - 1];
        assert id == ids[i] && listed == ([m] + out)[i];
        assert HadBetween(env, w, end, id, listed);
      }
    }
  }

  lemma FaithfulStep(env: Env, w: World, w1: World, end: World, ids: seq<string>, m: BackupManifest, out: seq<BackupManifest>)
    requires ids != [] && HadBetween(env, w1, end, ids[0], m) && FaithfulScan(env, w1, end, ids[1..], out)
    requires forall id :: Series(w.logs, id) <= Series(w1.logs, id)
    ensures FaithfulScan(env, w, end, ids, [m] + out)
  {
    FaithfulUncons(env, w1, end, ids, m, out);
    FaithfulEarlier(env, w, w1, end, ids, [m] + out);
  }

  lemma ReadsCurrent(env: Env, w: World, id: string)
    requires Good(env, w) && Series(w.logs, id) != []
    ensures ReadOne(env, w.s.store, id) == [ManifestOf(env, Series(w.logs, id))]
  {
    assert SeriesOk(env, w.s.store, id, Series(w.logs, id));
  }

  ghost predicate AllStarted(logs: Logs, ids: seq<string>) {
    forall i :: 0 <= i < |ids| ==> Series(logs, ids[i]) != []
  }

  lemma StillStarted(env: Env, w: World, actions: seq<Action>, ids: seq<string>)
    requires Good(env, w) && AllStarted(w.logs, ids)
    ensures AllStarted(Run(env, w, actions).logs, ids)
  {
    RunRefinesLog(env, w, actions);
    forall i | 0 <= i < |ids| ensures Series(Run(env, w, actions).logs, ids[i]) != [] {
      assert Series(w.logs, ids[i]) <= Series(Run(env, w, actions).logs, ids[i]);
    }
  }

  lemma ScanHead(env: Env, w: World, ids: seq<string>, between: seq<seq<Action>>)
    requires Good(env, w) && |between| == |ids| > 0
    requires Series(Run(env, w, between[0]).logs, ids[0]) != []
    ensures var w1 := Run(env, w, between[0]); var m := ManifestOf(env, Series(w1.logs, ids[0]));
            && Scan(env, w, ids, between) == [m] + Scan(env, w1, ids[1..], between[1..])
            && HadBetween(env, w1, RunAll(env, w, between), ids[0], m)
  {
    var w1 := Run(env, w, between[0]);
    RunRefinesLog(env, w, between[0]);
    ReadsCurrent(env, w1, ids[0]);
    RunAllRefines(env, w1, between[1..], ids[0]);
  }

  /** The scan returns one manifest per series listed, in order, each as it was at some moment of the scan. */
  lemma {:induction false} ScanIsFaithful(env: Env, w: World, ids: seq<string>, between: seq<seq<Action>>)
    requires Good(env, w) && |between| == |ids| && AllStarted(w.logs, ids)
    ensures FaithfulScan(env, w, RunAll(env, w, between), ids, Scan(env, w, ids, between))
    decreases |ids|
  {
    if ids != [] {
      var w1, end := Run(env, w, between[0]), RunAll(env, w, between);
      var out := Scan(env, w1, ids[1..], between[1..]);
      StillStarted(env, w, between[0], ids);
      ScanHead(env, w, ids, between);
      RunRefinesLog(env, w, between[0]);
      ScanIsFaithful(env, w1, ids[1..], between[1..]);
      FaithfulStep(env, w, w1, end, ids, ManifestOf(env, Series(w1.logs, ids[0])), out);
    }
  }

  /** Every series that existed when the listing began is in it, and nothing else. */
  lemma ListingIsComplete(env: Env, w: World, ids: seq<string>)
    requires Good(env, w) && MetaListing(w.s.store, ids)
    ensures forall id :: id in ids <==> Series(w.logs, id) != []
    ensures forall i, j :: 0 <= i < j < |ids| ==> ids[i] != ids[j]
  {
    forall id ensures id in ids <==> Series(w.logs, id) != [] {
      assert SeriesOk(env, w.s.store, id, Series(w.logs, id));
    }
    forall i, j | 0 <= i < j < |ids| ensures ids[i] != ids[j] {
      LexTrichotomy(KeyText(Meta(ids[i])), KeyText(Meta(ids[j])));
    }
  }

  /** What a series had at some moment is its own: it carries the series' id. */
  lemma HadUnderOwnId(env: Env, w: World, end: World, id: string, m: BackupManifest)
    requires Good(env, end) && HadBetween(env, w, end, id, m)
    ensures m.backupId == id
  {
    var log: Log :| log != [] && Series(w.logs, id) <= log && log <= Series(end.logs, id) && m == ManifestOf(env, log);
    assert SeriesOk(env, end.s.store, id, Series(end.logs, id));
    assert OneSeries(env, id, log);
    assert IdOf(env, log[0].upload) == id;
    ManifestRecordsLog(env, IdOf(env, log[0].upload), log);
  }

  /** One manifest per id, in order, of a series that existed at `w`, as it was at some moment from `w` to `end`. */
  ghost predicate ScannedInOrder(env: Env, w: World, end: World, ids: seq<string>, out: seq<BackupManifest>) {
    && |out| == |ids|
    && forall i :: 0 <= i < |ids| ==>
         Series(w.logs, ids[i]) != [] && out[i].backupId == ids[i] && HadBetween(env, w, end, ids[i], out[i])
  }

  /** A listing and the reads that follow it, whatever runs in between: each listed series once, under its own id. */
  lemma ScanOfListing(env: Env, w: World, ids: seq<string>, between: seq<seq<Action>>)
    requires Good(env, w) && MetaListing(w.s.store, ids) && |between| == |ids|
    ensures ScannedInOrder(env, w, RunAll(env, w, between), ids, Scan(env, w, ids, between))
  {
    var end, out := RunAll(env, w, between), Scan(env, w, ids, between);
    ListingIsComplete(env, w, ids);
    assert forall i :: 0 <= i < |ids| ==> ids[i] in ids;
    ScanIsFaithful(env, w, ids, between);
    RunAllRefines(env, w, between, "");
    forall i | 0 <= i < |ids| ensures out[i].backupId == ids[i] {
      HadUnderOwnId(env, w, end, ids[i], out[i]);
    }
  }

  // ---------------------------------------------------------- real-time order

  /** An upload begun when the logs were `base`: it knows, and commits, only what lies beyond them. */
  ghost predicate Newcomer(env: Env, s: State, base: Logs, t: nat) {
    t in s.uploaders ==>
      var u := s.uploaders[t];
      var n := |Series(base, IdOf(env, u.upload))|;
      match u.phase
      case HasManifest(_, v) => v >= n
      case Claimed(_, v) => v >= n
      case _ => CommittedVersion(u) == 0 || CommittedVersion(u) > n
  }

  lemma NewcomerReads(env: Env, w: World, base: Logs, t: nat)
    requires Good(env, w) && Enabled(w.s, ReadMeta(t))
    requires var id := IdOf(env, w.s.uploaders[t].upload); Series(base, id) <= Series(w.logs, id)
    ensures Newcomer(env, Next(env, w.s, ReadMeta(t)), base, t)
  {
    ReadSucceeds(env, w, t);
  }

  lemma NewcomerClaims(env: Env, s: State, base: Logs, t: nat, a: Action)
    requires Newcomer(env, s, base, t) && Enabled(s, a) && By(a, t) && (a.ClaimData? || a.ClaimFault?)
    ensures Newcomer(env, Next(env, s, a), base, t)
  {}

  lemma NewcomerCommits(env: Env, w: World, base: Logs, t: nat, a: Action)
    requires Good(env, w) && Newcomer(env, w.s, base, t) && Enabled(w.s, a) && By(a, t) && (a.CommitMeta? || a.CommitFault?)
    ensures Newcomer(env, Next(env, w.s, a), base, t)
  {
    ClaimHolderWins(env, w.s, w.logs, t);
  }

  lemma NewcomerStep(env: Env, w: World, base: Logs, t: nat, a: Action)
    requires Good(env, w) && Newcomer(env, w.s, base, t)
    requires forall id :: Series(base, id) <= Series(w.logs, id)
    ensures Newcomer(env, Next(env, w.s, a), base, t)
  {
    if !By(a, t) || !Enabled(w.s, a) {
      if t in w.s.uploaders {
        StepOfOther(env, w.s, a, t);
      }
    } else {
      match a {
        case Begin(_, _) =>
        case ReadMeta(_) => NewcomerReads(env, w, base, t);
        case ClaimData(_) => NewcomerClaims(env, w.s, base, t, a);
        case ClaimFault(_) => NewcomerClaims(env, w.s, base, t, a);
        case CommitMeta(_) => NewcomerCommits(env, w, base, t, a);
        case CommitFault(_) => NewcomerCommits(env, w, base, t, a);
        case Abort(_) =>
      }
    }
  }

  lemma {:induction false} NewcomerRun(env: Env, w: World, base: Logs, t: nat, actions: seq<Action>)
    requires Good(env, w) && Newcomer(env, w.s, base, t)
    requires forall id :: Series(base, id) <= Series(w.logs, id)
    ensures Newcomer(env, Run(env, w, actions).s, base, t)
    decreases |actions|
  {
    if actions != [] {
      var w' := StepWorld(env, w, actions[0]);
      NewcomerStep(env, w, base, t, actions[0]);
      StepRefinesLog(env, w, actions[0]);
      forall id ensures Series(base, id) <= Series(w'.logs, id) {
        StepExtends(env, w, actions[0], id);
      }
      NewcomerRun(env, w', base, t, actions[1..]);
    }
  }

  /**
    Versions follow real time: whatever aborts and faults there are, an upload
    commits only a version above all that were committed when it began.
   */
  lemma VersionsFollowTime(env: Env, w: World, actions: seq<Action>, t: nat)
    requires Good(env, w) && t !in w.s.uploaders && t in Run(env, w, actions).s.uploaders
    ensures var u := Run(env, w, actions).s.uploaders[t];
            CommittedVersion(u) > 0 ==> CommittedVersion(u) > |Series(w.logs, IdOf(env, u.upload))|
  {
    NewcomerRun(env, w, w.logs, t, actions);
  }

  // ----------------------------------------------------------------- progress

  predicate Terminal(phase: Phase) {
    phase.Done? || phase.Failed?
  }

  ghost predicate Quiescent(us: Uploaders) {
    forall t :: t in us ==> Terminal(us[t].phase)
  }

  /** An upload that stopped between its two writes. */
  predicate Stranded(u: Uploader) {
    u.phase.Failed? && u.phase.wrote.DataOnly?
  }

  ghost predicate NoStrands(us: Uploaders) {
    forall t :: t in us ==> !Stranded(us[t])
  }

  predicate FaultFree(actions: seq<Action>) {
    forall i :: 0 <= i < |actions| ==> !actions[i].Abort? && !actions[i].ClaimFault? && !actions[i].CommitFault?
  }

  lemma StepLeavesNoStrands(env: Env, w: World, a: Action)
    requires Good(env, w) && NoStrands(w.s.uploaders) && FaultFree([a])
    ensures NoStrands(Next(env, w.s, a).uploaders)
  {
    assert [a][0] == a;
    if a.CommitMeta? && Enabled(w.s, a) {
      ClaimHolderWins(env, w.s, w.logs, a.t);
    }
  }

  lemma {:induction false} FaultFreeLeavesNoStrands(env: Env, w: World, actions: seq<Action>)
    requires Good(env, w) && NoStrands(w.s.uploaders) && FaultFree(actions)
    ensures NoStrands(Run(env, w, actions).s.uploaders)
    decreases |actions|
  {
    if actions != [] {
      StepLeavesNoStrands(env, w, actions[0]);
      StepRefinesLog(env, w, actions[0]);
      FaultFreeLeavesNoStrands(env, StepWorld(env, w, actions[0]), actions[1..]);
    }
  }

  /** Once all uploads have ended, none of them stranded, no data key is left uncommitted. */
  lemma QuiescentIsClean(env: Env, w: World, id: string)
    requires Good(env, w) && Quiescent(w.s.uploaders) && NoStrands(w.s.uploaders)
    ensures forall v: nat :: Data(id, v) in w.s.store <==> 1 <= v <= |Series(w.logs, id)|
  {
    HeldMeansPresent(env, w.s, w.logs, id);
    assert SeriesOk(env, w.s.store, id, Series(w.logs, id));
  }

  /** An upload to `id` begun when the log had length `n`: what it can be doing now. */
  ghost predicate Racer(env: Env, s: State, id: string, n: nat, t: nat) {
    t in s.uploaders ==>
      var u := s.uploaders[t];
      IdOf(env, u.upload) == id ==>
        match u.phase
        case Started => true
        case HasManifest(_, v) => v >= n
        case Claimed(_, v) => v >= n
        case Done(_, stored, _) => stored.version > n
        case Failed(e, _) => e == TooLarge || Data(id, n + 1) in s.store
  }

  /** Keys are created in order: below a present version every one is present. */
  lemma PresentInOrder(env: Env, w: World, id: string, n: nat, v: nat)
    requires Good(env, w) && 1 <= n <= v && Data(id, v) in w.s.store
    ensures Data(id, n) in w.s.store
  {
    var log := Series(w.logs, id);
    assert SeriesOk(env, w.s.store, id, log);
    assert v <= |log| + 1;
    if n < v {
      assert 1 <= n <= |log|;
    }
  }

  lemma RacerClaims(env: Env, w: World, id: string, n: nat, t: nat)
    requires Good(env, w) && Enabled(w.s, ClaimData(t)) && IdOf(env, w.s.uploaders[t].upload) == id
    requires n <= |Series(w.logs, id)| && Racer(env, w.s, id, n, t)
    ensures Racer(env, Next(env, w.s, ClaimData(t)), id, n, t)
  {
    ClaimOutcome(env, w.s, w.logs, t);
    if ClaimKey(env, w.s.uploaders[t]) in w.s.store {
      PresentInOrder(env, w, id, n + 1, Target(w.s.uploaders[t].phase));
    }
  }

  lemma RacerUndisturbed(env: Env, s: State, s': State, id: string, n: nat, t: nat)
    requires Racer(env, s, id, n, t) && Advances(s.store, s'.store)
    requires t in s'.uploaders ==> t in s.uploaders && s'.uploaders[t] == s.uploaders[t]
    ensures Racer(env, s', id, n, t)
  {}

  lemma RacerReads(env: Env, w: World, id: string, n: nat, t: nat)
    requires Good(env, w) && Enabled(w.s, ReadMeta(t)) && IdOf(env, w.s.uploaders[t].upload) == id
    requires n <= |Series(w.logs, id)|
    ensures Racer(env, Next(env, w.s, ReadMeta(t)), id, n, t)
  {
    ReadSucceeds(env, w, t);
  }

  lemma RacerCommits(env: Env, w: World, id: string, n: nat, t: nat)
    requires Good(env, w) && Enabled(w.s, CommitMeta(t)) && IdOf(env, w.s.uploaders[t].upload) == id
    requires n <= |Series(w.logs, id)|
    ensures Racer(env, Next(env, w.s, CommitMeta(t)), id, n, t)
  {
    ClaimHolderWins(env, w.s, w.logs, t);
    CommitSucceeds(env, w, t, Completed(env, w.s.uploaders[t]));
  }

  lemma OtherSeriesRacer(env: Env, s: State, a: Action, id: string, n: nat, t: nat)
    requires t in s.uploaders && IdOf(env, s.uploaders[t].upload) != id
    ensures Racer(env, Next(env, s, a), id, n, t)
  {}

  lemma RacerStep(env: Env, w: World, a: Action, id: string, n: nat, t: nat)
    requires Good(env, w) && !a.Abort? && !a.ClaimFault? && !a.CommitFault?
    requires n <= |Series(w.logs, id)| && Racer(env, w.s, id, n, t)
    ensures Racer(env, StepWorld(env, w, a).s, id, n, t)
  {
    if !By(a, t) || !Enabled(w.s, a) {
      StepAdvances(env, w, a);
      RacerUndisturbed(env, w.s, Next(env, w.s, a), id, n, t);
    } else if t in w.s.uploaders && IdOf(env, w.s.uploaders[t].upload) != id {
      OtherSeriesRacer(env, w.s, a, id, n, t);
    } else {
      match a {
        case ReadMeta(_) => RacerReads(env, w, id, n, t);
        case ClaimData(_) => RacerClaims(env, w, id, n, t);
        case CommitMeta(_) => RacerCommits(env, w, id, n, t);
        case Begin(_, _) =>
      }
    }
  }

  lemma {:induction false} RacerRun(env: Env, w: World, actions: seq<Action>, id: string, n: nat, t: nat)
    requires Good(env, w) && FaultFree(actions)
    requires n <= |Series(w.logs, id)| && Racer(env, w.s, id, n, t)
    ensures Racer(env, Run(env, w, actions).s, id, n, t)
    decreases |actions|
  {
    if actions != [] {
      RacerStep(env, w, actions[0], id, n, t);
      StepRefinesLog(env, w, actions[0]);
      StepExtends(env, w, actions[0], id);
      RacerRun(env, StepWorld(env, w, actions[0]), actions[1..], id, n, t);
    }
  }

  ghost predicate SizeJudged(us: Uploaders, t: nat) {
    t in us && us[t].phase.Failed? && us[t].phase.error == TooLarge ==>
      |us[t].upload.data| > us[t].upload.config.maxBackupBytes
  }

  lemma StepJudgesSize(env: Env, w: World, a: Action, t: nat)
    requires Good(env, w) && SizeJudged(w.s.uploaders, t)
    ensures SizeJudged(Next(env, w.s, a).uploaders, t)
  {
    if a.ReadMeta? && Enabled(w.s, a) {
      var id := IdOf(env, w.s.uploaders[a.t].upload);
      ReadsHistory(env, w.s.store, id, Series(w.logs, id));
    }
  }

  /** An upload is turned away as too large only when it is. */
  lemma {:induction false} TooLargeIsHonest(env: Env, w: World, actions: seq<Action>, t: nat)
    requires Good(env, w) && SizeJudged(w.s.uploaders, t)
    ensures SizeJudged(Run(env, w, actions).s.uploaders, t)
    decreases |actions|
  {
    if actions != [] {
      StepJudgesSize(env, w, actions[0], t);
      StepRefinesLog(env, w, actions[0]);
      TooLargeIsHonest(env, StepWorld(env, w, actions[0]), actions[1..], t);
    }
  }

  /**
    Racing uploads make progress: if any upload of admissible size to a series
    starts and everything runs to its end without faults, the series has grown.
   */
  lemma RacingUploadsCommit(env: Env, w: World, actions: seq<Action>, t: nat)
    requires Good(env, w) && FaultFree(actions) && NoStrands(w.s.uploaders) && t !in w.s.uploaders
    requires var w' := Run(env, w, actions);
             && t in w'.s.uploaders && Quiescent(w'.s.uploaders)
             && |w'.s.uploaders[t].upload.data| <= w'.s.uploaders[t].upload.config.maxBackupBytes
    ensures var w' := Run(env, w, actions); var id := IdOf(env, w'.s.uploaders[t].upload);
            |Series(w'.logs, id)| > |Series(w.logs, id)|
  {
    var w' := Run(env, w, actions);
    var u := w'.s.uploaders[t];
    var id := IdOf(env, u.upload);
    var n := |Series(w.logs, id)|;
    RacerRun(env, w, actions, id, n, t);
    RunRefinesLog(env, w, actions);
    FaultFreeLeavesNoStrands(env, w, actions);
    QuiescentIsClean(env, w', id);
    TooLargeIsHonest(env, w, actions, t);
    assert UploaderOk(env, w'.s.store, Series(w'.logs, id), t, u);
  }

  /** The three store calls of one upload, with nothing in between. */
  function Solo(env: Env, w: World, t: nat): World {
    StepWorld(env, StepWorld(env, StepWorld(env, w, ReadMeta(t)), ClaimData(t)), CommitMeta(t))
  }

  lemma RunThree(env: Env, w: World, a: Action, b: Action, c: Action)
    ensures Run(env, w, [a, b, c]) == StepWorld(env, StepWorld(env, StepWorld(env, w, a), b), c)
  {
    var w2 := StepWorld(env, StepWorld(env, w, a), b);
    assert [a, b, c][1..] == [b, c] && [b, c][1..] == [c] && [c][1..] == [];
    assert Run(env, w2, [c]) == Run(env, StepWorld(env, w2, c), []);
    assert Run(env, StepWorld(env, w, a), [b, c]) == Run(env, w2, [c]);
  }

  lemma SoloIsRun(env: Env, w: World, t: nat)
    ensures Run(env, w, [ReadMeta(t), ClaimData(t), CommitMeta(t)]) == Solo(env, w, t)
  {
    RunThree(env, w, ReadMeta(t), ClaimData(t), CommitMeta(t));
  }

  /** What an upload has after its first step. */
  ghost function AfterFirstRead(env: Env, w: World, t: nat): Phase
    requires t in w.s.uploaders
  {
    var u := w.s.uploaders[t];
    var log := Series(w.logs, IdOf(env, u.upload));
    HasManifest(Snapshot(env, log, u.upload), |log|)
  }

  lemma SoloReads(env: Env, w: World, t: nat)
    requires Good(env, w) && Enabled(w.s, ReadMeta(t))
    ensures StepWorld(env, w, ReadMeta(t)) == World(SetPhase(w.s, t, AfterFirstRead(env, w, t)), w.logs)
  {
    var u := w.s.uploaders[t];
    ReadsHistory(env, w.s.store, IdOf(env, u.upload), Series(w.logs, IdOf(env, u.upload)));
  }

  lemma SoloClaims(env: Env, w: World, t: nat)
    requires Good(env, w) && Enabled(w.s, ClaimData(t))
    requires w.s.uploaders[t].phase.metaVersion == |Series(w.logs, IdOf(env, w.s.uploaders[t].upload))|
    ensures var u := w.s.uploaders[t]; var id := IdOf(env, u.upload); var log := Series(w.logs, id);
            var w1 := StepWorld(env, w, ClaimData(t));
            && Good(env, w1) && w1.logs == w.logs
            && t in w1.s.uploaders && w1.s.uploaders[t].upload == u.upload
            && w1.s.uploaders[t].phase == (if Data(id, |log| + 1) !in w.s.store then Claimed(u.phase.manifest, |log|)
                                           else Failed(StoreFailed(Conflict), Nothing))
  {
    ClaimOutcome(env, w.s, w.logs, t);
    StepRefinesLog(env, w, ClaimData(t));
  }

  /** An upload running alone, failing nowhere itself, succeeds exactly when `v<latest+1>` is free. */
  lemma SoloUploadSucceedsExactly(env: Env, w: World, t: nat)
    requires Good(env, w) && t in w.s.uploaders && w.s.uploaders[t].phase.Started?
    ensures var u := w.s.uploaders[t]; var id := IdOf(env, u.upload); var n := |Series(w.logs, id)|;
            var w' := Run(env, w, [ReadMeta(t), ClaimData(t), CommitMeta(t)]);
            && t in w'.s.uploaders
            && (w'.s.uploaders[t].phase.Done? <==> Data(id, n + 1) !in w.s.store)
            && (if w'.s.uploaders[t].phase.Done? then Series(w'.logs, id) == Series(w.logs, id) + [Commit(t, u.upload)]
                else w'.s.uploaders[t].phase == Failed(StoreFailed(Conflict), Nothing) && w'.logs == w.logs)
  {
    SoloIsRun(env, w, t);
    SoloReads(env, w, t);
    StepRefinesLog(env, w, ReadMeta(t));
    var w1 := StepWorld(env, w, ReadMeta(t));
    SoloClaims(env, w1, t);
    var w2 := StepWorld(env, w1, ClaimData(t));
    if w2.s.uploaders[t].phase.Claimed? {
      ClaimHolderWins(env, w2.s, w2.logs, t);
    }
  }

  lemma NobodyElseClaims(env: Env, w: World, t: nat, other: nat)
    requires Good(env, w) && t in w.s.uploaders && Stranded(w.s.uploaders[t])
    requires other in w.s.uploaders && w.s.uploaders[other].phase.Claimed?
    ensures IdOf(env, w.s.uploaders[other].upload) != IdOf(env, w.s.uploaders[t].upload)
  {
    var id := IdOf(env, w.s.uploaders[t].upload);
    assert Holds(env, w.s.uploaders[t], id);
    if IdOf(env, w.s.uploaders[other].upload) == id {
      assert Holds(env, w.s.uploaders[other], id);
    }
  }

  lemma StrandedStays(env: Env, w: World, t: nat, a: Action)
    requires t in w.s.uploaders && Stranded(w.s.uploaders[t])
    ensures var w' := StepWorld(env, w, a); t in w'.s.uploaders && w'.s.uploaders[t] == w.s.uploaders[t]
  {}

  lemma StrandedStep(env: Env, w: World, t: nat, a: Action)
    requires Good(env, w) && t in w.s.uploaders && Stranded(w.s.uploaders[t])
    ensures var id := IdOf(env, w.s.uploaders[t].upload); Series(LogNext(env, w.s, w.logs, a), id) == Series(w.logs, id)
  {
    if (a.CommitMeta? || a.CommitFault?) && Enabled(w.s, a) {
      NobodyElseClaims(env, w, t, a.t);
    }
  }

  /**
    A stranded upload wedges its series: from then on, whatever runs, the
    series never gets another version.
   */
  lemma {:induction false} StrandedSeriesIsWedged(env: Env, w: World, t: nat, actions: seq<Action>)
    requires Good(env, w) && t in w.s.uploaders && Stranded(w.s.uploaders[t])
    ensures var id := IdOf(env, w.s.uploaders[t].upload);
            Series(Run(env, w, actions).logs, id) == Series(w.logs, id)
    decreases |actions|
  {
    if actions != [] {
      StrandedStays(env, w, t, actions[0]);
      StrandedStep(env, w, t, actions[0]);
      StepRefinesLog(env, w, actions[0]);
      StrandedSeriesIsWedged(env, StepWorld(env, w, actions[0]), t, actions[1..]);
    }
  }

  /** Some continuation gives the series another version. */
  ghost predicate CanGrow(env: Env, w: World, id: string) {
    exists actions :: |Series(Run(env, w, actions).logs, id)| > |Series(w.logs, id)|
  }

  /** An upload to the series stopped between its two writes. */
  ghost predicate Wedged(env: Env, us: Uploaders, id: string) {
    exists t :: t in us && IdOf(env, us[t].upload) == id && Stranded(us[t])
  }

  lemma {:induction false} OwnersBelow(owners: set<nat>) returns (bound: nat)
    ensures forall t :: t in owners ==> t < bound
  {
    bound := 0;
    if owners != {} {
      var t :| t in owners;
      var rest := OwnersBelow(owners - {t});
      bound := if t < rest then rest else t + 1;
      forall other | other in owners ensures other < bound {
        assert other == t || other in owners - {t};
      }
    }
  }

  lemma FreshOwner(us: Uploaders) returns (t: nat)
    ensures t !in us
  {
    t := OwnersBelow(us.Keys);
  }

  /** Whoever holds an uncommitted version and is not stranded can commit it. */
  lemma HolderGrows(env: Env, w: World, t: nat)
    requires Good(env, w) && Enabled(w.s, CommitMeta(t))
    ensures CanGrow(env, w, IdOf(env, w.s.uploaders[t].upload))
  {
    ClaimHolderWins(env, w.s, w.logs, t);
    var actions := [CommitMeta(t)];
    assert Run(env, w, actions) == Run(env, StepWorld(env, w, actions[0]), actions[1..]);
  }

  lemma BeginKeeps(env: Env, w: World, t: nat, up: Upload)
    requires Good(env, w) && t !in w.s.uploaders && |up.data| <= up.config.maxBackupBytes
    ensures var w1 := StepWorld(env, w, Begin(t, up));
            && Good(env, w1) && w1.logs == w.logs && w1.s.store == w.s.store
            && t in w1.s.uploaders && w1.s.uploaders[t] == Uploader(up, Started)
  {
    StepRefinesLog(env, w, Begin(t, up));
  }

  /** If the next version is free, one more upload commits it. */
  lemma NewUploadGrows(env: Env, w: World, up: Upload)
    requires Good(env, w) && |up.data| <= up.config.maxBackupBytes
    requires Data(IdOf(env, up), |Series(w.logs, IdOf(env, up))| + 1) !in w.s.store
    ensures CanGrow(env, w, IdOf(env, up))
  {
    var t := FreshOwner(w.s.uploaders);
    BeginKeeps(env, w, t, up);
    var solo := [ReadMeta(t), ClaimData(t), CommitMeta(t)];
    SoloUploadSucceedsExactly(env, StepWorld(env, w, Begin(t, up)), t);
    var actions := [Begin(t, up)] + solo;
    assert actions[1..] == solo;
    assert Run(env, w, actions) == Run(env, StepWorld(env, w, actions[0]), actions[1..]);
  }

  /** A series can get another version exactly when no upload to it stopped between its two writes. */
  lemma SeriesGrowsExactly(env: Env, w: World, up: Upload)
    requires Good(env, w) && |up.data| <= up.config.maxBackupBytes
    ensures CanGrow(env, w, IdOf(env, up)) <==> !Wedged(env, w.s.uploaders, IdOf(env, up))
  {
    var id := IdOf(env, up);
    if Wedged(env, w.s.uploaders, id) {
      var t :| t in w.s.uploaders && IdOf(env, w.s.uploaders[t].upload) == id && Stranded(w.s.uploaders[t]);
      forall actions ensures |Series(Run(env, w, actions).logs, id)| == |Series(w.logs, id)| {
        StrandedSeriesIsWedged(env, w, t, actions);
      }
      assert !CanGrow(env, w, id);
    } else if Data(id, |Series(w.logs, id)| + 1) in w.s.store {
      HeldMeansPresent(env, w.s, w.logs, id);
      var t :| t in w.s.uploaders && Holds(env, w.s.uploaders[t], id);
      assert !Stranded(w.s.uploaders[t]);
      HolderGrows(env, w, t);
    } else {
      NewUploadGrows(env, w, up);
    }
  }

  lemma AbortStrands(env: Env, w: World, t: nat)
    requires Good(env, w) && Enabled(w.s, CommitMeta(t))
    ensures var w' := StepWorld(env, w, Abort(t)); Good(env, w') && t in w'.s.uploaders && Stranded(w'.s.uploaders[t])
  {
    StepRefinesLog(env, w, Abort(t));
  }

  /** A new upload to an empty store, up to its first write. */
  lemma FirstClaim(env: Env, w: World, up: Upload)
    requires Good(env, w) && w == World(INIT, map[]) && |up.data| <= up.config.maxBackupBytes
    ensures var w3 := StepWorld(env, StepWorld(env, StepWorld(env, w, Begin(0, up)), ReadMeta(0)), ClaimData(0));
            Good(env, w3) && Enabled(w3.s, CommitMeta(0))
  {
    BeginKeeps(env, w, 0, up);
    var w1 := StepWorld(env, w, Begin(0, up));
    SoloReads(env, w1, 0);
    StepRefinesLog(env, w1, ReadMeta(0));
    SoloClaims(env, StepWorld(env, w1, ReadMeta(0)), 0);
  }

  /** Wedging happens: one upload, stopped after its first write. */
  lemma StrandingHappens(env: Env, up: Upload)
    requires Faithful(env) && |up.data| <= up.config.maxBackupBytes
    ensures var w := Run(env, World(INIT, map[]), [Begin(0, up), ReadMeta(0), ClaimData(0), Abort(0)]);
            Good(env, w) && 0 in w.s.uploaders && Stranded(w.s.uploaders[0])
  {
    var w0, actions := World(INIT, map[]), [Begin(0, up), ReadMeta(0), ClaimData(0), Abort(0)];
    InitInv(env);
    FirstClaim(env, w0, up);
    var w1 := StepWorld(env, w0, Begin(0, up));
    AbortStrands(env, StepWorld(env, StepWorld(env, w1, ReadMeta(0)), ClaimData(0)), 0);
    RunThree(env, w1, ReadMeta(0), ClaimData(0), Abort(0));
    assert actions[1..] == [ReadMeta(0), ClaimData(0), Abort(0)];
    assert Run(env, w0, actions) == Run(env, StepWorld(env, w0, actions[0]), actions[1..]);
  }
}
