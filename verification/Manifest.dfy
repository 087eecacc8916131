/**
  Backup manifests (crates/pivss-core/src/manifest.rs) and the history they
  record: the manifest of a series is a function of its append-only log.
 */
module Manifest {
  import opened Bytes
  import opened Wrappers
  import opened Magnet
  import opened Torrent

  datatype BackupKind = Lightning | Rgb | Other

  function KindText(kind: BackupKind): Bytes {
    match kind
    case Lightning => "lightning"
    case Rgb => "rgb"
    case Other => "other"
  }

  datatype BackupVersion = BackupVersion(version: nat, size: nat, sha256: Bytes, createdAt: nat,
                                         infohash: Bytes, magnet: Bytes)

  datatype BackupManifest = BackupManifest(backupId: Bytes, labelText: string, filename: Bytes, kind: BackupKind,
                                           latestVersion: nat, versions: seq<BackupVersion>,
                                           createdAt: nat, updatedAt: nat)

  datatype PaymentRecord = PaymentRecord(paymentId: string, backupId: string, amountMsat: nat, paidAt: nat,
                                         payMethod: string, note: Option<string>)

  /**
    What the service computes through its libraries: digests, series ids,
    torrents, and the JSON encodings of the two records it stores.
   */
  datatype Env = Env(sha256: Hash,
                     backupId: (Bytes, BackupKind) -> Bytes,
                     torrent: (Bytes, Bytes, seq<Bytes>) -> TorrentInfo,
                     encodeManifest: BackupManifest -> Bytes, decodeManifest: Bytes -> Option<BackupManifest>,
                     encodePayment: PaymentRecord -> Bytes, decodePayment: Bytes -> Option<PaymentRecord>)

  /** What is hashed to name a series. */
  function SeriesName(filename: Bytes, kind: BackupKind): Bytes {
    KindText(kind) + "|" + filename
  }

  /** The first eight digest bytes of kind and name, in hexadecimal. */
  function BackupId(sha256: Hash, filename: Bytes, kind: BackupKind): Bytes {
    var digest := sha256(SeriesName(filename, kind));
    HexEncode(if |digest| < 8 then digest else digest[..8])
  }

  /** The environment built on these hash functions. */
  ghost predicate BuiltOn(env: Env, sha1: Hash) {
    && (forall filename, kind {:trigger BackupId(env.sha256, filename, kind)} ::
          env.backupId(filename, kind) == BackupId(env.sha256, filename, kind))
    && (forall name, data, trackers {:trigger TorrentOf(sha1, name, data, trackers)} ::
          env.torrent(name, data, trackers) == TorrentOf(sha1, name, data, trackers))
  }

  /** Decoding what was encoded returns the record. */
  ghost predicate Faithful(env: Env) {
    && (forall m :: env.decodeManifest(env.encodeManifest(m)) == Some(m))
    && (forall p :: env.decodePayment(env.encodePayment(p)) == Some(p))
  }

  // -------------------------------------------------------------------- quote

  const MIB: nat := 1048576

  function Mebibytes(size: nat): nat {
    var m := (size + MIB - 1) / MIB;
    if m < 1 then 1 else m
  }

  /** Price of one billing period; the 64-bit product wraps in a release build. */
  function QuoteMsat(size: nat, priceSatsPerMib: nat): nat {
    Mebibytes(size) * priceSatsPerMib * 1000 % U64_LIMIT
  }

  lemma MebibytesMonotone(small: nat, large: nat)
    requires small <= large
    ensures 1 <= Mebibytes(small) <= Mebibytes(large)
    ensures Mebibytes(large) * 1048576 >= large
    ensures large > 0 ==> (Mebibytes(large) - 1) * 1048576 < large
    ensures large == 0 ==> Mebibytes(large) == 1
  {}

  lemma ScaledMonotone(a: nat, b: nat, price: nat)
    requires a <= b
    ensures a * price * 1000 <= b * price * 1000
  {
    assert a * price <= b * price;
  }

  /**
    If the largest admitted size can be quoted without overflow then every
    smaller one can, exactly, and a larger backup is never cheaper.
   */
  lemma QuoteExactAndMonotone(small: nat, large: nat, ceiling: nat, price: nat)
    requires small <= large <= ceiling
    requires Mebibytes(ceiling) * price * 1000 < U64_LIMIT
    ensures QuoteMsat(large, price) == Mebibytes(large) * price * 1000
    ensures QuoteMsat(small, price) <= QuoteMsat(large, price)
  {
    MebibytesMonotone(small, large);
    MebibytesMonotone(large, ceiling);
    ScaledMonotone(Mebibytes(large), Mebibytes(ceiling), price);
    ScaledMonotone(Mebibytes(small), Mebibytes(large), price);
  }

  /** The product did not wrap. */
  predicate QuotedExactly(size: nat, price: nat) {
    QuoteMsat(size, price) == Mebibytes(size) * price * 1000
  }

  /** All sizes up to a limit are quoted exactly if and only if the limit's own product fits in 64 bits. */
  lemma AllQuotedExactly(limit: nat, price: nat)
    ensures Mebibytes(limit) * price * 1000 < 18446744073709551616 <==> forall size: nat :: size <= limit ==> QuotedExactly(size, price)
  {
    if Mebibytes(limit) * price * 1000 < U64_LIMIT {
      forall size: nat | size <= limit ensures QuotedExactly(size, price) {
        QuoteExactAndMonotone(size, size, limit, price);
      }
    } else {
      assert !QuotedExactly(limit, price);
    }
  }

  /** The satoshis a client sends for a quote: rounded up, at least one. */
  function SatsForQuote(msat: nat): nat {
    var s := (msat + 999) / 1000;
    if s < 1 then 1 else s
  }

  /** Whatever is quoted, the client sends at least that, and not a satoshi too much. */
  lemma SatsCoverQuote(msat: nat)
    ensures var sats := SatsForQuote(msat);
            sats >= 1 && sats * 1000 >= msat && (sats > 1 ==> (sats - 1) * 1000 < msat)
  {
    assert (msat + 999) / 1000 * 1000 >= msat;
  }

  /** A quote that did not overflow is whole satoshis: the client pays it exactly. */
  lemma SatsPayTheQuote(size: nat, price: nat)
    requires price >= 1
    requires Mebibytes(size) * price * 1000 < U64_LIMIT
    ensures SatsForQuote(QuoteMsat(size, price)) * 1000 == QuoteMsat(size, price)
  {
    var sats := Mebibytes(size) * price;
    assert sats >= 1;
    assert QuoteMsat(size, price) == sats * 1000;
    assert (sats * 1000 + 999) / 1000 == sats;
  }

  // ------------------------------------------------------------ upload history

  /** The configuration an upload is judged and quoted against. */
  datatype UploadConfig = UploadConfig(maxBackupBytes: nat, priceSatsPerMib: nat, trackers: seq<Bytes>)

  datatype Upload = Upload(filename: Bytes, kind: BackupKind, labelText: string, data: Bytes, now: nat,
                           config: UploadConfig)

  /** One committed version: who uploaded what. */
  datatype Commit = Commit(owner: nat, upload: Upload)

  type Log = seq<Commit>

  /** Different names or kinds are hashed differently, so only truncated digests can confuse two series. */
  lemma SeriesNameInjective(f1: Bytes, k1: BackupKind, f2: Bytes, k2: BackupKind)
    requires SeriesName(f1, k1) == SeriesName(f2, k2)
    ensures f1 == f2 && k1 == k2
  {
    var s := SeriesName(f1, k1);
    assert s[|KindText(k1)|] == '|' && s[|KindText(k2)|] == '|';
    assert s[..|KindText(k1)|] == KindText(k1) && s[..|KindText(k2)|] == KindText(k2);
    assert s[0] == KindText(k1)[0] == KindText(k2)[0];
    assert s[|KindText(k1)| + 1..] == f1 && s[|KindText(k2)| + 1..] == f2;
  }

  /** What names a series: its kind and its file name. */
  predicate NamesSeries(text: Bytes, filename: Bytes, kind: BackupKind) {
    match kind
    case Lightning => text == "lightning|" + filename
    case Rgb => text == "rgb|" + filename
    case Other => text == "other|" + filename
  }

  /**
    An id is the first eight digest bytes of kind and file name, spelled in
    hexadecimal: two series share an id exactly when those bytes agree.
   */
  lemma IdIsDigestPrefix(sha256: Hash, f1: Bytes, k1: BackupKind, t1: Bytes, f2: Bytes, k2: BackupKind, t2: Bytes)
    requires NamesSeries(t1, f1, k1) && NamesSeries(t2, f2, k2)
    requires |sha256(t1)| == 32 == |sha256(t2)|
    ensures HexDecode(BackupId(sha256, f1, k1)) == Some(sha256(t1)[..8])
    ensures BackupId(sha256, f1, k1) == BackupId(sha256, f2, k2) <==> sha256(t1)[..8] == sha256(t2)[..8]
  {
    assert SeriesName(f1, k1) == t1 && SeriesName(f2, k2) == t2;
    HexReadsBack(sha256(t1)[..8]);
    HexReadsBack(sha256(t2)[..8]);
  }

  function IdOf(env: Env, up: Upload): Bytes {
    env.backupId(up.filename, up.kind)
  }

  function SeedName(id: Bytes, version: nat, filename: Bytes): Bytes {
    id + "-v" + Decimal(version) + "-" + filename
  }

  lemma CutAtDash(a: string, x: string, b: string, y: string)
    requires '-' !in a && '-' !in b && a + "-" + x == b + "-" + y
    ensures a == b && x == y
  {
    var s := a + "-" + x;
    assert s[|a|] == '-' && s[|b|] == '-' && s[..|a|] == a && s[..|b|] == b;
    assert |a| == |b|;
    assert s[|a| + 1..] == x && s[|b| + 1..] == y;
  }

  lemma NoDashInVersion(version: nat)
    ensures '-' !in "v" + Decimal(version)
  {
    DecimalReadsBack(version);
  }

  /** Seed files of different versions have different names, since an id in hexadecimal has no dash. */
  lemma SeedNameInjective(id1: Bytes, v1: nat, f1: Bytes, id2: Bytes, v2: nat, f2: Bytes)
    requires '-' !in id1 && '-' !in id2
    requires SeedName(id1, v1, f1) == SeedName(id2, v2, f2)
    ensures id1 == id2 && v1 == v2 && f1 == f2
  {
    var t1, t2 := "v" + Decimal(v1), "v" + Decimal(v2);
    assert SeedName(id1, v1, f1) == id1 + "-" + (t1 + "-" + f1);
    assert SeedName(id2, v2, f2) == id2 + "-" + (t2 + "-" + f2);
    CutAtDash(id1, t1 + "-" + f1, id2, t2 + "-" + f2);
    NoDashInVersion(v1);
    NoDashInVersion(v2);
    CutAtDash(t1, f1, t2, f2);
    assert t1[1..] == Decimal(v1) && t2[1..] == Decimal(v2);
    DecimalInjective(v1, v2);
  }

  lemma NoDashInId(sha256: Hash, filename: Bytes, kind: BackupKind)
    ensures '-' !in BackupId(sha256, filename, kind)
  {
    var digest := sha256(SeriesName(filename, kind));
    HexIsLowerHex(if |digest| < 8 then digest else digest[..8]);
  }

  function VersionOf(env: Env, id: Bytes, version: nat, up: Upload): BackupVersion {
    var torrent := env.torrent(SeedName(id, version, up.filename), up.data, up.config.trackers);
    BackupVersion(version, |up.data|, HexEncode(env.sha256(up.data)), up.now, torrent.infohash, torrent.magnet)
  }

  /** A record tells of these bytes: which version they are, their size, their digest, and when they came. */
  ghost predicate RecordsData(env: Env, r: BackupVersion, version: nat, data: Bytes, now: nat) {
    r.version == version && r.size == |data| && r.sha256 == HexEncode(env.sha256(data)) && r.createdAt == now
  }

  /**
    A record points to a torrent of these bytes: its infohash is that of a file
    describing them under the seed name, and its link carries that infohash, the
    name and all trackers.
   */
  ghost predicate RecordsTorrent(sha1: Hash, r: BackupVersion, id: Bytes, filename: Bytes, data: Bytes, trackers: seq<Bytes>) {
    var name := id + "-v" + Decimal(r.version) + "-" + filename;
    && ParseMagnet(r.magnet) == Some(Link(r.infohash, name, trackers))
    && exists metainfo :: TorrentDescribes(sha1, metainfo, r.infohash, name, data, trackers)
  }

  lemma VersionRecordsData(env: Env, id: Bytes, version: nat, up: Upload)
    ensures RecordsData(env, VersionOf(env, id, version, up), version, up.data, up.now)
  {}

  lemma VersionRecordsTorrent(env: Env, sha1: Hash, id: Bytes, version: nat, up: Upload)
    requires BuiltOn(env, sha1) && HashesTo20(sha1)
    ensures RecordsTorrent(sha1, VersionOf(env, id, version, up), id, up.filename, up.data, up.config.trackers)
  {
    var name := SeedName(id, version, up.filename);
    var t := TorrentOf(sha1, name, up.data, up.config.trackers);
    assert env.torrent(name, up.data, up.config.trackers) == t;
    TorrentLinkParses(sha1, name, up.data, up.config.trackers);
    TorrentDescribesFile(sha1, name, up.data, up.config.trackers);
    assert TorrentDescribes(sha1, t.metainfo, t.infohash, name, up.data, up.config.trackers);
  }

  /** The manifest a first upload starts from. */
  function Fresh(env: Env, up: Upload): BackupManifest {
    BackupManifest(IdOf(env, up), up.labelText, up.filename, up.kind, 0, [], up.now, up.now)
  }

  /** A manifest with one more version. */
  function Extend(env: Env, m: BackupManifest, up: Upload): BackupManifest {
    m.(latestVersion := m.latestVersion + 1,
       updatedAt := up.now,
       labelText := if up.labelText != "" then up.labelText else m.labelText,
       versions := m.versions + [VersionOf(env, IdOf(env, up), m.latestVersion + 1, up)])
  }

  /** The manifest of a series with this history. */
  function ManifestOf(env: Env, log: Log): BackupManifest
    requires log != []
    decreases |log|, 0
  {
    var last := log[|log| - 1].upload;
    Extend(env, Snapshot(env, log[..|log| - 1], last), last)
  }

  /** The manifest an uploader works from: the stored one, or a fresh one. */
  function Snapshot(env: Env, log: Log, up: Upload): BackupManifest
    decreases |log|, 1
  {
    if log == [] then Fresh(env, up) else ManifestOf(env, log)
  }

  /** The label in force: the last one given, if any. */
  function LabelOf(log: Log): string {
    if log == [] then ""
    else if log[|log| - 1].upload.labelText != "" then log[|log| - 1].upload.labelText
    else LabelOf(log[..|log| - 1])
  }

  ghost predicate OneSeries(env: Env, id: Bytes, log: Log) {
    forall i :: 0 <= i < |log| ==> IdOf(env, log[i].upload) == id
  }

  /** What a manifest says of its history: every version 1..n in order, with its size, digest and torrent. */
  lemma {:induction false} ManifestRecordsLog(env: Env, id: Bytes, log: Log)
    requires log != [] && OneSeries(env, id, log)
    ensures var m := ManifestOf(env, log);
            && m.backupId == id && m.latestVersion == |log| == |m.versions|
            && (forall i :: 0 <= i < |log| ==> m.versions[i] == VersionOf(env, id, i + 1, log[i].upload))
            && m.filename == log[0].upload.filename && m.kind == log[0].upload.kind
            && m.createdAt == log[0].upload.now && m.updatedAt == log[|log| - 1].upload.now
            && m.labelText == LabelOf(log)
  {
    if |log| > 1 {
      ManifestRecordsLog(env, id, log[..|log| - 1]);
    } else {
      assert log[..0] == [];
      assert IdOf(env, log[0].upload) == id;
    }
  }

  /** The manifest right after a commit lists that commit last. */
  lemma ManifestAfterCommit(env: Env, id: Bytes, log: Log, c: Commit)
    requires OneSeries(env, id, log) && IdOf(env, c.upload) == id
    ensures var m := ManifestOf(env, log + [c]);
            && m.backupId == id && m.latestVersion == |log| + 1 == |m.versions| && m.updatedAt == c.upload.now
            && m.versions[|log|] == VersionOf(env, id, |log| + 1, c.upload)
  {
    assert OneSeries(env, id, log + [c]);
    ManifestRecordsLog(env, id, log + [c]);
  }
}
