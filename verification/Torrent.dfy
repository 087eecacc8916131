/**
  Single-file BitTorrent v1 metainfo (crates/pivss-core/src/torrent.rs).
  SHA-1 is a parameter; what depends on it being collision-free names the collision.
 */
module Torrent {
  import opened Bytes
  import opened Wrappers
  import B = Bencode
  import opened Ordering
  import M = Magnet

  const PIECE_LENGTH: nat := 262144
  const HASH_LENGTH: nat := 20

  const LENGTH: Bytes := "length"
  const NAME: Bytes := "name"
  const PIECE_SIZE: Bytes := "piece length"
  const PIECES: Bytes := "pieces"
  const ANNOUNCE: Bytes := "announce"
  const ANNOUNCE_LIST: Bytes := "announce-list"
  const CREATED_BY: Bytes := "created by"
  const INFO: Bytes := "info"
  const CREATOR: Bytes := "pivss"

  datatype TorrentInfo = TorrentInfo(metainfo: Bytes, infohash: Bytes, magnet: Bytes)

  // ------------------------------------------------------------------- pieces

  /** Fixed-size pieces, the last one possibly shorter; none of an empty file. */
  function Chunks(data: Bytes): seq<Bytes> {
    if data == [] then []
    else if |data| <= PIECE_LENGTH then [data]
    else [data[..PIECE_LENGTH]] + Chunks(data[PIECE_LENGTH..])
  }

  function PieceCount(size: nat): nat {
    (size + PIECE_LENGTH - 1) / PIECE_LENGTH
  }

  /** The pieces partition the data into full pieces and one non-empty remainder. */
  lemma {:induction false} ChunksPartition(data: Bytes)
    ensures Flatten(Chunks(data)) == data
    ensures |Chunks(data)| == PieceCount(|data|)
    ensures forall i :: 0 <= i < |Chunks(data)| ==>
              if i < |Chunks(data)| - 1 then |Chunks(data)[i]| == PIECE_LENGTH
              else 1 <= |Chunks(data)[i]| <= PIECE_LENGTH
  {
    if |data| > PIECE_LENGTH {
      ChunksPartition(data[PIECE_LENGTH..]);
      assert data == data[..PIECE_LENGTH] + data[PIECE_LENGTH..];
    } else if data != [] {
      assert Flatten([data]) == data + Flatten([data][1..]);
    }
  }

  function HashAll(sha1: Hash, chunks: seq<Bytes>): Bytes {
    if chunks == [] then [] else sha1(chunks[0]) + HashAll(sha1, chunks[1..])
  }

  /** The `pieces` string; an empty file still gets one hash. */
  function Pieces(sha1: Hash, data: Bytes): Bytes {
    if data == [] then sha1([]) else HashAll(sha1, Chunks(data))
  }

  lemma {:induction false} HashAllSnoc(sha1: Hash, chunks: seq<Bytes>, last: Bytes)
    ensures HashAll(sha1, chunks + [last]) == HashAll(sha1, chunks) + sha1(last)
  {
    if chunks == [] {
      assert chunks + [last] == [last];
      assert HashAll(sha1, [last]) == sha1(last) + HashAll(sha1, [last][1..]);
    } else {
      HashAllSnoc(sha1, chunks[1..], last);
      assert (chunks + [last])[1..] == chunks[1..] + [last];
    }
  }

  ghost predicate HashesTo20(sha1: Hash) {
    forall x :: |sha1(x)| == 20
  }

  lemma {:induction false} HashAllAt(sha1: Hash, chunks: seq<Bytes>, i: nat)
    requires HashesTo20(sha1) && i < |chunks|
    ensures |HashAll(sha1, chunks)| == HASH_LENGTH * |chunks|
    ensures HashAll(sha1, chunks)[HASH_LENGTH * i..HASH_LENGTH * i + HASH_LENGTH] == sha1(chunks[i])
  {
    var all, rest := HashAll(sha1, chunks), HashAll(sha1, chunks[1..]);
    assert |sha1(chunks[0])| == HASH_LENGTH;
    if |chunks| > 1 {
      var j: nat := if i == 0 then 0 else i - 1;
      HashAllAt(sha1, chunks[1..], j);
      if i > 0 {
        assert all[HASH_LENGTH * i..HASH_LENGTH * i + HASH_LENGTH] == rest[HASH_LENGTH * j..HASH_LENGTH * j + HASH_LENGTH];
      }
    } else {
      assert rest == [];
    }
  }

  /** 20 bytes for each piece, and 20 for the empty file. */
  lemma PiecesLength(sha1: Hash, data: Bytes)
    requires HashesTo20(sha1)
    ensures |Pieces(sha1, data)| == HASH_LENGTH * (if data == [] then 1 else PieceCount(|data|))
  {
    ChunksPartition(data);
    if data == [] {
      assert |sha1([])| == HASH_LENGTH;
    } else {
      HashAllAt(sha1, Chunks(data), 0);
    }
  }

  /** A downloader's check of candidate content against length and piece hashes. */
  predicate Accepts(sha1: Hash, length: nat, pieces: Bytes, candidate: Bytes) {
    && |candidate| == length
    && forall i :: 0 <= i < |Chunks(candidate)| ==>
         && HASH_LENGTH * i + HASH_LENGTH <= |pieces|
         && sha1(Chunks(candidate)[i]) == pieces[HASH_LENGTH * i..HASH_LENGTH * i + HASH_LENGTH]
  }

  lemma OriginalAccepted(sha1: Hash, data: Bytes)
    requires HashesTo20(sha1)
    ensures Accepts(sha1, |data|, Pieces(sha1, data), data)
  {
    forall i | 0 <= i < |Chunks(data)|
      ensures HASH_LENGTH * i + HASH_LENGTH <= |Pieces(sha1, data)|
      ensures sha1(Chunks(data)[i]) == Pieces(sha1, data)[HASH_LENGTH * i..HASH_LENGTH * i + HASH_LENGTH]
    {
      HashAllAt(sha1, Chunks(data), i);
    }
  }

  lemma DifferentChunk(a: Bytes, b: Bytes) returns (i: nat)
    requires |a| == |b| && a != b
    ensures i < |Chunks(a)| == |Chunks(b)| && Chunks(a)[i] != Chunks(b)[i]
  {
    ChunksPartition(a);
    ChunksPartition(b);
    assert Chunks(a) != Chunks(b);
    i :| 0 <= i < |Chunks(a)| && Chunks(a)[i] != Chunks(b)[i];
  }

  lemma AcceptedPiece(sha1: Hash, data: Bytes, candidate: Bytes, i: nat)
    requires HashesTo20(sha1)
    requires Accepts(sha1, |data|, Pieces(sha1, data), candidate)
    requires i < |Chunks(data)| && i < |Chunks(candidate)|
    ensures sha1(Chunks(candidate)[i]) == sha1(Chunks(data)[i])
  {
    HashAllAt(sha1, Chunks(data), i);
  }

  /** Two contents have different pieces with the same hash at the same place. */
  ghost predicate PiecesCollide(sha1: Hash, a: Bytes, b: Bytes) {
    exists i :: 0 <= i < |Chunks(a)| && i < |Chunks(b)| && Collision(sha1, Chunks(a)[i], Chunks(b)[i])
  }

  /** Accepted content is the original, or two pieces collide. */
  lemma OnlyOriginalAccepted(sha1: Hash, data: Bytes, candidate: Bytes)
    requires HashesTo20(sha1)
    requires Accepts(sha1, |data|, Pieces(sha1, data), candidate)
    ensures candidate == data || PiecesCollide(sha1, data, candidate)
  {
    if candidate != data {
      var i := DifferentChunk(data, candidate);
      AcceptedPiece(sha1, data, candidate, i);
    }
  }

  /** BEP 3 wants one hash per piece: that holds of every file except the empty one. */
  lemma PieceCountMatches(sha1: Hash, data: Bytes)
    requires HashesTo20(sha1)
    ensures |Pieces(sha1, data)| == HASH_LENGTH * |Chunks(data)| <==> data != []
  {
    PiecesLength(sha1, data);
    ChunksPartition(data);
  }

  // ----------------------------------------------------------------- metainfo

  function InfoEntries(length: B.Value, name: B.Value, pieces: B.Value): B.Entries {
    B.Entry(LENGTH, length, B.Entry(NAME, name, B.Entry(PIECE_SIZE, B.Int(PIECE_LENGTH),
      B.Entry(PIECES, pieces, B.NoEntries))))
  }

  function InfoTree(sha1: Hash, name: Bytes, data: Bytes): B.Value {
    B.Dict(InfoEntries(B.Int(|data|), B.Str(name), B.Str(Pieces(sha1, data))))
  }

  /** One tier per tracker. */
  function Tiers(trackers: seq<Bytes>): B.Items {
    if trackers == [] then B.NoItems
    else B.Item(B.List(B.Item(B.Str(trackers[0]), B.NoItems)), Tiers(trackers[1..]))
  }

  function LastEntries(info: B.Value): B.Entries {
    B.Entry(CREATED_BY, B.Str(CREATOR), B.Entry(INFO, info, B.NoEntries))
  }

  function TopEntries(trackers: seq<Bytes>, info: B.Value): B.Entries {
    if trackers == [] then LastEntries(info)
    else B.Entry(ANNOUNCE, B.Str(trackers[0]), B.Entry(ANNOUNCE_LIST, B.List(Tiers(trackers)), LastEntries(info)))
  }

  function MetainfoTree(sha1: Hash, name: Bytes, data: Bytes, trackers: seq<Bytes>): B.Value {
    B.Dict(TopEntries(trackers, InfoTree(sha1, name, data)))
  }

  function InfoHash(sha1: Hash, name: Bytes, data: Bytes): Bytes {
    HexEncode(sha1(B.Encode(InfoTree(sha1, name, data))))
  }

  /** What the torrent of some named content is. */
  function TorrentOf(sha1: Hash, name: Bytes, data: Bytes, trackers: seq<Bytes>): TorrentInfo {
    var infohash := InfoHash(sha1, name, data);
    TorrentInfo(B.Encode(MetainfoTree(sha1, name, data, trackers)), infohash, M.MagnetLink(infohash, name, trackers))
  }

  lemma {:induction false} TiersWellFormed(trackers: seq<Bytes>)
    ensures B.WellFormedItems(Tiers(trackers))
  {
    if trackers != [] {
      TiersWellFormed(trackers[1..]);
      assert B.WellFormedItems(B.NoItems) && B.WellFormed(B.Str(trackers[0]));
      assert B.WellFormedItems(B.Item(B.Str(trackers[0]), B.NoItems));
    }
  }

  lemma FirstEntry(previous: Option<Bytes>, key: Bytes, value: B.Value, rest: B.Entries)
    requires B.Follows(previous, key) && B.WellFormed(value) && B.WellFormedEntries(rest, Some(key))
    ensures B.WellFormedEntries(B.Entry(key, value, rest), previous)
  {}

  lemma TwoEntries(previous: Option<Bytes>, k1: Bytes, v1: B.Value, k2: Bytes, v2: B.Value, rest: B.Entries)
    requires B.Follows(previous, k1) && LexLess(k1, k2) && B.WellFormed(v1) && B.WellFormed(v2)
    requires B.WellFormedEntries(rest, Some(k2))
    ensures B.WellFormedEntries(B.Entry(k1, v1, B.Entry(k2, v2, rest)), previous)
  {
    FirstEntry(Some(k1), k2, v2, rest);
    FirstEntry(previous, k1, v1, B.Entry(k2, v2, rest));
  }

  lemma FourEntries(k1: Bytes, v1: B.Value, k2: Bytes, v2: B.Value, k3: Bytes, v3: B.Value, k4: Bytes, v4: B.Value)
    requires LexLess(k1, k2) && LexLess(k2, k3) && LexLess(k3, k4)
    requires B.WellFormed(v1) && B.WellFormed(v2) && B.WellFormed(v3) && B.WellFormed(v4)
    ensures B.WellFormed(B.Dict(B.Entry(k1, v1, B.Entry(k2, v2, B.Entry(k3, v3, B.Entry(k4, v4, B.NoEntries))))))
  {
    TwoEntries(Some(k2), k3, v3, k4, v4, B.NoEntries);
    TwoEntries(None, k1, v1, k2, v2, B.Entry(k3, v3, B.Entry(k4, v4, B.NoEntries)));
  }

  lemma {:induction false} CommonPrefix(p: Bytes, a: Bytes, b: Bytes)
    ensures LexLess(p + a, p + b) <==> LexLess(a, b)
  {
    if p == [] {
      assert p + a == a && p + b == b;
    } else {
      CommonPrefix(p[1..], a, b);
      assert (p + a)[1..] == p[1..] + a && (p + b)[1..] == p[1..] + b;
    }
  }

  lemma HeadsDecide(a: Bytes, b: Bytes)
    requires a != [] && b != [] && a[0] < b[0]
    ensures LexLess(a, b)
  {}

  lemma InfoKeysIncrease()
    ensures LexLess(LENGTH, NAME) && LexLess(NAME, PIECE_SIZE) && LexLess(PIECE_SIZE, PIECES)
  {
    HeadsDecide(LENGTH, NAME);
    HeadsDecide(NAME, PIECE_SIZE);
    assert PIECE_SIZE == "piece" + " length" && PIECES == "piece" + "s";
    HeadsDecide(" length", "s");
    CommonPrefix("piece", " length", "s");
  }

  lemma TopKeysIncrease()
    ensures LexLess(ANNOUNCE, ANNOUNCE_LIST) && LexLess(ANNOUNCE_LIST, CREATED_BY) && LexLess(CREATED_BY, INFO)
  {
    HeadsDecide(ANNOUNCE_LIST, CREATED_BY);
    HeadsDecide(CREATED_BY, INFO);
    assert ANNOUNCE == "announce" + "" && ANNOUNCE_LIST == "announce" + "-list";
    CommonPrefix("announce", "", "-list");
  }

  lemma InfoWellFormed(length: B.Value, name: B.Value, pieces: B.Value)
    requires B.WellFormed(length) && B.WellFormed(name) && B.WellFormed(pieces)
    ensures B.WellFormed(B.Dict(InfoEntries(length, name, pieces)))
  {
    InfoKeysIncrease();
    FourEntries(LENGTH, length, NAME, name, PIECE_SIZE, B.Int(PIECE_LENGTH), PIECES, pieces);
  }

  lemma LastWellFormed(previous: Option<Bytes>, info: B.Value)
    requires B.WellFormed(info) && B.Follows(previous, CREATED_BY)
    ensures B.WellFormedEntries(LastEntries(info), previous)
  {
    TopKeysIncrease();
    TwoEntries(previous, CREATED_BY, B.Str(CREATOR), INFO, info, B.NoEntries);
  }

  lemma AnnouncedWellFormed(tracker: B.Value, tiers: B.Value, last: B.Entries)
    requires B.WellFormed(tracker) && B.WellFormed(tiers) && B.WellFormedEntries(last, Some(ANNOUNCE_LIST))
    ensures B.WellFormed(B.Dict(B.Entry(ANNOUNCE, tracker, B.Entry(ANNOUNCE_LIST, tiers, last))))
  {
    TopKeysIncrease();
    TwoEntries(None, ANNOUNCE, tracker, ANNOUNCE_LIST, tiers, last);
  }

  lemma TopWellFormed(trackers: seq<Bytes>, info: B.Value)
    requires B.WellFormed(info)
    ensures B.WellFormed(B.Dict(TopEntries(trackers, info)))
  {
    if trackers == [] {
      LastWellFormed(None, info);
    } else {
      TopKeysIncrease();
      LastWellFormed(Some(ANNOUNCE_LIST), info);
      TiersWellFormed(trackers);
      AnnouncedWellFormed(B.Str(trackers[0]), B.List(Tiers(trackers)), LastEntries(info));
    }
  }

  /** The keys of both dictionaries are strictly increasing. */
  lemma MetainfoWellFormed(sha1: Hash, name: Bytes, data: Bytes, trackers: seq<Bytes>)
    ensures B.WellFormed(InfoTree(sha1, name, data))
    ensures B.WellFormed(MetainfoTree(sha1, name, data, trackers))
  {
    InfoWellFormed(B.Int(|data|), B.Str(name), B.Str(Pieces(sha1, data)));
    TopWellFormed(trackers, InfoTree(sha1, name, data));
  }

  function Field(entries: B.Entries, key: Bytes): Option<B.Value> {
    match entries
    case NoEntries => None
    case Entry(k, v, rest) => if k == key then Some(v) else Field(rest, key)
  }

  lemma KeysDiffer()
    ensures ANNOUNCE != INFO && ANNOUNCE_LIST != INFO && CREATED_BY != INFO
  {
    assert ANNOUNCE[0] != INFO[0] && ANNOUNCE_LIST[0] != INFO[0] && CREATED_BY[0] != INFO[0];
  }

  lemma InfoField(trackers: seq<Bytes>, info: B.Value)
    ensures Field(TopEntries(trackers, info), INFO) == Some(info)
  {
    KeysDiffer();
    assert Field(LastEntries(info), INFO) == Some(info);
    if trackers != [] {
      assert Field(B.Entry(ANNOUNCE_LIST, B.List(Tiers(trackers)), LastEntries(info)), INFO) == Some(info);
    }
  }

  /**
    A strict parser reads the whole metainfo back as the intended tree, and the
    bytes of its `info` value are the ones the infohash was taken over.
   */
  lemma MetainfoParses(sha1: Hash, name: Bytes, data: Bytes, trackers: seq<Bytes>)
    ensures var t := TorrentOf(sha1, name, data, trackers);
            && B.Parse(t.metainfo) == Some((MetainfoTree(sha1, name, data, trackers), []))
            && var tree := B.Parse(t.metainfo).value.0;
            && tree.Dict? && Field(tree.entries, INFO).Some?
            && t.infohash == HexEncode(sha1(B.Encode(Field(tree.entries, INFO).value)))
  {
    MetainfoWellFormed(sha1, name, data, trackers);
    var tree := MetainfoTree(sha1, name, data, trackers);
    B.EncodeRoundTrip(tree, []);
    assert B.Encode(tree) + [] == B.Encode(tree);
    InfoField(trackers, InfoTree(sha1, name, data));
  }

  // ------------------------------------------------ what a reader of the file sees

  /** The keys of a dictionary, in order. */
  function FieldNames(entries: B.Entries): seq<Bytes> {
    match entries
    case NoEntries => []
    case Entry(k, _, rest) => [k] + FieldNames(rest)
  }

  /** A list of lists of one string each: these strings. */
  function TierList(items: B.Items): Option<seq<Bytes>> {
    match items
    case NoItems => Some([])
    case Item(List(Item(Str(t), NoItems)), rest) =>
      (match TierList(rest) case Some(ts) => Some([t] + ts) case None => None)
    case _ => None
  }

  /** The single-file info dictionary of BEP 3 for some named content: a downloader is led to that content and no other. */
  ghost predicate InfoDescribes(sha1: Hash, info: B.Value, name: Bytes, data: Bytes) {
    && info.Dict? && FieldNames(info.entries) == ["length", "name", "piece length", "pieces"]
    && Field(info.entries, "length") == Some(B.Int(|data|))
    && Field(info.entries, "name") == Some(B.Str(name))
    && Field(info.entries, "piece length") == Some(B.Int(262144))
    && var pieces := Field(info.entries, "pieces");
    && pieces.Some? && pieces.value.Str?
    && Accepts(sha1, |data|, pieces.value.s, data)
    && forall candidate :: Accepts(sha1, |data|, pieces.value.s, candidate) ==> candidate == data || PiecesCollide(sha1, data, candidate)
  }

  /** The trackers a file announces: the first one, and each in a tier of its own. */
  predicate Announces(entries: B.Entries, trackers: seq<Bytes>) {
    if trackers == [] then Field(entries, "announce") == None && Field(entries, "announce-list") == None
    else
      && Field(entries, "announce") == Some(B.Str(trackers[0]))
      && var tiers := Field(entries, "announce-list");
      && tiers.Some? && tiers.value.List? && TierList(tiers.value.items) == Some(trackers)
  }

  lemma {:induction false} TiersRead(trackers: seq<Bytes>)
    ensures TierList(Tiers(trackers)) == Some(trackers)
  {
    if trackers != [] {
      TiersRead(trackers[1..]);
      assert trackers == [trackers[0]] + trackers[1..];
    }
  }

  lemma KeyTexts()
    ensures LENGTH == "length" && NAME == "name" && PIECE_SIZE == "piece length" && PIECES == "pieces"
    ensures ANNOUNCE == "announce" && ANNOUNCE_LIST == "announce-list" && CREATED_BY == "created by" && INFO == "info"
    ensures PIECE_LENGTH == 262144
  {}

  lemma InfoFields(length: B.Value, name: B.Value, pieces: B.Value)
    ensures var entries := InfoEntries(length, name, pieces);
            && FieldNames(entries) == [LENGTH, NAME, PIECE_SIZE, PIECES]
            && Field(entries, LENGTH) == Some(length) && Field(entries, NAME) == Some(name)
            && Field(entries, PIECE_SIZE) == Some(B.Int(PIECE_LENGTH)) && Field(entries, PIECES) == Some(pieces)
  {
    assert LENGTH[0] != NAME[0] && LENGTH[0] != PIECE_SIZE[0] && LENGTH[0] != PIECES[0];
    assert NAME[0] != PIECE_SIZE[0] && NAME[0] != PIECES[0];
    assert PIECE_SIZE[5] != PIECES[5];
    var last := B.Entry(PIECES, pieces, B.NoEntries);
    var more := B.Entry(PIECE_SIZE, B.Int(PIECE_LENGTH), last);
    var most := B.Entry(NAME, name, more);
    assert FieldNames(last) == [PIECES] && FieldNames(more) == [PIECE_SIZE, PIECES] && FieldNames(most) == [NAME, PIECE_SIZE, PIECES];
    assert Field(last, PIECES) == Some(pieces) && Field(more, PIECES) == Some(pieces) && Field(most, PIECES) == Some(pieces);
    assert Field(more, PIECE_SIZE) == Some(B.Int(PIECE_LENGTH)) && Field(most, PIECE_SIZE) == Some(B.Int(PIECE_LENGTH));
    assert Field(most, NAME) == Some(name);
  }

  lemma InfoTreeDescribes(sha1: Hash, name: Bytes, data: Bytes)
    requires HashesTo20(sha1)
    ensures InfoDescribes(sha1, InfoTree(sha1, name, data), name, data)
  {
    KeyTexts();
    InfoFields(B.Int(|data|), B.Str(name), B.Str(Pieces(sha1, data)));
    OriginalAccepted(sha1, data);
    forall candidate | Accepts(sha1, |data|, Pieces(sha1, data), candidate)
      ensures candidate == data || PiecesCollide(sha1, data, candidate)
    {
      OnlyOriginalAccepted(sha1, data, candidate);
    }
  }

  lemma NoAnnounceLater(info: B.Value)
    ensures Field(LastEntries(info), ANNOUNCE) == None && Field(LastEntries(info), ANNOUNCE_LIST) == None
  {
    assert ANNOUNCE[0] != CREATED_BY[0] && ANNOUNCE[0] != INFO[0] && ANNOUNCE_LIST[0] != CREATED_BY[0] && ANNOUNCE_LIST[0] != INFO[0];
    var last := B.Entry(INFO, info, B.NoEntries);
    assert Field(last, ANNOUNCE) == None && Field(last, ANNOUNCE_LIST) == None;
  }

  lemma TopAnnounces(trackers: seq<Bytes>, info: B.Value)
    ensures Announces(TopEntries(trackers, info), trackers)
  {
    KeyTexts();
    NoAnnounceLater(info);
    if trackers != [] {
      TiersRead(trackers);
      assert |ANNOUNCE| != |ANNOUNCE_LIST|;
      var rest := B.Entry(ANNOUNCE_LIST, B.List(Tiers(trackers)), LastEntries(info));
      assert Field(rest, ANNOUNCE_LIST) == Some(B.List(Tiers(trackers)));
    }
  }

  /**
    These bytes are a torrent of this content with this infohash, as any reader of
    BEP 3 finds by parsing them.
   */
  ghost predicate TorrentDescribes(sha1: Hash, metainfo: Bytes, infohash: Bytes, name: Bytes, data: Bytes, trackers: seq<Bytes>) {
    && B.Parse(metainfo).Some? && B.Parse(metainfo).value.1 == []
    && var top := B.Parse(metainfo).value.0;
    && top.Dict? && Field(top.entries, "info").Some?
    && InfoDescribes(sha1, Field(top.entries, "info").value, name, data)
    && infohash == HexEncode(sha1(B.Encode(Field(top.entries, "info").value)))
    && Field(top.entries, "created by") == Some(B.Str("pivss"))
    && Announces(top.entries, trackers)
  }

  lemma CreatorField(trackers: seq<Bytes>, info: B.Value)
    ensures Field(TopEntries(trackers, info), CREATED_BY) == Some(B.Str(CREATOR)) && CREATOR == "pivss"
  {
    assert ANNOUNCE[0] != CREATED_BY[0] && ANNOUNCE_LIST[0] != CREATED_BY[0];
    if trackers != [] {
      var rest := B.Entry(ANNOUNCE_LIST, B.List(Tiers(trackers)), LastEntries(info));
      assert Field(rest, CREATED_BY) == Some(B.Str(CREATOR));
    }
  }

  /** What is written for a file describes it, whatever name, content and trackers. */
  lemma TorrentDescribesFile(sha1: Hash, name: Bytes, data: Bytes, trackers: seq<Bytes>)
    requires HashesTo20(sha1)
    ensures var t := TorrentOf(sha1, name, data, trackers); TorrentDescribes(sha1, t.metainfo, t.infohash, name, data, trackers)
  {
    KeyTexts();
    MetainfoParses(sha1, name, data, trackers);
    InfoField(trackers, InfoTree(sha1, name, data));
    InfoTreeDescribes(sha1, name, data);
    TopAnnounces(trackers, InfoTree(sha1, name, data));
    CreatorField(trackers, InfoTree(sha1, name, data));
  }

  /** What an encoded dictionary looks like from its first byte to its last. */
  lemma LastBytes(info: B.Value)
    ensures B.EncodeEntries(LastEntries(info))
            == B.EncodeStr(CREATED_BY) + B.EncodeStr(CREATOR) + (B.EncodeStr(INFO) + B.Encode(info))
  {
    var last := B.Entry(INFO, info, B.NoEntries);
    assert B.EncodeEntries(last) == B.EncodeStr(INFO) + B.Encode(info) + [];
    assert B.Encode(B.Str(CREATOR)) == B.EncodeStr(CREATOR);
  }

  function AnnounceBytes(trackers: seq<Bytes>): Bytes {
    if trackers == [] then []
    else B.EncodeStr(ANNOUNCE) + B.EncodeStr(trackers[0]) + (B.EncodeStr(ANNOUNCE_LIST) + B.Encode(B.List(Tiers(trackers))))
  }

  lemma TopBytes(trackers: seq<Bytes>, info: B.Value)
    ensures B.EncodeEntries(TopEntries(trackers, info)) == AnnounceBytes(trackers) + B.EncodeEntries(LastEntries(info))
  {
    if trackers != [] {
      var rest := B.Entry(ANNOUNCE_LIST, B.List(Tiers(trackers)), LastEntries(info));
      var a, b := B.EncodeStr(ANNOUNCE) + B.EncodeStr(trackers[0]), B.EncodeStr(ANNOUNCE_LIST) + B.Encode(B.List(Tiers(trackers)));
      assert B.EncodeEntries(rest) == b + B.EncodeEntries(LastEntries(info));
      assert B.Encode(B.Str(trackers[0])) == B.EncodeStr(trackers[0]);
      M.Associative(a, b, B.EncodeEntries(LastEntries(info)));
    }
  }

  lemma InfoBytes(length: B.Value, name: B.Value, pieces: B.Value)
    ensures B.EncodeEntries(InfoEntries(length, name, pieces))
            == B.EncodeStr(LENGTH) + B.Encode(length) + (B.EncodeStr(NAME) + B.Encode(name)
               + (B.EncodeStr(PIECE_SIZE) + B.Encode(B.Int(PIECE_LENGTH)) + (B.EncodeStr(PIECES) + B.Encode(pieces))))
  {
    var last := B.Entry(PIECES, pieces, B.NoEntries);
    assert B.EncodeEntries(last) == B.EncodeStr(PIECES) + B.Encode(pieces) + [];
    var more := B.Entry(PIECE_SIZE, B.Int(PIECE_LENGTH), last);
    assert B.EncodeEntries(more) == B.EncodeStr(PIECE_SIZE) + B.Encode(B.Int(PIECE_LENGTH)) + B.EncodeEntries(last);
    var most := B.Entry(NAME, name, more);
    assert B.EncodeEntries(most) == B.EncodeStr(NAME) + B.Encode(name) + B.EncodeEntries(more);
  }

  lemma DictBytes(entries: B.Entries)
    ensures B.Encode(B.Dict(entries)) == "d" + B.EncodeEntries(entries) + "e"
  {}

  /** The whole file, byte for byte. */
  lemma TopDictBytes(trackers: seq<Bytes>, info: B.Value)
    ensures B.Encode(B.Dict(TopEntries(trackers, info)))
            == "d" + (AnnounceBytes(trackers) + (B.EncodeStr(CREATED_BY) + B.EncodeStr(CREATOR)
                      + (B.EncodeStr(INFO) + B.Encode(info)))) + "e"
  {
    TopBytes(trackers, info);
    LastBytes(info);
    DictBytes(TopEntries(trackers, info));
  }

  /** `part` stands in `file` right after `key` and ends one byte before the end. */
  predicate SpanAfter(file: Bytes, key: Bytes, part: Bytes) {
    && |key| + |part| + 1 <= |file|
    && file[|file| - 1 - |part|..|file| - 1] == part
    && file[|file| - 1 - |part| - |key|..|file| - 1 - |part|] == key
  }

  lemma SpanAtEnd(head: Bytes, key: Bytes, part: Bytes)
    ensures SpanAfter("d" + (head + (key + part)) + "e", key, part)
  {
    var body := head + (key + part);
    var file := "d" + body + "e";
    assert file[1..|file| - 1] == body;
    assert body[|head|..] == key + part;
    assert (key + part)[..|key|] == key && (key + part)[|key|..] == part;
  }

  lemma SpanOf(trackers: seq<Bytes>, info: B.Value)
    ensures SpanAfter(B.Encode(B.Dict(TopEntries(trackers, info))), B.EncodeStr(INFO), B.Encode(info))
  {
    var announce, created := AnnounceBytes(trackers), B.EncodeStr(CREATED_BY) + B.EncodeStr(CREATOR);
    TopDictBytes(trackers, info);
    M.Associative(announce, created, B.EncodeStr(INFO) + B.Encode(info));
    SpanAtEnd(announce + created, B.EncodeStr(INFO), B.Encode(info));
  }

  /** The info bytes are a span of the file: they end one byte before its end, right after their key. */
  lemma InfoSpan(sha1: Hash, name: Bytes, data: Bytes, trackers: seq<Bytes>)
    ensures SpanAfter(B.Encode(MetainfoTree(sha1, name, data, trackers)), B.EncodeStr(INFO), B.Encode(InfoTree(sha1, name, data)))
  {
    SpanOf(trackers, InfoTree(sha1, name, data));
  }

  /** Torrents of different names have different infohashes, unless their info dictionaries collide under SHA-1. */
  lemma NamesSeparateInfohashes(sha1: Hash, n1: Bytes, d1: Bytes, n2: Bytes, d2: Bytes)
    requires n1 != n2 && InfoHash(sha1, n1, d1) == InfoHash(sha1, n2, d2)
    ensures Collision(sha1, B.Encode(InfoTree(sha1, n1, d1)), B.Encode(InfoTree(sha1, n2, d2)))
  {
    var t1, t2 := InfoTree(sha1, n1, d1), InfoTree(sha1, n2, d2);
    MetainfoWellFormed(sha1, n1, d1, []);
    MetainfoWellFormed(sha1, n2, d2, []);
    HexInjective(sha1(B.Encode(t1)), sha1(B.Encode(t2)));
    assert t1 != t2;
    if B.Encode(t1) == B.Encode(t2) {
      B.EncodeInjective(t1, t2);
    }
  }

  /** The link of a torrent parses back to its infohash, its name and all its trackers. */
  lemma TorrentLinkParses(sha1: Hash, name: Bytes, data: Bytes, trackers: seq<Bytes>)
    ensures var t := TorrentOf(sha1, name, data, trackers);
            M.ParseMagnet(t.magnet) == Some(M.Link(t.infohash, name, trackers))
  {
    HexIsLowerHex(sha1(B.Encode(InfoTree(sha1, name, data))));
    M.MagnetRoundTrip(InfoHash(sha1, name, data), name, trackers);
  }

  lemma {:induction false} TiersSnoc(trackers: seq<Bytes>, t: Bytes)
    ensures B.EncodeItems(Tiers(trackers + [t]))
            == B.EncodeItems(Tiers(trackers)) + ("l" + B.EncodeStr(t) + "e")
  {
    var tier := B.List(B.Item(B.Str(t), B.NoItems));
    assert B.EncodeItems(B.Item(B.Str(t), B.NoItems)) == B.EncodeStr(t);
    if trackers == [] {
      assert trackers + [t] == [t] && [t][1..] == [];
      assert B.EncodeItems(B.Item(tier, B.NoItems)) == B.Encode(tier) + [];
    } else {
      TiersSnoc(trackers[1..], t);
      assert (trackers + [t])[1..] == trackers[1..] + [t];
    }
  }

  lemma NextChunk(rest: Bytes, n: nat)
    requires rest != [] && n == (if |rest| < PIECE_LENGTH then |rest| else PIECE_LENGTH)
    ensures Chunks(rest) == [rest[..n]] + Chunks(rest[n..])
  {
    if |rest| <= PIECE_LENGTH {
      assert rest[..n] == rest && rest[n..] == [];
    }
  }

  method HashPieces(sha1: Hash, data: Bytes) returns (pieces: Bytes)
    ensures pieces == Pieces(sha1, data)
  {
    pieces := [];
    var rest := data;
    ghost var done: seq<Bytes> := [];
    while rest != []
      invariant done + Chunks(rest) == Chunks(data)
      invariant pieces == HashAll(sha1, done)
      decreases |rest|
    {
      var n := if |rest| < PIECE_LENGTH then |rest| else PIECE_LENGTH;
      var chunk := rest[..n];
      HashAllSnoc(sha1, done, chunk);
      NextChunk(rest, n);
      M.Associative(done, [chunk], Chunks(rest[n..]));
      done := done + [chunk];
      pieces := pieces + sha1(chunk);
      rest := rest[n..];
    }
    assert done == Chunks(data);
    if data == [] {
      pieces := pieces + sha1(data);
      assert pieces == sha1([]);
    }
  }

  lemma InfoAssembled(a: Bytes, b: Bytes, c: Bytes, d: Bytes, e: Bytes, f: Bytes, g: Bytes, h: Bytes)
    ensures [] + "d" + a + b + c + d + e + f + g + h + "e"
            == "d" + (a + b + (c + d + (e + f + (g + h)))) + "e"
  {}

  lemma InfoWritten(length: nat, name: Bytes, pieces: Bytes)
    ensures [] + "d" + B.EncodeStr(LENGTH) + B.Encode(B.Int(length)) + B.EncodeStr(NAME) + B.EncodeStr(name)
            + B.EncodeStr(PIECE_SIZE) + B.Encode(B.Int(PIECE_LENGTH)) + B.EncodeStr(PIECES) + B.EncodeStr(pieces) + "e"
            == B.Encode(B.Dict(InfoEntries(B.Int(length), B.Str(name), B.Str(pieces))))
  {
    InfoBytes(B.Int(length), B.Str(name), B.Str(pieces));
    InfoAssembled(B.EncodeStr(LENGTH), B.Encode(B.Int(length)), B.EncodeStr(NAME), B.EncodeStr(name),
                  B.EncodeStr(PIECE_SIZE), B.Encode(B.Int(PIECE_LENGTH)), B.EncodeStr(PIECES), B.EncodeStr(pieces));
  }

  method WriteInfo(sha1: Hash, name: Bytes, data: Bytes) returns (info: Bytes)
    ensures info == B.Encode(InfoTree(sha1, name, data))
  {
    var pieces := HashPieces(sha1, data);
    var b := new B.Bencoder();
    b.Raw("d");
    b.Str(LENGTH);
    b.Int(|data|);
    b.Str(NAME);
    b.Str(name);
    b.Str(PIECE_SIZE);
    b.Int(PIECE_LENGTH);
    b.Str(PIECES);
    b.Str(pieces);
    b.Raw("e");
    info := b.out;
    InfoWritten(|data|, name, pieces);
  }

  lemma NextTier(head: Bytes, trackers: seq<Bytes>, i: nat)
    requires i < |trackers|
    ensures head + ("l" + B.EncodeItems(Tiers(trackers[..i]))) + "l" + B.EncodeStr(trackers[i]) + "e"
            == head + ("l" + B.EncodeItems(Tiers(trackers[..i + 1])))
  {
    var items, t := B.EncodeItems(Tiers(trackers[..i])), B.EncodeStr(trackers[i]);
    TiersSnoc(trackers[..i], trackers[i]);
    assert trackers[..i + 1] == trackers[..i] + [trackers[i]];
    assert head + ("l" + items) + "l" + t + "e" == head + ("l" + (items + ("l" + t + "e")));
  }

  lemma AnnounceAssembled(a: Bytes, first: Bytes, b: Bytes, items: Bytes)
    ensures [] + a + first + b + ("l" + items) + "e" == a + first + (b + ("l" + items + "e"))
  {}

  method WriteAnnounce(trackers: seq<Bytes>) returns (out: Bytes)
    requires trackers != []
    ensures out == AnnounceBytes(trackers)
  {
    var b := new B.Bencoder();
    b.Str(ANNOUNCE);
    b.Str(trackers[0]);
    b.Str(ANNOUNCE_LIST);
    ghost var head := b.out;
    b.Raw("l");
    for i := 0 to |trackers|
      invariant b.out == head + ("l" + B.EncodeItems(Tiers(trackers[..i])))
    {
      b.Raw("l");
      b.Str(trackers[i]);
      b.Raw("e");
      NextTier(head, trackers, i);
    }
    assert trackers[..|trackers|] == trackers;
    b.Raw("e");
    out := b.out;
    AnnounceAssembled(B.EncodeStr(ANNOUNCE), B.EncodeStr(trackers[0]), B.EncodeStr(ANNOUNCE_LIST), B.EncodeItems(Tiers(trackers)));
  }

  lemma TopAssembled(announce: Bytes, created: Bytes, pivss: Bytes, key: Bytes, info: Bytes)
    ensures [] + "d" + announce + ([] + created + pivss + key) + info + "e"
            == "d" + (announce + (created + pivss + (key + info))) + "e"
  {}

  /** The top dictionary around an encoded info dictionary. */
  method WriteTop(trackers: seq<Bytes>, info: Bytes) returns (out: Bytes)
    ensures out == "d" + (AnnounceBytes(trackers) + (B.EncodeStr(CREATED_BY) + B.EncodeStr(CREATOR)
                          + (B.EncodeStr(INFO) + info))) + "e"
  {
    var top := new B.Bencoder();
    top.Raw("d");
    var announce: Bytes := [];
    if trackers != [] {
      announce := WriteAnnounce(trackers);
    }
    top.Raw(announce);
    var b := new B.Bencoder();
    b.Str(CREATED_BY);
    b.Str(CREATOR);
    b.Str(INFO);
    top.Raw(b.out);
    top.Raw(info);
    top.Raw("e");
    out := top.out;
    TopAssembled(announce, B.EncodeStr(CREATED_BY), B.EncodeStr(CREATOR), B.EncodeStr(INFO), info);
  }

  /** Metainfo, infohash and magnet link of a named file. */
  method CreateTorrent(sha1: Hash, name: Bytes, data: Bytes, trackers: seq<Bytes>) returns (t: TorrentInfo)
    ensures t == TorrentOf(sha1, name, data, trackers)
    ensures HashesTo20(sha1) ==> TorrentDescribes(sha1, t.metainfo, t.infohash, name, data, trackers)
    ensures M.ParseMagnet(t.magnet) == Some(M.Link(t.infohash, name, trackers))
  {
    TorrentLinkParses(sha1, name, data, trackers);
    if HashesTo20(sha1) {
      TorrentDescribesFile(sha1, name, data, trackers);
    }
    var info := WriteInfo(sha1, name, data);
    var infohash := HexEncode(sha1(info));
    var metainfo := WriteTop(trackers, info);
    TopDictBytes(trackers, InfoTree(sha1, name, data));
    var magnet := M.BuildMagnet(infohash, name, trackers);
    t := TorrentInfo(metainfo, infohash, magnet);
  }
}
