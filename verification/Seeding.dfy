/**
  Torrent seeding (`CarlSeeder::seed`, crates/pivss-server/src/seeder.rs), one
  call at a time: each seed is given the base port plus the number of children.
  The upload service never seeds a torrent twice, so its children keep their
  ports apart.
 */
module Seeding {
  import opened Bytes
  import opened Manifest
  import opened Torrent
  import B = Bencode
  import opened Uploads
  import opened UploadRuns

  const PORT_LIMIT: nat := 65536

  datatype SeedStatus = SeedStatus(infohash: Bytes, seeding: bool, port: nat)

  /** The running children, by infohash, with the port each was given. */
  type Children = map<Bytes, nat>

  /** The 16-bit sum; a release build wraps one that does not fit. */
  function PortFor(basePort: nat, count: nat): nat {
    if basePort + count < PORT_LIMIT then basePort + count else (basePort + count % PORT_LIMIT) % PORT_LIMIT
  }

  /** The children after a seed, which are unchanged if its process could not be started. */
  function Seeded(basePort: nat, children: Children, infohash: Bytes, spawned: bool): Children {
    if spawned then children[infohash := PortFor(basePort, |children|)] else children
  }

  /** Every child is below the next port, all fit in 16 bits, and no two share one. */
  ghost predicate PortsApart(basePort: nat, children: Children) {
    && basePort + |children| <= PORT_LIMIT
    && (forall h :: h in children ==> basePort <= children[h] < basePort + |children|)
    && (forall g, h :: g in children && h in children && children[g] == children[h] ==> g == h)
  }

  lemma NextSize(children: Children, h: Bytes, port: nat)
    ensures |children[h := port]| == |children| + (if h in children then 0 else 1)
  {
    var next := children[h := port];
    if h in children {
      assert next.Keys == children.Keys;
    } else {
      assert next.Keys == children.Keys + {h};
    }
    assert |next| == |next.Keys| && |children| == |children.Keys|;
  }

  lemma NextPortApart(basePort: nat, children: Children, h: Bytes)
    requires PortsApart(basePort, children) && h !in children && basePort + |children| < PORT_LIMIT
    ensures PortsApart(basePort, children[h := basePort + |children|])
  {
    NextSize(children, h, basePort + |children|);
  }

  /** A started seed keeps the ports apart exactly when its torrent is new, as long as there are ports left. */
  lemma SeedKeepsPortsApart(basePort: nat, children: Children, infohash: Bytes, spawned: bool)
    requires PortsApart(basePort, children)
    ensures basePort + |children| < PORT_LIMIT ==>
              (PortsApart(basePort, Seeded(basePort, children, infohash, spawned)) <==> !spawned || infohash !in children)
    ensures spawned && infohash !in children && basePort + |children| == PORT_LIMIT ==>
              !PortsApart(basePort, Seeded(basePort, children, infohash, spawned))
  {
    var end := Seeded(basePort, children, infohash, spawned);
    NextSize(children, infohash, PortFor(basePort, |children|));
    if spawned && basePort + |children| < PORT_LIMIT {
      assert infohash in end && end[infohash] == basePort + |children|;
      if infohash !in children {
        NextPortApart(basePort, children, infohash);
      }
    }
  }

  class CarlSeeder {
    const basePort: nat
    var children: Children
    var statuses: seq<SeedStatus>

    constructor (basePort: nat)
      requires basePort < PORT_LIMIT
      ensures this.basePort == basePort && children == map[] && statuses == []
      ensures PortsApart(basePort, children)
    {
      this.basePort, children, statuses := basePort, map[], [];
    }

    /** `spawned` says whether the process could be started. */
    method Seed(infohash: Bytes, spawned: bool) returns (status: SeedStatus)
      modifies this
      ensures status == SeedStatus(infohash, spawned, PortFor(basePort, |old(children)|))
      ensures children == Seeded(basePort, old(children), infohash, spawned)
      ensures statuses == old(statuses) + [status]
    {
      var port := PortFor(basePort, |children|);
      if spawned {
        children := children[infohash := port];
      }
      status := SeedStatus(infohash, spawned, port);
      statuses := statuses + [status];
    }
  }

  // ---------------------------------------------------------------- sequences

  datatype Call = Call(infohash: Bytes, spawned: bool)

  /** The children after the first `n` calls. */
  function SeedFirst(basePort: nat, children: Children, calls: seq<Call>, n: nat): Children
    requires n <= |calls|
  {
    if n == 0 then children
    else Seeded(basePort, SeedFirst(basePort, children, calls, n - 1), calls[n - 1].infohash, calls[n - 1].spawned)
  }

  /** How many of the first `n` could be started. */
  function Started(calls: seq<Call>, n: nat): nat
    requires n <= |calls|
  {
    if n == 0 then 0 else Started(calls, n - 1) + (if calls[n - 1].spawned then 1 else 0)
  }

  /** These calls are for different torrents, none of which is seeded yet. */
  ghost predicate NewTorrents(children: Children, calls: seq<Call>) {
    && (forall i, j :: 0 <= i < j < |calls| ==> calls[i].infohash != calls[j].infohash)
    && (forall i :: 0 <= i < |calls| ==> calls[i].infohash !in children)
  }

  /**
    The children are the old ones and those started by the first `n` calls, at
    consecutive ports; their number says that there are no others.
   */
  ghost predicate Consecutive(basePort: nat, children: Children, calls: seq<Call>, n: nat, end: Children)
    requires n <= |calls|
  {
    && |end| == |children| + Started(calls, n)
    && (forall h :: h in children ==> h in end && end[h] == children[h])
    && (forall i :: 0 <= i < |calls| ==> (calls[i].infohash in end <==> i < n && calls[i].spawned))
    && (forall i :: 0 <= i < n && calls[i].spawned ==>
          end[calls[i].infohash] == basePort + |children| + Started(calls, i))
  }

  /** The first `n` calls have left these children, with their ports apart. */
  ghost predicate SeededApart(basePort: nat, children: Children, calls: seq<Call>, n: nat, end: Children)
    requires n <= |calls|
  {
    PortsApart(basePort, end) && Consecutive(basePort, children, calls, n, end)
  }

  lemma {:induction false} StartedBounded(calls: seq<Call>, n: nat)
    requires n <= |calls|
    ensures Started(calls, n) <= n
  {
    if n > 0 {
      StartedBounded(calls, n - 1);
    }
  }

  lemma ConsecutiveNext(basePort: nat, children: Children, calls: seq<Call>, n: nat, before: Children, end: Children)
    requires n < |calls| && NewTorrents(children, calls) && Consecutive(basePort, children, calls, n, before)
    requires end == if calls[n].spawned then before[calls[n].infohash := basePort + |before|] else before
    ensures Consecutive(basePort, children, calls, n + 1, end)
  {
    var c := calls[n];
    NextSize(before, c.infohash, basePort + |before|);
    assert Started(calls, n + 1) == Started(calls, n) + (if c.spawned then 1 else 0);
    forall i | 0 <= i < |calls| && i != n ensures calls[i].infohash in end <==> i < n && calls[i].spawned {
      assert calls[i].infohash != c.infohash;
    }
    forall i | 0 <= i < n && calls[i].spawned ensures end[calls[i].infohash] == basePort + |children| + Started(calls, i) {
      assert calls[i].infohash != c.infohash;
    }
  }

  lemma SeededNew(basePort: nat, children: Children, infohash: Bytes, spawned: bool)
    requires PortsApart(basePort, children) && infohash !in children && basePort + |children| < PORT_LIMIT
    ensures var end := Seeded(basePort, children, infohash, spawned);
            PortsApart(basePort, end) && end == if spawned then children[infohash := basePort + |children|] else children
  {
    if spawned {
      NextPortApart(basePort, children, infohash);
    }
  }

  lemma RoomLeft(basePort: nat, children: Children, calls: seq<Call>, n: nat, before: Children)
    requires n < |calls| && basePort + |children| + n < PORT_LIMIT && SeededApart(basePort, children, calls, n, before)
    ensures basePort + |before| < PORT_LIMIT
  {
    StartedBounded(calls, n);
  }

  lemma OneMore(basePort: nat, children: Children, calls: seq<Call>, n: nat, before: Children, end: Children)
    requires n < |calls| && NewTorrents(children, calls) && basePort + |children| + n < PORT_LIMIT
    requires SeededApart(basePort, children, calls, n, before)
    requires end == Seeded(basePort, before, calls[n].infohash, calls[n].spawned)
    ensures SeededApart(basePort, children, calls, n + 1, end)
  {
    RoomLeft(basePort, children, calls, n, before);
    SeededNew(basePort, before, calls[n].infohash, calls[n].spawned);
    ConsecutiveNext(basePort, children, calls, n, before, end);
  }

  lemma NextSeeded(basePort: nat, children: Children, calls: seq<Call>, n: nat)
    requires 0 < n <= |calls| && NewTorrents(children, calls) && basePort + |children| + n <= PORT_LIMIT
    requires SeededApart(basePort, children, calls, n - 1, SeedFirst(basePort, children, calls, n - 1))
    ensures SeededApart(basePort, children, calls, n, SeedFirst(basePort, children, calls, n))
  {
    OneMore(basePort, children, calls, n - 1, SeedFirst(basePort, children, calls, n - 1), SeedFirst(basePort, children, calls, n));
  }

  lemma NoneSeeded(basePort: nat, children: Children, calls: seq<Call>)
    requires NewTorrents(children, calls) && PortsApart(basePort, children)
    ensures SeededApart(basePort, children, calls, 0, children)
  {}

  /** There is a port for each of `n` new torrents. */
  ghost predicate RoomFor(basePort: nat, children: Children, calls: seq<Call>, n: nat) {
    n <= |calls| && NewTorrents(children, calls) && PortsApart(basePort, children) && basePort + |children| + n <= PORT_LIMIT
  }

  /** Seeds of distinct new torrents get consecutive ports, whichever of them could be started. */
  lemma {:induction false} DistinctTorrentsDistinctPorts(basePort: nat, children: Children, calls: seq<Call>, n: nat)
    requires RoomFor(basePort, children, calls, n)
    ensures SeededApart(basePort, children, calls, n, SeedFirst(basePort, children, calls, n))
    decreases n
  {
    if n == 0 {
      NoneSeeded(basePort, children, calls);
    } else {
      DistinctTorrentsDistinctPorts(basePort, children, calls, n - 1);
      NextSeeded(basePort, children, calls, n);
    }
  }

  /** A torrent seeded again is not counted twice: the next new torrent gets its port. */
  lemma ReseedingSharesPort(basePort: nat, children: Children, again: Bytes, next: Bytes)
    requires PortsApart(basePort, children) && again in children && next !in children
    ensures var end := Seeded(basePort, Seeded(basePort, children, again, true), next, true);
            again in end && next in end && end[again] == end[next]
  {
    NextSize(children, again, PortFor(basePort, |children|));
  }

  // ---------------------------------------------------------- seeds of uploads

  /** The info dictionary that is seeded for a created version. */
  function SeededInfo(sha1: Hash, c: Creation): Bytes {
    B.Encode(InfoTree(sha1, SeedName(c.id, c.version, c.upload.filename), c.upload.data))
  }

  /** Seeds for some of the created versions, in any order; an upload seeds what it has created at most once. */
  function SeedCalls(env: Env, created: seq<Creation>, picks: seq<nat>, spawned: seq<bool>): seq<Call>
    requires |picks| == |spawned| && forall i :: 0 <= i < |picks| ==> picks[i] < |created|
  {
    seq(|picks|, i requires 0 <= i < |picks| =>
      var c := created[picks[i]];
      Call(VersionOf(env, c.id, c.version, c.upload).infohash, spawned[i]))
  }

  lemma VersionsSeedApart(env: Env, sha1: Hash, c1: Creation, c2: Creation)
    requires BuiltOn(env, sha1)
    requires c1.id == IdOf(env, c1.upload) && c2.id == IdOf(env, c2.upload)
    requires c1.id != c2.id || c1.version != c2.version
    ensures VersionOf(env, c1.id, c1.version, c1.upload).infohash != VersionOf(env, c2.id, c2.version, c2.upload).infohash
            || Collision(sha1, SeededInfo(sha1, c1), SeededInfo(sha1, c2))
  {
    var n1, n2 := SeedName(c1.id, c1.version, c1.upload.filename), SeedName(c2.id, c2.version, c2.upload.filename);
    assert c1.id == BackupId(env.sha256, c1.upload.filename, c1.upload.kind);
    assert c2.id == BackupId(env.sha256, c2.upload.filename, c2.upload.kind);
    NoDashInId(env.sha256, c1.upload.filename, c1.upload.kind);
    NoDashInId(env.sha256, c2.upload.filename, c2.upload.kind);
    if n1 == n2 {
      SeedNameInjective(c1.id, c1.version, c1.upload.filename, c2.id, c2.version, c2.upload.filename);
    }
    assert env.torrent(n1, c1.upload.data, c1.upload.config.trackers)
           == TorrentOf(sha1, n1, c1.upload.data, c1.upload.config.trackers);
    assert env.torrent(n2, c2.upload.data, c2.upload.config.trackers)
           == TorrentOf(sha1, n2, c2.upload.data, c2.upload.config.trackers);
    if InfoHash(sha1, n1, c1.upload.data) == InfoHash(sha1, n2, c2.upload.data) {
      NamesSeparateInfohashes(sha1, n1, c1.upload.data, n2, c2.upload.data);
    }
  }

  ghost predicate InfoCollision(sha1: Hash, created: seq<Creation>) {
    exists i, j :: 0 <= i < j < |created| && Collision(sha1, SeededInfo(sha1, created[i]), SeededInfo(sha1, created[j]))
  }

  lemma CollisionAmong(sha1: Hash, created: seq<Creation>, i: nat, j: nat)
    requires i < |created| && j < |created| && i != j
    requires Collision(sha1, SeededInfo(sha1, created[i]), SeededInfo(sha1, created[j]))
    ensures InfoCollision(sha1, created)
  {
    if j < i {
      assert Collision(sha1, SeededInfo(sha1, created[j]), SeededInfo(sha1, created[i]));
    }
  }

  /**
    Over any run of uploads, whatever versions are seeded, in whatever order and
    however many of the seeds can be started, the children keep their ports apart
    while the ports last, or two info dictionaries collide under SHA-1.
   */
  lemma UploadsSeedApart(env: Env, sha1: Hash, w: World, actions: seq<Action>, basePort: nat, picks: seq<nat>, spawned: seq<bool>)
    requires Good(env, w) && BuiltOn(env, sha1)
    requires |picks| == |spawned| && basePort + |picks| <= PORT_LIMIT
    requires forall i :: 0 <= i < |picks| ==> picks[i] < |Creations(env, w, actions)|
    requires forall i, j :: 0 <= i < j < |picks| ==> picks[i] != picks[j]
    ensures var created := Creations(env, w, actions); var calls := SeedCalls(env, created, picks, spawned);
            InfoCollision(sha1, created)
            || SeededApart(basePort, map[], calls, |calls|, SeedFirst(basePort, map[], calls, |calls|))
  {
    var created := Creations(env, w, actions);
    var calls := SeedCalls(env, created, picks, spawned);
    CreationsAreNew(env, w, actions);
    if !InfoCollision(sha1, created) {
      forall i, j | 0 <= i < j < |calls| ensures calls[i].infohash != calls[j].infohash {
        VersionsSeedApart(env, sha1, created[picks[i]], created[picks[j]]);
        if Collision(sha1, SeededInfo(sha1, created[picks[i]]), SeededInfo(sha1, created[picks[j]])) {
          CollisionAmong(sha1, created, picks[i], picks[j]);
        }
      }
      DistinctTorrentsDistinctPorts(basePort, map[], calls, |calls|);
    }
  }
}
