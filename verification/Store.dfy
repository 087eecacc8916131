/**
  Versioned key-value storage (crates/pivss-server/src/store.rs): the version
  rule, the in-memory store, and the paged listing of the remote VSS store.
 */
module Store {
  import opened Bytes
  import opened Ordering
  import opened Wrappers

  datatype StoreError = Conflict | NoSuchKey | Backend

  /** A stored value with its optimistic-concurrency counter. */
  datatype Versioned = Versioned(version: int, value: Bytes)

  datatype KeyVersion = KeyVersion(key: string, version: int)

  const FIRST_WRITE: int := 0
  const UNCONDITIONAL: int := -1

  // ------------------------------------------------------------ version rule

  /** The version a conditional write produces, if it is allowed. */
  function NextVersion(current: Option<Versioned>, version: int): Result<int, StoreError> {
    match (version, current)
    case (-1, _) => Ok(1)
    case (0, None) => Ok(1)
    case (v, Some(cur)) => if v == cur.version then Ok(cur.version + 1) else Err(Conflict)
    case _ => Err(Conflict)
  }

  function Lookup<K>(m: map<K, Versioned>, key: K): Option<Versioned> {
    if key in m then Some(m[key]) else None
  }

  function PutResult<K>(m: map<K, Versioned>, key: K, version: int): Result<int, StoreError> {
    NextVersion(Lookup(m, key), version)
  }

  function PutState<K>(m: map<K, Versioned>, key: K, version: int, value: Bytes): map<K, Versioned> {
    match PutResult(m, key, version)
    case Ok(v) => m[key := Versioned(v, value)]
    case Err(_) => m
  }

  ghost predicate VersionsPositive<K>(m: map<K, Versioned>) {
    forall k :: k in m ==> m[k].version >= 1
  }

  /**
    What a conditional write means to its caller: it succeeds exactly when the
    key is still as the expected version says (0: still absent), it then
    advances that key's version by one, and otherwise nothing changes.
   */
  lemma ConditionalPut<K>(m: map<K, Versioned>, key: K, version: int, value: Bytes)
    requires VersionsPositive(m) && version >= 0
    ensures PutResult(m, key, version).Ok? <==>
            if version == 0 then key !in m else key in m && m[key].version == version
    ensures PutResult(m, key, version) == Ok(version + 1) || PutState(m, key, version, value) == m
    ensures PutResult(m, key, version).Ok? ==>
            PutState(m, key, version, value) == m[key := Versioned(version + 1, value)]
    ensures VersionsPositive(PutState(m, key, version, value))
  {
    assert key in m ==> m[key].version >= 1;
  }

  /** `VssHttpStore::put` computes the new version itself; it agrees with the version rule. */
  function VssReportedVersion(version: int): int {
    if version == -1 then 1 else version + 1
  }

  lemma VssReportsTheRule<K>(m: map<K, Versioned>, key: K, version: int)
    requires PutResult(m, key, version).Ok?
    ensures PutResult(m, key, version).value == VssReportedVersion(version)
  {}

  // --------------------------------------------------------- in-memory store

  ghost predicate Listed(m: map<string, Versioned>, prefix: string, kv: KeyVersion) {
    prefix <= kv.key && kv.key in m && m[kv.key].version == kv.version
  }

  /** `out` lists exactly the keys under `prefix`, each once, in order, with its version. */
  ghost predicate IsListing(m: map<string, Versioned>, prefix: string, out: seq<KeyVersion>) {
    && (forall i, j :: 0 <= i < j < |out| ==> LexLess(out[i].key, out[j].key))
    && (forall i :: 0 <= i < |out| ==> Listed(m, prefix, out[i]))
    && (forall k :: k in m && prefix <= k ==> KeyVersion(k, m[k].version) in out)
  }

  function KeysOf(out: seq<KeyVersion>): seq<string> {
    seq(|out|, i requires 0 <= i < |out| => out[i].key)
  }

  lemma ListingKeys(m: map<string, Versioned>, prefix: string, out: seq<KeyVersion>, k: string)
    requires IsListing(m, prefix, out)
    ensures k in KeysOf(out) <==> k in m && prefix <= k
  {
    if k in m && prefix <= k {
      var i :| 0 <= i < |out| && out[i] == KeyVersion(k, m[k].version);
      assert KeysOf(out)[i] == k;
    }
    if k in KeysOf(out) {
      var i :| 0 <= i < |out| && KeysOf(out)[i] == k;
      assert Listed(m, prefix, out[i]);
    }
  }

  /** There is only one such listing. */
  lemma ListingUnique(m: map<string, Versioned>, prefix: string, a: seq<KeyVersion>, b: seq<KeyVersion>)
    requires IsListing(m, prefix, a) && IsListing(m, prefix, b)
    ensures a == b
  {
    forall k ensures k in KeysOf(a) <==> k in KeysOf(b) {
      ListingKeys(m, prefix, a, k);
      ListingKeys(m, prefix, b, k);
    }
    AscendingUnique(KeysOf(a), KeysOf(b));
    assert |a| == |KeysOf(a)| == |b|;
    forall i | 0 <= i < |a| ensures a[i] == b[i] {
      assert KeysOf(a)[i] == KeysOf(b)[i];
      assert Listed(m, prefix, a[i]) && Listed(m, prefix, b[i]);
    }
  }

  /** A matching key lies neither before the scan starts nor after it stops. */
  lemma ScanReaches(keys: seq<string>, prefix: string, start: nat, stop: nat, j: nat)
    requires Ascending(keys) && start <= stop <= |keys| && j < |keys|
    requires forall i :: 0 <= i < start ==> LexLess(keys[i], prefix)
    requires start < |keys| ==> !LexLess(keys[start], prefix)
    requires forall i :: start <= i < stop ==> prefix <= keys[i]
    requires stop < |keys| ==> !(prefix <= keys[stop])
    requires prefix <= keys[j]
    ensures start <= j < stop
  {
    PrefixFirst(prefix, keys[j]);
    if stop <= j {
      LexTrichotomy(keys[start], keys[stop]);
      LexTrichotomy(keys[stop], prefix);
      if stop < j {
        if LexLess(keys[stop], prefix) && start < stop {
          LexTransitive(keys[start], keys[stop], prefix);
        }
        PrefixContiguous(prefix, keys[stop], keys[j]);
      }
    }
  }

  /** What was read between the first key not below the prefix and the first one without it is the listing. */
  lemma ScanIsListing(m: map<string, Versioned>, prefix: string, keys: seq<string>, start: nat, stop: nat, out: seq<KeyVersion>)
    requires Ascending(keys) && forall k :: k in keys <==> k in m
    requires start <= stop <= |keys| && |out| == stop - start
    requires forall i :: 0 <= i < start ==> LexLess(keys[i], prefix)
    requires stop < |keys| ==> !(prefix <= keys[stop])
    requires start < |keys| ==> !LexLess(keys[start], prefix)
    requires forall j :: start <= j < stop ==>
               prefix <= keys[j] && keys[j] in m && out[j - start] == KeyVersion(keys[j], m[keys[j]].version)
    ensures IsListing(m, prefix, out)
  {
    forall k | k in m && prefix <= k ensures KeyVersion(k, m[k].version) in out {
      var j :| 0 <= j < |keys| && keys[j] == k;
      ScanReaches(keys, prefix, start, stop, j);
      assert out[j - start].key == k;
    }
    forall a, b | 0 <= a < b < |out| ensures LexLess(out[a].key, out[b].key) {
      assert out[a].key == keys[start + a] && out[b].key == keys[start + b];
    }
    forall j | 0 <= j < |out| ensures Listed(m, prefix, out[j]) {
      assert out[j].key == keys[start + j];
    }
  }

  class MemoryStore {
    var contents: map<string, Versioned>

    constructor ()
      ensures contents == map[]
    {
      contents := map[];
    }

    method Get(key: string) returns (r: Option<Versioned>)
      ensures r == Lookup(contents, key)
    {
      r := if key in contents then Some(contents[key]) else None;
    }

    method Put(key: string, version: int, value: Bytes) returns (r: Result<int, StoreError>)
      modifies this
      ensures r == PutResult(old(contents), key, version)
      ensures contents == PutState(old(contents), key, version, value)
    {
      var current := if key in contents then Some(contents[key].version) else None;
      var newVersion;
      if version == -1 {
        newVersion := 1;
      } else if version == 0 && current == None {
        newVersion := 1;
      } else if current.Some? && version == current.value {
        newVersion := current.value + 1;
      } else {
        return Err(Conflict);
      }
      contents := contents[key := Versioned(newVersion, value)];
      r := Ok(newVersion);
    }

    /** A scan from the prefix on, cut off at the first key that does not match it. */
    method List(prefix: string) returns (out: seq<KeyVersion>)
      ensures IsListing(contents, prefix, out)
    {
      var keys := SortedKeys(contents.Keys);
      var start := 0;
      while start < |keys| && LexLess(keys[start], prefix)
        invariant 0 <= start <= |keys|
        invariant forall i :: 0 <= i < start ==> LexLess(keys[i], prefix)
      {
        start := start + 1;
      }
      var i := start;
      out := [];
      while i < |keys| && prefix <= keys[i]
        invariant start <= i <= |keys|
        invariant |out| == i - start
        invariant forall j :: start <= j < i ==>
                    prefix <= keys[j] && out[j - start] == KeyVersion(keys[j], contents[keys[j]].version)
      {
        out := out + [KeyVersion(keys[i], contents[keys[i]].version)];
        i := i + 1;
      }
      ScanIsListing(contents, prefix, keys, start, i, out);
    }
  }

  // -------------------------------------------------------- paged VSS listing

  datatype Page = Page(keys: seq<KeyVersion>, next: Option<string>)

  predicate HasMore(page: Page) {
    page.next.Some? && page.next.value != ""
  }

  /**
    A server answers page requests: `pages` is the chain of answers it gives,
    starting from no token and following the non-empty tokens it hands out; the
    chain ends at a page without a token, or at a failing call.
   */
  ghost predicate Serves(serve: Option<string> -> Result<Page, StoreError>, token: Option<string>,
                         pages: seq<Page>, failure: Option<StoreError>)
    decreases |pages|
  {
    if pages == [] then failure.Some? && serve(token) == Err(failure.value)
    else
      && serve(token) == Ok(pages[0])
      && if HasMore(pages[0]) then Serves(serve, pages[0].next, pages[1..], failure)
         else |pages| == 1 && failure == None
  }

  function PageKeys(pages: seq<Page>): seq<KeyVersion> {
    if pages == [] then [] else pages[0].keys + PageKeys(pages[1..])
  }

  lemma Regroup(a: seq<KeyVersion>, b: seq<KeyVersion>, c: seq<KeyVersion>)
    ensures a + (b + c) == (a + b) + c
  {}

  lemma NextPage(out: seq<KeyVersion>, pages: seq<Page>)
    requires pages != []
    ensures out + PageKeys(pages) == (out + pages[0].keys) + PageKeys(pages[1..])
  {
    Regroup(out, pages[0].keys, PageKeys(pages[1..]));
  }

  lemma LastPage(out: seq<KeyVersion>, pages: seq<Page>)
    requires |pages| == 1
    ensures out + PageKeys(pages) == out + pages[0].keys
  {
    assert PageKeys(pages[1..]) == [];
  }

  /** The page loop collects every page, or reports the first failing call. */
  method ListPaged(serve: Option<string> -> Result<Page, StoreError>,
                   ghost pages: seq<Page>, ghost failure: Option<StoreError>)
    returns (r: Result<seq<KeyVersion>, StoreError>)
    requires Serves(serve, None, pages, failure)
    ensures r == if failure.Some? then Err(failure.value) else Ok(PageKeys(pages))
  {
    var out: seq<KeyVersion> := [];
    var pageToken: Option<string> := None;
    ghost var rest := pages;
    while true
      invariant Serves(serve, pageToken, rest, failure)
      invariant out + PageKeys(rest) == PageKeys(pages)
      decreases |rest|
    {
      var resp := serve(pageToken);
      if resp.Err? {
        return Err(resp.error);
      }
      assert rest != [] && resp.value == rest[0];
      if !HasMore(resp.value) {
        LastPage(out, rest);
        return Ok(out + resp.value.keys);
      }
      NextPage(out, rest);
      out := out + resp.value.keys;
      rest := rest[1..];
      pageToken := resp.value.next;
    }
  }

  /** A server that cuts the sorted listing into consecutive pages is listed like the in-memory store. */
  lemma PagedListingAgrees(m: map<string, Versioned>, prefix: string, pages: seq<Page>, local: seq<KeyVersion>)
    requires IsListing(m, prefix, PageKeys(pages)) && IsListing(m, prefix, local)
    ensures PageKeys(pages) == local
  {
    ListingUnique(m, prefix, PageKeys(pages), local);
  }

  /**
    An answer that cuts a page out of a listing: the keys from a position on, at
    least one while any are left, with a non-empty token exactly while more
    remain; the server takes that token for the position where the page stopped.
   */
  ghost predicate CutsAt(answer: Result<Page, StoreError>, position: Option<string> -> nat, listing: seq<KeyVersion>, at: nat)
    requires at <= |listing|
  {
    answer.Ok? ==>
      var page := answer.value;
      && page.keys <= listing[at..]
      && (at < |listing| ==> page.keys != [])
      && (HasMore(page) <==> at + |page.keys| < |listing|)
      && (HasMore(page) ==> position(page.next) == at + |page.keys|)
  }

  /** A server that cuts this listing into pages; any of its calls may fail. */
  ghost predicate Cuts(serve: Option<string> -> Result<Page, StoreError>, position: Option<string> -> nat,
                       listing: seq<KeyVersion>)
  {
    && position(None) == 0
    && forall token :: position(token) <= |listing| ==> CutsAt(serve(token), position, listing, position(token))
  }

  /** The chain of pages of such a server ends: with the rest of the listing, or with a call that failed. */
  lemma {:induction false} CutsServe(serve: Option<string> -> Result<Page, StoreError>, position: Option<string> -> nat,
                                     listing: seq<KeyVersion>, token: Option<string>)
    returns (pages: seq<Page>, failure: Option<StoreError>)
    requires Cuts(serve, position, listing) && position(token) <= |listing|
    ensures Serves(serve, token, pages, failure)
    ensures failure.None? ==> PageKeys(pages) == listing[position(token)..]
    ensures failure.Some? ==> exists t :: serve(t) == Err(failure.value)
    decreases |listing| - position(token)
  {
    var at := position(token);
    assert CutsAt(serve(token), position, listing, at);
    if serve(token).Err? {
      pages, failure := [], Some(serve(token).error);
    } else {
      var page := serve(token).value;
      assert listing[at..] == page.keys + listing[at + |page.keys|..];
      if HasMore(page) {
        var rest, stop := CutsServe(serve, position, listing, page.next);
        pages, failure := [page] + rest, stop;
        assert pages[1..] == rest;
      } else {
        pages, failure := [page], None;
        assert pages[1..] == [];
        assert listing[|listing|..] == [];
      }
    }
  }

  /** Against any server that cuts the listing of a store, the page loop ends with that listing unless a call fails. */
  method ListCut(serve: Option<string> -> Result<Page, StoreError>, ghost position: Option<string> -> nat,
                 ghost m: map<string, Versioned>, ghost prefix: string, ghost listing: seq<KeyVersion>)
    returns (r: Result<seq<KeyVersion>, StoreError>)
    requires IsListing(m, prefix, listing) && Cuts(serve, position, listing)
    ensures r.Ok? ==> IsListing(m, prefix, r.value) && r.value == listing
    ensures r.Err? ==> exists token :: serve(token) == Err(r.error)
    ensures (forall token :: serve(token).Ok?) ==> r.Ok?
  {
    ghost var pages, failure := CutsServe(serve, position, listing, None);
    if failure.None? {
      PagedListingAgrees(m, prefix, pages, listing);
    }
    r := ListPaged(serve, pages, failure);
  }
}
