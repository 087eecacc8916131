/**
  Editable settings (`apply_settings_patch`, crates/pivss-server/src/state.rs):
  validation, the relay clean-up loop, and what every patched configuration keeps.
  Text is a sequence of Unicode scalar values; lengths are counted in UTF-8 bytes.
 */
module Settings {
  import opened Bytes
  import opened Wrappers

  const MAX_BACKUP_BYTES_CEILING: nat := 536870912

  datatype Config = Config(name: string, description: string, priceSatsPerMib: nat, billingPeriodSecs: nat,
                           maxBackupBytes: nat, relays: seq<string>, bolt12Offer: string, trackers: seq<Bytes>)

  datatype Patch = Patch(name: Option<string>, description: Option<string>, priceSatsPerMib: Option<nat>,
                         billingPeriodSecs: Option<nat>, maxBackupBytes: Option<nat>,
                         relays: Option<seq<string>>, bolt12Offer: Option<string>)

  // --------------------------------------------------------------------- text

  /** The White_Space property of Unicode. */
  predicate IsSpace(c: char) {
    var n := c as int;
    9 <= n <= 13 || n == 0x20 || n == 0x85 || n == 0xA0 || n == 0x1680 || 0x2000 <= n <= 0x200A
    || n == 0x2028 || n == 0x2029 || n == 0x202F || n == 0x205F || n == 0x3000
  }

  function TrimStart(s: string): string {
    if s != "" && IsSpace(s[0]) then TrimStart(s[1..]) else s
  }

  function TrimEnd(s: string): string {
    if s != "" && IsSpace(s[|s| - 1]) then TrimEnd(s[..|s| - 1]) else s
  }

  function Trim(s: string): string {
    TrimEnd(TrimStart(s))
  }

  function Utf8Width(c: char): nat {
    var n := c as int;
    if n < 0x80 then 1 else if n < 0x800 then 2 else if n < 0x10000 then 3 else 4
  }

  function Utf8Len(s: string): nat {
    if s == "" then 0 else Utf8Width(s[0]) + Utf8Len(s[1..])
  }

  predicate Trimmed(s: string) {
    s == "" || (!IsSpace(s[0]) && !IsSpace(s[|s| - 1]))
  }

  lemma {:induction false} TrimStartFacts(s: string)
    ensures TrimStart(s) == "" || !IsSpace(TrimStart(s)[0])
    ensures Utf8Len(TrimStart(s)) <= Utf8Len(s)
  {
    if s != "" && IsSpace(s[0]) {
      TrimStartFacts(s[1..]);
    }
  }

  lemma {:induction false} Utf8LenInit(s: string)
    requires s != ""
    ensures Utf8Len(s[..|s| - 1]) <= Utf8Len(s)
  {
    if |s| > 1 {
      Utf8LenInit(s[1..]);
      assert s[..|s| - 1][1..] == s[1..][..|s| - 2];
    }
  }

  lemma {:induction false} TrimEndFacts(s: string)
    requires s == "" || !IsSpace(s[0])
    ensures Trimmed(TrimEnd(s)) && (s != "" ==> TrimEnd(s) != "")
    ensures Utf8Len(TrimEnd(s)) <= Utf8Len(s)
  {
    if s != "" && IsSpace(s[|s| - 1]) {
      Utf8LenInit(s);
      TrimEndFacts(s[..|s| - 1]);
    }
  }

  /** Trimming leaves no outer white space and never lengthens. */
  lemma TrimFacts(s: string)
    ensures Trimmed(Trim(s)) && Utf8Len(Trim(s)) <= Utf8Len(s)
  {
    TrimStartFacts(s);
    TrimEndFacts(TrimStart(s));
  }

  ghost predicate AllSpace(s: string) {
    forall i :: 0 <= i < |s| ==> IsSpace(s[i])
  }

  lemma {:induction false} TrimStartSplits(s: string) returns (before: string)
    ensures s == before + TrimStart(s) && AllSpace(before)
  {
    before := [];
    if s != "" && IsSpace(s[0]) {
      var rest := TrimStartSplits(s[1..]);
      before := [s[0]] + rest;
      assert s == [s[0]] + s[1..];
    }
  }

  lemma {:induction false} TrimEndSplits(s: string) returns (after: string)
    ensures s == TrimEnd(s) + after && AllSpace(after)
  {
    after := [];
    if s != "" && IsSpace(s[|s| - 1]) {
      var rest := TrimEndSplits(s[..|s| - 1]);
      after := rest + [s[|s| - 1]];
      assert s == s[..|s| - 1] + [s[|s| - 1]];
    }
  }

  /** Trimming takes away white space at both ends, all of it, and nothing else: no printable ASCII, and every blank. */
  lemma TrimSplits(s: string) returns (before: string, after: string)
    ensures s == before + Trim(s) + after && AllSpace(before) && AllSpace(after) && Trimmed(Trim(s))
    ensures forall c :: c in before + after ==> c as int <= 32 || c as int >= 128
    ensures var t := Trim(s); t != "" ==> t[0] !in {' ', '\t', '\n', '\r'} && t[|t| - 1] !in {' ', '\t', '\n', '\r'}
  {
    before := TrimStartSplits(s);
    after := TrimEndSplits(TrimStart(s));
    TrimFacts(s);
  }

  /** UTF-8 takes one to four bytes a character, and one exactly for ASCII. */
  lemma {:induction false} Utf8LenBounds(s: string)
    ensures |s| <= Utf8Len(s) <= 4 * |s|
    ensures Utf8Len(s) == |s| <==> forall i :: 0 <= i < |s| ==> s[i] as int < 128
  {
    if s != "" {
      Utf8LenBounds(s[1..]);
      assert forall i :: 0 < i < |s| ==> s[i] == s[1..][i - 1];
      assert (forall i :: 0 <= i < |s| ==> s[i] as int < 128) <==>
             s[0] as int < 128 && forall i :: 0 <= i < |s[1..]| ==> s[1..][i] as int < 128;
    }
  }

  // ------------------------------------------------------------------- relays

  predicate RelayScheme(r: string) {
    "ws://" <= r || "wss://" <= r
  }

  predicate GoodRelay(r: string) {
    r != "" && Trimmed(r) && RelayScheme(r)
  }

  ghost predicate RelaysOk(relays: seq<string>) {
    && (forall i :: 0 <= i < |relays| ==> GoodRelay(relays[i]))
    && (forall i, j :: 0 <= i < j < |relays| ==> relays[i] != relays[j])
  }

  predicate Asked(entries: seq<string>, k: nat, r: string)
    requires k <= |entries|
  {
    exists i :: 0 <= i < k && Trim(entries[i]) == r
  }

  /** Where an entry first occurs, or the length of the list. */
  function FirstIndex(entries: seq<string>, r: string): nat {
    if entries == [] then 0
    else if Trim(entries[0]) == r then 0
    else 1 + FirstIndex(entries[1..], r)
  }

  /** The relay list that the first `k` entries ask for: blanks dropped, each kept where it first occurs. */
  ghost predicate CleanedUpTo(cleaned: seq<string>, entries: seq<string>, k: nat)
    requires k <= |entries|
  {
    && RelaysOk(cleaned)
    && (forall r :: r in cleaned <==> r != "" && Asked(entries, k, r))
    && (forall i :: 0 <= i < |cleaned| ==> FirstIndex(entries, cleaned[i]) < k)
    && (forall i, j :: 0 <= i < j < |cleaned| ==> FirstIndex(entries, cleaned[i]) < FirstIndex(entries, cleaned[j]))
  }

  ghost predicate CleanedFrom(cleaned: seq<string>, entries: seq<string>) {
    CleanedUpTo(cleaned, entries, |entries|)
  }

  predicate EntryOk(entry: string) {
    Trim(entry) == "" || RelayScheme(Trim(entry))
  }

  lemma {:induction false} FirstIndexIs(entries: seq<string>, r: string, k: nat)
    requires k < |entries| && Trim(entries[k]) == r
    requires forall i :: 0 <= i < k ==> Trim(entries[i]) != r
    ensures FirstIndex(entries, r) == k
  {
    if k > 0 {
      FirstIndexIs(entries[1..], r, k - 1);
    }
  }

  lemma AskedNext(entries: seq<string>, k: nat, r: string)
    requires k < |entries|
    ensures Asked(entries, k + 1, r) <==> Asked(entries, k, r) || Trim(entries[k]) == r
  {
    if i :| 0 <= i < k + 1 && Trim(entries[i]) == r {
      assert i < k || i == k;
    }
  }

  lemma RelaySkipped(cleaned: seq<string>, entries: seq<string>, k: nat)
    requires k < |entries| && CleanedUpTo(cleaned, entries, k)
    requires Trim(entries[k]) == "" || Trim(entries[k]) in cleaned
    ensures CleanedUpTo(cleaned, entries, k + 1)
  {
    forall r ensures r in cleaned <==> r != "" && Asked(entries, k + 1, r) {
      AskedNext(entries, k, r);
    }
  }

  lemma RelayAdded(cleaned: seq<string>, entries: seq<string>, k: nat, relay: string)
    requires k < |entries| && CleanedUpTo(cleaned, entries, k)
    requires relay == Trim(entries[k]) && relay != "" && RelayScheme(relay) && relay !in cleaned
    ensures CleanedUpTo(cleaned + [relay], entries, k + 1)
  {
    TrimFacts(entries[k]);
    assert !Asked(entries, k, relay);
    FirstIndexIs(entries, relay, k);
    forall r ensures r in cleaned + [relay] <==> r != "" && Asked(entries, k + 1, r) {
      AskedNext(entries, k, r);
    }
  }

  method CleanRelays(entries: seq<string>) returns (r: Option<seq<string>>)
    ensures r.Some? <==> forall i :: 0 <= i < |entries| ==> EntryOk(entries[i])
    ensures r.Some? ==> CleanedFrom(r.value, entries)
  {
    var cleaned: seq<string> := [];
    for k := 0 to |entries|
      invariant forall i :: 0 <= i < k ==> EntryOk(entries[i])
      invariant CleanedUpTo(cleaned, entries, k)
    {
      var relay := Trim(entries[k]);
      if relay == "" {
        RelaySkipped(cleaned, entries, k);
        continue;
      }
      if !("ws://" <= relay) && !("wss://" <= relay) {
        return None;
      }
      if relay in cleaned {
        RelaySkipped(cleaned, entries, k);
      } else {
        RelayAdded(cleaned, entries, k, relay);
        cleaned := cleaned + [relay];
      }
    }
    r := Some(cleaned);
  }

  lemma {:induction false} OrderedUnique(a: seq<string>, b: seq<string>, entries: seq<string>)
    requires forall i, j :: 0 <= i < j < |a| ==> FirstIndex(entries, a[i]) < FirstIndex(entries, a[j])
    requires forall i, j :: 0 <= i < j < |b| ==> FirstIndex(entries, b[i]) < FirstIndex(entries, b[j])
    requires forall r :: r in a <==> r in b
    ensures a == b
    decreases |a|
  {
    if a == [] {
      assert forall i :: 0 <= i < |b| ==> b[i] in b;
    } else {
      assert a[0] in b && b != [];
      assert b[0] in a;
      assert a[0] == b[0];
      forall r ensures r in a[1..] <==> r in b[1..] {
        assert r in a <==> r == a[0] || r in a[1..];
        assert r in b <==> r == b[0] || r in b[1..];
        assert r in a[1..] ==> FirstIndex(entries, a[0]) < FirstIndex(entries, r);
        assert r in b[1..] ==> FirstIndex(entries, b[0]) < FirstIndex(entries, r);
      }
      OrderedUnique(a[1..], b[1..], entries);
      assert a == [a[0]] + a[1..] && b == [b[0]] + b[1..];
    }
  }

  /** The clean-up has one possible result. */
  lemma CleanedUnique(a: seq<string>, b: seq<string>, entries: seq<string>)
    requires CleanedFrom(a, entries) && CleanedFrom(b, entries)
    ensures a == b
  {
    OrderedUnique(a, b, entries);
  }

  // ------------------------------------------------------------------ patches

  predicate TextOk(s: string, limit: nat) {
    Trim(s) != "" && Utf8Len(s) <= limit
  }

  /** The validation a patch has to pass; `wallet`: a real wallet is connected. */
  ghost predicate PatchOk(p: Patch, wallet: bool) {
    && (p.priceSatsPerMib.Some? ==> p.priceSatsPerMib.value >= 1)
    && (p.billingPeriodSecs.Some? ==> p.billingPeriodSecs.value >= 60)
    && (p.maxBackupBytes.Some? ==> 1024 <= p.maxBackupBytes.value <= MAX_BACKUP_BYTES_CEILING)
    && (p.relays.Some? ==> forall i :: 0 <= i < |p.relays.value| ==> EntryOk(p.relays.value[i]))
    && (p.name.Some? ==> TextOk(p.name.value, 100))
    && (p.description.Some? ==> TextOk(p.description.value, 500))
    && (p.bolt12Offer.Some? ==> !wallet)
  }

  /** `after` is `before` with the patch's fields replaced, and no other. */
  ghost predicate Patched(before: Config, p: Patch, after: Config) {
    && after.name == (if p.name.Some? then Trim(p.name.value) else before.name)
    && after.description == (if p.description.Some? then Trim(p.description.value) else before.description)
    && after.priceSatsPerMib == (if p.priceSatsPerMib.Some? then p.priceSatsPerMib.value else before.priceSatsPerMib)
    && after.billingPeriodSecs == (if p.billingPeriodSecs.Some? then p.billingPeriodSecs.value else before.billingPeriodSecs)
    && after.maxBackupBytes == (if p.maxBackupBytes.Some? then p.maxBackupBytes.value else before.maxBackupBytes)
    && (if p.relays.Some? then CleanedFrom(after.relays, p.relays.value) else after.relays == before.relays)
    && after.bolt12Offer == (if p.bolt12Offer.Some? then p.bolt12Offer.value else before.bolt12Offer)
    && after.trackers == before.trackers
  }

  /** What every configuration in service satisfies. */
  ghost predicate ConfigOk(c: Config) {
    && c.priceSatsPerMib >= 1 && c.billingPeriodSecs >= 60
    && 1024 <= c.maxBackupBytes <= MAX_BACKUP_BYTES_CEILING
    && RelaysOk(c.relays)
    && c.name != "" && Trimmed(c.name) && Utf8Len(c.name) <= 100
    && c.description != "" && Trimmed(c.description) && Utf8Len(c.description) <= 500
  }

  lemma PatchKeepsConfigOk(before: Config, p: Patch, wallet: bool, after: Config)
    requires ConfigOk(before) && PatchOk(p, wallet) && Patched(before, p, after)
    ensures ConfigOk(after)
  {
    if p.name.Some? {
      TrimFacts(p.name.value);
    }
    if p.description.Some? {
      TrimFacts(p.description.value);
    }
  }

  const EMPTY_PATCH := Patch(None, None, None, None, None, None, None)

  /** The limits of validation: each field is judged by itself, and these are the values let through. */
  lemma ValidationLimits(p: Patch, wallet: bool, n: nat, s: string)
    ensures PatchOk(EMPTY_PATCH, wallet)
    ensures PatchOk(EMPTY_PATCH.(priceSatsPerMib := Some(n)), wallet) <==> n >= 1
    ensures PatchOk(EMPTY_PATCH.(billingPeriodSecs := Some(n)), wallet) <==> n >= 60
    ensures PatchOk(EMPTY_PATCH.(maxBackupBytes := Some(n)), wallet) <==> 1024 <= n <= 536870912
    ensures PatchOk(EMPTY_PATCH.(name := Some(s)), wallet) <==> Trim(s) != "" && Utf8Len(s) <= 100
    ensures PatchOk(EMPTY_PATCH.(description := Some(s)), wallet) <==> Trim(s) != "" && Utf8Len(s) <= 500
    ensures PatchOk(EMPTY_PATCH.(relays := Some([s])), wallet) <==> Trim(s) == "" || "ws://" <= Trim(s) || "wss://" <= Trim(s)
    ensures p.bolt12Offer.Some? ==> (PatchOk(EMPTY_PATCH.(bolt12Offer := p.bolt12Offer), wallet) <==> !wallet)
    ensures PatchOk(p, wallet) <==>
              && PatchOk(EMPTY_PATCH.(name := p.name), wallet) && PatchOk(EMPTY_PATCH.(description := p.description), wallet)
              && PatchOk(EMPTY_PATCH.(priceSatsPerMib := p.priceSatsPerMib), wallet)
              && PatchOk(EMPTY_PATCH.(billingPeriodSecs := p.billingPeriodSecs), wallet)
              && PatchOk(EMPTY_PATCH.(maxBackupBytes := p.maxBackupBytes), wallet)
              && PatchOk(EMPTY_PATCH.(relays := p.relays), wallet) && PatchOk(EMPTY_PATCH.(bolt12Offer := p.bolt12Offer), wallet)
  {
    assert [s][0] == s;
  }

  /** A run of patches: each is applied when it passes validation, and changes nothing when it does not. */
  ghost predicate PatchRun(configs: seq<Config>, patches: seq<Patch>, wallet: bool) {
    && |configs| == |patches| + 1
    && forall i :: 0 <= i < |patches| ==>
         if PatchOk(patches[i], wallet) then Patched(configs[i], patches[i], configs[i + 1])
         else configs[i + 1] == configs[i]
  }

  lemma {:induction false} PatchRunKeepsConfigOk(configs: seq<Config>, patches: seq<Patch>, wallet: bool, i: nat)
    requires PatchRun(configs, patches, wallet) && ConfigOk(configs[0]) && i < |configs|
    ensures ConfigOk(configs[i])
  {
    if i > 0 {
      PatchRunKeepsConfigOk(configs, patches, wallet, i - 1);
      if PatchOk(patches[i - 1], wallet) {
        PatchKeepsConfigOk(configs[i - 1], patches[i - 1], wallet, configs[i]);
      }
    }
  }
}
