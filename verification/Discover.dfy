/**
  Provider discovery (crates/pivss-client/src/discover.rs): relay answers are
  merged into one newest event per public key. Signature verification and the
  decoding of content and key are parameters.
 */
module Discover {
  import opened Wrappers
  import opened Ordering

  datatype Event = Event(pubkey: string, createdAt: nat, content: string, id: string)

  /** A relay's answer: its events, or nothing if the query failed. */
  datatype Answer = Answer(relay: string, events: Option<seq<Event>>)

  datatype Seen = Seen(event: Event, seenOn: seq<string>)

  datatype Announcement = Announcement(name: string, endpoint: string, priceSatsPerMib: nat)

  datatype Provider = Provider(pubkey: string, npub: string, announcement: Announcement, createdAt: nat, seenOn: seq<string>)

  datatype Decoders = Decoders(verify: Event -> bool, announcement: string -> Option<Announcement>, npub: string -> Option<string>)

  // -------------------------------------------------------------------- merge

  function Tagged(relay: string, events: seq<Event>): seq<(string, Event)> {
    seq(|events|, i requires 0 <= i < |events| => (relay, events[i]))
  }

  /** Everything received, relay by relay, in order of arrival. */
  function Received(answers: seq<Answer>): seq<(string, Event)> {
    if answers == [] then []
    else
      var last := answers[|answers| - 1];
      Received(answers[..|answers| - 1]) + (if last.events.Some? then Tagged(last.relay, last.events.value) else [])
  }

  lemma {:induction false} ReceivedAppend(a: seq<Answer>, b: seq<Answer>)
    ensures Received(a + b) == Received(a) + Received(b)
    decreases |b|
  {
    if b == [] {
      assert a + b == a;
    } else {
      var init, last, all := b[..|b| - 1], b[|b| - 1], a + b;
      ghost var segment := if last.events.Some? then Tagged(last.relay, last.events.value) else [];
      ReceivedAppend(a, init);
      assert all[..|all| - 1] == a + init && all[|all| - 1] == last;
      assert Received(all) == Received(a + init) + segment && Received(b) == Received(init) + segment;
    }
  }

  lemma ReceivedOne(answer: Answer)
    ensures Received([answer]) == if answer.events.Some? then Tagged(answer.relay, answer.events.value) else []
  {
    assert Received([answer][..0]) == [];
  }

  /** Every event of a relay that answered is received, in order, after those of earlier relays and before those of later ones. */
  lemma EveryEventReceived(before: seq<Answer>, answer: Answer, after: seq<Answer>)
    ensures Received(before + [answer] + after) == Received(before) + Received([answer]) + Received(after)
    ensures |Received([answer])| == if answer.events.Some? then |answer.events.value| else 0
    ensures forall i :: 0 <= i < |Received([answer])| ==> Received([answer])[i] == (answer.relay, answer.events.value[i])
  {
    ReceivedAppend(before + [answer], after);
    ReceivedAppend(before, [answer]);
    ReceivedOne(answer);
  }

  function Merge(d: Decoders, m: map<string, Seen>, relay: string, ev: Event): map<string, Seen> {
    if !d.verify(ev) then m
    else if ev.pubkey in m then
      var seen := m[ev.pubkey];
      m[ev.pubkey := Seen(if ev.createdAt > seen.event.createdAt then ev else seen.event, seen.seenOn + [relay])]
    else m[ev.pubkey := Seen(ev, [relay])]
  }

  function MergeAll(d: Decoders, received: seq<(string, Event)>): map<string, Seen> {
    if received == [] then map[]
    else
      var (relay, ev) := received[|received| - 1];
      Merge(d, MergeAll(d, received[..|received| - 1]), relay, ev)
  }

  lemma {:induction false} MergeAllAppend(d: Decoders, received: seq<(string, Event)>, relay: string, ev: Event)
    ensures MergeAll(d, received + [(relay, ev)]) == Merge(d, MergeAll(d, received), relay, ev)
  {
    assert (received + [(relay, ev)])[..|received|] == received;
  }

  /** One relay's events, in order. */
  method MergeRelay(d: Decoders, byPubkey: map<string, Seen>, relay: string, events: seq<Event>, ghost before: seq<(string, Event)>)
    returns (merged: map<string, Seen>)
    requires byPubkey == MergeAll(d, before)
    ensures merged == MergeAll(d, before + Tagged(relay, events))
  {
    merged := byPubkey;
    assert before + Tagged(relay, events[..0]) == before;
    for i := 0 to |events|
      invariant merged == MergeAll(d, before + Tagged(relay, events[..i]))
    {
      var ev := events[i];
      MergeAllAppend(d, before + Tagged(relay, events[..i]), relay, ev);
      assert before + Tagged(relay, events[..i + 1]) == before + Tagged(relay, events[..i]) + [(relay, ev)];
      if !d.verify(ev) {
        continue;
      }
      if ev.pubkey in merged {
        var seen := merged[ev.pubkey];
        seen := seen.(seenOn := seen.seenOn + [relay]);
        if ev.createdAt > seen.event.createdAt {
          seen := seen.(event := ev);
        }
        merged := merged[ev.pubkey := seen];
      } else {
        merged := merged[ev.pubkey := Seen(ev, [relay])];
      }
    }
    assert events[..|events|] == events;
  }

  method MergeAnswers(d: Decoders, answers: seq<Answer>) returns (byPubkey: map<string, Seen>)
    ensures byPubkey == MergeAll(d, Received(answers))
  {
    byPubkey := map[];
    for a := 0 to |answers|
      invariant byPubkey == MergeAll(d, Received(answers[..a]))
    {
      ghost var before := Received(answers[..a]);
      assert answers[..a + 1][..a] == answers[..a];
      if answers[a].events.None? {
        assert before + [] == before;
        continue;
      }
      byPubkey := MergeRelay(d, byPubkey, answers[a].relay, answers[a].events.value, before);
    }
    assert answers[..|answers|] == answers;
  }

  /** The `i`th event received is verified and from this key. */
  predicate Counts(d: Decoders, received: seq<(string, Event)>, i: nat, pubkey: string)
    requires i < |received|
  {
    d.verify(received[i].1) && received[i].1.pubkey == pubkey
  }

  ghost predicate HasEvent(d: Decoders, received: seq<(string, Event)>, pubkey: string) {
    exists i :: 0 <= i < |received| && Counts(d, received, i, pubkey)
  }

  /** The first among the newest verified events of a key. */
  ghost predicate IsKept(d: Decoders, received: seq<(string, Event)>, i: nat, pubkey: string) {
    && i < |received| && Counts(d, received, i, pubkey)
    && forall j :: 0 <= j < |received| && Counts(d, received, j, pubkey) ==>
         if j < i then received[j].1.createdAt < received[i].1.createdAt
         else received[j].1.createdAt <= received[i].1.createdAt
  }

  /** One more event of the key: the newer wins, the earlier on a tie. */
  lemma KeptNext(d: Decoders, received: seq<(string, Event)>, i: nat, pubkey: string)
    requires received != [] && IsKept(d, received[..|received| - 1], i, pubkey)
    requires Counts(d, received, |received| - 1, pubkey)
    ensures var n := |received| - 1;
            IsKept(d, received, if received[n].1.createdAt > received[i].1.createdAt then n else i, pubkey)
  {
    var init := received[..|received| - 1];
    forall j | 0 <= j < |init| && Counts(d, received, j, pubkey) ensures init[j].1.createdAt <= init[i].1.createdAt {
      assert Counts(d, init, j, pubkey);
    }
    forall j | 0 <= j < i && Counts(d, received, j, pubkey) ensures init[j].1.createdAt < init[i].1.createdAt {
      assert Counts(d, init, j, pubkey);
    }
  }

  lemma KeptElsewhere(d: Decoders, received: seq<(string, Event)>, pubkey: string)
    requires received != [] && !Counts(d, received, |received| - 1, pubkey)
    ensures forall i: nat :: IsKept(d, received[..|received| - 1], i, pubkey) ==> IsKept(d, received, i, pubkey)
    ensures HasEvent(d, received, pubkey) ==> HasEvent(d, received[..|received| - 1], pubkey)
  {
    var init := received[..|received| - 1];
    forall i: nat | IsKept(d, init, i, pubkey) ensures IsKept(d, received, i, pubkey) {
      forall j | 0 <= j < |received| && Counts(d, received, j, pubkey)
        ensures if j < i then received[j].1.createdAt < received[i].1.createdAt
                else received[j].1.createdAt <= received[i].1.createdAt
      {
        assert Counts(d, init, j, pubkey);
      }
    }
    if i :| 0 <= i < |received| && Counts(d, received, i, pubkey) {
      assert Counts(d, init, i, pubkey);
    }
  }

  ghost predicate KeepsOneOf(d: Decoders, received: seq<(string, Event)>, pubkey: string) {
    exists i: nat :: IsKept(d, received, i, pubkey) && pubkey in MergeAll(d, received)
      && MergeAll(d, received)[pubkey].event == received[i].1
  }

  /** What is kept of a key is the first of its newest verified events; a key without one is absent. */
  lemma {:induction false} MergeKeepsNewest(d: Decoders, received: seq<(string, Event)>, pubkey: string)
    ensures pubkey in MergeAll(d, received) <==> HasEvent(d, received, pubkey)
    ensures pubkey in MergeAll(d, received) ==> KeepsOneOf(d, received, pubkey)
  {
    if received != [] {
      var n := |received| - 1;
      var init := received[..n];
      MergeKeepsNewest(d, init, pubkey);
      forall j | 0 <= j < n ensures Counts(d, received, j, pubkey) == Counts(d, init, j, pubkey) {}
      if Counts(d, received, n, pubkey) {
        if pubkey in MergeAll(d, init) {
          var i: nat :| IsKept(d, init, i, pubkey) && MergeAll(d, init)[pubkey].event == init[i].1;
          KeptNext(d, received, i, pubkey);
        } else {
          assert forall j :: 0 <= j < n ==> !Counts(d, init, j, pubkey);
          assert IsKept(d, received, n, pubkey);
        }
      } else {
        KeptElsewhere(d, received, pubkey);
      }
    }
  }

  /** The `i`th event is verified, from this key, and no other of them is newer. */
  ghost predicate IsNewest(d: Decoders, received: seq<(string, Event)>, i: nat, pubkey: string) {
    && i < |received| && Counts(d, received, i, pubkey)
    && forall j :: 0 <= j < |received| && Counts(d, received, j, pubkey) ==> received[j].1.createdAt <= received[i].1.createdAt
  }

  /** No two verified events of the key share its newest timestamp, as when all its timestamps differ. */
  ghost predicate NewestUnique(d: Decoders, received: seq<(string, Event)>, pubkey: string) {
    forall i: nat, j: nat :: IsNewest(d, received, i, pubkey) && IsNewest(d, received, j, pubkey) ==> received[i].1 == received[j].1
  }

  /** Every verified event of the key in `a` is in `b`. */
  ghost predicate Within(d: Decoders, a: seq<(string, Event)>, b: seq<(string, Event)>, pubkey: string) {
    forall i :: 0 <= i < |a| && Counts(d, a, i, pubkey) ==> exists j :: 0 <= j < |b| && b[j].1 == a[i].1
  }

  /** The same verified events of the key, in any order, repeated at will, among any others. */
  ghost predicate SameEvents(d: Decoders, a: seq<(string, Event)>, b: seq<(string, Event)>, pubkey: string) {
    Within(d, a, b, pubkey) && Within(d, b, a, pubkey)
  }

  lemma Carried(d: Decoders, a: seq<(string, Event)>, b: seq<(string, Event)>, i: nat, pubkey: string) returns (j: nat)
    requires Within(d, a, b, pubkey) && i < |a| && Counts(d, a, i, pubkey)
    ensures j < |b| && b[j].1 == a[i].1 && Counts(d, b, j, pubkey)
  {
    j :| 0 <= j < |b| && b[j].1 == a[i].1;
  }

  lemma EventsCarried(d: Decoders, a: seq<(string, Event)>, b: seq<(string, Event)>, pubkey: string)
    requires Within(d, a, b, pubkey) && HasEvent(d, a, pubkey)
    ensures HasEvent(d, b, pubkey)
  {
    var i :| 0 <= i < |a| && Counts(d, a, i, pubkey);
    var j := Carried(d, a, b, i, pubkey);
  }

  /** The newest event of one arrangement, found in the other, is newest there. */
  lemma NewestCarried(d: Decoders, a: seq<(string, Event)>, b: seq<(string, Event)>, i: nat, pubkey: string) returns (j: nat)
    requires SameEvents(d, a, b, pubkey) && IsNewest(d, a, i, pubkey)
    ensures IsNewest(d, b, j, pubkey) && b[j].1 == a[i].1
  {
    j := Carried(d, a, b, i, pubkey);
    forall k | 0 <= k < |b| && Counts(d, b, k, pubkey) ensures b[k].1.createdAt <= b[j].1.createdAt {
      var k' := Carried(d, b, a, k, pubkey);
    }
  }

  lemma KeptEvent(d: Decoders, received: seq<(string, Event)>, pubkey: string) returns (i: nat)
    requires KeepsOneOf(d, received, pubkey)
    ensures IsKept(d, received, i, pubkey) && IsNewest(d, received, i, pubkey)
    ensures pubkey in MergeAll(d, received) && MergeAll(d, received)[pubkey].event == received[i].1
  {
    i :| IsKept(d, received, i, pubkey) && pubkey in MergeAll(d, received)
         && MergeAll(d, received)[pubkey].event == received[i].1;
  }

  lemma BothKeep(d: Decoders, a: seq<(string, Event)>, b: seq<(string, Event)>, pubkey: string)
    requires SameEvents(d, a, b, pubkey) && NewestUnique(d, a, pubkey)
    requires KeepsOneOf(d, a, pubkey) && KeepsOneOf(d, b, pubkey)
    ensures MergeAll(d, a)[pubkey].event == MergeAll(d, b)[pubkey].event
  {
    var i := KeptEvent(d, a, pubkey);
    var j := KeptEvent(d, b, pubkey);
    var j' := NewestCarried(d, b, a, j, pubkey);
  }

  /** Both keep the same event of the key, or neither keeps one. */
  ghost predicate KeepAlike(d: Decoders, a: seq<(string, Event)>, b: seq<(string, Event)>, pubkey: string) {
    && (pubkey in MergeAll(d, a) <==> pubkey in MergeAll(d, b))
    && (pubkey in MergeAll(d, a) ==> MergeAll(d, a)[pubkey].event == MergeAll(d, b)[pubkey].event)
  }

  /** What is kept then depends neither on the order of relays nor of events, nor on repetition or forgeries. */
  lemma MergeIgnoresOrder(d: Decoders, a: seq<(string, Event)>, b: seq<(string, Event)>, pubkey: string)
    requires SameEvents(d, a, b, pubkey) && NewestUnique(d, a, pubkey)
    ensures KeepAlike(d, a, b, pubkey)
  {
    MergeKeepsNewest(d, a, pubkey);
    MergeKeepsNewest(d, b, pubkey);
    if HasEvent(d, a, pubkey) {
      EventsCarried(d, a, b, pubkey);
      BothKeep(d, a, b, pubkey);
    } else if HasEvent(d, b, pubkey) {
      EventsCarried(d, b, a, pubkey);
    }
  }

  /** A newest event that arrives first is the one kept. */
  lemma FirstNewestKept(d: Decoders, a: seq<(string, Event)>, i: nat, pubkey: string)
    requires IsNewest(d, a, i, pubkey)
    ensures SameEvents(d, a, [a[i]] + a, pubkey)
    ensures pubkey in MergeAll(d, [a[i]] + a) && MergeAll(d, [a[i]] + a)[pubkey].event == a[i].1
  {
    var b := [a[i]] + a;
    forall k | 0 <= k < |a| && Counts(d, a, k, pubkey) ensures exists j :: 0 <= j < |b| && b[j].1 == a[k].1 {
      assert b[k + 1] == a[k];
    }
    forall k | 0 <= k < |b| && Counts(d, b, k, pubkey) ensures exists j :: 0 <= j < |a| && a[j].1 == b[k].1 {
      assert b[k] == if k == 0 then a[i] else a[k - 1];
    }
    assert Counts(d, b, 0, pubkey);
    MergeKeepsNewest(d, b, pubkey);
    var j := KeptEvent(d, b, pubkey);
  }

  lemma OrderMatters(d: Decoders, a: seq<(string, Event)>, i: nat, j: nat, pubkey: string) returns (b: seq<(string, Event)>)
    requires IsNewest(d, a, i, pubkey) && IsNewest(d, a, j, pubkey) && a[i].1 != a[j].1
    ensures SameEvents(d, a, b, pubkey) && !KeepAlike(d, a, b, pubkey)
  {
    b := [a[i]] + a;
    FirstNewestKept(d, a, i, pubkey);
    if KeepAlike(d, a, b, pubkey) {
      b := [a[j]] + a;
      FirstNewestKept(d, a, j, pubkey);
    }
  }

  ghost predicate OrderIgnored(d: Decoders, a: seq<(string, Event)>, pubkey: string) {
    forall b :: SameEvents(d, a, b, pubkey) ==> KeepAlike(d, a, b, pubkey)
  }

  /** Order does not matter for a key exactly when its newest timestamp belongs to one event. */
  lemma OrderIgnoredExactly(d: Decoders, a: seq<(string, Event)>, pubkey: string)
    ensures OrderIgnored(d, a, pubkey) <==> NewestUnique(d, a, pubkey)
  {
    if NewestUnique(d, a, pubkey) {
      forall b | SameEvents(d, a, b, pubkey) ensures KeepAlike(d, a, b, pubkey) {
        MergeIgnoresOrder(d, a, b, pubkey);
      }
    } else {
      var i: nat, j: nat :| IsNewest(d, a, i, pubkey) && IsNewest(d, a, j, pubkey) && a[i].1 != a[j].1;
      var b := OrderMatters(d, a, i, j, pubkey);
    }
  }

  function SentBy(d: Decoders, sent: (string, Event), pubkey: string): seq<string> {
    if d.verify(sent.1) && sent.1.pubkey == pubkey then [sent.0] else []
  }

  /** The relays that sent a verified event of the key, in order, as often as they did. */
  function RelaysOf(d: Decoders, received: seq<(string, Event)>, pubkey: string): seq<string> {
    if received == [] then [] else SentBy(d, received[0], pubkey) + RelaysOf(d, received[1..], pubkey)
  }

  lemma {:induction false} RelaysOfSnoc(d: Decoders, received: seq<(string, Event)>, last: (string, Event), pubkey: string)
    ensures RelaysOf(d, received + [last], pubkey) == RelaysOf(d, received, pubkey) + SentBy(d, last, pubkey)
  {
    if received == [] {
      assert received + [last] == [last] && [last][1..] == [];
    } else {
      var all := received + [last];
      RelaysOfSnoc(d, received[1..], last, pubkey);
      assert all[0] == received[0] && all[1..] == received[1..] + [last];
    }
  }

  function NotedOn(m: map<string, Seen>, pubkey: string): seq<string> {
    if pubkey in m then m[pubkey].seenOn else []
  }

  lemma MergeNotes(d: Decoders, m: map<string, Seen>, sent: (string, Event), pubkey: string)
    ensures NotedOn(Merge(d, m, sent.0, sent.1), pubkey) == NotedOn(m, pubkey) + SentBy(d, sent, pubkey)
  {}

  /** What is noted with a key is where its verified events were seen. */
  lemma {:induction false} SeenOnRelays(d: Decoders, received: seq<(string, Event)>, pubkey: string)
    ensures RelaysOf(d, received, pubkey) == NotedOn(MergeAll(d, received), pubkey)
  {
    if received != [] {
      var init, last := received[..|received| - 1], received[|received| - 1];
      SeenOnRelays(d, init, pubkey);
      RelaysOfSnoc(d, init, last, pubkey);
      assert received == init + [last];
      MergeNotes(d, MergeAll(d, init), last, pubkey);
    }
  }

  // ------------------------------------------------------------------- output

  function Decode(d: Decoders, seen: Seen): Option<Provider> {
    match (d.announcement(seen.event.content), d.npub(seen.event.pubkey))
    case (Some(a), Some(npub)) => Some(Provider(seen.event.pubkey, npub, a, seen.event.createdAt, seen.seenOn))
    case _ => None
  }

  function Pubkey(p: Provider): string {
    p.pubkey
  }

  function Price(p: Provider): int {
    p.announcement.priceSatsPerMib
  }

  /** The providers of a set of keys: one for each whose kept event decodes. */
  ghost predicate Lists(d: Decoders, m: map<string, Seen>, keys: set<string>, out: seq<Provider>) {
    && DistinctBy(out, Pubkey)
    && (forall p :: p in out <==> p.pubkey in keys && p.pubkey in m && Decode(d, m[p.pubkey]) == Some(p))
  }

  ghost predicate KeyedByPubkey(m: map<string, Seen>) {
    forall k :: k in m ==> m[k].event.pubkey == k
  }

  lemma {:induction false} MergeKeyed(d: Decoders, received: seq<(string, Event)>)
    ensures KeyedByPubkey(MergeAll(d, received))
  {
    if received != [] {
      MergeKeyed(d, received[..|received| - 1]);
    }
  }

  lemma ListsNext(d: Decoders, m: map<string, Seen>, done: set<string>, k: string, out: seq<Provider>)
    requires KeyedByPubkey(m) && Lists(d, m, done, out) && k in m && k !in done
    ensures Lists(d, m, done + {k}, match Decode(d, m[k]) case Some(p) => out + [p] case None => out)
  {
    forall i | 0 <= i < |out| ensures out[i].pubkey in done {
      assert out[i] in out;
    }
  }

  lemma ListsPermutation(d: Decoders, m: map<string, Seen>, keys: set<string>, out: seq<Provider>)
    requires Lists(d, m, keys, out)
    ensures Lists(d, m, keys, SortBy(out, Price)) && SortedBy(SortBy(out, Price), Price)
  {
    SortByIsStableSort(out, Price);
    PermutationKeepsDistinct(out, SortBy(out, Price), Pubkey);
  }

  /** A provider is what the kept event of its key announces, with the event's time and the relays it was seen on. */
  ghost predicate TellsKept(d: Decoders, received: seq<(string, Event)>, p: Provider) {
    && p.seenOn == RelaysOf(d, received, p.pubkey) && d.npub(p.pubkey) == Some(p.npub)
    && exists i: nat :: IsKept(d, received, i, p.pubkey) && d.announcement(received[i].1.content) == Some(p.announcement)
                        && p.createdAt == received[i].1.createdAt
  }

  lemma KeptUnique(d: Decoders, received: seq<(string, Event)>, i: nat, j: nat, pubkey: string)
    requires IsKept(d, received, i, pubkey) && IsKept(d, received, j, pubkey)
    ensures i == j
  {}

  lemma DecodedTells(d: Decoders, received: seq<(string, Event)>, p: Provider)
    requires p.pubkey in MergeAll(d, received) && Decode(d, MergeAll(d, received)[p.pubkey]) == Some(p)
    ensures TellsKept(d, received, p)
  {
    MergeKeepsNewest(d, received, p.pubkey);
    SeenOnRelays(d, received, p.pubkey);
    MergeKeyed(d, received);
    var i := KeptEvent(d, received, p.pubkey);
  }

  lemma KeptIsListed(d: Decoders, received: seq<(string, Event)>, out: seq<Provider>, i: nat, pubkey: string)
    requires Lists(d, MergeAll(d, received), MergeAll(d, received).Keys, out)
    requires IsKept(d, received, i, pubkey) && d.announcement(received[i].1.content).Some? && d.npub(pubkey).Some?
    ensures exists p :: p in out && p.pubkey == pubkey
  {
    assert HasEvent(d, received, pubkey);
    MergeKeepsNewest(d, received, pubkey);
    var j := KeptEvent(d, received, pubkey);
    KeptUnique(d, received, i, j, pubkey);
    MergeKeyed(d, received);
    var p := Decode(d, MergeAll(d, received)[pubkey]).value;
    assert p in out;
  }

  /** The providers found: one for every key whose kept event can be decoded, and what that event says, cheapest first. */
  ghost predicate Found(d: Decoders, received: seq<(string, Event)>, out: seq<Provider>) {
    && (forall i, j :: 0 <= i < j < |out| ==> out[i].pubkey != out[j].pubkey)
    && (forall i, j :: 0 <= i < j < |out| ==> out[i].announcement.priceSatsPerMib <= out[j].announcement.priceSatsPerMib)
    && (forall p :: p in out ==> TellsKept(d, received, p))
    && (forall i: nat, k :: IsKept(d, received, i, k) && d.announcement(received[i].1.content).Some? && d.npub(k).Some? ==>
          exists p :: p in out && p.pubkey == k)
  }

  lemma ListedAreFound(d: Decoders, received: seq<(string, Event)>, out: seq<Provider>)
    requires Lists(d, MergeAll(d, received), MergeAll(d, received).Keys, out) && SortedBy(out, Price)
    ensures Found(d, received, out)
  {
    forall i, j | 0 <= i < j < |out|
      ensures out[i].pubkey != out[j].pubkey && out[i].announcement.priceSatsPerMib <= out[j].announcement.priceSatsPerMib
    {
      assert Pubkey(out[i]) != Pubkey(out[j]) && Price(out[i]) <= Price(out[j]);
    }
    forall p | p in out ensures TellsKept(d, received, p) {
      DecodedTells(d, received, p);
    }
    forall i: nat, k | IsKept(d, received, i, k) && d.announcement(received[i].1.content).Some? && d.npub(k).Some?
      ensures exists p :: p in out && p.pubkey == k
    {
      KeptIsListed(d, received, out, i, k);
    }
  }

  /** Providers in some order of the map, those that decode, cheapest first. */
  method DiscoverProviders(d: Decoders, answers: seq<Answer>) returns (out: seq<Provider>)
    ensures var m := MergeAll(d, Received(answers)); Lists(d, m, m.Keys, out)
    ensures Found(d, Received(answers), out)
  {
    var byPubkey := MergeAnswers(d, answers);
    MergeKeyed(d, Received(answers));
    var todo := byPubkey.Keys;
    ghost var done: set<string> := {};
    out := [];
    while todo != {}
      invariant todo <= byPubkey.Keys && done == byPubkey.Keys - todo
      invariant Lists(d, byPubkey, done, out)
      decreases todo
    {
      var k :| k in todo;
      ListsNext(d, byPubkey, done, k, out);
      var p := Decode(d, byPubkey[k]);
      if p.Some? {
        out := out + [p.value];
      }
      todo := todo - {k};
      done := done + {k};
    }
    assert done == byPubkey.Keys;
    ListsPermutation(d, byPubkey, done, out);
    out := SortBy(out, Price);
    ListedAreFound(d, Received(answers), out);
  }
}
