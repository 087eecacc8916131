/**
  The payment ledger (`match_and_record_incoming_payment`, `list_payments` in
  crates/pivss-server/src/state.rs): events of the provider's own wallet,
  drained one at a time while uploads run.
 */
module Payments {
  import opened Bytes
  import opened Wrappers
  import opened Keys
  import opened Ordering
  import opened Store
  import opened Manifest
  import opened Uploads
  import opened UploadRuns

  datatype IncomingPayment = IncomingPayment(amountSat: nat, payerNote: Option<string>,
                                             paymentHash: Option<string>, preimage: Option<string>)

  /** One event as it reaches the task: the draw and clock it would use, and what runs before and amid its two steps. */
  datatype Delivery = Delivery(event: IncomingPayment, draw: string, now: nat,
                               before: seq<Action>, meanwhile: seq<Action>)

  /** `saturating_mul(1000)` on 64 bits. */
  function AmountMsat(amountSat: nat): nat {
    if amountSat * 1000 < U64_LIMIT then amountSat * 1000 else U64_LIMIT - 1
  }

  function RecordOf(d: Delivery): PaymentRecord
    requires d.event.payerNote.Some?
  {
    PaymentRecord(if d.event.paymentHash.Some? then d.event.paymentHash.value else d.draw,
                  d.event.payerNote.value, AmountMsat(d.event.amountSat), d.now, "bolt12-breez", d.event.preimage)
  }

  /** Check the backup, then write the record; other steps run before and in between. */
  function Deliver(env: Env, w: World, d: Delivery): World {
    var w1 := Run(env, w, d.before);
    if d.event.payerNote.None? then w1
    else if GetBackup(env, w1.s.store, d.event.payerNote.value).Err? then w1
    else
      var r := RecordOf(d);
      StepWorld(env, Run(env, w1, d.meanwhile), PutPayment(r.paymentId, r))
  }

  function DeliverAll(env: Env, w: World, ds: seq<Delivery>): World
    decreases |ds|
  {
    if ds == [] then w else DeliverAll(env, Deliver(env, w, ds[0]), ds[1..])
  }

  /** What the ledger should contain: the records of the events that name an existing series when checked. */
  function Matched(env: Env, w: World, ds: seq<Delivery>): seq<PaymentRecord>
    decreases |ds|
  {
    if ds == [] then []
    else
      var w1 := Run(env, w, ds[0].before);
      var note := ds[0].event.payerNote;
      (if note.Some? && Series(w1.logs, note.value) != [] then [RecordOf(ds[0])] else [])
      + Matched(env, Deliver(env, w, ds[0]), ds[1..])
  }

  /** The events of those records, in the same order. */
  function MatchedEvents(env: Env, w: World, ds: seq<Delivery>): seq<IncomingPayment>
    decreases |ds|
  {
    if ds == [] then []
    else
      var w1 := Run(env, w, ds[0].before);
      var note := ds[0].event.payerNote;
      (if note.Some? && Series(w1.logs, note.value) != [] then [ds[0].event] else [])
      + MatchedEvents(env, Deliver(env, w, ds[0]), ds[1..])
  }

  type Ledger = map<string, PaymentRecord>

  function Entered(ledger: Ledger, r: PaymentRecord): Ledger {
    if r.paymentId in ledger then ledger else ledger[r.paymentId := r]
  }

  /** The first record of every payment id. */
  function FirstRecords(ledger: Ledger, records: seq<PaymentRecord>): Ledger
    decreases |records|
  {
    if records == [] then ledger else FirstRecords(Entered(ledger, records[0]), records[1..])
  }

  ghost predicate LedgerStored(env: Env, store: KeyStore, ledger: Ledger) {
    && (forall p :: Payment(p) in store <==> p in ledger)
    && (forall p :: p in ledger ==> store[Payment(p)] == Versioned(1, env.encodePayment(ledger[p])))
  }

  predicate UploadsOnly(actions: seq<Action>) {
    forall i :: 0 <= i < |actions| ==> !actions[i].PutPayment?
  }

  ghost predicate DrainedAlone(ds: seq<Delivery>) {
    forall i :: 0 <= i < |ds| ==> UploadsOnly(ds[i].before) && UploadsOnly(ds[i].meanwhile)
  }

  lemma StepLeavesLedger(env: Env, s: State, a: Action, ledger: Ledger)
    requires !a.PutPayment? && LedgerStored(env, s.store, ledger)
    ensures LedgerStored(env, Next(env, s, a).store, ledger)
  {
    var store' := Next(env, s, a).store;
    forall p ensures Payment(p) in store' <==> Payment(p) in s.store {}
  }

  lemma {:induction false} UploadsLeaveLedger(env: Env, w: World, actions: seq<Action>, ledger: Ledger)
    requires UploadsOnly(actions) && LedgerStored(env, w.s.store, ledger)
    ensures LedgerStored(env, Run(env, w, actions).s.store, ledger)
    decreases |actions|
  {
    if actions != [] {
      StepLeavesLedger(env, w.s, actions[0], ledger);
      UploadsLeaveLedger(env, StepWorld(env, w, actions[0]), actions[1..], ledger);
    }
  }

  /** The check sees a series exactly when its log has begun. */
  lemma BackupKnown(env: Env, w: World, id: string)
    requires Good(env, w)
    ensures GetBackup(env, w.s.store, id).Ok? <==> Series(w.logs, id) != []
  {
    ReadsHistory(env, w.s.store, id, Series(w.logs, id));
  }

  lemma RecordEntered(env: Env, w: World, r: PaymentRecord, ledger: Ledger)
    requires Good(env, w) && LedgerStored(env, w.s.store, ledger)
    ensures var w' := StepWorld(env, w, PutPayment(r.paymentId, r));
            && LedgerStored(env, w'.s.store, Entered(ledger, r)) && w'.logs == w.logs
            && (r.paymentId in ledger ==> w' == w)
  {
    assert Payment(r.paymentId) in w.s.store ==> w.s.store[Payment(r.paymentId)].version >= 1;
  }

  lemma PaymentLeavesLogs(env: Env, w: World, r: PaymentRecord)
    requires Good(env, w)
    ensures var w' := StepWorld(env, w, PutPayment(r.paymentId, r)); Good(env, w') && w'.logs == w.logs
  {
    StepKeepsInv(env, w.s, w.logs, PutPayment(r.paymentId, r));
  }

  /**
    The record of an event: under its hash, or the drawn id without one, for the
    backup its note names, a thousand times its satoshis as far as 64 bits go, with
    the clock, the method and the preimage.
   */
  ghost predicate TellsEvent(d: Delivery, r: PaymentRecord) {
    && r.paymentId == (match d.event.paymentHash case Some(hash) => hash case None => d.draw)
    && d.event.payerNote == Some(r.backupId) && r.paidAt == d.now && r.payMethod == "bolt12-breez" && r.note == d.event.preimage
    && r.amountMsat == if d.event.amountSat * 1000 <= 18446744073709551615 then d.event.amountSat * 1000
                       else 18446744073709551615
  }

  lemma PaymentWritten(env: Env, w: World, r: PaymentRecord)
    requires Good(env, w)
    ensures var store := StepWorld(env, w, PutPayment(r.paymentId, r)).s.store;
            && Payment(r.paymentId) in store
            && store[Payment(r.paymentId)] == (if Payment(r.paymentId) in w.s.store then w.s.store[Payment(r.paymentId)]
                                               else Versioned(1, env.encodePayment(r)))
  {
    ConditionalPut(w.s.store, Payment(r.paymentId), 0, env.encodePayment(r));
  }

  lemma DeliverMatched(env: Env, w: World, d: Delivery)
    requires Good(env, w) && d.event.payerNote.Some?
    requires Series(Run(env, w, d.before).logs, d.event.payerNote.value) != []
    ensures var w2 := Run(env, Run(env, w, d.before), d.meanwhile);
            Good(env, w2) && Deliver(env, w, d) == StepWorld(env, w2, PutPayment(RecordOf(d).paymentId, RecordOf(d)))
  {
    RunRefinesLog(env, w, d.before);
    BackupKnown(env, Run(env, w, d.before), d.event.payerNote.value);
    RunRefinesLog(env, Run(env, w, d.before), d.meanwhile);
  }

  /** A matched payment that is not on record at the write is stored, and reads back as what the event said. */
  lemma MatchedIsRecorded(env: Env, w: World, d: Delivery) returns (r: PaymentRecord)
    requires Good(env, w) && d.event.payerNote.Some?
    requires Series(Run(env, w, d.before).logs, d.event.payerNote.value) != []
    ensures var w2, store := Run(env, Run(env, w, d.before), d.meanwhile), Deliver(env, w, d).s.store;
            && TellsEvent(d, r) && Payment(r.paymentId) in store
            && (Payment(r.paymentId) !in w2.s.store ==> env.decodePayment(store[Payment(r.paymentId)].value) == Some(r))
  {
    r := RecordOf(d);
    DeliverMatched(env, w, d);
    PaymentWritten(env, Run(env, Run(env, w, d.before), d.meanwhile), r);
  }

  lemma DeliverOne(env: Env, w: World, d: Delivery, ledger: Ledger)
    requires Good(env, w) && LedgerStored(env, w.s.store, ledger)
    requires UploadsOnly(d.before) && UploadsOnly(d.meanwhile)
    ensures Good(env, Deliver(env, w, d))
    ensures var w1 := Run(env, w, d.before); var note := d.event.payerNote;
            LedgerStored(env, Deliver(env, w, d).s.store,
                         if note.Some? && Series(w1.logs, note.value) != [] then Entered(ledger, RecordOf(d)) else ledger)
  {
    var w1 := Run(env, w, d.before);
    RunRefinesLog(env, w, d.before);
    UploadsLeaveLedger(env, w, d.before, ledger);
    if d.event.payerNote.Some? {
      BackupKnown(env, w1, d.event.payerNote.value);
      var w2 := Run(env, w1, d.meanwhile);
      RunRefinesLog(env, w1, d.meanwhile);
      UploadsLeaveLedger(env, w1, d.meanwhile, ledger);
      RecordEntered(env, w2, RecordOf(d), ledger);
      PaymentLeavesLogs(env, w2, RecordOf(d));
    }
  }

  /** The stored payments are exactly the first matched event of every payment id. */
  lemma {:induction false} LedgerIsFirstMatches(env: Env, w: World, ds: seq<Delivery>, ledger: Ledger)
    requires Good(env, w) && LedgerStored(env, w.s.store, ledger) && DrainedAlone(ds)
    ensures Good(env, DeliverAll(env, w, ds))
    ensures LedgerStored(env, DeliverAll(env, w, ds).s.store, FirstRecords(ledger, Matched(env, w, ds)))
    decreases |ds|
  {
    if ds != [] {
      var matches := Run(env, w, ds[0].before);
      var note := ds[0].event.payerNote;
      var entered := if note.Some? && Series(matches.logs, note.value) != [] then Entered(ledger, RecordOf(ds[0])) else ledger;
      DeliverOne(env, w, ds[0], ledger);
      LedgerIsFirstMatches(env, Deliver(env, w, ds[0]), ds[1..], entered);
      var rest := Matched(env, Deliver(env, w, ds[0]), ds[1..]);
      assert forall r: PaymentRecord :: ([r] + rest)[1..] == rest;
      assert [] + rest == rest;
    }
  }

  predicate IsFirst(records: seq<PaymentRecord>, i: nat)
    requires i < |records|
  {
    forall j :: 0 <= j < i ==> records[j].paymentId != records[i].paymentId
  }

  lemma {:induction false} EntriesStay(ledger: Ledger, records: seq<PaymentRecord>)
    ensures forall p :: p in ledger ==> p in FirstRecords(ledger, records) && FirstRecords(ledger, records)[p] == ledger[p]
    decreases |records|
  {
    if records != [] {
      EntriesStay(Entered(ledger, records[0]), records[1..]);
    }
  }

  lemma {:induction false} LedgerIds(ledger: Ledger, records: seq<PaymentRecord>, p: string)
    ensures p in FirstRecords(ledger, records) <==> p in ledger || exists i :: 0 <= i < |records| && records[i].paymentId == p
    decreases |records|
  {
    if records != [] {
      var tail := records[1..];
      LedgerIds(Entered(ledger, records[0]), tail, p);
      if i :| 0 <= i < |tail| && tail[i].paymentId == p {
        assert records[i + 1].paymentId == p;
      }
      if i :| 0 < i < |records| && records[i].paymentId == p {
        assert tail[i - 1].paymentId == p;
      }
    }
  }

  lemma {:induction false} FirstIsEntered(ledger: Ledger, records: seq<PaymentRecord>, i: nat)
    requires i < |records| && IsFirst(records, i) && records[i].paymentId !in ledger
    ensures var result := FirstRecords(ledger, records);
            records[i].paymentId in result && result[records[i].paymentId] == records[i]
    decreases |records|
  {
    var next := Entered(ledger, records[0]);
    if i == 0 {
      EntriesStay(next, records[1..]);
    } else {
      assert records[1..][i - 1] == records[i] && records[0].paymentId != records[i].paymentId;
      FirstIsEntered(next, records[1..], i - 1);
    }
  }

  /** `FirstRecords` is what its name says. */
  lemma FirstRecordsAreFirst(ledger: Ledger, records: seq<PaymentRecord>)
    ensures forall p :: p in FirstRecords(ledger, records) <==>
              p in ledger || exists i :: 0 <= i < |records| && records[i].paymentId == p
    ensures forall p :: p in ledger ==> FirstRecords(ledger, records)[p] == ledger[p]
    ensures forall i :: 0 <= i < |records| && IsFirst(records, i) && records[i].paymentId !in ledger ==>
              FirstRecords(ledger, records)[records[i].paymentId] == records[i]
  {
    forall p ensures p in FirstRecords(ledger, records) <==>
                     p in ledger || exists i :: 0 <= i < |records| && records[i].paymentId == p
    {
      LedgerIds(ledger, records, p);
    }
    EntriesStay(ledger, records);
    forall i | 0 <= i < |records| && IsFirst(records, i) && records[i].paymentId !in ledger
      ensures FirstRecords(ledger, records)[records[i].paymentId] == records[i]
    {
      FirstIsEntered(ledger, records, i);
    }
  }

  /** Redelivering an event whose hash is on record changes nothing. */
  lemma RedeliveryChangesNothing(env: Env, w: World, d: Delivery, ledger: Ledger)
    requires Good(env, w) && LedgerStored(env, w.s.store, ledger)
    requires d.before == [] && d.meanwhile == []
    requires d.event.paymentHash.Some? && d.event.paymentHash.value in ledger
    ensures Deliver(env, w, d) == w
  {
    if d.event.payerNote.Some? {
      RecordEntered(env, w, RecordOf(d), ledger);
    }
  }

  ghost predicate BackupsExist(logs: Logs, records: seq<PaymentRecord>) {
    forall i :: 0 <= i < |records| ==> Series(logs, records[i].backupId) != []
  }

  lemma DeliverExtends(env: Env, w: World, d: Delivery, id: string)
    requires Good(env, w)
    ensures Good(env, Deliver(env, w, d))
    ensures Series(w.logs, id) <= Series(Run(env, w, d.before).logs, id) <= Series(Deliver(env, w, d).logs, id)
  {
    var w1 := Run(env, w, d.before);
    var w2 := Run(env, w1, d.meanwhile);
    RunExtends(env, w, d.before, id);
    RunExtends(env, w1, d.meanwhile, id);
    if d.event.payerNote.Some? {
      PaymentLeavesLogs(env, w2, RecordOf(d));
    }
  }

  lemma {:induction false} DeliverAllExtends(env: Env, w: World, ds: seq<Delivery>, id: string)
    requires Good(env, w)
    ensures Series(w.logs, id) <= Series(DeliverAll(env, w, ds).logs, id)
    decreases |ds|
  {
    if ds != [] {
      DeliverExtends(env, w, ds[0], id);
      DeliverAllExtends(env, Deliver(env, w, ds[0]), ds[1..], id);
    }
  }

  lemma OneMoreExists(logs: Logs, r: PaymentRecord, records: seq<PaymentRecord>)
    requires BackupsExist(logs, records) && Series(logs, r.backupId) != []
    ensures BackupsExist(logs, [r] + records)
  {}

  lemma SeriesSurvives(env: Env, w: World, ds: seq<Delivery>, id: string)
    requires Good(env, w) && ds != [] && Series(Run(env, w, ds[0].before).logs, id) != []
    ensures Series(DeliverAll(env, w, ds).logs, id) != []
  {
    DeliverExtends(env, w, ds[0], id);
    DeliverAllExtends(env, Deliver(env, w, ds[0]), ds[1..], id);
  }

  /** Every recorded payment names a series that still exists. */
  lemma {:induction false} RecordedBackupsExist(env: Env, w: World, ds: seq<Delivery>)
    requires Good(env, w)
    ensures BackupsExist(DeliverAll(env, w, ds).logs, Matched(env, w, ds))
    decreases |ds|
  {
    if ds != [] {
      var note := ds[0].event.payerNote;
      var rest := Matched(env, Deliver(env, w, ds[0]), ds[1..]);
      DeliverExtends(env, w, ds[0], "");
      RecordedBackupsExist(env, Deliver(env, w, ds[0]), ds[1..]);
      if note.Some? && Series(Run(env, w, ds[0].before).logs, note.value) != [] {
        SeriesSurvives(env, w, ds, note.value);
        OneMoreExists(DeliverAll(env, w, ds).logs, RecordOf(ds[0]), rest);
      } else {
        assert [] + rest == rest;
      }
    }
  }

  ghost predicate KeyedById(ledger: Ledger) {
    forall p :: p in ledger ==> ledger[p].paymentId == p
  }

  lemma {:induction false} LedgerKeyedById(ledger: Ledger, records: seq<PaymentRecord>)
    requires KeyedById(ledger)
    ensures KeyedById(FirstRecords(ledger, records))
    decreases |records|
  {
    if records != [] {
      LedgerKeyedById(Entered(ledger, records[0]), records[1..]);
    }
  }

  /** Every entry of the ledger is an old one or one of the records. */
  lemma {:induction false} LedgerFromRecords(ledger: Ledger, records: seq<PaymentRecord>)
    ensures var result := FirstRecords(ledger, records);
            forall p :: p in result ==> result[p] in records || (p in ledger && result[p] == ledger[p])
    decreases |records|
  {
    if records != [] {
      LedgerFromRecords(Entered(ledger, records[0]), records[1..]);
    }
  }

  const START := World(INIT, map[])

  lemma LedgerFromStart(env: Env, ds: seq<Delivery>)
    requires Faithful(env) && DrainedAlone(ds)
    ensures Good(env, START) && Good(env, DeliverAll(env, START, ds))
    ensures LedgerStored(env, DeliverAll(env, START, ds).s.store, FirstRecords(map[], Matched(env, START, ds)))
  {
    InitInv(env);
    LedgerIsFirstMatches(env, START, ds, map[]);
  }

  lemma EntryIsRecord(records: seq<PaymentRecord>, p: string)
    requires p in FirstRecords(map[], records)
    ensures FirstRecords(map[], records)[p] in records && FirstRecords(map[], records)[p].paymentId == p
  {
    var none: Ledger := map[];
    LedgerFromRecords(none, records);
    LedgerKeyedById(none, records);
  }

  lemma MatchedBackupKnown(env: Env, ds: seq<Delivery>, r: PaymentRecord)
    requires Faithful(env) && DrainedAlone(ds) && r in Matched(env, START, ds)
    ensures GetBackup(env, DeliverAll(env, START, ds).s.store, r.backupId).Ok?
  {
    var records := Matched(env, START, ds);
    LedgerFromStart(env, ds);
    RecordedBackupsExist(env, START, ds);
    var i :| 0 <= i < |records| && records[i] == r;
    BackupKnown(env, DeliverAll(env, START, ds), records[i].backupId);
  }

  /** Every payment in the store reads back as one of its own id, for a series that exists. */
  lemma StoredPaymentsNameBackups(env: Env, ds: seq<Delivery>, p: string)
    requires Faithful(env) && DrainedAlone(ds)
    requires Payment(p) in DeliverAll(env, START, ds).s.store
    ensures var w := DeliverAll(env, START, ds); var r := env.decodePayment(w.s.store[Payment(p)].value);
            && r.Some? && r.value in Matched(env, START, ds) && r.value.paymentId == p
            && GetBackup(env, w.s.store, r.value.backupId).Ok?
  {
    var records := Matched(env, START, ds);
    LedgerFromStart(env, ds);
    EntryIsRecord(records, p);
    MatchedBackupKnown(env, ds, FirstRecords(map[], records)[p]);
  }

  // ------------------------------------------------------------------- totals

  function TotalMsat(records: seq<PaymentRecord>): nat {
    if records == [] then 0 else records[0].amountMsat + TotalMsat(records[1..])
  }

  lemma {:induction false} TotalSplit(a: seq<PaymentRecord>, b: seq<PaymentRecord>)
    ensures TotalMsat(a + b) == TotalMsat(a) + TotalMsat(b)
  {
    if a == [] {
      assert a + b == b;
    } else {
      TotalSplit(a[1..], b);
      assert (a + b)[1..] == a[1..] + b;
    }
  }

  lemma TakeOut(b: seq<PaymentRecord>, r: PaymentRecord) returns (rest: seq<PaymentRecord>)
    requires r in b
    ensures multiset(b) == multiset{r} + multiset(rest)
    ensures TotalMsat(b) == r.amountMsat + TotalMsat(rest)
  {
    var i :| 0 <= i < |b| && b[i] == r;
    var before, after := b[..i], b[i + 1..];
    rest := before + after;
    assert b == before + ([r] + after);
    TotalSplit(before, after);
    TotalSplit(before, [r] + after);
    assert ([r] + after)[1..] == after;
  }

  /** A total does not depend on the order of the listing. */
  lemma {:induction false} TotalOfPermutation(a: seq<PaymentRecord>, b: seq<PaymentRecord>)
    requires multiset(a) == multiset(b)
    ensures TotalMsat(a) == TotalMsat(b)
    decreases |a|
  {
    if a == [] {
      assert |b| == |multiset(b)| == 0;
    } else {
      assert a == [a[0]] + a[1..];
      assert multiset(a) == multiset{a[0]} + multiset(a[1..]);
      assert a[0] in multiset(b);
      var rest := TakeOut(b, a[0]);
      assert multiset(a[1..]) == multiset(a) - multiset{a[0]} == multiset(rest);
      TotalOfPermutation(a[1..], rest);
    }
  }

  /** The records that are first of their payment id, in order of arrival. */
  function Firsts(records: seq<PaymentRecord>, seen: set<string>): seq<PaymentRecord>
    decreases |records|
  {
    if records == [] then []
    else if records[0].paymentId in seen then Firsts(records[1..], seen)
    else [records[0]] + Firsts(records[1..], seen + {records[0].paymentId})
  }

  function PaymentIdOf(r: PaymentRecord): string {
    r.paymentId
  }

  lemma DistinctCons(r: PaymentRecord, rest: seq<PaymentRecord>)
    requires DistinctBy(rest, PaymentIdOf) && forall q :: q in rest ==> q.paymentId != r.paymentId
    ensures DistinctBy([r] + rest, PaymentIdOf)
  {
    assert forall i :: 0 <= i < |rest| ==> rest[i] in rest;
  }

  lemma {:induction false} FirstsAreTheLedger(ledger: Ledger, records: seq<PaymentRecord>)
    ensures var firsts := Firsts(records, ledger.Keys); var result := FirstRecords(ledger, records);
            && DistinctBy(firsts, PaymentIdOf)
            && (forall r :: r in firsts <==> r.paymentId !in ledger && r.paymentId in result && result[r.paymentId] == r)
    decreases |records|
  {
    FirstRecordsAreFirst(ledger, records);
    if records != [] {
      var r := records[0];
      var next := Entered(ledger, r);
      FirstRecordsAreFirst(next, records[1..]);
      FirstsAreTheLedger(next, records[1..]);
      assert next.Keys == ledger.Keys + {r.paymentId};
      if r.paymentId !in ledger {
        var rest := Firsts(records[1..], next.Keys);
        assert Firsts(records, ledger.Keys) == [r] + rest;
        DistinctCons(r, rest);
      } else {
        assert next == ledger;
      }
    }
  }

  /** The ledger as `list_payments` enumerates it. */
  function Enumerated(ledger: Ledger, ids: seq<string>): seq<PaymentRecord>
    requires forall i :: 0 <= i < |ids| ==> ids[i] in ledger
  {
    seq(|ids|, i requires 0 <= i < |ids| => ledger[ids[i]])
  }

  lemma EnumeratedMembers(ledger: Ledger, ids: seq<string>, r: PaymentRecord)
    requires KeyedById(ledger) && forall p :: p in ids <==> p in ledger
    requires forall i :: 0 <= i < |ids| ==> ids[i] in ledger
    ensures r in Enumerated(ledger, ids) <==> r.paymentId in ledger && ledger[r.paymentId] == r
  {
    if r.paymentId in ledger && ledger[r.paymentId] == r {
      var i :| 0 <= i < |ids| && ids[i] == r.paymentId;
      assert Enumerated(ledger, ids)[i] == r;
    }
  }

  /** An enumeration of the ledger lists the first records, in some order. */
  lemma EnumerationPermutes(records: seq<PaymentRecord>, ids: seq<string>)
    requires var ledger := FirstRecords(map[], records);
             && (forall p :: p in ids <==> p in ledger)
             && (forall i, j :: 0 <= i < j < |ids| ==> ids[i] != ids[j])
    ensures var ledger := FirstRecords(map[], records);
            && (forall i :: 0 <= i < |ids| ==> ids[i] in ledger)
            && multiset(Enumerated(ledger, ids)) == multiset(Firsts(records, {}))
  {
    var none: Ledger := map[];
    var ledger := FirstRecords(none, records);
    assert forall i :: 0 <= i < |ids| ==> ids[i] in ids;
    var listed, firsts := Enumerated(ledger, ids), Firsts(records, {});
    assert none.Keys == {};
    FirstsAreTheLedger(none, records);
    LedgerKeyedById(none, records);
    forall r ensures r in listed <==> r in firsts {
      EnumeratedMembers(ledger, ids, r);
    }
    SameMembersPermute(listed, firsts, PaymentIdOf);
  }

  /** However the stored payments are enumerated and sorted, their total is that of the first matched events. */
  lemma ListedTotal(records: seq<PaymentRecord>, ids: seq<string>, key: PaymentRecord -> int)
    requires var ledger := FirstRecords(map[], records);
             && (forall p :: p in ids <==> p in ledger)
             && (forall i, j :: 0 <= i < j < |ids| ==> ids[i] != ids[j])
    ensures var ledger := FirstRecords(map[], records);
            && (forall i :: 0 <= i < |ids| ==> ids[i] in ledger)
            && TotalMsat(SortBy(Enumerated(ledger, ids), key)) == TotalMsat(Firsts(records, {}))
  {
    EnumerationPermutes(records, ids);
    var listed := Enumerated(FirstRecords(map[], records), ids);
    SortByIsStableSort(listed, key);
    TotalOfPermutation(SortBy(listed, key), Firsts(records, {}));
  }

  /** The events of the first records. */
  function FirstEvents(records: seq<PaymentRecord>, events: seq<IncomingPayment>, seen: set<string>): seq<IncomingPayment>
    requires |records| == |events|
    decreases |records|
  {
    if records == [] then []
    else if records[0].paymentId in seen then FirstEvents(records[1..], events[1..], seen)
    else [events[0]] + FirstEvents(records[1..], events[1..], seen + {records[0].paymentId})
  }

  /** These are the records of these events, one by one. */
  predicate Aligned(records: seq<PaymentRecord>, events: seq<IncomingPayment>) {
    |records| == |events| && forall i :: 0 <= i < |events| ==> records[i].amountMsat == AmountMsat(events[i].amountSat)
  }

  lemma AlignedCons(r: PaymentRecord, e: IncomingPayment, records: seq<PaymentRecord>, events: seq<IncomingPayment>)
    requires Aligned(records, events) && r.amountMsat == AmountMsat(e.amountSat)
    ensures Aligned([r] + records, [e] + events)
  {}

  lemma {:induction false} MatchedAligned(env: Env, w: World, ds: seq<Delivery>)
    ensures Aligned(Matched(env, w, ds), MatchedEvents(env, w, ds))
    decreases |ds|
  {
    if ds != [] {
      var w' := Deliver(env, w, ds[0]);
      var records, events := Matched(env, w', ds[1..]), MatchedEvents(env, w', ds[1..]);
      MatchedAligned(env, w', ds[1..]);
      if ds[0].event.payerNote.Some? {
        AlignedCons(RecordOf(ds[0]), ds[0].event, records, events);
      }
      assert [] + records == records && [] + events == events;
    }
  }

  lemma {:induction false} FirstsAligned(records: seq<PaymentRecord>, events: seq<IncomingPayment>, seen: set<string>)
    requires Aligned(records, events)
    ensures Aligned(Firsts(records, seen), FirstEvents(records, events, seen))
    decreases |records|
  {
    if records != [] {
      var seen' := if records[0].paymentId in seen then seen else seen + {records[0].paymentId};
      FirstsAligned(records[1..], events[1..], seen');
      AlignedCons(records[0], events[0], Firsts(records[1..], seen'), FirstEvents(records[1..], events[1..], seen'));
    }
  }

  function TotalSat(events: seq<IncomingPayment>): nat {
    if events == [] then 0 else events[0].amountSat + TotalSat(events[1..])
  }

  /** While no product saturates, a thousand times the satoshis received. */
  lemma {:induction false} TotalIsExact(records: seq<PaymentRecord>, events: seq<IncomingPayment>)
    requires Aligned(records, events)
    ensures TotalMsat(records) <= 1000 * TotalSat(events)
    ensures (forall i :: 0 <= i < |events| ==> events[i].amountSat * 1000 < U64_LIMIT) <==>
            TotalMsat(records) == 1000 * TotalSat(events)
  {
    if records != [] {
      TotalIsExact(records[1..], events[1..]);
      if events[0].amountSat * 1000 < U64_LIMIT && TotalMsat(records[1..]) == 1000 * TotalSat(events[1..]) {
        forall i | 0 <= i < |events| ensures events[i].amountSat * 1000 < U64_LIMIT {
          if i > 0 {
            assert events[1..][i - 1] == events[i];
          }
        }
      }
    }
  }

  /** The first matched event of every payment in a stream that starts with an empty store. */
  function FirstMatches(env: Env, ds: seq<Delivery>): seq<IncomingPayment> {
    var records, events := Matched(env, START, ds), MatchedEvents(env, START, ds);
    MatchedAligned(env, START, ds);
    FirstEvents(records, events, {})
  }

  /** What the first records of a stream come to. */
  lemma FirstMatchesTotal(env: Env, ds: seq<Delivery>)
    ensures var firsts := FirstMatches(env, ds); var total := TotalMsat(Firsts(Matched(env, START, ds), {}));
            && total <= 1000 * TotalSat(firsts)
            && (total == 1000 * TotalSat(firsts) <==>
                forall i :: 0 <= i < |firsts| ==> firsts[i].amountSat * 1000 < U64_LIMIT)
  {
    var records, events := Matched(env, START, ds), MatchedEvents(env, START, ds);
    MatchedAligned(env, START, ds);
    FirstsAligned(records, events, {});
    TotalIsExact(Firsts(records, {}), FirstMatches(env, ds));
  }
}
