/**
  The pay loop (`watch`, crates/pivss-client/src/main.rs): each round challenges
  the server and pays only if the proof checks out. Rounds run against the
  transition system, so uploads and payments of others interleave with every
  step of a round.
 */
module Watch {
  import opened Bytes
  import opened Wrappers
  import opened Keys
  import opened Store
  import opened StorageProof
  import opened Manifest
  import opened Crypto
  import opened Uploads
  import opened UploadRuns
  import opened Service
  import opened Client

  type Nonce = n: Bytes | |n| == 32 witness seq(32, _ => 'a')
  type Draws = d: seq<U64> | |d| == 6 witness seq(6, _ => 0)

  /**
    What the surroundings contribute to one round: the file as it is then, the
    client's draws, the steps others take before the server's manifest read,
    between its two reads, and around the payment, and the server's draw and clock.
   */
  datatype RoundInput = RoundInput(file: Option<Bytes>, nonce: Nonce, draws: Draws,
                                   before: seq<Action>, amidReads: seq<Action>,
                                   beforePay: seq<Action>, amidPay: seq<Action>,
                                   paymentId: string, now: nat, note: Option<string>)

  datatype Verdict = Attempted(version: nat, amountMsat: nat) | Withheld | VerifyError

  datatype RoundResult = RoundResult(verdict: Verdict, recorded: Option<PaymentRecord>)

  /** Who watches what: the ledger entry, the passphrase, and whether the server refuses mock payments. */
  datatype Setup = Setup(env: Env, cipher: Cipher, id: Bytes, entry: Option<LedgerEntry>,
                         passphrase: Option<Bytes>, serverHasWallet: bool)

  function Reproduced(setup: Setup, input: RoundInput): Result<Bytes, ClientError> {
    if setup.entry.None? then Err(NotInLedger)
    else LocalStoredBytes(setup.cipher, setup.entry.value, input.file, setup.passphrase)
  }

  /** Three ranges over the length of the local bytes, as a 64-bit number. */
  function RoundChallenge(input: RoundInput, local: Bytes): Challenge {
    DrawnChallenge(|local| % U64_LIMIT, 3, input.nonce, input.draws)
  }

  /** Every round asks for three ranges of the client's own bytes, unless there are none. */
  lemma RoundChallengeHolds(input: RoundInput, local: Bytes)
    requires |local| < 18446744073709551616
    ensures ChallengeFor(RoundChallenge(input, local), |local|, 3, input.nonce)
  {
    SmallRemainder(|local|, U64_LIMIT);
    ChallengeHolds(|local|, 3, input.nonce, input.draws);
  }

  /** The server's proof: manifest read, other steps, data read. */
  function ServerProof(setup: Setup, w: World, input: RoundInput, c: Challenge): Option<(Proof, nat)> {
    match GetBackup(setup.env, w.s.store, setup.id)
    case Err(_) => None
    case Ok(m) =>
      match GetBackupData(Run(setup.env, w, input.amidReads).s.store, setup.id, m.latestVersion)
      case Err(_) => None
      case Ok(data) =>
        match ComputeProof(setup.env.sha256, c, data)
        case Err(_) => None
        case Ok(proof) => Some((proof, m.latestVersion))
  }

  /** A client-claimed payment at the server: check the backup, other steps, write the record. */
  function RecordMock(setup: Setup, w: World, input: RoundInput, amountMsat: nat): (World, Option<PaymentRecord>) {
    var w1 := Run(setup.env, w, input.beforePay);
    if setup.serverHasWallet || GetBackup(setup.env, w1.s.store, setup.id).Err? then (w1, None)
    else
      var w2 := Run(setup.env, w1, input.amidPay);
      var r := PaymentRecord(input.paymentId, setup.id, amountMsat, input.now, "mock", input.note);
      (StepWorld(setup.env, w2, PutPayment(input.paymentId, r)),
       if PutResult(w2.s.store, Payment(input.paymentId), 0).Ok? then Some(r) else None)
  }

  function Round(setup: Setup, w: World, input: RoundInput): (World, RoundResult) {
    var w1 := Run(setup.env, w, input.before);
    match Reproduced(setup, input)
    case Err(_) => (w1, RoundResult(VerifyError, None))
    case Ok(local) =>
      var c := RoundChallenge(input, local);
      var w2 := Run(setup.env, w1, input.amidReads);
      match ServerProof(setup, w1, input, c)
      case None => (w2, RoundResult(VerifyError, None))
      case Some((proof, version)) =>
        if VerifyProof(setup.env.sha256, c, local, proof) != Ok(true) then (w2, RoundResult(Withheld, None))
        else
          var amount := setup.entry.value.quoteMsat;
          var (w3, recorded) := RecordMock(setup, w2, input, amount);
          (w3, RoundResult(Attempted(version, amount), recorded))
  }

  /** The rounds in order, and the world they leave. */
  function Rounds(setup: Setup, w: World, inputs: seq<RoundInput>): (World, seq<RoundResult>)
    decreases |inputs|
  {
    if inputs == [] then (w, [])
    else
      var (w1, results) := Rounds(setup, w, inputs[..|inputs| - 1]);
      var (w2, result) := Round(setup, w1, inputs[|inputs| - 1]);
      (w2, results + [result])
  }

  /**
    The loop. `rounds == 0` means for ever: then its first `|inputs|` rounds are observed.
   */
  method RunWatch(setup: Setup, w: World, rounds: nat, inputs: seq<RoundInput>) returns (end: World, results: seq<RoundResult>)
    requires if rounds == 0 then |inputs| > 0 else |inputs| >= rounds
    ensures |results| == if rounds > 0 then rounds else |inputs|
    ensures (end, results) == Rounds(setup, w, inputs[..|results|])
  {
    var round := 0;
    end, results := w, [];
    while true
      invariant 0 <= round <= |inputs| && (rounds > 0 ==> round < rounds) && (rounds == 0 ==> round < |inputs|)
      invariant |results| == round && (end, results) == Rounds(setup, w, inputs[..round])
      decreases |inputs| - round
    {
      round := round + 1;
      var (next, result) := Round(setup, end, inputs[round - 1]);
      assert inputs[..round][..round - 1] == inputs[..round - 1];
      end, results := next, results + [result];
      if (rounds > 0 && round >= rounds) || round == |inputs| {
        break;
      }
    }
  }

  // --------------------------------------------------------------- properties

  /** The bytes of the version that was latest when the server read the manifest. */
  ghost function LatestData(logs: Logs, id: string): Option<Bytes> {
    var log := Series(logs, id);
    if log == [] then None else Some(log[|log| - 1].upload.data)
  }

  /** No SHA-256 collision between what the client and the server hash in this round. */
  ghost predicate NoCollision(setup: Setup, w: World, input: RoundInput) {
    var latest := LatestData(Run(setup.env, w, input.before).logs, setup.id);
    Reproduced(setup, input).Ok? && latest.Some? ==>
      !Collision(setup.env.sha256, input.nonce + Reproduced(setup, input).value, input.nonce + latest.value)
  }

  lemma ServerProofIs(setup: Setup, w: World, input: RoundInput, c: Challenge)
    requires Good(setup.env, w) && forall data: Bytes :: Sliceable(c, |data|)
    ensures var latest := LatestData(w.logs, setup.id);
            ServerProof(setup, w, input, c) ==
            if latest.None? then None
            else Some((ComputeProof(setup.env.sha256, c, latest.value).value, |Series(w.logs, setup.id)|))
  {
    var log := Series(w.logs, setup.id);
    ReadsHistory(setup.env, w.s.store, setup.id, log);
    if log != [] {
      LatestIsReadable(setup.env, w, input.amidReads, setup.id, ManifestOf(setup.env, log));
      assert Sliceable(c, |log[|log| - 1].upload.data|);
    }
  }

  /**
    A payment is attempted in a round exactly when the client can reproduce its
    bytes and they are those of the version that was latest at the server's
    manifest read; the attempt is for that version and the ledger's quote. The
    round ends in an error exactly when one of the two has no bytes at all.
   */
  lemma RoundPaysExactly(setup: Setup, w: World, input: RoundInput)
    requires Good(setup.env, w) && NoCollision(setup, w, input)
    ensures var (w', result) := Round(setup, w, input);
            var logs := Run(setup.env, w, input.before).logs; var latest := LatestData(logs, setup.id);
            && (result.verdict.Attempted? <==>
                  Reproduced(setup, input).Ok? && latest == Some(Reproduced(setup, input).value))
            && (result.verdict.VerifyError? <==> Reproduced(setup, input).Err? || latest.None?)
            && (result.verdict.Attempted? ==>
                  && setup.entry.Some?
                  && result.verdict == Attempted(|Series(logs, setup.id)|, setup.entry.value.quoteMsat))
  {
    var w1 := Run(setup.env, w, input.before);
    RunRefinesLog(setup.env, w, input.before);
    if Reproduced(setup, input).Ok? {
      var local := Reproduced(setup, input).value;
      var c := RoundChallenge(input, local);
      forall data: Bytes ensures Sliceable(c, |data|) {
        DrawnChallengeSliceable(|local| % U64_LIMIT, 3, input.nonce, input.draws, data);
      }
      DrawnNonce(|local| % U64_LIMIT, 3, input.nonce, input.draws);
      ServerProofIs(setup, w1, input, c);
      var latest := LatestData(w1.logs, setup.id);
      if latest.Some? {
        assert Sliceable(c, |local|) && Sliceable(c, |latest.value|);
        VerifiesExactlyTheData(setup.env.sha256, c, local, latest.value);
      }
    }
  }

  /** The steps a mock payment takes or lets others take. */
  function MockActions(setup: Setup, w: World, input: RoundInput, amount: nat): seq<Action> {
    if setup.serverHasWallet || GetBackup(setup.env, Run(setup.env, w, input.beforePay).s.store, setup.id).Err? then input.beforePay
    else
      input.beforePay + (input.amidPay + [PutPayment(input.paymentId,
        PaymentRecord(input.paymentId, setup.id, amount, input.now, "mock", input.note))])
  }

  lemma MockIsRun(setup: Setup, w: World, input: RoundInput, amount: nat)
    ensures RecordMock(setup, w, input, amount).0 == Run(setup.env, w, MockActions(setup, w, input, amount))
  {
    var w1 := Run(setup.env, w, input.beforePay);
    var w2 := Run(setup.env, w1, input.amidPay);
    var put := PutPayment(input.paymentId, PaymentRecord(input.paymentId, setup.id, amount, input.now, "mock", input.note));
    RunAppend(setup.env, w, input.beforePay, input.amidPay + [put]);
    RunAppend(setup.env, w1, input.amidPay, [put]);
    assert Run(setup.env, w2, [put]) == Run(setup.env, StepWorld(setup.env, w2, put), [put][1..]);
  }

  /** A round is a run of the protocol: its reads change nothing. */
  lemma RoundIsRun(setup: Setup, w: World, input: RoundInput) returns (actions: seq<Action>)
    ensures Round(setup, w, input).0 == Run(setup.env, w, actions)
  {
    var w1 := Run(setup.env, w, input.before);
    var w2 := Run(setup.env, w1, input.amidReads);
    RunAppend(setup.env, w, input.before, input.amidReads);
    actions := input.before;
    if Round(setup, w, input).1.verdict.Attempted? {
      var amount := setup.entry.value.quoteMsat;
      MockIsRun(setup, w2, input, amount);
      RunAppend(setup.env, w, input.before + input.amidReads, MockActions(setup, w2, input, amount));
      actions := (input.before + input.amidReads) + MockActions(setup, w2, input, amount);
    } else if Reproduced(setup, input).Ok? {
      actions := input.before + input.amidReads;
    }
  }

  /** What a recorded mock payment says. */
  ghost predicate RecordSays(setup: Setup, verdict: Verdict, r: PaymentRecord) {
    verdict.Attempted? && !setup.serverHasWallet && r.backupId == setup.id && r.amountMsat == verdict.amountMsat
  }

  /** The store holds this payment under its id. */
  ghost predicate RecordStands(setup: Setup, w: World, r: PaymentRecord) {
    Payment(r.paymentId) in w.s.store && w.s.store[Payment(r.paymentId)] == Versioned(1, setup.env.encodePayment(r))
  }

  lemma PaymentFree(store: KeyStore, p: string)
    requires VersionsPositive(store)
    ensures PutResult(store, Payment(p), 0).Ok? <==> Payment(p) !in store
  {
    ConditionalPut(store, Payment(p), 0, []);
  }

  /** The store when the server writes the payment of a round. */
  function AtTheWrite(setup: Setup, w: World, input: RoundInput): World {
    Run(setup.env, Run(setup.env, Run(setup.env, Run(setup.env, w, input.before), input.amidReads), input.beforePay), input.amidPay)
  }

  lemma RecordMockExactly(setup: Setup, w: World, input: RoundInput, amount: nat)
    requires Good(setup.env, w) && Series(w.logs, setup.id) != []
    ensures RecordMock(setup, w, input, amount).1 ==
            if setup.serverHasWallet || Payment(input.paymentId) in Run(setup.env, Run(setup.env, w, input.beforePay), input.amidPay).s.store
            then None
            else Some(PaymentRecord(input.paymentId, setup.id, amount, input.now, "mock", input.note))
  {
    var w1 := Run(setup.env, w, input.beforePay);
    RunExtends(setup.env, w, input.beforePay, setup.id);
    KnownExactly(setup.env, w1, setup.id);
    RunExtends(setup.env, w1, input.amidPay, setup.id);
    PaymentFree(Run(setup.env, w1, input.amidPay).s.store, input.paymentId);
  }

  lemma AttemptMeansKnown(setup: Setup, w: World, input: RoundInput)
    requires Good(setup.env, w) && Round(setup, w, input).1.verdict.Attempted?
    ensures var w2 := Run(setup.env, Run(setup.env, w, input.before), input.amidReads);
            Good(setup.env, w2) && Series(w2.logs, setup.id) != []
  {
    var w1 := Run(setup.env, w, input.before);
    RunExtends(setup.env, w, input.before, setup.id);
    KnownExactly(setup.env, w1, setup.id);
    RunExtends(setup.env, w1, input.amidReads, setup.id);
  }

  /**
    An attempted payment is recorded exactly when the server has no wallet and the
    payment's id is not on record at the write, and then says what was paid for,
    how much, how, when and with which note.
   */
  lemma RoundRecordsExactly(setup: Setup, w: World, input: RoundInput)
    requires Good(setup.env, w)
    ensures var result := Round(setup, w, input).1;
            match result.verdict
            case Attempted(_, amount) =>
              result.recorded == if setup.serverHasWallet || Payment(input.paymentId) in AtTheWrite(setup, w, input).s.store then None
                                 else Some(PaymentRecord(input.paymentId, setup.id, amount, input.now, "mock", input.note))
            case _ => result.recorded == None
  {
    if Round(setup, w, input).1.verdict.Attempted? {
      AttemptMeansKnown(setup, w, input);
      RecordMockExactly(setup, Run(setup.env, Run(setup.env, w, input.before), input.amidReads), input,
                        Round(setup, w, input).1.verdict.amountMsat);
    }
  }

  /** A recorded payment belongs to an attempt of this round, has its amount, and is in the store. */
  lemma RoundRecordsAttempt(setup: Setup, w: World, input: RoundInput)
    ensures var (w', result) := Round(setup, w, input);
            result.recorded.Some? ==>
              RecordSays(setup, result.verdict, result.recorded.value) && RecordStands(setup, w', result.recorded.value)
  {}

  lemma RoundKeepsGood(setup: Setup, w: World, input: RoundInput)
    requires Good(setup.env, w)
    ensures Good(setup.env, Round(setup, w, input).0)
  {
    var actions := RoundIsRun(setup, w, input);
    RunRefinesLog(setup.env, w, actions);
  }

  /** Where round `i` starts. */
  function WorldAt(setup: Setup, w: World, inputs: seq<RoundInput>, i: nat): World
    requires i <= |inputs|
  {
    Rounds(setup, w, inputs[..i]).0
  }

  lemma {:induction false} RoundsGood(setup: Setup, w: World, inputs: seq<RoundInput>)
    requires Good(setup.env, w)
    ensures Good(setup.env, Rounds(setup, w, inputs).0) && |Rounds(setup, w, inputs).1| == |inputs|
    decreases |inputs|
  {
    if inputs != [] {
      var init := inputs[..|inputs| - 1];
      RoundsGood(setup, w, init);
      RoundKeepsGood(setup, Rounds(setup, w, init).0, inputs[|inputs| - 1]);
    }
  }

  lemma {:induction false} RoundsLength(setup: Setup, w: World, inputs: seq<RoundInput>)
    ensures |Rounds(setup, w, inputs).1| == |inputs|
    decreases |inputs|
  {
    if inputs != [] {
      RoundsLength(setup, w, inputs[..|inputs| - 1]);
    }
  }

  lemma {:induction false} RoundsUnfold(setup: Setup, w: World, inputs: seq<RoundInput>, i: nat)
    requires i < |inputs|
    ensures |Rounds(setup, w, inputs).1| == |inputs|
    ensures Rounds(setup, w, inputs).1[i] == Round(setup, WorldAt(setup, w, inputs, i), inputs[i]).1
    decreases |inputs|
  {
    var init := inputs[..|inputs| - 1];
    if i < |init| {
      RoundsUnfold(setup, w, init, i);
      assert init[..i] == inputs[..i];
    } else {
      RoundsLength(setup, w, init);
      assert inputs[..i] == init;
    }
  }

  function Attempts(results: seq<RoundResult>): nat {
    if results == [] then 0
    else Attempts(results[..|results| - 1]) + (if results[|results| - 1].verdict.Attempted? then 1 else 0)
  }

  function RecordedTotal(results: seq<RoundResult>): nat {
    if results == [] then 0
    else RecordedTotal(results[..|results| - 1]) +
         (if results[|results| - 1].recorded.Some? then results[|results| - 1].recorded.value.amountMsat else 0)
  }

  function RecordedRounds(results: seq<RoundResult>): nat {
    if results == [] then 0
    else RecordedRounds(results[..|results| - 1]) + (if results[|results| - 1].recorded.Some? then 1 else 0)
  }

  predicate PaidWithinQuote(setup: Setup, result: RoundResult) {
    result.recorded.Some? ==>
      && result.verdict.Attempted? && setup.entry.Some?
      && result.recorded.value.amountMsat == setup.entry.value.quoteMsat
  }

  lemma {:induction false} TotalsBounded(setup: Setup, results: seq<RoundResult>)
    requires forall i :: 0 <= i < |results| ==> PaidWithinQuote(setup, results[i])
    ensures RecordedRounds(results) <= Attempts(results)
    ensures RecordedTotal(results) == RecordedRounds(results) * (if setup.entry.Some? then setup.entry.value.quoteMsat else 0)
  {
    if results != [] {
      TotalsBounded(setup, results[..|results| - 1]);
      assert PaidWithinQuote(setup, results[|results| - 1]);
    }
  }

  /** The round attempted a payment exactly when the client's bytes were the latest at the server's manifest read. */
  ghost predicate PaysExactly(setup: Setup, w: World, input: RoundInput, result: RoundResult) {
    result.verdict.Attempted? <==>
      && Reproduced(setup, input).Ok?
      && LatestData(Run(setup.env, w, input.before).logs, setup.id) == Some(Reproduced(setup, input).value)
  }

  lemma RoundAt(setup: Setup, w: World, input: RoundInput)
    requires Good(setup.env, w) && NoCollision(setup, w, input)
    ensures PaysExactly(setup, w, input, Round(setup, w, input).1) && PaidWithinQuote(setup, Round(setup, w, input).1)
  {
    RoundPaysExactly(setup, w, input);
    RoundRecordsAttempt(setup, w, input);
  }

  lemma RoundKeepsRecord(setup: Setup, w: World, input: RoundInput, r: PaymentRecord)
    requires Good(setup.env, w) && RecordStands(setup, w, r)
    ensures RecordStands(setup, Round(setup, w, input).0, r)
  {
    var actions := RoundIsRun(setup, w, input);
    RunKeepsPayment(setup.env, w, actions, r.paymentId);
  }

  lemma RecordIsNew(setup: Setup, w: World, input: RoundInput, r: PaymentRecord)
    requires Good(setup.env, w) && RecordStands(setup, w, r)
    ensures var recorded := Round(setup, w, input).1.recorded; recorded.Some? ==> recorded.value.paymentId != r.paymentId
  {
    var env, p := setup.env, r.paymentId;
    var w1 := Run(env, w, input.before);
    var w2 := Run(env, w1, input.amidReads);
    var w3 := Run(env, w2, input.beforePay);
    RunKeepsPayment(env, w, input.before, p);
    RunKeepsPayment(env, w1, input.amidReads, p);
    RunKeepsPayment(env, w2, input.beforePay, p);
    RunKeepsPayment(env, w3, input.amidPay, p);
  }

  /** The payments recorded in these rounds are in the store, each under its own id. */
  ghost predicate RecordsStand(setup: Setup, end: World, results: seq<RoundResult>) {
    && (forall i :: 0 <= i < |results| && results[i].recorded.Some? ==> RecordStands(setup, end, results[i].recorded.value))
    && (forall i, j :: 0 <= i < j < |results| && results[i].recorded.Some? && results[j].recorded.Some? ==>
          results[i].recorded.value.paymentId != results[j].recorded.value.paymentId)
  }

  lemma RecordsStandNext(setup: Setup, w: World, input: RoundInput, results: seq<RoundResult>)
    requires Good(setup.env, w) && RecordsStand(setup, w, results)
    ensures var (w', result) := Round(setup, w, input); RecordsStand(setup, w', results + [result])
  {
    var (w', result) := Round(setup, w, input);
    RoundRecordsAttempt(setup, w, input);
    forall i | 0 <= i < |results| && results[i].recorded.Some?
      ensures RecordStands(setup, w', results[i].recorded.value)
      ensures result.recorded.Some? ==> results[i].recorded.value.paymentId != result.recorded.value.paymentId
    {
      RoundKeepsRecord(setup, w, input, results[i].recorded.value);
      RecordIsNew(setup, w, input, results[i].recorded.value);
    }
  }

  /** What a watch recorded is still in the store when it ends, and no payment is counted twice. */
  lemma {:induction false} WatchRecordsStand(setup: Setup, w: World, inputs: seq<RoundInput>)
    requires Good(setup.env, w)
    ensures RecordsStand(setup, Rounds(setup, w, inputs).0, Rounds(setup, w, inputs).1)
    decreases |inputs|
  {
    if inputs != [] {
      var init := inputs[..|inputs| - 1];
      RoundsGood(setup, w, init);
      WatchRecordsStand(setup, w, init);
      RecordsStandNext(setup, Rounds(setup, w, init).0, inputs[|inputs| - 1], Rounds(setup, w, init).1);
    }
  }

  /**
    Over any watch: every round pays exactly when it should; the payments the
    server records are at most the rounds whose proof checked out, each is for the
    quote and is in the store when the watch ends, and no two share an id.
   */
  lemma {:induction false} WatchPaysExactly(setup: Setup, w: World, inputs: seq<RoundInput>)
    requires Good(setup.env, w)
    requires forall i :: 0 <= i < |inputs| ==> NoCollision(setup, WorldAt(setup, w, inputs, i), inputs[i])
    ensures var (end, results) := Rounds(setup, w, inputs);
            && |results| == |inputs|
            && (forall i :: 0 <= i < |inputs| ==>
                  && PaysExactly(setup, WorldAt(setup, w, inputs, i), inputs[i], results[i])
                  && PaidWithinQuote(setup, results[i]))
            && RecordedRounds(results) <= Attempts(results)
            && RecordedTotal(results) == RecordedRounds(results) * (if setup.entry.Some? then setup.entry.value.quoteMsat else 0)
            && RecordsStand(setup, end, results)
  {
    var results := Rounds(setup, w, inputs).1;
    RoundsLength(setup, w, inputs);
    forall i | 0 <= i < |inputs|
      ensures PaysExactly(setup, WorldAt(setup, w, inputs, i), inputs[i], results[i]) && PaidWithinQuote(setup, results[i])
    {
      RoundsUnfold(setup, w, inputs, i);
      RoundsGood(setup, w, inputs[..i]);
      RoundAt(setup, WorldAt(setup, w, inputs, i), inputs[i]);
    }
    TotalsBounded(setup, results);
    WatchRecordsStand(setup, w, inputs);
  }

  /** The entry to watch with is what a successful backup of this payload left under its id. */
  ghost predicate WatchesBackup(setup: Setup, w: World, up: Upload, salt: Bytes, nonce: Bytes, payload: Bytes,
                                before: map<Bytes, LedgerEntry>)
  {
    && Uploaded(setup.cipher, setup.passphrase, salt, nonce, payload) == Ok(up.data)
    && setup.id == IdOf(setup.env, up)
    && var (r, after) := AfterUpload(before, Stored(setup.env, w.s.store, up, true).0, true, setup.env.sha256,
                                     up.filename, up.kind, setup.passphrase.Some?, salt, nonce, up.data);
    r.Ok? && setup.id in after && setup.entry == Some(after[setup.id])
  }

  lemma WatchedEntry(setup: Setup, w: World, t: nat, up: Upload, salt: Bytes, nonce: Bytes, payload: Bytes,
                     before: map<Bytes, LedgerEntry>)
    requires Good(setup.env, w) && t !in w.s.uploaders && |salt| == SALT_LEN && |nonce| == NONCE_LEN
    requires WatchesBackup(setup, w, up, salt, nonce, payload, before)
    requires Mebibytes(|up.data|) * up.config.priceSatsPerMib * 1000 < 18446744073709551616
    ensures setup.entry.Some? && setup.entry.value.quoteMsat == Mebibytes(|up.data|) * up.config.priceSatsPerMib * 1000
    ensures LocalStoredBytes(setup.cipher, setup.entry.value, Some(payload), setup.passphrase) == Ok(up.data)
  {
    BackupNotes(setup.env, w, t, up, true, true, before, setup.passphrase.Some?, salt, nonce);
    EntryReproducesUpload(setup.cipher, setup.env.sha256, up.filename, up.kind, setup.passphrase, salt, nonce, payload,
                          Stored(setup.env, w.s.store, up, true).0.value);
  }

  /**
    From backup to payment: whoever backed a file up, still has it, and watches with
    the entry that the backup left, attempts the price of the bytes sent in every
    round that finds them to be the latest.
   */
  lemma WatchPaysTheQuote(setup: Setup, w: World, t: nat, up: Upload, salt: Bytes, nonce: Bytes, payload: Bytes,
                          before: map<Bytes, LedgerEntry>, w1: World, input: RoundInput)
    requires Good(setup.env, w) && t !in w.s.uploaders && |salt| == SALT_LEN && |nonce| == NONCE_LEN
    requires WatchesBackup(setup, w, up, salt, nonce, payload, before)
    requires Mebibytes(|up.data|) * up.config.priceSatsPerMib * 1000 < 18446744073709551616
    requires Good(setup.env, w1) && NoCollision(setup, w1, input) && input.file == Some(payload)
    requires LatestData(Run(setup.env, w1, input.before).logs, setup.id) == Some(up.data)
    ensures var verdict := Round(setup, w1, input).1.verdict;
            && verdict.Attempted? && verdict.version == |Series(Run(setup.env, w1, input.before).logs, setup.id)|
            && verdict.amountMsat == Mebibytes(|up.data|) * up.config.priceSatsPerMib * 1000
  {
    WatchedEntry(setup, w, t, up, salt, nonce, payload, before);
    RoundPaysExactly(setup, w1, input);
  }
}
