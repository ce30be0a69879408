/** What a decision answers about an entry that is already resolved: when exactly, over
    every run, it hands back the attestation stored there, of which entries and to whom. */
module ResolvedAnswers {
  import opened Common
  import opened ChallengeStores
  import opened Approvals
  import opened Decisions
  import opened DecisionProofs
  import opened DecisionOutcomes
  import opened DecisionRuns
  import opened DecisionOwners
  import opened Inboxes
  import opened InboxRuns
  import opened ApproveRuns
  import Hex

  // -------------------------------------------------------------------- one step

  /** The answer is an attestation that was there before. */
  ghost predicate HandsBack(pc: Pc) {
    pc.Finished? && pc.outcome.AlreadyResolved? && pc.outcome.attestation.Some?
  }

  ghost predicate HasBlob(s: State, h: nat)
    requires h < |s.handlers|
  {
    s.handlers[h].nonce in s.store && s.store[s.handlers[h].nonce].blob.Some?
  }

  /** The first look of an approve finds an attested entry, unexpired. */
  ghost predicate FirstLookFinds(s: State, e: Event, h: nat) {
    && e.Validate? && e.h == h && h < |s.handlers| && s.handlers[h].pc.ApproveOpened?
    && (s.handlers[h].requester.Local? ==> e.uid.Some?)
    && HasBlob(s, h) && e.clock.Some? && e.clock.value < s.store[s.handlers[h].nonce].expiresAt
  }

  /** Its second look finds the entry of its first attested since, unexpired. */
  ghost predicate SecondLookFinds(b: Binding, s: State, e: Event, h: nat) {
    && e.Check? && e.h == h && h < |s.handlers| && s.handlers[h].pc.ApproveWithWriter?
    && Belongs(s.handlers[h].pc.entry.kind, b)
    && HasBlob(s, h) && SameEntry(s.store, s.handlers[h].nonce, s.handlers[h].pc.entry)
    && e.clock.Some? && e.clock.value < s.store[s.handlers[h].nonce].expiresAt
  }

  /** A reject finds an attested entry that is no tombstone. */
  ghost predicate RejectFinds(s: State, e: Event, h: nat) {
    && e.Inspect? && e.h == h && h < |s.handlers| && s.handlers[h].pc.RejectOpened?
    && HasBlob(s, h) && !s.store[s.handlers[h].nonce].kind.Tombstone()
  }

  ghost predicate Finds(b: Binding, s: State, e: Event, h: nat) {
    FirstLookFinds(s, e, h) || SecondLookFinds(b, s, e, h) || RejectFinds(s, e, h)
  }

  lemma ValidateHandsBack(s: State, e: Event, h: nat)
    requires h < |s.handlers| && e.Validate? && e.h == h && ActValidate(s.store, s.handlers[h], e.uid, e.clock).Some?
    ensures var pc := ActValidate(s.store, s.handlers[h], e.uid, e.clock).value.pc;
            && (HandsBack(pc) <==> FirstLookFinds(s, e, h))
            && (HandsBack(pc) ==> pc.outcome.attestation == s.store[s.handlers[h].nonce].blob)
  {
  }

  lemma CheckHandsBack(b: Binding, s: State, e: Event, h: nat)
    requires h < |s.handlers| && e.Check? && e.h == h && ActCheck(b, s.store, s.handlers[h], e.clock).Some?
    ensures var pc := ActCheck(b, s.store, s.handlers[h], e.clock).value.pc;
            && (HandsBack(pc) <==> SecondLookFinds(b, s, e, h))
            && (HandsBack(pc) ==> pc.outcome.attestation == s.store[s.handlers[h].nonce].blob)
  {
  }

  lemma InspectHandsBack(s: State, e: Event, h: nat)
    requires h < |s.handlers| && e.Inspect? && e.h == h && ActInspect(s.store, s.handlers[h], e.uid, e.clock).Some?
    ensures var pc := ActInspect(s.store, s.handlers[h], e.uid, e.clock).value.pc;
            && (HandsBack(pc) <==> RejectFinds(s, e, h))
            && (HandsBack(pc) ==> pc.outcome.attestation == s.store[s.handlers[h].nonce].blob)
  {
  }

  /** The write never finds an attestation: the entry is as it was checked. */
  lemma PersistHandsNothingBack(b: Binding, store: Store, h: nat, who: Handler, disk: Disk, grant: Disk)
    requires EntryInv(b, store, who) && ActPersist(store, h, who, disk, grant).Some?
    ensures !HandsBack(ActPersist(store, h, who, disk, grant).value.pc)
  {
    if who.pc.ApproveLogged? && who.pc.plan.RecordBlob? {
      RecordAfterPrepareSucceeds(store, who.nonce, who.pc.entry, b, who.pc.now);
    }
  }

  lemma StepHandsBack(b: Binding, s: State, e: Event, h: nat)
    requires EntriesInv(b, s) && Step(b, s, e).Some? && Mover(e) == Some(h) && h < |s.handlers|
    ensures var pc := Step(b, s, e).value.handlers[h].pc;
            && (HandsBack(pc) <==> Finds(b, s, e, h))
            && (HandsBack(pc) ==> pc.outcome.attestation == s.store[s.handlers[h].nonce].blob)
  {
    match e
    case Validate(_, _, _) => ValidateHandsBack(s, e, h);
    case Check(_, _) => CheckHandsBack(b, s, e, h);
    case Inspect(_, _, _) => InspectHandsBack(s, e, h);
    case Persist(_, disk, grant) =>
      assert EntryInv(b, s.store, s.handlers[h]);
      PersistHandsNothingBack(b, s.store, h, s.handlers[h], disk, grant);
    case _ =>
  }

  // ------------------------------------------------------------------ which entries

  /** Which of the answers are asked for: all, those about a spent entry, or those to a
      requester who may not decide the entry. */
  datatype About = AnyEntry | SpentEntry | OthersEntry

  /** The answer of a handler that last looked at `x` is one of these. */
  ghost predicate Answers(about: About, who: Handler, uid: Option<string>, x: Option<Approval>) {
    && HandsBack(who.pc) && x.Some?
    && match about
       case AnyEntry => true
       case SpentEntry => x.value.kind.Consumed?
       case OthersEntry => !MayDecide(who.requester, uid, who.nonce, x.value.uid)
  }

  /** The step that gives such an answer. A reject never does for a spent entry; nor
      does a second look to one who may not decide, for the first has refused it. */
  ghost predicate AnswersAt(about: About, b: Binding, s: State, e: Event, h: nat) {
    match about
    case AnyEntry => Finds(b, s, e, h)
    case SpentEntry =>
      (FirstLookFinds(s, e, h) || SecondLookFinds(b, s, e, h)) && s.store[s.handlers[h].nonce].kind.Consumed?
    case OthersEntry =>
      && (FirstLookFinds(s, e, h) || RejectFinds(s, e, h))
      && !MayDecide(s.handlers[h].requester, e.uid, s.handlers[h].nonce, s.store[s.handlers[h].nonce].uid)
  }

  /** Some step of the run does. */
  ghost predicate Answered(about: About, b: Binding, events: seq<Event>, h: nat) {
    events != []
    && var past := events[..|events| - 1];
       || Answered(about, b, past, h)
       || (Run(b, past).Some? && AnswersAt(about, b, Run(b, past).value, events[|events| - 1], h))
  }

  lemma StepAnswers(about: About, b: Binding, past: seq<Event>, s: State, e: Event, h: nat)
    requires Run(b, past) == Some(s) && Step(b, s, e).Some? && Mover(e) == Some(h) && h < |s.handlers|
    ensures Answers(about, Step(b, s, e).value.handlers[h], Presented(past + [e], h), Saw(b, past + [e], h))
            <==> AnswersAt(about, b, s, e, h)
  {
    InvHolds(b, past);
    OwnersHold(b, past);
    StepFrame(b, s, e);
    StepHandsBack(b, s, e, h);
    assert OwnerInv(past, h, s.handlers[h]);
    assert (past + [e])[..|past|] == past;
  }

  /** A step of another changes nothing of this. */
  lemma OthersStep(about: About, b: Binding, past: seq<Event>, s: State, e: Event, h: nat)
    requires Run(b, past) == Some(s) && Mover(e) != Some(h)
    ensures Presented(past + [e], h) == Presented(past, h) && Saw(b, past + [e], h) == Saw(b, past, h)
    ensures !AnswersAt(about, b, s, e, h)
  {
    assert (past + [e])[..|past|] == past;
  }

  lemma AnsweredAppend(about: About, b: Binding, past: seq<Event>, s: State, e: Event, h: nat)
    requires Run(b, past) == Some(s)
    ensures Answered(about, b, past + [e], h) <==> Answered(about, b, past, h) || AnswersAt(about, b, s, e, h)
  {
    assert (past + [e])[..|past|] == past;
  }

  /** Over every run, whoever it is about: the answers of a handler are exactly those
      that some step of the run gives. */
  lemma {:induction false} AnswersExactly(about: About, b: Binding, events: seq<Event>, s: State, h: nat)
    requires Run(b, events) == Some(s)
    ensures Answered(about, b, events, h) <==>
            h < |s.handlers| && Answers(about, s.handlers[h], Presented(events, h), Saw(b, events, h))
  {
    if events != [] {
      var past, e := events[..|events| - 1], events[|events| - 1];
      var r := Run(b, past).value;
      AnswersExactly(about, b, past, r, h);
      StepFrame(b, r, e);
      AnsweredAppend(about, b, past, r, e, h);
      assert past + [e] == events;
      if Mover(e) == Some(h) {
        MovedWasOpen(b, r, e, h);
        StepAnswers(about, b, past, r, e, h);
      } else {
        OthersStep(about, b, past, r, e, h);
      }
    }
  }

  // ------------------------------------------------------------------------ theorems

  /** Over every run, a finished decision answers with an attestation exactly if one of
      its looks found one, and then with the one stored there. */
  lemma {:induction false} StoredAttestationHandedBack(b: Binding, events: seq<Event>, s: State, h: nat)
    requires Run(b, events) == Some(s) && h < |s.handlers|
    ensures HandsBack(s.handlers[h].pc) <==> Answered(AnyEntry, b, events, h)
    ensures HandsBack(s.handlers[h].pc) ==>
              Saw(b, events, h).Some? && s.handlers[h].pc.outcome.attestation == Saw(b, events, h).value.blob
  {
    AnswersExactly(AnyEntry, b, events, s, h);
    if HandsBack(s.handlers[h].pc) {
      HandedIsStored(b, events, s, h);
    }
  }

  lemma {:induction false} HandedIsStored(b: Binding, events: seq<Event>, s: State, h: nat)
    requires Run(b, events) == Some(s) && h < |s.handlers| && HandsBack(s.handlers[h].pc)
    ensures Saw(b, events, h).Some? && s.handlers[h].pc.outcome.attestation == Saw(b, events, h).value.blob
  {
    var past, e := events[..|events| - 1], events[|events| - 1];
    var r := Run(b, past).value;
    InvHolds(b, past);
    StepFrame(b, r, e);
    if Mover(e) == Some(h) {
      StepHandsBack(b, r, e, h);
    } else {
      HandedIsStored(b, past, r, h);
    }
  }

  /** Over every run, a finished decision has handed back the attestation of a spent
      entry exactly if it is an approve one of whose looks found that entry unexpired
      and attested, although the source says that it is not handed back. */
  lemma {:induction false} SpentAttestationHandedBack(b: Binding, events: seq<Event>, s: State, h: nat)
    requires Run(b, events) == Some(s) && h < |s.handlers|
    ensures HandsBack(s.handlers[h].pc) && Saw(b, events, h).Some? && Saw(b, events, h).value.kind.Consumed? <==>
            Answered(SpentEntry, b, events, h)
  {
    AnswersExactly(SpentEntry, b, events, s, h);
  }

  /** Over every run, a decision that may not decide its entry is answered with the
      attestation exactly if its first look, or a reject's look, found one: these come
      before the requester is checked. It still has no effect. */
  lemma {:induction false} AnsweredWhoeverAsks(b: Binding, events: seq<Event>, s: State, h: nat)
    requires Run(b, events) == Some(s) && h < |s.handlers|
    ensures var who, x := s.handlers[h], Saw(b, events, h);
            HandsBack(who.pc) && x.Some? && !MayDecide(who.requester, Presented(events, h), who.nonce, x.value.uid) <==>
            Answered(OthersEntry, b, events, h)
    ensures Answered(OthersEntry, b, events, h) ==> Quiet(s.trace, h)
  {
    AnswersExactly(OthersEntry, b, events, s, h);
    if Answered(OthersEntry, b, events, h) && !Quiet(s.trace, h) {
      EffectSawOwn(b, events, s, h);
    }
  }

  // ------------------------------------------------------------------------- a run

  lemma OutsideRuns(b: Binding, past: seq<Event>, s: State, op: OutsideOp) returns (t: State)
    requires Run(b, past) == Some(s) && s.lock.None?
    ensures Run(b, past + [Outside(op)]) == Some(t)
    ensures t == s.(store := OutsideResult(s.store, op), trace := t.trace)
  {
    assert (past + [Outside(op)])[..|past|] == past;
    t := Run(b, past + [Outside(op)]).value;
  }

  /** An entry is inserted, attested by another process and spent. */
  lemma SpendRuns(b: Binding, n: Nonce, x: Approval, blob: Blob, tx: string, now: nat) returns (events: seq<Event>, s: State)
    requires Pending(x) && Recordable(x.kind) && now < x.expiresAt && TxHash(tx)
    ensures Run(b, events) == Some(s)
    ensures s.store == map[n := Approval(x.uid, x.expiresAt, Consumed(x.kind.Name(), tx), Some(blob))]
    ensures s.lock.None? && s.writer.None? && !s.poisoned && s.handlers == []
  {
    events := [];
    s := OutsideRuns(b, events, START, Insert(n, x, now));
    events := events + [Outside(Insert(n, x, now))];
    assert Unexpired(map[], now) == map[];
    assert s.store == map[n := x];
    s := OutsideRuns(b, events, s, AttestElsewhere(n, blob, now));
    events := events + [Outside(AttestElsewhere(n, blob, now))];
    s := OutsideRuns(b, events, s, OutsideOp.Spend(n, tx));
    events := events + [Outside(OutsideOp.Spend(n, tx))];
  }

  /** And then approved: whoever the requester is, as long as it can be told who, is
      answered with the attestation of the spent entry. */
  lemma SpentIsShown(
      b: Binding, n: Nonce, x: Approval, blob: Blob, tx: string, now: nat, requester: Requester, uid: Option<string>)
      returns (events: seq<Event>, t: State)
    requires Pending(x) && Recordable(x.kind) && now < x.expiresAt && TxHash(tx) && (requester.Local? ==> uid.Some?)
    ensures Run(b, events) == Some(t) && n in t.store && t.store[n].kind == Consumed(x.kind.Name(), tx)
    ensures t.handlers == [Handler(n, true, requester, Finished(AlreadyResolved(Some(blob))))]
  {
    var past, s := SpendRuns(b, n, x, blob, tx, now);
    var solo := Solo(b, false, 0, n, true, requester);
    var w := ApproveWorld(Opens, uid, Some(now), true, [], Opens, Some(now), true, true, Written, Written);
    var more: seq<Event>;
    more, t := ApproveIsRun(solo, past, s, w);
    events := past + more;
    assert FindsUnexpired(s.store, n, requester, w);
  }

  /** One such run, for a payment and a local operator. */
  lemma SpentPaymentIsShown(b: Binding, n: Nonce) returns (events: seq<Event>, t: State, blob: Blob)
    ensures Run(b, events) == Some(t) && n in t.store && t.store[n].kind.Consumed?
    ensures t.handlers == [Handler(n, true, Local, Finished(AlreadyResolved(Some(blob))))]
  {
    var tx := seq(64, _ => '0');
    assert Hex.Lower(tx) == tx;
    blob := ForeignBlob("");
    events, t := SpentIsShown(b, n, Approval("", 1, PaymentSimulated("", ""), None), blob, tx, 0, Local, Some(""));
  }
}
