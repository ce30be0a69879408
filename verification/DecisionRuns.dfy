/** The guarantees of the decision seam over every run: all interleavings of
    handlers, other processes, faults and panics. */
module DecisionRuns {
  import opened Common
  import opened ChallengeStores
  import opened Approvals
  import opened Decisions
  import opened DecisionProofs
  import opened DecisionOutcomes

  ghost predicate Inv(b: Binding, s: State) {
    && LocksInv(s) && EntriesInv(b, s) && LifeInv(s) && RowsInv(s)
    && OutcomesInv(s) && EntitlementInv(s) && PoisonInv(s)
  }

  lemma InvKept(b: Binding, s: State, e: Event)
    requires Inv(b, s) && Step(b, s, e).Some?
    ensures Inv(b, Step(b, s, e).value)
  {
    LocksKept(b, s, e);
    EntriesKept(b, s, e);
    LifeKept(b, s, e);
    RowsKept(b, s, e);
    OutcomesKept(b, s, e);
    EntitlementKept(b, s, e);
    PoisonKept(b, s, e);
  }

  lemma {:induction false} InvHolds(b: Binding, events: seq<Event>)
    requires Run(b, events).Some?
    ensures Inv(b, Run(b, events).value)
  {
    if events != [] {
      var past := events[..|events| - 1];
      InvHolds(b, past);
      InvKept(b, Run(b, past).value, events[|events| - 1]);
    }
  }

  // ------------------------------------------------------------------------ blobs

  /** The event inserts `n` over an entry that had expired. */
  ghost predicate ReplacesExpired(store: Store, e: Event, n: Nonce) {
    e.Outside? && e.op.Insert? && e.op.nonce == n && n in store && store[n].expiresAt <= e.op.now
  }

  lemma ActKeepsBlobs(b: Binding, store: Store, poisoned: bool, h: nat, who: Handler, e: Event, n: Nonce)
    requires EntryInv(b, store, who) && HandlerAct(b, store, poisoned, h, who, e).Some?
    ensures var after := HandlerAct(b, store, poisoned, h, who, e).value.store;
            n in store && n in after && after[n].blob != store[n].blob ==> Pending(store[n])
  {
    if who.pc.ApproveLogged? {
      PlansAreForLiveKinds(who.nonce, who.pc.entry, b);
    }
  }

  lemma OutsideKeepsBlobs(store: Store, op: OutsideOp, n: Nonce)
    ensures var after := OutsideResult(store, op);
            n in store && n in after && after[n].blob != store[n].blob ==>
              Pending(store[n]) || (ReplacesExpired(store, Outside(op), n) && after[n] == op.entry)
  {
  }

  /** A stored attestation is never overwritten or erased in place, and a tombstone
      never gains one: in any step of any run an entry's attestation changes only
      from none, on an undecided entry, or because an insertion replaced the expired
      entry by its own. */
  lemma {:induction false} StoredAttestationStands(b: Binding, events: seq<Event>, s: State, e: Event, n: Nonce)
    requires Run(b, events) == Some(s) && Step(b, s, e).Some?
    ensures var t := Step(b, s, e).value;
            n in s.store && n in t.store && t.store[n].blob != s.store[n].blob ==>
              Pending(s.store[n]) || (ReplacesExpired(s.store, e, n) && t.store[n] == e.op.entry)
  {
    if Mover(e).Some? {
      InvHolds(b, events);
      StepFrame(b, s, e);
      assert EntryInv(b, s.store, s.handlers[e.h]);
      ActKeepsBlobs(b, s.store, s.poisoned, e.h, s.handlers[e.h], e, n);
    } else if e.Outside? {
      OutsideKeepsBlobs(s.store, e.op, n);
    }
  }

  // ------------------------------------------------------------------------ audit

  ghost predicate RowFor(m: Mark, h: nat, n: Nonce, approve: bool, credential: Option<string>) {
    m == Row(h, n, approve, credential)
  }

  ghost predicate RowBefore(trace: seq<Mark>, j: nat, h: nat, n: Nonce, approve: bool, credential: Option<string>) {
    exists i :: 0 <= i < j && i < |trace| && RowFor(trace[i], h, n, approve, credential)
  }

  /** Every effect of the inbox was preceded by that decision's own audit row,
      naming the nonce, the direction and the operator credential; and a passkey
      requester was entitled to decide that nonce. */
  lemma {:induction false} RowBeforeEffect(b: Binding, events: seq<Event>, s: State, j: nat, h: nat)
    requires Run(b, events) == Some(s)
    requires var trace := s.trace;
             j < |trace| && EffectOf(trace[j], h)
    ensures && h < |s.handlers|
            && (if s.trace[j].RemovedFrom? then s.trace[j].nonces == {s.handlers[h].nonce}
                else s.trace[j].nonce == s.handlers[h].nonce)
            && Entitled(s.handlers[h].requester, s.handlers[h].nonce)
            && s.handlers[h].approve == !s.trace[j].RejectedOn?
            && RowBefore(s.trace, j, h, s.handlers[h].nonce, s.handlers[h].approve, CredentialOf(s.handlers[h].requester))
  {
    InvHolds(b, events);
    var m := s.trace[j];
    assert MarkInv(s.handlers, m);
    assert Backed(s.trace[..j], m);
    var n, approve := s.handlers[h].nonce, !m.RejectedOn?;
    assert HasRow(s.trace[..j], h, n, approve);
    var i :| 0 <= i < j && s.trace[i].Row? && s.trace[i].handler == h
             && s.trace[i].nonce == n && s.trace[i].approve == approve;
    assert MarkInv(s.handlers, s.trace[i]);
    assert RowFor(s.trace[i], h, n, approve, CredentialOf(s.handlers[h].requester));
  }

  // --------------------------------------------------------------------- outcomes

  /** Handler `h` is about to grant a gate entry. */
  ghost predicate AtGate(s: State, h: nat) {
    h < |s.handlers| && s.handlers[h].pc.ApproveLogged? && s.handlers[h].pc.plan.GrantAndRemove?
  }

  /** The event is a write of `h` that fails after its rename: for a gate the write of
      the grant, or of the store once the grant is written; otherwise of the store. */
  ghost predicate FaultsAt(s: State, e: Event, h: nat) {
    e.Persist? && e.h == h
    && if AtGate(s, h) then e.grant.FailedAfterRename? || (e.grant.Written? && e.disk.FailedAfterRename?)
       else e.disk.FailedAfterRename?
  }

  /** Some write of `h` in the run failed after its rename. */
  ghost predicate Faulted(b: Binding, events: seq<Event>, h: nat) {
    events != []
    && var past := events[..|events| - 1];
       Faulted(b, past, h) || (Run(b, past).Some? && FaultsAt(Run(b, past).value, events[|events| - 1], h))
  }

  ghost predicate Unsynced(m: Mark, h: nat) {
    EffectOf(m, h) && !Synced(m)
  }

  ghost predicate HasUnsynced(trace: seq<Mark>, h: nat) {
    exists j :: 0 <= j < |trace| && Unsynced(trace[j], h)
  }

  lemma HasUnsyncedAppend(trace: seq<Mark>, more: seq<Mark>, h: nat)
    ensures HasUnsynced(trace + more, h) <==> HasUnsynced(trace, h) || HasUnsynced(more, h)
  {
    var all := trace + more;
    assert forall j :: 0 <= j < |trace| ==> all[j] == trace[j];
    assert forall j :: 0 <= j < |more| ==> all[j + |trace|] == more[j];
  }

  lemma ActUnsynced(b: Binding, s: State, h: nat, e: Event)
    requires h < |s.handlers| && EntryInv(b, s.store, s.handlers[h])
    requires HandlerAct(b, s.store, s.poisoned, h, s.handlers[h], e).Some? && e.h == h
    ensures HasUnsynced(HandlerAct(b, s.store, s.poisoned, h, s.handlers[h], e).value.marks, h) <==> FaultsAt(s, e, h)
  {
    var who := s.handlers[h];
    var marks := HandlerAct(b, s.store, s.poisoned, h, who, e).value.marks;
    if who.pc.ApproveLogged? {
      PlansAreForLiveKinds(who.nonce, who.pc.entry, b);
    }
    if FaultsAt(s, e, h) {
      assert Unsynced(marks[|marks| - 1], h);
    }
  }

  lemma StepUnsynced(b: Binding, s: State, e: Event, h: nat)
    requires Inv(b, s) && Step(b, s, e).Some?
    ensures HasUnsynced(Step(b, s, e).value.trace, h) <==> HasUnsynced(s.trace, h) || FaultsAt(s, e, h)
  {
    StepFrame(b, s, e);
    if Mover(e).Some? {
      var k := Mover(e).value;
      HasUnsyncedAppend(s.trace, HandlerAct(b, s.store, s.poisoned, k, s.handlers[k], e).value.marks, h);
      if k == h {
        ActUnsynced(b, s, h, e);
      } else {
        ActHasOwnEffects(b, s.store, s.poisoned, k, s.handlers[k], e);
      }
    } else if e.Outside? {
      HasUnsyncedAppend(s.trace, OutsideMarks(s.store, e.op), h);
      OutsideIsQuiet(s.store, e.op, h);
    } else if e.ForeignPoison? {
      HasUnsyncedAppend(s.trace, [Poisoned], h);
    }
  }

  /** An effect that its decision does not own up to is one whose write failed after
      its rename, and every such failure leaves one. */
  lemma {:induction false} UnsyncedMeansFaulted(b: Binding, events: seq<Event>, h: nat)
    requires Run(b, events).Some?
    ensures HasUnsynced(Run(b, events).value.trace, h) <==> Faulted(b, events, h)
  {
    if events != [] {
      var past := events[..|events| - 1];
      UnsyncedMeansFaulted(b, past, h);
      InvHolds(b, past);
      StepUnsynced(b, Run(b, past).value, events[|events| - 1], h);
    }
  }

  /** A decision that answers neither attested nor rejected had an effect exactly
      when its write reported an error after the file was already replaced, and it
      then answers unavailable. Any other such decision left everything as it was. */
  lemma {:induction false} OtherOutcomesChangeNothing(b: Binding, events: seq<Event>, s: State, h: nat)
    requires Run(b, events) == Some(s)
    requires h < |s.handlers| && s.handlers[h].pc.Finished?
    requires !s.handlers[h].pc.outcome.Attested? && !s.handlers[h].pc.outcome.WasRejected?
    ensures Quiet(s.trace, h) <==> !Faulted(b, events, h)
    ensures Faulted(b, events, h) ==> s.handlers[h].pc.outcome == Unavailable
  {
    InvHolds(b, events);
    UnsyncedMeansFaulted(b, events, h);
    assert OutcomeInv(s.trace, h, s.handlers[h]);
    assert forall j :: 0 <= j < |s.trace| && EffectOf(s.trace[j], h) ==> Unsynced(s.trace[j], h);
  }

  /** The entry a handler's nonce had when the handler last moved. */
  ghost function Saw(b: Binding, events: seq<Event>, h: nat): Option<Approval> {
    if events == [] then None
    else
      var past, e := events[..|events| - 1], events[|events| - 1];
      if Mover(e) != Some(h) || Run(b, past).None? || h >= |Run(b, past).value.handlers| then Saw(b, past, h)
      else Entry(Run(b, past).value, h)
  }

  ghost function Entry(s: State, h: nat): Option<Approval>
    requires h < |s.handlers|
  {
    if s.handlers[h].nonce in s.store then Some(s.store[s.handlers[h].nonce]) else None
  }

  /** The effect behind an answer of attested or rejected, by the kind of the entry. */
  ghost predicate BackedBy(b: Binding, trace: seq<Mark>, h: nat, n: Nonce, o: Outcome, x: Approval) {
    match o
    case WasRejected => RejectedOn(n, Some(h), true) in trace
    case Attested(shown, _) =>
      var blob := Attestation(b, n, SubjectOf(x.kind), x.uid);
      && (if x.kind.ToolsetFirstInvokeGate? then GrantedFor(n, h, true) in trace
          else Recordable(x.kind) && AttestedOn(n, blob, Some(h), true) in trace)
      && shown == if x.kind.ToolsetFirstInvokeGate? || x.kind.TrustlineClawbackOptIn? then None else Some(blob)
    case _ => true
  }

  ghost predicate Succeeds(o: Outcome) {
    o.WasRejected? || o.Attested?
  }

  lemma ActSucceeds(b: Binding, store: Store, poisoned: bool, h: nat, who: Handler, e: Event)
    requires EntryInv(b, store, who) && HandlerAct(b, store, poisoned, h, who, e).Some?
    ensures var act := HandlerAct(b, store, poisoned, h, who, e).value;
            act.pc.Finished? && Succeeds(act.pc.outcome) ==>
              who.nonce in store && Pending(store[who.nonce])
              && BackedBy(b, act.marks, h, who.nonce, act.pc.outcome, store[who.nonce])
  {
    if who.pc.ApproveLogged? {
      PlansAreForLiveKinds(who.nonce, who.pc.entry, b);
      if who.pc.plan.RecordBlob? {
        AttestedDigestIsChallengeDigest(who.nonce, who.pc.entry, b);
      }
    }
  }

  /** An answer of attested or rejected is backed by the durable effect it names, on an
      entry that was pending: for a gate its grant, for every other kind an attestation
      of the entry's own subject, which is the one shown unless the kind shows none. */
  lemma {:induction false} SuccessIsReal(b: Binding, events: seq<Event>, s: State, h: nat)
    requires Run(b, events) == Some(s) && h < |s.handlers| && s.handlers[h].pc.Finished?
    requires Succeeds(s.handlers[h].pc.outcome)
    ensures Saw(b, events, h).Some? && Pending(Saw(b, events, h).value)
    ensures BackedBy(b, s.trace, h, s.handlers[h].nonce, s.handlers[h].pc.outcome, Saw(b, events, h).value)
  {
    var past, e := events[..|events| - 1], events[|events| - 1];
    var r := Run(b, past).value;
    InvHolds(b, past);
    StepFrame(b, r, e);
    if Mover(e) == Some(h) {
      assert EntryInv(b, r.store, r.handlers[h]);
      ActSucceeds(b, r.store, r.poisoned, h, r.handlers[h], e);
    } else {
      SuccessIsReal(b, past, r, h);
    }
  }

  // ----------------------------------------------------------------------- poison

  /** Whoever poisoned the writer's mutex, were it another holder than a decision, a
      decision then changes the store only if it is a rejection that had already
      written its row and let go of the mutex. */
  lemma {:induction false} PoisonStopsDecisions(b: Binding, events: seq<Event>, s: State, i: nat, j: nat, h: nat)
    requires Run(b, events) == Some(s)
    requires var trace := s.trace;
             i < j < |trace| && trace[i] == Poisoned && EffectOf(trace[j], h)
    ensures var trace := s.trace;
            trace[j].RejectedOn? && HasRow(trace[..i], h, trace[j].nonce, false)
  {
    InvHolds(b, events);
    assert LateEffectIsLogged(s.trace, i, s.trace[j]);
  }

  /** Nobody is between its row and its write. */
  ghost predicate NoneLogged(s: State) {
    forall h :: 0 <= h < |s.handlers| ==> !s.handlers[h].pc.RejectLogged?
  }

  ghost predicate QuietSincePoison(trace: seq<Mark>) {
    forall i, j :: 0 <= i < j < |trace| && trace[i] == Poisoned ==> !InboxEffect(trace[j])
  }

  ghost predicate Stopped(s: State) {
    (s.poisoned ==> NoneLogged(s)) && QuietSincePoison(s.trace)
  }

  lemma PoisonAppend(trace: seq<Mark>, more: seq<Mark>)
    requires QuietSincePoison(trace)
    requires Poisoned in trace ==> forall j :: 0 <= j < |more| ==> !InboxEffect(more[j])
    requires Poisoned in more ==> |more| == 1
    ensures QuietSincePoison(trace + more)
  {
    var all := trace + more;
    assert forall i :: |trace| <= i < |all| ==> all[i] == more[i - |trace|];
    assert forall i :: 0 <= i < |more| ==> more[i] in more;
    forall i, j | 0 <= i < j < |all| && all[i] == Poisoned ensures !InboxEffect(all[j]) {
      if i < |trace| {
        assert trace[i] in trace;
      }
    }
  }

  lemma NoneLoggedKept(b: Binding, s: State, e: Event)
    requires LocksInv(s) && PoisonInv(s) && (s.poisoned ==> NoneLogged(s)) && Step(b, s, e).Some? && !e.ForeignPoison?
    ensures Step(b, s, e).value.poisoned ==> NoneLogged(Step(b, s, e).value)
  {
    var t := Step(b, s, e).value;
    StepFrame(b, s, e);
    if Mover(e).Some? && t.poisoned {
      var h := Mover(e).value;
      assert HoldsWriter(s, h) <==> s.writer == Some(h);
      if s.poisoned {
        ActWhenPoisoned(b, s.store, h, s.handlers[h], e);
      } else {
        ActPoisons(b, s.store, h, s.handlers[h], e);
        assert HoldsStore(s, h) <==> s.lock == Some(h);
        forall k | 0 <= k < |t.handlers| ensures !t.handlers[k].pc.RejectLogged? {
          assert HoldsStore(s, k) <==> s.lock == Some(k);
        }
      }
    }
  }

  /** While the mutex is poisoned and nobody is past its row, no step has an effect. */
  lemma PoisonedStepIsQuiet(b: Binding, s: State, h: nat, e: Event)
    requires LocksInv(s) && PoisonInv(s) && s.poisoned && NoneLogged(s) && h < |s.handlers|
    requires HandlerAct(b, s.store, s.poisoned, h, s.handlers[h], e).Some?
    ensures var marks := HandlerAct(b, s.store, s.poisoned, h, s.handlers[h], e).value.marks;
            forall j :: 0 <= j < |marks| ==> !InboxEffect(marks[j]) && marks[j] != Poisoned
  {
    assert HoldsWriter(s, h) <==> s.writer == Some(h);
    ActWhenPoisoned(b, s.store, h, s.handlers[h], e);
  }

  lemma StoppedKept(b: Binding, s: State, e: Event)
    requires Inv(b, s) && Stopped(s) && Step(b, s, e).Some? && !e.ForeignPoison?
    ensures Stopped(Step(b, s, e).value)
  {
    NoneLoggedKept(b, s, e);
    if Mover(e).Some? {
      var h := Mover(e).value;
      var marks := HandlerAct(b, s.store, s.poisoned, h, s.handlers[h], e).value.marks;
      if s.poisoned {
        PoisonedStepIsQuiet(b, s, h, e);
      } else {
        ActPoisons(b, s.store, h, s.handlers[h], e);
      }
      PoisonAppend(s.trace, marks);
    } else if e.Outside? {
      var marks := OutsideMarks(s.store, e.op);
      forall j, k: nat | 0 <= j < |marks| ensures !EffectOf(marks[j], k) {
        OutsideIsQuiet(s.store, e.op, k);
      }
      PoisonAppend(s.trace, marks);
    }
  }

  /** In the source only decisions hold the mutex; then a poisoned mutex ends all
      effects of the inbox for good. */
  lemma {:induction false} PoisonIsFinal(b: Binding, events: seq<Event>)
    requires Run(b, events).Some? && ForeignPoison !in events
    ensures Stopped(Run(b, events).value)
  {
    if events != [] {
      var past := events[..|events| - 1];
      PoisonIsFinal(b, past);
      InvHolds(b, past);
      StoppedKept(b, Run(b, past).value, events[|events| - 1]);
    }
  }

  lemma PanicSteps(b: Binding, s: State, h: nat)
    requires LocksInv(s) && h < |s.handlers| && !s.handlers[h].pc.Over()
    ensures Step(b, s, Panic(h)).Some?
    ensures var t := Step(b, s, Panic(h)).value;
            && t.handlers[h].pc == Crashed && t.store == s.store && t.lock != Some(h) && t.writer != Some(h)
            && (s.lock != Some(h) ==> t.lock == s.lock) && (s.writer != Some(h) ==> t.writer == s.writer)
            && (t.poisoned <==> s.poisoned || s.writer == Some(h))
  {
    assert HoldsWriter(s, h) <==> s.writer == Some(h);
    assert HandlerAct(b, s.store, s.poisoned, h, s.handlers[h], Panic(h)) == ActPanic(s.store, s.handlers[h].pc);
  }

  /** A panic can strike any decision that is not over, at any point of any run: it lets
      go of both locks, changes no store, and poisons the mutex exactly if it held it. */
  lemma {:induction false} PanicUnwinds(b: Binding, events: seq<Event>, s: State, h: nat)
    requires Run(b, events) == Some(s) && h < |s.handlers| && !s.handlers[h].pc.Over()
    ensures Step(b, s, Panic(h)).Some?
    ensures var t := Step(b, s, Panic(h)).value;
            && t.handlers[h].pc == Crashed && t.store == s.store && t.lock != Some(h) && t.writer != Some(h)
            && (s.lock != Some(h) ==> t.lock == s.lock) && (s.writer != Some(h) ==> t.writer == s.writer)
            && (t.poisoned <==> s.poisoned || s.writer == Some(h))
  {
    InvHolds(b, events);
    PanicSteps(b, s, h);
  }

  /** Another process acts on the store at any point of any run at which no decision
      holds its lock, and at no other. */
  lemma {:induction false} OthersActBetween(b: Binding, events: seq<Event>, s: State, op: OutsideOp)
    requires Run(b, events) == Some(s)
    ensures Step(b, s, Outside(op)).Some? <==> forall h :: 0 <= h < |s.handlers| ==> !s.handlers[h].pc.HoldsStore()
    ensures Step(b, s, Outside(op)).Some? ==>
              && Step(b, s, Outside(op)).value.handlers == s.handlers
              && Step(b, s, Outside(op)).value.store == OutsideResult(s.store, op)
  {
    InvHolds(b, events);
    if s.lock.Some? {
      assert HoldsStore(s, s.lock.value);
    }
    forall h | 0 <= h < |s.handlers| && s.handlers[h].pc.HoldsStore() ensures s.lock.Some? {
      assert HoldsStore(s, h);
    }
  }

  // ------------------------------------------------------------------------ locks

  /** The writer's mutex is only ever held together with the store lock, so no
      handler that waits for the store lock holds it. */
  lemma {:induction false} WriterNestsInStore(b: Binding, events: seq<Event>, s: State, h: nat)
    requires Run(b, events) == Some(s) && s.writer == Some(h)
    ensures s.lock == Some(h) && h < |s.handlers| && !s.handlers[h].pc.WaitsForStore()
  {
    InvHolds(b, events);
    assert HoldsWriter(s, h);
    assert HoldsStore(s, h);
  }

  /** A step that is neither a failure to open nor a panic. */
  ghost predicate Proceeds(e: Event) {
    Mover(e).Some? && !e.OpenFails? && !e.Panic?
  }

  /** The event a handler at `pc` is ready for. */
  ghost function NextEvent(h: nat, pc: Pc): Event {
    if pc.WaitsForStore() then Open(h)
    else match pc
      case ApproveOpened => Validate(h, None, None)
      case ApproveLoadingKey(_, _) => LoadKey(h, true)
      case ApproveReopened(_, _) => LockWriter(h)
      case ApproveWithWriter(_, _) => Check(h, None)
      case ApproveChecked(_, _, _, _) => WriteRow(h, true, true)
      case RejectOpened => Inspect(h, None, None)
      case RejectReady(_, _, _) => LockWriter(h)
      case RejectWithWriter(_, _, _) => WriteRow(h, true, true)
      case _ => Persist(h, Written, Written)
  }

  /** A handler acts on the event it is ready for, and asks for a lock it does not
      have only while it has no other, or for the writer inside the store lock. */
  lemma NextActs(b: Binding, store: Store, poisoned: bool, h: nat, who: Handler)
    requires !who.pc.Over()
    ensures var e := NextEvent(h, who.pc);
            && Proceeds(e) && e.h == h && !e.Begin? && !e.Outside? && !e.ForeignPoison?
            && HandlerAct(b, store, poisoned, h, who, e).Some?
    ensures var to := HandlerAct(b, store, poisoned, h, who, NextEvent(h, who.pc)).value.pc;
            && (to.HoldsStore() ==> who.pc.HoldsStore() || who.pc.WaitsForStore())
            && (to.HoldsWriter() ==> who.pc.HoldsStore())
  {
  }

  /** Whoever holds the lock in the way, or else the handler itself, can go on. */
  lemma UnblockedCanStep(b: Binding, s: State, h: nat)
    requires h < |s.handlers| && !s.handlers[h].pc.Over()
    requires s.lock.None? || s.lock == Some(h)
    requires s.writer.None? || s.writer == Some(h)
    ensures Step(b, s, NextEvent(h, s.handlers[h].pc)).Some?
    ensures Proceeds(NextEvent(h, s.handlers[h].pc))
  {
    NextActs(b, s.store, s.poisoned, h, s.handlers[h]);
  }

  /** No deadlock: while a decision is under way, some decision can go on. */
  lemma {:induction false} SomeHandlerCanProceed(b: Binding, events: seq<Event>, s: State, h: nat) returns (e: Event)
    requires Run(b, events) == Some(s)
    requires h < |s.handlers| && !s.handlers[h].pc.Over()
    ensures Proceeds(e) && Step(b, s, e).Some?
  {
    InvHolds(b, events);
    var k := if s.lock.Some? then s.lock.value else h;
    assert s.lock.Some? ==> HoldsStore(s, k);
    assert s.writer.Some? ==> HoldsWriter(s, s.writer.value);
    assert s.writer.Some? ==> HoldsStore(s, s.writer.value);
    UnblockedCanStep(b, s, k);
    e := NextEvent(k, s.handlers[k].pc);
  }
}
