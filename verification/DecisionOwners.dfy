/** Who may decide what, local operators included: the process user a handler
    presented when it looked at its entry owns the entry that the decision changes. */
module DecisionOwners {
  import opened Common
  import opened ChallengeStores
  import opened Approvals
  import opened Decisions
  import opened DecisionProofs
  import opened DecisionOutcomes
  import opened DecisionRuns

  /** The process user that `h` last presented, if it was known. */
  ghost function Presented(events: seq<Event>, h: nat): Option<string> {
    if events == [] then None
    else
      var e := events[|events| - 1];
      if (e.Validate? || e.Inspect?) && e.h == h then e.uid else Presented(events[..|events| - 1], h)
  }

  /** Past its look at the entry, a handler has it at hand. */
  ghost predicate HasLooked(pc: Pc) {
    !pc.Over() && !pc.ApproveOpening? && !pc.ApproveOpened? && !pc.RejectOpening? && !pc.RejectOpened?
  }

  ghost predicate OwnerInv(events: seq<Event>, h: nat, who: Handler) {
    HasLooked(who.pc) ==> MayDecide(who.requester, Presented(events, h), who.nonce, who.pc.entry.uid)
  }

  ghost predicate OwnersInv(events: seq<Event>, s: State) {
    forall h :: 0 <= h < |s.handlers| ==> OwnerInv(events, h, s.handlers[h])
  }

  /** Authorization by the resolved identity is authorization by cases. */
  lemma AuthorizedMayDecide(r: Requester, uid: Option<string>, owner: string, n: Nonce)
    requires ResolveRequester(r, uid).Some?
    ensures var who := ResolveRequester(r, uid).value;
            Authorized(who.identity, owner, n, who.allowed) <==> MayDecide(r, uid, n, owner)
  {
  }

  lemma ActKeepsOwner(b: Binding, store: Store, poisoned: bool, h: nat, who: Handler, e: Event, past: seq<Event>)
    requires HandlerAct(b, store, poisoned, h, who, e).Some? && e.h == h && OwnerInv(past, h, who)
    ensures OwnerInv(past + [e], h, who.(pc := HandlerAct(b, store, poisoned, h, who, e).value.pc))
  {
    assert (past + [e])[..|past|] == past;
    if (e.Validate? || e.Inspect?) && ResolveRequester(who.requester, e.uid).Some? && who.nonce in store {
      AuthorizedMayDecide(who.requester, e.uid, store[who.nonce].uid, who.nonce);
    }
  }

  lemma OwnersKept(b: Binding, s: State, e: Event, past: seq<Event>)
    requires OwnersInv(past, s) && Step(b, s, e).Some?
    ensures OwnersInv(past + [e], Step(b, s, e).value)
  {
    var t := Step(b, s, e).value;
    StepFrame(b, s, e);
    assert (past + [e])[..|past|] == past;
    forall h | 0 <= h < |t.handlers| ensures OwnerInv(past + [e], h, t.handlers[h]) {
      if Mover(e) == Some(h) {
        ActKeepsOwner(b, s.store, s.poisoned, h, s.handlers[h], e, past);
      } else if h < |s.handlers| {
        assert OwnerInv(past, h, s.handlers[h]);
      }
    }
  }

  lemma {:induction false} OwnersHold(b: Binding, events: seq<Event>)
    requires Run(b, events).Some?
    ensures OwnersInv(events, Run(b, events).value)
  {
    if events != [] {
      var past := events[..|events| - 1];
      OwnersHold(b, past);
      OwnersKept(b, Run(b, past).value, events[|events| - 1], past);
      assert past + [events[|events| - 1]] == events;
    }
  }

  lemma EffectHasEntry(b: Binding, s: State, h: nat, e: Event)
    requires h < |s.handlers| && EntryInv(b, s.store, s.handlers[h])
    requires HandlerAct(b, s.store, s.poisoned, h, s.handlers[h], e).Some?
    requires !Quiet(HandlerAct(b, s.store, s.poisoned, h, s.handlers[h], e).value.marks, h)
    ensures var who := s.handlers[h];
            && HasLooked(who.pc) && who.nonce in s.store && Pending(s.store[who.nonce])
            && s.store[who.nonce].uid == who.pc.entry.uid
  {
    var who := s.handlers[h];
    if who.pc.ApproveLogged? {
      PlansAreForLiveKinds(who.nonce, who.pc.entry, b);
    }
  }

  /** In every run, whichever step of a decision has an effect, the entry it changes is
      pending then, and its requester may decide it: the passkey's allowlisted
      credential was verified for this nonce, or the process user presented owns it. */
  lemma {:induction false} EffectIsByOwner(b: Binding, events: seq<Event>, s: State, e: Event, h: nat)
    requires Run(b, events) == Some(s) && Step(b, s, e).Some? && Mover(e) == Some(h) && h < |s.handlers|
    requires !Quiet(Step(b, s, e).value.trace[|s.trace|..], h)
    ensures var who := s.handlers[h];
            && who.nonce in s.store && Pending(s.store[who.nonce])
            && MayDecide(who.requester, Presented(events, h), who.nonce, s.store[who.nonce].uid)
  {
    InvHolds(b, events);
    OwnersHold(b, events);
    assert OwnerInv(events, h, s.handlers[h]) && EntryInv(b, s.store, s.handlers[h]);
    var marks := HandlerAct(b, s.store, s.poisoned, h, s.handlers[h], e).value.marks;
    assert Step(b, s, e).value.trace[|s.trace|..] == marks;
    EffectHasEntry(b, s, h, e);
  }

  /** The entry that handler `h` last looked at was pending, and its requester may
      decide it. */
  ghost predicate SawOwn(b: Binding, events: seq<Event>, who: Handler, h: nat) {
    var x := Saw(b, events, h);
    x.Some? && Pending(x.value) && MayDecide(who.requester, Presented(events, h), who.nonce, x.value.uid)
  }

  lemma MovedWasOpen(b: Binding, s: State, e: Event, h: nat)
    requires Step(b, s, e).Some? && Mover(e) == Some(h) && h < |s.handlers|
    ensures !s.handlers[h].pc.Over()
  {
  }

  lemma OnlyPersistHasEffects(b: Binding, store: Store, poisoned: bool, h: nat, who: Handler, e: Event)
    requires HandlerAct(b, store, poisoned, h, who, e).Some? && !e.Persist?
    ensures Quiet(HandlerAct(b, store, poisoned, h, who, e).value.marks, h)
  {
  }

  /** Only a handler's last step has effects. */
  lemma EffectsAreNew(b: Binding, s: State, e: Event, h: nat)
    requires OutcomesInv(s) && Step(b, s, e).Some? && Mover(e) == Some(h) && h < |s.handlers|
    requires !Quiet(Step(b, s, e).value.trace, h)
    ensures !Quiet(Step(b, s, e).value.trace[|s.trace|..], h) && e.Persist?
  {
    MovedWasOpen(b, s, e, h);
    assert OutcomeInv(s.trace, h, s.handlers[h]);
    var marks := HandlerAct(b, s.store, s.poisoned, h, s.handlers[h], e).value.marks;
    assert Step(b, s, e).value.trace == s.trace + marks;
    assert Step(b, s, e).value.trace[|s.trace|..] == marks;
    if !e.Persist? {
      OnlyPersistHasEffects(b, s.store, s.poisoned, h, s.handlers[h], e);
    }
  }

  lemma StepSawOwn(b: Binding, past: seq<Event>, s: State, e: Event, h: nat)
    requires Run(b, past) == Some(s) && Step(b, s, e).Some? && Mover(e) == Some(h) && h < |s.handlers|
    requires !Quiet(Step(b, s, e).value.trace, h)
    ensures SawOwn(b, past + [e], s.handlers[h], h)
  {
    InvHolds(b, past);
    EffectsAreNew(b, s, e, h);
    EffectIsByOwner(b, past, s, e, h);
    assert (past + [e])[..|past|] == past;
  }

  lemma {:induction false} EffectSawOwn(b: Binding, events: seq<Event>, s: State, h: nat)
    requires Run(b, events) == Some(s) && h < |s.handlers| && !Quiet(s.trace, h)
    ensures SawOwn(b, events, s.handlers[h], h)
  {
    var past, e := events[..|events| - 1], events[|events| - 1];
    var r := Run(b, past).value;
    StepFrame(b, r, e);
    assert past + [e] == events;
    if Mover(e) == Some(h) {
      StepSawOwn(b, past, r, e, h);
    } else {
      InvHolds(b, past);
      NewMarksAreOwn(b, r, e, h);
      assert s.trace == r.trace + s.trace[|r.trace|..];
      assert !Quiet(r.trace, h);
      EffectSawOwn(b, past, r, h);
    }
  }

  /** Over every run, every effect of the inbox was preceded by that decision's own audit
      row, naming the nonce, the direction and the operator credential. The entry it
      changed was pending, and the requester, local or remote, may decide it. */
  lemma {:induction false} AuditBeforeEffect(b: Binding, events: seq<Event>, s: State, j: nat, h: nat)
    requires Run(b, events) == Some(s) && j < |s.trace| && EffectOf(s.trace[j], h)
    ensures && h < |s.handlers|
            && (if s.trace[j].RemovedFrom? then s.trace[j].nonces == {s.handlers[h].nonce}
                else s.trace[j].nonce == s.handlers[h].nonce)
            && s.handlers[h].approve == !s.trace[j].RejectedOn?
            && RowBefore(s.trace, j, h, s.handlers[h].nonce, s.handlers[h].approve, CredentialOf(s.handlers[h].requester))
            && SawOwn(b, events, s.handlers[h], h)
  {
    RowBeforeEffect(b, events, s, j, h);
    EffectSawOwn(b, events, s, h);
  }
}
