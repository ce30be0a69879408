/** What the wall clock decides over every run: nothing that has expired is approved. */
module DecisionClocks {
  import opened Common
  import opened ChallengeStores
  import opened Approvals
  import opened Decisions
  import opened DecisionProofs
  import opened DecisionOutcomes
  import opened DecisionRuns
  import opened DecisionOwners

  /** The clock that `h` read at its last check, if it could be read. */
  ghost function CheckedAt(events: seq<Event>, h: nat): Option<nat> {
    if events == [] then None
    else
      var e := events[|events| - 1];
      if e.Check? && e.h == h then e.clock else CheckedAt(events[..|events| - 1], h)
  }

  ghost predicate ClockInv(events: seq<Event>, h: nat, who: Handler) {
    who.pc.ApproveChecked? || who.pc.ApproveLogged? ==> CheckedAt(events, h) == Some(who.pc.now)
  }

  ghost predicate ClocksInv(events: seq<Event>, s: State) {
    forall h :: 0 <= h < |s.handlers| ==> ClockInv(events, h, s.handlers[h])
  }

  lemma ActKeepsClock(b: Binding, store: Store, poisoned: bool, h: nat, who: Handler, e: Event, past: seq<Event>)
    requires HandlerAct(b, store, poisoned, h, who, e).Some? && e.h == h && ClockInv(past, h, who)
    ensures ClockInv(past + [e], h, who.(pc := HandlerAct(b, store, poisoned, h, who, e).value.pc))
  {
    assert (past + [e])[..|past|] == past;
  }

  lemma ClocksKept(b: Binding, s: State, e: Event, past: seq<Event>)
    requires ClocksInv(past, s) && Step(b, s, e).Some?
    ensures ClocksInv(past + [e], Step(b, s, e).value)
  {
    var t := Step(b, s, e).value;
    StepFrame(b, s, e);
    assert (past + [e])[..|past|] == past;
    forall h | 0 <= h < |t.handlers| ensures ClockInv(past + [e], h, t.handlers[h]) {
      if Mover(e) == Some(h) {
        ActKeepsClock(b, s.store, s.poisoned, h, s.handlers[h], e, past);
      } else if h < |s.handlers| {
        assert ClockInv(past, h, s.handlers[h]);
      }
    }
  }

  lemma {:induction false} ClocksHold(b: Binding, events: seq<Event>)
    requires Run(b, events).Some?
    ensures ClocksInv(events, Run(b, events).value)
  {
    if events != [] {
      var past := events[..|events| - 1];
      ClocksHold(b, past);
      ClocksKept(b, Run(b, past).value, events[|events| - 1], past);
      assert past + [events[|events| - 1]] == events;
    }
  }

  /** A mark of `h` having attested or granted. */
  ghost predicate ApprovesAs(m: Mark, h: nat) {
    (m.AttestedOn? && m.author == Some(h)) || (m.GrantedFor? && m.handler == h)
  }

  /** The entry that `h` last looked at had not expired by the clock of its check. */
  ghost predicate SawLive(b: Binding, events: seq<Event>, h: nat) {
    var x, now := Saw(b, events, h), CheckedAt(events, h);
    x.Some? && now.Some? && now.value < x.value.expiresAt
  }

  lemma ActApprovesLive(b: Binding, store: Store, poisoned: bool, h: nat, who: Handler, e: Event, j: nat)
    requires EntryInv(b, store, who) && HandlerAct(b, store, poisoned, h, who, e).Some?
    requires var marks := HandlerAct(b, store, poisoned, h, who, e).value.marks;
             j < |marks| && ApprovesAs(marks[j], h)
    ensures e.Persist? && who.pc.ApproveLogged? && who.nonce in store && who.pc.now < store[who.nonce].expiresAt
  {
  }

  lemma StepApprovesLive(b: Binding, past: seq<Event>, s: State, e: Event, h: nat, j: nat)
    requires Run(b, past) == Some(s) && Step(b, s, e).Some? && Mover(e) == Some(h) && h < |s.handlers|
    requires var t := Step(b, s, e).value;
             |s.trace| <= j < |t.trace| && ApprovesAs(t.trace[j], h)
    ensures SawLive(b, past + [e], h)
  {
    InvHolds(b, past);
    ClocksHold(b, past);
    assert EntryInv(b, s.store, s.handlers[h]) && ClockInv(past, h, s.handlers[h]);
    ActApprovesLive(b, s.store, s.poisoned, h, s.handlers[h], e, j - |s.trace|);
    assert (past + [e])[..|past|] == past;
  }

  /** A handler that has had an effect does not move any more. */
  lemma EffectIsLast(b: Binding, past: seq<Event>, s: State, e: Event, h: nat, j: nat)
    requires Run(b, past) == Some(s) && Step(b, s, e).Some? && Mover(e) == Some(h) && h < |s.handlers| && j < |s.trace|
    ensures !EffectOf(s.trace[j], h)
  {
    InvHolds(b, past);
    MovedWasOpen(b, s, e, h);
    assert OutcomeInv(s.trace, h, s.handlers[h]);
  }

  /** Over every run, no attestation and no grant of the inbox falls on an entry whose
      time was reached by the clock its handler read at its check. */
  lemma {:induction false} NothingExpiredIsApproved(b: Binding, events: seq<Event>, s: State, j: nat, h: nat)
    requires Run(b, events) == Some(s) && j < |s.trace| && ApprovesAs(s.trace[j], h)
    ensures SawLive(b, events, h)
  {
    var past, e := events[..|events| - 1], events[|events| - 1];
    var r := Run(b, past).value;
    StepFrame(b, r, e);
    assert past + [e] == events;
    if j < |r.trace| {
      assert r.trace[j] == s.trace[j];
      if Mover(e) == Some(h) {
        EffectIsLast(b, past, r, e, h, j);
      }
      NothingExpiredIsApproved(b, past, r, j, h);
    } else if Mover(e) == Some(h) {
      StepApprovesLive(b, past, r, e, h, j);
    } else {
      NewMarksAreOwn(b, r, e, h);
    }
  }
}
