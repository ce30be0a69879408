/** How decisions on one nonce exclude each other over every run, grants of gate
    entries included. A grant is its own file; taking the entry out of the store
    afterwards can fail, and only then is the nonce still open. */
module DecisionGates {
  import opened Common
  import opened ChallengeStores
  import opened Approvals
  import opened Decisions
  import opened Lifecycles
  import opened DecisionProofs
  import opened DecisionOutcomes
  import opened DecisionRuns

  // ---------------------------------------------------------------- left entries

  /** The event publishes a grant of `h` without taking its entry out: the write of
      the grant fails after its rename, or the removal fails before its own. */
  ghost predicate LeavesAt(s: State, e: Event, h: nat) {
    e.Persist? && e.h == h && AtGate(s, h)
    && (e.grant.FailedAfterRename? || (e.grant.Written? && e.disk.FailedBeforeRename?))
  }

  ghost predicate LeftEntry(b: Binding, events: seq<Event>, h: nat) {
    events != []
    && var past := events[..|events| - 1];
       LeftEntry(b, past, h) || (Run(b, past).Some? && LeavesAt(Run(b, past).value, events[|events| - 1], h))
  }

  ghost predicate GrantsAs(m: Mark, h: nat) {
    m.GrantedFor? && m.handler == h
  }

  ghost predicate HasGrant(trace: seq<Mark>, h: nat) {
    exists i :: 0 <= i < |trace| && GrantsAs(trace[i], h)
  }

  ghost predicate GrantLeft(trace: seq<Mark>, h: nat) {
    exists i :: 0 <= i < |trace| && GrantsAs(trace[i], h) && !TakenOut(trace, i)
  }

  ghost predicate OneGrant(trace: seq<Mark>, h: nat) {
    forall i, j :: 0 <= i < |trace| && 0 <= j < |trace| && GrantsAs(trace[i], h) && GrantsAs(trace[j], h) ==> i == j
  }

  lemma TakenOutStays(trace: seq<Mark>, more: seq<Mark>, h: nat, i: nat)
    requires i < |trace| && GrantsAs(trace[i], h) && Quiet(more, h)
    ensures TakenOut(trace + more, i) <==> TakenOut(trace, i)
  {
    var all := trace + more;
    assert i + 1 < |trace| ==> all[i + 1] == trace[i + 1];
    assert i + 1 == |trace| && more != [] ==> all[i + 1] == more[0];
  }

  /** Marks added when `h` has nothing left to do, or before it granted. */
  lemma GrantAppend(trace: seq<Mark>, more: seq<Mark>, h: nat)
    requires OneGrant(trace, h) && OneGrant(more, h) && (HasGrant(trace, h) ==> Quiet(more, h))
    ensures OneGrant(trace + more, h)
    ensures GrantLeft(trace + more, h) <==> GrantLeft(trace, h) || GrantLeft(more, h)
  {
    var all := trace + more;
    assert forall i :: 0 <= i < |trace| ==> all[i] == trace[i];
    assert forall i :: 0 <= i < |more| ==> all[i + |trace|] == more[i];
    assert forall i :: |trace| <= i < |all| ==> all[i] == more[i - |trace|];
    if HasGrant(trace, h) {
      forall i | 0 <= i < |trace| && GrantsAs(trace[i], h) ensures TakenOut(all, i) <==> TakenOut(trace, i) {
        TakenOutStays(trace, more, h, i);
      }
    } else {
      forall i | 0 <= i < |more| && GrantsAs(more[i], h) ensures TakenOut(all, i + |trace|) <==> TakenOut(more, i) {
        assert i + 1 < |more| ==> all[i + 1 + |trace|] == more[i + 1];
      }
    }
  }

  lemma ActGrants(b: Binding, s: State, h: nat, e: Event)
    requires h < |s.handlers| && EntryInv(b, s.store, s.handlers[h])
    requires HandlerAct(b, s.store, s.poisoned, h, s.handlers[h], e).Some? && e.h == h
    ensures var marks := HandlerAct(b, s.store, s.poisoned, h, s.handlers[h], e).value.marks;
            OneGrant(marks, h) && (GrantLeft(marks, h) <==> LeavesAt(s, e, h))
  {
    var who := s.handlers[h];
    var marks := HandlerAct(b, s.store, s.poisoned, h, who, e).value.marks;
    if who.pc.ApproveLogged? {
      PlansAreForLiveKinds(who.nonce, who.pc.entry, b);
    }
    if LeavesAt(s, e, h) {
      assert GrantsAs(marks[0], h) && !TakenOut(marks, 0);
    }
  }

  /** Whoever has granted is finished. */
  lemma GranterIsOver(s: State, h: nat)
    requires OutcomesInv(s) && HasGrant(s.trace, h)
    ensures h < |s.handlers| && s.handlers[h].pc.Finished?
  {
    assert !Quiet(s.trace, h);
    if h < |s.handlers| {
      assert OutcomeInv(s.trace, h, s.handlers[h]);
    }
  }

  lemma QuietHasNoGrant(marks: seq<Mark>, h: nat)
    requires Quiet(marks, h)
    ensures OneGrant(marks, h) && !GrantLeft(marks, h)
  {
    assert forall i :: 0 <= i < |marks| && GrantsAs(marks[i], h) ==> EffectOf(marks[i], h);
  }

  lemma NewGrants(b: Binding, s: State, e: Event, h: nat, more: seq<Mark>)
    requires Inv(b, s) && Step(b, s, e).Some? && Step(b, s, e).value.trace == s.trace + more
    ensures OneGrant(more, h) && (GrantLeft(more, h) <==> LeavesAt(s, e, h))
  {
    StepFrame(b, s, e);
    if Mover(e) == Some(h) {
      assert more == HandlerAct(b, s.store, s.poisoned, h, s.handlers[h], e).value.marks;
      ActGrants(b, s, h, e);
    } else {
      NewMarksAreOwn(b, s, e, h);
      assert more == Step(b, s, e).value.trace[|s.trace|..];
      QuietHasNoGrant(more, h);
    }
  }

  /** Whoever has granted does nothing more. */
  lemma GranterIsQuiet(b: Binding, s: State, e: Event, h: nat, more: seq<Mark>)
    requires Inv(b, s) && HasGrant(s.trace, h) && Step(b, s, e).Some? && Step(b, s, e).value.trace == s.trace + more
    ensures Quiet(more, h)
  {
    GranterIsOver(s, h);
    NewMarksAreOwn(b, s, e, h);
    assert more == Step(b, s, e).value.trace[|s.trace|..];
  }

  lemma StepGrants(b: Binding, s: State, e: Event, h: nat)
    requires Inv(b, s) && OneGrant(s.trace, h) && Step(b, s, e).Some?
    ensures var t := Step(b, s, e).value;
            && OneGrant(t.trace, h)
            && (GrantLeft(t.trace, h) <==> GrantLeft(s.trace, h) || LeavesAt(s, e, h))
  {
    var t := Step(b, s, e).value;
    StepFrame(b, s, e);
    var more := t.trace[|s.trace|..];
    assert t.trace == s.trace + more;
    NewGrants(b, s, e, h, more);
    if HasGrant(s.trace, h) {
      GranterIsQuiet(b, s, e, h, more);
    }
    GrantAppend(s.trace, more, h);
  }

  lemma {:induction false} LeftMeansFaulted(b: Binding, events: seq<Event>, h: nat)
    requires Run(b, events).Some?
    ensures var trace := Run(b, events).value.trace;
            OneGrant(trace, h) && (GrantLeft(trace, h) <==> LeftEntry(b, events, h))
  {
    if events != [] {
      var past := events[..|events| - 1];
      LeftMeansFaulted(b, past, h);
      InvHolds(b, past);
      StepGrants(b, Run(b, past).value, events[|events| - 1], h);
    }
  }

  // -------------------------------------------------------------------- theorems

  /** Over every run a grant takes its entry out exactly unless its own write failed
      so as to leave it; and a handler grants at most once. */
  lemma {:induction false} GrantTakesEntryOut(b: Binding, events: seq<Event>, s: State, i: nat)
    requires Run(b, events) == Some(s) && i < |s.trace| && s.trace[i].GrantedFor?
    ensures TakenOut(s.trace, i) <==> !LeftEntry(b, events, s.trace[i].handler)
    ensures forall j :: 0 <= j < |s.trace| && GrantsAs(s.trace[j], s.trace[i].handler) ==> j == i
  {
    var h := s.trace[i].handler;
    LeftMeansFaulted(b, events, h);
    assert GrantsAs(s.trace[i], h);
  }

  /** Every attestation, rejection or grant, by whomever, finds its nonce present and
      undecided: a rejected, spent, attested or removed entry is never decided. */
  lemma {:induction false} OnlyUndecidedIsDecided(b: Binding, events: seq<Event>, s: State, n: Nonce, j: nat)
    requires Run(b, events) == Some(s) && j < |s.trace| && DecidesOn(s.trace[j], n)
    ensures LifeAfter(s.trace[..j], n) == Some(Undecided)
  {
    InvHolds(b, events);
    DecisionFindsUndecided(s.trace, n, j);
  }

  /** Whatever the interleaving, a nonce that was attested, rejected, granted or spent
      is attested, rejected or granted again only after it was inserted anew, unless
      what came before was a grant whose write failed so as to leave the entry. */
  lemma {:induction false} OneDecisionPerInsertion(b: Binding, events: seq<Event>, s: State, n: Nonce, i: nat, j: nat)
    requires Run(b, events) == Some(s) && i < j < |s.trace|
    requires SettlesOn(s.trace[i], n) && DecidesOn(s.trace[j], n)
    ensures || ReinsertedBetween(s.trace, n, i, j)
            || (s.trace[i].GrantedFor? && LeftEntry(b, events, s.trace[i].handler))
  {
    InvHolds(b, events);
    assert LifeAfter(s.trace, n).Some?;
    DecidedOncePerInsertion(s.trace, n, i, j);
    if s.trace[i].GrantedFor? {
      GrantTakesEntryOut(b, events, s, i);
    }
  }

  /** A nonce inserted once is never decided twice, in either direction, nor decided
      once spent, with that one exception. */
  lemma {:induction false} OneDecisionPerNonce(b: Binding, events: seq<Event>, s: State, n: Nonce, i: nat, j: nat)
    requires Run(b, events) == Some(s) && i < j < |s.trace| && Insertions(s.trace, n) <= 1
    requires SettlesOn(s.trace[i], n) && DecidesOn(s.trace[j], n)
    ensures s.trace[i].GrantedFor? && LeftEntry(b, events, s.trace[i].handler)
  {
    InvHolds(b, events);
    assert LifeAfter(s.trace, n).Some?;
    DecidedOnceIfInsertedOnce(s.trace, n, i, j);
    GrantTakesEntryOut(b, events, s, i);
  }

  /** The step of a grant: it finds the nonce undecided, and right after it the nonce
      is undecided still exactly when that same step left the entry; otherwise the
      nonce is gone. */
  lemma {:induction false} GrantClosesUnlessLeft(b: Binding, events: seq<Event>, s: State, e: Event, h: nat)
    requires Run(b, events) == Some(s) && AtGate(s, h) && e.Persist? && e.h == h && !e.grant.FailedBeforeRename?
    ensures Step(b, s, e).Some?
    ensures var n, t := s.handlers[h].nonce, Step(b, s, e).value;
            && GrantedFor(n, h, e.grant.Written?) in t.trace
            && LifeOf(s.store, n) == Undecided
            && LifeOf(t.store, n) == if LeavesAt(s, e, h) then Undecided else Absent
  {
    InvHolds(b, events);
    var who := s.handlers[h];
    assert EntryInv(b, s.store, who);
    PlansAreForLiveKinds(who.nonce, who.pc.entry, b);
    assert HoldsStore(s, h) <==> s.lock == Some(h);
    var marks := HandlerAct(b, s.store, s.poisoned, h, who, e).value.marks;
    assert (s.trace + marks)[|s.trace|] == marks[0];
  }
}
