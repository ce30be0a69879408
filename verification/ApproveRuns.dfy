/** A call of `ApplyApprove` is a run of the decision seam, with other processes
    acting on the store in the gap between its two openings. */
module ApproveRuns {
  import opened Common
  import opened ChallengeStores
  import opened Approvals
  import opened Decisions
  import opened DecisionOutcomes
  import opened Inboxes
  import opened InboxRuns

  /** The row and the grant an approval leaves, once the entry is found ready or not. */
  ghost function PersistSays(solo: Solo, ready: bool, gate: bool, w: ApproveWorld): seq<Mark> {
    (if ready && (w.accepted || w.landed) then [Row(solo.h, solo.nonce, true, CredentialOf(solo.requester))] else [])
    + (if ready && w.accepted && gate && !w.grant.FailedBeforeRename?
       then [GrantedFor(solo.nonce, solo.h, w.grant.Written?)] else [])
  }

  ghost function ApproveSays(solo: Solo, store: Store, w: ApproveWorld): seq<Mark> {
    var ready := ApproveReachesRow(solo.b, store, solo.poisoned, solo.nonce, solo.requester, w);
    PersistSays(solo, ready, ready && store[solo.nonce].kind.ToolsetFirstInvokeGate?, w)
  }

  ghost predicate ApproveEnds(solo: Solo, store: Store, w: ApproveWorld, c: Act) {
    && c.pc.Finished?
    && ApproveContract(solo.b, store, solo.poisoned, solo.nonce, solo.requester, w, c.pc.outcome, c.store)
    && Said(c.marks) == ApproveSays(solo, store, w)
  }

  // -------------------------------------------------------------------- first look

  lemma ValidateMoves(solo: Solo, store: Store, w: ApproveWorld) returns (c: Act)
    requires solo.approve && w.opening.Opens?
    ensures Moved(solo, Act(ApproveOpened, store, [], false), Validate(solo.h, w.uid, w.clock), c)
    ensures ApproveEnds(solo, store, w, c)
            || (&& ApproveReachesGap(store, solo.nonce, solo.requester, w.(keyLoads := true))
                && c == Act(ApproveLoadingKey(store[solo.nonce], CredentialOf(solo.requester)), store, [], false))
  {
    var pc := ActValidate(store, solo.Who(ApproveOpened), w.uid, w.clock).value.pc;
    c := Act(pc, store, [], false);
  }

  lemma KeyMoves(solo: Solo, store: Store, w: ApproveWorld) returns (c: Act)
    requires solo.approve && ApproveReachesGap(store, solo.nonce, solo.requester, w.(keyLoads := true))
    ensures Moved(solo, Act(ApproveLoadingKey(store[solo.nonce], CredentialOf(solo.requester)), store, [], false),
                  LoadKey(solo.h, w.keyLoads), c)
    ensures if w.keyLoads
            then c == Act(ApproveReopening(store[solo.nonce], CredentialOf(solo.requester)), store, [], false)
            else ApproveEnds(solo, store, w, c)
  {
    c := Act(if w.keyLoads then ApproveReopening(store[solo.nonce], CredentialOf(solo.requester)) else Finished(Unavailable),
             store, [], false);
  }

  /** An approval up to the point where it does not hold the store. */
  lemma ApproveLooks(solo: Solo, store: Store, w: ApproveWorld) returns (acts: seq<Act>, events: seq<Event>, c: Act)
    requires solo.approve
    ensures GotTo(solo, store, acts, events, c)
    ensures ApproveEnds(solo, store, w, c)
            || (&& ApproveReachesGap(store, solo.nonce, solo.requester, w)
                && c == Act(ApproveReopening(store[solo.nonce], CredentialOf(solo.requester)), store, [], false))
  {
    var h, c0 := solo.h, solo.Begins(store);
    Started(solo, store);
    acts, events := [c0], [];
    if !w.opening.Opens? {
      var e := OpenFails(h, w.opening.StaysLocked?);
      c := Act(Finished(if w.opening.StaysLocked? then Busy else Unavailable), store, [], false);
      GoesOn(solo, store, acts, events, c0, e, c);
      acts, events := acts + [c], events + [e];
    } else {
      var c1 := Act(ApproveOpened, store, [], false);
      GoesOn(solo, store, acts, events, c0, Open(h), c1);
      acts, events := acts + [c1], events + [Open(h)];
      c := ValidateMoves(solo, store, w);
      GoesOn(solo, store, acts, events, c1, Validate(h, w.uid, w.clock), c);
      acts, events := acts + [c], events + [Validate(h, w.uid, w.clock)];
      if !ApproveEnds(solo, store, w, c) {
        var c3 := KeyMoves(solo, store, w);
        GoesOn(solo, store, acts, events, c, LoadKey(h, w.keyLoads), c3);
        acts, events, c := acts + [c3], events + [LoadKey(h, w.keyLoads)], c3;
      }
    }
  }

  // ----------------------------------------------------------------------- the gap

  lemma OutsideSaysNothing(store: Store, op: OutsideOp)
    ensures Said(OutsideMarks(store, op)) == []
  {
    SaysNothing(OutsideMarks(store, op));
  }

  lemma {:induction false} SaysNothing(marks: seq<Mark>)
    requires forall m :: m in marks ==> !m.Row? && !m.GrantedFor?
    ensures Said(marks) == []
  {
    if marks != [] {
      SaysNothing(marks[1..]);
    }
  }

  lemma {:induction false} GapMoves(
      solo: Solo, store: Store, pc: Pc, ops: seq<OutsideOp>, acts: seq<Act>, events: seq<Event>)
      returns (acts2: seq<Act>, events2: seq<Event>, c: Act)
    requires !pc.HoldsStore() && GotTo(solo, store, acts, events, Act(pc, store, [], false))
    ensures GotTo(solo, store, acts2, events2, c)
    ensures c.pc == pc && c.store == Afterwards(store, ops) && Said(c.marks) == [] && !c.poisons
    decreases |ops|
  {
    if ops == [] {
      acts2, events2, c := acts, events, Act(pc, store, [], false);
    } else {
      var op := ops[|ops| - 1];
      acts2, events2, c := GapMoves(solo, store, pc, ops[..|ops| - 1], acts, events);
      var d := Act(pc, OutsideResult(c.store, op), c.marks + OutsideMarks(c.store, op), false);
      OutsideSaysNothing(c.store, op);
      SaidConcat(c.marks, OutsideMarks(c.store, op));
      GoesOn(solo, store, acts2, events2, c, Outside(op), d);
      acts2, events2, c := acts2 + [d], events2 + [Outside(op)], d;
    }
  }

  // ------------------------------------------------------------ under the writer

  /** The part under the re-opened lock ends as its contract says. */
  ghost predicate PersistEnds(solo: Solo, before: Store, entry: Approval, w: ApproveWorld, c: Act) {
    && c.pc.Finished? && PersistContract(solo.b, before, solo.nonce, entry, w, c.pc.outcome, c.store)
    && Said(c.marks) == PersistSays(solo, ReadyToAttest(solo.b, before, solo.nonce, entry, w), entry.kind.ToolsetFirstInvokeGate?, w)
  }

  /** The second look either refuses as the contract says or finds the entry ready. */
  lemma CheckMeetsContract(b: Binding, store: Store, nonce: Nonce, entry: Approval, w: ApproveWorld)
    ensures var plan := PrepareAttest(store, nonce, entry, b, w.laterClock);
            if plan.Ok? then ReadyToAttest(b, store, nonce, entry, w) && PlanFor(nonce, entry, b) == plan
            else && !ReadyToAttest(b, store, nonce, entry, w)
                 && PersistContract(b, store, nonce, entry, w, AttestOutcome(store, nonce, plan.error), store)
  {
  }

  lemma CheckMoves(solo: Solo, from: Act, entry: Approval, w: ApproveWorld) returns (c: Act)
    requires from.pc == ApproveWithWriter(entry, CredentialOf(solo.requester)) && Said(from.marks) == []
    ensures Moved(solo, from, Check(solo.h, w.laterClock), c)
    ensures PersistEnds(solo, from.store, entry, w, c)
            || (&& ReadyToAttest(solo.b, from.store, solo.nonce, entry, w) && PlanFor(solo.nonce, entry, solo.b).Ok?
                && c == from.(pc := ApproveChecked(entry, CredentialOf(solo.requester),
                                                   PlanFor(solo.nonce, entry, solo.b).value, w.laterClock.value), poisons := false))
  {
    CheckMeetsContract(solo.b, from.store, solo.nonce, entry, w);
    var plan := PrepareAttest(from.store, solo.nonce, entry, solo.b, w.laterClock);
    var pc := if plan.Ok? then ApproveChecked(entry, CredentialOf(solo.requester), plan.value, w.laterClock.value)
              else Finished(AttestOutcome(from.store, solo.nonce, plan.error));
    c := Act(pc, from.store, from.marks, false);
  }

  lemma LogMoves(solo: Solo, from: Act, entry: Approval, plan: Plan, w: ApproveWorld) returns (c: Act)
    requires ReadyToAttest(solo.b, from.store, solo.nonce, entry, w) && Said(from.marks) == []
    requires from.pc == ApproveChecked(entry, CredentialOf(solo.requester), plan, w.laterClock.value)
    ensures Moved(solo, from, WriteRow(solo.h, w.accepted, w.landed), c)
    ensures if !w.accepted then PersistEnds(solo, from.store, entry, w, c)
            else && c.pc == ApproveLogged(entry, plan, w.laterClock.value) && c.store == from.store
                 && Said(c.marks) == [Row(solo.h, solo.nonce, true, CredentialOf(solo.requester))]
  {
    var row := Row(solo.h, solo.nonce, true, CredentialOf(solo.requester));
    SaidOne(row);
    var marks := from.marks + (if w.accepted || w.landed then [row] else []);
    SaidConcat(from.marks, if w.accepted || w.landed then [row] else []);
    c := Act(if w.accepted then ApproveLogged(entry, plan, w.laterClock.value) else Finished(Unavailable), from.store, marks, false);
  }

  ghost function GrantSaid(solo: Solo, entry: Approval, w: ApproveWorld): seq<Mark> {
    if entry.kind.ToolsetFirstInvokeGate? && !w.grant.FailedBeforeRename?
    then [GrantedFor(solo.nonce, solo.h, w.grant.Written?)] else []
  }

  /** The one thing the write says is a published grant. */
  lemma PersistSaysGrant(solo: Solo, from: Act, entry: Approval, plan: Plan, w: ApproveWorld, act: Act)
    requires PlanFor(solo.nonce, entry, solo.b) == Ok(plan) && from.pc.ApproveLogged? && from.pc.entry == entry && from.pc.plan == plan
    requires ActPersist(from.store, solo.h, solo.Who(from.pc), w.disk, w.grant) == Some(act)
    ensures !act.poisons && Said(act.marks) == GrantSaid(solo, entry, w)
  {
    PlansAreForLiveKinds(solo.nonce, entry, solo.b);
    if plan.GrantAndRemove? && !w.grant.FailedBeforeRename? {
      var g := act.marks[0];
      assert act.marks == [g] + act.marks[1..];
      SaidConcat([g], act.marks[1..]);
      SaidOne(g);
      SaysNothing(act.marks[1..]);
    } else {
      SaysNothing(act.marks);
    }
  }

  /** What the write does, by plan. */
  lemma PersistMeetsContract(solo: Solo, from: Act, entry: Approval, plan: Plan, w: ApproveWorld) returns (act: Act)
    requires ReadyToAttest(solo.b, from.store, solo.nonce, entry, w) && PlanFor(solo.nonce, entry, solo.b) == Ok(plan)
    requires w.accepted && from.pc == ApproveLogged(entry, plan, w.laterClock.value)
    ensures ActPersist(from.store, solo.h, solo.Who(from.pc), w.disk, w.grant) == Some(act)
    ensures act.pc.Finished? && PersistContract(solo.b, from.store, solo.nonce, entry, w, act.pc.outcome, act.store)
  {
    act := ActPersist(from.store, solo.h, solo.Who(from.pc), w.disk, w.grant).value;
    PlansAreForLiveKinds(solo.nonce, entry, solo.b);
    if plan.RecordBlob? {
      AttestedDigestIsChallengeDigest(solo.nonce, entry, solo.b);
    }
  }

  lemma PersistMoves(solo: Solo, from: Act, entry: Approval, plan: Plan, w: ApproveWorld) returns (c: Act)
    requires ReadyToAttest(solo.b, from.store, solo.nonce, entry, w) && PlanFor(solo.nonce, entry, solo.b) == Ok(plan)
    requires w.accepted && from.pc == ApproveLogged(entry, plan, w.laterClock.value)
    requires Said(from.marks) == [Row(solo.h, solo.nonce, true, CredentialOf(solo.requester))]
    ensures Moved(solo, from, Persist(solo.h, w.disk, w.grant), c)
    ensures PersistEnds(solo, from.store, entry, w, c)
  {
    var act := PersistMeetsContract(solo, from, entry, plan, w);
    PersistSaysGrant(solo, from, entry, plan, w, act);
    c := Act(act.pc, act.store, from.marks + act.marks, false);
    SaidConcat(from.marks, act.marks);
  }

  lemma AttestAndPersistMoves(
      solo: Solo, store: Store, entry: Approval, w: ApproveWorld, acts: seq<Act>, events: seq<Event>, from: Act)
      returns (acts2: seq<Act>, events2: seq<Event>, c: Act)
    requires GotTo(solo, store, acts, events, from) && Said(from.marks) == []
    requires from.pc == ApproveWithWriter(entry, CredentialOf(solo.requester))
    ensures GotTo(solo, store, acts2, events2, c) && PersistEnds(solo, from.store, entry, w, c)
  {
    c := CheckMoves(solo, from, entry, w);
    GoesOn(solo, store, acts, events, from, Check(solo.h, w.laterClock), c);
    acts2, events2 := acts + [c], events + [Check(solo.h, w.laterClock)];
    if !PersistEnds(solo, from.store, entry, w, c) {
      var plan := PlanFor(solo.nonce, entry, solo.b).value;
      var d := LogMoves(solo, c, entry, plan, w);
      var e := WriteRow(solo.h, w.accepted, w.landed);
      GoesOn(solo, store, acts2, events2, c, e, d);
      acts2, events2, c := acts2 + [d], events2 + [e], d;
      if w.accepted {
        d := PersistMoves(solo, c, entry, plan, w);
        e := Persist(solo.h, w.disk, w.grant);
        GoesOn(solo, store, acts2, events2, c, e, d);
        acts2, events2, c := acts2 + [d], events2 + [e], d;
      }
    }
  }

  // --------------------------------------------------------------------- the whole

  lemma ReopenMoves(solo: Solo, store: Store, w: ApproveWorld, from: Act) returns (c: Act)
    requires ApproveReachesGap(store, solo.nonce, solo.requester, w)
    requires from.pc == ApproveReopening(store[solo.nonce], CredentialOf(solo.requester))
    requires from.store == Afterwards(store, w.gap) && Said(from.marks) == []
    ensures Moved(solo, from, if w.reopening.Opens? then Open(solo.h) else OpenFails(solo.h, w.reopening.StaysLocked?), c)
    ensures if w.reopening.Opens?
            then c == Act(ApproveReopened(store[solo.nonce], CredentialOf(solo.requester)), from.store, from.marks, false)
            else ApproveEnds(solo, store, w, c)
  {
    c := Act(if w.reopening.Opens? then ApproveReopened(store[solo.nonce], CredentialOf(solo.requester))
             else Finished(if w.reopening.StaysLocked? then Busy else Unavailable), from.store, from.marks, false);
  }

  lemma LockMoves(solo: Solo, store: Store, w: ApproveWorld, from: Act) returns (c: Act)
    requires ApproveReachesGap(store, solo.nonce, solo.requester, w) && w.reopening.Opens?
    requires from.pc == ApproveReopened(store[solo.nonce], CredentialOf(solo.requester))
    requires from.store == Afterwards(store, w.gap) && Said(from.marks) == []
    ensures Moved(solo, from, LockWriter(solo.h), c)
    ensures if solo.poisoned then ApproveEnds(solo, store, w, c)
            else c == Act(ApproveWithWriter(store[solo.nonce], CredentialOf(solo.requester)), from.store, from.marks, false)
  {
    c := Act(if solo.poisoned then Finished(Unavailable)
             else ApproveWithWriter(store[solo.nonce], CredentialOf(solo.requester)), from.store, from.marks, false);
  }

  /** The contract of the part under the lock is the rest of the call's contract. */
  lemma PersistEndsApprove(solo: Solo, store: Store, w: ApproveWorld, before: Store, c: Act)
    requires ApproveReachesGap(store, solo.nonce, solo.requester, w) && w.reopening.Opens? && !solo.poisoned
    requires before == Afterwards(store, w.gap) && PersistEnds(solo, before, store[solo.nonce], w, c)
    ensures ApproveEnds(solo, store, w, c)
  {
  }

  /** From the gap to the end. */
  lemma ApproveCommits(solo: Solo, store: Store, w: ApproveWorld, looked: seq<Act>, before: seq<Event>, from: Act)
      returns (acts: seq<Act>, events: seq<Event>, c: Act)
    requires ApproveReachesGap(store, solo.nonce, solo.requester, w) && GotTo(solo, store, looked, before, from)
    requires from.pc == ApproveReopening(store[solo.nonce], CredentialOf(solo.requester))
    requires from.store == Afterwards(store, w.gap) && Said(from.marks) == []
    ensures GotTo(solo, store, acts, events, c) && ApproveEnds(solo, store, w, c)
  {
    var e := if w.reopening.Opens? then Open(solo.h) else OpenFails(solo.h, w.reopening.StaysLocked?);
    c := ReopenMoves(solo, store, w, from);
    GoesOn(solo, store, looked, before, from, e, c);
    acts, events := looked + [c], before + [e];
    if w.reopening.Opens? {
      var d := LockMoves(solo, store, w, c);
      GoesOn(solo, store, acts, events, c, LockWriter(solo.h), d);
      acts, events, c := acts + [d], events + [LockWriter(solo.h)], d;
      if !solo.poisoned {
        acts, events, c := AttestAndPersistMoves(solo, store, store[solo.nonce], w, acts, events, c);
        PersistEndsApprove(solo, store, w, from.store, c);
      }
    }
  }

  /** A call of `ApplyApprove` is a run: from any idle state of any run, the seam has a
      run that adds this approval and the other processes' operations in its gap, and
      ends in the answer, the store, the row and the grant of the call, which its
      contract fixes. */
  lemma ApproveIsRun(solo: Solo, past: seq<Event>, s: State, w: ApproveWorld) returns (events: seq<Event>, t: State)
    requires solo.approve && Run(solo.b, past) == Some(s) && Idle(solo, s)
    ensures Run(solo.b, past + events) == Some(t)
    ensures t.lock.None? && t.writer.None? && t.poisoned == s.poisoned && s.trace <= t.trace
    ensures |t.handlers| == solo.h + 1 && t.handlers[..solo.h] == s.handlers
    ensures t.handlers[solo.h].pc.Finished? && t.handlers[solo.h] == solo.Who(t.handlers[solo.h].pc)
    ensures ApproveContract(solo.b, s.store, s.poisoned, solo.nonce, solo.requester, w, t.handlers[solo.h].pc.outcome, t.store)
    ensures forall o, after :: ApproveContract(solo.b, s.store, s.poisoned, solo.nonce, solo.requester, w, o, after) ==>
              t.handlers[solo.h].pc.outcome == o && t.store == after
    ensures Said(t.trace[|s.trace|..]) == ApproveSays(solo, s.store, w)
  {
    var acts, moves, c := ApproveLooks(solo, s.store, w);
    if !ApproveEnds(solo, s.store, w, c) {
      acts, moves, c := GapMoves(solo, s.store, c.pc, w.gap, acts, moves);
      acts, moves, c := ApproveCommits(solo, s.store, w, acts, moves, c);
    }
    events, t := SoloEnds(solo, past, s, acts, moves, c);
    forall o, after | ApproveContract(solo.b, s.store, s.poisoned, solo.nonce, solo.requester, w, o, after)
      ensures t.handlers[solo.h].pc.outcome == o && t.store == after
    {
      ApproveContractIsExact(solo.b, s.store, s.poisoned, solo.nonce, solo.requester, w,
                             t.handlers[solo.h].pc.outcome, t.store, o, after);
    }
  }
}
