/** Each call of the inbox is a run of the decision seam: the handler's own steps,
    with other processes acting only while it does not hold the store. The run
    ends in what the call's contract promises, so the guarantees over all runs
    are guarantees about these calls. */
module InboxRuns {
  import opened Common
  import opened ChallengeStores
  import opened Approvals
  import opened Decisions
  import opened DecisionPaths
  import opened Lifecycles
  import opened DecisionOutcomes
  import opened Inboxes

  // ------------------------------------------------------------ one handler alone

  /** A handler `h` on its own, as far as it got. */
  datatype Solo = Solo(b: Binding, poisoned: bool, h: nat, nonce: Nonce, approve: bool, requester: Requester)
  {
    function Who(pc: Pc): Handler {
      Handler(nonce, approve, requester, pc)
    }

    function Begins(store: Store): Act {
      Act(if approve then ApproveOpening else RejectOpening, store, [], false)
    }

    function Next(c: Act, e: Event): Option<Act> {
      match e
      case Outside(op) =>
        if c.pc.HoldsStore() then None
        else Some(Act(c.pc, OutsideResult(c.store, op), c.marks + OutsideMarks(c.store, op), false))
      case Begin(_, _, _) => None
      case ForeignPoison => None
      case Panic(_) => None
      case _ =>
        match HandlerAct(b, c.store, poisoned, h, Who(c.pc), e)
        case None => None
        case Some(a) => if e.h == h then Some(Act(a.pc, a.store, c.marks + a.marks, false)) else None
    }
  }

  ghost predicate Moved(solo: Solo, c: Act, e: Event, d: Act) {
    && solo.Next(c, e).Some? && !d.poisons
    && solo.Next(c, e).value.pc == d.pc && solo.Next(c, e).value.store == d.store && solo.Next(c, e).value.marks == d.marks
  }

  /** State `s` with the handler added, having done `c`. */
  ghost function With(solo: Solo, s: State, c: Act): State {
    State(c.store, if c.pc.HoldsStore() then Some(solo.h) else None, if c.pc.HoldsWriter() then Some(solo.h) else None,
          s.poisoned, s.handlers + [solo.Who(c.pc)], s.trace + c.marks)
  }

  ghost predicate Idle(solo: Solo, s: State) {
    s.lock.None? && s.writer.None? && s.poisoned == solo.poisoned && |s.handlers| == solo.h
  }

  lemma OnlyPanicPoisons(b: Binding, store: Store, poisoned: bool, h: nat, who: Handler, e: Event)
    requires HandlerAct(b, store, poisoned, h, who, e).Some? && !e.Panic?
    ensures !HandlerAct(b, store, poisoned, h, who, e).value.poisons
  {
  }

  lemma HandlerLeads(solo: Solo, s: State, c: Act, e: Event, d: Act)
    requires Idle(solo, s) && Moved(solo, c, e, d) && !e.Outside?
    ensures Leads(solo.b, With(solo, s, c), e, With(solo, s, d))
  {
    var t, h := With(solo, s, c), solo.h;
    var act := HandlerAct(solo.b, c.store, solo.poisoned, h, solo.Who(c.pc), e).value;
    OnlyPanicPoisons(solo.b, c.store, solo.poisoned, h, solo.Who(c.pc), e);
    assert t.trace + act.marks == s.trace + d.marks;
    assert t.handlers[h := t.handlers[h].(pc := d.pc)] == With(solo, s, d).handlers;
    Moves(solo.b, t, h, e, With(solo, s, d));
  }

  lemma MovedLeads(solo: Solo, s: State, c: Act, e: Event, d: Act)
    requires Idle(solo, s) && Moved(solo, c, e, d)
    ensures Leads(solo.b, With(solo, s, c), e, With(solo, s, d))
  {
    if e.Outside? {
      assert With(solo, s, c).trace + OutsideMarks(c.store, e.op) == s.trace + d.marks;
    } else {
      HandlerLeads(solo, s, c, e, d);
    }
  }

  ghost predicate MovedAt(solo: Solo, acts: seq<Act>, events: seq<Event>, i: int)
    requires 0 <= i < |events| == |acts| - 1
  {
    Moved(solo, acts[i], events[i], acts[i + 1])
  }

  ghost predicate SoloPath(solo: Solo, acts: seq<Act>, events: seq<Event>) {
    |acts| == |events| + 1 && forall i :: 0 <= i < |events| ==> MovedAt(solo, acts, events, i)
  }

  lemma SoloExtends(solo: Solo, acts: seq<Act>, events: seq<Event>, e: Event, d: Act)
    requires SoloPath(solo, acts, events) && Moved(solo, acts[|events|], e, d)
    ensures SoloPath(solo, acts + [d], events + [e])
  {
    var aa, es := acts + [d], events + [e];
    forall i | 0 <= i < |es| ensures MovedAt(solo, aa, es, i) {
      if i < |events| {
        assert MovedAt(solo, acts, events, i);
      }
    }
  }

  lemma BeginLeads(solo: Solo, s: State)
    requires Idle(solo, s)
    ensures Leads(solo.b, s, Begin(solo.nonce, solo.approve, solo.requester), With(solo, s, solo.Begins(s.store)))
  {
    assert s.trace + [] == s.trace;
  }

  /** What the handler does alone, the seam does, from any idle state of any run. */
  lemma {:induction false} SoloIsPath(
      solo: Solo, states: seq<State>, past: seq<Event>, acts: seq<Act>, events: seq<Event>) returns (all: seq<State>)
    requires Path(solo.b, states, past) && Idle(solo, states[|past|])
    requires SoloPath(solo, acts, events) && acts[0] == solo.Begins(states[|past|].store)
    ensures Path(solo.b, all, past + [Begin(solo.nonce, solo.approve, solo.requester)] + events)
    ensures all[|all| - 1] == With(solo, states[|past|], acts[|events|])
    decreases |events|
  {
    var s := states[|past|];
    var begin := Begin(solo.nonce, solo.approve, solo.requester);
    if events == [] {
      BeginLeads(solo, s);
      PathExtends(solo.b, states, past, begin, With(solo, s, acts[0]));
      all := states + [With(solo, s, acts[0])];
      assert past + [begin] + events == past + [begin];
    } else {
      var k := |events| - 1;
      var aa, es := acts[..k + 1], events[..k];
      forall i | 0 <= i < k ensures MovedAt(solo, aa, es, i) {
        assert MovedAt(solo, acts, events, i);
      }
      all := SoloIsPath(solo, states, past, aa, es);
      assert MovedAt(solo, acts, events, k);
      MovedLeads(solo, s, acts[k], events[k], acts[k + 1]);
      PathExtends(solo.b, all, past + [begin] + es, events[k], With(solo, s, acts[k + 1]));
      all := all + [With(solo, s, acts[k + 1])];
      assert past + [begin] + events == past + [begin] + es + [events[k]];
    }
  }

  // ------------------------------------------------------------------ log of marks

  /** The rows and grants among the marks. */
  function Said(marks: seq<Mark>): seq<Mark> {
    if marks == [] then []
    else (if marks[0].Row? || marks[0].GrantedFor? then [marks[0]] else []) + Said(marks[1..])
  }

  lemma {:induction false} SaidConcat(s: seq<Mark>, t: seq<Mark>)
    ensures Said(s + t) == Said(s) + Said(t)
  {
    if s == [] {
      assert s + t == t;
    } else {
      SaidConcat(s[1..], t);
      assert (s + t)[1..] == s[1..] + t;
    }
  }

  lemma SaidOne(m: Mark)
    ensures Said([m]) == if m.Row? || m.GrantedFor? then [m] else []
  {
    assert [m][1..] == [];
  }

  /** The handler got from the start to `c`. */
  ghost predicate GotTo(solo: Solo, store: Store, acts: seq<Act>, events: seq<Event>, c: Act) {
    SoloPath(solo, acts, events) && acts[0] == solo.Begins(store) && acts[|events|] == c
  }

  lemma Started(solo: Solo, store: Store)
    ensures GotTo(solo, store, [solo.Begins(store)], [], solo.Begins(store))
  {
  }

  lemma GoesOn(solo: Solo, store: Store, acts: seq<Act>, events: seq<Event>, c: Act, e: Event, d: Act)
    requires GotTo(solo, store, acts, events, c) && Moved(solo, c, e, d)
    ensures GotTo(solo, store, acts + [d], events + [e], d)
  {
    SoloExtends(solo, acts, events, e, d);
  }

  // -------------------------------------------------------------------- rejection

  /** The one row a rejection writes, if it gets that far. */
  ghost function RejectSays(solo: Solo, store: Store, w: RejectWorld): seq<Mark> {
    if RejectRows(store, solo.poisoned, solo.nonce, solo.requester, w) == [] then []
    else [Row(solo.h, solo.nonce, false, CredentialOf(solo.requester))]
  }

  ghost predicate RejectEnds(solo: Solo, store: Store, w: RejectWorld, c: Act) {
    && c.pc.Finished?
    && RejectContract(store, solo.poisoned, solo.nonce, solo.requester, w, c.pc.outcome, c.store)
    && Said(c.marks) == RejectSays(solo, store, w) && NoInsert(c.marks, solo.nonce)
  }

  /** A rejection up to its look at the entry. */
  lemma RejectLooks(solo: Solo, store: Store, w: RejectWorld) returns (acts: seq<Act>, events: seq<Event>, c: Act)
    requires !solo.approve
    ensures GotTo(solo, store, acts, events, c)
    ensures RejectEnds(solo, store, w, c)
            || (&& RejectLooked(solo, store, w)
                && c == Act(RejectReady(store[solo.nonce], CredentialOf(solo.requester), w.clock.value), store, [], false))
  {
    var c0 := solo.Begins(store);
    Started(solo, store);
    acts, events := [c0], [];
    if !w.opening.Opens? {
      var e := OpenFails(solo.h, w.opening.StaysLocked?);
      c := Act(Finished(if w.opening.StaysLocked? then Busy else Unavailable), store, [], false);
      GoesOn(solo, store, acts, events, c0, e, c);
      acts, events := acts + [c], events + [e];
    } else {
      var c1 := Act(RejectOpened, store, [], false);
      GoesOn(solo, store, acts, events, c0, Open(solo.h), c1);
      acts, events := acts + [c1], events + [Open(solo.h)];
      var e := Inspect(solo.h, w.uid, w.clock);
      c := InspectMoves(solo, store, w);
      GoesOn(solo, store, acts, events, c1, e, c);
      acts, events := acts + [c], events + [e];
    }
  }

  lemma InspectMoves(solo: Solo, store: Store, w: RejectWorld) returns (c: Act)
    requires !solo.approve && w.opening.Opens?
    ensures Moved(solo, Act(RejectOpened, store, [], false), Inspect(solo.h, w.uid, w.clock), c)
    ensures RejectEnds(solo, store, w, c)
            || (&& RejectLooked(solo, store, w)
                && c == Act(RejectReady(store[solo.nonce], CredentialOf(solo.requester), w.clock.value), store, [], false))
  {
    var pc := ActInspect(store, solo.Who(RejectOpened), w.uid, w.clock).value.pc;
    c := Act(pc, store, [], false);
  }

  /** The rejection is entitled and its entry pending. */
  ghost predicate RejectLooked(solo: Solo, store: Store, w: RejectWorld) {
    && !solo.approve && w.opening.Opens? && w.clock.Some? && solo.nonce in store && Pending(store[solo.nonce])
    && MayDecide(solo.requester, w.uid, solo.nonce, store[solo.nonce].uid)
  }

  lemma RejectLocks(solo: Solo, store: Store, w: RejectWorld, acts: seq<Act>, events: seq<Event>) returns (c: Act)
    requires RejectLooked(solo, store, w)
    requires var e := store[solo.nonce];
             GotTo(solo, store, acts, events, Act(RejectReady(e, CredentialOf(solo.requester), w.clock.value), store, [], false))
    ensures GotTo(solo, store, acts + [c], events + [LockWriter(solo.h)], c)
    ensures if solo.poisoned then RejectEnds(solo, store, w, c)
            else c == Act(RejectWithWriter(store[solo.nonce], CredentialOf(solo.requester), w.clock.value), store, [], false)
  {
    var e, now, cred := store[solo.nonce], w.clock.value, CredentialOf(solo.requester);
    c := Act(if solo.poisoned then Finished(Unavailable) else RejectWithWriter(e, cred, now), store, [], false);
    GoesOn(solo, store, acts, events, Act(RejectReady(e, cred, now), store, [], false), LockWriter(solo.h), c);
  }

  lemma RejectLogs(solo: Solo, store: Store, w: RejectWorld, acts: seq<Act>, events: seq<Event>) returns (c: Act)
    requires RejectLooked(solo, store, w) && !solo.poisoned
    requires var e := store[solo.nonce];
             GotTo(solo, store, acts, events, Act(RejectWithWriter(e, CredentialOf(solo.requester), w.clock.value), store, [], false))
    ensures GotTo(solo, store, acts + [c], events + [WriteRow(solo.h, w.accepted, w.landed)], c)
    ensures if !w.accepted then RejectEnds(solo, store, w, c)
            else c == Act(RejectLogged(store[solo.nonce], w.clock.value), store,
                          [Row(solo.h, solo.nonce, false, CredentialOf(solo.requester))], false)
  {
    var e, now, cred := store[solo.nonce], w.clock.value, CredentialOf(solo.requester);
    var row := Row(solo.h, solo.nonce, false, cred);
    SaidOne(row);
    c := Act(if w.accepted then RejectLogged(e, now) else Finished(Unavailable), store,
             if w.accepted || w.landed then [row] else [], false);
    GoesOn(solo, store, acts, events, Act(RejectWithWriter(e, cred, now), store, [], false), WriteRow(solo.h, w.accepted, w.landed), c);
  }

  lemma RejectPersists(solo: Solo, store: Store, w: RejectWorld, acts: seq<Act>, events: seq<Event>) returns (c: Act)
    requires RejectLooked(solo, store, w) && !solo.poisoned && w.accepted
    requires GotTo(solo, store, acts, events, Act(RejectLogged(store[solo.nonce], w.clock.value), store,
                   [Row(solo.h, solo.nonce, false, CredentialOf(solo.requester))], false))
    ensures GotTo(solo, store, acts + [c], events + [Persist(solo.h, w.disk, Written)], c)
    ensures RejectEnds(solo, store, w, c)
  {
    var e, now := store[solo.nonce], w.clock.value;
    var row := Row(solo.h, solo.nonce, false, CredentialOf(solo.requester));
    var mark := RejectedOn(solo.nonce, Some(solo.h), w.disk.Written?);
    SaidConcat([row], [mark]);
    SaidOne(row);
    SaidOne(mark);
    c := if w.disk.FailedBeforeRename? then Act(Finished(Unavailable), store, [row], false)
         else Act(Finished(if w.disk.Written? then WasRejected else Unavailable),
                  store[solo.nonce := RejectTombstone(e, now)], [row] + [mark], false);
    GoesOn(solo, store, acts, events, Act(RejectLogged(e, now), store, [row], false), Persist(solo.h, w.disk, Written), c);
  }

  /** And from there to its end. */
  lemma RejectCommits(solo: Solo, store: Store, w: RejectWorld, looked: seq<Act>, before: seq<Event>, c0: Act)
      returns (acts: seq<Act>, events: seq<Event>, c: Act)
    requires GotTo(solo, store, looked, before, c0) && RejectLooked(solo, store, w)
    requires c0 == Act(RejectReady(store[solo.nonce], CredentialOf(solo.requester), w.clock.value), store, [], false)
    ensures GotTo(solo, store, acts, events, c) && RejectEnds(solo, store, w, c)
  {
    acts, events := looked, before;
    c := RejectLocks(solo, store, w, acts, events);
    acts, events := acts + [c], events + [LockWriter(solo.h)];
    if !solo.poisoned {
      c := RejectLogs(solo, store, w, acts, events);
      acts, events := acts + [c], events + [WriteRow(solo.h, w.accepted, w.landed)];
      if w.accepted {
        c := RejectPersists(solo, store, w, acts, events);
        acts, events := acts + [c], events + [Persist(solo.h, w.disk, Written)];
      }
    }
  }

  /** Where the seam is once the handler has finished. */
  ghost predicate AddsOne(solo: Solo, s: State, t: State, c: Act) {
    && t.lock.None? && t.writer.None? && t.poisoned == s.poisoned && t.store == c.store
    && |t.handlers| == solo.h + 1 && t.handlers[..solo.h] == s.handlers && t.handlers[solo.h] == solo.Who(c.pc)
    && s.trace <= t.trace && t.trace[|s.trace|..] == c.marks
  }

  lemma FinishedState(solo: Solo, s: State, c: Act)
    requires Idle(solo, s) && c.pc.Finished?
    ensures AddsOne(solo, s, With(solo, s, c), c)
  {
  }

  /** What the handler did alone, from the start to its end, is a run. */
  lemma SoloEnds(solo: Solo, past: seq<Event>, s: State, acts: seq<Act>, moves: seq<Event>, c: Act)
      returns (events: seq<Event>, t: State)
    requires Run(solo.b, past) == Some(s) && Idle(solo, s)
    requires GotTo(solo, s.store, acts, moves, c) && c.pc.Finished?
    ensures Run(solo.b, past + events) == Some(t) && AddsOne(solo, s, t, c)
  {
    var states := RunHasPath(solo.b, past);
    var all := SoloIsPath(solo, states, past, acts, moves);
    var begin := Begin(solo.nonce, solo.approve, solo.requester);
    events := [begin] + moves;
    assert past + events == past + [begin] + moves;
    PathIsRun(solo.b, all, past + events);
    FinishedState(solo, s, c);
    t := all[|past + events|];
  }

  /** A call of `ApplyReject` is a run: from any idle state of any run, the seam has a
      run that adds just this rejection and ends in the answer, the store and the row
      of the call, which its contract fixes. */
  lemma RejectIsRun(solo: Solo, past: seq<Event>, s: State, w: RejectWorld) returns (events: seq<Event>, t: State)
    requires !solo.approve && Run(solo.b, past) == Some(s) && Idle(solo, s)
    ensures Run(solo.b, past + events) == Some(t)
    ensures t.lock.None? && t.writer.None? && t.poisoned == s.poisoned && s.trace <= t.trace
    ensures |t.handlers| == solo.h + 1 && t.handlers[..solo.h] == s.handlers
    ensures t.handlers[solo.h].pc.Finished? && t.handlers[solo.h] == solo.Who(t.handlers[solo.h].pc)
    ensures RejectContract(s.store, s.poisoned, solo.nonce, solo.requester, w, t.handlers[solo.h].pc.outcome, t.store)
    ensures forall o, after :: RejectContract(s.store, s.poisoned, solo.nonce, solo.requester, w, o, after) ==>
              t.handlers[solo.h].pc.outcome == o && t.store == after
    ensures Said(t.trace[|s.trace|..]) == RejectSays(solo, s.store, w) && NoInsert(t.trace[|s.trace|..], solo.nonce)
  {
    var acts, moves, c := RejectLooks(solo, s.store, w);
    if !RejectEnds(solo, s.store, w, c) {
      acts, moves, c := RejectCommits(solo, s.store, w, acts, moves, c);
    }
    events, t := SoloEnds(solo, past, s, acts, moves, c);
    forall o, after | RejectContract(s.store, s.poisoned, solo.nonce, solo.requester, w, o, after)
      ensures t.handlers[solo.h].pc.outcome == o && t.store == after
    {
      RejectContractIsExact(s.store, s.poisoned, solo.nonce, solo.requester, w,
                            t.handlers[solo.h].pc.outcome, t.store, o, after);
    }
  }
}
