/** What every interleaving of the decision seam keeps. */
module DecisionProofs {
  import opened Common
  import opened ChallengeStores
  import opened Approvals
  import opened Decisions
  import opened Lifecycles

  // --------------------------------------------------------------------- framing

  /** The handler an event moves. */
  ghost function Mover(e: Event): Option<nat> {
    match e
    case Begin(_, _, _) => None
    case ForeignPoison => None
    case Outside(_) => None
    case _ => Some(e.h)
  }

  /** A step moves at most its own handler, never changes what a handler was asked,
      and only adds to the trace. */
  lemma StepFrame(b: Binding, s: State, e: Event)
    requires Step(b, s, e).Some?
    ensures var t := Step(b, s, e).value;
            && |s.handlers| <= |t.handlers|
            && (Mover(e).Some? ==> Mover(e).value < |s.handlers| && |t.handlers| == |s.handlers|)
            && (forall k :: 0 <= k < |s.handlers| && Mover(e) != Some(k) ==> t.handlers[k] == s.handlers[k])
            && (forall k :: 0 <= k < |s.handlers| ==>
                  && t.handlers[k].nonce == s.handlers[k].nonce && t.handlers[k].requester == s.handlers[k].requester
                  && t.handlers[k].approve == s.handlers[k].approve)
            && s.trace <= t.trace
  {
  }

  // ----------------------------------------------------------------------- locks

  ghost predicate HoldsStore(s: State, h: nat) {
    h < |s.handlers| && s.handlers[h].pc.HoldsStore()
  }

  ghost predicate HoldsWriter(s: State, h: nat) {
    h < |s.handlers| && s.handlers[h].pc.HoldsWriter()
  }

  /** Each lock is held by exactly the handlers whose place in the code says so. */
  ghost predicate LocksInv(s: State) {
    && (forall h: nat :: HoldsStore(s, h) <==> s.lock == Some(h))
    && (forall h: nat :: HoldsWriter(s, h) <==> s.writer == Some(h))
  }

  /** Whoever moves, a lock goes where the code says. */
  lemma LockOf(before: Option<nat>, h: nat, holds: bool, k: nat, held: bool)
    requires CanHold(before, h, holds) && (held <==> before == Some(k))
    ensures Holder(before, h, holds) == Some(k) <==> if k == h then holds else held
  {
  }

  lemma HandlerKeepsLocks(b: Binding, s: State, h: nat, e: Event, k: nat)
    requires LocksInv(s) && Mover(e) == Some(h) && Step(b, s, e).Some?
    ensures var t := Step(b, s, e).value;
            (HoldsStore(t, k) <==> t.lock == Some(k)) && (HoldsWriter(t, k) <==> t.writer == Some(k))
  {
    var pc := HandlerAct(b, s.store, s.poisoned, h, s.handlers[h], e).value.pc;
    assert HoldsStore(s, k) <==> s.lock == Some(k);
    assert HoldsWriter(s, k) <==> s.writer == Some(k);
    LockOf(s.lock, h, pc.HoldsStore(), k, HoldsStore(s, k));
    LockOf(s.writer, h, pc.HoldsWriter(), k, HoldsWriter(s, k));
  }

  lemma LocksKept(b: Binding, s: State, e: Event)
    requires LocksInv(s) && Step(b, s, e).Some?
    ensures LocksInv(Step(b, s, e).value)
  {
    var t := Step(b, s, e).value;
    forall k: nat
      ensures (HoldsStore(t, k) <==> t.lock == Some(k)) && (HoldsWriter(t, k) <==> t.writer == Some(k))
    {
      if Mover(e).Some? {
        HandlerKeepsLocks(b, s, Mover(e).value, e, k);
      } else {
        assert HoldsStore(s, k) <==> s.lock == Some(k);
        assert HoldsWriter(s, k) <==> s.writer == Some(k);
      }
    }
  }

  // --------------------------------------------------------------------- entries

  /** What a handler that holds the store lock knows about its entry. */
  ghost predicate EntryInv(b: Binding, store: Store, who: Handler) {
    match who.pc
    case ApproveChecked(e, _, plan, now) => PrepareAttest(store, who.nonce, e, b, Some(now)) == Ok(plan)
    case ApproveLogged(e, plan, now) => PrepareAttest(store, who.nonce, e, b, Some(now)) == Ok(plan)
    case RejectReady(e, _, _) => who.nonce in store && store[who.nonce] == e && Pending(e)
    case RejectWithWriter(e, _, _) => who.nonce in store && store[who.nonce] == e && Pending(e)
    case RejectLogged(e, _) => who.nonce in store && store[who.nonce] == e && Pending(e)
    case _ => true
  }

  ghost predicate EntriesInv(b: Binding, s: State) {
    forall h :: 0 <= h < |s.handlers| ==> EntryInv(b, s.store, s.handlers[h])
  }

  lemma ActKeepsEntry(b: Binding, store: Store, poisoned: bool, h: nat, who: Handler, e: Event)
    requires EntryInv(b, store, who) && HandlerAct(b, store, poisoned, h, who, e).Some?
    ensures var act := HandlerAct(b, store, poisoned, h, who, e).value;
            EntryInv(b, act.store, who.(pc := act.pc))
  {
  }

  /** A handler writes the store only while it holds the lock. */
  lemma ActWritesUnderLock(b: Binding, store: Store, poisoned: bool, h: nat, who: Handler, e: Event)
    requires HandlerAct(b, store, poisoned, h, who, e).Some?
    ensures HandlerAct(b, store, poisoned, h, who, e).value.store != store ==> who.pc.HoldsStore()
  {
  }

  /** What the lock holder knows stays true until it lets go: nobody else writes. */
  lemma EntriesKept(b: Binding, s: State, e: Event)
    requires LocksInv(s) && EntriesInv(b, s) && Step(b, s, e).Some?
    ensures EntriesInv(b, Step(b, s, e).value)
  {
    StepFrame(b, s, e);
    var t := Step(b, s, e).value;
    if Mover(e).Some? {
      var h := Mover(e).value;
      ActKeepsEntry(b, s.store, s.poisoned, h, s.handlers[h], e);
      ActWritesUnderLock(b, s.store, s.poisoned, h, s.handlers[h], e);
      assert HoldsStore(s, h) <==> s.lock == Some(h);
    }
    forall k | 0 <= k < |t.handlers| ensures EntryInv(b, t.store, t.handlers[k]) {
      assert HoldsStore(s, k) <==> s.lock == Some(k);
    }
  }

  // ------------------------------------------------------------------- lifecycle

  /** For every nonce the history so far is legal and ends where the store is. */
  ghost predicate LifeInv(s: State) {
    forall n: Nonce :: LifeAfter(s.trace, n) == Some(LifeOf(s.store, n))
  }

  ghost function LifeMarks(l: Option<Stage>, marks: seq<Mark>, n: Nonce): Option<Stage>
    decreases |marks|
  {
    if marks == [] || l.None? then l else LifeMarks(LifeStep(l.value, marks[0], n), marks[1..], n)
  }

  lemma {:induction false} LifeAppends(trace: seq<Mark>, marks: seq<Mark>, n: Nonce)
    ensures LifeAfter(trace + marks, n) == LifeMarks(LifeAfter(trace, n), marks, n)
    decreases |marks|
  {
    if marks == [] {
      assert trace + marks == trace;
    } else {
      LifeAppend(trace, marks[0], n);
      LifeAppends(trace + [marks[0]], marks[1..], n);
      assert trace + [marks[0]] + marks[1..] == trace + marks;
      if LifeAfter(trace, n).None? {
        IllegalStays(marks[1..], n);
      }
    }
  }

  lemma IllegalStays(marks: seq<Mark>, n: Nonce)
    ensures LifeMarks(None, marks, n) == None
  {
  }

  /** A handler's marks tell exactly what it did to the store. */
  lemma ActTellsLife(b: Binding, store: Store, poisoned: bool, h: nat, who: Handler, e: Event, n: Nonce)
    requires EntryInv(b, store, who) && HandlerAct(b, store, poisoned, h, who, e).Some?
    ensures var act := HandlerAct(b, store, poisoned, h, who, e).value;
            LifeMarks(Some(LifeOf(store, n)), act.marks, n) == Some(LifeOf(act.store, n))
  {
    var act := HandlerAct(b, store, poisoned, h, who, e).value;
    if |act.marks| == 1 {
      OneMark(Some(LifeOf(store, n)), act.marks, n);
    } else if |act.marks| == 2 {
      TwoMarks(Some(LifeOf(store, n)), act.marks, n);
    }
    if who.pc.ApproveLogged? {
      PlansAreForLiveKinds(who.nonce, who.pc.entry, b);
    }
  }

  lemma OneMark(l: Option<Stage>, marks: seq<Mark>, n: Nonce)
    requires |marks| == 1 && l.Some?
    ensures LifeMarks(l, marks, n) == LifeStep(l.value, marks[0], n)
  {
    assert marks[1..] == [];
  }

  lemma TwoMarks(l: Option<Stage>, marks: seq<Mark>, n: Nonce)
    requires |marks| == 2 && l.Some? && LifeStep(l.value, marks[0], n).Some?
    ensures LifeMarks(l, marks, n) == LifeStep(LifeStep(l.value, marks[0], n).value, marks[1], n)
  {
    OneMark(LifeStep(l.value, marks[0], n), marks[1..], n);
  }

  /** So do the marks of another process. */
  lemma OutsideTellsLife(store: Store, op: OutsideOp, n: Nonce)
    ensures LifeMarks(Some(LifeOf(store, n)), OutsideMarks(store, op), n)
         == Some(LifeOf(OutsideResult(store, op), n))
  {
    var marks := OutsideMarks(store, op);
    if |marks| == 1 {
      OneMark(Some(LifeOf(store, n)), marks, n);
    } else if |marks| == 2 {
      TwoMarks(Some(LifeOf(store, n)), marks, n);
    }
  }

  lemma LifeKept(b: Binding, s: State, e: Event)
    requires EntriesInv(b, s) && LifeInv(s) && Step(b, s, e).Some?
    ensures LifeInv(Step(b, s, e).value)
  {
    StepFrame(b, s, e);
    var t := Step(b, s, e).value;
    forall n: Nonce ensures LifeAfter(t.trace, n) == Some(LifeOf(t.store, n)) {
      match e
      case Begin(_, _, _) =>
      case ForeignPoison =>
        LifeAppends(s.trace, [Poisoned], n);
        OneMark(Some(LifeOf(s.store, n)), [Poisoned], n);
      case Outside(op) =>
        LifeAppends(s.trace, OutsideMarks(s.store, op), n);
        OutsideTellsLife(s.store, op, n);
      case _ =>
        var who := s.handlers[e.h];
        var act := HandlerAct(b, s.store, s.poisoned, e.h, who, e).value;
        LifeAppends(s.trace, act.marks, n);
        ActTellsLife(b, s.store, s.poisoned, e.h, who, e, n);
    }
  }

  // ------------------------------------------------------------ rows before effects

  ghost predicate HasRow(trace: seq<Mark>, h: nat, n: Nonce, approve: bool) {
    exists i :: 0 <= i < |trace| && trace[i].Row? && trace[i].handler == h
                && trace[i].nonce == n && trace[i].approve == approve
  }

  /** An effect of an inbox handler needs that handler's row before it. */
  ghost predicate Backed(past: seq<Mark>, m: Mark) {
    match m
    case AttestedOn(n, _, Some(h), _) => HasRow(past, h, n, true)
    case RejectedOn(n, Some(h), _) => HasRow(past, h, n, false)
    case RemovedFrom(ns, Some(h), _) => forall n :: n in ns ==> HasRow(past, h, n, true)
    case GrantedFor(n, h, _) => HasRow(past, h, n, true)
    case _ => true
  }

  ghost predicate AllBacked(trace: seq<Mark>) {
    forall j :: 0 <= j < |trace| ==> Backed(trace[..j], trace[j])
  }

  /** A handler past its row has it. */
  ghost predicate RowInv(trace: seq<Mark>, h: nat, who: Handler) {
    && (who.pc.ApproveLogged? ==> HasRow(trace, h, who.nonce, true))
    && (who.pc.RejectLogged? ==> HasRow(trace, h, who.nonce, false))
  }

  ghost predicate RowsInv(s: State) {
    AllBacked(s.trace) && forall h :: 0 <= h < |s.handlers| ==> RowInv(s.trace, h, s.handlers[h])
  }

  lemma RowStays(trace: seq<Mark>, more: seq<Mark>, h: nat, n: Nonce, approve: bool)
    requires HasRow(trace, h, n, approve)
    ensures HasRow(trace + more, h, n, approve)
  {
    var i :| 0 <= i < |trace| && trace[i].Row? && trace[i].handler == h
             && trace[i].nonce == n && trace[i].approve == approve;
    assert (trace + more)[i] == trace[i];
  }

  lemma BackedStays(past: seq<Mark>, more: seq<Mark>, m: Mark)
    requires Backed(past, m)
    ensures Backed(past + more, m)
  {
    match m
    case AttestedOn(n, _, Some(h), _) => RowStays(past, more, h, n, true);
    case RejectedOn(n, Some(h), _) => RowStays(past, more, h, n, false);
    case RemovedFrom(ns, Some(h), _) =>
      forall n | n in ns ensures HasRow(past + more, h, n, true) {
        RowStays(past, more, h, n, true);
      }
    case GrantedFor(n, h, _) => RowStays(past, more, h, n, true);
    case _ =>
  }

  lemma BackedAppend(trace: seq<Mark>, more: seq<Mark>)
    requires AllBacked(trace) && forall j :: 0 <= j < |more| ==> Backed(trace, more[j])
    ensures AllBacked(trace + more)
  {
    var all := trace + more;
    forall j | 0 <= j < |all| ensures Backed(all[..j], all[j]) {
      if j < |trace| {
        assert all[..j] == trace[..j];
      } else {
        BackedStays(trace, more[..j - |trace|], more[j - |trace|]);
        assert all[..j] == trace + more[..j - |trace|];
      }
    }
  }

  /** What a handler does is backed by its row, and its row is there when it says so. */
  lemma ActIsBacked(b: Binding, store: Store, poisoned: bool, h: nat, who: Handler, e: Event, trace: seq<Mark>)
    requires RowInv(trace, h, who) && HandlerAct(b, store, poisoned, h, who, e).Some?
    ensures var act := HandlerAct(b, store, poisoned, h, who, e).value;
            && (forall j :: 0 <= j < |act.marks| ==> Backed(trace, act.marks[j]))
            && RowInv(trace + act.marks, h, who.(pc := act.pc))
  {
    var act := HandlerAct(b, store, poisoned, h, who, e).value;
    if act.pc.ApproveLogged? || act.pc.RejectLogged? {
      var row := act.marks[0];
      assert (trace + act.marks)[|trace|] == row;
    }
  }

  /** The row of a handler that does not move stays. */
  lemma RowInvStays(trace: seq<Mark>, more: seq<Mark>, k: nat, who: Handler)
    requires RowInv(trace, k, who)
    ensures RowInv(trace + more, k, who)
  {
    if who.pc.ApproveLogged? {
      RowStays(trace, more, k, who.nonce, true);
    }
    if who.pc.RejectLogged? {
      RowStays(trace, more, k, who.nonce, false);
    }
  }

  lemma RowsKept(b: Binding, s: State, e: Event)
    requires RowsInv(s) && Step(b, s, e).Some?
    ensures RowsInv(Step(b, s, e).value)
  {
    StepFrame(b, s, e);
    var t := Step(b, s, e).value;
    var more := t.trace[|s.trace|..];
    assert t.trace == s.trace + more;
    if Mover(e).Some? {
      var h := Mover(e).value;
      ActIsBacked(b, s.store, s.poisoned, h, s.handlers[h], e, s.trace);
      assert more == HandlerAct(b, s.store, s.poisoned, h, s.handlers[h], e).value.marks;
    } else {
      assert forall j :: 0 <= j < |more| ==> Backed(s.trace, more[j]);
    }
    BackedAppend(s.trace, more);
    forall k | 0 <= k < |t.handlers| ensures RowInv(t.trace, k, t.handlers[k]) {
      if k < |s.handlers| && Mover(e) != Some(k) {
        RowInvStays(s.trace, more, k, s.handlers[k]);
      }
    }
  }
}
