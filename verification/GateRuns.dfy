/** When a granted gate can be decided again: exactly when its grant left the entry. */
module GateRuns {
  import opened Common
  import opened ChallengeStores
  import opened Approvals
  import opened Decisions
  import opened Lifecycles
  import opened DecisionProofs
  import opened DecisionOutcomes
  import opened DecisionRuns
  import opened DecisionGates
  import opened Inboxes
  import opened InboxRuns

  /** In `u` the nonce is decided at `j`, at or after `k`, with no insertion since `k`. */
  ghost predicate DecidedFrom(u: State, k: nat, j: nat, n: Nonce) {
    k <= j < |u.trace| && DecidesOn(u.trace[j], n) && forall i :: k <= i < j ==> !InsertsAs(u.trace[i], n)
  }

  /** The run so far can go on so that the nonce is decided once more. */
  ghost predicate CanBeDecided(b: Binding, events: seq<Event>, k: nat, n: Nonce) {
    exists more, u, j :: Run(b, events + more) == Some(u) && DecidedFrom(u, k, j, n)
  }

  lemma {:induction false} TraceGrows(b: Binding, events: seq<Event>, more: seq<Event>)
    requires Run(b, events + more).Some?
    ensures Run(b, events).Some? && Run(b, events).value.trace <= Run(b, events + more).value.trace
    decreases |more|
  {
    if more == [] {
      assert events + more == events;
    } else {
      var m := |more| - 1;
      assert (events + more)[..|events + more| - 1] == events + more[..m];
      TraceGrows(b, events, more[..m]);
      StepFrame(b, Run(b, events + more[..m]).value, more[m]);
    }
  }

  /** A nonce that is not undecided is not decided again without a new insertion. */
  lemma {:induction false} ClosedIsNotDecided(b: Binding, events: seq<Event>, t: State, more: seq<Event>, u: State, j: nat, n: Nonce)
    requires Run(b, events) == Some(t) && !LifeOf(t.store, n).Undecided? && Run(b, events + more) == Some(u)
    ensures !DecidedFrom(u, |t.trace|, j, n)
  {
    InvHolds(b, events);
    InvHolds(b, events + more);
    TraceGrows(b, events, more);
    assert LifeAfter(t.trace, n) == Some(LifeOf(t.store, n));
    assert LifeAfter(u.trace, n).Some?;
    if DecidedFrom(u, |t.trace|, j, n) {
      assert u.trace[..|t.trace|] == t.trace;
      StaysDecided(u.trace, n, |t.trace|, j);
      DecisionFindsUndecided(u.trace, n, j);
    }
  }

  /** The owner rejects it, with nothing failing. */
  function Willing(owner: string): RejectWorld {
    RejectWorld(Opens, Some(owner), Some(0), true, true, Written)
  }

  /** Whatever is undecided in an idle state can be rejected. */
  lemma {:induction false} UndecidedCanBeDecided(b: Binding, events: seq<Event>, t: State, n: Nonce)
    requires Run(b, events) == Some(t) && t.lock.None? && t.writer.None? && !t.poisoned
    requires n in t.store && Pending(t.store[n])
    ensures CanBeDecided(b, events, |t.trace|, n)
  {
    var h := |t.handlers|;
    var solo := Solo(b, false, h, n, false, Local);
    var w := Willing(t.store[n].uid);
    var more, u := RejectIsRun(solo, events, t, w);
    assert RejectReachesRow(t.store, false, n, Local, w);
    assert u.handlers[h].pc.outcome == WasRejected;
    SuccessIsReal(b, events + more, u, h);
    RejectedIsNew(b, events, t, more, u, h, n);
  }

  /** The rejection found in the longer trace is by the new handler, so it is new. */
  lemma {:induction false} RejectedIsNew(
      b: Binding, events: seq<Event>, t: State, more: seq<Event>, u: State, h: nat, n: Nonce)
    requires Run(b, events) == Some(t) && h == |t.handlers| && t.trace <= u.trace
    requires Run(b, events + more) == Some(u)
    requires RejectedOn(n, Some(h), true) in u.trace && NoInsert(u.trace[|t.trace|..], n)
    ensures CanBeDecided(b, events, |t.trace|, n)
  {
    InvHolds(b, events);
    var j :| 0 <= j < |u.trace| && u.trace[j] == RejectedOn(n, Some(h), true);
    assert Quiet(t.trace, h);
    assert j >= |t.trace|;
    var fresher := u.trace[|t.trace|..];
    assert forall i :: |t.trace| <= i < |u.trace| ==> u.trace[i] == fresher[i - |t.trace|];
    assert DecidedFrom(u, |t.trace|, j, n);
  }

  /** After the step of a grant, in any run, its nonce can be decided again without a
      new insertion exactly when that same step left the entry. */
  lemma {:induction false} GrantedAgainExactlyIfLeft(b: Binding, events: seq<Event>, s: State, e: Event, h: nat)
    requires Run(b, events) == Some(s) && AtGate(s, h) && e.Persist? && e.h == h && !e.grant.FailedBeforeRename?
    ensures Step(b, s, e).Some?
    ensures CanBeDecided(b, events + [e], |Step(b, s, e).value.trace|, s.handlers[h].nonce) <==> LeavesAt(s, e, h)
  {
    GrantClosesUnlessLeft(b, events, s, e, h);
    var n, t := s.handlers[h].nonce, Step(b, s, e).value;
    assert (events + [e])[..|events|] == events;
    assert Run(b, events + [e]) == Some(t);
    if LeavesAt(s, e, h) {
      GranterLetsGo(b, events, s, e, h);
      UndecidedCanBeDecided(b, events + [e], t, n);
    } else if CanBeDecided(b, events + [e], |t.trace|, n) {
      var more, u, j :| Run(b, events + [e] + more) == Some(u) && DecidedFrom(u, |t.trace|, j, n);
      ClosedIsNotDecided(b, events + [e], t, more, u, j, n);
    }
  }

  lemma {:induction false} GranterLetsGo(b: Binding, events: seq<Event>, s: State, e: Event, h: nat)
    requires Run(b, events) == Some(s) && LeavesAt(s, e, h) && Step(b, s, e).Some?
    ensures var t := Step(b, s, e).value;
            t.lock.None? && t.writer.None? && !t.poisoned
  {
    InvHolds(b, events);
    assert HoldsStore(s, h) <==> s.lock == Some(h);
    assert HoldsWriter(s, h) <==> s.writer == Some(h);
  }
}
