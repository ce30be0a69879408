/** How requests, challenge operations and decisions belong together: who made
    which, that nobody shares one, and in which order they came. */
module RemoteLinks {
  import opened Common
  import opened ChallengeStores
  import opened Approvals
  import opened Remotes
  import opened RemoteProofs
  import D = Decisions
  import Proofs = DecisionProofs
  import Runs = DecisionRuns
  import Outcomes = DecisionOutcomes

  ghost function HandlerOf(phase: Phase): Option<nat> {
    if phase.Applied? then Some(phase.handler) else None
  }

  ghost function TurnOf(phase: Phase): Option<nat> {
    if phase.Passed? || phase.PageShown? || phase.LoginMinted? || phase.LoginFull? then Some(phase.turn) else None
  }

  /** A decision request that consumed a challenge. */
  predicate HasSpent(phase: Phase) {
    phase.Spent? || phase.Denied? || phase.Proved? || phase.Applied?
  }

  /** What a step does to a request's own operations: it keeps the ones it has, and
      a new one has the next free number. */
  lemma DeedOps(c: Config, s: Server, req: Request, at: Time, move: Move)
    requires Do(c, s, req, at, move).Some?
    ensures var deed := Do(c, s, req, at, move).value;
            && |deed.action| <= 1 && |deed.login| <= 1
            && (ActionOp(req.phase).Some? ==> ActionOp(deed.phase) == ActionOp(req.phase) && deed.action == [])
            && (ActionOp(req.phase).None? && ActionOp(deed.phase).Some? ==>
                  ActionOp(deed.phase) == Some(|s.actionOps|) && |deed.action| == 1)
            && (LoginOp(req.phase).Some? ==> deed.login == [] && (deed.phase.Refused? || LoginOp(deed.phase) == LoginOp(req.phase)))
            && (LoginOp(req.phase).None? && LoginOp(deed.phase).Some? ==>
                  LoginOp(deed.phase) == Some(|s.loginOps|) && |deed.login| == 1)
  {
  }

  lemma DeedTakesTurns(c: Config, s: Server, req: Request, at: Time, move: Move)
    requires Do(c, s, req, at, move).Some?
    ensures var deed := Do(c, s, req, at, move).value;
            && |deed.turns| <= 1
            && (TurnOf(req.phase).Some? ==> TurnOf(deed.phase) == TurnOf(req.phase) && deed.turns == [])
            && (TurnOf(req.phase).None? && TurnOf(deed.phase).Some? ==> TurnOf(deed.phase) == Some(|s.turns|) && |deed.turns| == 1)
            && (deed.login != [] && deed.login[0].Mint? ==> deed.phase.LoginMinted? || deed.phase.LoginFull?)
            && !req.phase.LoginMinted? && !req.phase.LoginFull?
  {
  }

  lemma DeedActs(c: Config, s: Server, req: Request, at: Time, move: Move)
    requires Do(c, s, req, at, move).Some?
    ensures var deed := Do(c, s, req, at, move).value;
            && (deed.action != [] ==>
                  && (deed.action[0].Mint? ==> deed.phase.Challenged?)
                  && (deed.action[0].Consume? && Accepts(EvictOldest, s.actionOps, deed.action[0]) ==> deed.phase.Spent?))
            && (HasSpent(deed.phase) && !HasSpent(req.phase) ==> deed.phase.Spent? && deed.phase.since == |s.inbox.trace|)
            && (HasSpent(req.phase) ==> HasSpent(deed.phase) && deed.phase.since == req.phase.since)
            && !req.phase.Challenged? && !req.phase.Applied?
            && (deed.begins == [] <==> !deed.phase.Applied?)
            && (deed.phase.Applied? ==>
                  && HasSpent(req.phase) && deed.phase.handler == |s.inbox.handlers|
                  && |deed.begins| == 1 && deed.begins[0].Begin? && deed.begins[0].requester.Remote?)
  {
  }

  // ---------------------------------------------------------------- nothing shared

  ghost predicate Apart(p: Phase, q: Phase) {
    && (ActionOp(p).Some? ==> ActionOp(p) != ActionOp(q))
    && (LoginOp(p).Some? ==> LoginOp(p) != LoginOp(q))
    && (HandlerOf(p).Some? ==> HandlerOf(p) != HandlerOf(q))
    && (TurnOf(p).Some? ==> TurnOf(p) != TurnOf(q))
  }

  ghost predicate ApartInv(s: Server) {
    forall p, q :: 0 <= p < |s.requests| && 0 <= q < |s.requests| && p != q ==>
      Apart(s.requests[p].phase, s.requests[q].phase)
  }

  /** Every number in use is below the next free one. */
  lemma NumbersAreUsed(c: Config, s: Server, r: nat)
    requires RequestsInv(c, s) && r < |s.requests|
    ensures var phase := s.requests[r].phase;
            && (ActionOp(phase).Some? ==> ActionOp(phase).value < |s.actionOps|)
            && (LoginOp(phase).Some? ==> LoginOp(phase).value < |s.loginOps|)
            && (HandlerOf(phase).Some? ==> HandlerOf(phase).value < |s.inbox.handlers|)
            && (TurnOf(phase).Some? ==> TurnOf(phase).value < |s.turns|)
  {
    assert RequestInv(c, s, s.requests[r]);
  }

  lemma MoverStaysApart(c: Config, s: Server, r: nat, at: Time, move: Move, q: nat)
    requires RequestsInv(c, s) && r < |s.requests| && q < |s.requests| && r != q
    requires Apart(s.requests[r].phase, s.requests[q].phase) && Apart(s.requests[q].phase, s.requests[r].phase)
    requires Do(c, s, s.requests[r], at, move).Some?
    ensures var phase := Do(c, s, s.requests[r], at, move).value.phase;
            Apart(phase, s.requests[q].phase) && Apart(s.requests[q].phase, phase)
  {
    NumbersAreUsed(c, s, q);
    DeedOps(c, s, s.requests[r], at, move);
    DeedActs(c, s, s.requests[r], at, move);
    DeedTakesTurns(c, s, s.requests[r], at, move);
  }

  lemma ApartKept(c: Config, s: Server, e: Event)
    requires RequestsInv(c, s) && ApartInv(s) && Step(c, s, e).Some?
    ensures ApartInv(Step(c, s, e).value)
  {
    var t := Step(c, s, e).value;
    forall p, q | 0 <= p < |t.requests| && 0 <= q < |t.requests| && p != q
      ensures Apart(t.requests[p].phase, t.requests[q].phase)
    {
      if e.Handle? {
        assert Apart(s.requests[p].phase, s.requests[q].phase) && Apart(s.requests[q].phase, s.requests[p].phase);
        if e.r == p {
          MoverStaysApart(c, s, p, e.at, e.move, q);
        } else if e.r == q {
          MoverStaysApart(c, s, q, e.at, e.move, p);
        }
      }
    }
  }

  // ---------------------------------------------------------------- everything made

  ghost predicate MintsOp(req: Request, i: nat) {
    req.phase.Challenged? && req.phase.op == i
  }

  ghost predicate SpendsOp(req: Request, i: nat) {
    HasSpent(req.phase) && req.phase.op == i
  }

  ghost predicate Orders(req: Request, h: nat) {
    req.phase.Applied? && req.phase.handler == h
  }

  /** The request asked the login store to mint as operation `i`. */
  ghost predicate AsksMint(req: Request, i: nat) {
    (req.phase.LoginMinted? || req.phase.LoginFull?) && req.phase.op == i
  }

  /** Login mint `i` was made by some request that the limiter let through. */
  ghost predicate LoginMade(s: Server, i: nat)
    requires i < |s.loginOps|
  {
    s.loginOps[i].Mint? ==> exists q :: 0 <= q < |s.requests| && AsksMint(s.requests[q], i)
  }

  /** Operation `i` was made by some request. */
  ghost predicate OpMade(s: Server, i: nat)
    requires i < |s.actionOps|
  {
    if s.actionOps[i].Mint? then exists q :: 0 <= q < |s.requests| && MintsOp(s.requests[q], i)
    else AnswerAt(EvictOldest, s.actionOps, i) ==> exists q :: 0 <= q < |s.requests| && SpendsOp(s.requests[q], i)
  }

  ghost predicate HandlerMade(s: Server, h: nat)
    requires h < |s.inbox.handlers|
  {
    s.inbox.handlers[h].requester.Remote? ==> exists q :: 0 <= q < |s.requests| && Orders(s.requests[q], h)
  }

  ghost predicate MadeInv(s: Server) {
    && (forall i :: 0 <= i < |s.actionOps| ==> OpMade(s, i))
    && (forall h :: 0 <= h < |s.inbox.handlers| ==> HandlerMade(s, h))
    && (forall i :: 0 <= i < |s.loginOps| ==> LoginMade(s, i))
  }

  /** Requests keep what they made. */
  ghost predicate Keeps(s: Server, t: Server) {
    && Grows(s, t)
    && forall q :: 0 <= q < |s.requests| ==>
         && (s.requests[q].phase.Challenged? ==> t.requests[q] == s.requests[q])
         && (s.requests[q].phase.Applied? ==> t.requests[q] == s.requests[q])
         && (s.requests[q].phase.LoginMinted? || s.requests[q].phase.LoginFull? ==> t.requests[q] == s.requests[q])
         && (HasSpent(s.requests[q].phase) ==>
               HasSpent(t.requests[q].phase) && t.requests[q].phase.op == s.requests[q].phase.op
               && t.requests[q].phase.since == s.requests[q].phase.since)
  }

  lemma StepKeeps(c: Config, s: Server, e: Event)
    requires Step(c, s, e).Some?
    ensures Keeps(s, Step(c, s, e).value)
  {
    StepGrows(c, s, e);
    if e.Handle? {
      DeedOps(c, s, s.requests[e.r], e.at, e.move);
      DeedActs(c, s, s.requests[e.r], e.at, e.move);
      DeedTakesTurns(c, s, s.requests[e.r], e.at, e.move);
    }
  }

  lemma LoginMadeStays(s: Server, t: Server, i: nat)
    requires Keeps(s, t) && i < |s.loginOps| && LoginMade(s, i)
    ensures LoginMade(t, i)
  {
    if s.loginOps[i].Mint? {
      var q :| 0 <= q < |s.requests| && AsksMint(s.requests[q], i);
      assert AsksMint(t.requests[q], i);
    }
  }

  lemma LoginOpsMade(c: Config, s: Server, e: Event, i: nat)
    requires MadeInv(s) && Step(c, s, e).Some? && i < |Step(c, s, e).value.loginOps|
    ensures LoginMade(Step(c, s, e).value, i)
  {
    var t := Step(c, s, e).value;
    if i < |s.loginOps| {
      StepKeeps(c, s, e);
      LoginMadeStays(s, t, i);
    } else {
      DeedOps(c, s, s.requests[e.r], e.at, e.move);
      DeedTakesTurns(c, s, s.requests[e.r], e.at, e.move);
      if t.loginOps[i].Mint? {
        assert AsksMint(t.requests[e.r], i);
      }
    }
  }

  lemma OpMadeStays(s: Server, t: Server, i: nat)
    requires Keeps(s, t) && i < |s.actionOps| && OpMade(s, i)
    ensures OpMade(t, i)
  {
    AnswerStays(EvictOldest, s.actionOps, t.actionOps, i);
    if s.actionOps[i].Mint? {
      var q :| 0 <= q < |s.requests| && MintsOp(s.requests[q], i);
      assert MintsOp(t.requests[q], i);
    } else if AnswerAt(EvictOldest, s.actionOps, i) {
      var q :| 0 <= q < |s.requests| && SpendsOp(s.requests[q], i);
      assert SpendsOp(t.requests[q], i);
    }
  }

  lemma NewOpMade(c: Config, s: Server, r: nat, at: Time, move: Move)
    requires r < |s.requests| && s.now <= at && Do(c, s, s.requests[r], at, move).Some?
    requires Do(c, s, s.requests[r], at, move).value.action != []
    ensures var t := After(s, r, at, Do(c, s, s.requests[r], at, move).value);
            |t.actionOps| == |s.actionOps| + 1 && OpMade(t, |s.actionOps|)
  {
    var deed := Do(c, s, s.requests[r], at, move).value;
    var t := After(s, r, at, deed);
    DeedOps(c, s, s.requests[r], at, move);
    DeedActs(c, s, s.requests[r], at, move);
    var i := |s.actionOps|;
    assert s.actionOps + deed.action == s.actionOps + [deed.action[0]];
    AnswerOfLast(EvictOldest, s.actionOps, deed.action[0]);
    if deed.action[0].Mint? {
      assert MintsOp(t.requests[r], i);
    } else if AnswerAt(EvictOldest, t.actionOps, i) {
      assert SpendsOp(t.requests[r], i);
    }
  }

  lemma HandlerMadeStays(s: Server, t: Server, h: nat)
    requires Keeps(s, t) && h < |s.inbox.handlers| && HandlerMade(s, h)
    ensures HandlerMade(t, h)
  {
    if s.inbox.handlers[h].requester.Remote? {
      var q :| 0 <= q < |s.requests| && Orders(s.requests[q], h);
      assert Orders(t.requests[q], h);
    }
  }

  lemma InboxAddsLocal(b: Binding, s: D.State, e: D.Event)
    requires D.Step(b, s, e).Some? && !(e.Begin? && e.requester.Remote?)
    ensures forall h :: |s.handlers| <= h < |D.Step(b, s, e).value.handlers| ==>
              !D.Step(b, s, e).value.handlers[h].requester.Remote?
  {
    Proofs.StepFrame(b, s, e);
  }

  lemma HandlersMade(c: Config, s: Server, e: Event)
    requires MadeInv(s) && Step(c, s, e).Some?
    ensures var t := Step(c, s, e).value;
            forall h :: 0 <= h < |t.inbox.handlers| ==> HandlerMade(t, h)
  {
    var t := Step(c, s, e).value;
    StepKeeps(c, s, e);
    if e.Handle? {
      DeedActs(c, s, s.requests[e.r], e.at, e.move);
    }
    forall h | 0 <= h < |t.inbox.handlers| ensures HandlerMade(t, h) {
      if h < |s.inbox.handlers| {
        HandlerMadeStays(s, t, h);
      } else if e.Inbox? {
        InboxAddsLocal(c.binding, s.inbox, e.event);
      } else {
        assert Orders(t.requests[e.r], h);
      }
    }
  }

  lemma OpsMade(c: Config, s: Server, e: Event, i: nat)
    requires MadeInv(s) && Step(c, s, e).Some? && i < |Step(c, s, e).value.actionOps|
    ensures OpMade(Step(c, s, e).value, i)
  {
    if i < |s.actionOps| {
      StepKeeps(c, s, e);
      OpMadeStays(s, Step(c, s, e).value, i);
    } else {
      NewOpMade(c, s, e.r, e.at, e.move);
    }
  }

  lemma MadeKept(c: Config, s: Server, e: Event)
    requires MadeInv(s) && Step(c, s, e).Some?
    ensures MadeInv(Step(c, s, e).value)
  {
    HandlersMade(c, s, e);
    forall i | 0 <= i < |Step(c, s, e).value.actionOps| ensures OpMade(Step(c, s, e).value, i) {
      OpsMade(c, s, e, i);
    }
    forall i | 0 <= i < |Step(c, s, e).value.loginOps| ensures LoginMade(Step(c, s, e).value, i) {
      LoginOpsMade(c, s, e, i);
    }
  }

  // ------------------------------------------------------------------------- order

  /** A challenge minted before another was spent was looked at before it too; and
      a decision has no effect from before its challenge was spent. */
  ghost predicate OrderInv(s: Server) {
    && (forall q, r :: 0 <= q < |s.requests| && 0 <= r < |s.requests| && s.requests[q].phase.Challenged?
                       && HasSpent(s.requests[r].phase) && s.requests[q].phase.op < s.requests[r].phase.op
          ==> s.requests[q].phase.seen <= s.requests[r].phase.since)
    && (forall r :: 0 <= r < |s.requests| && s.requests[r].phase.Applied? ==> NoEffectBefore(s, s.requests[r].phase))
  }

  ghost predicate NoEffectBefore(s: Server, phase: Phase)
    requires phase.Applied?
  {
    forall i :: 0 <= i < phase.since && i < |s.inbox.trace| ==> !Outcomes.EffectOf(s.inbox.trace[i], phase.handler)
  }

  /** Only a handler that exists has had effects. */
  lemma NewHandlerHasNoEffect(c: Config, s: Server, i: nat)
    requires InboxInv(c, s) && i < |s.inbox.trace|
    ensures !Outcomes.EffectOf(s.inbox.trace[i], |s.inbox.handlers|)
  {
    Runs.InvHolds(c.binding, s.inboxEvents);
    assert Outcomes.MarkInv(s.inbox.handlers, s.inbox.trace[i]);
  }

  lemma EffectsKept(c: Config, s: Server, e: Event, r: nat)
    requires InboxInv(c, s) && RequestsInv(c, s) && OrderInv(s) && Step(c, s, e).Some?
    requires var t := Step(c, s, e).value;
             r < |t.requests| && t.requests[r].phase.Applied?
    ensures NoEffectBefore(Step(c, s, e).value, Step(c, s, e).value.requests[r].phase)
  {
    var t := Step(c, s, e).value;
    StepKeeps(c, s, e);
    assert forall i :: 0 <= i < |s.inbox.trace| ==> t.inbox.trace[i] == s.inbox.trace[i];
    assert r < |s.requests|;
    TraceBounds(c, s, r);
    if s.requests[r].phase.Applied? {
      assert NoEffectBefore(s, s.requests[r].phase);
    } else {
      DeedActs(c, s, s.requests[r], e.at, e.move);
      forall i | 0 <= i < |s.inbox.trace| ensures !Outcomes.EffectOf(s.inbox.trace[i], |s.inbox.handlers|) {
        NewHandlerHasNoEffect(c, s, i);
      }
    }
  }

  /** What was read or spent, was so when the trace was no longer than now. */
  lemma TraceBounds(c: Config, s: Server, r: nat)
    requires RequestsInv(c, s) && r < |s.requests|
    ensures var phase := s.requests[r].phase;
            && (phase.Looked? || phase.Challenged? ==> phase.seen <= |s.inbox.trace|)
            && (HasSpent(phase) ==> phase.since <= |s.inbox.trace|)
  {
    assert RequestInv(c, s, s.requests[r]);
  }

  lemma SeenBeforeSpent(c: Config, s: Server, e: Event, q: nat, r: nat)
    requires RequestsInv(c, s) && OrderInv(s) && Step(c, s, e).Some?
    requires var t := Step(c, s, e).value;
             && q < |t.requests| && r < |t.requests| && t.requests[q].phase.Challenged? && HasSpent(t.requests[r].phase)
             && t.requests[q].phase.op < t.requests[r].phase.op
    ensures var t := Step(c, s, e).value;
            t.requests[q].phase.seen <= t.requests[r].phase.since
  {
    StepKeeps(c, s, e);
    assert q < |s.requests| && r < |s.requests|;
    TraceBounds(c, s, q);
    NumbersAreUsed(c, s, r);
    if e.Handle? && (e.r == q || e.r == r) {
      DeedOps(c, s, s.requests[e.r], e.at, e.move);
      DeedActs(c, s, s.requests[e.r], e.at, e.move);
    }
  }

  lemma OrderKept(c: Config, s: Server, e: Event)
    requires InboxInv(c, s) && RequestsInv(c, s) && OrderInv(s) && Step(c, s, e).Some?
    ensures OrderInv(Step(c, s, e).value)
  {
    var t := Step(c, s, e).value;
    forall q, r | 0 <= q < |t.requests| && 0 <= r < |t.requests| && t.requests[q].phase.Challenged?
                  && HasSpent(t.requests[r].phase) && t.requests[q].phase.op < t.requests[r].phase.op
      ensures t.requests[q].phase.seen <= t.requests[r].phase.since
    {
      SeenBeforeSpent(c, s, e, q, r);
    }
    forall r | 0 <= r < |t.requests| && t.requests[r].phase.Applied? ensures NoEffectBefore(t, t.requests[r].phase) {
      EffectsKept(c, s, e, r);
    }
  }
}
