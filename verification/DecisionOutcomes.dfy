/** What a decision's answer says about the store, who may cause an effect, and
    what a poisoned audit writer still lets through. */
module DecisionOutcomes {
  import opened Common
  import opened ChallengeStores
  import opened Approvals
  import opened Decisions
  import opened DecisionProofs

  // --------------------------------------------------------------------- effects

  /** A mark of handler `h` having changed the store. */
  ghost predicate StoreEffectOf(m: Mark, h: nat) {
    match m
    case AttestedOn(_, _, author, _) => author == Some(h)
    case RejectedOn(_, author, _) => author == Some(h)
    case RemovedFrom(_, author, _) => author == Some(h)
    case _ => false
  }

  /** A mark of handler `h` having had any effect, a grant included. */
  ghost predicate EffectOf(m: Mark, h: nat) {
    StoreEffectOf(m, h) || (m.GrantedFor? && m.handler == h)
  }

  ghost predicate Synced(m: Mark) {
    match m
    case AttestedOn(_, _, _, synced) => synced
    case RejectedOn(_, _, synced) => synced
    case RemovedFrom(_, _, synced) => synced
    case GrantedFor(_, _, synced) => synced
    case _ => true
  }

  /** The store never changes under a handler's step without a mark saying so. */
  lemma ChangeIsMarked(b: Binding, store: Store, poisoned: bool, h: nat, who: Handler, e: Event)
    requires HandlerAct(b, store, poisoned, h, who, e).Some?
    ensures var act := HandlerAct(b, store, poisoned, h, who, e).value;
            act.store != store ==> exists j :: 0 <= j < |act.marks| && StoreEffectOf(act.marks[j], h)
  {
    var act := HandlerAct(b, store, poisoned, h, who, e).value;
    if act.store != store {
      assert StoreEffectOf(act.marks[|act.marks| - 1], h);
    }
  }

  // -------------------------------------------------------------------- outcomes

  ghost predicate Quiet(trace: seq<Mark>, h: nat) {
    forall j :: 0 <= j < |trace| ==> !EffectOf(trace[j], h)
  }

  /** What a finished decision's answer promises about its own effects. */
  ghost predicate AnswerIsTrue(trace: seq<Mark>, h: nat, n: Nonce, o: Outcome) {
    match o
    case Attested(Some(blob), _) => AttestedOn(n, blob, Some(h), true) in trace
    case Attested(None, _) =>
      GrantedFor(n, h, true) in trace || exists blob :: AttestedOn(n, blob, Some(h), true) in trace
    case WasRejected => RejectedOn(n, Some(h), true) in trace
    case _ => forall j :: 0 <= j < |trace| && EffectOf(trace[j], h) ==> !Synced(trace[j]) && o == Unavailable
  }

  ghost predicate OutcomeInv(trace: seq<Mark>, h: nat, who: Handler) {
    match who.pc
    case Finished(o) => AnswerIsTrue(trace, h, who.nonce, o)
    case _ => Quiet(trace, h)
  }

  /** No mark is ever made in the name of a handler that does not exist yet. */
  ghost predicate OutcomesInv(s: State) {
    && (forall h :: 0 <= h < |s.handlers| ==> OutcomeInv(s.trace, h, s.handlers[h]))
    && (forall h: nat :: |s.handlers| <= h ==> Quiet(s.trace, h))
  }

  /** Marks that say nothing about `h` leave what is known about `h` alone. */
  lemma OutcomeStays(trace: seq<Mark>, more: seq<Mark>, h: nat, who: Handler)
    requires OutcomeInv(trace, h, who) && forall j :: 0 <= j < |more| ==> !EffectOf(more[j], h)
    ensures OutcomeInv(trace + more, h, who)
  {
    var all := trace + more;
    assert forall j :: 0 <= j < |trace| ==> all[j] == trace[j];
    assert forall j :: |trace| <= j < |all| ==> all[j] == more[j - |trace|];
    assert forall m :: m in trace ==> m in all;
  }

  lemma QuietAppend(trace: seq<Mark>, more: seq<Mark>, h: nat)
    requires Quiet(trace, h) && forall j :: 0 <= j < |more| ==> !EffectOf(more[j], h)
    ensures Quiet(trace + more, h)
  {
  }

  lemma PersistEffects(store: Store, h: nat, who: Handler, disk: Disk, grant: Disk)
    requires ActPersist(store, h, who, disk, grant).Some?
    ensures var act := ActPersist(store, h, who, disk, grant).value;
            act.pc.Finished? && AnswerIsTrue(act.marks, h, who.nonce, act.pc.outcome)
  {
    var act := ActPersist(store, h, who, disk, grant).value;
    if act.marks != [] {
      assert act.marks[0] in act.marks;
    }
  }

  /** Only the last step of a decision has effects, and its answer is true of them. */
  lemma ActEffects(b: Binding, store: Store, poisoned: bool, h: nat, who: Handler, e: Event)
    requires HandlerAct(b, store, poisoned, h, who, e).Some?
    ensures var act := HandlerAct(b, store, poisoned, h, who, e).value;
            && !who.pc.Over()
            && (!act.pc.Finished? ==> Quiet(act.marks, h))
            && (act.pc.Finished? ==> AnswerIsTrue(act.marks, h, who.nonce, act.pc.outcome))
  {
    if e.Persist? {
      PersistEffects(store, h, who, e.disk, e.grant);
    }
  }

  lemma ActHasOwnEffects(b: Binding, store: Store, poisoned: bool, h: nat, who: Handler, e: Event)
    requires HandlerAct(b, store, poisoned, h, who, e).Some?
    ensures var act := HandlerAct(b, store, poisoned, h, who, e).value;
            forall j, k: nat :: 0 <= j < |act.marks| && k != h ==> !EffectOf(act.marks[j], k)
  {
  }

  lemma AnswerAppend(trace: seq<Mark>, more: seq<Mark>, h: nat, n: Nonce, o: Outcome)
    requires Quiet(trace, h) && AnswerIsTrue(more, h, n, o)
    ensures AnswerIsTrue(trace + more, h, n, o)
  {
    var all := trace + more;
    assert forall j :: 0 <= j < |trace| ==> all[j] == trace[j];
    assert forall j :: |trace| <= j < |all| ==> all[j] == more[j - |trace|];
    assert forall m :: m in more ==> m in all;
  }

  lemma ActOutcome(b: Binding, store: Store, poisoned: bool, h: nat, who: Handler, e: Event, trace: seq<Mark>)
    requires HandlerAct(b, store, poisoned, h, who, e).Some? && OutcomeInv(trace, h, who)
    ensures var act := HandlerAct(b, store, poisoned, h, who, e).value;
            OutcomeInv(trace + act.marks, h, who.(pc := act.pc))
  {
    ActEffects(b, store, poisoned, h, who, e);
    var act := HandlerAct(b, store, poisoned, h, who, e).value;
    if act.pc.Finished? {
      AnswerAppend(trace, act.marks, h, who.nonce, act.pc.outcome);
    } else {
      QuietAppend(trace, act.marks, h);
    }
  }

  lemma OutsideIsQuiet(store: Store, op: OutsideOp, h: nat)
    ensures forall j :: 0 <= j < |OutsideMarks(store, op)| ==> !EffectOf(OutsideMarks(store, op)[j], h)
  {
  }

  /** What a step adds is the mover's own. */
  lemma NewMarksAreOwn(b: Binding, s: State, e: Event, k: nat)
    requires Step(b, s, e).Some? && Mover(e) != Some(k)
    ensures forall j :: |s.trace| <= j < |Step(b, s, e).value.trace| ==> !EffectOf(Step(b, s, e).value.trace[j], k)
  {
    var t := Step(b, s, e).value;
    if Mover(e).Some? {
      var h := Mover(e).value;
      ActHasOwnEffects(b, s.store, s.poisoned, h, s.handlers[h], e);
      var marks := HandlerAct(b, s.store, s.poisoned, h, s.handlers[h], e).value.marks;
      assert forall j :: |s.trace| <= j < |t.trace| ==> t.trace[j] == marks[j - |s.trace|];
    } else if e.Outside? {
      OutsideIsQuiet(s.store, e.op, k);
      var marks := OutsideMarks(s.store, e.op);
      assert forall j :: |s.trace| <= j < |t.trace| ==> t.trace[j] == marks[j - |s.trace|];
    }
  }

  /** A handler that did not move has had no effect since. */
  lemma OthersStayQuiet(b: Binding, s: State, e: Event, k: nat)
    requires Step(b, s, e).Some? && Mover(e) != Some(k)
    ensures var t := Step(b, s, e).value;
            && (Quiet(s.trace, k) ==> Quiet(t.trace, k))
            && (k < |s.handlers| && OutcomeInv(s.trace, k, s.handlers[k]) ==> OutcomeInv(t.trace, k, s.handlers[k]))
  {
    var t := Step(b, s, e).value;
    StepFrame(b, s, e);
    NewMarksAreOwn(b, s, e, k);
    var more := t.trace[|s.trace|..];
    assert t.trace == s.trace + more;
    if Quiet(s.trace, k) {
      QuietAppend(s.trace, more, k);
    }
    if k < |s.handlers| && OutcomeInv(s.trace, k, s.handlers[k]) {
      OutcomeStays(s.trace, more, k, s.handlers[k]);
    }
  }

  lemma MoverOutcome(b: Binding, s: State, e: Event, h: nat)
    requires Step(b, s, e).Some? && Mover(e) == Some(h) && h < |s.handlers| && OutcomeInv(s.trace, h, s.handlers[h])
    ensures OutcomeInv(Step(b, s, e).value.trace, h, Step(b, s, e).value.handlers[h])
  {
    ActOutcome(b, s.store, s.poisoned, h, s.handlers[h], e, s.trace);
  }

  lemma OutcomesKept(b: Binding, s: State, e: Event)
    requires OutcomesInv(s) && Step(b, s, e).Some?
    ensures OutcomesInv(Step(b, s, e).value)
  {
    StepFrame(b, s, e);
    var t := Step(b, s, e).value;
    forall k: nat ensures if k < |t.handlers| then OutcomeInv(t.trace, k, t.handlers[k]) else Quiet(t.trace, k) {
      if Mover(e) == Some(k) {
        MoverOutcome(b, s, e, k);
      } else {
        OthersStayQuiet(b, s, e, k);
      }
    }
  }

  // --------------------------------------------------------------- entitlement

  /** A passkey requester may decide only the nonce its assertion was verified
      for, with a credential on the allowlist. */
  ghost predicate Entitled(r: Requester, n: Nonce) {
    r.Remote? && r.identity.Passkey? ==>
      && r.identity.credential != "" && r.identity.credential in r.allowed
      && r.identity.boundNonce == n
  }

  ghost function CredentialOf(r: Requester): Option<string> {
    match r
    case Local => None
    case Remote(id, _) => Some(if id.Passkey? then id.credential else "non-passkey-identity")
  }

  /** Past validation a handler is entitled and carries its own credential. */
  ghost predicate EntitledInv(who: Handler) {
    && (who.pc.Approving() ==> who.approve) && (who.pc.Rejecting() ==> !who.approve)
    && match who.pc
       case ApproveOpening => true
       case ApproveOpened => true
       case RejectOpening => true
       case RejectOpened => true
       case Finished(_) => true
       case Crashed => true
       case ApproveLogged(_, _, _) => Entitled(who.requester, who.nonce)
       case RejectLogged(_, _) => Entitled(who.requester, who.nonce)
       case _ => Entitled(who.requester, who.nonce) && who.pc.credential == CredentialOf(who.requester)
  }

  /** Marks of a handler agree with what the handler was asked. */
  ghost predicate MarkInv(handlers: seq<Handler>, m: Mark) {
    match m
    case Row(h, n, approve, c) =>
      h < |handlers| && handlers[h].nonce == n && handlers[h].approve == approve && c == CredentialOf(handlers[h].requester)
    case AttestedOn(n, _, Some(h), _) =>
      h < |handlers| && handlers[h].nonce == n && handlers[h].approve && Entitled(handlers[h].requester, n)
    case RejectedOn(n, Some(h), _) =>
      h < |handlers| && handlers[h].nonce == n && !handlers[h].approve && Entitled(handlers[h].requester, n)
    case GrantedFor(n, h, _) =>
      h < |handlers| && handlers[h].nonce == n && handlers[h].approve && Entitled(handlers[h].requester, n)
    case RemovedFrom(ns, Some(h), _) =>
      h < |handlers| && ns == {handlers[h].nonce} && handlers[h].approve && Entitled(handlers[h].requester, handlers[h].nonce)
    case _ => true
  }

  ghost predicate EntitlementInv(s: State) {
    && (forall h :: 0 <= h < |s.handlers| ==> EntitledInv(s.handlers[h]))
    && (forall j :: 0 <= j < |s.trace| ==> MarkInv(s.handlers, s.trace[j]))
  }

  lemma ActStaysEntitled(b: Binding, store: Store, poisoned: bool, h: nat, who: Handler, e: Event)
    requires HandlerAct(b, store, poisoned, h, who, e).Some? && EntitledInv(who)
    ensures EntitledInv(who.(pc := HandlerAct(b, store, poisoned, h, who, e).value.pc))
  {
  }

  lemma ActEntitled(b: Binding, store: Store, poisoned: bool, h: nat, who: Handler, e: Event, handlers: seq<Handler>)
    requires HandlerAct(b, store, poisoned, h, who, e).Some? && EntitledInv(who)
    requires h < |handlers| && handlers[h].nonce == who.nonce && handlers[h].requester == who.requester && handlers[h].approve == who.approve
    ensures var act := HandlerAct(b, store, poisoned, h, who, e).value;
            forall j :: 0 <= j < |act.marks| ==> MarkInv(handlers, act.marks[j])
  {
  }

  lemma MarkStays(before: seq<Handler>, after: seq<Handler>, m: Mark)
    requires MarkInv(before, m) && |before| <= |after|
    requires forall k :: 0 <= k < |before| ==>
               after[k].nonce == before[k].nonce && after[k].requester == before[k].requester && after[k].approve == before[k].approve
    ensures MarkInv(after, m)
  {
  }

  lemma HandlersStayEntitled(b: Binding, s: State, e: Event)
    requires EntitlementInv(s) && Step(b, s, e).Some?
    ensures forall h :: 0 <= h < |Step(b, s, e).value.handlers| ==> EntitledInv(Step(b, s, e).value.handlers[h])
  {
    StepFrame(b, s, e);
    if Mover(e).Some? {
      var h := Mover(e).value;
      ActStaysEntitled(b, s.store, s.poisoned, h, s.handlers[h], e);
    }
  }

  lemma NewMarksEntitled(b: Binding, s: State, e: Event, j: nat)
    requires EntitlementInv(s) && Step(b, s, e).Some?
    requires |s.trace| <= j < |Step(b, s, e).value.trace|
    ensures MarkInv(Step(b, s, e).value.handlers, Step(b, s, e).value.trace[j])
  {
    if Mover(e).Some? {
      var h := Mover(e).value;
      StepFrame(b, s, e);
      ActEntitled(b, s.store, s.poisoned, h, s.handlers[h], e, Step(b, s, e).value.handlers);
      var marks := HandlerAct(b, s.store, s.poisoned, h, s.handlers[h], e).value.marks;
      assert Step(b, s, e).value.trace[j] == marks[j - |s.trace|];
    } else if e.Outside? {
      OutsideEntitled(s.store, e.op, s.handlers);
      assert Step(b, s, e).value.trace[j] == OutsideMarks(s.store, e.op)[j - |s.trace|];
    }
  }

  lemma OutsideEntitled(store: Store, op: OutsideOp, handlers: seq<Handler>)
    ensures forall j :: 0 <= j < |OutsideMarks(store, op)| ==> MarkInv(handlers, OutsideMarks(store, op)[j])
  {
  }

  lemma EntitlementKept(b: Binding, s: State, e: Event)
    requires EntitlementInv(s) && Step(b, s, e).Some?
    ensures EntitlementInv(Step(b, s, e).value)
  {
    StepFrame(b, s, e);
    HandlersStayEntitled(b, s, e);
    var t := Step(b, s, e).value;
    forall j | 0 <= j < |t.trace| ensures MarkInv(t.handlers, t.trace[j]) {
      if j < |s.trace| {
        assert t.trace[j] == s.trace[j];
        MarkStays(s.handlers, t.handlers, s.trace[j]);
      } else {
        NewMarksEntitled(b, s, e, j);
      }
    }
  }

  // --------------------------------------------------------------------- poison

  ghost predicate InboxEffect(m: Mark) {
    exists h: nat :: EffectOf(m, h)
  }

  /** Handler `h` wrote its rejection row before every poisoning. */
  ghost predicate RowBeforePoison(trace: seq<Mark>, h: nat, n: Nonce) {
    forall i :: 0 <= i < |trace| && trace[i] == Poisoned ==> HasRow(trace[..i], h, n, false)
  }

  /** The only effect after a poisoning at `i` is a rejection logged before it. */
  ghost predicate LateEffectIsLogged(trace: seq<Mark>, i: nat, m: Mark)
    requires i < |trace|
  {
    forall h: nat :: EffectOf(m, h) ==> m.RejectedOn? && HasRow(trace[..i], h, m.nonce, false)
  }

  ghost predicate LateEffectsAreLogged(trace: seq<Mark>) {
    forall i, j :: 0 <= i < j < |trace| && trace[i] == Poisoned ==> LateEffectIsLogged(trace, i, trace[j])
  }

  /** After poisoning, nobody holds the writer, and a handler past its row wrote
      that row before the poisoning. */
  ghost predicate PoisonInv(s: State) {
    && (s.poisoned ==> s.writer.None?)
    && (Poisoned in s.trace ==> s.poisoned)
    && (forall h :: 0 <= h < |s.handlers| && s.handlers[h].pc.RejectLogged? ==> RowBeforePoison(s.trace, h, s.handlers[h].nonce))
    && LateEffectsAreLogged(s.trace)
  }

  /** Poisoning comes alone, and finds the row of whoever is past it. */
  lemma RowBeforeStays(trace: seq<Mark>, more: seq<Mark>, h: nat, n: Nonce)
    requires RowBeforePoison(trace, h, n)
    requires Poisoned in more ==> |more| == 1 && HasRow(trace, h, n, false)
    ensures RowBeforePoison(trace + more, h, n)
  {
    var all := trace + more;
    assert forall i :: |trace| <= i < |all| ==> all[i] == more[i - |trace|] && all[i] in more;
    forall i | 0 <= i < |all| && all[i] == Poisoned ensures HasRow(all[..i], h, n, false) {
      if i < |trace| {
        assert all[..i] == trace[..i];
      } else {
        assert all[..i] == trace;
      }
    }
  }

  lemma LateAppend(trace: seq<Mark>, more: seq<Mark>)
    requires LateEffectsAreLogged(trace) && (Poisoned in more ==> |more| == 1)
    requires Poisoned in trace ==>
               forall j, h: nat :: 0 <= j < |more| && EffectOf(more[j], h) ==>
                 more[j].RejectedOn? && RowBeforePoison(trace, h, more[j].nonce)
    ensures LateEffectsAreLogged(trace + more)
  {
    var all := trace + more;
    assert forall i :: |trace| <= i < |all| ==> all[i] == more[i - |trace|] && all[i] in more;
    forall i, j | 0 <= i < j < |all| && all[i] == Poisoned ensures LateEffectIsLogged(all, i, all[j]) {
      if i < |trace| {
        assert trace[i] in trace;
        assert all[..i] == trace[..i];
        assert j < |trace| ==> LateEffectIsLogged(trace, i, trace[j]);
      }
    }
  }

  /** With the mutex poisoned, a handler that does not hold it never will, and its
      only possible effect is a rejection it has already logged. */
  lemma ActWhenPoisoned(b: Binding, store: Store, h: nat, who: Handler, e: Event)
    requires HandlerAct(b, store, true, h, who, e).Some? && !who.pc.HoldsWriter()
    ensures var act := HandlerAct(b, store, true, h, who, e).value;
            && !act.pc.HoldsWriter() && !act.pc.RejectLogged? && !act.poisons
            && forall j :: 0 <= j < |act.marks| ==>
                 && act.marks[j] != Poisoned
                 && forall k: nat :: EffectOf(act.marks[j], k) ==>
                      k == h && who.pc.RejectLogged? && act.marks[j].RejectedOn? && act.marks[j].nonce == who.nonce
  {
  }

  /** A panic poisons only while holding the writer, and then nobody holds it. */
  lemma ActPoisons(b: Binding, store: Store, h: nat, who: Handler, e: Event)
    requires HandlerAct(b, store, false, h, who, e).Some?
    ensures var act := HandlerAct(b, store, false, h, who, e).value;
            && (act.poisons <==> Poisoned in act.marks)
            && (act.poisons ==> who.pc.HoldsWriter() && act.pc.Crashed? && act.marks == [Poisoned])
  {
  }

  /** What a step adds to the trace never breaks the order of rows and poisonings. */
  lemma NewMarksAfterPoison(b: Binding, s: State, h: nat, e: Event)
    requires LocksInv(s) && PoisonInv(s) && h < |s.handlers|
    requires HandlerAct(b, s.store, s.poisoned, h, s.handlers[h], e).Some?
    ensures var act := HandlerAct(b, s.store, s.poisoned, h, s.handlers[h], e).value;
            && LateEffectsAreLogged(s.trace + act.marks)
            && (Poisoned in act.marks ==> |act.marks| == 1 && act.poisons)
            && (act.poisons ==> act.pc.Crashed?)
            && (s.poisoned ==> !act.pc.HoldsWriter() && !act.pc.RejectLogged?)
  {
    var who := s.handlers[h];
    var act := HandlerAct(b, s.store, s.poisoned, h, who, e).value;
    assert HoldsWriter(s, h) <==> s.writer == Some(h);
    if s.poisoned {
      ActWhenPoisoned(b, s.store, h, who, e);
    } else {
      ActPoisons(b, s.store, h, who, e);
    }
    LateAppend(s.trace, act.marks);
  }

  lemma PoisonKeptByHandler(b: Binding, s: State, h: nat, e: Event)
    requires LocksInv(s) && RowsInv(s) && PoisonInv(s) && Mover(e) == Some(h) && Step(b, s, e).Some?
    ensures PoisonInv(Step(b, s, e).value)
  {
    var t := Step(b, s, e).value;
    StepFrame(b, s, e);
    LocksKept(b, s, e);
    NewMarksAfterPoison(b, s, h, e);
    var act := HandlerAct(b, s.store, s.poisoned, h, s.handlers[h], e).value;
    assert HoldsWriter(s, h) <==> s.writer == Some(h);
    if !s.poisoned {
      ActPoisons(b, s.store, h, s.handlers[h], e);
    }
    forall k | 0 <= k < |t.handlers| && t.handlers[k].pc.RejectLogged? ensures RowBeforePoison(t.trace, k, t.handlers[k].nonce) {
      if k == h {
        assert Poisoned !in t.trace;
        assert forall i :: 0 <= i < |t.trace| ==> t.trace[i] in t.trace;
      } else {
        assert RowInv(s.trace, k, s.handlers[k]);
        RowBeforeStays(s.trace, act.marks, k, s.handlers[k].nonce);
      }
    }
  }

  lemma PoisonKept(b: Binding, s: State, e: Event)
    requires LocksInv(s) && RowsInv(s) && PoisonInv(s) && Step(b, s, e).Some?
    ensures PoisonInv(Step(b, s, e).value)
  {
    if Mover(e).Some? {
      PoisonKeptByHandler(b, s, Mover(e).value, e);
    } else if !e.Begin? {
      var more := if e.Outside? then OutsideMarks(s.store, e.op) else [Poisoned];
      forall j, k: nat | 0 <= j < |more| ensures !EffectOf(more[j], k) {
        if e.Outside? {
          OutsideIsQuiet(s.store, e.op, k);
        }
      }
      LateAppend(s.trace, more);
      forall k | 0 <= k < |s.handlers| && s.handlers[k].pc.RejectLogged?
        ensures RowBeforePoison(s.trace + more, k, s.handlers[k].nonce)
      {
        assert RowInv(s.trace, k, s.handlers[k]);
        RowBeforeStays(s.trace, more, k, s.handlers[k].nonce);
      }
    }
  }
}
