/** Runs of the decision seam together with the states they go through. */
module DecisionPaths {
  import opened Common
  import opened Approvals
  import opened Decisions

  ghost predicate Leads(b: Binding, s: State, e: Event, t: State) {
    Step(b, s, e) == Some(t)
  }

  /** `states` is what the run of `events` goes through. */
  ghost predicate Path(b: Binding, states: seq<State>, events: seq<Event>) {
    && |states| == |events| + 1 && states[0] == START
    && forall i :: 0 <= i < |events| ==> LeadsAt(b, states, events, i)
  }

  ghost predicate LeadsAt(b: Binding, states: seq<State>, events: seq<Event>, i: int)
    requires 0 <= i < |events| == |states| - 1
  {
    Leads(b, states[i], events[i], states[i + 1])
  }

  lemma {:induction false} PathIsRun(b: Binding, states: seq<State>, events: seq<Event>)
    requires Path(b, states, events)
    ensures Run(b, events) == Some(states[|events|])
  {
    if events != [] {
      var k := |events| - 1;
      var ss, es := states[..k + 1], events[..k];
      forall i | 0 <= i < k ensures LeadsAt(b, ss, es, i) {
        assert LeadsAt(b, states, events, i);
      }
      PathIsRun(b, ss, es);
      assert LeadsAt(b, states, events, k);
    }
  }

  lemma Moves(b: Binding, s: State, h: nat, e: Event, t: State)
    requires h < |s.handlers| && !e.Begin? && !e.ForeignPoison? && !e.Outside? && e.h == h
    requires HandlerAct(b, s.store, s.poisoned, h, s.handlers[h], e).Some?
    requires var act := HandlerAct(b, s.store, s.poisoned, h, s.handlers[h], e).value;
             && CanHold(s.lock, h, act.pc.HoldsStore()) && CanHold(s.writer, h, act.pc.HoldsWriter())
             && t == State(act.store, Holder(s.lock, h, act.pc.HoldsStore()), Holder(s.writer, h, act.pc.HoldsWriter()),
                           s.poisoned || act.poisons, s.handlers[h := s.handlers[h].(pc := act.pc)], s.trace + act.marks)
    ensures Leads(b, s, e, t)
  {
  }

  lemma PathExtends(b: Binding, states: seq<State>, events: seq<Event>, e: Event, t: State)
    requires Path(b, states, events) && Leads(b, states[|events|], e, t)
    ensures Path(b, states + [t], events + [e])
  {
    var ss, es := states + [t], events + [e];
    forall i | 0 <= i < |es| ensures LeadsAt(b, ss, es, i) {
      if i < |events| {
        assert LeadsAt(b, states, events, i);
        assert ss[i] == states[i] && es[i] == events[i] && ss[i + 1] == states[i + 1];
      }
    }
  }

  /** Every run goes through some states. */
  lemma {:induction false} RunHasPath(b: Binding, events: seq<Event>) returns (states: seq<State>)
    requires Run(b, events).Some?
    ensures Path(b, states, events) && Run(b, events) == Some(states[|events|])
  {
    states := [START];
    if events != [] {
      var k := |events| - 1;
      states := RunHasPath(b, events[..k]);
      var t := Run(b, events).value;
      assert Leads(b, states[k], events[k], t);
      PathExtends(b, states, events[..k], events[k], t);
      states := states + [t];
      assert events[..k] + [events[k]] == events;
    }
  }
}
