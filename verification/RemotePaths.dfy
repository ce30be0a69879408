/** Runs of the remote server together with the states they go through. */
module RemotePaths {
  import opened Common
  import opened Remotes
  import D = Decisions

  ghost predicate Leads(c: Config, s: Server, e: Event, t: Server) {
    Step(c, s, e) == Some(t)
  }

  ghost predicate LeadsAt(c: Config, states: seq<Server>, events: seq<Event>, i: int)
    requires 0 <= i < |events| == |states| - 1
  {
    Leads(c, states[i], events[i], states[i + 1])
  }

  ghost predicate Path(c: Config, states: seq<Server>, events: seq<Event>) {
    |states| == |events| + 1 && forall i :: 0 <= i < |events| ==> LeadsAt(c, states, events, i)
  }

  lemma Handles(c: Config, s: Server, r: nat, at: Time, move: Move, deed: Deed)
    requires r < |s.requests| && s.now <= at && Do(c, s, s.requests[r], at, move) == Some(deed)
    ensures Leads(c, s, Handle(r, at, move), After(s, r, at, deed))
  {
  }

  lemma RunStep(c: Config, past: seq<Event>, s: Server, e: Event, t: Server)
    requires Run(c, past) == Some(s) && Leads(c, s, e, t)
    ensures Run(c, past + [e]) == Some(t)
  {
    assert (past + [e])[..|past|] == past;
  }

  lemma {:induction false} PathExtendsRun(c: Config, past: seq<Event>, states: seq<Server>, events: seq<Event>)
    requires Path(c, states, events) && Run(c, past) == Some(states[0])
    ensures Run(c, past + events) == Some(states[|events|])
    decreases |events|
  {
    if events == [] {
      assert past + events == past;
    } else {
      var k := |events| - 1;
      var ss, es := states[..k + 1], events[..k];
      forall i | 0 <= i < k ensures LeadsAt(c, ss, es, i) {
        assert LeadsAt(c, states, events, i);
      }
      PathExtendsRun(c, past, ss, es);
      assert (past + events)[..|past + events| - 1] == past + es;
      assert LeadsAt(c, states, events, k);
    }
  }

  /** No decision of the remote surface is started there. */
  ghost predicate NotRemote(e: D.Event) {
    !(e.Begin? && e.requester.Remote?)
  }

  /** Whatever the seam can do by itself happens under some run of the server: requests
      take nothing away from local decisions and other processes. */
  lemma {:induction false} SeamRunsEmbed(c: Config, events: seq<D.Event>, inbox: D.State) returns (all: seq<Event>, s: Server)
    requires D.Run(c.binding, events) == Some(inbox) && forall i :: 0 <= i < |events| ==> NotRemote(events[i])
    ensures Run(c, all) == Some(s) && s.inbox == inbox && s.inboxEvents == events && s.requests == []
  {
    if events == [] {
      all, s := [], BOOT;
    } else {
      var k := |events| - 1;
      var before: Server;
      assert NotRemote(events[k]);
      all, before := SeamRunsEmbed(c, events[..k], D.Run(c.binding, events[..k]).value);
      s := before.(inbox := inbox, inboxEvents := before.inboxEvents + [events[k]]);
      RunStep(c, all, before, Inbox(events[k]), s);
      all := all + [Inbox(events[k])];
      assert events[..k] + [events[k]] == events;
    }
  }
}
