/** An operator with a live session is never locked out: whatever happened before,
    the ceremony for a parked entry can be completed. */
module RemoteProgress {
  import opened Common
  import opened ChallengeStores
  import opened ChallengeRuns
  import opened ChallengeObjects
  import opened Approvals
  import opened Remotes
  import opened RemoteProofs
  import opened RemotePaths
  import R = RemoteRuns
  import D = Decisions

  // ----------------------------------------------------------------- the ceremony

  /** One operator's ceremony for one nonce, at one moment. */
  datatype Ceremony = Ceremony(session: Session, nonce: Nonce, random: seq<Byte>, word: string)
  {
    function AskFor(c: Config): Ask {
      AskChallenge(nonce, Some(session.token), Some(c.csrf(session.csrfKey, nonce)))
    }

    function Challenge(c: Config, s: Server): Challenge
      requires nonce in s.inbox.store
    {
      DeriveActionChallenge(c, random, EntryDigest(s.inbox.store[nonce].kind), nonce)
    }

    function Body(c: Config, s: Server): Body
      requires nonce in s.inbox.store
    {
      Remotes.Body(word, session.credential, Some(Challenge(c, s)))
    }

    function AskTo(c: Config, s: Server): Ask
      requires nonce in s.inbox.store
    {
      AskDecision(nonce, Some(session.token), Some(c.csrf(session.csrfKey, nonce)), Some(Body(c, s)))
    }

    function Key(c: Config, s: Server): ActionKey
      requires nonce in s.inbox.store
    {
      (Challenge(c, s), nonce)
    }

    /** The session is live, the entry is parked and the store is free. */
    ghost predicate Possible(s: Server) {
      && s.session == Some(session) && s.now - session.createdAt < 1800.0
      && nonce in s.inbox.store && s.inbox.lock.None? && |random| == 32 && (word == "approve" || word == "reject")
    }

    function ChallengePhase(s: Server, k: nat): Phase
      requires nonce in s.inbox.store
    {
      if k <= 1 then Arrived
      else if k == 2 then Admitted(session, s.now)
      else if k == 3 then Looked(session, s.now, s.inbox.store[nonce], |s.inbox.trace|)
      else Challenged(session, s.now, s.inbox.store[nonce], |s.inbox.trace|, random, |s.actionOps|)
    }

    function DecisionPhase(s: Server, k: nat): Phase {
      if k <= 5 then Arrived
      else if k == 6 then Cleared(session, s.now)
      else if k == 7 then Spent(session, s.now, |s.actionOps| + 1, |s.inbox.trace|)
      else if k == 8 then Proved(session, s.now, |s.actionOps| + 1, |s.inbox.trace|)
      else Applied(session, s.now, |s.actionOps| + 1, |s.inbox.trace|, |s.inbox.handlers|)
    }

    function Ops(c: Config, s: Server, k: nat): seq<Op<ActionKey>>
      requires nonce in s.inbox.store
    {
      if k < 4 then s.actionOps
      else if k < 7 then s.actionOps + [Mint(Key(c, s), s.now)]
      else s.actionOps + [Mint(Key(c, s), s.now)] + [Consume(Key(c, s), s.now)]
    }

    function Requests(c: Config, s: Server, k: nat): seq<Request>
      requires nonce in s.inbox.store
    {
      if k == 0 then s.requests
      else if k < 5 then s.requests + [Request(AskFor(c), ChallengePhase(s, k))]
      else s.requests + [Request(AskFor(c), ChallengePhase(s, 4))] + [Request(AskTo(c, s), DecisionPhase(s, k))]
    }

    function Begins(c: Config, s: Server, k: nat): seq<D.Event>
      requires nonce in s.inbox.store
    {
      if k < 9 then [] else [D.Begin(nonce, word == "approve", RequesterOf(c, nonce, Body(c, s)))]
    }

    /** The server after `k` steps of the ceremony. */
    function At(c: Config, s: Server, k: nat): Server
      requires nonce in s.inbox.store
    {
      Server(s.now, s.tokens, s.refilledAt, s.turns, s.loginOps, Ops(c, s, k), s.session, Requests(c, s, k),
             Begun(s.inbox, Begins(c, s, k)), s.inboxEvents + Begins(c, s, k))
    }

    function Events(c: Config, s: Server): seq<Event>
      requires nonce in s.inbox.store
    {
      var q, r := |s.requests|, |s.requests| + 1;
      [Arrive(AskFor(c)), Handle(q, s.now, Check(true)), Handle(q, s.now, Look(D.Opens)), Handle(q, s.now, MintFor(random)),
       Arrive(AskTo(c, s)), Handle(r, s.now, Check(true)), Handle(r, s.now, Move.Spend), Handle(r, s.now, Prove(true, true)),
       Handle(r, s.now, Decide)]
    }
  }

  lemma StartsThere(y: Ceremony, c: Config, s: Server)
    requires y.nonce in s.inbox.store
    ensures y.At(c, s, 0) == s
  {
    assert s.inboxEvents + [] == s.inboxEvents;
  }

  /** A challenge just minted can be consumed. */
  lemma FreshIsAccepted(ops: seq<Op<ActionKey>>, key: ActionKey, now: Time)
    requires OpsInv(ops, now)
    ensures Accepts(EvictOldest, ops + [Mint(key, now)], Consume(key, now))
  {
    var more := ops + [Mint(key, now)];
    assert more[..|ops|] == ops && more[|ops|] == Mint(key, now);
    assert Monotone(more);
    AcceptedIsOutstanding(EvictOldest, more, |ops|);
    assert more[..|ops| + 1] == more;
    Extend(EvictOldest, more, Consume(key, now));
    assert Item(|ops|, key, now) in Outstanding(EvictOldest, more);
  }

  /** What the moved request does, and so where the server is. */
  lemma DeedLeads(y: Ceremony, c: Config, s: Server, k: nat, r: nat, move: Move, deed: Deed)
    requires y.nonce in s.inbox.store && 1 <= k < 9 && k != 4
    requires r == |s.requests| + (if k < 5 then 0 else 1) && y.Events(c, s)[k] == Handle(r, s.now, move)
    requires Do(c, y.At(c, s, k), y.At(c, s, k).requests[r], s.now, move) == Some(deed)
    requires deed.session == s.session && deed.login == [] && y.Ops(c, s, k) + deed.action == y.Ops(c, s, k + 1)
    requires deed.phase == if k < 5 then y.ChallengePhase(s, k + 1) else y.DecisionPhase(s, k + 1)
    requires deed.begins == y.Begins(c, s, k + 1) && deed.turns == []
    ensures Leads(c, y.At(c, s, k), y.Events(c, s)[k], y.At(c, s, k + 1))
  {
    var t, u := y.At(c, s, k), y.At(c, s, k + 1);
    assert t.requests[r := t.requests[r].(phase := deed.phase)] == u.requests;
    assert t.loginOps + [] == u.loginOps && t.turns + [] == u.turns;
    assert t.inboxEvents + deed.begins == u.inboxEvents;
  }

  lemma ArriveLeads(y: Ceremony, c: Config, s: Server, k: nat)
    requires y.Possible(s) && (k == 0 || k == 4)
    ensures Leads(c, y.At(c, s, k), y.Events(c, s)[k], y.At(c, s, k + 1))
  {
  }

  lemma ChallengeLeads(y: Ceremony, c: Config, s: Server, k: nat)
    requires y.Possible(s) && 1 <= k < 4
    ensures Leads(c, y.At(c, s, k), y.Events(c, s)[k], y.At(c, s, k + 1))
  {
    var q := |s.requests|;
    var action := if k == 3 then [Mint(y.Key(c, s), s.now)] else [];
    var deed := Deed(y.ChallengePhase(s, k + 1), s.session, [], action, [], []);
    var move := if k == 1 then Check(true) else if k == 2 then Look(D.Opens) else MintFor(y.random);
    DeedLeads(y, c, s, k, q, move, deed);
  }

  lemma CheckLeads(y: Ceremony, c: Config, s: Server)
    requires y.Possible(s)
    ensures Leads(c, y.At(c, s, 5), y.Events(c, s)[5], y.At(c, s, 6))
  {
    DeedLeads(y, c, s, 5, |s.requests| + 1, Check(true), Deed(y.DecisionPhase(s, 6), s.session, [], [], [], []));
  }

  lemma SpendDeed(y: Ceremony, c: Config, s: Server)
    requires y.Possible(s) && OpsInv(s.actionOps, s.now)
    ensures DoSpend(y.At(c, s, 6), y.AskTo(c, s), y.DecisionPhase(s, 6), s.now)
         == Some(Deed(y.DecisionPhase(s, 7), s.session, [], [Consume(y.Key(c, s), s.now)], [], []))
  {
    FreshIsAccepted(s.actionOps, y.Key(c, s), s.now);
  }

  lemma SpendLeads(y: Ceremony, c: Config, s: Server)
    requires y.Possible(s) && OpsInv(s.actionOps, s.now)
    ensures Leads(c, y.At(c, s, 6), y.Events(c, s)[6], y.At(c, s, 7))
  {
    SpendDeed(y, c, s);
    assert y.At(c, s, 6).requests[|s.requests| + 1] == Request(y.AskTo(c, s), y.DecisionPhase(s, 6));
    var action := [Consume(y.Key(c, s), s.now)];
    DeedLeads(y, c, s, 6, |s.requests| + 1, Move.Spend, Deed(y.DecisionPhase(s, 7), s.session, [], action, [], []));
  }

  lemma ProveLeads(y: Ceremony, c: Config, s: Server)
    requires y.Possible(s)
    ensures Leads(c, y.At(c, s, 7), y.Events(c, s)[7], y.At(c, s, 8))
  {
    DeedLeads(y, c, s, 7, |s.requests| + 1, Prove(true, true), Deed(y.DecisionPhase(s, 8), s.session, [], [], [], []));
  }

  lemma DecideLeads(y: Ceremony, c: Config, s: Server)
    requires y.Possible(s)
    ensures Leads(c, y.At(c, s, 8), y.Events(c, s)[8], y.At(c, s, 9))
  {
    DeedLeads(y, c, s, 8, |s.requests| + 1, Decide, Deed(y.DecisionPhase(s, 9), s.session, [], [], y.Begins(c, s, 9), []));
  }

  lemma DecisionLeads(y: Ceremony, c: Config, s: Server, k: nat)
    requires y.Possible(s) && OpsInv(s.actionOps, s.now) && 5 <= k < 9
    ensures Leads(c, y.At(c, s, k), y.Events(c, s)[k], y.At(c, s, k + 1))
  {
    if k == 5 {
      CheckLeads(y, c, s);
    } else if k == 6 {
      SpendLeads(y, c, s);
    } else if k == 7 {
      ProveLeads(y, c, s);
    } else {
      DecideLeads(y, c, s);
    }
  }

  ghost function States(y: Ceremony, c: Config, s: Server): (r: seq<Server>)
    requires y.nonce in s.inbox.store
    ensures |r| == 10 && r[9] == y.At(c, s, 9)
  {
    seq(10, k requires 0 <= k < 10 => y.At(c, s, k))
  }

  lemma CeremonyLeads(y: Ceremony, c: Config, s: Server, i: nat)
    requires y.Possible(s) && OpsInv(s.actionOps, s.now) && i < 9
    ensures LeadsAt(c, States(y, c, s), y.Events(c, s), i)
  {
    if i == 0 || i == 4 {
      ArriveLeads(y, c, s, i);
    } else if i < 4 {
      ChallengeLeads(y, c, s, i);
    } else {
      DecisionLeads(y, c, s, i);
    }
  }

  lemma CeremonyPath(y: Ceremony, c: Config, s: Server)
    requires y.Possible(s) && OpsInv(s.actionOps, s.now)
    ensures Path(c, States(y, c, s), y.Events(c, s)) && States(y, c, s)[0] == s
  {
    StartsThere(y, c, s);
    forall i | 0 <= i < |y.Events(c, s)| ensures LeadsAt(c, States(y, c, s), y.Events(c, s), i) {
      CeremonyLeads(y, c, s, i);
    }
  }

  lemma CeremonyEnds(y: Ceremony, c: Config, s: Server)
    requires y.Possible(s)
    ensures var t := y.At(c, s, 9);
            && t.requests[|s.requests| + 1].phase.Applied?
            && t.inbox.handlers == s.inbox.handlers
                 + [D.Handler(y.nonce, y.word == "approve", Remote(Passkey(y.session.credential, y.nonce), c.allowed),
                              if y.word == "approve" then D.ApproveOpening else D.RejectOpening)]
  {
  }

  /** From every reachable state with a live session and a free store, a parked entry
      can be challenged and decided at once, however full the challenge store is:
      the run goes on to a decision at the seam, for this nonce and this operator. */
  lemma {:induction false} OperatorIsNeverLockedOut(c: Config, past: seq<Event>, s: Server, y: Ceremony)
    requires Run(c, past) == Some(s) && y.Possible(s)
    ensures Run(c, past + y.Events(c, s)) == Some(y.At(c, s, 9))
    ensures var t := y.At(c, s, 9);
            && t.requests[|s.requests| + 1].phase.Applied?
            && t.inbox.handlers == s.inbox.handlers
                 + [D.Handler(y.nonce, y.word == "approve", Remote(Passkey(y.session.credential, y.nonce), c.allowed),
                              if y.word == "approve" then D.ApproveOpening else D.RejectOpening)]
  {
    R.InvHolds(c, past);
    CeremonyPath(y, c, s);
    PathExtendsRun(c, past, States(y, c, s), y.Events(c, s));
    CeremonyEnds(y, c, s);
  }
}
