/** The guarantees of the remote approval protocol over every run. */
module RemoteRuns {
  import opened Common
  import opened ChallengeStores
  import opened ChallengeRuns
  import opened Approvals
  import opened Remotes
  import opened RemoteProofs
  import opened RemoteLinks
  import Lives = Lifecycles
  import Kinds = DecisionKinds
  import Runs = DecisionRuns
  import Outcomes = DecisionOutcomes

  // ----------------------------------------------------------------------- counting

  /** The challenge and nonce a decision request presents. */
  ghost function KeyOf(ask: Ask): Option<ActionKey> {
    if ask.AskDecision? && ask.body.Some? && ask.body.value.challenge.Some?
    then Some((ask.body.value.challenge.value, ask.nonce)) else None
  }

  ghost predicate SpentKey(req: Request, key: ActionKey) {
    HasSpent(req.phase) && KeyOf(req.ask) == Some(key)
  }

  /** Its assertion was verified, with whatever result. */
  ghost predicate VerifiedKey(req: Request, key: ActionKey) {
    (req.phase.Denied? || req.phase.Proved? || req.phase.Applied?) && KeyOf(req.ask) == Some(key)
  }

  ghost function SpentCount(requests: seq<Request>, key: ActionKey): nat {
    if requests == [] then 0
    else SpentCount(requests[..|requests| - 1], key) + (if SpentKey(requests[|requests| - 1], key) then 1 else 0)
  }

  ghost function VerifiedCount(requests: seq<Request>, key: ActionKey): nat {
    if requests == [] then 0
    else VerifiedCount(requests[..|requests| - 1], key) + (if VerifiedKey(requests[|requests| - 1], key) then 1 else 0)
  }

  lemma {:induction false} VerifiedWasSpent(requests: seq<Request>, key: ActionKey)
    ensures VerifiedCount(requests, key) <= SpentCount(requests, key)
  {
    if requests != [] {
      VerifiedWasSpent(requests[..|requests| - 1], key);
    }
  }

  lemma {:induction false} SpentUpdate(requests: seq<Request>, r: nat, req: Request, key: ActionKey)
    requires r < |requests|
    ensures SpentCount(requests[r := req], key) + (if SpentKey(requests[r], key) then 1 else 0)
         == SpentCount(requests, key) + (if SpentKey(req, key) then 1 else 0)
  {
    var n := |requests| - 1;
    if r == n {
      assert requests[r := req][..n] == requests[..n];
    } else {
      assert requests[r := req][..n] == requests[..n][r := req];
      SpentUpdate(requests[..n], r, req, key);
    }
  }

  lemma ConsumesAppend(ops: seq<Op<ActionKey>>, op: Op<ActionKey>, key: ActionKey)
    ensures Consumes(EvictOldest, ops + [op], key)
         == Consumes(EvictOldest, ops, key)
            + (if op.Consume? && op.key == key && Accepts(EvictOldest, ops, op) then 1 else 0)
  {
    assert (ops + [op])[..|ops|] == ops;
  }

  ghost predicate CountInv(s: Server) {
    forall key: ActionKey :: SpentCount(s.requests, key) == Consumes(EvictOldest, s.actionOps, key)
  }

  /** A step spends a challenge exactly when it consumes it. */
  lemma DeedSpends(c: Config, s: Server, req: Request, at: Time, move: Move, key: ActionKey)
    requires RequestInv(c, s, req) && Do(c, s, req, at, move).Some?
    ensures var deed := Do(c, s, req, at, move).value;
            (SpentKey(Request(req.ask, deed.phase), key) && !SpentKey(req, key)) <==>
              && deed.action != [] && deed.action[0].Consume? && deed.action[0].key == key
              && Accepts(EvictOldest, s.actionOps, deed.action[0])
  {
  }

  lemma CountMoved(c: Config, s: Server, r: nat, at: Time, move: Move, key: ActionKey)
    requires r < |s.requests| && RequestInv(c, s, s.requests[r]) && Do(c, s, s.requests[r], at, move).Some?
    requires SpentCount(s.requests, key) == Consumes(EvictOldest, s.actionOps, key)
    ensures var t := After(s, r, at, Do(c, s, s.requests[r], at, move).value);
            SpentCount(t.requests, key) == Consumes(EvictOldest, t.actionOps, key)
  {
    var req := s.requests[r];
    var deed := Do(c, s, req, at, move).value;
    var moved := Request(req.ask, deed.phase);
    SpentUpdate(s.requests, r, moved, key);
    DeedOps(c, s, req, at, move);
    DeedActs(c, s, req, at, move);
    DeedSpends(c, s, req, at, move, key);
    if deed.action == [] {
      assert s.actionOps + deed.action == s.actionOps;
    } else {
      assert s.actionOps + deed.action == s.actionOps + [deed.action[0]];
      ConsumesAppend(s.actionOps, deed.action[0], key);
    }
  }

  lemma CountKept(c: Config, s: Server, e: Event)
    requires RequestsInv(c, s) && CountInv(s) && Step(c, s, e).Some?
    ensures CountInv(Step(c, s, e).value)
  {
    var t := Step(c, s, e).value;
    forall key: ActionKey ensures SpentCount(t.requests, key) == Consumes(EvictOldest, t.actionOps, key) {
      assert SpentCount(s.requests, key) == Consumes(EvictOldest, s.actionOps, key);
      if e.Arrive? {
        assert t.requests[..|s.requests|] == s.requests;
      } else if e.Handle? {
        CountMoved(c, s, e.r, e.at, e.move, key);
      }
    }
  }

  // ---------------------------------------------------------------- every reachable state

  ghost predicate Inv(c: Config, s: Server) {
    && ClockInv(s) && InboxInv(c, s) && RequestsInv(c, s)
    && ApartInv(s) && MadeInv(s) && OrderInv(s) && CountInv(s)
  }

  lemma InvKept(c: Config, s: Server, e: Event)
    requires Inv(c, s) && Step(c, s, e).Some?
    ensures Inv(c, Step(c, s, e).value)
  {
    ClockKept(c, s, e);
    InboxKept(c, s, e);
    RequestsKept(c, s, e);
    ApartKept(c, s, e);
    MadeKept(c, s, e);
    OrderKept(c, s, e);
    CountKept(c, s, e);
  }

  lemma {:induction false} InvHolds(c: Config, events: seq<Event>)
    requires Run(c, events).Some?
    ensures Inv(c, Run(c, events).value)
  {
    if events != [] {
      var past := events[..|events| - 1];
      InvHolds(c, past);
      InvKept(c, Run(c, past).value, events[|events| - 1]);
    }
  }

  lemma {:induction false} LimiterHolds(c: Config, events: seq<Event>)
    requires Run(c, events).Some?
    ensures LimiterInv(Run(c, events).value)
  {
    if events != [] {
      var past := events[..|events| - 1];
      LimiterHolds(c, past);
      LimiterKept(c, Run(c, past).value, events[|events| - 1]);
    } else {
      EnvelopeStands();
    }
  }

  // ---------------------------------------------------------------------- agreement

  /** The mint that a decision's consume took. */
  ghost function MintOf(s: Server, r: nat): Option<nat>
    requires r < |s.requests| && HasSpent(s.requests[r].phase)
  {
    var op := s.requests[r].phase.op;
    if op < |s.actionOps| && s.actionOps[op].Consume? then Taken(EvictOldest, s.actionOps, op) else None
  }

  /** A decision request rests on a challenge request: minted for its nonce under
      its challenge, from the digest of the entry then parked, within the last 120
      seconds before it was spent. */
  ghost predicate AnswersChallenge(c: Config, s: Server, r: nat, q: nat)
    requires r < |s.requests| && q < |s.requests| && HasSpent(s.requests[r].phase) && s.requests[q].phase.Challenged?
  {
    var dec, ch := s.requests[r], s.requests[q];
    && MintOf(s, r) == Some(ch.phase.op) && ch.phase.op < dec.phase.op < |s.actionOps|
    && ch.ask.AskChallenge? && dec.ask.AskDecision? && ch.ask.nonce == dec.ask.nonce
    && KeyOf(dec.ask) == Some((c.hash(ch.phase.random + EntryDigest(ch.phase.entry.kind) + ch.ask.nonce), ch.ask.nonce))
    && s.actionOps[dec.phase.op].at - s.actionOps[ch.phase.op].at < 120.0
    && ch.phase.seen <= dec.phase.since
  }

  /** What a spent request's phase says about its operation. */
  lemma SpentEvidence(c: Config, s: Server, r: nat)
    requires RequestsInv(c, s) && r < |s.requests| && HasSpent(s.requests[r].phase)
    ensures var dec := s.requests[r];
            && KeyOf(dec.ask).Some? && dec.ask.AskDecision? && dec.ask.nonce == KeyOf(dec.ask).value.1
            && dec.phase.op < |s.actionOps|
            && s.actionOps[dec.phase.op] == Consume(KeyOf(dec.ask).value, s.actionOps[dec.phase.op].at)
            && AnswerAt(EvictOldest, s.actionOps, dec.phase.op)
  {
    assert RequestInv(c, s, s.requests[r]);
  }

  /** And what a challenge request's phase says about its own. */
  lemma ChallengeEvidence(c: Config, s: Server, q: nat)
    requires RequestsInv(c, s) && q < |s.requests| && s.requests[q].phase.Challenged?
    ensures var ch := s.requests[q];
            && ch.ask.AskChallenge? && ch.phase.op < |s.actionOps| && |ch.phase.random| == 32
            && s.actionOps[ch.phase.op] == Mint(
                 (DeriveActionChallenge(c, ch.phase.random, EntryDigest(ch.phase.entry.kind), ch.ask.nonce), ch.ask.nonce),
                 s.actionOps[ch.phase.op].at)
            && Kinds.SeenAt(s.inbox.trace, ch.phase.seen, ch.ask.nonce, ch.phase.entry.kind)
  {
    assert RequestInv(c, s, s.requests[q]);
  }

  lemma SpentAnswersChallenge(c: Config, s: Server, r: nat) returns (q: nat)
    requires Inv(c, s) && r < |s.requests| && HasSpent(s.requests[r].phase)
    ensures q < |s.requests| && s.requests[q].phase.Challenged? && AnswersChallenge(c, s, r, q)
  {
    SpentEvidence(c, s, r);
    var op := s.requests[r].phase.op;
    ConsumeTakesFreshMint(EvictOldest, s.actionOps, op);
    var i := Taken(EvictOldest, s.actionOps, op).value;
    assert OpMade(s, i);
    q :| 0 <= q < |s.requests| && MintsOp(s.requests[q], i);
    ChallengeEvidence(c, s, q);
  }

  /** What stood behind a remote decision when it reached the decision seam. */
  ghost predicate Authenticated(c: Config, s: Server, r: nat)
    requires r < |s.requests| && s.requests[r].phase.Applied?
  {
    var ask, phase := s.requests[r].ask, s.requests[r].phase;
    && DecisionChecked(c, s, ask, phase.session, phase.at)
    && phase.session.credential in c.allowed
    && phase.handler < |s.inbox.handlers| && OrderedBy(c, s.inbox.handlers[phase.handler], ask)
  }

  lemma AppliedIsAuthenticated(c: Config, s: Server, r: nat)
    requires RequestsInv(c, s) && r < |s.requests| && s.requests[r].phase.Applied?
    ensures Authenticated(c, s, r)
  {
    assert RequestInv(c, s, s.requests[r]);
  }

  /** Agreement: every remote decision that reached the decision seam was made under
      a session less than thirty minutes old, whose allowlisted credential is the
      assertion's, and spent a challenge minted for its own nonce less than 120
      seconds before; the handler it started carries out just what it asked. */
  lemma {:induction false} Agreement(c: Config, events: seq<Event>, s: Server, r: nat) returns (q: nat)
    requires Run(c, events) == Some(s)
    requires r < |s.requests| && s.requests[r].phase.Applied?
    ensures && Authenticated(c, s, r)
            && q < |s.requests| && s.requests[q].phase.Challenged? && AnswersChallenge(c, s, r, q)
  {
    InvHolds(c, events);
    AppliedIsAuthenticated(c, s, r);
    q := SpentAnswersChallenge(c, s, r);
  }

  /** Different successful consumes take different mints. */
  lemma TakesDiffer<K>(policy: Policy, ops: seq<Op<K>>, i: nat, j: nat)
    requires Monotone(ops) && i < |ops| && j < |ops| && i != j && ops[i].Consume? && ops[j].Consume?
    requires AnswerAt(policy, ops, i) && AnswerAt(policy, ops, j)
    ensures Taken(policy, ops, i).Some? && Taken(policy, ops, j).Some? && Taken(policy, ops, i) != Taken(policy, ops, j)
  {
    ConsumeTakesFreshMint(policy, ops, i);
    ConsumeTakesFreshMint(policy, ops, j);
    if i < j {
      NoMintTakenTwice(policy, ops, i, j);
    } else {
      NoMintTakenTwice(policy, ops, j, i);
    }
  }

  lemma SpentMintsDiffer(c: Config, s: Server, r1: nat, r2: nat)
    requires Inv(c, s) && r1 < |s.requests| && r2 < |s.requests| && r1 != r2
    requires HasSpent(s.requests[r1].phase) && HasSpent(s.requests[r2].phase)
    ensures MintOf(s, r1).Some? && MintOf(s, r2).Some? && MintOf(s, r1) != MintOf(s, r2)
  {
    var p1, p2 := s.requests[r1].phase, s.requests[r2].phase;
    SpentEvidence(c, s, r1);
    SpentEvidence(c, s, r2);
    assert Apart(p1, p2);
    TakesDiffer(EvictOldest, s.actionOps, p1.op, p2.op);
  }

  /** No two decisions rest on the same mint, whatever bytes the challenges have. */
  lemma {:induction false} AgreementIsInjective(c: Config, events: seq<Event>, s: Server, r1: nat, r2: nat)
    requires Run(c, events) == Some(s)
    requires && r1 < |s.requests| && r2 < |s.requests| && r1 != r2
             && HasSpent(s.requests[r1].phase) && HasSpent(s.requests[r2].phase)
    ensures MintOf(s, r1).Some? && MintOf(s, r2).Some? && MintOf(s, r1) != MintOf(s, r2)
  {
    InvHolds(c, events);
    SpentMintsDiffer(c, s, r1, r2);
  }

  /** Every remote decision in the seam comes from exactly one such request. */
  lemma {:induction false} RemoteHandlerHasRequest(c: Config, events: seq<Event>, s: Server, h: nat) returns (r: nat)
    requires Run(c, events) == Some(s)
    requires h < |s.inbox.handlers| && s.inbox.handlers[h].requester.Remote?
    ensures && r < |s.requests| && Orders(s.requests[r], h)
            && forall k :: 0 <= k < |s.requests| && k != r ==> !Orders(s.requests[k], h)
  {
    InvHolds(c, events);
    assert HandlerMade(s, h);
    r :| 0 <= r < |s.requests| && Orders(s.requests[r], h);
    assert forall k :: 0 <= k < |s.requests| && k != r ==> Apart(s.requests[r].phase, s.requests[k].phase);
  }

  // -------------------------------------------------------------------------- logins

  ghost function LoginMint(s: Server, l: nat): Option<nat>
    requires l < |s.requests| && s.requests[l].phase.LoggedIn?
  {
    var op := s.requests[l].phase.op;
    if op < |s.loginOps| && s.loginOps[op].Consume? then Taken(FailClosed, s.loginOps, op) else None
  }

  /** A login that consumed a login challenge minted for it less than 120 seconds
      before, ahead of generating its session for an allowlisted credential. */
  ghost predicate AnswersLoginChallenge(c: Config, s: Server, l: nat)
    requires l < |s.requests| && s.requests[l].phase.LoggedIn?
  {
    var ask, phase := s.requests[l].ask, s.requests[l].phase;
    && ask.AskLogin? && ask.credential in c.allowed && phase.session.credential == ask.credential
    && LoginMint(s, l).Some? && LoginMint(s, l).value < phase.op < |s.loginOps|
    && var minted, consumed := s.loginOps[LoginMint(s, l).value], s.loginOps[phase.op];
       && minted.Mint? && Some(minted.key) == Some(consumed.key) == ask.challenge
       && consumed.at - minted.at < 120.0 && consumed.at <= phase.session.createdAt
  }

  lemma LoginIsAnswered(c: Config, s: Server, l: nat)
    requires Inv(c, s) && l < |s.requests| && s.requests[l].phase.LoggedIn?
    ensures AnswersLoginChallenge(c, s, l)
  {
    assert RequestInv(c, s, s.requests[l]);
    ConsumeTakesFreshMint(FailClosed, s.loginOps, s.requests[l].phase.op);
  }

  lemma LoginMintsDiffer(c: Config, s: Server, k: nat, l: nat)
    requires Inv(c, s) && k < |s.requests| && l < |s.requests| && k != l
    requires s.requests[k].phase.LoggedIn? && s.requests[l].phase.LoggedIn?
    ensures LoginMint(s, k) != LoginMint(s, l)
  {
    assert RequestInv(c, s, s.requests[k]) && RequestInv(c, s, s.requests[l]);
    assert Apart(s.requests[k].phase, s.requests[l].phase);
    TakesDiffer(FailClosed, s.loginOps, s.requests[k].phase.op, s.requests[l].phase.op);
  }

  /** Request `l` opened this session, having spent a challenge that no other login has. */
  ghost predicate OpenedByLogin(c: Config, s: Server, session: Session, l: nat) {
    && l < |s.requests| && LogsIn(s.requests[l], session) && AnswersLoginChallenge(c, s, l)
    && forall k :: 0 <= k < |s.requests| && k != l && s.requests[k].phase.LoggedIn? ==> LoginMint(s, k) != LoginMint(s, l)
  }

  lemma SessionIsOpened(c: Config, s: Server, session: Session) returns (l: nat)
    requires Inv(c, s) && FromLogin(c, s, session)
    ensures OpenedByLogin(c, s, session, l)
  {
    l :| 0 <= l < |s.requests| && LogsIn(s.requests[l], session);
    LoginIsAnswered(c, s, l);
    forall k | 0 <= k < |s.requests| && k != l && s.requests[k].phase.LoggedIn? ensures LoginMint(s, k) != LoginMint(s, l) {
      LoginMintsDiffer(c, s, k, l);
    }
  }

  /** The session behind every remote decision was opened by a login that spent a
      login challenge of its own. */
  lemma {:induction false} SessionsComeFromChallenges(c: Config, events: seq<Event>, s: Server, r: nat) returns (l: nat)
    requires Run(c, events) == Some(s)
    requires r < |s.requests| && s.requests[r].phase.Applied?
    ensures OpenedByLogin(c, s, s.requests[r].phase.session, l)
  {
    InvHolds(c, events);
    AppliedIsAuthenticated(c, s, r);
    l := SessionIsOpened(c, s, s.requests[r].phase.session);
  }

  // ------------------------------------------------------------- consume, then verify

  /** Over a whole run, the assertions verified for a challenge and nonce, with
      whatever result, never outnumber the mints of that pair. */
  lemma {:induction false} VerificationsNeverExceedMints(c: Config, events: seq<Event>, s: Server, key: ActionKey)
    requires Run(c, events) == Some(s)
    ensures VerifiedCount(s.requests, key) <= AcceptedMints(EvictOldest, s.actionOps, key)
  {
    InvHolds(c, events);
    VerifiedWasSpent(s.requests, key);
    ConsumesNeverExceedMints(EvictOldest, s.actionOps, key);
    assert SpentCount(s.requests, key) == Consumes(EvictOldest, s.actionOps, key);
  }

  /** Only a decision request that passed its checks ever touches the challenge
      store: one without a body, with a word other than the two, or whose credential
      is not the session's spends nothing. */
  lemma {:induction false} OnlyCheckedRequestsSpend(c: Config, events: seq<Event>, s: Server, r: nat, at: Time, move: Move)
    requires Run(c, events) == Some(s) && r < |s.requests|
    requires s.requests[r].ask.AskDecision?
    requires Step(c, s, Handle(r, at, move)).Some?
    requires Step(c, s, Handle(r, at, move)).value.actionOps != s.actionOps
    ensures var req := s.requests[r];
            && req.phase.Cleared? && DecisionChecked(c, s, req.ask, req.phase.session, req.phase.at)
            && (req.ask.body.value.word == "approve" || req.ask.body.value.word == "reject")
            && req.ask.body.value.credential == req.phase.session.credential
  {
    InvHolds(c, events);
    assert RequestInv(c, s, s.requests[r]);
    DeedTouches(c, s, s.requests[r], at, move);
  }

  lemma DeedTouches(c: Config, s: Server, req: Request, at: Time, move: Move)
    requires Do(c, s, req, at, move).Some? && req.ask.AskDecision?
    ensures Do(c, s, req, at, move).value.action != [] ==> req.phase.Cleared?
  {
  }

  // ------------------------------------------------------------------ what a challenge is

  /** Every live action challenge is the hash of 32 random bytes, the digest of its
      entry as read when it was minted, and its nonce. */
  lemma {:induction false} LiveChallengesAreBound(c: Config, events: seq<Event>, s: Server, k: nat) returns (q: nat)
    requires Run(c, events) == Some(s) && k < |Deque(EvictOldest, s.actionOps)|
    ensures var live := Deque(EvictOldest, s.actionOps)[k];
            && q < |s.requests| && s.requests[q].phase.Challenged? && s.requests[q].ask.AskChallenge?
            && var phase := s.requests[q].phase;
               && |phase.random| == 32 && live.key.1 == s.requests[q].ask.nonce
               && live.key.0 == c.hash(phase.random + EntryDigest(phase.entry.kind) + live.key.1)
               && Kinds.SeenAt(s.inbox.trace, phase.seen, live.key.1, phase.entry.kind)
  {
    InvHolds(c, events);
    var ops := s.actionOps;
    var items := Live(Outstanding(EvictOldest, ops), EndTime(ops));
    DequeIsLive(EvictOldest, ops, EndTime(ops));
    OutstandingShape(EvictOldest, ops);
    LiveMembers(Outstanding(EvictOldest, ops), EndTime(ops));
    assert items[k] in items;
    assert IsMintOf(items[k], ops);
    assert OpMade(s, items[k].id);
    q :| 0 <= q < |s.requests| && MintsOp(s.requests[q], items[k].id);
    ChallengeEvidence(c, s, q);
  }

  ghost predicate CollisionFree(hash: seq<Byte> -> Challenge) {
    forall x, y :: hash(x) == hash(y) ==> x == y
  }

  /** The concatenation loses nothing: the random bytes, the digest and the nonce follow
      one another, and two of them have a fixed length. */
  lemma PreimageIsInjective(r1: seq<Byte>, d1: Digest, n1: Nonce, r2: seq<Byte>, d2: Digest, n2: Nonce)
    requires |r1| == |r2| == 32
    ensures Preimage(r1, d1, n1) == Preimage(r2, d2, n2) <==> r1 == r2 && d1 == d2 && n1 == n2
    ensures var p := Preimage(r1, d1, n1);
            |p| == 64 + |n1| && p[..32] == r1 && p[32..64] == d1 && p[64..] == n1
  {
    var p, q := Preimage(r1, d1, n1), Preimage(r2, d2, n2);
    if p == q {
      assert r1 == p[..32] && d1 == p[32..64] && n1 == p[64..];
      assert r2 == q[..32] && d2 == q[32..64] && n2 == q[64..];
    }
  }

  /** With a collision-free hash, two challenge requests that got the same challenge
      are for the same nonce and the same content. */
  lemma {:induction false} ChallengeDeterminesContent(c: Config, events: seq<Event>, s: Server, q1: nat, q2: nat)
    requires Run(c, events) == Some(s) && CollisionFree(c.hash)
    requires && q1 < |s.requests| && q2 < |s.requests|
             && s.requests[q1].phase.Challenged? && s.requests[q2].phase.Challenged?
             && s.requests[q1].phase.op < |s.actionOps| && s.requests[q2].phase.op < |s.actionOps|
             && s.actionOps[s.requests[q1].phase.op].key.0 == s.actionOps[s.requests[q2].phase.op].key.0
    ensures && s.requests[q1].ask.AskChallenge? && s.requests[q2].ask.AskChallenge?
            && s.requests[q1].ask.nonce == s.requests[q2].ask.nonce
            && EntryDigest(s.requests[q1].phase.entry.kind) == EntryDigest(s.requests[q2].phase.entry.kind)
  {
    InvHolds(c, events);
    var a, b := s.requests[q1], s.requests[q2];
    ChallengeEvidence(c, s, q1);
    ChallengeEvidence(c, s, q2);
    var x := Preimage(a.phase.random, EntryDigest(a.phase.entry.kind), a.ask.nonce);
    var y := Preimage(b.phase.random, EntryDigest(b.phase.entry.kind), b.ask.nonce);
    assert c.hash(x) == c.hash(y);
    PreimageIsInjective(a.phase.random, EntryDigest(a.phase.entry.kind), a.ask.nonce,
                        b.phase.random, EntryDigest(b.phase.entry.kind), b.ask.nonce);
  }

  // --------------------------------------------------------------------- end to end

  /** From the stored effect back to the operator: every effect on the approval store
      by a remote decision goes back to one authenticated request, was logged under
      that request's credential before it happened, and spent a challenge minted for
      that very nonce. */
  lemma {:induction false} RemoteEffectIsAuthorized(c: Config, events: seq<Event>, s: Server, j: nat, h: nat) returns (r: nat, q: nat)
    requires Run(c, events) == Some(s)
    requires var inbox := s.inbox;
             && j < |inbox.trace| && Outcomes.EffectOf(inbox.trace[j], h)
             && h < |inbox.handlers| && inbox.handlers[h].requester.Remote?
    ensures && r < |s.requests| && q < |s.requests| && Orders(s.requests[r], h) && Authenticated(c, s, r)
            && s.requests[q].phase.Challenged? && AnswersChallenge(c, s, r, q)
            && s.requests[r].phase.since <= j
            && Runs.RowBefore(s.inbox.trace, j, h, s.requests[r].ask.nonce, s.requests[r].ask.body.value.word == "approve",
                              Some(s.requests[r].phase.session.credential))
  {
    InvHolds(c, events);
    r := RemoteHandlerHasRequest(c, events, s, h);
    q := Agreement(c, events, s, r);
    Runs.RowBeforeEffect(c.binding, s.inboxEvents, s.inbox, j, h);
    assert NoEffectBefore(s, s.requests[r].phase);
  }

  /** What is attested is what the operator's assertion covered: the attestation a
      remote approval stores is over the digest bound into the challenge it
      answered, unless the nonce was inserted anew after the entry was read for it. */
  lemma {:induction false} AttestedIsWhatWasChallenged(c: Config, events: seq<Event>, s: Server, j: nat, h: nat) returns (r: nat, q: nat)
    requires Run(c, events) == Some(s)
    requires var inbox := s.inbox;
             && j < |inbox.trace| && inbox.trace[j].AttestedOn? && inbox.trace[j].author == Some(h)
             && h < |inbox.handlers| && inbox.handlers[h].requester.Remote?
    ensures && r < |s.requests| && q < |s.requests| && Orders(s.requests[r], h) && Authenticated(c, s, r)
            && s.requests[q].phase.Challenged? && AnswersChallenge(c, s, r, q)
            && var ch := s.requests[q].phase;
               && ch.seen <= j
               && ((forall i :: ch.seen <= i < j ==> !Lives.InsertsAs(s.inbox.trace[i], s.inbox.trace[j].nonce))
                     ==> Kinds.AttestsKind(c.binding, s.inbox.trace[j], s.requests[q].ask.nonce, ch.entry.kind))
  {
    r, q := RemoteEffectIsAuthorized(c, events, s, j, h);
    InvHolds(c, events);
    var ch, n := s.requests[q], s.requests[q].ask.nonce;
    ChallengeEvidence(c, s, q);
    Runs.RowBeforeEffect(c.binding, s.inboxEvents, s.inbox, j, h);
    if forall i :: ch.phase.seen <= i < j ==> !Lives.InsertsAs(s.inbox.trace[i], n) {
      Kinds.AttestedIsWhatWasSeen(c.binding, s.inboxEvents, s.inbox, ch.phase.seen, j, n, ch.phase.entry.kind);
    }
  }
}
