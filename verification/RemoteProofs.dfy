/** What every run of the remote server keeps. */
module RemoteProofs {
  import opened Common
  import opened ChallengeStores
  import opened Approvals
  import opened Remotes
  import D = Decisions
  import Kinds = DecisionKinds
  import Proofs = DecisionProofs
  import Bucket = TokenBuckets

  // ---------------------------------------------------------------------- growth

  ghost predicate SameOrders(a: D.State, b: D.State) {
    && |a.handlers| <= |b.handlers| && a.trace <= b.trace
    && forall h :: 0 <= h < |a.handlers| ==>
         && a.handlers[h].nonce == b.handlers[h].nonce && a.handlers[h].approve == b.handlers[h].approve
         && a.handlers[h].requester == b.handlers[h].requester
  }

  /** Histories only get longer, and a completed login stays one. */
  ghost predicate Grows(s: Server, t: Server) {
    && s.now <= t.now && s.turns <= t.turns && s.loginOps <= t.loginOps && s.actionOps <= t.actionOps
    && SameOrders(s.inbox, t.inbox) && |s.requests| <= |t.requests|
    && forall l :: 0 <= l < |s.requests| ==>
         && t.requests[l].ask == s.requests[l].ask
         && (s.requests[l].phase.LoggedIn? ==> t.requests[l] == s.requests[l])
  }

  lemma InboxStepKeepsOrders(b: Binding, s: D.State, e: D.Event)
    requires D.Step(b, s, e).Some?
    ensures SameOrders(s, D.Step(b, s, e).value)
  {
    Proofs.StepFrame(b, s, e);
  }

  lemma StepGrows(c: Config, s: Server, e: Event)
    requires Step(c, s, e).Some?
    ensures Grows(s, Step(c, s, e).value)
  {
    if e.Inbox? {
      InboxStepKeepsOrders(c.binding, s.inbox, e.event);
    }
  }

  // ----------------------------------------------------------------------- clock

  ghost predicate OpsInv<K>(ops: seq<Op<K>>, now: Time) {
    Monotone(ops) && forall i :: 0 <= i < |ops| ==> ops[i].at <= now
  }

  ghost predicate ClockInv(s: Server) {
    OpsInv(s.loginOps, s.now) && OpsInv(s.actionOps, s.now)
  }

  /** At most one operation, made now. */
  ghost predicate MadeNow<K>(more: seq<Op<K>>, now: Time) {
    |more| <= 1 && forall i :: 0 <= i < |more| ==> more[i].at == now
  }

  lemma OpsAppend<K>(ops: seq<Op<K>>, more: seq<Op<K>>, now: Time, later: Time)
    requires OpsInv(ops, now) && now <= later && MadeNow(more, later)
    ensures OpsInv(ops + more, later)
  {
  }

  lemma DeedIsNow(c: Config, s: Server, req: Request, at: Time, move: Move)
    requires Do(c, s, req, at, move).Some?
    ensures var deed := Do(c, s, req, at, move).value;
            MadeNow(deed.login, at) && MadeNow(deed.action, at)
  {
  }

  lemma ClockKept(c: Config, s: Server, e: Event)
    requires ClockInv(s) && Step(c, s, e).Some?
    ensures ClockInv(Step(c, s, e).value)
  {
    if e.Handle? {
      DeedIsNow(c, s, s.requests[e.r], e.at, e.move);
      var deed := Do(c, s, s.requests[e.r], e.at, e.move).value;
      OpsAppend(s.loginOps, deed.login, s.now, e.at);
      OpsAppend(s.actionOps, deed.action, s.now, e.at);
    }
  }

  // --------------------------------------------------------------------- limiter

  ghost const ENVELOPE: Bucket.Envelope := Bucket.Envelope(20.0, (t: Time) => t * 2.0)

  lemma EnvelopeStands()
    ensures Bucket.Stands(ENVELOPE, LIMITS) && LIMITS.Sane() && ENVELOPE.Sane()
  {
    forall t: Time ensures Bucket.EarnsAtRate(ENVELOPE, LIMITS, t) {
    }
    Bucket.SaneLimits(ENVELOPE, LIMITS);
  }

  /** The limiter's requests are a run of the token bucket, full at the start, and its
      level is that run's. */
  ghost predicate LimiterInv(s: Server) {
    && Bucket.IsBucketRun(ENVELOPE, 0.0, s.turns) && s.refilledAt == Bucket.LastTime(0.0, s.turns) <= s.now
    && s.tokens == Bucket.LevelAfter(ENVELOPE, 0.0, s.turns)
  }

  lemma AcquireFollows(s: Server, at: Time)
    requires LimiterInv(s) && s.now <= at
    ensures var ok := Bucket.Refill(LIMITS, s.tokens, s.refilledAt, at) >= 1.0;
            var turns := [Bucket.Request(at, ok)];
            && Bucket.IsBucketRun(ENVELOPE, 0.0, s.turns + turns) && Bucket.LastTime(0.0, s.turns + turns) == at
            && TokensAfter(s, turns) == Bucket.LevelAfter(ENVELOPE, 0.0, s.turns + turns)
            && (ok <==> Bucket.HasRoom(ENVELOPE, s.turns, at))
  {
    EnvelopeStands();
    Bucket.RefillIsLevel(ENVELOPE, LIMITS, 0.0, s.turns, at);
    Bucket.Answered(ENVELOPE, 0.0, s.turns, at, Bucket.Refill(LIMITS, s.tokens, s.refilledAt, at) >= 1.0);
  }

  /** Only a request to the limiter changes it, and then as the bucket would. */
  lemma DeedTurns(c: Config, s: Server, req: Request, at: Time, move: Move)
    requires Do(c, s, req, at, move).Some?
    ensures var turns := Do(c, s, req, at, move).value.turns;
            turns == [] || turns == [Bucket.Request(at, Bucket.Refill(LIMITS, s.tokens, s.refilledAt, at) >= 1.0)]
  {
  }

  /** At most one request to the limiter, or none, and the clock. */
  ghost predicate Turned(s: Server, t: Server, turns: seq<Bucket.Request>) {
    && s.now <= t.now && t.turns == s.turns + turns && t.tokens == TokensAfter(s, turns)
    && t.refilledAt == (if turns == [] then s.refilledAt else turns[0].at)
    && (turns == [] || turns == [Bucket.Request(t.now, Bucket.Refill(LIMITS, s.tokens, s.refilledAt, t.now) >= 1.0)])
  }

  lemma StepTurns(c: Config, s: Server, e: Event)
    requires Step(c, s, e).Some?
    ensures exists turns :: Turned(s, Step(c, s, e).value, turns)
  {
    var t := Step(c, s, e).value;
    if e.Handle? {
      DeedTurns(c, s, s.requests[e.r], e.at, e.move);
      assert Turned(s, t, Do(c, s, s.requests[e.r], e.at, e.move).value.turns);
    } else {
      assert Turned(s, t, []);
    }
  }

  lemma TurnedKeeps(s: Server, t: Server, turns: seq<Bucket.Request>)
    requires LimiterInv(s) && Turned(s, t, turns)
    ensures LimiterInv(t)
  {
    if turns == [] {
      assert s.turns + [] == s.turns;
    } else {
      AcquireFollows(s, t.now);
    }
  }

  lemma LimiterKept(c: Config, s: Server, e: Event)
    requires LimiterInv(s) && Step(c, s, e).Some?
    ensures LimiterInv(Step(c, s, e).value)
  {
    StepTurns(c, s, e);
    var turns :| Turned(s, Step(c, s, e).value, turns);
    TurnedKeeps(s, Step(c, s, e).value, turns);
  }

  // -------------------------------------------------------------------- evidence

  ghost predicate LogsIn(req: Request, session: Session) {
    req.phase.LoggedIn? && req.phase.session == session
  }

  /** A session some login request installed, for an allowlisted credential. */
  ghost predicate FromLogin(c: Config, s: Server, session: Session) {
    && session.credential in c.allowed && session.createdAt <= s.now
    && exists l :: 0 <= l < |s.requests| && LogsIn(s.requests[l], session)
  }

  /** Admitted at `t` under a live session, with its cookie and its CSRF value. */
  ghost predicate AdmittedBy(
      c: Config, s: Server, nonce: Nonce, cookie: Option<Token>, csrf: Option<string>, session: Session, t: Time)
  {
    && FromLogin(c, s, session) && t <= s.now && t - session.createdAt < 1800.0
    && cookie == Some(session.token) && csrf == Some(c.csrf(session.csrfKey, nonce))
  }

  ghost predicate DecisionChecked(c: Config, s: Server, ask: Ask, session: Session, t: Time) {
    && ask.AskDecision? && AdmittedBy(c, s, ask.nonce, ask.cookie, ask.csrf, session, t)
    && ask.body.Some? && ask.body.value.challenge.Some?
    && (ask.body.value.word == "approve" || ask.body.value.word == "reject")
    && ask.body.value.credential == session.credential
  }

  /** Operation `op` is this key's consume, made at `t` or later, and it succeeded. */
  ghost predicate ConsumedBy<K(!new)>(policy: Policy, ops: seq<Op<K>>, op: nat, key: K, t: Time) {
    op < |ops| && ops[op].Consume? && ops[op].key == key && AnswerAt(policy, ops, op) && t <= ops[op].at
  }

  ghost predicate LoginSpentBy(c: Config, s: Server, ask: Ask, op: nat) {
    && ask.AskLogin? && ask.credential in c.allowed && ask.challenge.Some? && op < |s.loginOps|
    && ConsumedBy(FailClosed, s.loginOps, op, ask.challenge.value, s.loginOps[op].at)
  }

  ghost predicate DecisionSpentBy(c: Config, s: Server, ask: Ask, session: Session, t: Time, op: nat, since: nat) {
    && DecisionChecked(c, s, ask, session, t) && since <= |s.inbox.trace|
    && ConsumedBy(EvictOldest, s.actionOps, op, (ask.body.value.challenge.value, ask.nonce), t)
  }

  ghost predicate GeneratedBy(c: Config, s: Server, ask: Ask, op: nat, session: Session) {
    && LoginSpentBy(c, s, ask, op) && session.credential == ask.credential
    && s.loginOps[op].at <= session.createdAt <= s.now
  }

  /** Turn number `turn` was an admission. */
  ghost predicate AdmittedAt(s: Server, turn: nat) {
    turn < |s.turns| && s.turns[turn].admitted
  }

  /** Operation `op` is the mint that this admission led to. */
  ghost predicate MintedBy(s: Server, turn: nat, op: nat) {
    AdmittedAt(s, turn) && op < |s.loginOps| && s.loginOps[op].Mint? && s.turns[turn].at <= s.loginOps[op].at
  }

  /** What a request's phase claims is true. */
  ghost predicate RequestInv(c: Config, s: Server, req: Request) {
    var ask := req.ask;
    match req.phase
    case Arrived => true
    case Refused(_) => true
    case Passed(turn) => ask.AskLoginChallenge? && AdmittedAt(s, turn) && s.turns[turn].at <= s.now
    case PageShown(turn) => ask.AskEnroll? && AdmittedAt(s, turn)
    case LoginMinted(turn, op) => ask.AskLoginChallenge? && MintedBy(s, turn, op) && AnswerAt(FailClosed, s.loginOps, op)
    case LoginFull(turn, op) => ask.AskLoginChallenge? && MintedBy(s, turn, op) && !AnswerAt(FailClosed, s.loginOps, op)
    case LoginCleared => ask.AskLogin? && ask.credential in c.allowed && ask.challenge.Some?
    case LoginSpent(op) => LoginSpentBy(c, s, ask, op)
    case LoginProved(op) => LoginSpentBy(c, s, ask, op)
    case LoginGenerated(op, session) => GeneratedBy(c, s, ask, op, session)
    case LoggedIn(op, session) => GeneratedBy(c, s, ask, op, session)
    case Admitted(session, t) => ask.AskChallenge? && AdmittedBy(c, s, ask.nonce, ask.cookie, ask.csrf, session, t)
    case Looked(session, t, entry, seen) =>
      && ask.AskChallenge? && AdmittedBy(c, s, ask.nonce, ask.cookie, ask.csrf, session, t)
      && Kinds.SeenAt(s.inbox.trace, seen, ask.nonce, entry.kind)
    case Challenged(session, t, entry, seen, random, op) =>
      && ask.AskChallenge? && AdmittedBy(c, s, ask.nonce, ask.cookie, ask.csrf, session, t)
      && Kinds.SeenAt(s.inbox.trace, seen, ask.nonce, entry.kind)
      && |random| == 32 && op < |s.actionOps| && t <= s.actionOps[op].at
      && s.actionOps[op] == Mint((DeriveActionChallenge(c, random, EntryDigest(entry.kind), ask.nonce), ask.nonce), s.actionOps[op].at)
    case Cleared(session, t) => DecisionChecked(c, s, ask, session, t)
    case Spent(session, t, op, since) => DecisionSpentBy(c, s, ask, session, t, op, since)
    case Denied(session, t, op, since) => DecisionSpentBy(c, s, ask, session, t, op, since)
    case Proved(session, t, op, since) => DecisionSpentBy(c, s, ask, session, t, op, since)
    case Applied(session, t, op, since, h) =>
      && DecisionSpentBy(c, s, ask, session, t, op, since) && h < |s.inbox.handlers|
      && OrderedBy(c, s.inbox.handlers[h], ask)
  }

  /** The handler carries out exactly what the request asked, for its credential. */
  ghost predicate OrderedBy(c: Config, who: D.Handler, ask: Ask)
    requires ask.AskDecision? && ask.body.Some?
  {
    && who.nonce == ask.nonce && who.approve == (ask.body.value.word == "approve")
    && who.requester == RequesterOf(c, ask.nonce, ask.body.value)
  }

  ghost predicate RequestsInv(c: Config, s: Server) {
    && (s.session.Some? ==> FromLogin(c, s, s.session.value))
    && forall r :: 0 <= r < |s.requests| ==> RequestInv(c, s, s.requests[r])
  }

  // -------------------------------------------------------------------- stability

  lemma AnswerStays<K>(policy: Policy, ops: seq<Op<K>>, more: seq<Op<K>>, k: nat)
    requires ops <= more && k < |ops|
    ensures AnswerAt(policy, more, k) == AnswerAt(policy, ops, k)
  {
    assert more[..k] == ops[..k];
  }

  lemma AnswerOfLast<K>(policy: Policy, ops: seq<Op<K>>, op: Op<K>)
    ensures AnswerAt(policy, ops + [op], |ops|) == Accepts(policy, ops, op)
  {
    assert (ops + [op])[..|ops|] == ops;
  }

  lemma FromLoginStays(c: Config, s: Server, t: Server, session: Session)
    requires Grows(s, t) && FromLogin(c, s, session)
    ensures FromLogin(c, t, session)
  {
    var l :| 0 <= l < |s.requests| && LogsIn(s.requests[l], session);
    assert LogsIn(t.requests[l], session);
  }

  lemma SeenStays(s: Server, t: Server, k: nat, n: Nonce, kind: Kind)
    requires Grows(s, t) && Kinds.SeenAt(s.inbox.trace, k, n, kind)
    ensures Kinds.SeenAt(t.inbox.trace, k, n, kind)
  {
    assert t.inbox.trace == s.inbox.trace + t.inbox.trace[|s.inbox.trace|..];
    Kinds.SeenStays(s.inbox.trace, t.inbox.trace[|s.inbox.trace|..], k, n, kind);
  }

  /** The session a phase relies on. */
  ghost function SessionOf(phase: Phase): Option<Session> {
    if phase.Admitted? || phase.Looked? || phase.Challenged? || phase.Cleared? || phase.Spent? || phase.Denied?
       || phase.Proved? || phase.Applied? then Some(phase.session)
    else None
  }

  ghost function LoginOp(phase: Phase): Option<nat> {
    if phase.LoginMinted? || phase.LoginFull? || phase.LoginSpent? || phase.LoginProved? || phase.LoginGenerated? || phase.LoggedIn? then Some(phase.op) else None
  }

  ghost function ActionOp(phase: Phase): Option<nat> {
    if phase.Challenged? || phase.Spent? || phase.Denied? || phase.Proved? || phase.Applied? then Some(phase.op) else None
  }

  lemma RequestStays(c: Config, s: Server, t: Server, req: Request)
    requires Grows(s, t) && RequestInv(c, s, req)
    ensures RequestInv(c, t, req)
  {
    if SessionOf(req.phase).Some? {
      FromLoginStays(c, s, t, req.phase.session);
    }
    if LoginOp(req.phase).Some? {
      AnswerStays(FailClosed, s.loginOps, t.loginOps, req.phase.op);
    }
    if ActionOp(req.phase).Some? {
      AnswerStays(EvictOldest, s.actionOps, t.actionOps, req.phase.op);
    }
    if req.phase.Looked? || req.phase.Challenged? {
      SeenStays(s, t, req.phase.seen, req.ask.nonce, req.phase.entry.kind);
    }
  }

  // ------------------------------------------------------------------ the inbox

  ghost predicate InboxInv(c: Config, s: Server) {
    D.Run(c.binding, s.inboxEvents) == Some(s.inbox)
  }

  lemma InboxExtends(b: Binding, events: seq<D.Event>, s: D.State, e: D.Event)
    requires D.Run(b, events) == Some(s)
    ensures D.Run(b, events + [e]) == D.Step(b, s, e)
  {
    assert (events + [e])[..|events|] == events;
  }

  lemma DeedBegins(c: Config, s: Server, req: Request, at: Time, move: Move)
    requires Do(c, s, req, at, move).Some?
    ensures var begins := Do(c, s, req, at, move).value.begins;
            begins == [] || (|begins| == 1 && begins[0].Begin?)
  {
  }

  lemma InboxKept(c: Config, s: Server, e: Event)
    requires InboxInv(c, s) && Step(c, s, e).Some?
    ensures InboxInv(c, Step(c, s, e).value)
  {
    match e
    case Inbox(event) => InboxExtends(c.binding, s.inboxEvents, s.inbox, event);
    case Handle(r, at, move) =>
      DeedBegins(c, s, s.requests[r], at, move);
      var begins := Do(c, s, s.requests[r], at, move).value.begins;
      if begins == [] {
        assert s.inboxEvents + begins == s.inboxEvents;
      } else {
        InboxExtends(c.binding, s.inboxEvents, s.inbox, begins[0]);
        assert s.inboxEvents + begins == s.inboxEvents + [begins[0]];
      }
    case _ =>
  }

  // --------------------------------------------------------------- phases are true

  lemma CheckHolds(c: Config, s: Server, t: Server, ask: Ask, at: Time, onRecord: bool)
    requires s.session.Some? ==> FromLogin(c, s, s.session.value)
    requires Grows(s, t) && at <= t.now && DoCheck(c, s, ask, at, onRecord).Some?
    ensures RequestInv(c, t, Request(ask, DoCheck(c, s, ask, at, onRecord).value.phase))
  {
    if s.session.Some? {
      FromLoginStays(c, s, t, s.session.value);
    }
  }

  lemma SpendHolds(c: Config, s: Server, t: Server, req: Request, at: Time)
    requires RequestInv(c, s, req) && Grows(s, t) && DoSpend(s, req.ask, req.phase, at).Some?
    requires s.now <= at
    requires var deed := DoSpend(s, req.ask, req.phase, at).value;
             t.loginOps == s.loginOps + deed.login && t.actionOps == s.actionOps + deed.action
    ensures RequestInv(c, t, Request(req.ask, DoSpend(s, req.ask, req.phase, at).value.phase))
  {
    RequestStays(c, s, t, req);
    if req.ask.AskLogin? {
      AnswerOfLast(FailClosed, s.loginOps, Consume(req.ask.challenge.value, at));
    } else {
      AnswerOfLast(EvictOldest, s.actionOps, Consume((req.ask.body.value.challenge.value, req.ask.nonce), at));
    }
  }

  lemma AcquireHolds(c: Config, s: Server, t: Server, req: Request, at: Time)
    requires Grows(s, t) && s.now <= at <= t.now && DoAcquire(s, req.ask, req.phase, at).Some?
    requires t.turns == s.turns + DoAcquire(s, req.ask, req.phase, at).value.turns
    ensures RequestInv(c, t, Request(req.ask, DoAcquire(s, req.ask, req.phase, at).value.phase))
  {
  }

  lemma MintLoginHolds(c: Config, s: Server, t: Server, req: Request, at: Time, random: Challenge)
    requires RequestInv(c, s, req) && Grows(s, t) && s.now <= at && DoMintLogin(s, req.phase, at, random).Some?
    requires t.loginOps == s.loginOps + DoMintLogin(s, req.phase, at, random).value.login
    ensures RequestInv(c, t, Request(req.ask, DoMintLogin(s, req.phase, at, random).value.phase))
  {
    RequestStays(c, s, t, req);
    AnswerOfLast(FailClosed, s.loginOps, Mint(random, at));
  }

  lemma LookHolds(c: Config, s: Server, t: Server, req: Request, opening: D.Opening)
    requires RequestInv(c, s, req) && InboxInv(c, s) && Grows(s, t) && DoLook(s, req.ask, req.phase, opening).Some?
    ensures RequestInv(c, t, Request(req.ask, DoLook(s, req.ask, req.phase, opening).value.phase))
  {
    RequestStays(c, s, t, req);
    var nonce := req.ask.nonce;
    if opening.Opens? && nonce in s.inbox.store {
      Kinds.ReadIsSeen(c.binding, s.inboxEvents, s.inbox, nonce);
      SeenStays(s, t, |s.inbox.trace|, nonce, s.inbox.store[nonce].kind);
    }
  }

  lemma MintHolds(c: Config, s: Server, t: Server, req: Request, at: Time, random: seq<Byte>)
    requires RequestInv(c, s, req) && Grows(s, t) && DoMint(c, s, req.ask, req.phase, at, random).Some? && s.now <= at
    requires t.actionOps == s.actionOps + DoMint(c, s, req.ask, req.phase, at, random).value.action
    ensures RequestInv(c, t, Request(req.ask, DoMint(c, s, req.ask, req.phase, at, random).value.phase))
  {
    RequestStays(c, s, t, req);
  }

  lemma DecideHolds(c: Config, s: Server, t: Server, req: Request)
    requires RequestInv(c, s, req) && Grows(s, t) && DoDecide(c, s, req.ask, req.phase).Some?
    requires t.inbox == Begun(s.inbox, DoDecide(c, s, req.ask, req.phase).value.begins)
    ensures RequestInv(c, t, Request(req.ask, DoDecide(c, s, req.ask, req.phase).value.phase))
  {
    RequestStays(c, s, t, req);
  }

  lemma OthersHold(c: Config, s: Server, t: Server, req: Request, at: Time, move: Move)
    requires RequestInv(c, s, req) && Grows(s, t) && s.now <= at <= t.now && Do(c, s, req, at, move).Some?
    requires move.Prove? || move.Generate? || move.Install?
    requires ClockInv(s)
    ensures RequestInv(c, t, Request(req.ask, Do(c, s, req, at, move).value.phase))
  {
    RequestStays(c, s, t, req);
  }

  lemma PhaseHolds(c: Config, s: Server, r: nat, at: Time, move: Move)
    requires ClockInv(s) && InboxInv(c, s) && RequestsInv(c, s)
    requires r < |s.requests| && Step(c, s, Handle(r, at, move)).Some?
    ensures var t := Step(c, s, Handle(r, at, move)).value;
            RequestInv(c, t, t.requests[r])
  {
    var t := Step(c, s, Handle(r, at, move)).value;
    StepGrows(c, s, Handle(r, at, move));
    var req := s.requests[r];
    match move
    case Acquire => AcquireHolds(c, s, t, req, at);
    case MintLogin(random) => MintLoginHolds(c, s, t, req, at, random);
    case Check(onRecord) => CheckHolds(c, s, t, req.ask, at, onRecord);
    case Spend => SpendHolds(c, s, t, req, at);
    case Look(opening) => LookHolds(c, s, t, req, opening);
    case MintFor(random) => MintHolds(c, s, t, req, at, random);
    case Decide => DecideHolds(c, s, t, req);
    case _ => OthersHold(c, s, t, req, at, move);
  }

  /** A step leaves the session, drops it, or installs the one it generated. */
  lemma DeedSession(c: Config, s: Server, req: Request, at: Time, move: Move)
    requires Do(c, s, req, at, move).Some?
    ensures var deed := Do(c, s, req, at, move).value;
            || deed.session == s.session || deed.session.None?
            || (req.phase.LoginGenerated? && deed.session == Some(req.phase.session) && deed.phase == LoggedIn(req.phase.op, req.phase.session))
  {
  }

  lemma InstalledIsFromLogin(c: Config, t: Server, r: nat, session: Session)
    requires r < |t.requests| && LogsIn(t.requests[r], session) && RequestInv(c, t, t.requests[r])
    ensures FromLogin(c, t, session)
  {
  }

  lemma SessionHolds(c: Config, s: Server, e: Event)
    requires ClockInv(s) && InboxInv(c, s) && RequestsInv(c, s) && Step(c, s, e).Some?
    ensures var t := Step(c, s, e).value;
            t.session.Some? ==> FromLogin(c, t, t.session.value)
  {
    var t := Step(c, s, e).value;
    StepGrows(c, s, e);
    if t.session.Some? && t.session == s.session {
      FromLoginStays(c, s, t, t.session.value);
    } else if t.session.Some? {
      DeedSession(c, s, s.requests[e.r], e.at, e.move);
      PhaseHolds(c, s, e.r, e.at, e.move);
      InstalledIsFromLogin(c, t, e.r, t.session.value);
    }
  }

  lemma RequestsKept(c: Config, s: Server, e: Event)
    requires ClockInv(s) && InboxInv(c, s) && RequestsInv(c, s) && Step(c, s, e).Some?
    ensures RequestsInv(c, Step(c, s, e).value)
  {
    var t := Step(c, s, e).value;
    StepGrows(c, s, e);
    SessionHolds(c, s, e);
    forall r | 0 <= r < |t.requests| ensures RequestInv(c, t, t.requests[r]) {
      if e.Handle? && e.r == r {
        PhaseHolds(c, s, r, e.at, e.move);
      } else if r < |s.requests| {
        assert t.requests[r] == s.requests[r];
        RequestStays(c, s, t, s.requests[r]);
      }
    }
  }
}
