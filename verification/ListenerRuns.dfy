/** The listener's handlers against the server's steps: from every reachable state, what
    a handler may answer and spend is what a run of that request's steps comes to. So all
    that is proved of every run holds of the handlers. */
module ListenerRuns {
  import opened Common
  import opened ChallengeStores
  import opened ChallengeObjects
  import opened Approvals
  import opened Remotes
  import opened RemoteProofs
  import opened RemotePaths
  import opened Listeners
  import Runs = RemoteRuns
  import Bucket = TokenBuckets
  import D = Decisions

  function ViewOf(s: Server): View {
    View(s.turns, s.loginOps, s.actionOps, s.session)
  }

  /** The answer to a request that is over; what it minted and whom it ordered are in
      the server's state. */
  ghost function AnswerOf(s: Server, req: Request): Option<Answer> {
    match req.phase
    case Refused(reply) => Some(Declines(reply))
    case LoginFull(_, _) => Some(Declines(StoreFull))
    case LoginMinted(_, op) => if op < |s.loginOps| then Some(OffersLogin(s.loginOps[op].key)) else None
    case PageShown(_) => Some(ShowsEnroll)
    case LoggedIn(_, session) => Some(OpensSession(session))
    case Challenged(_, _, _, _, _, op) => if op < |s.actionOps| then Some(OffersAction(s.actionOps[op].key.0)) else None
    case Denied(_, _, _, _) => Some(Declines(AssertionInvalid))
    case Applied(_, _, _, _, h) =>
      if h < |s.inbox.handlers| then Some(Applies(s.inbox.handlers[h].approve, s.inbox.handlers[h].requester)) else None
    case _ => None
  }

  /** Since `s`, one request came, and it was answered `a`. */
  ghost predicate Answered(s: Server, t: Server, ask: Ask, a: Answer) {
    && |t.requests| == |s.requests| + 1 && t.requests[..|s.requests|] == s.requests
    && t.requests[|s.requests|].ask == ask && AnswerOf(t, t.requests[|s.requests|]) == Some(a)
  }

  ghost predicate SameInbox(s: Server, t: Server) {
    t.inbox == s.inbox && t.inboxEvents == s.inboxEvents
  }

  // -------------------------------------------------------------------------- steps

  ghost predicate Continues(c: Config, past: seq<Event>, t: Server) {
    exists events :: past <= events && Run(c, events) == Some(t)
  }

  /** Every run to `s` goes on to `t`. */
  ghost predicate Goes(c: Config, s: Server, t: Server) {
    forall past :: Run(c, past) == Some(s) ==> Continues(c, past, t)
  }

  lemma GoesOn(c: Config, s: Server, t: Server, e: Event, u: Server)
    requires Goes(c, s, t) && Leads(c, t, e, u)
    ensures Goes(c, s, u)
  {
    forall past | Run(c, past) == Some(s) ensures Continues(c, past, u) {
      assert Continues(c, past, t);
      var events :| past <= events && Run(c, events) == Some(t);
      RunStep(c, events, t, e, u);
      assert past <= events + [e];
    }
  }

  /** Since `s`, one request came, and it has got to `phase`. */
  ghost predicate Reaches(c: Config, s: Server, t: Server, ask: Ask, phase: Phase) {
    Goes(c, s, t) && t.requests == s.requests + [Request(ask, phase)]
  }

  /** Concatenation, and visibly nothing where nothing is added. */
  function More<T(==)>(s: seq<T>, t: seq<T>): (r: seq<T>)
    ensures r == s + t
  {
    if t == [] then s else s + t
  }

  lemma Finishes(c: Config, s: Server, t: Server, ask: Ask, phase: Phase, a: Answer)
    requires Reaches(c, s, t, ask, phase) && AnswerOf(t, Request(ask, phase)) == Some(a)
    ensures Answered(s, t, ask, a)
  {
  }

  lemma Arrives(c: Config, s: Server, ask: Ask) returns (t: Server)
    ensures Reaches(c, s, t, ask, Arrived) && t == s.(requests := t.requests)
  {
    t := s.(requests := s.requests + [Request(ask, Arrived)]);
    GoesOn(c, s, s, Arrive(ask), t);
  }

  lemma Proceeds(c: Config, s: Server, t: Server, ask: Ask, phase: Phase, at: Time, move: Move, deed: Deed) returns (u: Server)
    requires Reaches(c, s, t, ask, phase) && t.now <= at && Do(c, t, Request(ask, phase), at, move) == Some(deed)
    ensures Reaches(c, s, u, ask, deed.phase) && u.now == at
    ensures ViewOf(u) == View(More(t.turns, deed.turns), More(t.loginOps, deed.login), More(t.actionOps, deed.action), deed.session)
    ensures u.inbox == Begun(t.inbox, deed.begins) && u.inboxEvents == More(t.inboxEvents, deed.begins)
  {
    u := After(t, |s.requests|, at, deed);
    assert t.requests[|s.requests|] == Request(ask, phase);
    assert u.requests == s.requests + [Request(ask, deed.phase)];
    GoesOn(c, s, t, Handle(|s.requests|, at, move), u);
  }

  lemma AcceptsIfLive<K>(policy: Policy, ops: seq<Op<K>>, key: K, s: Time, now: Time)
    requires OpsInv(ops, s) && s <= now
    ensures Accepts(policy, ops, Consume(key, now)) <==> LiveInHistory(policy, ops, key, now)
  {
    Extend(policy, ops, Consume(key, now));
  }

  lemma AcceptsUnlessFull(ops: seq<Op<Challenge>>, random: Challenge, s: Time, now: Time)
    requires OpsInv(ops, s) && s <= now
    ensures Accepts(FailClosed, ops, Mint(random, now)) <==> |Live(Outstanding(FailClosed, ops), now)| < 256
  {
    Extend(FailClosed, ops, Mint(random, now));
  }

  lemma RefillsIfRoom(s: Server, at: Time)
    requires LimiterInv(s) && s.now <= at
    ensures Bucket.Refill(LIMITS, s.tokens, s.refilledAt, at) >= 1.0 <==> LoginRoom(s.turns, at)
  {
    EnvelopeStands();
    AcquireFollows(s, at);
    RoomIsLoginRoom(ENVELOPE, s.turns, at);
  }

  // ------------------------------------------------------------------------- limited

  /** A request to the limiter, first thing. */
  lemma Acquires(c: Config, s: Server, ask: Ask, now: Time) returns (t: Server)
    requires LimiterInv(s) && s.now <= now && (ask.AskLoginChallenge? || ask.AskEnroll?)
    ensures t.now == now && SameInbox(s, t)
    ensures var room := LoginRoom(s.turns, now);
            && Reaches(c, s, t, ask, if !room then Refused(RateLimited) else if ask.AskEnroll? then PageShown(|s.turns|)
                                     else Passed(|s.turns|))
            && ViewOf(t) == ViewOf(s).(turns := s.turns + [Bucket.Request(now, room)])
  {
    RefillsIfRoom(s, now);
    t := Arrives(c, s, ask);
    t := Proceeds(c, s, t, ask, Arrived, now, Acquire, DoAcquire(t, ask, Arrived, now).value);
  }

  lemma EnrollGoes(c: Config, s: Server, now: Time, a: Answer, w: View) returns (t: Server)
    requires LimiterInv(s) && s.now <= now && EnrollContract(ViewOf(s), now, a, w)
    ensures Goes(c, s, t) && Answered(s, t, AskEnroll, a) && ViewOf(t) == w && SameInbox(s, t)
  {
    t := Acquires(c, s, AskEnroll, now);
  }

  lemma LoginChallengeGoes(c: Config, s: Server, now: Time, later: Time, random: Challenge, a: Answer, w: View) returns (t: Server)
    requires LimiterInv(s) && ClockInv(s) && s.now <= now <= later
    requires LoginChallengeContract(ViewOf(s), now, later, random, a, w)
    ensures Goes(c, s, t) && Answered(s, t, AskLoginChallenge, a) && ViewOf(t) == w && SameInbox(s, t)
  {
    t := Acquires(c, s, AskLoginChallenge, now);
    if LoginRoom(s.turns, now) {
      var phase := Passed(|s.turns|);
      AcceptsUnlessFull(s.loginOps, random, s.now, later);
      var deed := DoMintLogin(t, phase, later, random).value;
      t := Proceeds(c, s, t, AskLoginChallenge, phase, later, MintLogin(random), deed);
      Finishes(c, s, t, AskLoginChallenge, deed.phase, a);
    }
  }

  // --------------------------------------------------------------------------- login

  lemma LoginGoes(c: Config, s: Server, now: Time, later: Time, y: LoginTry, a: Answer, w: View) returns (t: Server)
    requires ClockInv(s) && s.now <= now <= later && LoginContract(c, ViewOf(s), now, later, y, a, w)
    ensures Goes(c, s, t) && Answered(s, t, AskLogin(y.credential, y.challenge), a) && ViewOf(t) == w && SameInbox(s, t)
  {
    var ask := AskLogin(y.credential, y.challenge);
    t := Arrives(c, s, ask);
    t := Proceeds(c, s, t, ask, Arrived, now, Check(y.onRecord), DoCheck(c, t, ask, now, y.onRecord).value);
    if y.credential in c.allowed && y.onRecord && y.challenge.Some? {
      t := LoginSpends(c, s, t, ask, y.challenge.value, now);
      if LiveInHistory(FailClosed, s.loginOps, y.challenge.value, now) {
        t := LoginEnds(c, s, t, ask, |s.loginOps|, now, later, y);
      }
    }
  }

  lemma LoginSpends(c: Config, s: Server, t: Server, ask: Ask, challenge: Challenge, now: Time) returns (u: Server)
    requires Reaches(c, s, t, ask, LoginCleared) && ask.AskLogin? && ask.challenge == Some(challenge)
    requires OpsInv(s.loginOps, s.now) && s.now <= now == t.now && t.loginOps == s.loginOps
    ensures SameInbox(t, u) && u.now == now && ViewOf(u) == ViewOf(t).(loginOps := s.loginOps + [Consume(challenge, now)])
    ensures Reaches(c, s, u, ask, if LiveInHistory(FailClosed, s.loginOps, challenge, now) then LoginSpent(|s.loginOps|)
                                  else Refused(AssertionInvalid))
  {
    AcceptsIfLive(FailClosed, s.loginOps, challenge, s.now, now);
    u := Proceeds(c, s, t, ask, LoginCleared, now, Move.Spend, DoSpend(t, ask, LoginCleared, now).value);
  }

  /** From the spent challenge to the session, or to the refusal. */
  lemma LoginEnds(c: Config, s: Server, t: Server, ask: Ask, op: nat, now: Time, later: Time, y: LoginTry) returns (u: Server)
    requires Reaches(c, s, t, ask, LoginSpent(op)) && t.now <= now <= later && ask == AskLogin(y.credential, y.challenge)
    ensures SameInbox(t, u)
    ensures var session := Session(y.token, y.csrfKey, y.credential, later);
            if y.verifies && y.counts
            then Reaches(c, s, u, ask, LoggedIn(op, session)) && ViewOf(u) == ViewOf(t).(session := Some(session))
            else Reaches(c, s, u, ask, Refused(AssertionInvalid)) && ViewOf(u) == ViewOf(t)
  {
    var ok := y.verifies && y.counts;
    u := Proceeds(c, s, t, ask, LoginSpent(op), now, Prove(y.verifies, y.counts), DoProve(t, LoginSpent(op), ok).value);
    if ok {
      var made := LoginGenerated(op, Session(y.token, y.csrfKey, y.credential, later));
      u := Proceeds(c, s, u, ask, LoginProved(op), later, Generate(y.token, y.csrfKey),
                    DoGenerate(u, ask, LoginProved(op), later, y.token, y.csrfKey).value);
      u := Proceeds(c, s, u, ask, made, later, Install, DoInstall(u, made).value);
    }
  }

  // ---------------------------------------------------------------- under a session

  ghost function ReadOf(s: Server, opening: D.Opening): StoreRead {
    match opening
    case StaysLocked => Locked
    case Fails => Unreadable
    case Opens => Opened(s.inbox.store)
  }

  lemma ActionChallengeGoes(
      c: Config, s: Server, nonce: Nonce, cookie: Option<Token>, csrf: Option<string>, now: Time, opening: D.Opening,
      random: seq<Byte>, later: Time, a: Answer, w: View) returns (t: Server)
    requires s.now <= now <= later && |random| == 32 && (opening.Opens? ==> s.inbox.lock.None?)
    requires ActionChallengeContract(c, ViewOf(s), nonce, cookie, csrf, now, ReadOf(s, opening), random, later, a, w)
    ensures Goes(c, s, t) && Answered(s, t, AskChallenge(nonce, cookie, csrf), a) && ViewOf(t) == w && SameInbox(s, t)
  {
    var ask := AskChallenge(nonce, cookie, csrf);
    t := Arrives(c, s, ask);
    var deed := DoCheck(c, t, ask, now, true).value;
    t := Proceeds(c, s, t, ask, Arrived, now, Check(true), deed);
    if HoldsSession(s.session, now, cookie) && HoldsCsrf(c, s.session, nonce, csrf) {
      t := ChallengeEnds(c, s, t, ask, s.session.value, now, opening, random, later);
    } else {
      Finishes(c, s, t, ask, deed.phase, a);
    }
  }

  /** The answer to an admitted request for a challenge. */
  ghost function Offer(c: Config, s: Server, nonce: Nonce, opening: D.Opening, random: seq<Byte>): Answer {
    if opening.StaysLocked? then Declines(StoreBusy)
    else if opening.Fails? then Declines(StoreUnavailable)
    else if nonce !in s.inbox.store then Declines(NoEntry)
    else OffersAction(DeriveActionChallenge(c, random, EntryDigest(s.inbox.store[nonce].kind), nonce))
  }

  lemma ChallengeEnds(
      c: Config, s: Server, t: Server, ask: Ask, live: Session, now: Time, opening: D.Opening, random: seq<Byte>, later: Time)
      returns (u: Server)
    requires t.now <= now <= later && SameInbox(s, t) && ask.AskChallenge? && |random| == 32
    requires Reaches(c, s, t, ask, Admitted(live, now)) && (opening.Opens? ==> s.inbox.lock.None?)
    ensures Goes(c, s, u) && SameInbox(s, u)
    ensures var a := Offer(c, s, ask.nonce, opening, random);
            && Answered(s, u, ask, a)
            && ViewOf(u) == ViewOf(t).(actionOps :=
                 t.actionOps + if a.OffersAction? then [Mint((a.challenge, ask.nonce), later)] else [])
  {
    var phase, a := Admitted(live, now), Offer(c, s, ask.nonce, opening, random);
    var deed := DoLook(t, ask, phase, opening).value;
    u := Proceeds(c, s, t, ask, phase, now, Look(opening), deed);
    if opening.Opens? && ask.nonce in s.inbox.store {
      var mint := DoMint(c, u, ask, deed.phase, later, random).value;
      u := Proceeds(c, s, u, ask, deed.phase, later, MintFor(random), mint);
      Finishes(c, s, u, ask, mint.phase, a);
    } else {
      Finishes(c, s, u, ask, deed.phase, a);
    }
  }

  /** The decision that a request orders of the seam, if its answer is to apply one. */
  ghost function Orders(nonce: Nonce, a: Answer): seq<D.Event> {
    if a.Applies? then [D.Begin(nonce, a.approve, a.requester)] else []
  }

  ghost predicate Ordered(s: Server, t: Server, nonce: Nonce, a: Answer) {
    t.inbox == Begun(s.inbox, Orders(nonce, a)) && t.inboxEvents == s.inboxEvents + Orders(nonce, a)
  }

  lemma DecisionGoes(
      c: Config, s: Server, nonce: Nonce, cookie: Option<Token>, csrf: Option<string>, now: Time, later: Time,
      y: DecisionTry, a: Answer, w: View) returns (t: Server)
    requires ClockInv(s) && s.now <= now <= later && DecisionContract(c, ViewOf(s), nonce, cookie, csrf, now, later, y, a, w)
    ensures Goes(c, s, t) && Answered(s, t, AskDecision(nonce, cookie, csrf, y.body), a) && ViewOf(t) == w && Ordered(s, t, nonce, a)
  {
    var ask := AskDecision(nonce, cookie, csrf, y.body);
    t := Arrives(c, s, ask);
    t := Proceeds(c, s, t, ask, Arrived, now, Check(y.onRecord), DoCheck(c, t, ask, now, y.onRecord).value);
    if HoldsSession(s.session, now, cookie) && HoldsCsrf(c, s.session, nonce, csrf)
       && CheckBody(s.session.value, y.body, y.onRecord).None? {
      var key := (y.body.value.challenge.value, nonce);
      t := DecisionSpends(c, s, t, ask, s.session.value, key, now, later);
      if LiveInHistory(EvictOldest, s.actionOps, key, later) {
        t := DecisionEnds(c, s, t, ask, s.session.value, now, later, y);
      }
    }
  }

  lemma DecisionSpends(c: Config, s: Server, t: Server, ask: Ask, live: Session, key: ActionKey, now: Time, later: Time)
      returns (u: Server)
    requires Reaches(c, s, t, ask, Cleared(live, now)) && SameInbox(s, t) && ask.AskDecision? && ask.nonce == key.1
    requires ask.body.Some? && ask.body.value.challenge == Some(key.0)
    requires OpsInv(s.actionOps, s.now) && s.now <= now == t.now <= later && t.actionOps == s.actionOps
    ensures SameInbox(s, u) && u.now == later && ViewOf(u) == ViewOf(t).(actionOps := s.actionOps + [Consume(key, later)])
    ensures Reaches(c, s, u, ask, if LiveInHistory(EvictOldest, s.actionOps, key, later)
                                  then Spent(live, now, |s.actionOps|, |s.inbox.trace|) else Refused(AssertionInvalid))
  {
    AcceptsIfLive(EvictOldest, s.actionOps, key, s.now, later);
    u := Proceeds(c, s, t, ask, Cleared(live, now), later, Move.Spend, DoSpend(t, ask, Cleared(live, now), later).value);
  }

  /** From the spent challenge to the order given to the seam, or to the refusal. */
  lemma DecisionEnds(c: Config, s: Server, t: Server, ask: Ask, live: Session, now: Time, later: Time, y: DecisionTry)
      returns (u: Server)
    requires t.now <= later && SameInbox(s, t) && ask.AskDecision? && ask.body == y.body && y.body.Some?
    requires Reaches(c, s, t, ask, Spent(live, now, |s.actionOps|, |s.inbox.trace|))
    ensures Goes(c, s, u) && ViewOf(u) == ViewOf(t)
    ensures var a := if y.verifies && y.counts
                     then Applies(y.body.value.word == "approve", RequesterOf(c, ask.nonce, y.body.value))
                     else Declines(AssertionInvalid);
            Answered(s, u, ask, a) && Ordered(s, u, ask.nonce, a)
  {
    var op, since := |s.actionOps|, |s.inbox.trace|;
    var ok := y.verifies && y.counts;
    u := Proceeds(c, s, t, ask, Spent(live, now, op, since), later, Prove(y.verifies, y.counts),
                  DoProve(t, Spent(live, now, op, since), ok).value);
    if ok {
      var phase := Proved(live, now, op, since);
      var deed := DoDecide(c, u, ask, phase).value;
      u := Proceeds(c, s, u, ask, phase, later, Decide, deed);
      Finishes(c, s, u, ask, deed.phase, Applies(y.body.value.word == "approve", RequesterOf(c, ask.nonce, y.body.value)));
    }
  }

  // ------------------------------------------------------------------ every reachable state

  lemma EventsTo(c: Config, past: seq<Event>, s: Server, t: Server) returns (events: seq<Event>)
    requires Run(c, past) == Some(s) && Goes(c, s, t)
    ensures past <= events && Run(c, events) == Some(t)
  {
    assert Continues(c, past, t);
    events :| past <= events && Run(c, events) == Some(t);
  }

  lemma EnrollIsRun(c: Config, past: seq<Event>, s: Server, now: Time, a: Answer, w: View)
      returns (events: seq<Event>, t: Server)
    requires Run(c, past) == Some(s) && s.now <= now && EnrollContract(ViewOf(s), now, a, w)
    ensures past <= events && Run(c, events) == Some(t)
    ensures Answered(s, t, AskEnroll, a) && ViewOf(t) == w && SameInbox(s, t)
  {
    Runs.LimiterHolds(c, past);
    t := EnrollGoes(c, s, now, a, w);
    events := EventsTo(c, past, s, t);
  }

  lemma LoginChallengeIsRun(
      c: Config, past: seq<Event>, s: Server, now: Time, later: Time, random: Challenge, a: Answer, w: View)
      returns (events: seq<Event>, t: Server)
    requires Run(c, past) == Some(s) && s.now <= now <= later
    requires LoginChallengeContract(ViewOf(s), now, later, random, a, w)
    ensures past <= events && Run(c, events) == Some(t)
    ensures Answered(s, t, AskLoginChallenge, a) && ViewOf(t) == w && SameInbox(s, t)
  {
    Runs.InvHolds(c, past);
    Runs.LimiterHolds(c, past);
    t := LoginChallengeGoes(c, s, now, later, random, a, w);
    events := EventsTo(c, past, s, t);
  }

  lemma LoginIsRun(c: Config, past: seq<Event>, s: Server, now: Time, later: Time, y: LoginTry, a: Answer, w: View)
      returns (events: seq<Event>, t: Server)
    requires Run(c, past) == Some(s) && s.now <= now <= later && LoginContract(c, ViewOf(s), now, later, y, a, w)
    ensures past <= events && Run(c, events) == Some(t)
    ensures Answered(s, t, AskLogin(y.credential, y.challenge), a) && ViewOf(t) == w && SameInbox(s, t)
  {
    Runs.InvHolds(c, past);
    t := LoginGoes(c, s, now, later, y, a, w);
    events := EventsTo(c, past, s, t);
  }

  lemma ActionChallengeIsRun(
      c: Config, past: seq<Event>, s: Server, nonce: Nonce, cookie: Option<Token>, csrf: Option<string>, now: Time,
      opening: D.Opening, random: seq<Byte>, later: Time, a: Answer, w: View) returns (events: seq<Event>, t: Server)
    requires Run(c, past) == Some(s) && s.now <= now <= later && |random| == 32
    requires opening.Opens? ==> s.inbox.lock.None?
    requires ActionChallengeContract(c, ViewOf(s), nonce, cookie, csrf, now, ReadOf(s, opening), random, later, a, w)
    ensures past <= events && Run(c, events) == Some(t)
    ensures Answered(s, t, AskChallenge(nonce, cookie, csrf), a) && ViewOf(t) == w && SameInbox(s, t)
  {
    t := ActionChallengeGoes(c, s, nonce, cookie, csrf, now, opening, random, later, a, w);
    events := EventsTo(c, past, s, t);
  }

  /** And the decision it orders of the seam is exactly the one it answers to apply. */
  lemma DecisionIsRun(
      c: Config, past: seq<Event>, s: Server, nonce: Nonce, cookie: Option<Token>, csrf: Option<string>, now: Time,
      later: Time, y: DecisionTry, a: Answer, w: View) returns (events: seq<Event>, t: Server)
    requires Run(c, past) == Some(s) && s.now <= now <= later
    requires DecisionContract(c, ViewOf(s), nonce, cookie, csrf, now, later, y, a, w)
    ensures past <= events && Run(c, events) == Some(t)
    ensures Answered(s, t, AskDecision(nonce, cookie, csrf, y.body), a) && ViewOf(t) == w && Ordered(s, t, nonce, a)
  {
    Runs.InvHolds(c, past);
    t := DecisionGoes(c, s, nonce, cookie, csrf, now, later, y, a, w);
    events := EventsTo(c, past, s, t);
  }
}
