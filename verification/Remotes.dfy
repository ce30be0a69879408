/** The remote approval server as a step relation: login and per-action requests
    in flight, the login limiter, their two challenge stores and the single session,
    above the decision seam that carries out what they authorize. Between any two
    steps of a request other requests, and other processes, may act. */
module Remotes {
  import opened Common
  import opened ChallengeStores
  import opened Approvals
  import D = Decisions
  import Bucket = TokenBuckets

  type Token = seq<Byte>
  type ActionKey = (Challenge, Nonce)

  const SESSION_TTL: Time := 1800.0
  const LIMITS: Bucket.Limits := Bucket.Limits(Bucket.BUCKET_CAPACITY, Bucket.REFILL_PER_SECOND)

  /** The hash and the keyed hash are parameters: nothing is assumed of them here. */
  datatype Config = Config(
    binding: Binding, allowed: seq<string>, hash: seq<Byte> -> Challenge, csrf: (seq<Byte>, Nonce) -> string)

  datatype Session = Session(token: Token, csrfKey: seq<Byte>, credential: string, createdAt: Time)

  // -------------------------------------------------------------------- requests

  /** A parsed decision body; the challenge is what its client data carries. */
  datatype Body = Body(word: string, credential: string, challenge: Option<Challenge>)

  datatype Ask =
    | AskLoginChallenge
    | AskEnroll
    | AskLogin(credential: string, challenge: Option<Challenge>)
    | AskChallenge(nonce: Nonce, cookie: Option<Token>, csrf: Option<string>)
    | AskDecision(nonce: Nonce, cookie: Option<Token>, csrf: Option<string>, body: Option<Body>)

  /** Why a request was turned away. */
  datatype Reply =
    | RateLimited | StoreFull | NoSession | CsrfRejected | BadDecision | AssertionInvalid
    | StoreBusy | StoreUnavailable | NoEntry

  /** How far a request got, with what it relied on: the session it was admitted
      under and when, the number of its request to the limiter (`turn`) and of its
      operation on the challenge store (`op`), and how long the decision seam's trace
      was when it read the entry (`seen`) or spent its challenge (`since`). */
  datatype Phase =
    | Arrived
    | Refused(reply: Reply)
    | Passed(turn: nat)
    | PageShown(turn: nat)
    | LoginMinted(turn: nat, op: nat)
    | LoginFull(turn: nat, op: nat)
    | LoginCleared
    | LoginSpent(op: nat)
    | LoginProved(op: nat)
    | LoginGenerated(op: nat, session: Session)
    | LoggedIn(op: nat, session: Session)
    | Admitted(session: Session, at: Time)
    | Looked(session: Session, at: Time, entry: Approval, seen: nat)
    | Challenged(session: Session, at: Time, entry: Approval, seen: nat, random: seq<Byte>, op: nat)
    | Cleared(session: Session, at: Time)
    | Spent(session: Session, at: Time, op: nat, since: nat)
    | Denied(session: Session, at: Time, op: nat, since: nat)
    | Proved(session: Session, at: Time, op: nat, since: nat)
    | Applied(session: Session, at: Time, op: nat, since: nat, handler: nat)

  datatype Request = Request(ask: Ask, phase: Phase)

  datatype Server = Server(
    now: Time,
    tokens: real,
    refilledAt: Time,
    turns: seq<Bucket.Request>,
    loginOps: seq<Op<Challenge>>,
    actionOps: seq<Op<ActionKey>>,
    session: Option<Session>,
    requests: seq<Request>,
    inbox: D.State,
    inboxEvents: seq<D.Event>)

  const BOOT: Server := Server(0.0, Bucket.BUCKET_CAPACITY, 0.0, [], [], [], None, [], D.START, [])

  // ---------------------------------------------------------------------- events

  /** One step of a request. What cannot be computed here is part of the step:
      whether the credential is on record, whether the assertion verifies and its
      counter advances, whether the store opens, and the random bytes drawn. */
  datatype Move =
    | Acquire
    | MintLogin(random: Challenge)
    | Check(onRecord: bool)
    | Spend
    | Prove(verifies: bool, counts: bool)
    | Generate(token: Token, csrfKey: seq<Byte>)
    | Install
    | Look(opening: D.Opening)
    | MintFor(random: seq<Byte>)
    | Decide

  datatype Event =
    | Arrive(ask: Ask)
    | Handle(r: nat, at: Time, move: Move)
    | Inbox(event: D.Event)

  // ----------------------------------------------------------------------- steps

  /** What one step of a request does; `turns` is its request to the limiter. */
  datatype Deed = Deed(
    phase: Phase, session: Option<Session>, login: seq<Op<Challenge>>, action: seq<Op<ActionKey>>, begins: seq<D.Event>,
    turns: seq<Bucket.Request>)

  function To(s: Server, phase: Phase): Option<Deed> {
    Some(Deed(phase, s.session, [], [], [], []))
  }

  function Unexpired(session: Option<Session>, now: Time): Option<Session> {
    if session.Some? && Age(now, session.value.createdAt) >= SESSION_TTL then None else session
  }

  /** The session, if the cookie is its token and it has not outlived its lifetime. */
  function RequireSession(session: Option<Session>, now: Time, cookie: Option<Token>): Option<Session> {
    match Unexpired(session, now)
    case Some(live) => if cookie == Some(live.token) then Some(live) else None
    case None => None
  }

  /** The two checks common to all requests under a session. */
  function CheckSession(
      c: Config, s: Server, at: Time, nonce: Nonce, cookie: Option<Token>, csrf: Option<string>): Result<Session, Reply>
  {
    match RequireSession(s.session, at, cookie)
    case Some(live) => if csrf == Some(c.csrf(live.csrfKey, nonce)) then Ok(live) else Err(CsrfRejected)
    case None => Err(NoSession)
  }

  /** The request to the limiter, ahead of anything else. */
  function DoAcquire(s: Server, ask: Ask, phase: Phase, at: Time): Option<Deed> {
    if !phase.Arrived? || !(ask.AskLoginChallenge? || ask.AskEnroll?) then None
    else
      var ok := Bucket.Refill(LIMITS, s.tokens, s.refilledAt, at) >= 1.0;
      var to := if !ok then Refused(RateLimited) else if ask.AskEnroll? then PageShown(|s.turns|) else Passed(|s.turns|);
      Some(Deed(to, s.session, [], [], [], [Bucket.Request(at, ok)]))
  }

  function DoMintLogin(s: Server, phase: Phase, at: Time, random: Challenge): Option<Deed> {
    match phase
    case Passed(turn) =>
      var op := Mint(random, at);
      var to := if Accepts(FailClosed, s.loginOps, op) then LoginMinted(turn, |s.loginOps|) else LoginFull(turn, |s.loginOps|);
      Some(Deed(to, s.session, [op], [], [], []))
    case _ => None
  }

  /** What a decision's body must pass under a session. */
  function CheckBody(live: Session, body: Option<Body>, onRecord: bool): Option<Reply> {
    if body.None? then Some(AssertionInvalid)
    else if body.value.word != "approve" && body.value.word != "reject" then Some(BadDecision)
    else if body.value.credential != live.credential || !onRecord || body.value.challenge.None? then Some(AssertionInvalid)
    else None
  }

  /** The checks before anything is spent. */
  function DoCheck(c: Config, s: Server, ask: Ask, at: Time, onRecord: bool): Option<Deed> {
    match ask
    case AskLogin(credential, challenge) =>
      var ok := credential in c.allowed && onRecord && challenge.Some?;
      Some(Deed(if ok then LoginCleared else Refused(AssertionInvalid), s.session, [], [], [], []))
    case AskChallenge(nonce, cookie, csrf) =>
      var to := match CheckSession(c, s, at, nonce, cookie, csrf)
        case Ok(live) => Admitted(live, at)
        case Err(reply) => Refused(reply);
      Some(Deed(to, Unexpired(s.session, at), [], [], [], []))
    case AskDecision(nonce, cookie, csrf, body) =>
      var to := match CheckSession(c, s, at, nonce, cookie, csrf)
        case Ok(live) =>
          (match CheckBody(live, body, onRecord)
           case None => Cleared(live, at)
           case Some(reply) => Refused(reply))
        case Err(reply) => Refused(reply);
      Some(Deed(to, Unexpired(s.session, at), [], [], [], []))
    case _ => None
  }

  predicate Accepts<K(==)>(policy: Policy, ops: seq<Op<K>>, op: Op<K>) {
    Apply(policy, Deque(policy, ops), op).1
  }

  /** The challenge is consumed before the assertion is looked at. */
  function DoSpend(s: Server, ask: Ask, phase: Phase, at: Time): Option<Deed> {
    match (ask, phase)
    case (AskLogin(_, Some(challenge)), LoginCleared) =>
      var op := Consume(challenge, at);
      Some(Deed(if Accepts(FailClosed, s.loginOps, op) then LoginSpent(|s.loginOps|) else Refused(AssertionInvalid),
                s.session, [op], [], [], []))
    case (AskDecision(nonce, _, _, Some(Body(_, _, Some(challenge)))), Cleared(session, t)) =>
      var op := Consume((challenge, nonce), at);
      Some(Deed(if Accepts(EvictOldest, s.actionOps, op) then Spent(session, t, |s.actionOps|, |s.inbox.trace|)
                else Refused(AssertionInvalid), s.session, [], [op], [], []))
    case _ => None
  }

  function DoProve(s: Server, phase: Phase, ok: bool): Option<Deed> {
    match phase
    case LoginSpent(op) => To(s, if ok then LoginProved(op) else Refused(AssertionInvalid))
    case Spent(session, t, op, since) => To(s, if ok then Proved(session, t, op, since) else Denied(session, t, op, since))
    case _ => None
  }

  function DoGenerate(s: Server, ask: Ask, phase: Phase, at: Time, token: Token, csrfKey: seq<Byte>): Option<Deed> {
    match (ask, phase)
    case (AskLogin(credential, _), LoginProved(op)) => To(s, LoginGenerated(op, Session(token, csrfKey, credential, at)))
    case _ => None
  }

  function DoInstall(s: Server, phase: Phase): Option<Deed> {
    match phase
    case LoginGenerated(op, session) => Some(Deed(LoggedIn(op, session), Some(session), [], [], [], []))
    case _ => None
  }

  /** Reads the entry under the store lock. */
  function DoLook(s: Server, ask: Ask, phase: Phase, opening: D.Opening): Option<Deed> {
    match (ask, phase)
    case (AskChallenge(nonce, _, _), Admitted(session, t)) =>
      if opening.StaysLocked? then To(s, Refused(StoreBusy))
      else if opening.Fails? then To(s, Refused(StoreUnavailable))
      else if s.inbox.lock.Some? then None
      else To(s, if nonce in s.inbox.store then Looked(session, t, s.inbox.store[nonce], |s.inbox.trace|) else Refused(NoEntry))
    case _ => None
  }

  function Preimage(random: seq<Byte>, digest: Digest, nonce: Nonce): seq<Byte> {
    random + digest + nonce
  }

  function DeriveActionChallenge(c: Config, random: seq<Byte>, digest: Digest, nonce: Nonce): Challenge {
    c.hash(Preimage(random, digest, nonce))
  }

  function DoMint(c: Config, s: Server, ask: Ask, phase: Phase, at: Time, random: seq<Byte>): Option<Deed> {
    match (ask, phase)
    case (AskChallenge(nonce, _, _), Looked(session, t, entry, seen)) =>
      if |random| != 32 then None
      else
        var op := Mint((DeriveActionChallenge(c, random, EntryDigest(entry.kind), nonce), nonce), at);
        Some(Deed(Challenged(session, t, entry, seen, random, |s.actionOps|), s.session, [], [op], [], []))
    case _ => None
  }

  function RequesterOf(c: Config, nonce: Nonce, body: Body): Requester {
    Remote(Passkey(body.credential, nonce), c.allowed)
  }

  function DoDecide(c: Config, s: Server, ask: Ask, phase: Phase): Option<Deed> {
    match (ask, phase)
    case (AskDecision(nonce, _, _, Some(body)), Proved(session, t, op, since)) =>
      var begin := D.Begin(nonce, body.word == "approve", RequesterOf(c, nonce, body));
      Some(Deed(Applied(session, t, op, since, |s.inbox.handlers|), s.session, [], [], [begin], []))
    case _ => None
  }

  function Do(c: Config, s: Server, req: Request, at: Time, move: Move): Option<Deed> {
    match move
    case Acquire => DoAcquire(s, req.ask, req.phase, at)
    case MintLogin(random) => DoMintLogin(s, req.phase, at, random)
    case Check(onRecord) => if req.phase.Arrived? then DoCheck(c, s, req.ask, at, onRecord) else None
    case Spend => DoSpend(s, req.ask, req.phase, at)
    case Prove(verifies, counts) => DoProve(s, req.phase, verifies && counts)
    case Generate(token, csrfKey) => DoGenerate(s, req.ask, req.phase, at, token, csrfKey)
    case Install => DoInstall(s, req.phase)
    case Look(opening) => DoLook(s, req.ask, req.phase, opening)
    case MintFor(random) => DoMint(c, s, req.ask, req.phase, at, random)
    case Decide => DoDecide(c, s, req.ask, req.phase)
  }

  function Begun(inbox: D.State, begins: seq<D.Event>): D.State {
    if begins != [] && begins[0].Begin? then
      var e := begins[0];
      inbox.(handlers := inbox.handlers
        + [D.Handler(e.nonce, e.approve, e.requester, if e.approve then D.ApproveOpening else D.RejectOpening)])
    else inbox
  }

  /** The level the limiter is left at: refilled, and one less for an admission. */
  function TokensAfter(s: Server, turns: seq<Bucket.Request>): real {
    if turns == [] then s.tokens
    else Bucket.Refill(LIMITS, s.tokens, s.refilledAt, turns[0].at) - (if turns[0].admitted then 1.0 else 0.0)
  }

  function After(s: Server, r: nat, at: Time, deed: Deed): Server
    requires r < |s.requests|
  {
    Server(at, TokensAfter(s, deed.turns), if deed.turns == [] then s.refilledAt else deed.turns[0].at, s.turns + deed.turns,
           s.loginOps + deed.login, s.actionOps + deed.action, deed.session,
           s.requests[r := s.requests[r].(phase := deed.phase)], Begun(s.inbox, deed.begins), s.inboxEvents + deed.begins)
  }

  /** One step, or nothing where the event cannot happen. The clock never goes
      back. A decision of the remote surface starts only through its request. */
  function Step(c: Config, s: Server, e: Event): Option<Server> {
    match e
    case Arrive(ask) => Some(s.(requests := s.requests + [Request(ask, Arrived)]))
    case Handle(r, at, move) =>
      if r >= |s.requests| || at < s.now then None
      else
        (match Do(c, s, s.requests[r], at, move)
         case None => None
         case Some(deed) => Some(After(s, r, at, deed)))
    case Inbox(event) =>
      if event.Begin? && event.requester.Remote? then None
      else
        match D.Step(c.binding, s.inbox, event)
        case None => None
        case Some(inbox) => Some(s.(inbox := inbox, inboxEvents := s.inboxEvents + [event]))
  }

  function Run(c: Config, events: seq<Event>): Option<Server> {
    if events == [] then Some(BOOT)
    else
      match Run(c, events[..|events| - 1])
      case None => None
      case Some(s) => Step(c, s, events[|events| - 1])
  }
}
