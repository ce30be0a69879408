/** The remote listener's handlers as the imperative code they are, over the
    shared limiter, challenge stores and session. Each contract fixes the answer and
    everything the request spends on the way, in terms of the histories alone. */
module Listeners {
  import opened Common
  import opened ChallengeStores
  import opened ChallengeObjects
  import opened Approvals
  import Bucket = TokenBuckets
  import opened Remotes

  /** What `open_store` found. */
  datatype StoreRead = Locked | Unreadable | Opened(store: Store)

  datatype Answer =
    | Declines(reply: Reply)
    | OffersLogin(challenge: Challenge)
    | ShowsEnroll
    | OpensSession(session: Session)
    | OffersAction(challenge: Challenge)
    | Applies(approve: bool, requester: Requester)

  /** What the handlers share: the limiter's and the stores' histories, the session. */
  datatype View = View(
    turns: seq<Bucket.Request>, loginOps: seq<Op<Challenge>>, actionOps: seq<Op<ActionKey>>, session: Option<Session>)

  // ----------------------------------------------------------------------- contracts

  /** One more admission now keeps every window that ends now within 20 + 2 per second. */
  ghost predicate LoginRoom(turns: seq<Bucket.Request>, now: Time) {
    forall s: Time :: s <= now ==> Bucket.AdmittedSince(turns, s) as real + 1.0 <= 20.0 + 2.0 * (now - s)
  }

  lemma RoomIsLoginRoom(v: Bucket.Envelope, turns: seq<Bucket.Request>, now: Time)
    requires Bucket.Stands(v, LIMITS)
    ensures Bucket.HasRoom(v, turns, now) <==> LoginRoom(turns, now)
  {
    forall s: Time ensures Bucket.Room(v, turns, s, now) == 20.0 + 2.0 * (now - s) - Bucket.AdmittedSince(turns, s) as real {
      Bucket.BoundOfLimits(v, LIMITS, s, now);
    }
  }

  ghost predicate EnrollContract(v: View, now: Time, a: Answer, w: View) {
    var room := LoginRoom(v.turns, now);
    && a == (if room then ShowsEnroll else Declines(RateLimited))
    && w == v.(turns := v.turns + [Bucket.Request(now, room)])
  }

  ghost predicate LoginChallengeContract(v: View, now: Time, later: Time, random: Challenge, a: Answer, w: View) {
    var room := LoginRoom(v.turns, now);
    var full := |Live(Outstanding(FailClosed, v.loginOps), later)| >= 256;
    && a == (if !room then Declines(RateLimited) else if full then Declines(StoreFull) else OffersLogin(random))
    && w == v.(turns := v.turns + [Bucket.Request(now, room)],
               loginOps := v.loginOps + (if room then [Mint(random, later)] else []))
  }

  /** A login: its claimed credential, the challenge its client data carries, and what
      looking it up, verifying it and drawing a session came to. */
  datatype LoginTry = LoginTry(
    credential: string, challenge: Option<Challenge>, onRecord: bool, verifies: bool, counts: bool,
    token: Token, csrfKey: seq<Byte>)

  ghost predicate LoginContract(c: Config, v: View, now: Time, later: Time, y: LoginTry, a: Answer, w: View) {
    var checked := y.credential in c.allowed && y.onRecord && y.challenge.Some?;
    var ok := checked && LiveInHistory(FailClosed, v.loginOps, y.challenge.value, now) && y.verifies && y.counts;
    var session := Session(y.token, y.csrfKey, y.credential, later);
    && a == (if ok then OpensSession(session) else Declines(AssertionInvalid))
    && w == v.(loginOps := v.loginOps + (if checked then [Consume(y.challenge.value, now)] else []),
               session := if ok then Some(session) else v.session)
  }

  /** The cookie is the token of a session less than half an hour old. */
  ghost predicate HoldsSession(session: Option<Session>, now: Time, cookie: Option<Token>) {
    session.Some? && now - session.value.createdAt < 1800.0 && cookie == Some(session.value.token)
  }

  ghost predicate HoldsCsrf(c: Config, session: Option<Session>, nonce: Nonce, csrf: Option<string>) {
    session.Some? && csrf == Some(c.csrf(session.value.csrfKey, nonce))
  }

  /** A session that has outlived its lifetime is dropped. */
  ghost function StillLive(session: Option<Session>, now: Time): Option<Session> {
    if session.Some? && now - session.value.createdAt < 1800.0 then session else None
  }

  ghost predicate ActionChallengeContract(
      c: Config, v: View, nonce: Nonce, cookie: Option<Token>, csrf: Option<string>, now: Time, read: StoreRead,
      random: seq<Byte>, later: Time, a: Answer, w: View)
  {
    && (a == Declines(NoSession) <==> !HoldsSession(v.session, now, cookie))
    && var admitted := HoldsSession(v.session, now, cookie) && HoldsCsrf(c, v.session, nonce, csrf);
       && (a == Declines(CsrfRejected) <==> HoldsSession(v.session, now, cookie) && !admitted)
       && (a == Declines(StoreBusy) <==> admitted && read.Locked?)
       && (a == Declines(StoreUnavailable) <==> admitted && read.Unreadable?)
       && (a == Declines(NoEntry) <==> admitted && read.Opened? && nonce !in read.store)
       && (admitted && read.Opened? && nonce in read.store ==>
             a == OffersAction(c.hash(random + EntryDigest(read.store[nonce].kind) + nonce)))
       && w == v.(session := StillLive(v.session, now),
                  actionOps := v.actionOps + (if a.OffersAction? then [Mint((a.challenge, nonce), later)] else []))
  }

  /** What came with a decision, and what looking up and verifying it came to. */
  datatype DecisionTry = DecisionTry(body: Option<Body>, onRecord: bool, verifies: bool, counts: bool)

  ghost predicate DecisionContract(
      c: Config, v: View, nonce: Nonce, cookie: Option<Token>, csrf: Option<string>, now: Time, later: Time,
      y: DecisionTry, a: Answer, w: View)
  {
    var held := HoldsSession(v.session, now, cookie);
    var admitted := held && HoldsCsrf(c, v.session, nonce, csrf);
    var worded := y.body.Some? && (y.body.value.word == "approve" || y.body.value.word == "reject");
    var checked := admitted && worded && y.body.value.credential == v.session.value.credential
                   && y.onRecord && y.body.value.challenge.Some?;
    && (a == Declines(NoSession) <==> !held)
    && (a == Declines(CsrfRejected) <==> held && !admitted)
    && (a == Declines(BadDecision) <==> admitted && y.body.Some? && !worded)
    && (a.Applies? <==>
          && checked && y.verifies && y.counts
          && LiveInHistory(EvictOldest, v.actionOps, (y.body.value.challenge.value, nonce), later))
    && (a.Applies? ==>
          a == Applies(y.body.value.word == "approve", Remote(Passkey(v.session.value.credential, nonce), c.allowed)))
    && (a.Applies? || a == Declines(NoSession) || a == Declines(CsrfRejected) || a == Declines(BadDecision)
        || a == Declines(AssertionInvalid))
    && w == v.(session := StillLive(v.session, now),
               actionOps := v.actionOps + (if checked then [Consume((y.body.value.challenge.value, nonce), later)] else []))
  }

  // ------------------------------------------------------------------------- handlers

  class Listener {
    const config: Config
    const limiter: Bucket.TokenBucket
    const loginChallenges: LoginChallengeStore
    const actionChallenges: ActionChallengeStore
    var session: Option<Session>

    ghost predicate Valid()
      reads this, limiter, loginChallenges, actionChallenges
    {
      limiter.Valid() && limiter.limits == LIMITS && loginChallenges.Valid() && actionChallenges.Valid()
    }

    ghost function Shared(): View
      reads this, limiter, loginChallenges, actionChallenges
    {
      View(limiter.history, loginChallenges.ops, actionChallenges.ops, session)
    }

    /** A clock reading no earlier than any other before it. */
    ghost predicate Reads(now: Time)
      reads this, limiter, loginChallenges, actionChallenges
    {
      limiter.lastRefill <= now && NotBefore(loginChallenges.ops, now) && NotBefore(actionChallenges.ops, now)
    }

    constructor (config: Config, now: Time)
      ensures Valid() && fresh(limiter) && fresh(loginChallenges) && fresh(actionChallenges)
      ensures this.config == config && Shared() == View([], [], [], None) && Reads(now)
    {
      this.config := config;
      limiter := new Bucket.TokenBucket.NewAt(Bucket.BUCKET_CAPACITY, Bucket.REFILL_PER_SECOND, now);
      loginChallenges := new LoginChallengeStore();
      actionChallenges := new ActionChallengeStore();
      session := None;
    }

    method LoginChallengePost(now: Time, later: Time, random: Challenge) returns (a: Answer)
      requires Valid() && Reads(now) && now <= later
      modifies limiter, loginChallenges
      ensures Valid() && LoginChallengeContract(old(Shared()), now, later, random, a, Shared())
    {
      RoomIsLoginRoom(limiter.envelope, limiter.history, now);
      var allowed := limiter.TryAcquireAt(now);
      if !allowed {
        return Declines(RateLimited);
      }
      var challenge := loginChallenges.MintAt(later, random);
      match challenge
      case None => return Declines(StoreFull);
      case Some(ch) => return OffersLogin(ch);
    }

    /** The enrolment page draws on the same limiter. */
    method EnrollPageGet(now: Time) returns (a: Answer)
      requires Valid() && limiter.lastRefill <= now
      modifies limiter
      ensures Valid() && EnrollContract(old(Shared()), now, a, Shared())
    {
      RoomIsLoginRoom(limiter.envelope, limiter.history, now);
      var allowed := limiter.TryAcquireAt(now);
      return if allowed then ShowsEnroll else Declines(RateLimited);
    }

    /** An expired session is dropped, and is no session. */
    method RequireSession(now: Time, cookie: Option<Token>) returns (live: Option<Session>)
      modifies `session
      ensures live.Some? <==> HoldsSession(old(session), now, cookie)
      ensures live.Some? ==> live == old(session)
      ensures session == StillLive(old(session), now)
    {
      if session.Some? && Age(now, session.value.createdAt) >= SESSION_TTL {
        session := None;
      }
      if session.None? || cookie != Some(session.value.token) {
        return None;
      }
      return session;
    }

    /** A login consumes its challenge before its assertion is verified, so a
        failed assertion spends it all the same. */
    method LoginAssertionPost(now: Time, later: Time, y: LoginTry) returns (a: Answer)
      requires Valid() && Reads(now) && now <= later
      modifies `session, loginChallenges
      ensures Valid() && LoginContract(config, old(Shared()), now, later, y, a, Shared())
    {
      if y.credential !in config.allowed || !y.onRecord || y.challenge.None? {
        return Declines(AssertionInvalid);
      }
      var consumed := loginChallenges.ConsumeAt(y.challenge.value, now);
      if !consumed || !y.verifies || !y.counts {
        return Declines(AssertionInvalid);
      }
      session := Some(Session(y.token, y.csrfKey, y.credential, later));
      return OpensSession(session.value);
    }

    method ActionChallengePost(
        nonce: Nonce, cookie: Option<Token>, csrf: Option<string>, now: Time, read: StoreRead,
        random: seq<Byte>, later: Time) returns (a: Answer)
      requires Valid() && Reads(now) && now <= later && |random| == 32
      modifies `session, actionChallenges
      ensures Valid()
      ensures ActionChallengeContract(config, old(Shared()), nonce, cookie, csrf, now, read, random, later, a, Shared())
    {
      var live := RequireSession(now, cookie);
      if live.None? {
        return Declines(NoSession);
      }
      if csrf != Some(config.csrf(live.value.csrfKey, nonce)) {
        return Declines(CsrfRejected);
      }
      if read.Locked? {
        return Declines(StoreBusy);
      }
      if read.Unreadable? {
        return Declines(StoreUnavailable);
      }
      if nonce !in read.store {
        return Declines(NoEntry);
      }
      var challenge := DeriveActionChallenge(config, random, EntryDigest(read.store[nonce].kind), nonce);
      actionChallenges.MintAt(challenge, nonce, later);
      return OffersAction(challenge);
    }

    /** Everything a decision request must pass; a bad word or a foreign credential is
        turned away before the challenge is spent. */
    method ActionDecisionPost(
        nonce: Nonce, cookie: Option<Token>, csrf: Option<string>, now: Time, later: Time, y: DecisionTry) returns (a: Answer)
      requires Valid() && Reads(now) && now <= later
      modifies `session, actionChallenges
      ensures Valid() && DecisionContract(config, old(Shared()), nonce, cookie, csrf, now, later, y, a, Shared())
    {
      var live := RequireSession(now, cookie);
      if live.None? {
        return Declines(NoSession);
      }
      if csrf != Some(config.csrf(live.value.csrfKey, nonce)) {
        return Declines(CsrfRejected);
      }
      if y.body.None? {
        return Declines(AssertionInvalid);
      }
      var request := y.body.value;
      if request.word != "approve" && request.word != "reject" {
        return Declines(BadDecision);
      }
      if request.credential != live.value.credential || !y.onRecord || request.challenge.None? {
        return Declines(AssertionInvalid);
      }
      var consumed := actionChallenges.ConsumeAt(request.challenge.value, nonce, later);
      if !consumed || !y.verifies || !y.counts {
        return Declines(AssertionInvalid);
      }
      return Applies(request.word == "approve", RequesterOf(config, nonce, request));
    }
  }
}
