/** When the limiter's bounds carry over to the login store: of every run, exactly if no
    request can be held up between the limiter and the store, which are locked one after
    the other. The crowded run shows how a delay breaks them. */
module RemoteExamples {
  import opened Common
  import opened ChallengeStores
  import opened ChallengeRuns
  import opened Remotes
  import opened RemotePaths
  import opened RemoteLimits
  import Bucket = TokenBuckets
  import D = Decisions

  // ------------------------------------------------------------------- a crowded run

  /** Twenty requests reach the limiter at time 0, then one every half second. */
  function TurnTime(i: nat): Time {
    if i < 20 then 0.0 else (i - 19) as real * 0.5
  }

  /** The first twenty reach the store `d` later, the others at once. */
  function MintTime(d: Time, i: nat): Time {
    if i < 20 then d else TurnTime(i)
  }

  function Turns(k: nat): seq<Bucket.Request> {
    seq(k, i requires 0 <= i < k => Bucket.Request(TurnTime(i), true))
  }

  function Mints(d: Time, m: nat): seq<Op<Challenge>> {
    seq(m, i requires 0 <= i < m => Mint([], MintTime(d, i)))
  }

  function Requests(k: nat, m: nat): seq<Request> {
    seq(k, i requires 0 <= i < k => Request(AskLoginChallenge, if i < m then LoginMinted(i, i) else Passed(i)))
  }

  /** After `k` of them have passed the limiter and `m` of those have minted. */
  function Crowd(d: Time, k: nat, m: nat): Server {
    Server(if k > 20 then TurnTime(k - 1) else if m == 0 then 0.0 else d, if k <= 20 then 20.0 - k as real else 0.0,
           if k <= 20 then 0.0 else TurnTime(k - 1), Turns(k), Mints(d, m), [], None, Requests(k, m), D.START, [])
  }

  function Asked(s: Server): Server {
    s.(requests := s.requests + [Request(AskLoginChallenge, Arrived)])
  }

  lemma AcquireLeads(c: Config, d: Time, k: nat, m: nat)
    requires 0.0 < d <= 0.5 && if k < 20 then m == 0 else k == m
    ensures Leads(c, Asked(Crowd(d, k, m)), Handle(k, TurnTime(k), Acquire), Crowd(d, k + 1, m))
  {
    var s, t := Asked(Crowd(d, k, m)), Crowd(d, k + 1, m);
    var deed := Deed(Passed(k), None, [], [], [], [Bucket.Request(TurnTime(k), true)]);
    assert s.requests[k] == Request(AskLoginChallenge, Arrived);
    Handles(c, s, k, TurnTime(k), Acquire, deed);
    var u := After(s, k, TurnTime(k), deed);
    assert u.turns == t.turns;
    assert u.requests == t.requests;
    assert u.loginOps == t.loginOps;
    assert u.actionOps == t.actionOps && u.inboxEvents == t.inboxEvents;
  }

  lemma {:induction false} SmallDeque(ops: seq<Op<Challenge>>)
    ensures |Deque(FailClosed, ops)| <= |ops|
  {
    if ops != [] {
      SmallDeque(ops[..|ops| - 1]);
      PruneShrinks(Deque(FailClosed, ops[..|ops| - 1]), ops[|ops| - 1].at);
    }
  }

  lemma FewAreAccepted(ops: seq<Op<Challenge>>, at: Time)
    requires |ops| < 256
    ensures Accepts(FailClosed, ops, Mint([], at))
  {
    SmallDeque(ops);
    PruneShrinks(Deque(FailClosed, ops), at);
  }

  lemma MintLeads(c: Config, d: Time, k: nat, m: nat)
    requires 0.0 < d <= 0.5 && m < 256 && k == if m < 20 then 20 else m + 1
    ensures Leads(c, Crowd(d, k, m), Handle(m, MintTime(d, m), MintLogin([])), Crowd(d, k, m + 1))
  {
    var s, t, at := Crowd(d, k, m), Crowd(d, k, m + 1), MintTime(d, m);
    var deed := Deed(LoginMinted(m, m), None, [Mint([], at)], [], [], []);
    FewAreAccepted(s.loginOps, at);
    assert |s.loginOps| == m && s.requests[m] == Request(AskLoginChallenge, Passed(m));
    Handles(c, s, m, at, MintLogin([]), deed);
    var u := After(s, m, at, deed);
    assert u.turns == t.turns;
    assert u.requests == t.requests;
    assert u.loginOps == t.loginOps;
    assert u.actionOps == t.actionOps && u.inboxEvents == t.inboxEvents;
  }

  lemma OnePasses(c: Config, past: seq<Event>, d: Time, k: nat, m: nat) returns (events: seq<Event>)
    requires Run(c, past) == Some(Crowd(d, k, m)) && 0.0 < d <= 0.5 && if k < 20 then m == 0 else k == m
    ensures Run(c, events) == Some(Crowd(d, k + 1, m))
  {
    var s, e := Crowd(d, k, m), Handle(k, TurnTime(k), Acquire);
    RunStep(c, past, s, Arrive(AskLoginChallenge), Asked(s));
    AcquireLeads(c, d, k, m);
    RunStep(c, past + [Arrive(AskLoginChallenge)], Asked(s), e, Crowd(d, k + 1, m));
    events := past + [Arrive(AskLoginChallenge)] + [e];
  }

  lemma OneMints(c: Config, past: seq<Event>, d: Time, k: nat, m: nat) returns (events: seq<Event>)
    requires Run(c, past) == Some(Crowd(d, k, m)) && 0.0 < d <= 0.5 && m < 256 && k == if m < 20 then 20 else m + 1
    ensures Run(c, events) == Some(Crowd(d, k, m + 1))
  {
    var e := Handle(m, MintTime(d, m), MintLogin([]));
    MintLeads(c, d, k, m);
    RunStep(c, past, Crowd(d, k, m), e, Crowd(d, k, m + 1));
    events := past + [e];
  }

  lemma {:induction false} CrowdRuns(c: Config, d: Time, k: nat, m: nat) returns (events: seq<Event>)
    requires 0.0 < d <= 0.5 && m <= 256
    requires if k < 20 then m == 0 else if k == 20 then m <= 20 else k - 1 <= m <= k
    ensures Run(c, events) == Some(Crowd(d, k, m))
    decreases k + m
  {
    if m > 0 && (k == 20 || k == m) {
      events := CrowdRuns(c, d, k, m - 1);
      events := OneMints(c, events, d, k, m - 1);
    } else if k > 0 {
      events := CrowdRuns(c, d, k - 1, m);
      events := OnePasses(c, events, d, k - 1, m);
    } else {
      events := [];
      assert Crowd(d, 0, 0) == BOOT;
    }
  }

  lemma {:induction false} AllWithin(d: Time, m: nat, hi: Time)
    requires d <= 0.5 && forall i: nat :: i < m ==> MintTime(d, i) <= hi
    ensures MintsWithin(Mints(d, m), d, hi) == m
  {
    if m > 0 {
      assert Mints(d, m)[..m - 1] == Mints(d, m - 1);
      AllWithin(d, m - 1, hi);
    }
  }

  /** Twenty-one mints between `d` and 0.5, where the limiter's bound is 21 - 2 d. */
  lemma DelayedMintsExceedTheWindow(c: Config, d: Time) returns (events: seq<Event>)
    requires 0.0 < d <= 0.5
    ensures Run(c, events).Some? && Prompt(Run(c, events).value, d)
    ensures MintsWithin(Run(c, events).value.loginOps, d, 0.5) == 21
  {
    events := CrowdRuns(c, d, 21, 21);
    AllWithin(d, 21, 0.5);
  }

  // ------------------------------------------------------------------- a full store

  lemma {:induction false} PruneKeepsYoung(es: seq<Entry<Challenge>>, t: Time)
    requires forall i :: 0 <= i < |es| ==> t - es[i].mintedAt < 120.0
    ensures Prune(es, t) == es
  {
    if es != [] {
      PruneKeepsYoung(es[1..], t);
    }
  }

  function Entries(d: Time, m: nat): seq<Entry<Challenge>> {
    seq(m, i requires 0 <= i < m => Entry([], MintTime(d, i)))
  }

  lemma {:induction false} NothingLost(d: Time, m: nat)
    requires 0.0 < d <= 0.5 && m <= 256
    ensures Deque(FailClosed, Mints(d, m)) == Entries(d, m)
  {
    if m > 0 {
      assert Mints(d, m)[..m - 1] == Mints(d, m - 1);
      NothingLost(d, m - 1);
      PruneKeepsYoung(Entries(d, m - 1), MintTime(d, m - 1));
      assert Entries(d, m) == Entries(d, m - 1) + [Entry([], MintTime(d, m - 1))];
    }
  }

  /** The request that comes when the first twenty challenges are about to expire. */
  function Last(d: Time): Time {
    120.0 + d * 0.5
  }

  function Turned(d: Time, ops: seq<Op<Challenge>>, phase: Phase): Server {
    Server(Last(d), 3.0 + d, Last(d), Turns(256) + [Bucket.Request(Last(d), true)], Mints(d, 256) + ops, [], None,
           Requests(256, 256) + [Request(AskLoginChallenge, phase)], D.START, [])
  }

  function Full(d: Time): Server {
    Turned(d, [Mint([], Last(d))], LoginFull(256, 256))
  }

  lemma LastAcquireLeads(c: Config, d: Time)
    requires 0.0 < d <= 0.5
    ensures Leads(c, Asked(Crowd(d, 256, 256)), Handle(256, Last(d), Acquire), Turned(d, [], Passed(256)))
  {
    var s, t := Asked(Crowd(d, 256, 256)), Turned(d, [], Passed(256));
    var deed := Deed(Passed(256), None, [], [], [], [Bucket.Request(Last(d), true)]);
    assert s.requests[256] == Request(AskLoginChallenge, Arrived);
    Handles(c, s, 256, Last(d), Acquire, deed);
    var u := After(s, 256, Last(d), deed);
    assert u.turns == t.turns;
    assert u.requests == t.requests;
    assert u.loginOps == t.loginOps;
    assert u.actionOps == t.actionOps && u.inboxEvents == t.inboxEvents;
  }

  lemma LastMintLeads(c: Config, d: Time)
    requires 0.0 < d <= 0.5
    ensures Leads(c, Turned(d, [], Passed(256)), Handle(256, Last(d), MintLogin([])), Full(d))
  {
    var s, t := Turned(d, [], Passed(256)), Full(d);
    var deed := Deed(LoginFull(256, 256), None, [Mint([], Last(d))], [], [], []);
    NothingLost(d, 256);
    PruneKeepsYoung(Entries(d, 256), Last(d));
    assert s.loginOps == Mints(d, 256) && s.requests[256] == Request(AskLoginChallenge, Passed(256));
    Handles(c, s, 256, Last(d), MintLogin([]), deed);
    var u := After(s, 256, Last(d), deed);
    assert u.turns == t.turns;
    assert u.requests == t.requests;
    assert u.loginOps == t.loginOps;
    assert u.actionOps == t.actionOps && u.inboxEvents == t.inboxEvents;
  }

  lemma {:induction false} OnlyLateOnesWithin(k: nat, lo: Time, hi: Time)
    requires 0.0 < lo <= 0.5 && forall i: nat :: i < k ==> TurnTime(i) <= hi
    ensures Bucket.AdmittedWithin(Turns(k), lo, hi) == if k <= 20 then 0 else k - 20
  {
    if k > 0 {
      assert Turns(k)[..k - 1] == Turns(k - 1);
      OnlyLateOnesWithin(k - 1, lo, hi);
    }
  }

  lemma FullRuns(c: Config, d: Time) returns (events: seq<Event>)
    requires 0.0 < d <= 0.5
    ensures Run(c, events) == Some(Full(d))
  {
    var s := Crowd(d, 256, 256);
    events := CrowdRuns(c, d, 256, 256);
    RunStep(c, events, s, Arrive(AskLoginChallenge), Asked(s));
    events := events + [Arrive(AskLoginChallenge)];
    LastAcquireLeads(c, d);
    RunStep(c, events, Asked(s), Handle(256, Last(d), Acquire), Turned(d, [], Passed(256)));
    events := events + [Handle(256, Last(d), Acquire)];
    LastMintLeads(c, d);
    RunStep(c, events, Turned(d, [], Passed(256)), Handle(256, Last(d), MintLogin([])), Full(d));
    events := events + [Handle(256, Last(d), MintLogin([]))];
  }

  lemma FullIsPrompt(d: Time)
    requires 0.0 < d <= 0.5
    ensures Prompt(Full(d), d)
  {
    assert Full(d).loginOps[256] == Mint([], Last(d)) && Full(d).turns[256] == Bucket.Request(Last(d), true);
  }

  /** The store is full although only 237 requests were admitted in the last 120 seconds. */
  lemma FullOnFewAdmissions(c: Config, d: Time) returns (events: seq<Event>)
    requires 0.0 < d <= 0.5
    ensures Run(c, events) == Some(Full(d)) && Prompt(Full(d), d)
    ensures Bucket.AdmittedWithin(Full(d).turns, Last(d) - 120.0, Last(d)) == 237
  {
    events := FullRuns(c, d);
    FullIsPrompt(d);
    OnlyLateOnesWithin(256, d * 0.5, Last(d));
    assert Full(d).turns[..256] == Turns(256);
  }

  // ------------------------------------------------------------ exactly without delay

  ghost predicate Reachable(c: Config, s: Server) {
    exists events :: Run(c, events) == Some(s)
  }

  ghost predicate MintsBounded(s: Server, lo: Time, hi: Time) {
    MintsWithin(s.loginOps, lo, hi) as real <= 20.0 + 2.0 * (hi - lo)
  }

  /** As long as requests wait at most `delay` between limiter and store, the mints of
      every window stay within the limiter's bound for it. */
  ghost predicate AlwaysBounded(c: Config, delay: Time) {
    forall s, lo, hi :: Reachable(c, s) && Prompt(s, delay) && lo <= hi ==> MintsBounded(s, lo, hi)
  }

  lemma ReachableIsBounded(c: Config, s: Server, lo: Time, hi: Time)
    requires Reachable(c, s) && Prompt(s, 0.0) && lo <= hi
    ensures MintsBounded(s, lo, hi)
  {
    var events :| Run(c, events) == Some(s);
    LoginMintsPerWindow(c, events, s, lo, hi, 0.0);
  }

  lemma BoundedIffNoDelay(c: Config, delay: Time)
    requires 0.0 <= delay
    ensures AlwaysBounded(c, delay) <==> delay == 0.0
  {
    if delay == 0.0 {
      forall s, lo, hi | Reachable(c, s) && Prompt(s, delay) && lo <= hi ensures MintsBounded(s, lo, hi) {
        ReachableIsBounded(c, s, lo, hi);
      }
    } else {
      var d := if delay <= 0.5 then delay else 0.5;
      var events := DelayedMintsExceedTheWindow(c, d);
      assert !MintsBounded(Run(c, events).value, d, 0.5);
    }
  }

  ghost predicate ToldFull(s: Server, r: nat) {
    r < |s.requests| && s.requests[r].phase.LoginFull? && s.requests[r].phase.op < |s.loginOps|
  }

  /** The refused request's own admission and 256 others were in the last 120 seconds. */
  ghost predicate RecentlyAdmitted(s: Server, r: nat)
    requires ToldFull(s, r)
  {
    var t := s.loginOps[s.requests[r].phase.op].at;
    Bucket.AdmittedWithin(s.turns, t - 120.0, t) >= 257
  }

  ghost predicate FullOnlyWhenAdmitted(c: Config, delay: Time) {
    forall s, r :: Reachable(c, s) && Prompt(s, delay) && ToldFull(s, r) ==> RecentlyAdmitted(s, r)
  }

  lemma ReachableFullWasAdmitted(c: Config, s: Server, r: nat)
    requires Reachable(c, s) && Prompt(s, 0.0) && ToldFull(s, r)
    ensures RecentlyAdmitted(s, r)
  {
    var events :| Run(c, events) == Some(s);
    StoreFullNeedsAdmissions(c, events, s, r, 0.0);
  }

  lemma FullOnlyWhenAdmittedIffNoDelay(c: Config, delay: Time)
    requires 0.0 <= delay
    ensures FullOnlyWhenAdmitted(c, delay) <==> delay == 0.0
  {
    if delay == 0.0 {
      forall s, r | Reachable(c, s) && Prompt(s, delay) && ToldFull(s, r) ensures RecentlyAdmitted(s, r) {
        ReachableFullWasAdmitted(c, s, r);
      }
    } else {
      var d := if delay <= 0.5 then delay else 0.5;
      var events := FullOnFewAdmissions(c, d);
      FullTellsFull(d);
      assert Reachable(c, Full(d));
    }
  }

  lemma FullTellsFull(d: Time)
    requires Bucket.AdmittedWithin(Full(d).turns, Last(d) - 120.0, Last(d)) == 237
    ensures ToldFull(Full(d), 256) && !RecentlyAdmitted(Full(d), 256)
  {
    assert Full(d).requests[256] == Request(AskLoginChallenge, LoginFull(256, 256));
    assert Full(d).loginOps[256] == Mint([], Last(d));
  }
}
