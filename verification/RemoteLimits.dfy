/** What the login limiter means for the login store over every run: each mint is paid
    for by an admission of its own. */
module RemoteLimits {
  import opened Common
  import opened ChallengeStores
  import opened ChallengeRuns
  import opened Remotes
  import opened RemoteProofs
  import opened RemoteLinks
  import Bucket = TokenBuckets
  import R = RemoteRuns

  // ------------------------------------------------------------------------ counting

  /** Requests to the login store to mint, made between `lo` and `hi`, refused ones
      included. */
  ghost function MintsWithin(ops: seq<Op<Challenge>>, lo: Time, hi: Time): nat {
    if ops == [] then 0
    else
      var op := ops[|ops| - 1];
      MintsWithin(ops[..|ops| - 1], lo, hi) + (if op.Mint? && lo <= op.at <= hi then 1 else 0)
  }

  ghost predicate MintsAt(ops: seq<Op<Challenge>>, i: int, lo: Time, hi: Time) {
    0 <= i < |ops| && ops[i].Mint? && lo <= ops[i].at <= hi
  }

  ghost function MintSet(ops: seq<Op<Challenge>>, lo: Time, hi: Time): set<nat> {
    set i: nat | i < |ops| && MintsAt(ops, i, lo, hi)
  }

  lemma {:induction false} MintSetSize(ops: seq<Op<Challenge>>, lo: Time, hi: Time)
    ensures |MintSet(ops, lo, hi)| == MintsWithin(ops, lo, hi)
  {
    if ops != [] {
      var n := |ops| - 1;
      var past := ops[..n];
      MintSetSize(past, lo, hi);
      assert forall i: nat :: i < n ==> (MintsAt(ops, i, lo, hi) <==> MintsAt(past, i, lo, hi));
      assert MintSet(ops, lo, hi) == MintSet(past, lo, hi) + (if MintsAt(ops, n, lo, hi) then {n} else {});
    } else {
      assert MintSet(ops, lo, hi) == {};
    }
  }

  ghost predicate AdmitsAt(turns: seq<Bucket.Request>, j: int, lo: Time, hi: Time) {
    0 <= j < |turns| && turns[j].admitted && lo <= turns[j].at <= hi
  }

  ghost function AdmittedSet(turns: seq<Bucket.Request>, lo: Time, hi: Time): set<nat> {
    set j: nat | j < |turns| && AdmitsAt(turns, j, lo, hi)
  }

  lemma {:induction false} AdmittedSetSize(turns: seq<Bucket.Request>, lo: Time, hi: Time)
    ensures |AdmittedSet(turns, lo, hi)| == Bucket.AdmittedWithin(turns, lo, hi)
  {
    if turns != [] {
      var n := |turns| - 1;
      var past := turns[..n];
      AdmittedSetSize(past, lo, hi);
      assert forall j: nat :: j < n ==> (AdmitsAt(turns, j, lo, hi) <==> AdmitsAt(past, j, lo, hi));
      assert AdmittedSet(turns, lo, hi) == AdmittedSet(past, lo, hi) + (if AdmitsAt(turns, n, lo, hi) then {n} else {});
    } else {
      assert AdmittedSet(turns, lo, hi) == {};
    }
  }

  lemma {:induction false} InjectionBound(f: map<nat, nat>, into: set<nat>)
    requires forall i :: i in f ==> f[i] in into
    requires forall i, k :: i in f && k in f && f[i] == f[k] ==> i == k
    ensures |f.Keys| <= |into|
    decreases |f.Keys|
  {
    if f.Keys != {} {
      var i :| i in f.Keys;
      var g := f - {i};
      assert g.Keys == f.Keys - {i};
      InjectionBound(g, into - {f[i]});
    }
  }

  // ----------------------------------------------------------- mints and admissions

  /** The limiter's turn of the request that made login mint `i`. */
  ghost function TurnFor(s: Server, i: nat): (turn: nat)
    requires i < |s.loginOps| && s.loginOps[i].Mint? && LoginMade(s, i)
    ensures exists q :: 0 <= q < |s.requests| && AsksMint(s.requests[q], i) && s.requests[q].phase.turn == turn
  {
    var q :| 0 <= q < |s.requests| && AsksMint(s.requests[q], i);
    s.requests[q].phase.turn
  }

  lemma TurnIsAdmission(c: Config, s: Server, i: nat)
    requires R.Inv(c, s) && i < |s.loginOps| && s.loginOps[i].Mint?
    ensures LoginMade(s, i)
    ensures AdmittedAt(s, TurnFor(s, i)) && s.turns[TurnFor(s, i)].at <= s.loginOps[i].at
  {
    assert LoginMade(s, i);
    var q :| 0 <= q < |s.requests| && AsksMint(s.requests[q], i) && s.requests[q].phase.turn == TurnFor(s, i);
    assert RequestInv(c, s, s.requests[q]);
  }

  /** No two mints have the same turn. */
  lemma TurnsDiffer(c: Config, s: Server, i: nat, k: nat)
    requires R.Inv(c, s) && i < |s.loginOps| && s.loginOps[i].Mint? && k < |s.loginOps| && s.loginOps[k].Mint?
    requires LoginMade(s, i) && LoginMade(s, k) && TurnFor(s, i) == TurnFor(s, k)
    ensures i == k
  {
    var q :| 0 <= q < |s.requests| && AsksMint(s.requests[q], i) && s.requests[q].phase.turn == TurnFor(s, i);
    var r :| 0 <= r < |s.requests| && AsksMint(s.requests[r], k) && s.requests[r].phase.turn == TurnFor(s, k);
    assert q != r ==> Apart(s.requests[q].phase, s.requests[r].phase);
  }

  /** These mints were admitted at `since` or later and made by `hi`. */
  ghost predicate PaidSince(s: Server, mints: set<nat>, since: Time, hi: Time) {
    forall i :: i in mints ==>
      && i < |s.loginOps| && s.loginOps[i].Mint? && s.loginOps[i].at <= hi
      && LoginMade(s, i) && TurnFor(s, i) < |s.turns| && since <= s.turns[TurnFor(s, i)].at
  }

  /** Each of them took an admission of its own. */
  lemma MintsArePaidFor(c: Config, s: Server, mints: set<nat>, since: Time, hi: Time)
    requires R.Inv(c, s) && PaidSince(s, mints, since, hi)
    ensures |mints| <= Bucket.AdmittedWithin(s.turns, since, hi)
  {
    var f := map i | i in mints :: TurnFor(s, i);
    var into := AdmittedSet(s.turns, since, hi);
    forall i | i in f ensures f[i] in into {
      TurnIsAdmission(c, s, i);
      assert AdmitsAt(s.turns, f[i], since, hi);
    }
    forall i, k | i in f && k in f && f[i] == f[k] ensures i == k {
      TurnsDiffer(c, s, i, k);
    }
    InjectionBound(f, into);
    assert f.Keys == mints;
    AdmittedSetSize(s.turns, since, hi);
  }

  /** Over every run, enrolment pages and login challenges together get at most
      20 + 2 (hi - lo) admissions in any window. */
  lemma LoginAdmissionsPerWindow(c: Config, events: seq<Event>, s: Server, lo: Time, hi: Time)
    requires Run(c, events) == Some(s) && lo <= hi
    ensures Bucket.AdmittedWithin(s.turns, lo, hi) as real <= 20.0 + 2.0 * (hi - lo)
  {
    R.LimiterHolds(c, events);
    EnvelopeStands();
    Bucket.AdmissionsPerWindow(ENVELOPE, LIMITS, 0.0, s.turns, lo, hi);
  }

  // --------------------------------------------------------------------- over every run

  /** No request waits longer than `delay` between the limiter and the login store. */
  ghost predicate Prompt(s: Server, delay: Time) {
    forall q :: 0 <= q < |s.requests| ==> PromptRequest(s, s.requests[q], delay)
  }

  ghost predicate PromptRequest(s: Server, req: Request, delay: Time) {
    (req.phase.LoginMinted? || req.phase.LoginFull?) && req.phase.turn < |s.turns| && req.phase.op < |s.loginOps| ==>
      s.loginOps[req.phase.op].at - s.turns[req.phase.turn].at <= delay
  }

  lemma PromptIsPaid(c: Config, s: Server, mints: set<nat>, lo: Time, hi: Time, delay: Time)
    requires R.Inv(c, s) && Prompt(s, delay)
    requires forall i :: i in mints ==> MintsAt(s.loginOps, i, lo, hi)
    ensures PaidSince(s, mints, lo - delay, hi)
  {
    forall i | i in mints
      ensures && i < |s.loginOps| && s.loginOps[i].Mint? && s.loginOps[i].at <= hi
              && LoginMade(s, i) && TurnFor(s, i) < |s.turns| && lo - delay <= s.turns[TurnFor(s, i)].at
    {
      assert MintsAt(s.loginOps, i, lo, hi);
      TurnIsAdmission(c, s, i);
      var q :| 0 <= q < |s.requests| && AsksMint(s.requests[q], i) && s.requests[q].phase.turn == TurnFor(s, i);
      assert PromptRequest(s, s.requests[q], delay);
    }
  }

  /** Mints of a window are at most the admissions of the window with its delay. */
  lemma MintsWithinAdmissions(c: Config, s: Server, lo: Time, hi: Time, delay: Time)
    requires R.Inv(c, s) && Prompt(s, delay)
    ensures MintsWithin(s.loginOps, lo, hi) <= Bucket.AdmittedWithin(s.turns, lo - delay, hi)
  {
    var mints := MintSet(s.loginOps, lo, hi);
    PromptIsPaid(c, s, mints, lo, hi, delay);
    MintsArePaidFor(c, s, mints, lo - delay, hi);
    MintSetSize(s.loginOps, lo, hi);
  }

  lemma MintsOfRun(c: Config, events: seq<Event>, s: Server, lo: Time, hi: Time, delay: Time)
    requires Run(c, events) == Some(s) && Prompt(s, delay)
    ensures MintsWithin(s.loginOps, lo, hi) <= Bucket.AdmittedWithin(s.turns, lo - delay, hi)
  {
    R.InvHolds(c, events);
    MintsWithinAdmissions(c, s, lo, hi, delay);
  }

  /** Over every run: if no request dallies for more than `delay` between the limiter
      and the store, the store is asked to mint at most 20 + 2 (hi - lo + delay) times
      in any window. */
  lemma {:induction false} LoginMintsPerWindow(c: Config, events: seq<Event>, s: Server, lo: Time, hi: Time, delay: Time)
    requires Run(c, events) == Some(s) && lo <= hi && 0.0 <= delay && Prompt(s, delay)
    ensures MintsWithin(s.loginOps, lo, hi) as real <= 20.0 + 2.0 * (hi - lo + delay)
  {
    LoginAdmissionsPerWindow(c, events, s, lo - delay, hi);
    MintsOfRun(c, events, s, lo, hi, delay);
  }

  lemma MintsSinceStart(c: Config, s: Server, hi: Time)
    requires R.Inv(c, s) && LimiterInv(s)
    ensures MintsWithin(s.loginOps, 0.0, hi) <= Bucket.AdmittedWithin(s.turns, 0.0, hi)
  {
    var mints := MintSet(s.loginOps, 0.0, hi);
    forall i | i in mints
      ensures && i < |s.loginOps| && s.loginOps[i].Mint? && s.loginOps[i].at <= hi
              && LoginMade(s, i) && TurnFor(s, i) < |s.turns| && 0.0 <= s.turns[TurnFor(s, i)].at
    {
      assert MintsAt(s.loginOps, i, 0.0, hi);
      TurnIsAdmission(c, s, i);
    }
    MintsArePaidFor(c, s, mints, 0.0, hi);
    MintSetSize(s.loginOps, 0.0, hi);
  }

  /** However long requests dally, the mints made by time `hi` never exceed what the
      limiter can have admitted by then. */
  lemma {:induction false} LoginMintsSinceStart(c: Config, events: seq<Event>, s: Server, hi: Time)
    requires Run(c, events) == Some(s) && 0.0 <= hi
    ensures MintsWithin(s.loginOps, 0.0, hi) as real <= 20.0 + 2.0 * hi
  {
    R.InvHolds(c, events);
    R.LimiterHolds(c, events);
    LoginAdmissionsPerWindow(c, events, s, 0.0, hi);
    MintsSinceStart(c, s, hi);
  }

  // -------------------------------------------------------------------------- full store

  ghost function Ids(out: seq<Item<Challenge>>): set<nat> {
    if out == [] then {} else {out[0].id} + Ids(out[1..])
  }

  lemma {:induction false} IdsSize(out: seq<Item<Challenge>>)
    requires Ordered(out)
    ensures |Ids(out)| == |out|
    ensures forall id :: id in Ids(out) ==> exists x :: x in out && x.id == id
  {
    if out != [] {
      var tail := out[1..];
      IdsSize(tail);
      assert out == [out[0]] + tail;
      assert out[0].id !in Ids(tail);
      forall id | id in Ids(out) ensures exists x :: x in out && x.id == id {
        if id == out[0].id {
          assert out[0] in out;
        } else {
          var x :| x in tail && x.id == id;
          assert x in out;
        }
      }
    }
  }

  /** When the login store refuses operation `op` as full, 256 mints of the last 120
      seconds stand in its way. */
  lemma FullMeansMints(s: Server, op: nat) returns (mints: set<nat>)
    requires Monotone(s.loginOps) && op < |s.loginOps| && s.loginOps[op].Mint? && !AnswerAt(FailClosed, s.loginOps, op)
    ensures |mints| >= 256
    ensures forall i :: i in mints ==> i < op && MintsAt(s.loginOps, i, s.loginOps[op].at - 120.0, s.loginOps[op].at)
  {
    var ops, t := s.loginOps, s.loginOps[op].at;
    var past := ops[..op];
    AnswersAreHistory(FailClosed, ops, op);
    PrefixMonotone(ops, op);
    OutstandingShape(FailClosed, past);
    var out := Outstanding(FailClosed, past);
    var live := Live(out, t);
    LiveMembers(out, t);
    LiveIsYoung(out, t);
    IdsSize(live);
    mints := Ids(live);
    forall i | i in mints ensures i < op && MintsAt(ops, i, t - 120.0, t) {
      var x :| x in live && x.id == i;
      assert IsMintOf(x, past);
      var k :| 0 <= k < |live| && live[k] == x;
      assert Young(live[k], t);
    }
  }

  lemma FullMeansManyMints(s: Server, op: nat)
    requires Monotone(s.loginOps) && op < |s.loginOps| && s.loginOps[op].Mint? && !AnswerAt(FailClosed, s.loginOps, op)
    ensures MintsWithin(s.loginOps, s.loginOps[op].at - 120.0, s.loginOps[op].at) >= 257
  {
    var t := s.loginOps[op].at;
    var before := FullMeansMints(s, op);
    var mints := before + {op};
    var all := MintSet(s.loginOps, t - 120.0, t);
    assert MintsAt(s.loginOps, op, t - 120.0, t);
    assert mints <= all;
    SubsetSize(mints, all);
    MintSetSize(s.loginOps, t - 120.0, t);
  }

  /** A request was refused by a full store at `t`: 257 mints, its own included, were
      asked for in the last 120 seconds, and without dallying admitted then too. */
  ghost predicate ManyAdmitted(s: Server, op: nat, delay: Time)
    requires op < |s.loginOps|
  {
    var t := s.loginOps[op].at;
    && MintsWithin(s.loginOps, t - 120.0, t) >= 257
    && Bucket.AdmittedWithin(s.turns, t - 120.0 - delay, t) >= 257
  }

  lemma FullMeansAdmissions(c: Config, s: Server, req: Request, delay: Time)
    requires R.Inv(c, s) && Prompt(s, delay) && RequestInv(c, s, req) && req.phase.LoginFull?
    ensures req.phase.op < |s.loginOps| && ManyAdmitted(s, req.phase.op, delay)
  {
    var op := req.phase.op;
    var t := s.loginOps[op].at;
    FullMeansManyMints(s, op);
    MintsWithinAdmissions(c, s, t - 120.0, t, delay);
  }

  /** Over every run: a request is told that the login store is full only if 256 other
      admitted requests minted there within the last 120 seconds. Without dallying
      they were admitted in those 120 seconds too. */
  lemma {:induction false} StoreFullNeedsAdmissions(c: Config, events: seq<Event>, s: Server, r: nat, delay: Time)
    requires Run(c, events) == Some(s) && 0.0 <= delay && Prompt(s, delay)
    requires r < |s.requests| && s.requests[r].phase.LoginFull?
    ensures s.requests[r].phase.op < |s.loginOps| && ManyAdmitted(s, s.requests[r].phase.op, delay)
  {
    R.InvHolds(c, events);
    FullMeansAdmissions(c, s, s.requests[r], delay);
  }

  /** However long they dallied, 257 requests were at the store in the last 120 seconds. */
  lemma {:induction false} StoreFullNeedsMints(c: Config, events: seq<Event>, s: Server, r: nat)
    requires Run(c, events) == Some(s) && r < |s.requests| && s.requests[r].phase.LoginFull?
    ensures s.requests[r].phase.op < |s.loginOps|
    ensures var t := s.loginOps[s.requests[r].phase.op].at;
            MintsWithin(s.loginOps, t - 120.0, t) >= 257
  {
    R.InvHolds(c, events);
    assert RequestInv(c, s, s.requests[r]);
    FullMeansManyMints(s, s.requests[r].phase.op);
  }

  lemma {:induction false} SubsetSize(a: set<nat>, b: set<nat>)
    requires a <= b
    ensures |a| <= |b|
  {
    assert b == a + (b - a);
  }
}
