/** The login token bucket, and the proof that it is the most permissive policy
    for its envelope: at most `capacity + rate * length` admissions in any window.
    Token levels are real numbers here where the source uses 64-bit floats. */
module TokenBuckets {
  import opened Common

  const BUCKET_CAPACITY: real := 20.0
  const REFILL_PER_SECOND: real := 2.0

  /** One request: when it was made and whether it was let through. */
  datatype Request = Request(at: Time, admitted: bool)

  datatype Limits = Limits(capacity: real, rate: real) {
    ghost predicate Sane() {
      0.0 <= capacity && 0.0 <= rate
    }
  }

  /** A burst size, and the credit earned by each moment. */
  datatype Envelope = Envelope(capacity: real, credit: Time -> real) {
    ghost predicate Sane() {
      0.0 <= capacity && forall a: Time, b: Time :: a <= b ==> credit(a) <= credit(b)
    }

    /** How many admissions fit between `s` and `e`. */
    ghost function Bound(s: Time, e: Time): real {
      capacity + credit(e) - credit(s)
    }
  }

  ghost predicate EarnsAtRate(v: Envelope, l: Limits, t: Time) {
    v.credit(t) == t * l.rate
  }

  /** `v` is the envelope that the limits `l` stand for. */
  ghost predicate Stands(v: Envelope, l: Limits) {
    v.capacity == l.capacity && forall t: Time :: EarnsAtRate(v, l, t)
  }

  /** For a token bucket that is the burst size plus the rate times the length. */
  lemma BoundOfLimits(v: Envelope, l: Limits, s: Time, e: Time)
    requires Stands(v, l)
    ensures v.Bound(s, e) == l.capacity + (e - s) * l.rate
  {
    assert EarnsAtRate(v, l, s) && EarnsAtRate(v, l, e);
  }

  lemma SaneLimits(v: Envelope, l: Limits)
    requires Stands(v, l) && l.Sane()
    ensures v.Sane()
  {
    forall a: Time, b: Time | a <= b ensures v.credit(a) <= v.credit(b) {
      assert EarnsAtRate(v, l, a) && EarnsAtRate(v, l, b);
      assert (b - a) * l.rate >= 0.0;
    }
  }

  function Min(a: real, b: real): real {
    if a < b then a else b
  }

  /** Tokens after refilling for the time since `last`, up to the capacity. */
  function Refill(l: Limits, tokens: real, last: Time, now: Time): real {
    Min(tokens + (if now > last then now - last else 0.0) * l.rate, l.capacity)
  }

  /** The bucket of the source: two fields updated in place. `history` records
      every request since the bucket was made. */
  class TokenBucket {
    var tokens: real
    var lastRefill: Time
    const limits: Limits
    ghost const envelope: Envelope
    ghost const start: Time
    ghost var history: seq<Request>

    ghost predicate Valid()
      reads this
    {
      && Stands(envelope, limits)
      && IsBucketRun(envelope, start, history)
      && lastRefill == LastTime(start, history)
      && tokens == LevelAfter(envelope, start, history)
    }

    constructor NewAt(capacity: real, refillPerSecond: real, now: Time)
      ensures Valid() && history == [] && start == now
      ensures limits == Limits(capacity, refillPerSecond)
    {
      tokens := capacity;
      lastRefill := now;
      limits := Limits(capacity, refillPerSecond);
      envelope := Envelope(capacity, (t: Time) => t * refillPerSecond);
      start := now;
      history := [];
    }

    /** The caller's clock is monotonic: every reading is taken under the lock.
        The answer is yes exactly when the envelope has room in every window
        that ends now. */
    method TryAcquireAt(now: Time) returns (ok: bool)
      requires Valid() && lastRefill <= now
      modifies this
      ensures Valid() && history == old(history) + [Request(now, ok)]
      ensures limits.Sane() ==> (ok <==> HasRoom(envelope, old(history), now))
    {
      RefillAt(now);
      if tokens >= 1.0 {
        tokens := tokens - 1.0;
        ok := true;
      } else {
        ok := false;
      }
      Answered(envelope, start, history, now, ok);
      if limits.Sane() {
        SaneLimits(envelope, limits);
      }
      history := history + [Request(now, ok)];
    }

    method RefillAt(now: Time)
      requires Valid() && lastRefill <= now
      modifies this`tokens, this`lastRefill
      ensures lastRefill == now && tokens == LevelAt(envelope, start, history, now)
    {
      RefillIsLevel(envelope, limits, start, history, now);
      tokens := Refill(limits, tokens, lastRefill, now);
      lastRefill := now;
    }
  }

  // ------------------------------------------------------------ level of a run

  ghost predicate InOrder(start: Time, h: seq<Request>) {
    && (forall i :: 0 <= i < |h| ==> start <= h[i].at)
    && (forall i, j :: 0 <= i <= j < |h| ==> h[i].at <= h[j].at)
  }

  ghost function LastTime(start: Time, h: seq<Request>): Time {
    if h == [] then start else h[|h| - 1].at
  }

  /** Tokens left right after the last request of `h`. */
  ghost function LevelAfter(v: Envelope, start: Time, h: seq<Request>): real
    decreases |h|, 0
  {
    if h == [] then v.capacity
    else
      var r := h[|h| - 1];
      LevelAt(v, start, h[..|h| - 1], r.at) - (if r.admitted then 1.0 else 0.0)
  }

  /** Tokens at time `t` after refilling, before the request made at `t`. */
  ghost function LevelAt(v: Envelope, start: Time, h: seq<Request>, t: Time): real
    decreases |h|, 1
  {
    Min(LevelAfter(v, start, h) + v.credit(t) - v.credit(LastTime(start, h)), v.capacity)
  }

  /** Refilling the level after the last request gives the level now. */
  lemma RefillIsLevel(v: Envelope, l: Limits, start: Time, h: seq<Request>, now: Time)
    requires Stands(v, l) && LastTime(start, h) <= now
    ensures Refill(l, LevelAfter(v, start, h), LastTime(start, h), now) == LevelAt(v, start, h, now)
  {
    assert EarnsAtRate(v, l, now) && EarnsAtRate(v, l, LastTime(start, h));
  }

  /** Admissions made at or after `s`. */
  ghost function AdmittedSince(h: seq<Request>, s: Time): nat {
    if h == [] then 0
    else
      var r := h[|h| - 1];
      AdmittedSince(h[..|h| - 1], s) + (if r.admitted && s <= r.at then 1 else 0)
  }

  /** Admissions made in the window from `s` to `e`. */
  ghost function AdmittedWithin(h: seq<Request>, s: Time, e: Time): nat {
    if h == [] then 0
    else
      var r := h[|h| - 1];
      AdmittedWithin(h[..|h| - 1], s, e) + (if r.admitted && s <= r.at <= e then 1 else 0)
  }

  /** What the window from `s` to `t` leaves over. */
  ghost function Room(v: Envelope, h: seq<Request>, s: Time, t: Time): real {
    v.Bound(s, t) - AdmittedSince(h, s) as real
  }

  /** One more admission at `now` breaks no window that ends at `now`. */
  ghost predicate HasRoom(v: Envelope, h: seq<Request>, now: Time) {
    forall s: Time :: s <= now ==> Room(v, h, s, now) >= 1.0
  }

  /** The answer to request `k` is the one the level then gives. */
  ghost predicate FollowsLevel(v: Envelope, start: Time, h: seq<Request>, k: nat)
    requires k < |h|
  {
    h[k].admitted <==> LevelAt(v, start, h[..k], h[k].at) >= 1.0
  }

  /** `h` is what a bucket that starts full at `start` answers. */
  ghost predicate IsBucketRun(v: Envelope, start: Time, h: seq<Request>) {
    InOrder(start, h) && forall k: nat :: k < |h| ==> FollowsLevel(v, start, h, k)
  }

  /** `h` stays inside the envelope in every window. */
  ghost predicate Conforms(v: Envelope, h: seq<Request>) {
    forall s: Time, e: Time :: s <= e ==> AdmittedWithin(h, s, e) as real <= v.Bound(s, e)
  }

  // ------------------------------------------- the level is the tightest window

  lemma NothingAfterTheEnd(start: Time, h: seq<Request>, s: Time)
    requires InOrder(start, h) && LastTime(start, h) < s
    ensures AdmittedSince(h, s) == 0
  {
    if h != [] {
      var g := h[..|h| - 1];
      if g != [] {
        NothingAfterTheEnd(start, g, s);
      }
    }
  }

  /** No window leaves less room than the level says. */
  lemma {:induction false} LevelBelowEveryWindow(v: Envelope, start: Time, h: seq<Request>, t: Time, s: Time)
    requires v.Sane() && InOrder(start, h) && LastTime(start, h) <= t && s <= t
    ensures LevelAt(v, start, h, t) <= v.Bound(s, t) - AdmittedSince(h, s) as real
  {
    if h != [] {
      var g, r := h[..|h| - 1], h[|h| - 1];
      if s <= r.at {
        LevelBelowEveryWindow(v, start, g, r.at, s);
      } else {
        NothingAfterTheEnd(start, h, s);
      }
    }
  }

  /** Some window leaves exactly the room the level says. */
  lemma {:induction false} LevelIsSomeWindow(v: Envelope, start: Time, h: seq<Request>, t: Time) returns (s: Time)
    requires v.Sane() && InOrder(start, h) && LastTime(start, h) <= t
    ensures s <= t && LevelAt(v, start, h, t) == v.Bound(s, t) - AdmittedSince(h, s) as real
  {
    if h == [] {
      s := t;
    } else {
      var g, r := h[..|h| - 1], h[|h| - 1];
      s := LevelIsSomeWindow(v, start, g, r.at);
      if LevelAfter(v, start, h) + v.credit(t) - v.credit(r.at) >= v.capacity && r.at < t {
        s := t;
        NothingAfterTheEnd(start, h, t);
      }
    }
  }

  /** The level is the room of the tightest window that ends now: every window leaves
      at least that much, and one leaves just that. So it reaches one token exactly
      when the envelope has room. */
  lemma LevelIsTightestWindow(v: Envelope, start: Time, h: seq<Request>, t: Time)
    requires v.Sane() && InOrder(start, h) && LastTime(start, h) <= t
    ensures forall s: Time :: s <= t ==> LevelAt(v, start, h, t) <= Room(v, h, s, t)
    ensures exists s: Time :: s <= t && LevelAt(v, start, h, t) == Room(v, h, s, t)
    ensures LevelAt(v, start, h, t) >= 1.0 <==> HasRoom(v, h, t)
  {
    var s := LevelIsSomeWindow(v, start, h, t);
    assert LevelAt(v, start, h, t) == Room(v, h, s, t);
    forall u: Time | u <= t ensures LevelAt(v, start, h, t) <= Room(v, h, u, t) {
      LevelBelowEveryWindow(v, start, h, t, u);
    }
  }

  // ------------------------------------------------------------ whole-run facts

  lemma PrefixInOrder(start: Time, h: seq<Request>, k: nat)
    requires InOrder(start, h) && k <= |h|
    ensures InOrder(start, h[..k])
    ensures k < |h| ==> LastTime(start, h[..k]) <= h[k].at
  {
  }

  lemma WithinIsSince(start: Time, h: seq<Request>, s: Time, e: Time)
    requires InOrder(start, h) && LastTime(start, h) <= e
    ensures AdmittedWithin(h, s, e) == AdmittedSince(h, s)
  {
    if h != [] {
      PrefixInOrder(start, h, |h| - 1);
      WithinIsSince(start, h[..|h| - 1], s, e);
    }
  }

  /** In every window of every run the bucket admits at most the envelope. */
  lemma {:induction false} BucketConforms(v: Envelope, start: Time, h: seq<Request>)
    requires v.Sane() && IsBucketRun(v, start, h)
    ensures Conforms(v, h)
  {
    forall s: Time, e: Time | s <= e ensures AdmittedWithin(h, s, e) as real <= v.Bound(s, e) {
      WindowWithinEnvelope(v, start, h, s, e);
    }
  }

  lemma {:induction false} WindowWithinEnvelope(v: Envelope, start: Time, h: seq<Request>, s: Time, e: Time)
    requires v.Sane() && IsBucketRun(v, start, h) && s <= e
    ensures AdmittedWithin(h, s, e) as real <= v.Bound(s, e)
  {
    if h != [] {
      var g, r := h[..|h| - 1], h[|h| - 1];
      PrefixIsRun(v, start, h, |h| - 1);
      assert FollowsLevel(v, start, h, |h| - 1);
      if r.admitted && s <= r.at <= e {
        PrefixInOrder(start, h, |h| - 1);
        LevelIsTightestWindow(v, start, g, r.at);
        assert Room(v, g, s, r.at) >= 1.0;
        WithinIsSince(start, g, s, e);
      } else {
        WindowWithinEnvelope(v, start, g, s, e);
      }
    }
  }

  lemma PrefixIsRun(v: Envelope, start: Time, h: seq<Request>, k: nat)
    requires IsBucketRun(v, start, h) && k <= |h|
    ensures IsBucketRun(v, start, h[..k])
  {
    forall i: nat | i < k ensures FollowsLevel(v, start, h[..k], i) {
      assert h[..k][..i] == h[..i];
      assert FollowsLevel(v, start, h, i);
    }
  }

  lemma FollowsStays(v: Envelope, start: Time, h: seq<Request>, g: seq<Request>, i: nat)
    requires i < |h| && h <= g && FollowsLevel(v, start, h, i)
    ensures FollowsLevel(v, start, g, i)
  {
    assert g[..i] == h[..i];
  }

  lemma RunExtended(v: Envelope, start: Time, h: seq<Request>, now: Time, ok: bool)
    requires IsBucketRun(v, start, h) && LastTime(start, h) <= now
    requires ok <==> LevelAt(v, start, h, now) >= 1.0
    ensures IsBucketRun(v, start, h + [Request(now, ok)])
  {
    var g := h + [Request(now, ok)];
    assert g[..|h|] == h;
    assert FollowsLevel(v, start, g, |h|);
    forall i: nat | i < |g| ensures FollowsLevel(v, start, g, i) {
      if i < |h| {
        FollowsStays(v, start, h, g, i);
      }
    }
  }

  /** One answer by the level: the run goes on, one token is spent on a yes, and
      yes means exactly that the envelope has room. */
  lemma Answered(v: Envelope, start: Time, h: seq<Request>, now: Time, ok: bool)
    requires IsBucketRun(v, start, h) && LastTime(start, h) <= now
    requires ok <==> LevelAt(v, start, h, now) >= 1.0
    ensures var g := h + [Request(now, ok)];
            && IsBucketRun(v, start, g) && LastTime(start, g) == now
            && LevelAfter(v, start, g) == LevelAt(v, start, h, now) - (if ok then 1.0 else 0.0)
    ensures v.Sane() ==> (ok <==> HasRoom(v, h, now))
  {
    RunExtended(v, start, h, now, ok);
    assert (h + [Request(now, ok)])[..|h|] == h;
    if v.Sane() {
      LevelIsTightestWindow(v, start, h, now);
    }
  }

  /** The envelope in the limits' own terms. */
  lemma AdmissionsPerWindow(v: Envelope, l: Limits, start: Time, h: seq<Request>, s: Time, e: Time)
    requires Stands(v, l) && l.Sane() && IsBucketRun(v, start, h) && s <= e
    ensures AdmittedWithin(h, s, e) as real <= l.capacity + (e - s) * l.rate
  {
    SaneLimits(v, l);
    BoundOfLimits(v, l, s, e);
    WindowWithinEnvelope(v, start, h, s, e);
  }

  /** Every refusal is forced: some window ending then would have been broken. */
  lemma RefusalIsForced(v: Envelope, start: Time, h: seq<Request>, k: nat) returns (s: Time)
    requires v.Sane() && IsBucketRun(v, start, h) && k < |h| && !h[k].admitted
    ensures s <= h[k].at
    ensures AdmittedWithin(h[..k], s, h[k].at) as real + 1.0 > v.Bound(s, h[k].at)
  {
    PrefixInOrder(start, h, k);
    assert FollowsLevel(v, start, h, k);
    s := LevelIsSomeWindow(v, start, h[..k], h[k].at);
    WithinIsSince(start, h[..k], s, h[k].at);
  }

  ghost function Total(h: seq<Request>): nat {
    if h == [] then 0 else Total(h[..|h| - 1]) + (if h[|h| - 1].admitted then 1 else 0)
  }

  /** Requests before `s` come first, so a run splits there. */
  lemma {:induction false} SplitAt(start: Time, h: seq<Request>, s: Time, m: nat)
    requires InOrder(start, h) && m <= |h|
    requires forall i :: 0 <= i < m ==> h[i].at < s
    requires m < |h| ==> s <= h[m].at
    ensures Total(h) == Total(h[..m]) + AdmittedSince(h, s)
  {
    if |h| == m {
      assert h[..m] == h;
      if h != [] {
        NothingAfterTheEnd(start, h, s);
      }
    } else {
      var g := h[..|h| - 1];
      PrefixInOrder(start, h, |h| - 1);
      assert g[..m] == h[..m];
      SplitAt(start, g, s, m);
    }
  }

  /** How many leading requests were made before `s`. */
  ghost function CountBefore(h: seq<Request>, s: Time): (m: nat)
    ensures m <= |h|
    ensures forall i :: 0 <= i < m ==> h[i].at < s
    ensures m < |h| ==> s <= h[m].at
  {
    if h == [] || s <= h[0].at then 0
    else
      var m := CountBefore(h[1..], s);
      assert forall i :: 0 < i < |h| ==> h[i] == h[1..][i - 1];
      m + 1
  }

  ghost predicate SameTimes(h: seq<Request>, d: seq<Request>) {
    |h| == |d| && forall i :: 0 <= i < |h| ==> h[i].at == d[i].at
  }

  /** Most permissive: no other way of answering the same requests that stays in
      the envelope has let more of them through at any point. */
  lemma {:induction false} BucketDominates(v: Envelope, start: Time, h: seq<Request>, d: seq<Request>, n: nat)
    requires v.Sane() && IsBucketRun(v, start, h)
    requires SameTimes(h, d) && Conforms(v, d) && n <= |h|
    ensures Total(d[..n]) <= Total(h[..n])
    decreases n
  {
    if n > 0 {
      var k := n - 1;
      BucketDominates(v, start, h, d, k);
      assert h[..n][..k] == h[..k] && d[..n][..k] == d[..k];
      if !h[k].admitted {
        var s := RefusalIsForced(v, start, h, k);
        var m := CountBefore(h[..k], s);
        BucketDominates(v, start, h, d, m);
        CountsFrom(v, start, h, d, k, s, m);
      }
    }
  }

  /** Exactly the most permissive policy: the bucket stays in the envelope, and so does
      no policy that has let more of the same requests through at any point. */
  lemma {:induction false} BucketIsMostPermissive(v: Envelope, start: Time, h: seq<Request>)
    requires v.Sane() && IsBucketRun(v, start, h)
    ensures Conforms(v, h)
    ensures forall d, n :: SameTimes(h, d) && Conforms(v, d) && 0 <= n <= |h| ==> Total(d[..n]) <= Total(h[..n])
  {
    BucketConforms(v, start, h);
    forall d, n | SameTimes(h, d) && Conforms(v, d) && 0 <= n <= |h| ensures Total(d[..n]) <= Total(h[..n]) {
      BucketDominates(v, start, h, d, n);
    }
  }

  /** The step of `BucketDominates` at a refusal: up to `s` the bucket is ahead,
      and from `s` on the envelope holds the other policy back. */
  lemma {:induction false} CountsFrom(v: Envelope, start: Time, h: seq<Request>, d: seq<Request>, k: nat, s: Time, m: nat)
    requires InOrder(start, h) && SameTimes(h, d) && Conforms(v, d) && k < |h|
    requires s <= h[k].at && AdmittedWithin(h[..k], s, h[k].at) as real + 1.0 > v.Bound(s, h[k].at)
    requires m == CountBefore(h[..k], s) && Total(d[..m]) <= Total(h[..m])
    ensures Total(d[..k + 1]) <= Total(h[..k])
  {
    var t := h[k].at;
    SplitsAlike(start, h, d, k, s, m);
    WithinGrows(d, s, t, k + 1);
    WholeStep(AdmittedWithin(d[..k + 1], s, t), AdmittedWithin(h[..k], s, t), v.Bound(s, t));
  }

  lemma SplitsAlike(start: Time, h: seq<Request>, d: seq<Request>, k: nat, s: Time, m: nat)
    requires InOrder(start, h) && SameTimes(h, d) && k < |h| && s <= h[k].at && m == CountBefore(h[..k], s)
    ensures m <= k
    ensures Total(h[..k]) == Total(h[..m]) + AdmittedWithin(h[..k], s, h[k].at)
    ensures Total(d[..k + 1]) == Total(d[..m]) + AdmittedWithin(d[..k + 1], s, h[k].at)
  {
    assert m < k ==> s <= h[..k][m].at == h[m].at;
    PrefixSplits(start, h, k, s, h[k].at, m);
    PrefixSplits(start, d, k + 1, s, h[k].at, m);
  }

  lemma {:induction false} PrefixSplits(start: Time, h: seq<Request>, k: nat, s: Time, t: Time, m: nat)
    requires InOrder(start, h) && m <= k <= |h|
    requires forall i :: 0 <= i < m ==> h[i].at < s
    requires m < k ==> s <= h[m].at
    requires forall i :: 0 <= i < k ==> h[i].at <= t
    requires start <= t
    ensures Total(h[..k]) == Total(h[..m]) + AdmittedWithin(h[..k], s, t)
  {
    PrefixInOrder(start, h, k);
    SplitAt(start, h[..k], s, m);
    WithinIsSince(start, h[..k], s, t);
    assert h[..k][..m] == h[..m];
  }

  lemma WholeStep(a: nat, b: nat, x: real)
    requires a as real <= x < b as real + 1.0
    ensures a <= b
  {
  }

  lemma {:induction false} WithinGrows(d: seq<Request>, s: Time, e: Time, n: nat)
    requires n <= |d|
    ensures AdmittedWithin(d[..n], s, e) <= AdmittedWithin(d, s, e)
  {
    if n == |d| {
      assert d[..n] == d;
    } else {
      assert d[..|d| - 1][..n] == d[..n];
      WithinGrows(d[..|d| - 1], s, e, n);
    }
  }
}
