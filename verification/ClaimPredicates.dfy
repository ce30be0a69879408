/** Claim predicates of a claimable balance: the depth-bounded, short-circuiting,
    fail-closed evaluator and the window deriver beside it. */
module ClaimPredicates {
  import opened Common

  const MAX_PREDICATE_DEPTH: nat := 64

  datatype Predicate =
    | Unconditional
    | And(preds: seq<Predicate>)
    | Or(preds: seq<Predicate>)
    | Not(inner: Option<Predicate>)
    | BeforeAbsolute(t: I64)
    | BeforeRelative(t: I64)

  /** Why the evaluator refuses; the source wraps each in `PredicateUnsupported`. */
  datatype Refusal =
    | TooDeep
    | AndTooShort(len: nat)
    | OrTooShort(len: nat)
    | NotWithoutInner
    | RelativeTime

  type Verdict = Result<bool, Refusal>

  // ---------------------------------------------------------------- evaluator

  /** What the evaluator answers for `p` met at nesting `depth`. */
  function EvalDepth(p: Predicate, now: U64, depth: nat): Verdict
    decreases p, 1
  {
    if depth > MAX_PREDICATE_DEPTH then Err(TooDeep)
    else match p
      case Unconditional => Ok(true)
      case And(ps) => if |ps| < 2 then Err(AndTooShort(|ps|)) else EvalAll(ps, now, depth + 1)
      case Or(ps) => if |ps| < 2 then Err(OrTooShort(|ps|)) else EvalAny(ps, now, depth + 1)
      case Not(None) => Err(NotWithoutInner)
      case Not(Some(q)) => Negate(EvalDepth(q, now, depth + 1))
      case BeforeAbsolute(t) => Ok(now < t)
      case BeforeRelative(_) => Err(RelativeTime)
  }

  function Negate(v: Verdict): Verdict {
    match v
    case Ok(b) => Ok(!b)
    case Err(e) => Err(e)
  }

  /** Left to right, stopping at the first child that is refused or false. */
  function EvalAll(ps: seq<Predicate>, now: U64, depth: nat): Verdict
    decreases ps, 0
  {
    if ps == [] then Ok(true)
    else
      var v := EvalDepth(ps[0], now, depth);
      if v == Ok(true) then EvalAll(ps[1..], now, depth) else v
  }

  /** Left to right, stopping at the first child that is refused or true. */
  function EvalAny(ps: seq<Predicate>, now: U64, depth: nat): Verdict
    decreases ps, 0
  {
    if ps == [] then Ok(false)
    else
      var v := EvalDepth(ps[0], now, depth);
      if v == Ok(false) then EvalAny(ps[1..], now, depth) else v
  }

  function Eval(p: Predicate, now: U64): Verdict {
    EvalDepth(p, now, 0)
  }

  /** The evaluator as the source runs it: recursion with early-return loops. */
  method EvaluateDepth(p: Predicate, now: U64, depth: nat) returns (r: Verdict)
    ensures r == EvalDepth(p, now, depth)
    decreases p
  {
    if depth > MAX_PREDICATE_DEPTH {
      return Err(TooDeep);
    }
    match p {
      case Unconditional => return Ok(true);
      case And(ps) =>
        if |ps| < 2 {
          return Err(AndTooShort(|ps|));
        }
        var i := 0;
        while i < |ps|
          invariant 0 <= i <= |ps|
          invariant EvalAll(ps, now, depth + 1) == EvalAll(ps[i..], now, depth + 1)
        {
          var v := EvaluateDepth(ps[i], now, depth + 1);
          assert ps[i..][1..] == ps[i + 1..];
          if v != Ok(true) {
            return v;
          }
          i := i + 1;
        }
        return Ok(true);
      case Or(ps) =>
        if |ps| < 2 {
          return Err(OrTooShort(|ps|));
        }
        var i := 0;
        while i < |ps|
          invariant 0 <= i <= |ps|
          invariant EvalAny(ps, now, depth + 1) == EvalAny(ps[i..], now, depth + 1)
        {
          var v := EvaluateDepth(ps[i], now, depth + 1);
          assert ps[i..][1..] == ps[i + 1..];
          if v != Ok(false) {
            return v;
          }
          i := i + 1;
        }
        return Ok(false);
      case Not(None) => return Err(NotWithoutInner);
      case Not(Some(q)) =>
        var v := EvaluateDepth(q, now, depth + 1);
        return Negate(v);
      case BeforeAbsolute(t) => return Ok(now < t);
      case BeforeRelative(_) => return Err(RelativeTime);
    }
  }

  // ---------------------------------------------------------------- soundness

  /** The boolean meaning of `p` when each sub-term the evaluator would refuse,
      named by its path of child positions, is given the truth value `a(path)`. */
  ghost predicate Meaning(p: Predicate, now: U64, depth: nat, path: seq<nat>, a: seq<nat> -> bool)
    decreases p
  {
    if depth > 64 then a(path)
    else match p
      case Unconditional => true
      case And(ps) =>
        if |ps| < 2 then a(path)
        else forall i :: 0 <= i < |ps| ==> Meaning(ps[i], now, depth + 1, path + [i], a)
      case Or(ps) =>
        if |ps| < 2 then a(path)
        else exists i :: 0 <= i < |ps| && Meaning(ps[i], now, depth + 1, path + [i], a)
      case Not(None) => a(path)
      case Not(Some(q)) => !Meaning(q, now, depth + 1, path + [0], a)
      case BeforeAbsolute(t) => now < t
      case BeforeRelative(_) => a(path)
  }

  /** A verdict never depends on what a refused sub-term might have meant. */
  lemma {:induction false} VerdictIsMeaning(p: Predicate, now: U64, depth: nat, path: seq<nat>, a: seq<nat> -> bool)
    requires EvalDepth(p, now, depth).Ok?
    ensures EvalDepth(p, now, depth).value == Meaning(p, now, depth, path, a)
    decreases p
  {
    match p
    case And(ps) =>
      var v := EvalAll(ps, now, depth + 1);
      AllStopsAtWitness(ps, now, depth + 1);
      forall i | 0 <= i < |ps| && EvalDepth(ps[i], now, depth + 1).Ok?
        ensures Meaning(ps[i], now, depth + 1, path + [i], a) == EvalDepth(ps[i], now, depth + 1).value
      {
        VerdictIsMeaning(ps[i], now, depth + 1, path + [i], a);
      }
    case Or(ps) =>
      AnyStopsAtWitness(ps, now, depth + 1);
      forall i | 0 <= i < |ps| && EvalDepth(ps[i], now, depth + 1).Ok?
        ensures Meaning(ps[i], now, depth + 1, path + [i], a) == EvalDepth(ps[i], now, depth + 1).value
      {
        VerdictIsMeaning(ps[i], now, depth + 1, path + [i], a);
      }
    case Not(Some(q)) =>
      VerdictIsMeaning(q, now, depth + 1, path + [0], a);
    case _ =>
  }

  /** Child `i` decides a list: it is the first that does not answer `Ok(going)`. */
  ghost predicate Decides(ps: seq<Predicate>, now: U64, depth: nat, going: bool, i: nat) {
    && i < |ps| && EvalDepth(ps[i], now, depth) != Ok(going)
    && forall j :: 0 <= j < i ==> EvalDepth(ps[j], now, depth) == Ok(going)
  }

  /** An `And` answers true exactly when every child does; otherwise its answer, verdict
      or refusal, is that of the first child that does not. */
  lemma {:induction false} AllStopsAtWitness(ps: seq<Predicate>, now: U64, depth: nat)
    ensures EvalAll(ps, now, depth) == Ok(true) <==>
            forall i :: 0 <= i < |ps| ==> EvalDepth(ps[i], now, depth) == Ok(true)
    ensures EvalAll(ps, now, depth) != Ok(true) ==>
            exists i: nat :: Decides(ps, now, depth, true, i) && EvalAll(ps, now, depth) == EvalDepth(ps[i], now, depth)
  {
    if ps != [] {
      AllStopsAtWitness(ps[1..], now, depth);
      assert forall i :: 0 < i < |ps| ==> ps[i] == ps[1..][i - 1];
      if EvalDepth(ps[0], now, depth) != Ok(true) {
        assert Decides(ps, now, depth, true, 0);
      } else if EvalAll(ps, now, depth) != Ok(true) {
        var i: nat :| Decides(ps[1..], now, depth, true, i) && EvalAll(ps[1..], now, depth) == EvalDepth(ps[1..][i], now, depth);
        assert Decides(ps, now, depth, true, i + 1);
      }
    }
  }

  /** An `Or` answers false exactly when every child does; otherwise its answer is that
      of the first child that does not. */
  lemma {:induction false} AnyStopsAtWitness(ps: seq<Predicate>, now: U64, depth: nat)
    ensures EvalAny(ps, now, depth) == Ok(false) <==>
            forall i :: 0 <= i < |ps| ==> EvalDepth(ps[i], now, depth) == Ok(false)
    ensures EvalAny(ps, now, depth) != Ok(false) ==>
            exists i: nat :: Decides(ps, now, depth, false, i) && EvalAny(ps, now, depth) == EvalDepth(ps[i], now, depth)
  {
    if ps != [] {
      AnyStopsAtWitness(ps[1..], now, depth);
      assert forall i :: 0 < i < |ps| ==> ps[i] == ps[1..][i - 1];
      if EvalDepth(ps[0], now, depth) != Ok(false) {
        assert Decides(ps, now, depth, false, 0);
      } else if EvalAny(ps, now, depth) != Ok(false) {
        var i: nat :| Decides(ps[1..], now, depth, false, i) && EvalAny(ps[1..], now, depth) == EvalDepth(ps[1..][i], now, depth);
        assert Decides(ps, now, depth, false, i + 1);
      }
    }
  }

  // ----------------------------------------------------------------- refusals

  /** What is wrong with the sub-term at `path` itself: it stands deeper than 64, its
      list is too short, it negates nothing, or it is a relative time. */
  ghost predicate Faulty(p: Predicate, depth: nat, path: seq<nat>, e: Refusal)
    decreases |path|
  {
    if path != [] then
      match p
      case And(ps) => path[0] < |ps| && Faulty(ps[path[0]], depth + 1, path[1..], e)
      case Or(ps) => path[0] < |ps| && Faulty(ps[path[0]], depth + 1, path[1..], e)
      case Not(Some(q)) => path[0] == 0 && Faulty(q, depth + 1, path[1..], e)
      case _ => false
    else
      match e
      case TooDeep => depth == 65
      case AndTooShort(n) => depth <= 64 && p.And? && n == |p.preds| < 2
      case OrTooShort(n) => depth <= 64 && p.Or? && n == |p.preds| < 2
      case NotWithoutInner => depth <= 64 && p == Not(None)
      case RelativeTime => depth <= 64 && p.BeforeRelative?
  }

  lemma FaultyChild(p: Predicate, q: Predicate, i: nat, depth: nat, path: seq<nat>, e: Refusal)
    requires Faulty(q, depth + 1, path, e)
    requires ((p.And? || p.Or?) && i < |p.preds| && p.preds[i] == q) || (i == 0 && p == Not(Some(q)))
    ensures Faulty(p, depth, [i] + path, e)
  {
    assert ([i] + path)[1..] == path;
  }

  /** A refusal gives the reason of some sub-term that has that very fault. */
  lemma {:induction false} RefusalIsReal(p: Predicate, now: U64, depth: nat) returns (path: seq<nat>)
    requires depth <= 65 && EvalDepth(p, now, depth).Err?
    ensures Faulty(p, depth, path, EvalDepth(p, now, depth).error)
    decreases p
  {
    path := [];
    if depth <= 64 {
      match p
      case And(ps) =>
        if |ps| >= 2 {
          AllStopsAtWitness(ps, now, depth + 1);
          var i: nat :| Decides(ps, now, depth + 1, true, i) && EvalAll(ps, now, depth + 1) == EvalDepth(ps[i], now, depth + 1);
          path := RefusalIsReal(ps[i], now, depth + 1);
          FaultyChild(p, ps[i], i, depth, path, EvalDepth(p, now, depth).error);
          path := [i] + path;
        }
      case Or(ps) =>
        if |ps| >= 2 {
          AnyStopsAtWitness(ps, now, depth + 1);
          var i: nat :| Decides(ps, now, depth + 1, false, i) && EvalAny(ps, now, depth + 1) == EvalDepth(ps[i], now, depth + 1);
          path := RefusalIsReal(ps[i], now, depth + 1);
          FaultyChild(p, ps[i], i, depth, path, EvalDepth(p, now, depth).error);
          path := [i] + path;
        }
      case Not(Some(q)) =>
        path := RefusalIsReal(q, now, depth + 1);
        FaultyChild(p, q, 0, depth, path, EvalDepth(p, now, depth).error);
        path := [0] + path;
      case _ =>
    }
  }

  // ------------------------------------------------------------- completeness

  /** No malformed form anywhere, and nothing nested deeper than `budget`. */
  ghost predicate WellFormed(p: Predicate, budget: int)
    decreases p
  {
    budget >= 0 &&
    match p
    case And(ps) => |ps| >= 2 && forall i :: 0 <= i < |ps| ==> WellFormed(ps[i], budget - 1)
    case Or(ps) => |ps| >= 2 && forall i :: 0 <= i < |ps| ==> WellFormed(ps[i], budget - 1)
    case Not(None) => false
    case Not(Some(q)) => WellFormed(q, budget - 1)
    case BeforeRelative(_) => false
    case _ => true
  }

  /** The plain boolean meaning, with no depth and no order of evaluation. */
  ghost predicate Classical(p: Predicate, now: U64)
    decreases p
  {
    match p
    case Unconditional => true
    case And(ps) => forall i :: 0 <= i < |ps| ==> Classical(ps[i], now)
    case Or(ps) => exists i :: 0 <= i < |ps| && Classical(ps[i], now)
    case Not(None) => false
    case Not(Some(q)) => !Classical(q, now)
    case BeforeAbsolute(t) => now < t
    case BeforeRelative(_) => false
  }

  /** Every well-formed predicate of up to 64 levels gets its classical verdict. */
  lemma {:induction false} WellFormedGetsVerdict(p: Predicate, now: U64, depth: nat)
    requires WellFormed(p, 64 - depth)
    ensures EvalDepth(p, now, depth) == Ok(Classical(p, now))
    decreases p
  {
    match p
    case And(ps) =>
      forall i | 0 <= i < |ps| ensures EvalDepth(ps[i], now, depth + 1) == Ok(Classical(ps[i], now)) {
        WellFormedGetsVerdict(ps[i], now, depth + 1);
      }
      AllOfVerdicts(ps, now, depth + 1);
      AllStopsAtWitness(ps, now, depth + 1);
      var v := EvalAll(ps, now, depth + 1);
      assert v == Ok(v.value) && (v.value <==> Classical(p, now));
    case Or(ps) =>
      forall i | 0 <= i < |ps| ensures EvalDepth(ps[i], now, depth + 1) == Ok(Classical(ps[i], now)) {
        WellFormedGetsVerdict(ps[i], now, depth + 1);
      }
      AnyOfVerdicts(ps, now, depth + 1);
      AnyStopsAtWitness(ps, now, depth + 1);
      var v := EvalAny(ps, now, depth + 1);
      assert v == Ok(v.value) && (v.value <==> Classical(p, now));
    case Not(Some(q)) =>
      WellFormedGetsVerdict(q, now, depth + 1);
    case _ =>
  }

  lemma {:induction false} AllOfVerdicts(ps: seq<Predicate>, now: U64, depth: nat)
    requires forall i :: 0 <= i < |ps| ==> EvalDepth(ps[i], now, depth).Ok?
    ensures EvalAll(ps, now, depth).Ok?
  {
    if ps != [] {
      assert forall i :: 0 <= i < |ps[1..]| ==> ps[1..][i] == ps[i + 1];
      AllOfVerdicts(ps[1..], now, depth);
    }
  }

  lemma {:induction false} AnyOfVerdicts(ps: seq<Predicate>, now: U64, depth: nat)
    requires forall i :: 0 <= i < |ps| ==> EvalDepth(ps[i], now, depth).Ok?
    ensures EvalAny(ps, now, depth).Ok?
  {
    if ps != [] {
      assert forall i :: 0 <= i < |ps[1..]| ==> ps[1..][i] == ps[i + 1];
      AnyOfVerdicts(ps[1..], now, depth);
    }
  }

  /** `n` negations of an unconditional predicate. */
  function Negations(n: nat): Predicate {
    if n == 0 then Unconditional else Not(Some(Negations(n - 1)))
  }

  /** Negations are evaluated up to the sixty-fourth, and from the next on refused. */
  lemma {:induction false} DepthLimitExact(n: nat, now: U64, depth: nat)
    requires depth <= 65
    ensures EvalDepth(Negations(n), now, depth) == if n + depth <= 64 then Ok(n % 2 == 0) else Err(TooDeep)
    decreases n
  {
    if n > 0 && depth <= 64 {
      DepthLimitExact(n - 1, now, depth + 1);
    }
  }

  // -------------------------------------------------------- breakpoint, duality

  /** `t` is an absolute time written somewhere in `p`. */
  ghost predicate Mentions(p: Predicate, t: int)
    decreases p
  {
    match p
    case And(ps) => exists i :: 0 <= i < |ps| && Mentions(ps[i], t)
    case Or(ps) => exists i :: 0 <= i < |ps| && Mentions(ps[i], t)
    case Not(Some(q)) => Mentions(q, t)
    case BeforeAbsolute(u) => u == t
    case _ => false
  }

  ghost predicate NoBreakpoint(p: Predicate, now1: U64, now2: U64) {
    forall t :: Mentions(p, t) ==> !(now1 < t <= now2)
  }

  /** The answer, refusals and their reasons included, changes only when the
      clock crosses a time written in the predicate. */
  lemma {:induction false} SameBetweenBreakpoints(p: Predicate, now1: U64, now2: U64, depth: nat)
    requires now1 <= now2 && NoBreakpoint(p, now1, now2)
    ensures EvalDepth(p, now1, depth) == EvalDepth(p, now2, depth)
    decreases p, 1
  {
    match p
    case And(ps) =>
      SameChildrenBetweenBreakpoints(p, ps, now1, now2, depth + 1);
    case Or(ps) =>
      SameChildrenBetweenBreakpoints(p, ps, now1, now2, depth + 1);
    case Not(Some(q)) =>
      assert forall t :: Mentions(q, t) ==> Mentions(p, t);
      SameBetweenBreakpoints(q, now1, now2, depth + 1);
    case BeforeAbsolute(t) =>
      assert Mentions(p, t);
    case _ =>
  }

  lemma {:induction false} SameChildrenBetweenBreakpoints(
      p: Predicate, ps: seq<Predicate>, now1: U64, now2: U64, depth: nat)
    requires p.And? || p.Or?
    requires forall q :: q in ps ==> q in p.preds
    requires now1 <= now2 && NoBreakpoint(p, now1, now2)
    ensures EvalAll(ps, now1, depth) == EvalAll(ps, now2, depth)
    ensures EvalAny(ps, now1, depth) == EvalAny(ps, now2, depth)
    decreases p, 0, |ps|
  {
    if ps != [] {
      var q := ps[0];
      assert q in ps;
      var k :| 0 <= k < |p.preds| && p.preds[k] == q;
      assert forall t :: Mentions(p.preds[k], t) ==> Mentions(p, t);
      SameBetweenBreakpoints(p.preds[k], now1, now2, depth);
      SameChildrenBetweenBreakpoints(p, ps[1..], now1, now2, depth);
    }
  }

  function Negated(ps: seq<Predicate>): seq<Predicate> {
    seq(|ps|, i requires 0 <= i < |ps| => Not(Some(ps[i])))
  }

  /** De Morgan holds at every depth and time: the same verdict or the same
      refusal, except that a list too short to be legal is refused on each side
      in that side's own words. */
  lemma {:induction false} DeMorgan(ps: seq<Predicate>, now: U64, depth: nat)
    ensures |ps| >= 2 ==>
              EvalDepth(Not(Some(And(ps))), now, depth) == EvalDepth(Or(Negated(ps)), now, depth)
              && EvalDepth(Not(Some(Or(ps))), now, depth) == EvalDepth(And(Negated(ps)), now, depth)
    ensures |ps| < 2 ==>
              EvalDepth(Not(Some(And(ps))), now, depth).Err? && EvalDepth(Or(Negated(ps)), now, depth).Err?
  {
    if depth + 1 <= 64 {
      NegatedChildren(ps, now, depth + 2);
    } else {
      if |ps| >= 2 {
        assert Negated(ps)[0] == Not(Some(ps[0]));
        assert EvalDepth(Negated(ps)[0], now, depth + 1) == Err(TooDeep);
      }
    }
  }

  lemma {:induction false} NegatedChildren(ps: seq<Predicate>, now: U64, depth: nat)
    requires 1 <= depth <= 65
    ensures EvalAny(Negated(ps), now, depth - 1) == Negate(EvalAll(ps, now, depth))
    ensures EvalAll(Negated(ps), now, depth - 1) == Negate(EvalAny(ps, now, depth))
  {
    if ps != [] {
      var ns := Negated(ps);
      assert ns[0] == Not(Some(ps[0])) && ns[1..] == Negated(ps[1..]);
      NegatedChildren(ps[1..], now, depth);
    }
  }

  // ------------------------------------------------------------------- window

  datatype Window = Window(validFrom: Option<int>, validUntil: Option<int>)

  const NO_WINDOW := Window(None, None)

  function WindowDepth(p: Predicate, depth: nat): Window
    decreases p, 1
  {
    if depth > MAX_PREDICATE_DEPTH then NO_WINDOW
    else match p
      case BeforeAbsolute(t) => if t > 0 then Window(None, Some(t)) else NO_WINDOW
      case Not(Some(BeforeAbsolute(t))) => if t > 0 then Window(Some(t), None) else NO_WINDOW
      case And(ps) => WindowOfAll(ps, depth + 1)
      case _ => NO_WINDOW
  }

  function WindowOfAll(ps: seq<Predicate>, depth: nat): Window
    decreases ps, 0
  {
    if ps == [] then NO_WINDOW
    else Tighten(WindowOfAll(ps[..|ps| - 1], depth), WindowDepth(ps[|ps| - 1], depth))
  }

  /** The later of two lower bounds and the earlier of two upper bounds. */
  function Tighten(acc: Window, w: Window): Window {
    Window(
      match w.validFrom
      case None => acc.validFrom
      case Some(f) => if acc.validFrom.Some? && acc.validFrom.value > f then acc.validFrom else Some(f),
      match w.validUntil
      case None => acc.validUntil
      case Some(u) => if acc.validUntil.Some? && acc.validUntil.value < u then acc.validUntil else Some(u))
  }

  function DeriveWindow(p: Predicate): Window {
    WindowDepth(p, 0)
  }

  /** The deriver as the source runs it: two running bounds updated in a loop. */
  method DeriveWindowDepth(p: Predicate, depth: nat) returns (w: Window)
    ensures w == WindowDepth(p, depth)
    decreases p
  {
    if depth > MAX_PREDICATE_DEPTH {
      return NO_WINDOW;
    }
    match p {
      case BeforeAbsolute(t) =>
        if t > 0 {
          return Window(None, Some(t));
        }
        return NO_WINDOW;
      case Not(Some(inner)) =>
        if inner.BeforeAbsolute? && inner.t > 0 {
          return Window(Some(inner.t), None);
        }
        return NO_WINDOW;
      case And(ps) =>
        var validFrom: Option<int> := None;
        var validUntil: Option<int> := None;
        for i := 0 to |ps|
          invariant Window(validFrom, validUntil) == WindowOfAll(ps[..i], depth + 1)
        {
          var c := DeriveWindowDepth(ps[i], depth + 1);
          assert ps[..i + 1][..i] == ps[..i];
          if c.validFrom.Some? {
            var f := c.validFrom.value;
            validFrom := Some(if validFrom.Some? && validFrom.value > f then validFrom.value else f);
          }
          if c.validUntil.Some? {
            var u := c.validUntil.value;
            validUntil := Some(if validUntil.Some? && validUntil.value < u then validUntil.value else u);
          }
        }
        assert ps[..|ps|] == ps;
        return Window(validFrom, validUntil);
      case _ => return NO_WINDOW;
    }
  }

  ghost predicate InWindow(w: Window, now: int) {
    (w.validFrom.Some? ==> w.validFrom.value <= now) && (w.validUntil.Some? ==> now < w.validUntil.value)
  }

  /** Intersecting bounds is intersecting windows. */
  lemma {:induction false} WindowOfAllIsIntersection(ps: seq<Predicate>, depth: nat, now: int)
    ensures InWindow(WindowOfAll(ps, depth), now) <==>
            forall i :: 0 <= i < |ps| ==> InWindow(WindowDepth(ps[i], depth), now)
  {
    if ps != [] {
      WindowOfAllIsIntersection(ps[..|ps| - 1], depth, now);
    }
  }

  /** Which forms give a bound: a positive deadline, its negation, and a conjunction by
      its children. No other form does. */
  lemma WindowFormsExact(p: Predicate, depth: nat)
    requires depth <= 64
    ensures p.BeforeAbsolute? ==> WindowDepth(p, depth) == Window(None, if p.t > 0 then Some(p.t) else None)
    ensures p.Not? && p.inner.Some? && p.inner.value.BeforeAbsolute? ==>
              WindowDepth(p, depth) == Window(if p.inner.value.t > 0 then Some(p.inner.value.t) else None, None)
    ensures p.And? ==> WindowDepth(p, depth) == WindowOfAll(p.preds, depth + 1)
    ensures p.Unconditional? || p.Or? || p.BeforeRelative? ==> WindowDepth(p, depth) == Window(None, None)
    ensures p.Not? && (p.inner.None? || !p.inner.value.BeforeAbsolute?) ==> WindowDepth(p, depth) == Window(None, None)
  {
  }

  ghost predicate StartsAt(ps: seq<Predicate>, depth: nat, i: nat, t: int) {
    i < |ps| && WindowDepth(ps[i], depth).validFrom == Some(t)
  }

  ghost predicate EndsAt(ps: seq<Predicate>, depth: nat, i: nat, t: int) {
    i < |ps| && WindowDepth(ps[i], depth).validUntil == Some(t)
  }

  /** The bounds of a conjunction are the latest start and the earliest end among its
      children's, even where they cross. */
  lemma {:induction false} BoundsOfAllExact(ps: seq<Predicate>, depth: nat)
    ensures var w := WindowOfAll(ps, depth);
            && (w.validFrom.Some? ==> exists i: nat :: StartsAt(ps, depth, i, w.validFrom.value))
            && (forall i: nat, t :: StartsAt(ps, depth, i, t) ==> w.validFrom.Some? && t <= w.validFrom.value)
            && (w.validUntil.Some? ==> exists i: nat :: EndsAt(ps, depth, i, w.validUntil.value))
            && (forall i: nat, t :: EndsAt(ps, depth, i, t) ==> w.validUntil.Some? && w.validUntil.value <= t)
  {
    if ps != [] {
      var n := |ps| - 1;
      var front, last := ps[..n], WindowDepth(ps[n], depth);
      BoundsOfAllExact(front, depth);
      assert forall i: nat, t :: i < n ==> (StartsAt(ps, depth, i, t) <==> StartsAt(front, depth, i, t));
      assert forall i: nat, t :: i < n ==> (EndsAt(ps, depth, i, t) <==> EndsAt(front, depth, i, t));
      assert last.validFrom.Some? ==> StartsAt(ps, depth, n, last.validFrom.value);
      assert last.validUntil.Some? ==> EndsAt(ps, depth, n, last.validUntil.value);
      var w := WindowOfAll(front, depth);
      if w.validFrom.Some? {
        var i: nat :| StartsAt(front, depth, i, w.validFrom.value);
        assert StartsAt(ps, depth, i, w.validFrom.value);
      }
      if w.validUntil.Some? {
        var i: nat :| EndsAt(front, depth, i, w.validUntil.value);
        assert EndsAt(ps, depth, i, w.validUntil.value);
      }
    }
  }

  /** For any predicate at all, a satisfied time lies in the derived window. */
  lemma {:induction false} SatisfiedIsInWindow(p: Predicate, now: U64, depth: nat)
    requires EvalDepth(p, now, depth) == Ok(true)
    ensures InWindow(WindowDepth(p, depth), now)
    decreases p
  {
    match p
    case And(ps) =>
      AllStopsAtWitness(ps, now, depth + 1);
      forall i | 0 <= i < |ps| ensures InWindow(WindowDepth(ps[i], depth + 1), now) {
        SatisfiedIsInWindow(ps[i], now, depth + 1);
      }
      WindowOfAllIsIntersection(ps, depth + 1, now);
    case _ =>
  }

  ghost predicate Crossed(w: Window) {
    w.validFrom.Some? && w.validUntil.Some? && w.validUntil.value <= w.validFrom.value
  }

  /** Crossed bounds mean the balance is never claimable, whatever the predicate. */
  lemma {:induction false} CrossedWindowIsNeverSatisfied(p: Predicate, now: U64)
    requires Crossed(DeriveWindow(p))
    ensures Eval(p, now) != Ok(true)
  {
    if Eval(p, now) == Ok(true) {
      SatisfiedIsInWindow(p, now, 0);
    }
  }

  /** Conjunctions of absolute bounds, nested at most `budget` deep. */
  ghost predicate Conjunctive(p: Predicate, budget: int)
    decreases p
  {
    budget >= 0 &&
    match p
    case Unconditional => true
    case BeforeAbsolute(_) => true
    case Not(Some(BeforeAbsolute(_))) => budget >= 1
    case And(ps) => |ps| >= 2 && forall i :: 0 <= i < |ps| ==> Conjunctive(ps[i], budget - 1)
    case _ => false
  }

  /** A deadline at or before the epoch: never satisfied, and not derived as a bound. */
  ghost predicate HasDeadDeadline(p: Predicate)
    decreases p
  {
    match p
    case BeforeAbsolute(t) => t <= 0
    case And(ps) => exists i :: 0 <= i < |ps| && HasDeadDeadline(ps[i])
    case _ => false
  }

  /** On a conjunction of bounds the verdict is the window, minus everything
      when some deadline is dead. */
  lemma {:induction false} ConjunctiveVerdict(p: Predicate, now: U64, depth: nat)
    requires Conjunctive(p, 64 - depth)
    ensures EvalDepth(p, now, depth) == Ok(InWindow(WindowDepth(p, depth), now) && !HasDeadDeadline(p))
    decreases p
  {
    match p
    case And(ps) =>
      forall i | 0 <= i < |ps|
        ensures EvalDepth(ps[i], now, depth + 1)
             == Ok(InWindow(WindowDepth(ps[i], depth + 1), now) && !HasDeadDeadline(ps[i]))
      {
        ConjunctiveVerdict(ps[i], now, depth + 1);
      }
      AllOfVerdicts(ps, now, depth + 1);
      AllStopsAtWitness(ps, now, depth + 1);
      WindowOfAllIsIntersection(ps, depth + 1, now);
      var v := EvalAll(ps, now, depth + 1);
      assert v == Ok(v.value) && (v.value <==> InWindow(WindowDepth(p, depth), now) && !HasDeadDeadline(p));
    case Not(Some(q)) =>
      assert EvalDepth(q, now, depth + 1) == Ok(now < q.t);
    case _ =>
  }

  /** Without a dead deadline the window is the predicate: a time is in the
      window exactly when the balance is claimable then. */
  lemma {:induction false} ExactWindow(p: Predicate, now: U64)
    requires Conjunctive(p, 64) && !HasDeadDeadline(p)
    ensures Eval(p, now) == Ok(InWindow(DeriveWindow(p), now))
  {
    ConjunctiveVerdict(p, now, 0);
  }

  /** A deadline under `n` conjunctions. */
  function Conjoined(n: nat, t: I64): Predicate {
    if n == 0 then BeforeAbsolute(t) else And([Conjoined(n - 1, t), Unconditional])
  }

  lemma WindowOfPair(p: Predicate, depth: nat)
    ensures WindowOfAll([p, Unconditional], depth) == WindowDepth(p, depth)
  {
    var ps := [p, Unconditional];
    assert ps[..1] == [p] && [p][..0] == [];
    assert WindowDepth(Unconditional, depth) == NO_WINDOW;
    assert WindowOfAll([p], depth) == Tighten(WindowOfAll([], depth), WindowDepth(p, depth));
  }

  /** A deadline is derived through sixty-four conjunctions, and through no more. */
  lemma {:induction false} WindowDepthLimitExact(n: nat, t: I64, depth: nat)
    requires t > 0 && depth <= 65
    ensures WindowDepth(Conjoined(n, t), depth) == Window(None, if n + depth <= 64 then Some(t) else None)
    decreases n
  {
    if n > 0 && depth <= 64 {
      WindowDepthLimitExact(n - 1, t, depth + 1);
      WindowOfPair(Conjoined(n - 1, t), depth + 1);
    }
  }

  /** Derived bounds are positive times. */
  lemma {:induction false} BoundsArePositive(p: Predicate, depth: nat)
    ensures var w := WindowDepth(p, depth);
            (w.validFrom.Some? ==> 0 < w.validFrom.value <= I64_MAX) && (w.validUntil.Some? ==> 0 < w.validUntil.value)
    decreases p, 1
  {
    if p.And? {
      ChildBoundsArePositive(p, |p.preds|, depth + 1);
      assert p.preds[..|p.preds|] == p.preds;
    }
  }

  lemma {:induction false} ChildBoundsArePositive(p: Predicate, n: nat, depth: nat)
    requires p.And? && n <= |p.preds|
    ensures var w := WindowOfAll(p.preds[..n], depth);
            (w.validFrom.Some? ==> 0 < w.validFrom.value <= I64_MAX) && (w.validUntil.Some? ==> 0 < w.validUntil.value)
    decreases p, 0, n
  {
    if n > 0 {
      assert p.preds[..n][..n - 1] == p.preds[..n - 1];
      ChildBoundsArePositive(p, n - 1, depth);
      BoundsArePositive(p.preds[n - 1], depth);
    }
  }

  /** When exactly a conjunction's window is exact at every time, in closed form: no
      deadline is dead, or the bounds already cross. */
  lemma {:induction false} ExactWindowCondition(p: Predicate)
    requires Conjunctive(p, 64)
    ensures (forall now: U64 :: Eval(p, now) == Ok(InWindow(DeriveWindow(p), now)))
        <==> !HasDeadDeadline(p) || Crossed(DeriveWindow(p))
  {
    forall now: U64
      ensures Eval(p, now) == Ok(InWindow(DeriveWindow(p), now) && !HasDeadDeadline(p))
    {
      ConjunctiveVerdict(p, now, 0);
    }
    var w := DeriveWindow(p);
    if HasDeadDeadline(p) && !Crossed(w) {
      BoundsArePositive(p, 0);
      var now: U64 := if w.validFrom.Some? then w.validFrom.value else 0;
      assert InWindow(w, now) && Eval(p, now) == Ok(false);
    }
  }

  /** At `now` the window says what the evaluator says. */
  ghost predicate ExactAt(p: Predicate, now: U64) {
    Eval(p, now) == Ok(true) <==> InWindow(DeriveWindow(p), now)
  }

  ghost predicate MentionsBounds(p: Predicate, w: Window) {
    (w.validFrom.Some? ==> Mentions(p, w.validFrom.value)) && (w.validUntil.Some? ==> Mentions(p, w.validUntil.value))
  }

  /** Derived bounds are times written in the predicate. */
  lemma {:induction false} BoundsAreMentioned(p: Predicate, depth: nat)
    ensures MentionsBounds(p, WindowDepth(p, depth))
    decreases p, 1
  {
    if p.And? {
      ChildBoundsAreMentioned(p, |p.preds|, depth + 1);
      assert p.preds[..|p.preds|] == p.preds;
    }
  }

  lemma {:induction false} ChildBoundsAreMentioned(p: Predicate, n: nat, depth: nat)
    requires p.And? && n <= |p.preds|
    ensures MentionsBounds(p, WindowOfAll(p.preds[..n], depth))
    decreases p, 0, n
  {
    if n > 0 {
      assert p.preds[..n][..n - 1] == p.preds[..n - 1];
      ChildBoundsAreMentioned(p, n - 1, depth);
      BoundsAreMentioned(p.preds[n - 1], depth);
      assert forall t :: Mentions(p.preds[n - 1], t) ==> Mentions(p, t);
    }
  }

  lemma {:induction false} ExactFromBreakpoints(p: Predicate, now: U64)
    requires ExactAt(p, 0) && forall t: U64 :: Mentions(p, t) ==> ExactAt(p, t)
    ensures ExactAt(p, now)
    decreases now
  {
    if now > 0 && !Mentions(p, now) {
      ExactFromBreakpoints(p, now - 1);
      SameBetweenBreakpoints(p, now - 1, now, 0);
      BoundsAreMentioned(p, 0);
    }
  }

  /** For every predicate whatever, disjunctions, negations and refusals included: the
      window is exact at all times exactly when it is exact at the epoch and at each
      of the finitely many absolute times written in the predicate. */
  lemma {:induction false} ExactIffAtBreakpoints(p: Predicate)
    ensures (forall now: U64 :: ExactAt(p, now)) <==> ExactAt(p, 0) && forall t: U64 :: Mentions(p, t) ==> ExactAt(p, t)
  {
    if ExactAt(p, 0) && forall t: U64 :: Mentions(p, t) ==> ExactAt(p, t) {
      forall now: U64 ensures ExactAt(p, now) {
        ExactFromBreakpoints(p, now);
      }
    }
  }

  /** So a derived bound can be only an outer bound, although the source
      documents every derived bound as exact: a non-positive deadline and a
      disjunction both leave times inside the window at which the balance is
      not claimable. */
  lemma WindowIsNotExactEverywhere()
    ensures var p := And([BeforeAbsolute(10), BeforeAbsolute(0)]);
            InWindow(DeriveWindow(p), 5) && Eval(p, 5) == Ok(false)
    ensures var q := And([BeforeAbsolute(10), Or([BeforeAbsolute(3), BeforeAbsolute(4)])]);
            InWindow(DeriveWindow(q), 5) && Eval(q, 5) == Ok(false)
  {
    var p := And([BeforeAbsolute(10), BeforeAbsolute(0)]);
    assert p.preds[..1] == [BeforeAbsolute(10)] && p.preds[1..] == [BeforeAbsolute(0)];
    assert EvalAll([BeforeAbsolute(0)], 5, 1) == Ok(false);
    WindowOfAllIsIntersection(p.preds, 1, 5);
    var o := Or([BeforeAbsolute(3), BeforeAbsolute(4)]);
    var q := And([BeforeAbsolute(10), o]);
    assert o.preds[1..] == [BeforeAbsolute(4)];
    assert EvalAny([BeforeAbsolute(4)], 5, 2) == Ok(false);
    assert EvalDepth(o, 5, 1) == Ok(false);
    assert q.preds[1..] == [o];
    assert EvalAll([o], 5, 1) == Ok(false);
    WindowOfAllIsIntersection(q.preds, 1, 5);
  }
}
