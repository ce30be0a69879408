/** The claim preview and the guard functions that decide whether a claim may
    be submitted. */
module ClaimPreviews {
  import opened Common
  import opened ClaimPredicates

  datatype Asset = Native | Credit(code: string, issuer: string)

  datatype Claimant = Claimant(destination: string, condition: Predicate)

  /** The fetched ledger entry; `extFlags` is present for a V1 extension. */
  datatype BalanceEntry = BalanceEntry(
    claimants: seq<Claimant>, asset: Asset, amount: I64, extFlags: Option<nat>)

  datatype ClaimantView = ClaimantView(destination: string, predicateKind: string)

  datatype Preview = Preview(
    assetCode: Option<string>,
    assetIssuer: Option<string>,
    amount: I64,
    claimants: seq<ClaimantView>,
    isClaimant: bool,
    predicateSatisfied: Option<bool>,
    window: Window,
    clawbackEnabled: bool)

  datatype Hint = NotAClaimantHere | Between(from: int, until: int) | Once(from: int) | Until(until: int) | NotNow

  datatype ClaimError =
    | PredicateUnsupported(refusal: Refusal)
    | NotClaimant(account: string)
    | PredicateNotSatisfied(hint: Hint)
    | TrustlineMissing(code: string, issuer: string)
    | TrustlineNotAuthorized(code: string, issuer: string)
    | TrustlineLimit(code: string, issuer: string, amount: I64, headroom: I64)

  datatype TrustlineState = TrustlineState(present: bool, authorized: bool, limit: I64, balance: I64)

  function KindName(p: Predicate): string {
    match p
    case Unconditional => "Unconditional"
    case And(_) => "And"
    case Or(_) => "Or"
    case Not(_) => "Not"
    case BeforeAbsolute(_) => "BeforeAbsoluteTime"
    case BeforeRelative(_) => "BeforeRelativeTime"
  }

  /** Each form of predicate has its own name. */
  lemma KindNamesExact(p: Predicate)
    ensures p.Unconditional? <==> KindName(p) == "Unconditional"
    ensures p.And? <==> KindName(p) == "And"
    ensures p.Or? <==> KindName(p) == "Or"
    ensures p.Not? <==> KindName(p) == "Not"
    ensures p.BeforeAbsolute? <==> KindName(p) == "BeforeAbsoluteTime"
    ensures p.BeforeRelative? <==> KindName(p) == "BeforeRelativeTime"
  {
    var name := KindName(p);
    assert |name| == 13 || |name| == 3 || |name| == 2 || |name| == 18;
    assert "And"[0] == 'A' && "Not"[0] == 'N' && "BeforeAbsoluteTime"[6] == 'A' && "BeforeRelativeTime"[6] == 'R';
  }

  // -------------------------------------------------------------------- build

  /** `i` is the earliest claimant entry whose destination is `account`. */
  ghost predicate IsFirstMatch(cs: seq<Claimant>, account: string, i: nat) {
    i < |cs| && cs[i].destination == account && forall j :: 0 <= j < i ==> cs[j].destination != account
  }

  /** What a preview may show of the asset: its own code and issuer, or neither. */
  ghost predicate ShowsAsset(p: Preview, asset: Asset) {
    match asset
    case Native => p.assetCode.None? && p.assetIssuer.None?
    case Credit(code, issuer) => p.assetCode == Some(code) && p.assetIssuer == Some(issuer)
  }

  /** All claimants, in order. */
  ghost predicate ShowsClaimants(p: Preview, cs: seq<Claimant>) {
    && |p.claimants| == |cs|
    && forall i :: 0 <= i < |cs| ==>
         p.claimants[i].destination == cs[i].destination && p.claimants[i].predicateKind == KindName(cs[i].condition)
  }

  /** The verdict and the window of this claimant entry. */
  ghost predicate ShowsMatch(p: Preview, condition: Predicate, now: U64) {
    && p.isClaimant && Eval(condition, now).Ok? && p.predicateSatisfied == Some(Eval(condition, now).value)
    && p.window == DeriveWindow(condition)
  }

  ghost predicate ShowsNoMatch(p: Preview) {
    !p.isClaimant && p.predicateSatisfied.None? && p.window.validFrom.None? && p.window.validUntil.None?
  }

  ghost predicate Listed(cs: seq<Claimant>, account: string) {
    exists i :: 0 <= i < |cs| && cs[i].destination == account
  }

  /** What `build` answers, field by field: the first match's predicate decides, no other
      does, and a refusal of that predicate is the only error. */
  ghost predicate PreviewOf(entry: BalanceEntry, account: string, now: U64, r: Result<Preview, ClaimError>) {
    var cs := entry.claimants;
    match r
    case Err(e) =>
      exists i: nat ::
        IsFirstMatch(cs, account, i) && Eval(cs[i].condition, now).Err?
        && e == PredicateUnsupported(Eval(cs[i].condition, now).error)
    case Ok(p) =>
      && ShowsAsset(p, entry.asset) && p.amount == entry.amount && ShowsClaimants(p, cs)
      && (forall i: nat :: IsFirstMatch(cs, account, i) ==> ShowsMatch(p, cs[i].condition, now))
      && (!Listed(cs, account) ==> ShowsNoMatch(p))
      && (p.clawbackEnabled <==> entry.extFlags.Some? && entry.extFlags.value % 2 == 1)
  }

  lemma FirstMatchIsOne(cs: seq<Claimant>, account: string, i: nat, j: nat)
    requires IsFirstMatch(cs, account, i) && IsFirstMatch(cs, account, j)
    ensures i == j
  {
  }

  /** The description leaves nothing open. */
  lemma PreviewIsExact(
      entry: BalanceEntry, account: string, now: U64, r1: Result<Preview, ClaimError>, r2: Result<Preview, ClaimError>)
    requires PreviewOf(entry, account, now, r1) && PreviewOf(entry, account, now, r2)
    ensures r1 == r2
  {
    if Listed(entry.claimants, account) {
      FirstMatchExists(entry.claimants, account);
      var i: nat :| IsFirstMatch(entry.claimants, account, i);
      forall j: nat | IsFirstMatch(entry.claimants, account, j) ensures j == i {
        FirstMatchIsOne(entry.claimants, account, i, j);
      }
    }
    if r1.Ok? && r2.Ok? {
      assert r1.value.claimants == r2.value.claimants;
    }
  }

  /** A preview's window holds every time at which the first match is satisfied. */
  lemma PreviewWindowHolds(
      entry: BalanceEntry, account: string, now: U64, r: Result<Preview, ClaimError>, i: nat, later: U64)
    requires PreviewOf(entry, account, now, r) && r.Ok? && IsFirstMatch(entry.claimants, account, i)
    requires Eval(entry.claimants[i].condition, later) == Ok(true)
    ensures InWindow(r.value.window, later)
  {
    SatisfiedIsInWindow(entry.claimants[i].condition, later, 0);
  }

  /** `build` as the source runs it: one pass that collects the views and keeps
      the first matching predicate. */
  method Build(entry: BalanceEntry, account: string, now: U64) returns (r: Result<Preview, ClaimError>)
    ensures PreviewOf(entry, account, now, r)
  {
    var cs := entry.claimants;
    var views: seq<ClaimantView> := [];
    var matched: Option<Predicate> := None;
    for i := 0 to |cs|
      invariant |views| == i
      invariant forall j :: 0 <= j < i ==> views[j] == ClaimantView(cs[j].destination, KindName(cs[j].condition))
      invariant matched.None? <==> forall j :: 0 <= j < i ==> cs[j].destination != account
      invariant matched.Some? ==> exists j: nat :: j < i && IsFirstMatch(cs, account, j) && matched == Some(cs[j].condition)
    {
      if matched.None? && cs[i].destination == account {
        assert IsFirstMatch(cs, account, i);
        matched := Some(cs[i].condition);
      }
      views := views + [ClaimantView(cs[i].destination, KindName(cs[i].condition))];
    }
    forall i: nat | IsFirstMatch(cs, account, i) ensures matched == Some(cs[i].condition) {
    }
    var code, issuer := None, None;
    if entry.asset.Credit? {
      code, issuer := Some(entry.asset.code), Some(entry.asset.issuer);
    }
    var clawback := entry.extFlags.Some? && entry.extFlags.value % 2 == 1;
    if matched.Some? {
      var v := EvaluateDepth(matched.value, now, 0);
      if v.Err? {
        return Err(PredicateUnsupported(v.error));
      }
      var w := DeriveWindowDepth(matched.value, 0);
      return Ok(Preview(code, issuer, entry.amount, views, true, Some(v.value), w, clawback));
    }
    return Ok(Preview(code, issuer, entry.amount, views, false, None, NO_WINDOW, clawback));
  }

  // ------------------------------------------------------------------- guards

  function RequireClaimant(p: Preview, account: string): Result<(), ClaimError> {
    if p.isClaimant then Ok(()) else Err(NotClaimant(account))
  }

  function WindowHint(w: Window): Hint {
    match (w.validFrom, w.validUntil)
    case (Some(f), Some(u)) => Between(f, u)
    case (Some(f), None) => Once(f)
    case (None, Some(u)) => Until(u)
    case (None, None) => NotNow
  }

  function RequirePredicateSatisfied(p: Preview): Result<(), ClaimError> {
    match p.predicateSatisfied
    case Some(true) => Ok(())
    case Some(false) => Err(PredicateNotSatisfied(WindowHint(p.window)))
    case None => Err(PredicateNotSatisfied(NotAClaimantHere))
  }

  /** 64-bit subtraction that stops at the ends of the range. */
  function SaturatingSub(a: I64, b: I64): I64 {
    if a - b > I64_MAX then I64_MAX else if a - b < I64_MIN then I64_MIN else a - b
  }

  function CheckTrustline(s: TrustlineState, code: Option<string>, issuer: Option<string>, amount: I64): Result<(), ClaimError> {
    if code.None? || issuer.None? then Ok(())
    else if !s.present then Err(TrustlineMissing(code.value, issuer.value))
    else if !s.authorized then Err(TrustlineNotAuthorized(code.value, issuer.value))
    else
      var headroom := SaturatingSub(s.limit, s.balance);
      if headroom < amount then Err(TrustlineLimit(code.value, issuer.value, amount, headroom)) else Ok(())
  }

  /** The saturating headroom test agrees with unbounded arithmetic on every
      input but one corner: the least amount against a difference below the range. */
  lemma HeadroomAgreesExactly(limit: I64, balance: I64, amount: I64)
    ensures (SaturatingSub(limit, balance) >= amount <==> balance + amount <= limit)
        <==> !(amount == I64_MIN && limit - balance < I64_MIN)
  {
  }

  lemma HeadroomDisagreesAtTheCorner()
    ensures SaturatingSub(I64_MIN, 1) >= I64_MIN && !(1 + I64_MIN <= I64_MIN)
  {
  }

  /** Build, which answered `r`, and all three guards let the claim pass. */
  ghost predicate GuardChain(account: string, s: TrustlineState, r: Result<Preview, ClaimError>) {
    && r.Ok?
    && RequireClaimant(r.value, account).Ok?
    && RequirePredicateSatisfied(r.value).Ok?
    && CheckTrustline(s, r.value.assetCode, r.value.assetIssuer, r.value.amount).Ok?
  }

  /** Room for the amount over unbounded integers, with the one corner in which
      the 64-bit test answers yes regardless. */
  ghost predicate TrustlineAdmits(s: TrustlineState, amount: I64) {
    s.present && s.authorized
    && (s.balance + amount <= s.limit || (amount == I64_MIN && s.limit - s.balance < I64_MIN))
  }

  /** A claim passes build and all three guards exactly when the earliest entry
      for the account is satisfied now and the trustline has room. */
  lemma GuardChainExact(
      entry: BalanceEntry, account: string, now: U64, s: TrustlineState, r: Result<Preview, ClaimError>)
    requires PreviewOf(entry, account, now, r)
    ensures GuardChain(account, s, r) <==>
            && (exists i: nat ::
                  IsFirstMatch(entry.claimants, account, i) && Eval(entry.claimants[i].condition, now) == Ok(true))
            && (entry.asset.Native? || TrustlineAdmits(s, entry.amount))
  {
    if Listed(entry.claimants, account) {
      FirstMatchExists(entry.claimants, account);
      var i: nat :| IsFirstMatch(entry.claimants, account, i);
      forall j: nat | IsFirstMatch(entry.claimants, account, j) ensures j == i {
        FirstMatchIsOne(entry.claimants, account, i, j);
      }
    }
    HeadroomAgreesExactly(s.limit, s.balance, entry.amount);
  }

  /** The hint of an unsatisfied claim: just the bounds of the derived window. */
  ghost predicate HintIs(h: Hint, w: Window) {
    match h
    case Between(from, until) => w == Window(Some(from), Some(until))
    case Once(from) => w == Window(Some(from), None)
    case Until(until) => w == Window(None, Some(until))
    case NotNow => w == Window(None, None)
    case NotAClaimantHere => false
  }

  /** Which guard refuses and what it says, for a preview of this entry. */
  lemma RefusalsExact(
      entry: BalanceEntry, account: string, now: U64, s: TrustlineState, r: Result<Preview, ClaimError>, i: nat)
    requires PreviewOf(entry, account, now, r) && r.Ok?
    ensures RequireClaimant(r.value, account) == if Listed(entry.claimants, account) then Ok(()) else Err(NotClaimant(account))
    ensures !Listed(entry.claimants, account) ==>
              RequirePredicateSatisfied(r.value) == Err(PredicateNotSatisfied(NotAClaimantHere))
    ensures IsFirstMatch(entry.claimants, account, i) && Eval(entry.claimants[i].condition, now) == Ok(false) ==>
              var refused := RequirePredicateSatisfied(r.value);
              && refused.Err? && refused.error.PredicateNotSatisfied?
              && HintIs(refused.error.hint, DeriveWindow(entry.claimants[i].condition))
    ensures var checked := CheckTrustline(s, r.value.assetCode, r.value.assetIssuer, r.value.amount);
            match entry.asset
            case Native => checked.Ok?
            case Credit(code, issuer) =>
              && (checked == Err(TrustlineMissing(code, issuer)) <==> !s.present)
              && (checked == Err(TrustlineNotAuthorized(code, issuer)) <==> s.present && !s.authorized)
              && (checked.Err? && s.present && s.authorized ==>
                    checked == Err(TrustlineLimit(code, issuer, entry.amount, SaturatingSub(s.limit, s.balance))))
  {
    if Listed(entry.claimants, account) {
      FirstMatchExists(entry.claimants, account);
    }
  }

  lemma {:induction false} FirstMatchExists(cs: seq<Claimant>, account: string)
    requires Listed(cs, account)
    ensures exists i: nat :: IsFirstMatch(cs, account, i)
  {
    if cs[0].destination == account {
      assert IsFirstMatch(cs, account, 0);
    } else {
      assert forall i :: 0 < i < |cs| ==> cs[i] == cs[1..][i - 1];
      FirstMatchExists(cs[1..], account);
      var i: nat :| IsFirstMatch(cs[1..], account, i);
      assert forall j :: 0 < j <= i ==> cs[j] == cs[1..][j - 1];
      assert IsFirstMatch(cs, account, i + 1);
    }
  }

  /** A later entry for the same account never rescues the earlier one. */
  lemma FirstMatchDecidesAlone(
      entry: BalanceEntry, more: seq<Claimant>, account: string, now: U64, s: TrustlineState, i: nat,
      r: Result<Preview, ClaimError>, wide: Result<Preview, ClaimError>)
    requires IsFirstMatch(entry.claimants, account, i) && PreviewOf(entry, account, now, r)
    requires PreviewOf(entry.(claimants := entry.claimants + more), account, now, wide)
    ensures GuardChain(account, s, r) <==> GuardChain(account, s, wide)
  {
    var wider := entry.(claimants := entry.claimants + more);
    assert IsFirstMatch(wider.claimants, account, i);
    GuardChainExact(entry, account, now, s, r);
    GuardChainExact(wider, account, now, s, wide);
    forall j: nat | IsFirstMatch(wider.claimants, account, j) ensures j == i {
      FirstMatchIsOne(wider.claimants, account, i, j);
    }
    forall j: nat | IsFirstMatch(entry.claimants, account, j) ensures j == i {
      FirstMatchIsOne(entry.claimants, account, i, j);
    }
  }
}
