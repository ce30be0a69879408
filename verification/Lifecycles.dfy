/** The life of an approval nonce, read off the order of events alone: a small
    automaton, independent of the store, that every reachable history obeys. */
module Lifecycles {
  import opened Common
  import opened ChallengeStores
  import opened Approvals
  import opened Decisions

  datatype Stage = Absent | Undecided | Accepted(blob: Blob) | Refused | Used

  /** What the store says about a nonce. */
  ghost function LifeOf(store: Store, n: Nonce): Stage {
    if n !in store then Absent
    else if store[n].kind.Rejected? then Refused
    else if store[n].kind.Consumed? then Used
    else if store[n].blob.Some? then Accepted(store[n].blob.value)
    else Undecided
  }

  /** The automaton: only an undecided entry can be attested, rejected or granted,
      only a present one spent or removed, and only an absent nonce inserted. A grant alone
      does not close the entry; taking the entry out does. */
  ghost function LifeStep(l: Stage, m: Mark, n: Nonce): Option<Stage> {
    match m
    case AttestedOn(k, blob, _, _) => if k != n then Some(l) else if l.Undecided? then Some(Accepted(blob)) else None
    case RejectedOn(k, _, _) => if k != n then Some(l) else if l.Undecided? then Some(Refused) else None
    case SpentOn(k) => if k != n then Some(l) else if l.Absent? then None else Some(Used)
    case InsertedAs(k, _) => if k != n then Some(l) else if l.Absent? then Some(Undecided) else None
    case GrantedFor(k, _, _) => if k != n || l.Undecided? then Some(l) else None
    case RemovedFrom(ks, _, _) => if n !in ks then Some(l) else if l.Absent? then None else Some(Absent)
    case _ => Some(l)
  }

  /** The life of `n` after a history; nothing when some step was illegal. */
  ghost function LifeAfter(trace: seq<Mark>, n: Nonce): Option<Stage> {
    if trace == [] then Some(Absent)
    else
      match LifeAfter(trace[..|trace| - 1], n)
      case None => None
      case Some(l) => LifeStep(l, trace[|trace| - 1], n)
  }

  lemma LifeAppend(trace: seq<Mark>, m: Mark, n: Nonce)
    ensures LifeAfter(trace + [m], n) == match LifeAfter(trace, n) case None => None case Some(l) => LifeStep(l, m, n)
  {
    assert (trace + [m])[..|trace|] == trace;
  }

  lemma {:induction false} LegalPrefix(trace: seq<Mark>, n: Nonce, k: nat)
    requires LifeAfter(trace, n).Some? && k <= |trace|
    ensures LifeAfter(trace[..k], n).Some?
  {
    if k == |trace| {
      assert trace[..k] == trace;
    } else {
      LegalPrefix(trace[..|trace| - 1], n, k);
      assert trace[..|trace| - 1][..k] == trace[..k];
    }
  }

  ghost predicate DecidesOn(m: Mark, n: Nonce) {
    (m.AttestedOn? || m.RejectedOn? || m.GrantedFor?) && m.nonce == n
  }

  ghost predicate SettlesOn(m: Mark, n: Nonce) {
    DecidesOn(m, n) || (m.SpentOn? && m.nonce == n) || (m.RemovedFrom? && n in m.nonces)
  }

  ghost predicate InsertsAs(m: Mark, n: Nonce) {
    m.InsertedAs? && m.nonce == n
  }

  ghost predicate NoInsert(marks: seq<Mark>, n: Nonce) {
    forall i :: 0 <= i < |marks| ==> !InsertsAs(marks[i], n)
  }

  ghost predicate ReinsertedBetween(trace: seq<Mark>, n: Nonce, i: nat, j: nat) {
    exists k :: i < k < j < |trace| && InsertsAs(trace[k], n)
  }

  /** The grant at `i` was followed at once by its handler taking the entry out. */
  ghost predicate TakenOut(trace: seq<Mark>, i: nat)
    requires i < |trace| && trace[i].GrantedFor?
  {
    && i + 1 < |trace| && trace[i + 1].RemovedFrom? && trace[i + 1].author == Some(trace[i].handler)
    && trace[i].nonce in trace[i + 1].nonces
  }

  /** A decision finds its nonce undecided. */
  lemma DecisionFindsUndecided(trace: seq<Mark>, n: Nonce, j: nat)
    requires LifeAfter(trace, n).Some? && j < |trace| && DecidesOn(trace[j], n)
    ensures LifeAfter(trace[..j], n) == Some(Undecided)
  {
    LegalPrefix(trace, n, j + 1);
    assert trace[..j + 1][..j] == trace[..j];
  }

  /** Once not undecided, a nonce stays so until it is inserted again. */
  lemma {:induction false} StaysDecided(trace: seq<Mark>, n: Nonce, k: nat, m: nat)
    requires LifeAfter(trace, n).Some? && k <= m <= |trace|
    requires LifeAfter(trace[..k], n).Some? && !LifeAfter(trace[..k], n).value.Undecided?
    requires forall i :: k <= i < m ==> !InsertsAs(trace[i], n)
    ensures LifeAfter(trace[..m], n).Some? && !LifeAfter(trace[..m], n).value.Undecided?
    decreases m
  {
    if k < m {
      StaysDecided(trace, n, k, m - 1);
      LegalPrefix(trace, n, m);
      assert trace[..m][..m - 1] == trace[..m - 1];
    }
  }

  /** What a settling mark leaves: a grant leaves the entry as it is until it is
      taken out, everything else closes it. */
  lemma SettledAfter(trace: seq<Mark>, n: Nonce, i: nat)
    requires LifeAfter(trace, n).Some? && i < |trace| && SettlesOn(trace[i], n)
    ensures LifeAfter(trace[..i + 1], n).Some?
    ensures LifeAfter(trace[..i + 1], n).value.Undecided? <==> trace[i].GrantedFor?
    ensures trace[i].GrantedFor? && TakenOut(trace, i) ==> LifeAfter(trace[..i + 2], n) == Some(Absent)
  {
    LegalPrefix(trace, n, i + 1);
    assert trace[..i + 1][..i] == trace[..i];
    if trace[i].GrantedFor? && TakenOut(trace, i) {
      LegalPrefix(trace, n, i + 2);
      assert trace[..i + 2][..i + 1] == trace[..i + 1];
    }
  }

  /** A settled nonce is decided again only after a new insertion, unless what
      settled it was a grant that did not take its entry out. So between insertions
      a nonce is attested at most once, never both attested and rejected, never
      decided once it is spent or removed, by a grant or otherwise. */
  lemma DecidedOncePerInsertion(trace: seq<Mark>, n: Nonce, i: nat, j: nat)
    requires LifeAfter(trace, n).Some? && i < j < |trace|
    requires SettlesOn(trace[i], n) && DecidesOn(trace[j], n)
    ensures ReinsertedBetween(trace, n, i, j) || (trace[i].GrantedFor? && !TakenOut(trace, i))
  {
    DecisionFindsUndecided(trace, n, j);
    SettledAfter(trace, n, i);
    if !ReinsertedBetween(trace, n, i, j) {
      if !trace[i].GrantedFor? {
        StaysDecided(trace, n, i + 1, j);
      } else if TakenOut(trace, i) {
        StaysDecided(trace, n, i + 2, j);
      }
    }
  }

  ghost function Insertions(trace: seq<Mark>, n: Nonce): nat {
    if trace == [] then 0
    else Insertions(trace[..|trace| - 1], n) + (if InsertsAs(trace[|trace| - 1], n) then 1 else 0)
  }

  lemma {:induction false} InsertionsGrow(trace: seq<Mark>, n: Nonce, k: nat)
    requires k <= |trace|
    ensures Insertions(trace[..k], n) <= Insertions(trace, n)
  {
    if k == |trace| {
      assert trace[..k] == trace;
    } else {
      assert trace[..|trace| - 1][..k] == trace[..k];
      InsertionsGrow(trace[..|trace| - 1], n, k);
    }
  }

  /** A nonce that is present was inserted. */
  lemma {:induction false} PresentWasInserted(trace: seq<Mark>, n: Nonce)
    requires LifeAfter(trace, n).Some? && !LifeAfter(trace, n).value.Absent?
    ensures Insertions(trace, n) >= 1
  {
    if trace != [] && !InsertsAs(trace[|trace| - 1], n) {
      LegalPrefix(trace, n, |trace| - 1);
      PresentWasInserted(trace[..|trace| - 1], n);
    }
  }

  /** Settled at `i`, inserted at a later `k`: two insertions. */
  lemma {:induction false} ReinsertionIsSecond(trace: seq<Mark>, n: Nonce, i: nat, k: nat)
    requires LifeAfter(trace, n).Some? && i < k < |trace|
    requires SettlesOn(trace[i], n) && InsertsAs(trace[k], n)
    ensures Insertions(trace, n) >= 2
  {
    LegalPrefix(trace, n, i + 1);
    LegalPrefix(trace, n, i);
    assert trace[..i + 1][..i] == trace[..i];
    PresentWasInserted(trace[..i], n);
    assert trace[..k][..i] == trace[..i];
    InsertionsGrow(trace[..k], n, i);
    assert trace[..k + 1][..k] == trace[..k];
    InsertionsGrow(trace, n, k + 1);
  }

  /** With random nonces drawn once each, no nonce is decided twice at all, with the
      same exception. */
  lemma DecidedOnceIfInsertedOnce(trace: seq<Mark>, n: Nonce, i: nat, j: nat)
    requires LifeAfter(trace, n).Some? && i < j < |trace| && Insertions(trace, n) <= 1
    requires SettlesOn(trace[i], n) && DecidesOn(trace[j], n)
    ensures trace[i].GrantedFor? && !TakenOut(trace, i)
  {
    DecidedOncePerInsertion(trace, n, i, j);
    if ReinsertedBetween(trace, n, i, j) {
      var k :| i < k < j && InsertsAs(trace[k], n);
      ReinsertionIsSecond(trace, n, i, k);
    }
  }
}
