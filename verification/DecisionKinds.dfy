/** What an attestation is about: in every run it covers the content with which
    its entry was last inserted. */
module DecisionKinds {
  import opened Common
  import opened ChallengeStores
  import opened Approvals
  import opened Decisions
  import opened Lifecycles
  import opened DecisionProofs
  import opened DecisionRuns

  /** The kind of the latest insertion of `n`. */
  ghost function LastKind(trace: seq<Mark>, n: Nonce): Option<Kind> {
    if trace == [] then None
    else
      var m := trace[|trace| - 1];
      if InsertsAs(m, n) then Some(m.kind) else LastKind(trace[..|trace| - 1], n)
  }

  lemma {:induction false} LastKindStays(trace: seq<Mark>, more: seq<Mark>, n: Nonce)
    requires NoInsert(more, n)
    ensures LastKind(trace + more, n) == LastKind(trace, n)
  {
    if more == [] {
      assert trace + more == trace;
    } else {
      var k := |more| - 1;
      LastKindStays(trace, more[..k], n);
      assert (trace + more)[..|trace + more| - 1] == trace + more[..k];
    }
  }

  /** A live entry still has the kind it was inserted with. */
  ghost predicate KindInv(s: State) {
    forall n: Nonce :: n in s.store && !s.store[n].kind.Tombstone() ==> LastKind(s.trace, n) == Some(s.store[n].kind)
  }

  lemma ActKeepsKinds(b: Binding, store: Store, poisoned: bool, h: nat, who: Handler, e: Event, n: Nonce)
    requires HandlerAct(b, store, poisoned, h, who, e).Some?
    ensures var act := HandlerAct(b, store, poisoned, h, who, e).value;
            && NoInsert(act.marks, n)
            && (n in act.store && !act.store[n].kind.Tombstone() ==> n in store && act.store[n].kind == store[n].kind)
  {
  }

  lemma OutsideKeepsKinds(s: State, op: OutsideOp, n: Nonce)
    requires KindInv(s)
    ensures var after := OutsideResult(s.store, op);
            n in after && !after[n].kind.Tombstone() ==>
              LastKind(s.trace + OutsideMarks(s.store, op), n) == Some(after[n].kind)
  {
    var marks := OutsideMarks(s.store, op);
    if NoInsert(marks, n) {
      LastKindStays(s.trace, marks, n);
      if op.Insert? && |marks| == 2 {
        assert marks[1] == InsertedAs(op.nonce, op.entry.kind);
        assert !InsertsAs(marks[1], n);
      }
    } else {
      assert marks[1] == InsertedAs(n, op.entry.kind);
      assert (s.trace + marks)[|s.trace + marks| - 1] == marks[1];
    }
  }

  lemma KindKept(b: Binding, s: State, e: Event)
    requires KindInv(s) && Step(b, s, e).Some?
    ensures KindInv(Step(b, s, e).value)
  {
    var t := Step(b, s, e).value;
    StepFrame(b, s, e);
    forall n: Nonce | n in t.store && !t.store[n].kind.Tombstone()
      ensures LastKind(t.trace, n) == Some(t.store[n].kind)
    {
      if e.Outside? {
        OutsideKeepsKinds(s, e.op, n);
      } else if Mover(e).Some? {
        var act := HandlerAct(b, s.store, s.poisoned, e.h, s.handlers[e.h], e).value;
        ActKeepsKinds(b, s.store, s.poisoned, e.h, s.handlers[e.h], e, n);
        LastKindStays(s.trace, act.marks, n);
      } else if e.ForeignPoison? {
        LastKindStays(s.trace, [Poisoned], n);
      }
    }
  }

  // ---------------------------------------------------------- what is attested

  /** An attestation by the inbox, over the content inserted under its nonce. */
  ghost predicate CoversKind(b: Binding, m: Mark, kind: Option<Kind>) {
    m.AttestedOn? && m.author.Some? ==>
      && kind.Some? && m.blob.Attestation? && m.blob.binding == b && m.blob.nonce == m.nonce
      && Recordable(kind.value) && m.blob.subject == SubjectOf(kind.value)
  }

  ghost predicate CoversAt(b: Binding, trace: seq<Mark>, j: nat)
    requires j < |trace|
  {
    trace[j].AttestedOn? ==> CoversKind(b, trace[j], LastKind(trace[..j], trace[j].nonce))
  }

  ghost predicate CoverInv(b: Binding, s: State) {
    forall j :: 0 <= j < |s.trace| ==> CoversAt(b, s.trace, j)
  }

  lemma ActCovers(b: Binding, s: State, h: nat, e: Event)
    requires KindInv(s) && h < |s.handlers| && EntryInv(b, s.store, s.handlers[h])
    requires HandlerAct(b, s.store, s.poisoned, h, s.handlers[h], e).Some?
    ensures var marks := HandlerAct(b, s.store, s.poisoned, h, s.handlers[h], e).value.marks;
            && (forall j :: 0 <= j < |marks| && marks[j].AttestedOn? ==>
                  |marks| == 1 && CoversKind(b, marks[j], LastKind(s.trace, marks[j].nonce)))
  {
    var who := s.handlers[h];
    if who.pc.ApproveLogged? {
      PlansAreForLiveKinds(who.nonce, who.pc.entry, b);
    }
  }

  lemma CoverAppend(b: Binding, trace: seq<Mark>, more: seq<Mark>)
    requires forall j :: 0 <= j < |trace| ==> CoversAt(b, trace, j)
    requires forall j :: 0 <= j < |more| && more[j].AttestedOn? && more[j].author.Some? ==>
               |more| == 1 && CoversKind(b, more[j], LastKind(trace, more[j].nonce))
    ensures forall j :: 0 <= j < |trace + more| ==> CoversAt(b, trace + more, j)
  {
    var all := trace + more;
    forall j | 0 <= j < |all| ensures CoversAt(b, all, j) {
      if j < |trace| {
        assert CoversAt(b, trace, j);
        assert all[..j] == trace[..j];
      } else if j == |trace| {
        assert all[..j] == trace;
        assert all[j] == more[0];
      } else {
        assert all[j] == more[j - |trace|];
      }
    }
  }

  lemma CoverKept(b: Binding, s: State, e: Event)
    requires EntriesInv(b, s) && KindInv(s) && CoverInv(b, s) && Step(b, s, e).Some?
    ensures CoverInv(b, Step(b, s, e).value)
  {
    StepFrame(b, s, e);
    if e.Outside? {
      CoverAppend(b, s.trace, OutsideMarks(s.store, e.op));
    } else if Mover(e).Some? {
      ActCovers(b, s, e.h, e);
      CoverAppend(b, s.trace, HandlerAct(b, s.store, s.poisoned, e.h, s.handlers[e.h], e).value.marks);
    } else if e.ForeignPoison? {
      CoverAppend(b, s.trace, [Poisoned]);
    }
  }

  lemma {:induction false} KindsHold(b: Binding, events: seq<Event>)
    requires Run(b, events).Some?
    ensures KindInv(Run(b, events).value) && CoverInv(b, Run(b, events).value)
  {
    if events != [] {
      var past := events[..|events| - 1];
      KindsHold(b, past);
      InvHolds(b, past);
      KindKept(b, Run(b, past).value, events[|events| - 1]);
      CoverKept(b, Run(b, past).value, events[|events| - 1]);
    }
  }

  // ------------------------------------------------------------ seen and attested

  /** An entry as some reader saw it when the trace was `k` long. */
  ghost predicate SeenAt(trace: seq<Mark>, k: nat, n: Nonce, kind: Kind) {
    && k <= |trace| && LifeAfter(trace[..k], n).Some?
    && (if kind.Tombstone() then LifeAfter(trace[..k], n).value.Refused? || LifeAfter(trace[..k], n).value.Used?
        else LastKind(trace[..k], n) == Some(kind))
  }

  lemma SeenStays(trace: seq<Mark>, more: seq<Mark>, k: nat, n: Nonce, kind: Kind)
    requires SeenAt(trace, k, n, kind)
    ensures SeenAt(trace + more, k, n, kind)
  {
    assert (trace + more)[..k] == trace[..k];
  }

  lemma {:induction false} ReadIsSeen(b: Binding, events: seq<Event>, s: State, n: Nonce)
    requires Run(b, events) == Some(s) && n in s.store
    ensures SeenAt(s.trace, |s.trace|, n, s.store[n].kind)
  {
    InvHolds(b, events);
    KindsHold(b, events);
    assert s.trace[..|s.trace|] == s.trace;
    assert LifeAfter(s.trace, n) == Some(LifeOf(s.store, n));
  }

  /** The attestation is over exactly what an entry of this kind asks consent for. */
  ghost predicate AttestsKind(b: Binding, m: Mark, n: Nonce, kind: Kind) {
    && Recordable(kind) && m.AttestedOn? && m.blob.Attestation?
    && m.blob.binding == b && m.blob.nonce == n && m.blob.subject == SubjectOf(kind)
  }

  /** Without a new insertion, what is decided later was no tombstone before. */
  lemma SeenIsLive(trace: seq<Mark>, k: nat, j: nat, n: Nonce, kind: Kind)
    requires LifeAfter(trace, n).Some? && k <= j < |trace| && SeenAt(trace, k, n, kind) && DecidesOn(trace[j], n)
    requires forall i :: k <= i < j ==> !InsertsAs(trace[i], n)
    ensures !kind.Tombstone()
  {
    DecisionFindsUndecided(trace, n, j);
    if kind.Tombstone() {
      StaysDecided(trace, n, k, j);
    }
  }

  lemma SameKindUntil(trace: seq<Mark>, k: nat, j: nat, n: Nonce)
    requires k <= j <= |trace| && forall i :: k <= i < j ==> !InsertsAs(trace[i], n)
    ensures LastKind(trace[..j], n) == LastKind(trace[..k], n)
  {
    assert trace[..j] == trace[..k] + trace[k..j];
    LastKindStays(trace[..k], trace[k..j], n);
  }

  lemma LegalAttestIsWhatWasSeen(b: Binding, trace: seq<Mark>, k: nat, j: nat, n: Nonce, kind: Kind)
    requires LifeAfter(trace, n).Some? && k <= j < |trace| && CoversAt(b, trace, j)
    requires SeenAt(trace, k, n, kind) && trace[j].AttestedOn? && trace[j].nonce == n && trace[j].author.Some?
    requires forall i :: k <= i < j ==> !InsertsAs(trace[i], n)
    ensures AttestsKind(b, trace[j], n, kind)
  {
    SeenIsLive(trace, k, j, n, kind);
    SameKindUntil(trace, k, j, n);
  }

  /** What is attested is what was seen: if the entry was read when the trace was
      `k` long and its nonce was not inserted anew before its attestation at `j`,
      then the attestation covers the very content that was read. */
  lemma {:induction false} AttestedIsWhatWasSeen(b: Binding, events: seq<Event>, s: State, k: nat, j: nat, n: Nonce, kind: Kind)
    requires Run(b, events) == Some(s)
    requires var trace := s.trace;
             && k <= j < |trace| && SeenAt(trace, k, n, kind)
             && trace[j].AttestedOn? && trace[j].nonce == n && trace[j].author.Some?
             && forall i :: k <= i < j ==> !InsertsAs(trace[i], n)
    ensures AttestsKind(b, s.trace[j], n, kind)
  {
    InvHolds(b, events);
    KindsHold(b, events);
    assert CoversAt(b, s.trace, j);
    LegalAttestIsWhatWasSeen(b, s.trace, k, j, n, kind);
  }
}
