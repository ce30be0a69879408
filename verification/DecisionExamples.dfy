/** Runs that show where the decision seam's documented guarantees stop. */
module DecisionExamples {
  import opened Common
  import opened ChallengeStores
  import opened Approvals
  import opened Decisions
  import opened DecisionPaths

  const GATE: Approval := Approval("operator", 10, ToolsetFirstInvokeGate(""), None)

  function AfterInsert(n: Nonce): State {
    State(map[n := GATE], None, None, false, [], OutsideMarks(map[], Insert(n, GATE, 0)))
  }

  lemma InsertLeads(b: Binding, n: Nonce)
    ensures Leads(b, START, Outside(Insert(n, GATE, 0)), AfterInsert(n))
  {
    assert Unexpired(map[], 0) == map[];
    assert OutsideResult(map[], Insert(n, GATE, 0)) == map[n := GATE];
    assert [] + AfterInsert(n).trace == AfterInsert(n).trace;
  }

  // ------------------------------------------------------------ a local rejection

  /** State `s` with one more handler, a rejection at `pc`. */
  function At(s: State, n: Nonce, pc: Pc, marks: seq<Mark>): State {
    State(s.store, if pc.HoldsStore() then Some(|s.handlers|) else None,
          if pc.HoldsWriter() then Some(|s.handlers|) else None, s.poisoned,
          s.handlers + [Handler(n, false, Local, pc)], s.trace + marks)
  }

  /** A rejection of a pending gate entry up to its durable row. */
  function RejectEvents(n: Nonce, h: nat): seq<Event> {
    [Begin(n, false, Local), Open(h), Inspect(h, Some("operator"), Some(0)), LockWriter(h), WriteRow(h, true, true)]
  }

  function RejectPcs(): seq<Pc> {
    [RejectOpening, RejectOpened, RejectReady(GATE, None, 0), RejectWithWriter(GATE, None, 0), RejectLogged(GATE, 0)]
  }

  function RejectMarks(n: Nonce, h: nat, k: nat): seq<Mark> {
    if k < 4 then [] else [Row(h, n, false, None)]
  }

  function RejectState(s: State, n: Nonce, k: nat): State
    requires k < 5
  {
    At(s, n, RejectPcs()[k], RejectMarks(n, |s.handlers|, k))
  }

  predicate FreshGate(s: State, n: Nonce) {
    s.lock.None? && s.writer.None? && !s.poisoned && n in s.store && s.store[n] == GATE
  }

  lemma RejectActs(b: Binding, store: Store, h: nat, n: Nonce, k: nat)
    requires 1 <= k < 5 && n in store && store[n] == GATE
    ensures HandlerAct(b, store, false, h, Handler(n, false, Local, RejectPcs()[k - 1]), RejectEvents(n, h)[k])
            == Some(Act(RejectPcs()[k], store, RejectMarks(n, h, k), false))
  {
  }

  lemma RejectLeads(b: Binding, s: State, n: Nonce, k: nat)
    requires FreshGate(s, n) && k < 5
    ensures Leads(b, if k == 0 then s else RejectState(s, n, k - 1), RejectEvents(n, |s.handlers|)[k], RejectState(s, n, k))
  {
    var h := |s.handlers|;
    var t := RejectState(s, n, k);
    if k == 0 {
      assert s.trace + [] == s.trace;
    } else {
      var before := RejectState(s, n, k - 1);
      RejectActs(b, s.store, h, n, k);
      assert before.handlers[h := before.handlers[h].(pc := RejectPcs()[k])] == t.handlers;
      assert before.trace + RejectMarks(n, h, k) == t.trace;
      Moves(b, before, h, RejectEvents(n, h)[k], t);
    }
  }

  // ------------------------------------------------------------------- the runs

  function RejectedStore(s: State, n: Nonce): Store
    requires n in s.store
  {
    s.store[n := RejectTombstone(s.store[n], 0)]
  }

  function Over(s: State, n: Nonce, o: Outcome, marks: seq<Mark>): State
    requires n in s.store
  {
    State(RejectedStore(s, n), None, None, s.poisoned, s.handlers + [Handler(n, false, Local, Finished(o))], s.trace + marks)
  }

  lemma PersistLeads(b: Binding, s: State, n: Nonce, poisoned: bool, disk: Disk, had: seq<Mark>)
    requires s.lock.None? && s.writer.None? && n in s.store && !disk.FailedBeforeRename?
    ensures var o := if disk.Written? then WasRejected else Unavailable;
            var p := s.(poisoned := poisoned);
            Leads(b, At(p, n, RejectLogged(GATE, 0), had), Persist(|s.handlers|, disk, Written),
                  Over(p, n, o, had + [RejectedOn(n, Some(|s.handlers|), disk.Written?)]))
  {
    var h := |s.handlers|;
    var p := s.(poisoned := poisoned);
    var o := if disk.Written? then WasRejected else Unavailable;
    var t := At(p, n, RejectLogged(GATE, 0), had);
    var u := Over(p, n, o, had + [RejectedOn(n, Some(h), disk.Written?)]);
    assert t.handlers[h := t.handlers[h].(pc := Finished(o))] == u.handlers;
    assert t.trace + [RejectedOn(n, Some(h), disk.Written?)] == u.trace;
    Moves(b, t, h, Persist(h, disk, Written), u);
  }

  /** A rejection whose write fails after its rename answers unavailable although
      the entry is now rejected. */
  lemma UnsyncedRejectionChangesTheStore(b: Binding, n: Nonce) returns (events: seq<Event>)
    ensures Run(b, events).Some?
    ensures var s := Run(b, events).value;
            && |s.handlers| == 1 && s.handlers[0].pc == Finished(Unavailable)
            && n in s.store && s.store[n].kind.Rejected?
  {
    var s := AfterInsert(n);
    var row := [Row(0, n, false, None)];
    events := [Outside(Insert(n, GATE, 0))] + RejectEvents(n, 0) + [Persist(0, FailedAfterRename, Written)];
    var states := [START, s] + seq(5, k requires 0 <= k < 5 => RejectState(s, n, k))
                  + [Over(s, n, Unavailable, row + [RejectedOn(n, Some(0), false)])];
    forall i | 0 <= i < |events| ensures LeadsAt(b, states, events, i) {
      RejectRunLeads(b, n, i);
      PersistLeads(b, s, n, false, FailedAfterRename, row);
    }
    PathIsRun(b, states, events);
  }

  /** The common beginning of both runs: the insertion and then the rejection. */
  lemma RejectRunLeads(b: Binding, n: Nonce, i: nat)
    ensures i == 0 ==> Leads(b, START, Outside(Insert(n, GATE, 0)), AfterInsert(n))
    ensures 1 <= i < 6 ==>
      Leads(b, if i == 1 then AfterInsert(n) else RejectState(AfterInsert(n), n, i - 2), RejectEvents(n, 0)[i - 1],
            RejectState(AfterInsert(n), n, i - 1))
  {
    if i == 0 {
      InsertLeads(b, n);
    } else if i < 6 {
      RejectLeads(b, AfterInsert(n), n, i - 1);
    }
  }

  /** What the order of locks would allow if the mutex had another holder, which in the
      source it has not: that holder panics while a rejection is between its row and
      its write, and the rejection still takes effect. */
  lemma RejectionOutlivesForeignPoison(b: Binding, n: Nonce) returns (events: seq<Event>)
    ensures Run(b, events).Some?
    ensures var s := Run(b, events).value;
            && s.poisoned && |s.handlers| == 1 && s.handlers[0].pc == Finished(WasRejected)
            && n in s.store && s.store[n].kind.Rejected?
  {
    var s := AfterInsert(n);
    var p := s.(poisoned := true);
    var had := [Row(0, n, false, None), Poisoned];
    var hit := At(p, n, RejectLogged(GATE, 0), had);
    events := [Outside(Insert(n, GATE, 0))] + RejectEvents(n, 0) + [ForeignPoison, Persist(0, Written, Written)];
    var states := [START, s] + seq(5, k requires 0 <= k < 5 => RejectState(s, n, k))
                  + [hit, Over(p, n, WasRejected, had + [RejectedOn(n, Some(0), true)])];
    PoisonLeads(b, n);
    forall i | 0 <= i < |events| ensures LeadsAt(b, states, events, i) {
      RejectRunLeads(b, n, i);
      PersistLeads(b, s, n, true, Written, had);
    }
    PathIsRun(b, states, events);
  }

  lemma PoisonLeads(b: Binding, n: Nonce)
    ensures var s := AfterInsert(n);
            Leads(b, RejectState(s, n, 4), ForeignPoison,
                  At(s.(poisoned := true), n, RejectLogged(GATE, 0), [Row(0, n, false, None), Poisoned]))
  {
    var s := AfterInsert(n);
    var hit := At(s.(poisoned := true), n, RejectLogged(GATE, 0), [Row(0, n, false, None), Poisoned]);
    assert RejectState(s, n, 4).trace + [Poisoned] == hit.trace;
  }

  // ----------------------------------------------------- a gate granted and still open

  function Granting(s: State, n: Nonce, pc: Pc, marks: seq<Mark>): State {
    State(s.store, if pc.HoldsStore() then Some(0) else None, if pc.HoldsWriter() then Some(0) else None, false,
          [Handler(n, true, Local, pc)], s.trace + marks)
  }

  /** The approval of a gate entry by its owner; `disk` and `grant` are how its two
      writes end. */
  function GrantEvents(n: Nonce, disk: Disk, grant: Disk): seq<Event> {
    [Begin(n, true, Local), Open(0), Validate(0, Some("operator"), Some(0)), LoadKey(0, true), Open(0),
     LockWriter(0), Check(0, Some(0)), WriteRow(0, true, true), Persist(0, disk, grant)]
  }

  function GrantPcs(o: Outcome): seq<Pc> {
    [ApproveOpening, ApproveOpened, ApproveLoadingKey(GATE, None), ApproveReopening(GATE, None),
     ApproveReopened(GATE, None), ApproveWithWriter(GATE, None), ApproveChecked(GATE, None, GrantAndRemove, 0),
     ApproveLogged(GATE, GrantAndRemove, 0), Finished(o)]
  }

  /** The two ways a grant is published and its entry stays. */
  predicate Leaves(disk: Disk, grant: Disk) {
    grant.FailedAfterRename? || (grant.Written? && disk.FailedBeforeRename?)
  }

  function GrantAnswer(grant: Disk): Outcome {
    if grant.Written? then Attested(None, 10) else Unavailable
  }

  function NewMarks(n: Nonce, grant: Disk, k: nat): seq<Mark> {
    if k < 7 then [] else if k == 7 then [Row(0, n, true, None)] else [GrantedFor(n, 0, grant.Written?)]
  }

  function GrantMarks(n: Nonce, grant: Disk, k: nat): seq<Mark> {
    if k < 8 then NewMarks(n, grant, k) else NewMarks(n, grant, 7) + NewMarks(n, grant, 8)
  }

  lemma GrantActs(b: Binding, n: Nonce, disk: Disk, grant: Disk, k: nat)
    requires 1 <= k < 9 && Leaves(disk, grant)
    ensures HandlerAct(b, map[n := GATE], false, 0, Handler(n, true, Local, GrantPcs(GrantAnswer(grant))[k - 1]),
                       GrantEvents(n, disk, grant)[k])
            == Some(Act(GrantPcs(GrantAnswer(grant))[k], map[n := GATE], NewMarks(n, grant, k), false))
  {
  }

  function GrantState(n: Nonce, grant: Disk, k: nat): State
    requires k < 9
  {
    Granting(AfterInsert(n), n, GrantPcs(GrantAnswer(grant))[k], GrantMarks(n, grant, k))
  }

  lemma GrantLeads(b: Binding, n: Nonce, disk: Disk, grant: Disk, k: nat)
    requires k < 9 && Leaves(disk, grant)
    ensures Leads(b, if k == 0 then AfterInsert(n) else GrantState(n, grant, k - 1), GrantEvents(n, disk, grant)[k],
                  GrantState(n, grant, k))
  {
    var t := GrantState(n, grant, k);
    if k == 0 {
      assert AfterInsert(n).trace + [] == AfterInsert(n).trace;
      assert [] + [Handler(n, true, Local, ApproveOpening)] == t.handlers;
    } else {
      var s := GrantState(n, grant, k - 1);
      GrantActs(b, n, disk, grant, k);
      assert s.trace + NewMarks(n, grant, k) == t.trace;
      assert s.handlers[0 := s.handlers[0].(pc := GrantPcs(GrantAnswer(grant))[k])] == t.handlers;
      Moves(b, s, 0, GrantEvents(n, disk, grant)[k], t);
    }
  }

  /** A gate entry is inserted, granted by handler 0, left, and rejected by handler 1. */
  function GateEvents(n: Nonce, disk: Disk, grant: Disk): (r: seq<Event>)
    ensures |r| == 16
  {
    [Outside(Insert(n, GATE, 0))] + GrantEvents(n, disk, grant) + RejectEvents(n, 1) + [Persist(1, Written, Written)]
  }

  function LastState(n: Nonce, grant: Disk): State {
    Over(GrantState(n, grant, 8), n, WasRejected, [Row(1, n, false, None), RejectedOn(n, Some(1), true)])
  }

  function GateState(n: Nonce, grant: Disk, i: nat): State {
    if i == 0 then START
    else if i == 1 then AfterInsert(n)
    else if i < 11 then GrantState(n, grant, i - 2)
    else if i < 16 then RejectState(GrantState(n, grant, 8), n, i - 11)
    else LastState(n, grant)
  }

  lemma GateLeads(b: Binding, n: Nonce, disk: Disk, grant: Disk, i: nat)
    requires Leaves(disk, grant) && i < 16
    ensures Leads(b, GateState(n, grant, i), GateEvents(n, disk, grant)[i], GateState(n, grant, i + 1))
  {
    if i == 0 {
      InsertLeads(b, n);
    } else if i < 10 {
      assert GateEvents(n, disk, grant)[i] == GrantEvents(n, disk, grant)[i - 1];
      GrantLeads(b, n, disk, grant, i - 1);
    } else if i < 15 {
      assert GateEvents(n, disk, grant)[i] == RejectEvents(n, 1)[i - 10];
      RejectLeads(b, GrantState(n, grant, 8), n, i - 10);
    } else {
      PersistLeads(b, GrantState(n, grant, 8), n, false, Written, [Row(1, n, false, None)]);
      assert [Row(1, n, false, None)] + [RejectedOn(n, Some(1), true)] == [Row(1, n, false, None), RejectedOn(n, Some(1), true)];
    }
  }

  /** The two decisions on a gate entry are not always exclusive: it can be granted and,
      because the entry was left, later rejected. With a grant write that fails after
      its rename the grant is in force although the approval answered unavailable. */
  lemma GrantedGateCanBeRejected(b: Binding, n: Nonce, disk: Disk, grant: Disk) returns (events: seq<Event>)
    requires Leaves(disk, grant)
    ensures Run(b, events).Some?
    ensures var s := Run(b, events).value;
            && GrantedFor(n, 0, grant.Written?) in s.trace && |s.handlers| == 2
            && s.handlers[0].pc == Finished(if grant.Written? then Attested(None, 10) else Unavailable)
            && s.handlers[1].pc == Finished(WasRejected)
  {
    events := GateEvents(n, disk, grant);
    var states := seq(17, i requires 0 <= i < 17 => GateState(n, grant, i));
    forall i | 0 <= i < |events| ensures LeadsAt(b, states, events, i) {
      GateLeads(b, n, disk, grant, i);
    }
    PathIsRun(b, states, events);
    assert LastState(n, grant).trace[|AfterInsert(n).trace| + 1] == GrantedFor(n, 0, grant.Written?);
  }
}
