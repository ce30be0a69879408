/** The decision seam as a step relation: any number of approve and reject
    handlers of one inbox process, interleaved with each other and with the store
    operations of other processes. A handler takes the store's file lock and the
    audit writer's mutex in separate steps, and an approve drops the store lock
    between validating an entry and persisting its attestation. */
module Decisions {
  import opened Common
  import opened ChallengeStores
  import opened Approvals

  // ----------------------------------------------------------------------- state

  /** How far a write of the store file got. A failure after the rename reports an
      error although the new file is in place. */
  datatype Disk = Written | FailedBeforeRename | FailedAfterRename

  /** What opening the store comes to. */
  datatype Opening = Opens | StaysLocked | Fails

  /** Where a handler is. Names ending in `ing` wait for the store lock. */
  datatype Pc =
    | ApproveOpening
    | ApproveOpened
    | ApproveLoadingKey(entry: Approval, credential: Option<string>)
    | ApproveReopening(entry: Approval, credential: Option<string>)
    | ApproveReopened(entry: Approval, credential: Option<string>)
    | ApproveWithWriter(entry: Approval, credential: Option<string>)
    | ApproveChecked(entry: Approval, credential: Option<string>, plan: Plan, now: nat)
    | ApproveLogged(entry: Approval, plan: Plan, now: nat)
    | RejectOpening
    | RejectOpened
    | RejectReady(entry: Approval, credential: Option<string>, now: nat)
    | RejectWithWriter(entry: Approval, credential: Option<string>, now: nat)
    | RejectLogged(entry: Approval, now: nat)
    | Finished(outcome: Outcome)
    | Crashed
  {
    predicate WaitsForStore() {
      ApproveOpening? || ApproveReopening? || RejectOpening?
    }

    predicate HoldsStore() {
      ApproveOpened? || ApproveReopened? || ApproveWithWriter? || ApproveChecked? || ApproveLogged?
      || RejectOpened? || RejectReady? || RejectWithWriter? || RejectLogged?
    }

    predicate HoldsWriter() {
      ApproveWithWriter? || ApproveChecked? || ApproveLogged? || RejectWithWriter?
    }

    predicate Over() {
      Finished? || Crashed?
    }

    predicate Rejecting() {
      RejectOpening? || RejectOpened? || RejectReady? || RejectWithWriter? || RejectLogged?
    }

    predicate Approving() {
      !Over() && !Rejecting()
    }
  }

  datatype Handler = Handler(nonce: Nonce, approve: bool, requester: Requester, pc: Pc)

  /** What happened, in order. `author` is the inbox handler, none for another process;
      `synced` is false when the write reported an error after its rename. */
  datatype Mark =
    | Row(handler: nat, nonce: Nonce, approve: bool, credential: Option<string>)
    | AttestedOn(nonce: Nonce, blob: Blob, author: Option<nat>, synced: bool)
    | RejectedOn(nonce: Nonce, author: Option<nat>, synced: bool)
    | RemovedFrom(nonces: set<Nonce>, author: Option<nat>, synced: bool)
    | GrantedFor(nonce: Nonce, handler: nat, synced: bool)
    | SpentOn(nonce: Nonce)
    | InsertedAs(nonce: Nonce, kind: Kind)
    | Poisoned

  datatype State = State(
    store: Store,
    lock: Option<nat>,
    writer: Option<nat>,
    poisoned: bool,
    handlers: seq<Handler>,
    trace: seq<Mark>)

  const START: State := State(map[], None, None, false, [], [])

  // ---------------------------------------------------------------------- events

  datatype Event =
    | Begin(nonce: Nonce, approve: bool, requester: Requester)
    | OpenFails(h: nat, busy: bool)
    | Open(h: nat)
    | Validate(h: nat, uid: Option<string>, clock: Option<nat>)
    | LoadKey(h: nat, ok: bool)
    | LockWriter(h: nat)
    | Check(h: nat, clock: Option<nat>)
    | WriteRow(h: nat, accepted: bool, landed: bool)
    | Persist(h: nat, disk: Disk, grant: Disk)
    | Inspect(h: nat, uid: Option<string>, clock: Option<nat>)
    | Panic(h: nat)
    | ForeignPoison
    | Outside(op: OutsideOp)

  // ----------------------------------------------------------------------- steps

  /** What one step of a handler does: where it goes, the store it leaves, what
      happened, and whether it poisons the writer's mutex. Which locks it then
      holds follows from where it is. */
  datatype Act = Act(pc: Pc, store: Store, marks: seq<Mark>, poisons: bool)

  function Go(store: Store, pc: Pc): Option<Act> {
    Some(Act(pc, store, [], false))
  }

  function Finish(store: Store, o: Outcome): Option<Act> {
    Go(store, Finished(o))
  }

  function ActOpen(store: Store, pc: Pc): Option<Act> {
    match pc
    case ApproveOpening => Go(store, ApproveOpened)
    case ApproveReopening(e, c) => Go(store, ApproveReopened(e, c))
    case RejectOpening => Go(store, RejectOpened)
    case _ => None
  }

  /** The first phase of an approve; the store lock is dropped on every path. */
  function ActValidate(store: Store, who: Handler, uid: Option<string>, clock: Option<nat>): Option<Act> {
    if !who.pc.ApproveOpened? then None
    else
      match ResolveRequester(who.requester, uid)
      case None => Finish(store, Unavailable)
      case Some(r) =>
        match LoadAndValidate(store, who.nonce, r.identity, r.allowed, clock)
        case Err(c) => Finish(store, ValidateOutcome(store, who.nonce, c))
        case Ok(e) => Go(store, ApproveLoadingKey(e, r.credential))
  }

  function ActLoadKey(store: Store, pc: Pc, ok: bool): Option<Act> {
    match pc
    case ApproveLoadingKey(e, c) => if ok then Go(store, ApproveReopening(e, c)) else Finish(store, Unavailable)
    case _ => None
  }

  /** A poisoned mutex refuses the decision. */
  function ActLockWriter(store: Store, poisoned: bool, pc: Pc): Option<Act> {
    match pc
    case ApproveReopened(e, c) =>
      if poisoned then Finish(store, Unavailable) else Go(store, ApproveWithWriter(e, c))
    case RejectReady(e, c, now) =>
      if poisoned then Finish(store, Unavailable) else Go(store, RejectWithWriter(e, c, now))
    case _ => None
  }

  function ActCheck(b: Binding, store: Store, who: Handler, clock: Option<nat>): Option<Act> {
    match who.pc
    case ApproveWithWriter(e, c) =>
      (match PrepareAttest(store, who.nonce, e, b, clock)
       case Err(code) => Finish(store, AttestOutcome(store, who.nonce, code))
       case Ok(plan) => Go(store, ApproveChecked(e, c, plan, clock.value)))
    case _ => None
  }

  /** The row. A refused append may still have reached the file. A reject drops the
      writer right after its row. */
  function ActWriteRow(store: Store, h: nat, who: Handler, accepted: bool, landed: bool): Option<Act> {
    match who.pc
    case ApproveChecked(e, c, plan, now) =>
      Some(Act(
        if accepted then ApproveLogged(e, plan, now) else Finished(Unavailable),
        store, if accepted || landed then [Row(h, who.nonce, true, c)] else [], false))
    case RejectWithWriter(e, c, now) =>
      Some(Act(
        if accepted then RejectLogged(e, now) else Finished(Unavailable),
        store, if accepted || landed then [Row(h, who.nonce, false, c)] else [], false))
    case _ => None
  }

  /** The write itself, under the store lock. */
  function ActPersist(store: Store, h: nat, who: Handler, disk: Disk, grant: Disk): Option<Act> {
    match who.pc
    case ApproveLogged(e, RecordBlob(blob, surfaced), now) => PersistBlob(store, h, who, e, blob, surfaced, now, disk)
    case ApproveLogged(e, GrantAndRemove, _) => PersistGrant(store, h, who, e, disk, grant)
    case RejectLogged(_, now) => PersistReject(store, h, who, now, disk)
    case _ => None
  }

  function PersistBlob(
      store: Store, h: nat, who: Handler, e: Approval, blob: Blob, surfaced: bool, now: nat, disk: Disk): Option<Act>
  {
    match RecordOnStore(store, who.nonce, blob, now)
    case Err(code) => Finish(store, RecordOutcome(store, who.nonce, code))
    case Ok(updated) =>
      if disk.FailedBeforeRename? then Finish(store, Unavailable)
      else
        var o := if disk.Written? then Attested(if surfaced then Some(blob) else None, e.expiresAt) else Unavailable;
        Some(Act(Finished(o), updated, [AttestedOn(who.nonce, blob, Some(h), disk.Written?)], false))
  }

  /** The grant file is written first, by a write of its own; removing the entry
      afterwards is best effort. A grant write that fails after its rename has
      published the grant, yet answers an error and leaves the entry. */
  function PersistGrant(store: Store, h: nat, who: Handler, e: Approval, disk: Disk, grant: Disk): Option<Act> {
    match grant
    case FailedBeforeRename => Finish(store, Unavailable)
    case FailedAfterRename => Some(Act(Finished(Unavailable), store, [GrantedFor(who.nonce, h, false)], false))
    case Written =>
      if disk.FailedBeforeRename? || who.nonce !in store then
        Some(Act(Finished(Attested(None, e.expiresAt)), store, [GrantedFor(who.nonce, h, true)], false))
      else
        Some(Act(
          Finished(Attested(None, e.expiresAt)), store - {who.nonce},
          [GrantedFor(who.nonce, h, true), RemovedFrom({who.nonce}, Some(h), disk.Written?)], false))
  }

  function PersistReject(store: Store, h: nat, who: Handler, now: nat, disk: Disk): Option<Act> {
    if who.nonce !in store then Finish(store, AlreadyResolved(None))
    else if disk.FailedBeforeRename? then Finish(store, Unavailable)
    else
      Some(Act(
        Finished(if disk.Written? then WasRejected else Unavailable),
        store[who.nonce := RejectTombstone(store[who.nonce], now)],
        [RejectedOn(who.nonce, Some(h), disk.Written?)], false))
  }

  /** The reject path up to the writer: look, resolve, authorize, read the clock. */
  function ActInspect(store: Store, who: Handler, uid: Option<string>, clock: Option<nat>): Option<Act> {
    if !who.pc.RejectOpened? then None
    else
      match RejectLooksAt(store, who.nonce)
      case Err(o) => Finish(store, o)
      case Ok(e) =>
        match ResolveRequester(who.requester, uid)
        case None => Finish(store, Unavailable)
        case Some(r) =>
          if !Authorized(r.identity, e.uid, who.nonce, r.allowed) then Finish(store, UserMismatch)
          else if clock.None? then Finish(store, Unavailable)
          else Go(store, RejectReady(e, r.credential, clock.value))
  }

  /** A panic unwinds the handler, and poisons the mutex if it held it. */
  function ActPanic(store: Store, pc: Pc): Option<Act> {
    if pc.Over() then None
    else Some(Act(Crashed, store, if pc.HoldsWriter() then [Poisoned] else [], pc.HoldsWriter()))
  }

  /** What handler `h` does on event `e`; nothing where it is not at that point. */
  function HandlerAct(b: Binding, store: Store, poisoned: bool, h: nat, who: Handler, e: Event): Option<Act> {
    match e
    case OpenFails(_, busy) =>
      if who.pc.WaitsForStore() then Finish(store, if busy then Busy else Unavailable) else None
    case Open(_) => ActOpen(store, who.pc)
    case Validate(_, uid, clock) => ActValidate(store, who, uid, clock)
    case LoadKey(_, ok) => ActLoadKey(store, who.pc, ok)
    case LockWriter(_) => ActLockWriter(store, poisoned, who.pc)
    case Check(_, clock) => ActCheck(b, store, who, clock)
    case WriteRow(_, accepted, landed) => ActWriteRow(store, h, who, accepted, landed)
    case Persist(_, disk, grant) => ActPersist(store, h, who, disk, grant)
    case Inspect(_, uid, clock) => ActInspect(store, who, uid, clock)
    case Panic(_) => ActPanic(store, who.pc)
    case _ => None
  }

  /** A lock is taken only while free, and let go where the code lets go of it. */
  predicate CanHold(lock: Option<nat>, h: nat, holds: bool) {
    holds ==> lock.None? || lock == Some(h)
  }

  function Holder(lock: Option<nat>, h: nat, holds: bool): Option<nat> {
    if holds then Some(h) else if lock == Some(h) then None else lock
  }

  function StepHandler(b: Binding, s: State, h: nat, e: Event): Option<State> {
    if h >= |s.handlers| then None
    else
      var who := s.handlers[h];
      match HandlerAct(b, s.store, s.poisoned, h, who, e)
      case None => None
      case Some(act) =>
        if !CanHold(s.lock, h, act.pc.HoldsStore()) || !CanHold(s.writer, h, act.pc.HoldsWriter()) then None
        else
          Some(State(
            act.store,
            Holder(s.lock, h, act.pc.HoldsStore()),
            Holder(s.writer, h, act.pc.HoldsWriter()),
            s.poisoned || act.poisons,
            s.handlers[h := who.(pc := act.pc)],
            s.trace + act.marks))
  }

  /** Which marks an outside operation leaves. */
  function OutsideMarks(store: Store, op: OutsideOp): seq<Mark> {
    var after := OutsideResult(store, op);
    match op
    case Insert(n, e, now) =>
      var gone := RemovedFrom(store.Keys - Unexpired(store, now).Keys, None, true);
      if |Unexpired(store, now)| >= MAX_PENDING_APPROVALS then [gone]
      else if n in Unexpired(store, now) || !Pending(e) then []
      else [gone, InsertedAs(n, e.kind)]
    case CollectExpired(now) => [RemovedFrom(store.Keys - after.Keys, None, true)]
    case Remove(n) => if n in store then [RemovedFrom({n}, None, true)] else []
    case Spend(n, tx) => if n in store && TxHash(tx) then [SpentOn(n)] else []
    case AttestElsewhere(n, blob, now) =>
      if RecordOnStore(store, n, blob, now).Ok? then [AttestedOn(n, blob, None, true)] else []
    case RejectElsewhere(n, _) => if RejectLooksAt(store, n).Ok? then [RejectedOn(n, None, true)] else []
  }

  /** One step, or nothing where the event cannot happen. `ForeignPoison` is hypothetical:
      it stands for another holder of the writer's mutex that panics, and in the source
      only decisions hold it. */
  function Step(b: Binding, s: State, e: Event): Option<State> {
    match e
    case Begin(n, approve, req) =>
      Some(s.(handlers := s.handlers + [Handler(n, approve, req, if approve then ApproveOpening else RejectOpening)]))
    case ForeignPoison =>
      if s.writer.None? then Some(s.(poisoned := true, trace := s.trace + [Poisoned])) else None
    case Outside(op) =>
      if s.lock.None? then
        Some(s.(store := OutsideResult(s.store, op), trace := s.trace + OutsideMarks(s.store, op)))
      else None
    case _ => StepHandler(b, s, e.h, e)
  }

  /** The state after `events`, if every one of them could happen. */
  function Run(b: Binding, events: seq<Event>): Option<State> {
    if events == [] then Some(START)
    else
      match Run(b, events[..|events| - 1])
      case None => None
      case Some(s) => Step(b, s, events[|events| - 1])
  }
}
