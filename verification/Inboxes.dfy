/** The inbox's two decision operations as the imperative code they are: each
    opens the store, decides, writes its audit row and persists, in that order. */
module Inboxes {
  import opened Common
  import opened ChallengeStores
  import opened Approvals
  import opened Decisions
  import opened DecisionOutcomes
  import Hex

  datatype LogRow = LogRow(nonce: Nonce, approve: bool, credential: Option<string>)

  /** What the rest of the world answers during a rejection. */
  datatype RejectWorld = RejectWorld(
    opening: Opening, uid: Option<string>, clock: Option<nat>, accepted: bool, landed: bool, disk: Disk)

  /** The same for an approval; `gap` is what other processes do to the store
      while the approval does not hold its lock. */
  datatype ApproveWorld = ApproveWorld(
    opening: Opening, uid: Option<string>, clock: Option<nat>, keyLoads: bool, gap: seq<OutsideOp>,
    reopening: Opening, laterClock: Option<nat>, accepted: bool, landed: bool, disk: Disk, grant: Disk)

  function Afterwards(store: Store, ops: seq<OutsideOp>): Store {
    if ops == [] then store else OutsideResult(Afterwards(store, ops[..|ops| - 1]), ops[|ops| - 1])
  }

  // ------------------------------------------------------------- what is decided

  /** A rejection gets as far as its row. */
  predicate RejectReachesRow(store: Store, poisoned: bool, nonce: Nonce, requester: Requester, w: RejectWorld) {
    && w.opening.Opens? && nonce in store && Pending(store[nonce])
    && MayDecide(requester, w.uid, nonce, store[nonce].uid)
    && w.clock.Some? && !poisoned
  }

  /** An approval gets to look at the store: it opens, and the requester is known. */
  predicate Looks(requester: Requester, w: ApproveWorld) {
    w.opening.Opens? && (requester.Local? ==> w.uid.Some?)
  }

  /** Its first look finds an entry that has not expired. */
  predicate FindsUnexpired(store: Store, nonce: Nonce, requester: Requester, w: ApproveWorld) {
    Looks(requester, w) && nonce in store && w.clock.Some? && w.clock.value < store[nonce].expiresAt
  }

  /** An approval passes its first look at the entry and gets its key. */
  predicate ApproveReachesGap(store: Store, nonce: Nonce, requester: Requester, w: ApproveWorld) {
    && FindsUnexpired(store, nonce, requester, w) && store[nonce].blob.None?
    && MayDecide(requester, w.uid, nonce, store[nonce].uid)
    && w.keyLoads
  }

  /** Kinds that carry something this inbox can attest. */
  predicate Attestable(kind: Kind, b: Binding) {
    || kind.ToolsetFirstInvokeGate? || kind.TrustlineClawbackOptIn?
    || (kind.RuleProposalSimulated? && kind.chainId == b.chainId)
    || (kind.MppChargeSimulated? && kind.profile == b.profile && kind.chainId == b.chainId)
    || ((kind.PaymentSimulated? || kind.TrustlineSimulated? || kind.ClaimSimulated?)
        && Hex.DecodeDigest(kind.envelopeHex).Some?)
  }

  /** An approval gets as far as its row: after the gap the entry is still the
      one that was looked at, undecided and unexpired. */
  ghost predicate ApproveReachesRow(
      b: Binding, store: Store, poisoned: bool, nonce: Nonce, requester: Requester, w: ApproveWorld)
  {
    && ApproveReachesGap(store, nonce, requester, w)
    && w.reopening.Opens? && !poisoned && ReadyToAttest(b, Afterwards(store, w.gap), nonce, store[nonce], w)
  }

  ghost function RowIf(written: bool, nonce: Nonce, approve: bool, requester: Requester): seq<LogRow> {
    if written then [LogRow(nonce, approve, CredentialOf(requester))] else []
  }

  ghost function RejectRows(store: Store, poisoned: bool, nonce: Nonce, requester: Requester, w: RejectWorld): seq<LogRow> {
    RowIf(RejectReachesRow(store, poisoned, nonce, requester, w) && (w.accepted || w.landed), nonce, false, requester)
  }

  ghost function ApproveRows(
      b: Binding, store: Store, poisoned: bool, nonce: Nonce, requester: Requester, w: ApproveWorld): seq<LogRow>
  {
    RowIf(ApproveReachesRow(b, store, poisoned, nonce, requester, w) && (w.accepted || w.landed), nonce, true, requester)
  }

  /** The grants an approval publishes, whatever it then answers. */
  ghost function ApproveGrants(
      b: Binding, store: Store, poisoned: bool, nonce: Nonce, requester: Requester, w: ApproveWorld): seq<Nonce>
  {
    if ApproveReachesRow(b, store, poisoned, nonce, requester, w) && store[nonce].kind.ToolsetFirstInvokeGate?
       && w.accepted && !w.grant.FailedBeforeRename? then [nonce] else []
  }

  /** When a rejection takes effect, what it writes, and what else it answers. */
  ghost predicate RejectContract(
      store: Store, poisoned: bool, nonce: Nonce, requester: Requester, w: RejectWorld, o: Outcome, after: Store)
  {
    var reached := RejectReachesRow(store, poisoned, nonce, requester, w);
    && (o.WasRejected? <==> reached && w.accepted && w.disk.Written?)
    && (if reached && w.accepted && !w.disk.FailedBeforeRename?
        then after == store[nonce := RejectTombstone(store[nonce], w.clock.value)] else after == store)
    && (o.AlreadyResolved? <==> w.opening.Opens? && (nonce in store ==> !Pending(store[nonce])))
    && (o.AlreadyResolved? ==>
          o.attestation == if nonce in store && !store[nonce].kind.Tombstone() then store[nonce].blob else None)
    && (o.UserMismatch? <==>
          && w.opening.Opens? && nonce in store && Pending(store[nonce])
          && (requester.Local? ==> w.uid.Some?) && !MayDecide(requester, w.uid, nonce, store[nonce].uid))
    && (o.Busy? <==> w.opening.StaysLocked?)
    && (o.WasRejected? || o.AlreadyResolved? || o.UserMismatch? || o.Busy? || o.Unavailable?)
  }

  /** What an approval answers that does not get past its first look. */
  ghost predicate LookContract(store: Store, nonce: Nonce, requester: Requester, w: ApproveWorld, o: Outcome) {
    && (o.Busy? <==> w.opening.StaysLocked?)
    && (o.NotFound? <==> Looks(requester, w) && nonce !in store)
    && (o.HasExpired? <==> Looks(requester, w) && nonce in store && w.clock.Some? && store[nonce].expiresAt <= w.clock.value)
    && (o.AlreadyResolved? <==> FindsUnexpired(store, nonce, requester, w) && store[nonce].blob.Some?)
    && (o.AlreadyResolved? ==> o.attestation == store[nonce].blob)
    && (o.UserMismatch? <==>
          && FindsUnexpired(store, nonce, requester, w) && store[nonce].blob.None?
          && !MayDecide(requester, w.uid, nonce, store[nonce].uid))
    && (o.Busy? || o.NotFound? || o.HasExpired? || o.AlreadyResolved? || o.UserMismatch? || o.Unavailable?)
  }

  /** When an approval takes effect, what it writes, and what else it answers. Other
      processes' changes in the gap stand whatever the approval then does. */
  ghost predicate ApproveContract(
      b: Binding, store: Store, poisoned: bool, nonce: Nonce, requester: Requester, w: ApproveWorld,
      o: Outcome, after: Store)
  {
    if !ApproveReachesGap(store, nonce, requester, w) then
      LookContract(store, nonce, requester, w, o) && after == store
    else if !w.reopening.Opens? || poisoned then
      o == (if w.reopening.StaysLocked? then Busy else Unavailable) && after == Afterwards(store, w.gap)
    else PersistContract(b, Afterwards(store, w.gap), nonce, store[nonce], w, o, after)
  }

  /** The attestation this inbox makes of an entry. */
  function BlobFor(b: Binding, nonce: Nonce, e: Approval): Blob {
    Attestation(b, nonce, SubjectOf(e.kind), e.uid)
  }

  ghost predicate SameEntry(now: Store, nonce: Nonce, entry: Approval) {
    nonce in now && now[nonce].kind == entry.kind && now[nonce].uid == entry.uid
  }

  /** A rule proposal is for this chain, a charge for this profile and chain; any other
      kind is at home anywhere. */
  ghost predicate Belongs(kind: Kind, b: Binding) {
    && (kind.RuleProposalSimulated? ==> kind.chainId == b.chainId)
    && (kind.MppChargeSimulated? ==> kind.profile == b.profile && kind.chainId == b.chainId)
  }

  /** The second look happens: the request belongs here and the clock can be read. */
  ghost predicate LooksAgain(b: Binding, entry: Approval, w: ApproveWorld) {
    Belongs(entry.kind, b) && w.laterClock.Some?
  }

  /** It finds the same entry, not expired. */
  ghost predicate FindsAgain(b: Binding, now: Store, nonce: Nonce, entry: Approval, w: ApproveWorld) {
    LooksAgain(b, entry, w) && SameEntry(now, nonce, entry) && w.laterClock.value < now[nonce].expiresAt
  }

  ghost predicate ReadyToAttest(b: Binding, now: Store, nonce: Nonce, entry: Approval, w: ApproveWorld) {
    FindsAgain(b, now, nonce, entry, w) && Pending(now[nonce]) && Attestable(entry.kind, b)
  }

  /** The store after the writes of the part under the re-opened lock. */
  ghost predicate PersistedAs(
      b: Binding, before: Store, nonce: Nonce, entry: Approval, w: ApproveWorld, after: Store)
  {
    if !ReadyToAttest(b, before, nonce, entry, w) || !w.accepted || w.disk.FailedBeforeRename? then after == before
    else if !entry.kind.ToolsetFirstInvokeGate? then
      after == before[nonce := before[nonce].(blob := Some(BlobFor(b, nonce, entry)))]
    else if w.grant.Written? then after == before - {nonce}
    else after == before
  }

  /** The same for the part under the re-opened lock, answer by answer. */
  ghost predicate PersistContract(
      b: Binding, before: Store, nonce: Nonce, entry: Approval, w: ApproveWorld, o: Outcome, after: Store)
  {
    var kind := entry.kind;
    && PersistedAs(b, before, nonce, entry, w, after)
    && (o.Attested? <==>
          && ReadyToAttest(b, before, nonce, entry, w) && w.accepted
          && (if kind.ToolsetFirstInvokeGate? then w.grant else w.disk).Written?)
    && (o.Attested? ==>
          && o.expiresAt == entry.expiresAt
          && o.attestation == if kind.ToolsetFirstInvokeGate? || kind.TrustlineClawbackOptIn? then None
                              else Some(BlobFor(b, nonce, entry)))
    && (o.BindingMismatch? <==> !Belongs(kind, b))
    && (o.NotFound? <==> LooksAgain(b, entry, w) && nonce !in before)
    && (o.HasExpired? <==>
          LooksAgain(b, entry, w) && SameEntry(before, nonce, entry) && before[nonce].expiresAt <= w.laterClock.value)
    && (o.AlreadyResolved? <==>
          || (LooksAgain(b, entry, w) && nonce in before && !SameEntry(before, nonce, entry) && before[nonce].kind.Tombstone())
          || (FindsAgain(b, before, nonce, entry, w) && !Pending(before[nonce])))
    && (o.AlreadyResolved? ==> o.attestation == if SameEntry(before, nonce, entry) then before[nonce].blob else None)
    && (o.WrongKind? <==>
          || (LooksAgain(b, entry, w) && nonce in before && !SameEntry(before, nonce, entry) && !before[nonce].kind.Tombstone())
          || (FindsAgain(b, before, nonce, entry, w) && Pending(before[nonce]) && (kind.SignWithPasskey? || kind.RegisterPasskey?)))
    && !o.WasRejected? && !o.Busy? && !o.UserMismatch?
  }

  // ----------------------------------------------------------- contracts are exact

  /** The contract leaves nothing open: it fixes the answer, payload included, and
      the store. */
  lemma RejectContractIsExact(
      store: Store, poisoned: bool, nonce: Nonce, requester: Requester, w: RejectWorld,
      o1: Outcome, after1: Store, o2: Outcome, after2: Store)
    requires RejectContract(store, poisoned, nonce, requester, w, o1, after1)
    requires RejectContract(store, poisoned, nonce, requester, w, o2, after2)
    ensures o1 == o2 && after1 == after2
  {
  }

  lemma PersistContractIsExact(
      b: Binding, before: Store, nonce: Nonce, entry: Approval, w: ApproveWorld,
      o1: Outcome, after1: Store, o2: Outcome, after2: Store)
    requires PersistContract(b, before, nonce, entry, w, o1, after1)
    requires PersistContract(b, before, nonce, entry, w, o2, after2)
    ensures o1 == o2 && after1 == after2
  {
  }

  lemma ApproveContractIsExact(
      b: Binding, store: Store, poisoned: bool, nonce: Nonce, requester: Requester, w: ApproveWorld,
      o1: Outcome, after1: Store, o2: Outcome, after2: Store)
    requires ApproveContract(b, store, poisoned, nonce, requester, w, o1, after1)
    requires ApproveContract(b, store, poisoned, nonce, requester, w, o2, after2)
    ensures o1 == o2 && after1 == after2
  {
    if ApproveReachesGap(store, nonce, requester, w) && w.reopening.Opens? && !poisoned {
      PersistContractIsExact(b, Afterwards(store, w.gap), nonce, store[nonce], w, o1, after1, o2, after2);
    }
  }

  /** What the clock decides, for every entry of every kind: an approval that attests
      found the entry unexpired at both looks, and one is told of expiry exactly if a look
      it got to found the entry's time reached. */
  lemma ExpiryDecides(
      b: Binding, store: Store, poisoned: bool, nonce: Nonce, requester: Requester, w: ApproveWorld, o: Outcome, after: Store)
    requires ApproveContract(b, store, poisoned, nonce, requester, w, o, after)
    ensures o.Attested? ==>
              && nonce in store && w.clock.Some? && w.clock.value < store[nonce].expiresAt
              && var later := Afterwards(store, w.gap);
                 nonce in later && w.laterClock.Some? && w.laterClock.value < later[nonce].expiresAt
    ensures o.HasExpired? <==>
              || (Looks(requester, w) && nonce in store && w.clock.Some? && store[nonce].expiresAt <= w.clock.value)
              || (&& ApproveReachesGap(store, nonce, requester, w) && w.reopening.Opens? && !poisoned
                  && Belongs(store[nonce].kind, b) && w.laterClock.Some?
                  && var later := Afterwards(store, w.gap);
                     SameEntry(later, nonce, store[nonce]) && later[nonce].expiresAt <= w.laterClock.value)
  {
  }

  class Inbox {
    const binding: Binding
    var store: Store
    var log: seq<LogRow>
    var grants: seq<Nonce>
    var poisoned: bool

    constructor (binding: Binding, store: Store)
      ensures this.binding == binding && this.store == store && log == [] && grants == [] && !poisoned
    {
      this.binding, this.store := binding, store;
      log, grants, poisoned := [], [], false;
    }

    method ApplyReject(nonce: Nonce, requester: Requester, w: RejectWorld) returns (o: Outcome)
      modifies `store, `log
      ensures RejectContract(old(store), poisoned, nonce, requester, w, o, store)
      ensures log == old(log) + RejectRows(old(store), poisoned, nonce, requester, w)
    {
      if !w.opening.Opens? {
        return if w.opening.StaysLocked? then Busy else Unavailable;
      }
      var entry := if nonce in store then Some(store[nonce]) else None;
      var already, attestation := true, None;
      match entry {
        case None =>
        case Some(e) =>
          if e.kind.Tombstone() {
          } else if e.blob.Some? {
            attestation := e.blob;
          } else {
            already := false;
          }
      }
      if already {
        return AlreadyResolved(attestation);
      }
      var resolved := ResolveRequester(requester, w.uid);
      if resolved.None? {
        return Unavailable;
      }
      if !Authorized(resolved.value.identity, entry.value.uid, nonce, resolved.value.allowed) {
        return UserMismatch;
      }
      if w.clock.None? || poisoned {
        return Unavailable;
      }
      if w.accepted || w.landed {
        log := log + [LogRow(nonce, false, resolved.value.credential)];
      }
      if !w.accepted || w.disk.FailedBeforeRename? {
        return Unavailable;
      }
      store := store[nonce := RejectTombstone(store[nonce], w.clock.value)];
      o := if w.disk.Written? then WasRejected else Unavailable;
    }

    method ApplyApprove(nonce: Nonce, requester: Requester, w: ApproveWorld) returns (o: Outcome)
      modifies `store, `log, `grants
      ensures ApproveContract(binding, old(store), poisoned, nonce, requester, w, o, store)
      ensures log == old(log) + ApproveRows(binding, old(store), poisoned, nonce, requester, w)
      ensures grants == old(grants) + ApproveGrants(binding, old(store), poisoned, nonce, requester, w)
    {
      if !w.opening.Opens? {
        return if w.opening.StaysLocked? then Busy else Unavailable;
      }
      var resolved := ResolveRequester(requester, w.uid);
      if resolved.None? {
        return Unavailable;
      }
      var entry := LoadAndValidate(store, nonce, resolved.value.identity, resolved.value.allowed, w.clock);
      if entry.Err? {
        return ValidateOutcome(store, nonce, entry.error);
      }
      if !w.keyLoads {
        return Unavailable;
      }
      store := Afterwards(store, w.gap);
      if !w.reopening.Opens? {
        return if w.reopening.StaysLocked? then Busy else Unavailable;
      }
      if poisoned {
        return Unavailable;
      }
      o := AttestAndPersist(nonce, entry.value, requester, resolved.value.credential, w);
    }

    /** The part of an approval that holds both the store and the writer. */
    method AttestAndPersist(
        nonce: Nonce, entry: Approval, requester: Requester, credential: Option<string>, w: ApproveWorld)
        returns (o: Outcome)
      modifies `store, `log, `grants
      ensures PersistContract(binding, old(store), nonce, entry, w, o, store)
      ensures var ready := ReadyToAttest(binding, old(store), nonce, entry, w);
              && log == old(log) + (if ready && (w.accepted || w.landed) then [LogRow(nonce, true, credential)] else [])
              && grants == old(grants) + (if ready && entry.kind.ToolsetFirstInvokeGate? && w.accepted
                                             && !w.grant.FailedBeforeRename? then [nonce] else [])
    {
      var plan := PrepareAttest(store, nonce, entry, binding, w.laterClock);
      if plan.Err? {
        return AttestOutcome(store, nonce, plan.error);
      }
      if w.accepted || w.landed {
        log := log + [LogRow(nonce, true, credential)];
      }
      if !w.accepted {
        return Unavailable;
      }
      match plan.value {
        case GrantAndRemove =>
          if w.grant.FailedBeforeRename? {
            return Unavailable;
          }
          grants := grants + [nonce];
          if w.grant.FailedAfterRename? {
            return Unavailable;
          }
          if !w.disk.FailedBeforeRename? {
            store := store - {nonce};
          }
          o := Attested(None, entry.expiresAt);
        case RecordBlob(blob, surfaced) =>
          // The store checks again under the same lock, and so cannot refuse.
          RecordAfterPrepareSucceeds(store, nonce, entry, binding, w.laterClock.value);
          var recorded := RecordOnStore(store, nonce, blob, w.laterClock.value);
          if w.disk.FailedBeforeRename? {
            return Unavailable;
          }
          store := recorded.value;
          o := if w.disk.Written? then Attested(if surfaced then Some(blob) else None, entry.expiresAt) else Unavailable;
      }
    }
  }
}
