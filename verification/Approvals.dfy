/** Pending approvals, the operations of their store, and the checks of the
    attest path. Every function here is one critical section of the source: it
    runs while the store's file lock is held. */
module Approvals {
  import opened Common
  import opened ChallengeStores
  import Hex

  const ZERO_DIGEST: seq<Byte> := [
    0, 0, 0, 0, 0, 0, 0, 0, 0, 0, 0, 0, 0, 0, 0, 0,
    0, 0, 0, 0, 0, 0, 0, 0, 0, 0, 0, 0, 0, 0, 0, 0]

  type Digest = d: seq<Byte> | |d| == 32 witness ZERO_DIGEST
  const MAX_PENDING_APPROVALS: nat := 4096
  const REJECT_TOMBSTONE_TTL_MS: nat := 3_600_000

  // ----------------------------------------------------------------------- data

  /** What an entry asks consent for. `terms` stands for the remaining displayed
      fields, which take part only in whole-value comparison. */
  datatype Kind =
    | PaymentSimulated(envelopeHex: string, terms: string)
    | TrustlineSimulated(envelopeHex: string, terms: string)
    | ClaimSimulated(envelopeHex: string, terms: string)
    | RuleProposalSimulated(proposal: Digest, chainId: string, terms: string)
    | MppChargeSimulated(artifact: Digest, profile: string, chainId: string, terms: string)
    | ToolsetFirstInvokeGate(terms: string)
    | TrustlineClawbackOptIn(network: string, code: string, issuer: string)
    | SignWithPasskey(terms: string)
    | RegisterPasskey(terms: string)
    | Rejected(originalKind: string)
    | Consumed(originalKind: string, txHash: string)
  {
    predicate Tombstone() {
      Rejected? || Consumed?
    }

    function Name(): string {
      match this
      case PaymentSimulated(_, _) => "PaymentSimulated"
      case TrustlineSimulated(_, _) => "TrustlineSimulated"
      case ClaimSimulated(_, _) => "ClaimSimulated"
      case RuleProposalSimulated(_, _, _) => "RuleProposalSimulated"
      case MppChargeSimulated(_, _, _, _) => "MppChargeSimulated"
      case ToolsetFirstInvokeGate(_) => "ToolsetFirstInvokeGate"
      case TrustlineClawbackOptIn(_, _, _) => "TrustlineClawbackOptIn"
      case SignWithPasskey(_) => "SignWithPasskey"
      case RegisterPasskey(_) => "RegisterPasskey"
      case Rejected(_) => "Rejected"
      case Consumed(_, _) => "Consumed"
    }
  }

  /** What the attestation is made over. */
  datatype Subject = OfDigest(digest: Digest) | OfOptIn(network: string, code: string, issuer: string)

  datatype Binding = Binding(profile: string, chainId: string)

  /** An attestation: the keyed hash of these inputs, kept symbolic. A blob that
      some other process wrote is only known by its name. */
  datatype Blob =
    | Attestation(binding: Binding, nonce: Nonce, subject: Subject, uid: string)
    | ForeignBlob(name: string)

  datatype Approval = Approval(uid: string, expiresAt: nat, kind: Kind, blob: Option<Blob>)

  type Store = map<Nonce, Approval>

  predicate Expired(e: Approval, now: nat) {
    e.expiresAt <= now
  }

  /** Still undecided: no tombstone and no attestation. */
  predicate Pending(e: Approval) {
    !e.kind.Tombstone() && e.blob.None?
  }

  // ------------------------------------------------------------------ identities

  datatype Identity = OsUid(uid: string) | Passkey(credential: string, boundNonce: Nonce)

  predicate Authorized(who: Identity, entryUid: string, entryNonce: Nonce, allowed: seq<string>) {
    match who
    case OsUid(uid) => uid == entryUid
    case Passkey(credential, bound) => credential != "" && credential in allowed && bound == entryNonce
  }

  datatype Requester = Local | Remote(identity: Identity, allowed: seq<string>)

  /** Which requester may decide an entry of `owner`, said by cases; `uid` is the
      process user. */
  predicate MayDecide(requester: Requester, uid: Option<string>, nonce: Nonce, owner: string) {
    match requester
    case Local => uid == Some(owner)
    case Remote(OsUid(u), _) => u == owner
    case Remote(Passkey(c, bound), allowed) => c != "" && c in allowed && bound == nonce
  }

  /** Who decides, and the operator credential its audit row carries. */
  datatype Resolved = Resolved(identity: Identity, allowed: seq<string>, credential: Option<string>)

  /** `uid` is the process user, unavailable when it cannot be derived. */
  function ResolveRequester(r: Requester, uid: Option<string>): Option<Resolved> {
    match r
    case Local => if uid.Some? then Some(Resolved(OsUid(uid.value), [], None)) else None
    case Remote(id, allowed) =>
      Some(Resolved(id, allowed, Some(if id.Passkey? then id.credential else "non-passkey-identity")))
  }

  // -------------------------------------------------------------------- outcomes

  datatype Outcome =
    | Attested(attestation: Option<Blob>, expiresAt: nat)
    | WasRejected
    | AlreadyResolved(attestation: Option<Blob>)
    | HasExpired
    | Busy
    | Unavailable
    | UserMismatch
    | BindingMismatch
    | NotFound
    | WrongKind

  /** The refusal codes of the core approval layer. */
  datatype Code =
    | CodeNotFound | CodeExpired | CodeAlreadyAttested | CodeUserMismatch | CodeClock
    | CodeBindingMismatch | CodeWrongKind | CodeRejected | CodeConsumed | CodeDigestHex

  // ----------------------------------------------------------------- first phase

  /** The checks made before the key is loaded. A clock that cannot be read is `None`. */
  function LoadAndValidate(
      store: Store, nonce: Nonce, who: Identity, allowed: seq<string>, clock: Option<nat>): Result<Approval, Code>
  {
    if nonce !in store then Err(CodeNotFound)
    else
      var e := store[nonce];
      if clock.None? then Err(CodeClock)
      else if Expired(e, clock.value) then Err(CodeExpired)
      else if e.blob.Some? then Err(CodeAlreadyAttested)
      else if !Authorized(who, e.uid, nonce, allowed) then Err(CodeUserMismatch)
      else Ok(e)
  }

  function StoredBlob(store: Store, nonce: Nonce): Option<Blob> {
    if nonce in store then store[nonce].blob else None
  }

  function ValidateOutcome(store: Store, nonce: Nonce, code: Code): Outcome {
    match code
    case CodeUserMismatch => UserMismatch
    case CodeExpired => HasExpired
    case CodeNotFound => NotFound
    case CodeAlreadyAttested => AlreadyResolved(StoredBlob(store, nonce))
    case _ => Unavailable
  }

  // ---------------------------------------------------------------- second phase

  /** What an approval will write once its row is durable. */
  datatype Plan = RecordBlob(blob: Blob, surfaced: bool) | GrantAndRemove

  predicate BindingMatches(kind: Kind, b: Binding) {
    match kind
    case RuleProposalSimulated(_, chainId, _) => chainId == b.chainId
    case MppChargeSimulated(_, profile, chainId, _) => profile == b.profile && chainId == b.chainId
    case _ => true
  }

  /** Under the re-opened lock: is this still the entry that was validated? */
  function StillPending(store: Store, nonce: Nonce, validated: Approval, now: nat): Result<(), Code> {
    if nonce !in store then Err(CodeNotFound)
    else
      var current := store[nonce];
      if current.kind != validated.kind || current.uid != validated.uid then
        (if current.kind.Rejected? then Err(CodeRejected)
         else if current.kind.Consumed? then Err(CodeConsumed)
         else Err(CodeWrongKind))
      else if Expired(current, now) then Err(CodeExpired)
      else if current.blob.Some? then Err(CodeAlreadyAttested)
      else Ok(())
  }

  /** The per-kind part of the attest path, up to the row. */
  function PlanFor(nonce: Nonce, e: Approval, b: Binding): Result<Plan, Code> {
    match e.kind
    case PaymentSimulated(hex, _) => EnvelopePlan(nonce, e, b, hex)
    case TrustlineSimulated(hex, _) => EnvelopePlan(nonce, e, b, hex)
    case ClaimSimulated(hex, _) => EnvelopePlan(nonce, e, b, hex)
    case ToolsetFirstInvokeGate(_) => Ok(GrantAndRemove)
    case TrustlineClawbackOptIn(network, code, issuer) =>
      Ok(RecordBlob(Attestation(b, nonce, OfOptIn(network, code, issuer), e.uid), false))
    case RuleProposalSimulated(proposal, _, _) =>
      Ok(RecordBlob(Attestation(b, nonce, OfDigest(proposal), e.uid), true))
    case MppChargeSimulated(artifact, _, _, _) =>
      Ok(RecordBlob(Attestation(b, nonce, OfDigest(artifact), e.uid), true))
    case Rejected(_) => Err(CodeRejected)
    case Consumed(_, _) => Err(CodeConsumed)
    case _ => Err(CodeWrongKind)
  }

  function EnvelopePlan(nonce: Nonce, e: Approval, b: Binding, hex: string): Result<Plan, Code> {
    match Hex.DecodeDigest(hex)
    case None => Err(CodeDigestHex)
    case Some(d) => Ok(RecordBlob(Attestation(b, nonce, OfDigest(d), e.uid), true))
  }

  /** Everything `attest_and_persist` checks before it writes the row. */
  function PrepareAttest(store: Store, nonce: Nonce, validated: Approval, b: Binding, clock: Option<nat>): Result<Plan, Code> {
    if !BindingMatches(validated.kind, b) then Err(CodeBindingMismatch)
    else if clock.None? then Err(CodeClock)
    else match StillPending(store, nonce, validated, clock.value)
      case Err(c) => Err(c)
      case Ok(_) => PlanFor(nonce, validated, b)
  }

  /** Which kinds each `record_*` operation of the store accepts. */
  predicate Recordable(kind: Kind) {
    kind.PaymentSimulated? || kind.ClaimSimulated? || kind.TrustlineSimulated? || kind.MppChargeSimulated?
    || kind.TrustlineClawbackOptIn? || kind.RuleProposalSimulated?
  }

  /** The store's own `record_*` operations, with their own re-checks. */
  function RecordOnStore(store: Store, nonce: Nonce, blob: Blob, now: nat): Result<Store, Code> {
    if nonce !in store then Err(CodeNotFound)
    else
      var e := store[nonce];
      if Expired(e, now) then Err(CodeExpired)
      else if !Recordable(e.kind) then Err(CodeWrongKind)
      else if e.blob.Some? then Err(CodeAlreadyAttested)
      else Ok(store[nonce := e.(blob := Some(blob))])
  }

  function AttestOutcome(store: Store, nonce: Nonce, code: Code): Outcome {
    match code
    case CodeBindingMismatch => BindingMismatch
    case CodeWrongKind => WrongKind
    case CodeNotFound => NotFound
    case CodeExpired => HasExpired
    case CodeRejected => AlreadyResolved(None)
    case CodeConsumed => AlreadyResolved(None)
    case CodeAlreadyAttested => AlreadyResolved(StoredBlob(store, nonce))
    case _ => Unavailable
  }

  /** The same for a refusal of the store's own: a kind it does not record is not told
      apart from a failed write. */
  function RecordOutcome(store: Store, nonce: Nonce, code: Code): Outcome {
    if code.CodeWrongKind? then Unavailable else AttestOutcome(store, nonce, code)
  }

  // ---------------------------------------------------------------------- reject

  /** The reject path's view of the entry before anything is decided. */
  function RejectLooksAt(store: Store, nonce: Nonce): Result<Approval, Outcome> {
    if nonce !in store then Err(AlreadyResolved(None))
    else
      var e := store[nonce];
      if e.kind.Tombstone() then Err(AlreadyResolved(None))
      else if e.blob.Some? then Err(AlreadyResolved(e.blob))
      else Ok(e)
  }

  function SaturatingAdd(a: nat, b: nat): nat {
    if a + b > U64_MAX then U64_MAX else a + b
  }

  function RejectTombstone(e: Approval, now: nat): Approval {
    Approval(e.uid, SaturatingAdd(now, REJECT_TOMBSTONE_TTL_MS), Rejected(e.kind.Name()), None)
  }

  /** A tombstone keeps the owner, names the kind it replaced, holds no attestation,
      and is not collected for an hour, or ever at the end of the clock's range. */
  lemma TombstoneLastsAnHour(e: Approval, now: nat, t: nat)
    requires now <= U64_MAX && t <= U64_MAX
    ensures var r := RejectTombstone(e, now);
            && r.uid == e.uid && r.kind == Rejected(e.kind.Name()) && !Pending(r) && r.blob.None?
            && (r.expiresAt <= t <==> t >= now + 3_600_000 || (t == U64_MAX && now + 3_600_000 > U64_MAX))
  {
  }

  // -------------------------------------------------------------- other processes

  /** Store operations of other processes, each under the file lock. */
  datatype OutsideOp =
    | Insert(nonce: Nonce, entry: Approval, now: nat)
    | CollectExpired(now: nat)
    | Remove(nonce: Nonce)
    | Spend(nonce: Nonce, txHash: string)
    | AttestElsewhere(nonce: Nonce, blob: Blob, now: nat)
    | RejectElsewhere(nonce: Nonce, now: nat)

  /** Sixty-four lowercase hex digits. */
  predicate TxHash(tx: string) {
    |tx| == 64 && Hex.AllHex(tx) && Hex.Lower(tx) == tx
  }

  function Unexpired(store: Store, now: nat): Store {
    map n | n in store && !Expired(store[n], now) :: store[n]
  }

  /** The store after the operation; unchanged where the operation refuses. A
      new entry is undecided; another surface attests or rejects only what is
      pending, and a commit spends whatever is there, spent or not. */
  function OutsideResult(store: Store, op: OutsideOp): Store {
    match op
    case Insert(n, e, now) =>
      var kept := Unexpired(store, now);
      if |kept| >= MAX_PENDING_APPROVALS then kept
      else if n in kept || !Pending(e) then store
      else kept[n := e]
    case CollectExpired(now) => Unexpired(store, now)
    case Remove(n) => store - {n}
    case Spend(n, tx) =>
      if n in store && TxHash(tx) then
        store[n := store[n].(kind := Consumed(store[n].kind.Name(), tx))]
      else store
    case AttestElsewhere(n, blob, now) =>
      (match RecordOnStore(store, n, blob, now)
       case Ok(s) => s
       case Err(_) => store)
    case RejectElsewhere(n, now) =>
      (match RejectLooksAt(store, n)
       case Ok(e) => store[n := RejectTombstone(e, now)]
       case Err(_) => store)
  }

  // ------------------------------------------------------- action-challenge digest

  /** The digest an action challenge binds, by kind; all zero where the kind
      carries none or its hex does not decode. */
  function EntryDigest(kind: Kind): Digest {
    match kind
    case PaymentSimulated(hex, _) => DigestOrZero(hex)
    case TrustlineSimulated(hex, _) => DigestOrZero(hex)
    case ClaimSimulated(hex, _) => DigestOrZero(hex)
    case RuleProposalSimulated(proposal, _, _) => proposal
    case MppChargeSimulated(artifact, _, _, _) => artifact
    case _ => ZERO_DIGEST
  }

  /** What an attestation of an entry is made over, by kind. */
  function SubjectOf(kind: Kind): Subject {
    match kind
    case TrustlineClawbackOptIn(network, code, issuer) => OfOptIn(network, code, issuer)
    case _ => OfDigest(EntryDigest(kind))
  }

  function DigestOrZero(hex: string): Digest {
    match Hex.DecodeDigest(hex)
    case Some(d) => d
    case None => ZERO_DIGEST
  }

  /** Whatever is attested is the entry's own subject: the digest the challenge was
      bound to, or the opt-in's fields. */
  lemma AttestedDigestIsChallengeDigest(nonce: Nonce, e: Approval, b: Binding)
    requires PlanFor(nonce, e, b).Ok? && PlanFor(nonce, e, b).value.RecordBlob?
    ensures PlanFor(nonce, e, b).value.blob == Attestation(b, nonce, SubjectOf(e.kind), e.uid)
    ensures !e.kind.TrustlineClawbackOptIn? ==> SubjectOf(e.kind) == OfDigest(EntryDigest(e.kind))
  {
  }

  /** A plan exists only for an entry that is neither tombstone nor passkey kind,
      and a recording plan only for a kind the store will record. */
  lemma PlansAreForLiveKinds(nonce: Nonce, e: Approval, b: Binding)
    requires PlanFor(nonce, e, b).Ok?
    ensures !e.kind.Tombstone()
    ensures PlanFor(nonce, e, b).value.RecordBlob? <==> Recordable(e.kind)
    ensures PlanFor(nonce, e, b).value.GrantAndRemove? <==> e.kind.ToolsetFirstInvokeGate?
  {
  }

  /** Nothing changes between the re-check and the write while the lock is held,
      so the store's own re-checks can never refuse. */
  lemma RecordAfterPrepareSucceeds(store: Store, nonce: Nonce, validated: Approval, b: Binding, now: nat)
    requires PrepareAttest(store, nonce, validated, b, Some(now)).Ok?
    requires PrepareAttest(store, nonce, validated, b, Some(now)).value.RecordBlob?
    ensures var blob := PrepareAttest(store, nonce, validated, b, Some(now)).value.blob;
            RecordOnStore(store, nonce, blob, now) == Ok(store[nonce := store[nonce].(blob := Some(blob))])
  {
  }

  // ------------------------------------------------------- what the store does, exactly

  /** Every kind goes by its own name, which its tombstones keep. */
  lemma KindNamesExact(k: Kind)
    ensures k.PaymentSimulated? <==> k.Name() == "PaymentSimulated"
    ensures k.TrustlineSimulated? <==> k.Name() == "TrustlineSimulated"
    ensures k.ClaimSimulated? <==> k.Name() == "ClaimSimulated"
    ensures k.RuleProposalSimulated? <==> k.Name() == "RuleProposalSimulated"
    ensures k.MppChargeSimulated? <==> k.Name() == "MppChargeSimulated"
    ensures k.ToolsetFirstInvokeGate? <==> k.Name() == "ToolsetFirstInvokeGate"
    ensures k.TrustlineClawbackOptIn? <==> k.Name() == "TrustlineClawbackOptIn"
    ensures k.SignWithPasskey? <==> k.Name() == "SignWithPasskey"
    ensures k.RegisterPasskey? <==> k.Name() == "RegisterPasskey"
    ensures k.Rejected? <==> k.Name() == "Rejected"
    ensures k.Consumed? <==> k.Name() == "Consumed"
  {
    var name := k.Name();
    assert |"PaymentSimulated"| == 16 && |"ClaimSimulated"| == 14 && |"RuleProposalSimulated"| == 21;
    assert |"TrustlineSimulated"| == |"MppChargeSimulated"| == 18 && "TrustlineSimulated"[0] == 'T' && "MppChargeSimulated"[0] == 'M';
    assert |"ToolsetFirstInvokeGate"| == |"TrustlineClawbackOptIn"| == 22;
    assert "ToolsetFirstInvokeGate"[1] == 'o' && "TrustlineClawbackOptIn"[1] == 'r';
    assert |"SignWithPasskey"| == |"RegisterPasskey"| == 15 && "SignWithPasskey"[0] == 'S' && "RegisterPasskey"[0] == 'R';
    assert |"Rejected"| == |"Consumed"| == 8 && "Rejected"[0] == 'R' && "Consumed"[0] == 'C';
  }

  ghost function LiveAt(store: Store, now: nat): set<Nonce> {
    set n | n in store && now < store[n].expiresAt
  }

  ghost predicate SameEntries(store: Store, after: Store, but: set<Nonce>) {
    forall n :: n in after && n !in but ==> n in store && after[n] == store[n]
  }

  /** An insertion first drops what has expired; a store of 4096 live entries then takes
      no more, and a live nonce is not replaced. */
  lemma InsertExact(store: Store, n: Nonce, e: Approval, now: nat)
    ensures var after, live := OutsideResult(store, Insert(n, e, now)), LiveAt(store, now);
            if |live| >= 4096 then after.Keys == live && SameEntries(store, after, {})
            else if n in live || e.kind.Rejected? || e.kind.Consumed? || e.blob.Some? then after == store
            else after.Keys == live + {n} && after[n] == e && SameEntries(store, after, {n})
  {
    assert Unexpired(store, now).Keys == LiveAt(store, now);
  }

  lemma CollectExact(store: Store, now: nat)
    ensures var after := OutsideResult(store, CollectExpired(now));
            after.Keys == LiveAt(store, now) && SameEntries(store, after, {})
  {
  }

  /** A spend marks whatever is there with a hash of 64 lowercase hex digits, and keeps
      its owner, its expiry and its attestation. */
  lemma SpendExact(store: Store, n: Nonce, tx: string)
    ensures var after := OutsideResult(store, Spend(n, tx));
            if n in store && |tx| == 64 && (forall i :: 0 <= i < 64 ==> '0' <= tx[i] <= '9' || 'a' <= tx[i] <= 'f')
            then after == store[n := Approval(store[n].uid, store[n].expiresAt, Consumed(store[n].kind.Name(), tx), store[n].blob)]
            else after == store
  {
    if |tx| == 64 && Hex.AllHex(tx) && Hex.Lower(tx) == tx {
      forall i | 0 <= i < 64 ensures '0' <= tx[i] <= '9' || 'a' <= tx[i] <= 'f' {
        assert Hex.IsHexDigit(tx[i]) && Hex.ToLower(tx[i]) == Hex.Lower(tx)[i];
      }
    }
    if |tx| == 64 && forall i :: 0 <= i < 64 ==> '0' <= tx[i] <= '9' || 'a' <= tx[i] <= 'f' {
      assert Hex.Lower(tx) == tx;
    }
  }

  /** The store takes an attestation only for an entry that is there, has not expired,
      is of a kind that records one, and has none; and changes nothing else. */
  lemma AttestExact(store: Store, n: Nonce, blob: Blob, now: nat)
    ensures var after := OutsideResult(store, AttestElsewhere(n, blob, now));
            if && n in store && now < store[n].expiresAt && store[n].blob.None?
               && !store[n].kind.Rejected? && !store[n].kind.Consumed? && !store[n].kind.ToolsetFirstInvokeGate?
               && !store[n].kind.SignWithPasskey? && !store[n].kind.RegisterPasskey?
            then after == store[n := Approval(store[n].uid, store[n].expiresAt, store[n].kind, Some(blob))]
            else after == store
  {
  }

  /** A rejection elsewhere leaves a tombstone only where nothing was decided. */
  lemma RejectExact(store: Store, n: Nonce, now: nat)
    ensures var after := OutsideResult(store, RejectElsewhere(n, now));
            if n in store && !store[n].kind.Rejected? && !store[n].kind.Consumed? && store[n].blob.None?
            then after.Keys == store.Keys && after[n].kind.Rejected? && SameEntries(store, after, {n})
            else after == store
  {
  }

  ghost predicate HasEnvelope(kind: Kind) {
    kind.PaymentSimulated? || kind.TrustlineSimulated? || kind.ClaimSimulated?
  }

  /** Sixty-four hex digits are read as the bytes they spell. */
  lemma SpelledDigest(hex: string)
    requires |hex| == 64 && Hex.AllHex(hex)
    ensures Hex.Encode(DigestOrZero(hex)) == Hex.Lower(hex)
  {
    Hex.DecodeAccepts(hex);
    Hex.DigestExtendsStrict(hex);
    Hex.EncodeDecode(hex);
  }

  ghost predicate AllZero(d: Digest) {
    forall i :: 0 <= i < 32 ==> d[i] == 0
  }

  lemma ZeroIsZero()
    ensures AllZero(ZERO_DIGEST)
  {
  }

  /** The digest a challenge binds, and an attestation is made over, is the proposal's or
      the artifact's own, or the 32 bytes its envelope hex spells; an opt-in is attested
      over its fields; and a kind without a readable digest is challenged over zeros. */
  lemma DigestsExact(kind: Kind)
    ensures kind.RuleProposalSimulated? ==> EntryDigest(kind) == kind.proposal
    ensures kind.MppChargeSimulated? ==> EntryDigest(kind) == kind.artifact
    ensures HasEnvelope(kind) && |kind.envelopeHex| == 64 && Hex.AllHex(kind.envelopeHex) ==>
              Hex.Encode(EntryDigest(kind)) == Hex.Lower(kind.envelopeHex)
    ensures HasEnvelope(kind) && Hex.DecodeDigest(kind.envelopeHex).None? ==> AllZero(EntryDigest(kind))
    ensures !HasEnvelope(kind) && !kind.RuleProposalSimulated? && !kind.MppChargeSimulated? ==> AllZero(EntryDigest(kind))
    ensures SubjectOf(kind) == if kind.TrustlineClawbackOptIn? then OfOptIn(kind.network, kind.code, kind.issuer)
                               else OfDigest(EntryDigest(kind))
  {
    ZeroIsZero();
    if HasEnvelope(kind) && |kind.envelopeHex| == 64 && Hex.AllHex(kind.envelopeHex) {
      SpelledDigest(kind.envelopeHex);
    }
  }
}
