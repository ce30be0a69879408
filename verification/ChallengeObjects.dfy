/** The challenge stores as the listener holds them: a deque updated in place
    under a mutex, with each clock reading taken under that mutex. `ops` records
    every operation since the store was made. */
module ChallengeObjects {
  import opened Common
  import opened ChallengeStores
  import opened ChallengeRuns

  ghost predicate NotBefore<K>(ops: seq<Op<K>>, now: Time) {
    ops != [] ==> EndTime(ops) <= now
  }

  /** Some live outstanding mint of the history has this key. */
  ghost predicate LiveInHistory<K>(policy: Policy, ops: seq<Op<K>>, key: K, now: Time) {
    exists x :: x in Outstanding(policy, ops) && x.key == key && now - x.at < 120.0
  }

  /** One more operation: the deque steps as coded and the answer is the history's. */
  lemma Extend<K>(policy: Policy, ops: seq<Op<K>>, op: Op<K>)
    requires Monotone(ops) && NotBefore(ops, op.at)
    ensures Monotone(ops + [op]) && Deque(policy, ops + [op]) == Apply(policy, Deque(policy, ops), op).0
    ensures |Deque(policy, ops + [op])| <= 256
    ensures op.Mint? ==> |Prune(Deque(policy, ops), op.at)| == |Live(Outstanding(policy, ops), op.at)|
    ensures op.Consume? ==>
              (Apply(policy, Deque(policy, ops), op).1 <==> LiveInHistory(policy, ops, op.key, op.at))
  {
    var all := ops + [op];
    assert all[..|ops|] == ops && all[|ops|] == op;
    DequeSize(policy, all);
    if op.Mint? {
      PrunedIsLive(policy, ops, op.at);
    } else {
      ConsumeNeedsLive(policy, ops, op);
    }
  }

  lemma PrunedIsLive<K>(policy: Policy, ops: seq<Op<K>>, now: Time)
    requires Monotone(ops) && NotBefore(ops, now)
    ensures Prune(Deque(policy, ops), now) == Strip(Live(Outstanding(policy, ops), now))
  {
    var s := if ops == [] then now else EndTime(ops);
    DequeIsLive(policy, ops, s);
    PruneIsLive(Live(Outstanding(policy, ops), s), now);
    LiveOfLive(Outstanding(policy, ops), s, now);
  }

  lemma ConsumeNeedsLive<K>(policy: Policy, ops: seq<Op<K>>, op: Op<K>)
    requires Monotone(ops) && NotBefore(ops, op.at) && op.Consume?
    ensures Apply(policy, Deque(policy, ops), op).1 <==> LiveInHistory(policy, ops, op.key, op.at)
  {
    var out := Outstanding(policy, ops);
    var s := if ops == [] then op.at else EndTime(ops);
    DequeIsLive(policy, ops, s);
    StepRefines(policy, out, Deque(policy, ops), s, op, |ops|);
    DropMembers(out, op.at, Some(op.key));
    if LiveInHistory(policy, ops, op.key, op.at) {
      var x :| x in out && x.key == op.key && op.at - x.at < 120.0;
      OldestExists(out, op.at, op.key, x);
    }
  }

  class LoginChallengeStore {
    var entries: seq<Entry<Challenge>>
    ghost var ops: seq<Op<Challenge>>

    ghost predicate Valid()
      reads this
    {
      Monotone(ops) && entries == Deque(FailClosed, ops) && |entries| <= 256
    }

    constructor ()
      ensures Valid() && ops == []
    {
      entries := [];
      ops := [];
    }

    /** Mints the random bytes `random` unless 256 live challenges are outstanding. */
    method MintAt(now: Time, random: Challenge) returns (r: Option<Challenge>)
      requires Valid() && NotBefore(ops, now)
      modifies this
      ensures Valid() && ops == old(ops) + [Mint(random, now)]
      ensures r == if |Live(Outstanding(FailClosed, old(ops)), now)| < 256 then Some(random) else None
    {
      Extend(FailClosed, ops, Mint(random, now));
      PruneAt(now);
      ops := ops + [Mint(random, now)];
      if |entries| >= STORE_CAP {
        return None;
      }
      entries := entries + [Entry(random, now)];
      return Some(random);
    }

    /** Succeeds exactly when the history holds the challenge live, and removes it. */
    method ConsumeAt(challenge: Challenge, now: Time) returns (ok: bool)
      requires Valid() && NotBefore(ops, now)
      modifies this
      ensures Valid() && ops == old(ops) + [Consume(challenge, now)]
      ensures ok <==> LiveInHistory(FailClosed, old(ops), challenge, now)
    {
      Extend(FailClosed, ops, Consume(challenge, now));
      PruneAt(now);
      ops := ops + [Consume(challenge, now)];
      var pos := Find(entries, challenge);
      if pos.Some? {
        entries := RemoveAt(entries, pos.value);
        return true;
      }
      return false;
    }

    method PruneAt(now: Time)
      modifies this`entries
      ensures entries == Prune(old(entries), now)
    {
      entries := Prune(entries, now);
    }
  }

  class ActionChallengeStore {
    var entries: seq<Entry<(Challenge, Nonce)>>
    ghost var ops: seq<Op<(Challenge, Nonce)>>

    ghost predicate Valid()
      reads this
    {
      Monotone(ops) && entries == Deque(EvictOldest, ops) && |entries| <= 256
    }

    constructor ()
      ensures Valid() && ops == []
    {
      entries := [];
      ops := [];
    }

    /** Always mints; a full store first loses its oldest live challenge. */
    method MintAt(challenge: Challenge, nonce: Nonce, now: Time)
      requires Valid() && NotBefore(ops, now)
      modifies this
      ensures Valid() && ops == old(ops) + [Mint((challenge, nonce), now)]
      ensures entries != [] && entries[|entries| - 1] == Entry((challenge, nonce), now)
    {
      var key := (challenge, nonce);
      Extend(EvictOldest, ops, Mint(key, now));
      PruneAt(now);
      ops := ops + [Mint(key, now)];
      if |entries| >= STORE_CAP {
        entries := entries[1..];
      }
      entries := entries + [Entry(key, now)];
    }

    /** Succeeds exactly when the history holds this challenge live for this very
        nonce, and removes it. */
    method ConsumeAt(challenge: Challenge, nonce: Nonce, now: Time) returns (ok: bool)
      requires Valid() && NotBefore(ops, now)
      modifies this
      ensures Valid() && ops == old(ops) + [Consume((challenge, nonce), now)]
      ensures ok <==> LiveInHistory(EvictOldest, old(ops), (challenge, nonce), now)
    {
      var key := (challenge, nonce);
      Extend(EvictOldest, ops, Consume(key, now));
      PruneAt(now);
      ops := ops + [Consume(key, now)];
      var pos := Find(entries, key);
      if pos.Some? {
        entries := RemoveAt(entries, pos.value);
        return true;
      }
      return false;
    }

    method PruneAt(now: Time)
      modifies this`entries
      ensures entries == Prune(old(entries), now)
    {
      entries := Prune(entries, now);
    }
  }
}
