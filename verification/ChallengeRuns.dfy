/** What the challenge stores guarantee over whole runs: single use, survival,
    order and size. */
module ChallengeRuns {
  import opened Common
  import opened ChallengeStores

  // ------------------------------------------------------- shape of the history

  /** Each item was minted before, and no later than, every item behind it. */
  ghost predicate Ordered<K>(out: seq<Item<K>>) {
    out == []
    || ((forall x :: x in out[1..] ==> out[0].id < x.id && out[0].at <= x.at) && Ordered(out[1..]))
  }

  /** `x` is the mint at its own position of the history. */
  ghost predicate IsMintOf<K>(x: Item<K>, ops: seq<Op<K>>) {
    x.id < |ops| && ops[x.id] == Mint(x.key, x.at)
  }

  ghost predicate Shape<K>(out: seq<Item<K>>, ops: seq<Op<K>>) {
    Ordered(out) && forall x :: x in out ==> IsMintOf(x, ops)
  }

  lemma {:induction false} DropMembers<K>(out: seq<Item<K>>, t: Time, key: Option<K>)
    ensures forall x :: x in DropOldest(out, t, key) ==> x in out
    ensures forall x :: x in out && Oldest(out, t, key) != Some(x) ==> x in DropOldest(out, t, key)
    ensures Oldest(out, t, key).Some? ==> Oldest(out, t, key).value in out
    ensures Oldest(out, t, key).None? ==> DropOldest(out, t, key) == out
  {
    if out != [] {
      DropMembers(out[1..], t, key);
      assert out == [out[0]] + out[1..];
    }
  }

  lemma {:induction false} DropKeepsOrder<K>(out: seq<Item<K>>, t: Time, key: Option<K>)
    requires Ordered(out)
    ensures Ordered(DropOldest(out, t, key))
    ensures Oldest(out, t, key).Some? ==>
              forall x :: x in DropOldest(out, t, key) ==> x.id != Oldest(out, t, key).value.id
  {
    if out != [] && !Wanted(out[0], t, key) {
      var tail := out[1..];
      DropKeepsOrder(tail, t, key);
      DropMembers(tail, t, key);
      assert DropOldest(out, t, key)[1..] == DropOldest(tail, t, key);
    }
  }

  /** Outstanding items are mints of the history, in the order they were made. */
  lemma {:induction false} OutstandingShape<K>(policy: Policy, ops: seq<Op<K>>)
    requires Monotone(ops)
    ensures Shape(Outstanding(policy, ops), ops)
  {
    if ops != [] {
      var n := |ops| - 1;
      PrefixMonotone(ops, n);
      OutstandingShape(policy, ops[..n]);
      var out := Outstanding(policy, ops[..n]);
      forall x | x in out ensures IsMintOf(x, ops) && x.id < n && x.at <= ops[n].at {
        assert IsMintOf(x, ops[..n]);
      }
      StepShape(policy, out, ops, n);
    }
  }

  lemma StepShape<K>(policy: Policy, out: seq<Item<K>>, ops: seq<Op<K>>, n: nat)
    requires n < |ops| && Ordered(out)
    requires forall x :: x in out ==> IsMintOf(x, ops) && x.id < n && x.at <= ops[n].at
    ensures Shape(SpecStep(policy, out, ops[n], n), ops)
  {
    var op := ops[n];
    match op
    case Mint(key, at) =>
      DropKeepsOrder(out, at, None);
      DropMembers(out, at, None);
      AppendKeepsOrder(out, Item(n, key, at));
      AppendKeepsOrder(DropOldest(out, at, None), Item(n, key, at));
    case Consume(key, at) =>
      DropKeepsOrder(out, at, Some(key));
      DropMembers(out, at, Some(key));
  }

  lemma {:induction false} AppendKeepsOrder<K>(out: seq<Item<K>>, item: Item<K>)
    requires Ordered(out) && forall x :: x in out ==> x.id < item.id && x.at <= item.at
    ensures Ordered(out + [item])
  {
    if out != [] {
      assert (out + [item])[1..] == out[1..] + [item];
      AppendKeepsOrder(out[1..], item);
    }
  }

  ghost predicate HasId<K>(out: seq<Item<K>>, id: nat) {
    exists x :: x in out && x.id == id
  }

  /** Every outstanding item was accepted when it was minted. */
  lemma {:induction false} OutstandingAccepted<K>(policy: Policy, ops: seq<Op<K>>, x: Item<K>)
    requires Monotone(ops) && x in Outstanding(policy, ops)
    ensures IsMintOf(x, ops) && SpecAnswerAt(policy, ops, x.id)
  {
    OutstandingShape(policy, ops);
    var n := |ops| - 1;
    var past, op := ops[..n], ops[n];
    PrefixMonotone(ops, n);
    if x.id < n {
      StepMembers(policy, Outstanding(policy, past), op, n, x);
      OutstandingAccepted(policy, past, x);
      assert past[..x.id] == ops[..x.id];
    } else {
      OutstandingShape(policy, past);
      StepMembers(policy, Outstanding(policy, past), op, n, x);
    }
  }

  /** An item present after operation `n` was there before, or is the mint that
      `n` accepted. */
  lemma StepMembers<K>(policy: Policy, out: seq<Item<K>>, op: Op<K>, n: nat, x: Item<K>)
    requires x in SpecStep(policy, out, op, n)
    ensures x in out || (x.id == n && op == Mint(x.key, x.at) && SpecAnswers(policy, out, op))
  {
    DropMembers(out, op.at, None);
    DropMembers(out, op.at, Some(op.key));
  }

  // ------------------------------------------------------------------ single use

  /** The mint that a consume takes. */
  ghost function Taken<K>(policy: Policy, ops: seq<Op<K>>, j: nat): Option<nat>
    requires j < |ops| && ops[j].Consume?
  {
    match Oldest(Outstanding(policy, ops[..j]), ops[j].at, Some(ops[j].key))
    case None => None
    case Some(x) => Some(x.id)
  }

  /** A consume that succeeds takes an earlier accepted mint of the same key,
      less than the time-to-live old. */
  lemma ConsumeTakesFreshMint<K>(policy: Policy, ops: seq<Op<K>>, j: nat)
    requires Monotone(ops) && j < |ops| && ops[j].Consume?
    ensures AnswerAt(policy, ops, j) <==> Taken(policy, ops, j).Some?
    ensures AnswerAt(policy, ops, j) ==>
              var i := Taken(policy, ops, j).value;
              && i < j && ops[i] == Mint(ops[j].key, ops[i].at)
              && ops[j].at - ops[i].at < 120.0
              && AnswerAt(policy, ops, i)
  {
    AnswersAreHistory(policy, ops, j);
    if AnswerAt(policy, ops, j) {
      var past := ops[..j];
      PrefixMonotone(ops, j);
      var out := Outstanding(policy, past);
      DropMembers(out, ops[j].at, Some(ops[j].key));
      var x := Oldest(out, ops[j].at, Some(ops[j].key)).value;
      OutstandingAccepted(policy, past, x);
      assert past[..x.id] == ops[..x.id];
      AnswersAreHistory(policy, ops, x.id);
    }
  }

  /** What is no longer outstanding never comes back. */
  lemma {:induction false} NeverReturns<K>(policy: Policy, ops: seq<Op<K>>, m: nat, id: nat)
    requires Monotone(ops) && id < m <= |ops|
    requires !HasId(Outstanding(policy, ops[..m]), id)
    ensures !HasId(Outstanding(policy, ops), id)
  {
    var n := |ops| - 1;
    if m == |ops| {
      assert ops[..m] == ops;
    } else {
      PrefixMonotone(ops, n);
      assert ops[..n][..m] == ops[..m];
      NeverReturns(policy, ops[..n], m, id);
      forall x | x in Outstanding(policy, ops) ensures x.id != id {
        StepMembers(policy, Outstanding(policy, ops[..n]), ops[n], n, x);
      }
    }
  }

  /** Single use: no mint is taken by two consumes, so successful consumes inject
      into accepted mints. */
  lemma {:induction false} NoMintTakenTwice<K>(policy: Policy, ops: seq<Op<K>>, j: nat, k: nat)
    requires Monotone(ops) && j < k < |ops| && ops[j].Consume? && ops[k].Consume?
    requires AnswerAt(policy, ops, j) && AnswerAt(policy, ops, k)
    ensures Taken(policy, ops, j) != Taken(policy, ops, k)
  {
    ConsumeTakesFreshMint(policy, ops, j);
    ConsumeTakesFreshMint(policy, ops, k);
    var past, later := ops[..j], ops[..k];
    var out := Outstanding(policy, past);
    PrefixMonotone(ops, j);
    PrefixMonotone(ops, k);
    OutstandingShape(policy, past);
    var i := Taken(policy, ops, j).value;
    DropKeepsOrder(out, ops[j].at, Some(ops[j].key));
    assert later[..j + 1][..j] == past;
    assert !HasId(Outstanding(policy, later[..j + 1]), i);
    NeverReturns(policy, later, j + 1, i);
    DropMembers(Outstanding(policy, later), ops[k].at, Some(ops[k].key));
  }

  // -------------------------------------------------------------------- survival

  /** How operation `j` removed item `id`. */
  ghost predicate ConsumedAt<K>(policy: Policy, ops: seq<Op<K>>, id: nat, j: nat) {
    j < |ops| && ops[j].Consume? && Taken(policy, ops, j) == Some(id)
  }

  ghost predicate EvictedAt<K>(policy: Policy, ops: seq<Op<K>>, id: nat, j: nat) {
    && j < |ops| && ops[j].Mint? && policy.EvictOldest?
    && var out := Outstanding(policy, ops[..j]);
       && |Live(out, ops[j].at)| >= 256
       && Oldest(out, ops[j].at, None).Some? && Oldest(out, ops[j].at, None).value.id == id
  }

  /** An item leaves only by being consumed or evicted. */
  lemma {:induction false} LostHow<K>(policy: Policy, ops: seq<Op<K>>, m: nat, x: Item<K>) returns (j: nat)
    requires Monotone(ops) && m <= |ops|
    requires x in Outstanding(policy, ops[..m]) && x !in Outstanding(policy, ops)
    ensures m <= j < |ops| && (ConsumedAt(policy, ops, x.id, j) || EvictedAt(policy, ops, x.id, j))
  {
    assert ops[..|ops|] == ops;
    var n := |ops| - 1;
    var past := ops[..n];
    assert past[..m] == ops[..m];
    var out := Outstanding(policy, past);
    if x in out {
      j := n;
      DropMembers(out, ops[n].at, None);
      DropMembers(out, ops[n].at, Some(ops[n].key));
    } else {
      PrefixMonotone(ops, n);
      j := LostHow(policy, past, m, x);
      assert past[..j] == ops[..j];
    }
  }

  /** Mints made after position `i`. */
  ghost function MintsAfter<K>(ops: seq<Op<K>>, i: nat): nat {
    if |ops| <= i + 1 then 0
    else MintsAfter(ops[..|ops| - 1], i) + (if ops[|ops| - 1].Mint? then 1 else 0)
  }

  lemma {:induction false} MintsAfterGrows<K>(ops: seq<Op<K>>, i: nat, k: nat)
    requires k <= |ops|
    ensures MintsAfter(ops[..k], i) <= MintsAfter(ops, i)
  {
    if k == |ops| {
      assert ops[..k] == ops;
    } else {
      assert ops[..|ops| - 1][..k] == ops[..k];
      MintsAfterGrows(ops[..|ops| - 1], i, k);
    }
  }

  /** Items behind `i` are distinct later mints. */
  lemma {:induction false} ItemsAreLaterMints<K>(out: seq<Item<K>>, ops: seq<Op<K>>, i: nat)
    requires Ordered(out) && forall x :: x in out ==> i < x.id && IsMintOf(x, ops)
    ensures |out| <= MintsAfter(ops, i)
    decreases |ops|
  {
    if out != [] {
      var n := |ops| - 1;
      assert out[0] in out;
      var last := out[|out| - 1];
      assert last in out;
      var front := out[..|out| - 1];
      FrontOrdered(out);
      forall x | x in front ensures i < x.id && IsMintOf(x, ops[..n]) {
        assert x in out && x.id < last.id;
      }
      if last.id == n {
        ItemsAreLaterMints(front, ops[..n], i);
      } else {
        forall x | x in out ensures IsMintOf(x, ops[..n]) {
          assert x == last || x in front;
        }
        ItemsAreLaterMints(out, ops[..n], i);
      }
    }
  }

  lemma {:induction false} FrontOrdered<K>(out: seq<Item<K>>)
    requires Ordered(out) && out != []
    ensures var front := out[..|out| - 1];
            Ordered(front) && forall x :: x in front ==> x.id < out[|out| - 1].id
  {
    if |out| > 1 {
      FrontOrdered(out[1..]);
      assert out[..|out| - 1] == [out[0]] + out[1..][..|out| - 2];
      assert out[|out| - 1] in out[1..];
      assert out[..|out| - 1][1..] == out[1..][..|out| - 2];
    }
  }

  lemma {:induction false} LiveMembers<K>(out: seq<Item<K>>, t: Time)
    requires Ordered(out)
    ensures Ordered(Live(out, t)) && forall x :: x in Live(out, t) ==> x in out
  {
    if out != [] {
      LiveMembers(out[1..], t);
      assert out == [out[0]] + out[1..];
      if Young(out[0], t) {
        assert Live(out, t)[1..] == Live(out[1..], t);
      } else {
        assert Live(out, t) == Live(out[1..], t);
      }
    }
  }

  /** An eviction comes only with the 256th later mint, or after. */
  lemma {:induction false} EvictionIsLate<K>(policy: Policy, ops: seq<Op<K>>, id: nat, j: nat)
    requires Monotone(ops) && EvictedAt(policy, ops, id, j)
    ensures MintsAfter(ops, id) >= 256
  {
    var past, t := ops[..j], ops[j].at;
    PrefixMonotone(ops, j);
    var out := Outstanding(policy, past);
    OutstandingShape(policy, past);
    LiveMembers(out, t);
    LiveOfDrop(out, t, None);
    LiveIsYoung(out, t);
    var live := Live(out, t);
    assert Wanted(live[0], t, None) && live[0].id == id;
    assert live[0] in live && live[0] in out && IsMintOf(live[0], past);
    ItemsAreLaterMints(live[1..], past, id);
    assert ops[..j + 1][..j] == past;
    MintsAfterGrows(ops, id, j + 1);
  }

  /** An accepted mint is outstanding right after it is made. */
  lemma AcceptedIsOutstanding<K>(policy: Policy, ops: seq<Op<K>>, i: nat)
    requires Monotone(ops) && i < |ops| && ops[i].Mint? && AnswerAt(policy, ops, i)
    ensures Item(i, ops[i].key, ops[i].at) in Outstanding(policy, ops[..i + 1])
  {
    AnswersAreHistory(policy, ops, i);
    assert ops[..i + 1][..i] == ops[..i];
  }

  /** No operation after `i` consumed this key. */
  ghost predicate NotConsumedSince<K>(policy: Policy, ops: seq<Op<K>>, i: nat, key: K) {
    forall j :: i < j < |ops| && ops[j].Consume? && ops[j].key == key ==> !AnswerAt(policy, ops, j)
  }

  /** An accepted challenge that was not consumed can still be consumed within its
      time-to-live, whatever else was minted: always in the login store, and in
      the action store while fewer than 256 mints followed it. */
  lemma {:induction false} ChallengeSurvives<K>(policy: Policy, ops: seq<Op<K>>, i: nat, t: Time)
    requires i < |ops| && Monotone(ops + [Consume(ops[i].key, t)]) && ops[i].Mint? && AnswerAt(policy, ops, i)
    requires NotConsumedSince(policy, ops, i, ops[i].key)
    requires policy.EvictOldest? ==> MintsAfter(ops, i) < 256
    requires t - ops[i].at < 120.0
    ensures AnswerAt(policy, ops + [Consume(ops[i].key, t)], |ops|)
  {
    var key := ops[i].key;
    var all := ops + [Consume(key, t)];
    assert all[..|ops|] == ops;
    PrefixMonotone(all, |ops|);
    var x := Item(i, key, ops[i].at);
    AcceptedIsOutstanding(policy, ops, i);
    if x !in Outstanding(policy, ops) {
      var j := LostHow(policy, ops, i + 1, x);
      if ConsumedAt(policy, ops, i, j) {
        ConsumeTakesFreshMint(policy, ops, j);
        assert false;
      } else {
        EvictionIsLate(policy, ops, i, j);
        assert false;
      }
    }
    AnswersAreHistory(policy, all, |ops|);
    OldestExists(Outstanding(policy, ops), t, key, x);
  }

  lemma {:induction false} OldestExists<K>(out: seq<Item<K>>, t: Time, key: K, x: Item<K>)
    requires x in out && Wanted(x, t, Some(key))
    ensures Oldest(out, t, Some(key)).Some?
  {
    if !Wanted(out[0], t, Some(key)) {
      OldestExists(out[1..], t, key, x);
    }
  }

  // -------------------------------------------------------------- size and order

  ghost predicate ByMintTime<K>(es: seq<Entry<K>>) {
    forall i, j :: 0 <= i <= j < |es| ==> es[i].mintedAt <= es[j].mintedAt
  }

  lemma {:induction false} PruneShrinks<K>(es: seq<Entry<K>>, t: Time)
    ensures |Prune(es, t)| <= |es|
  {
    if es != [] {
      PruneShrinks(es[1..], t);
    }
  }

  /** Both deques hold at most 256 entries, oldest first, at every point of every run. */
  lemma {:induction false} DequeBounded<K>(policy: Policy, ops: seq<Op<K>>)
    requires Monotone(ops)
    ensures |Deque(policy, ops)| <= 256 && ByMintTime(Deque(policy, ops))
  {
    DequeSize(policy, ops);
    if ops != [] {
      var t := EndTime(ops);
      DequeIsLive(policy, ops, t);
      OutstandingShape(policy, ops);
      LiveMembers(Outstanding(policy, ops), t);
      StripOrdered(Live(Outstanding(policy, ops), t));
    }
  }

  lemma {:induction false} DequeSize<K>(policy: Policy, ops: seq<Op<K>>)
    ensures |Deque(policy, ops)| <= 256
  {
    if ops != [] {
      var n := |ops| - 1;
      DequeSize(policy, ops[..n]);
      PruneShrinks(Deque(policy, ops[..n]), ops[n].at);
    }
  }

  ghost predicate ItemsByTime<K>(items: seq<Item<K>>) {
    forall i, j :: 0 <= i <= j < |items| ==> items[i].at <= items[j].at
  }

  lemma {:induction false} OrderedByTime<K>(items: seq<Item<K>>)
    requires Ordered(items)
    ensures ItemsByTime(items)
  {
    if items != [] {
      var tail := items[1..];
      OrderedByTime(tail);
      assert items == [items[0]] + tail;
      assert forall j :: 0 <= j < |tail| ==> tail[j] in tail;
    }
  }

  lemma StripOrdered<K>(items: seq<Item<K>>)
    requires Ordered(items)
    ensures ByMintTime(Strip(items))
  {
    OrderedByTime(items);
  }

  // -------------------------------------------------------------------- counting

  /** Mints of `key` that were accepted. */
  ghost function AcceptedMints<K>(policy: Policy, ops: seq<Op<K>>, key: K): nat {
    if ops == [] then 0
    else
      var n := |ops| - 1;
      AcceptedMints(policy, ops[..n], key)
      + (if ops[n].Mint? && ops[n].key == key && AnswerAt(policy, ops, n) then 1 else 0)
  }

  /** Consumes of `key` that succeeded. */
  ghost function Consumes<K>(policy: Policy, ops: seq<Op<K>>, key: K): nat {
    if ops == [] then 0
    else
      var n := |ops| - 1;
      Consumes(policy, ops[..n], key)
      + (if ops[n].Consume? && ops[n].key == key && AnswerAt(policy, ops, n) then 1 else 0)
  }

  ghost function Holding<K>(out: seq<Item<K>>, key: K): nat {
    if out == [] then 0 else (if out[0].key == key then 1 else 0) + Holding(out[1..], key)
  }

  lemma {:induction false} HoldingAppend<K>(out: seq<Item<K>>, x: Item<K>, key: K)
    ensures Holding(out + [x], key) == Holding(out, key) + (if x.key == key then 1 else 0)
  {
    if out == [] {
      assert [x][1..] == [];
      assert out + [x] == [x];
    } else {
      assert (out + [x])[1..] == out[1..] + [x];
      HoldingAppend(out[1..], x, key);
    }
  }

  lemma {:induction false} HoldingDrop<K>(out: seq<Item<K>>, t: Time, want: Option<K>, key: K)
    ensures Holding(DropOldest(out, t, want), key) <= Holding(out, key)
    ensures want == Some(key) && Oldest(out, t, want).Some? ==>
              Holding(DropOldest(out, t, want), key) == Holding(out, key) - 1
  {
    if out != [] && !Wanted(out[0], t, want) {
      HoldingDrop(out[1..], t, want, key);
      assert DropOldest(out, t, want)[1..] == DropOldest(out[1..], t, want);
    }
  }

  /** Whatever the challenge bytes are, a key is consumed at most as often as it
      was minted. */
  lemma {:induction false} ConsumesNeverExceedMints<K>(policy: Policy, ops: seq<Op<K>>, key: K)
    requires Monotone(ops)
    ensures Consumes(policy, ops, key) + Holding(Outstanding(policy, ops), key) <= AcceptedMints(policy, ops, key)
  {
    if ops != [] {
      var n := |ops| - 1;
      var op, out := ops[n], Outstanding(policy, ops[..n]);
      PrefixMonotone(ops, n);
      ConsumesNeverExceedMints(policy, ops[..n], key);
      AnswersAreHistory(policy, ops, n);
      match op
      case Mint(k, at) =>
        HoldingAppend(out, Item(n, k, at), key);
        HoldingDrop(out, at, None, key);
        HoldingAppend(DropOldest(out, at, None), Item(n, k, at), key);
      case Consume(k, at) =>
        HoldingDrop(out, at, Some(k), key);
    }
  }
}
