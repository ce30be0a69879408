/** The two bounded, single-use challenge stores, and the full-history
    specification that their lazily pruned deques refine. */
module ChallengeStores {
  import opened Common

  const STORE_CAP: nat := 256
  const CHALLENGE_TTL: Time := 120.0

  type Challenge = seq<Byte>
  type Nonce = seq<Byte>

  /** What the stores do when they are full: the login store refuses, because no
      session is known yet; the action store evicts, so that an operator is never
      locked out by past activity. */
  datatype Policy = FailClosed | EvictOldest

  /** An outstanding challenge. The login store's key is the challenge alone; the
      action store's key is the challenge with the approval nonce it is bound to. */
  datatype Entry<K> = Entry(key: K, mintedAt: Time)

  datatype Op<K> =
    | Mint(key: K, at: Time)
    | Consume(key: K, at: Time)

  // ------------------------------------------------------------- deque as coded

  /** Elapsed time, zero when the clock reads earlier. */
  function Age(now: Time, t: Time): Time {
    if now > t then now - t else 0.0
  }

  /** Keeps the entries younger than the time-to-live. */
  function Prune<K>(es: seq<Entry<K>>, now: Time): seq<Entry<K>> {
    if es == [] then []
    else (if Age(now, es[0].mintedAt) < CHALLENGE_TTL then [es[0]] else []) + Prune(es[1..], now)
  }

  /** Position of the first entry with this key. */
  function Find<K(==)>(es: seq<Entry<K>>, key: K): (r: Option<nat>)
    ensures r.Some? ==> r.value < |es| && es[r.value].key == key && forall i :: 0 <= i < r.value ==> es[i].key != key
    ensures r.None? ==> forall i :: 0 <= i < |es| ==> es[i].key != key
  {
    if es == [] then None
    else if es[0].key == key then Some(0)
    else
      assert forall i :: 0 < i < |es| ==> es[i] == es[1..][i - 1];
      match Find(es[1..], key)
      case None => None
      case Some(i) => Some(i + 1)
  }

  function RemoveAt<T>(s: seq<T>, i: nat): seq<T>
    requires i < |s|
  {
    s[..i] + s[i + 1..]
  }

  /** One operation on the deque: prune, then act. */
  function Apply<K(==)>(policy: Policy, es: seq<Entry<K>>, op: Op<K>): (seq<Entry<K>>, bool) {
    var live := Prune(es, op.at);
    match op
    case Mint(key, at) =>
      if |live| < STORE_CAP then (live + [Entry(key, at)], true)
      else if policy.FailClosed? then (live, false)
      else (live[1..] + [Entry(key, at)], true)
    case Consume(key, _) =>
      match Find(live, key)
      case None => (live, false)
      case Some(i) => (RemoveAt(live, i), true)
  }

  function Deque<K(==)>(policy: Policy, ops: seq<Op<K>>): seq<Entry<K>> {
    if ops == [] then [] else Apply(policy, Deque(policy, ops[..|ops| - 1]), ops[|ops| - 1]).0
  }

  /** What the store answered to operation `k`. */
  predicate AnswerAt<K(==)>(policy: Policy, ops: seq<Op<K>>, k: nat)
    requires k < |ops|
  {
    Apply(policy, Deque(policy, ops[..k]), ops[k]).1
  }

  // ------------------------------------------------- full-history specification

  /** The clock never goes back. */
  ghost predicate Monotone<K>(ops: seq<Op<K>>) {
    forall i, j :: 0 <= i <= j < |ops| ==> ops[i].at <= ops[j].at
  }

  /** A mint, named by its position in the history. */
  datatype Item<K> = Item(id: nat, key: K, at: Time)

  ghost predicate Young<K>(x: Item<K>, t: Time) {
    t - x.at < 120.0
  }

  ghost function Live<K>(out: seq<Item<K>>, t: Time): seq<Item<K>> {
    if out == [] then []
    else (if Young(out[0], t) then [out[0]] else []) + Live(out[1..], t)
  }

  /** Young at `t` and, when a key is asked for, minted under it. */
  ghost predicate Wanted<K>(x: Item<K>, t: Time, key: Option<K>) {
    Young(x, t) && (key.Some? ==> x.key == key.value)
  }

  /** The oldest wanted item. */
  ghost function Oldest<K>(out: seq<Item<K>>, t: Time, key: Option<K>): (r: Option<Item<K>>)
    ensures r.Some? ==> Wanted(r.value, t, key)
  {
    if out == [] then None
    else if Wanted(out[0], t, key) then Some(out[0])
    else Oldest(out[1..], t, key)
  }

  /** `out` without its oldest wanted item. */
  ghost function DropOldest<K>(out: seq<Item<K>>, t: Time, key: Option<K>): seq<Item<K>> {
    if out == [] then []
    else if Wanted(out[0], t, key) then out[1..]
    else [out[0]] + DropOldest(out[1..], t, key)
  }

  /** Operation number `n` on the list of outstanding mints. Nothing is pruned:
      an item leaves only when it is consumed or evicted. */
  ghost function SpecStep<K>(policy: Policy, out: seq<Item<K>>, op: Op<K>, n: nat): seq<Item<K>> {
    match op
    case Mint(key, at) =>
      if |Live(out, at)| < 256 then out + [Item(n, key, at)]
      else if policy.FailClosed? then out
      else DropOldest(out, at, None) + [Item(n, key, at)]
    case Consume(key, at) => DropOldest(out, at, Some(key))
  }

  ghost predicate SpecAnswers<K>(policy: Policy, out: seq<Item<K>>, op: Op<K>) {
    match op
    case Mint(_, at) => policy.EvictOldest? || |Live(out, at)| < 256
    case Consume(key, at) => Oldest(out, at, Some(key)).Some?
  }

  /** The accepted mints of a history that nothing has consumed or evicted. */
  ghost function Outstanding<K>(policy: Policy, ops: seq<Op<K>>): seq<Item<K>> {
    if ops == [] then []
    else
      var n := |ops| - 1;
      SpecStep(policy, Outstanding(policy, ops[..n]), ops[n], n)
  }

  /** What the history alone says about operation `k`. */
  ghost predicate SpecAnswerAt<K>(policy: Policy, ops: seq<Op<K>>, k: nat)
    requires k < |ops|
  {
    SpecAnswers(policy, Outstanding(policy, ops[..k]), ops[k])
  }

  ghost function Strip<K>(items: seq<Item<K>>): (r: seq<Entry<K>>)
    ensures |r| == |items| && forall j :: 0 <= j < |r| ==> r[j] == Entry(items[j].key, items[j].at)
  {
    seq(|items|, j requires 0 <= j < |items| => Entry(items[j].key, items[j].at))
  }

  // ------------------------------------------------------------------ refinement

  lemma {:induction false} LiveOfLive<K>(out: seq<Item<K>>, s: Time, t: Time)
    requires s <= t
    ensures Live(Live(out, s), t) == Live(out, t)
  {
    if out != [] {
      LiveOfLive(out[1..], s, t);
      if Young(out[0], s) {
        assert Live(out, s)[1..] == Live(out[1..], s);
      } else {
        assert Live(out, s) == Live(out[1..], s);
      }
    }
  }

  lemma {:induction false} LiveAppend<K>(a: seq<Item<K>>, b: seq<Item<K>>, t: Time)
    ensures Live(a + b, t) == Live(a, t) + Live(b, t)
  {
    if a == [] {
      assert a + b == b;
    } else {
      assert (a + b)[1..] == a[1..] + b;
      LiveAppend(a[1..], b, t);
    }
  }

  lemma {:induction false} PruneIsLive<K>(items: seq<Item<K>>, t: Time)
    ensures Prune(Strip(items), t) == Strip(Live(items, t))
  {
    if items != [] {
      assert Strip(items)[1..] == Strip(items[1..]);
      PruneIsLive(items[1..], t);
      assert Strip(Live(items, t)) ==
             (if Young(items[0], t) then [Entry(items[0].key, items[0].at)] else []) + Strip(Live(items[1..], t));
    }
  }

  /** Looking at ages before or after the drop is the same. */
  lemma {:induction false} LiveOfDrop<K>(out: seq<Item<K>>, t: Time, key: Option<K>)
    ensures Live(DropOldest(out, t, key), t) == DropOldest(Live(out, t), t, key)
    ensures Oldest(Live(out, t), t, key) == Oldest(out, t, key)
  {
    if out != [] {
      LiveOfDrop(out[1..], t, key);
      if Young(out[0], t) {
        assert Live(out, t)[1..] == Live(out[1..], t);
        if !Wanted(out[0], t, key) {
          assert DropOldest(out, t, key)[1..] == DropOldest(out[1..], t, key);
        }
      } else {
        assert Live(out, t) == Live(out[1..], t);
        assert DropOldest(out, t, key)[1..] == DropOldest(out[1..], t, key);
      }
    }
  }

  ghost predicate AllYoung<K>(items: seq<Item<K>>, t: Time) {
    forall j :: 0 <= j < |items| ==> Young(items[j], t)
  }

  lemma {:induction false} LiveIsYoung<K>(out: seq<Item<K>>, t: Time)
    ensures AllYoung(Live(out, t), t)
  {
    if out != [] {
      LiveIsYoung(out[1..], t);
    }
  }

  lemma StripCons<K>(x: Item<K>, tail: seq<Item<K>>)
    ensures Strip([x] + tail) == [Entry(x.key, x.at)] + Strip(tail)
  {
  }

  lemma FindCons<K>(e: Entry<K>, es: seq<Entry<K>>, key: K)
    ensures Find([e] + es, key) ==
            if e.key == key then Some(0) else match Find(es, key) case None => None case Some(i) => Some(i + 1)
  {
    assert ([e] + es)[1..] == es;
  }

  lemma RemoveAtCons<T>(x: T, s: seq<T>, i: nat)
    requires i < |s|
    ensures RemoveAt([x] + s, i + 1) == [x] + RemoveAt(s, i)
    ensures RemoveAt([x] + s, 0) == s
  {
  }

  /** On a pruned deque, dropping the oldest match is removing the found position. */
  lemma {:induction false} FindDrops<K>(items: seq<Item<K>>, t: Time, key: K)
    requires AllYoung(items, t)
    ensures Find(Strip(items), key).Some? <==> Oldest(items, t, Some(key)).Some?
    ensures Find(Strip(items), key).Some? ==>
              Strip(DropOldest(items, t, Some(key))) == RemoveAt(Strip(items), Find(Strip(items), key).value)
    ensures Find(Strip(items), key).None? ==> DropOldest(items, t, Some(key)) == items
  {
    if items != [] {
      var x, tail := items[0], items[1..];
      assert items == [x] + tail;
      StripCons(x, tail);
      FindCons(Entry(x.key, x.at), Strip(tail), key);
      if x.key == key {
        assert RemoveAt(Strip(items), 0) == Strip(tail);
      } else {
        FindDrops(tail, t, key);
        var dropped := DropOldest(tail, t, Some(key));
        StripCons(x, dropped);
        if Find(Strip(tail), key).Some? {
          RemoveAtCons(Entry(x.key, x.at), Strip(tail), Find(Strip(tail), key).value);
        }
      }
    }
  }

  lemma StripAppend<K>(a: seq<Item<K>>, x: Item<K>)
    ensures Strip(a + [x]) == Strip(a) + [Entry(x.key, x.at)]
  {
  }

  lemma MintedIsLast<K>(out: seq<Item<K>>, x: Item<K>, t: Time)
    requires x.at == t
    ensures Strip(Live(out + [x], t)) == Strip(Live(out, t)) + [Entry(x.key, t)]
  {
    LiveAppend(out, [x], t);
    assert Live([x], t) == [x];
    StripAppend(Live(out, t), x);
  }

  lemma EvictedIsFirst<K>(out: seq<Item<K>>, t: Time)
    requires Live(out, t) != []
    ensures Strip(Live(DropOldest(out, t, None), t)) == Strip(Live(out, t))[1..]
  {
    var live := Live(out, t);
    LiveOfDrop(out, t, None);
    LiveIsYoung(out, t);
    assert Wanted(live[0], t, None);
    assert Strip(live[1..]) == Strip(live)[1..];
  }

  /** One mint on the pruned deque answers, and leaves, what the history says. */
  lemma MintRefines<K>(policy: Policy, out: seq<Item<K>>, key: K, t: Time, n: nat)
    ensures var live := Strip(Live(out, t));
            var after := Strip(Live(SpecStep(policy, out, Mint(key, t), n), t));
            if |live| < 256 then after == live + [Entry(key, t)]
            else if policy.FailClosed? then after == live
            else after == live[1..] + [Entry(key, t)]
  {
    if |Live(out, t)| < 256 {
      MintedIsLast(out, Item(n, key, t), t);
    } else if policy.EvictOldest? {
      EvictedIsFirst(out, t);
      MintedIsLast(DropOldest(out, t, None), Item(n, key, t), t);
    }
  }

  /** One operation on the pruned deque answers, and leaves, what the history says. */
  lemma {:induction false} StepRefines<K>(
      policy: Policy, out: seq<Item<K>>, es: seq<Entry<K>>, s: Time, op: Op<K>, n: nat)
    requires es == Strip(Live(out, s)) && s <= op.at
    ensures Apply(policy, es, op).0 == Strip(Live(SpecStep(policy, out, op, n), op.at))
    ensures Apply(policy, es, op).1 <==> SpecAnswers(policy, out, op)
  {
    var t := op.at;
    var live := Live(out, t);
    PruneIsLive(Live(out, s), t);
    LiveOfLive(out, s, t);
    assert Prune(es, t) == Strip(live);
    match op
    case Mint(key, _) => MintRefines(policy, out, key, t, n);
    case Consume(key, _) =>
      LiveIsYoung(out, t);
      LiveOfDrop(out, t, Some(key));
      FindDrops(live, t, key);
  }

  lemma PrefixMonotone<K>(ops: seq<Op<K>>, k: nat)
    requires Monotone(ops) && k <= |ops|
    ensures Monotone(ops[..k])
  {
  }

  ghost function EndTime<K>(ops: seq<Op<K>>): Time
    requires ops != []
  {
    ops[|ops| - 1].at
  }

  /** After any run the deque is the history's outstanding mints that are young. */
  lemma {:induction false} DequeIsLive<K>(policy: Policy, ops: seq<Op<K>>, t: Time)
    requires Monotone(ops) && (ops != [] ==> t == EndTime(ops))
    ensures Deque(policy, ops) == Strip(Live(Outstanding(policy, ops), t))
  {
    if ops != [] {
      var n := |ops| - 1;
      PrefixMonotone(ops, n);
      var s := if n == 0 then t else EndTime(ops[..n]);
      DequeIsLive(policy, ops[..n], s);
      StepRefines(policy, Outstanding(policy, ops[..n]), Deque(policy, ops[..n]), s, ops[n], n);
    }
  }

  /** Every answer of every run is the one the full history gives. */
  lemma {:induction false} AnswersAreHistory<K>(policy: Policy, ops: seq<Op<K>>, k: nat)
    requires Monotone(ops) && k < |ops|
    ensures AnswerAt(policy, ops, k) <==> SpecAnswerAt(policy, ops, k)
  {
    PrefixMonotone(ops, k);
    var s := if k == 0 then ops[k].at else EndTime(ops[..k]);
    DequeIsLive(policy, ops[..k], s);
    StepRefines(policy, Outstanding(policy, ops[..k]), Deque(policy, ops[..k]), s, ops[k], k);
  }
}
