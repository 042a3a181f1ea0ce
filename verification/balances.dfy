/**
  The balance ledger: an append-only log of balance entries (receive, send,
  inscribe-for-transfer) and the materialized per-(address, tick) balances
  derived from it, either by folding the whole log from scratch (the
  rebuild) or by patching the stored balance on each new event (the
  incremental path).

  Every balance is a triple (available, transferable, overall) whose
  intended invariant is overall == available + transferable.
 */
module Balances {

  datatype EntryType = Receive | Send | Inscription

  /** One balance-affecting event of the log. */
  datatype Entry = Entry(address: string, tick: string, amount: int, kind: EntryType)

  datatype Balance = Balance(available: int, transferable: int, overall: int)

  /** Balances are keyed by (address, tick). */
  type Key = (string, string)

  /** The materialized balances. */
  type View = map<Key, Balance>

  const Zero := Balance(0, 0, 0)

  function KeyOf(e: Entry): Key
  {
    (e.address, e.tick)
  }

  /** The pairs a log touches. */
  function KeysOf(entries: seq<Entry>): set<Key>
  {
    set e | e in entries :: KeyOf(e)
  }

  predicate Consistent(b: Balance)
  {
    b.overall == b.available + b.transferable
  }

  predicate AllConsistent(v: View)
  {
    forall k :: k in v ==> Consistent(v[k])
  }

  function Plus(a: Balance, b: Balance): Balance
  {
    Balance(a.available + b.available, a.transferable + b.transferable, a.overall + b.overall)
  }

  // ---------------------------------------------------------------------
  // The rebuild fold
  // ---------------------------------------------------------------------

  /**
    The per-kind rule of the rebuild: a receive adds to available and
    overall, a send takes from transferable and overall, an inscription
    moves the amount from available to transferable.
   */
  function ApplyKind(b: Balance, kind: EntryType, amount: int): (r: Balance)
    ensures Consistent(b) ==> Consistent(r)
    ensures r.overall == b.overall + (match kind case Receive => amount case Send => -amount case Inscription => 0)
  {
    match kind
    case Receive => b.(available := b.available + amount, overall := b.overall + amount)
    case Send => b.(transferable := b.transferable - amount, overall := b.overall - amount)
    case Inscription => b.(available := b.available - amount, transferable := b.transferable + amount)
  }

  /** One fold step: a pair seen for the first time starts at (0, 0, 0). */
  function Step(v: View, e: Entry): View
  {
    var k := KeyOf(e);
    var b := if k in v then v[k] else Zero;
    v[k := ApplyKind(b, e.kind, e.amount)]
  }

  /**
    The balances rebuilt from the entry log: one balance for every pair the
    log touches and none other, each of them consistent.
   */
  function Rebuild(entries: seq<Entry>): (r: View)
    ensures r.Keys == KeysOf(entries)
    ensures AllConsistent(r)
    decreases |entries|
  {
    if |entries| == 0 then map[]
    else
      var init, last := entries[..|entries| - 1], entries[|entries| - 1];
      assert entries == init + [last];
      Step(Rebuild(init), last)
  }

  /** What one entry contributes to the balance of pair `k`. */
  function Contribution(e: Entry, k: Key): Balance
  {
    if KeyOf(e) == k then ApplyKind(Zero, e.kind, e.amount) else Zero
  }

  /** The summed contributions of a log to pair `k`: the closed form of the fold. */
  function Net(entries: seq<Entry>, k: Key): Balance
    decreases |entries|
  {
    if |entries| == 0 then Zero
    else Plus(Net(entries[..|entries| - 1], k), Contribution(entries[|entries| - 1], k))
  }

  lemma {:induction false} NetUntouched(entries: seq<Entry>, k: Key)
    requires k !in KeysOf(entries)
    ensures Net(entries, k) == Zero
    decreases |entries|
  {
    if |entries| > 0 {
      var init := entries[..|entries| - 1];
      assert KeysOf(init) <= KeysOf(entries);
      NetUntouched(init, k);
    }
  }

  /** Each rebuilt balance is the sum of the contributions of its own entries. */
  lemma {:induction false} RebuildIsNet(entries: seq<Entry>, k: Key)
    requires k in KeysOf(entries)
    ensures Rebuild(entries)[k] == Net(entries, k)
    decreases |entries|
  {
    var init, last := entries[..|entries| - 1], entries[|entries| - 1];
    assert entries == init + [last];
    if k in KeysOf(init) {
      RebuildIsNet(init, k);
    } else {
      NetUntouched(init, k);
    }
  }

  lemma {:induction false} NetConcat(a: seq<Entry>, b: seq<Entry>, k: Key)
    ensures Net(a + b, k) == Plus(Net(a, k), Net(b, k))
    decreases |b|
  {
    if |b| == 0 {
      assert a + b == a;
    } else {
      var init, last := b[..|b| - 1], b[|b| - 1];
      var ab := a + b;
      assert ab[..|ab| - 1] == a + init;
      assert ab[|ab| - 1] == last;
      NetConcat(a, init, k);
      assert Net(ab, k) == Plus(Net(a + init, k), Contribution(last, k));
      assert Net(b, k) == Plus(Net(init, k), Contribution(last, k));
    }
  }

  /** A one-entry log contributes exactly that entry. */
  lemma NetSingleton(e: Entry, k: Key)
    ensures Net([e], k) == Contribution(e, k)
  {
  }

  /** Removing one entry from a log takes its contribution out of the sum. */
  lemma {:induction false} NetRemove(s: seq<Entry>, i: int, k: Key)
    requires 0 <= i < |s|
    ensures Net(s, k) == Plus(Net(s[..i] + s[i + 1..], k), Contribution(s[i], k))
  {
    var pre, e, post := s[..i], s[i], s[i + 1..];
    assert s == (pre + [e]) + post;
    var a, c, b := Net(pre, k), Contribution(e, k), Net(post, k);
    NetSingleton(e, k);
    NetConcat(pre, [e], k);
    assert Net(pre + [e], k) == Plus(a, c);
    NetConcat(pre + [e], post, k);
    assert Net(s, k) == Plus(Plus(a, c), b);
    NetConcat(pre, post, k);
    assert Net(pre + post, k) == Plus(a, b);
    PlusSwap(a, c, b);
  }

  lemma PlusSwap(a: Balance, c: Balance, b: Balance)
    ensures Plus(Plus(a, c), b) == Plus(Plus(a, b), c)
  {
  }

  /** Two permutations of a log stay permutations once a shared entry is taken out of each. */
  lemma {:induction false} MultisetRemove(s1: seq<Entry>, s2: seq<Entry>, i: int)
    requires multiset(s1) == multiset(s2)
    requires |s1| > 0 && 0 <= i < |s2| && s2[i] == s1[|s1| - 1]
    ensures multiset(s1[..|s1| - 1]) == multiset(s2[..i] + s2[i + 1..])
  {
    var init, e := s1[..|s1| - 1], s1[|s1| - 1];
    var pre, post := s2[..i], s2[i + 1..];
    assert s1 == init + [e];
    assert s2 == pre + [e] + post;
    assert multiset(s1) == multiset(init) + multiset{e};
    assert multiset(s2) == multiset(pre) + multiset{e} + multiset(post);
    forall x ensures multiset(init)[x] == multiset(pre + post)[x] {
      assert multiset(s1)[x] == multiset(init)[x] + multiset{e}[x];
      assert multiset(s2)[x] == multiset(pre)[x] + multiset{e}[x] + multiset(post)[x];
      assert multiset(pre + post) == multiset(pre) + multiset(post);
    }
  }

  lemma {:induction false} NetPermutation(s1: seq<Entry>, s2: seq<Entry>, k: Key)
    requires multiset(s1) == multiset(s2)
    ensures Net(s1, k) == Net(s2, k)
    decreases |s1|
  {
    if |s1| == 0 {
      assert |s2| == |multiset(s2)| == 0;
    } else {
      var n := |s1|;
      var e := s1[n - 1];
      assert e in multiset(s2);
      var i :| 0 <= i < |s2| && s2[i] == e;
      MultisetRemove(s1, s2, i);
      NetPermutation(s1[..n - 1], s2[..i] + s2[i + 1..], k);
      NetRemove(s2, i, k);
    }
  }

  /**
    The rebuilt balances do not depend on the order in which the entries are
    read: any permutation of the log rebuilds the same view.
   */
  lemma RebuildOrderIndependent(s1: seq<Entry>, s2: seq<Entry>)
    requires multiset(s1) == multiset(s2)
    ensures Rebuild(s1) == Rebuild(s2)
  {
    assert forall e :: e in s1 <==> e in s2 by {
      forall e ensures e in s1 <==> e in s2 {
        assert e in s1 <==> e in multiset(s1);
        assert e in s2 <==> e in multiset(s2);
      }
    }
    assert KeysOf(s1) == KeysOf(s2);
    forall k | k in KeysOf(s1)
      ensures Rebuild(s1)[k] == Rebuild(s2)[k]
    {
      RebuildIsNet(s1, k);
      RebuildIsNet(s2, k);
      NetPermutation(s1, s2, k);
    }
  }

  /**
    Entries for other pairs never affect a pair: appending them leaves its
    presence and its balance as they were.
   */
  lemma RebuildPairIsolation(s: seq<Entry>, t: seq<Entry>, k: Key)
    requires forall i :: 0 <= i < |t| ==> KeyOf(t[i]) != k
    ensures k in Rebuild(s + t) <==> k in Rebuild(s)
    ensures k in Rebuild(s) ==> Rebuild(s + t)[k] == Rebuild(s)[k]
  {
    assert KeysOf(s + t) == KeysOf(s) + KeysOf(t);
    assert k !in KeysOf(t);
    if k in KeysOf(s) {
      RebuildIsNet(s + t, k);
      RebuildIsNet(s, k);
      NetConcat(s, t, k);
      NetUntouched(t, k);
    }
  }

  // ---------------------------------------------------------------------
  // The incremental path
  // ---------------------------------------------------------------------

  /**
    A receive: the stored balance gains `amount` in available and overall;
    a pair with no stored balance gets one with overall = available = amount.
   */
  function UpdateReceiver(v: View, receiver: string, amount: int, tick: string): (r: View)
    ensures r.Keys == v.Keys + {(receiver, tick)}
    ensures forall k :: k in v && k != (receiver, tick) ==> r[k] == v[k]
    ensures (receiver, tick) in v ==> r[(receiver, tick)] == ApplyKind(v[(receiver, tick)], Receive, amount)
    ensures (receiver, tick) !in v ==> r[(receiver, tick)] == Balance(amount, 0, amount)
    ensures AllConsistent(v) ==> AllConsistent(r)
  {
    var k := (receiver, tick);
    if k in v then
      var b := v[k];
      v[k := b.(overall := b.overall + amount, available := b.available + amount)]
    else
      v[k := Balance(amount, 0, amount)]
  }

  /**
    A send: the stored balance loses `amount` from transferable and overall;
    nothing happens when the sender has no stored balance.
   */
  function UpdateSender(v: View, from: string, amount: int, tick: string): (r: View)
    ensures r.Keys == v.Keys
    ensures forall k :: k in v && k != (from, tick) ==> r[k] == v[k]
    ensures (from, tick) in v ==> r[(from, tick)] == ApplyKind(v[(from, tick)], Send, amount)
    ensures (from, tick) !in v ==> r == v
    ensures AllConsistent(v) ==> AllConsistent(r)
  {
    var k := (from, tick);
    if k in v then
      var b := v[k];
      v[k := b.(overall := b.overall - amount, transferable := b.transferable - amount)]
    else
      v
  }

  /**
    An inscribe-for-transfer: available and transferable are computed from
    the balance `fromDoc` the caller read, and written over the stored
    balance, whose overall is kept; nothing happens when no balance is
    stored. When the caller passes the stored balance this is the fold's
    inscription rule.
   */
  function UpdateTransferInscriber(v: View, from: string, amount: int, tick: string, fromDoc: Balance): (r: View)
    ensures r.Keys == v.Keys
    ensures forall k :: k in v && k != (from, tick) ==> r[k] == v[k]
    ensures (from, tick) in v ==> r[(from, tick)].overall == v[(from, tick)].overall
    ensures (from, tick) in v && fromDoc == v[(from, tick)] ==>
      r[(from, tick)] == ApplyKind(v[(from, tick)], Inscription, amount)
    ensures (from, tick) in v ==>
      && r[(from, tick)].available == fromDoc.available - amount
      && r[(from, tick)].transferable == fromDoc.transferable + amount
    ensures (from, tick) !in v ==> r == v
    ensures AllConsistent(v) && ((from, tick) in v ==> fromDoc.available + fromDoc.transferable == v[(from, tick)].overall)
      ==> AllConsistent(r)
  {
    var k := (from, tick);
    if k in v then
      v[k := v[k].(available := fromDoc.available - amount, transferable := fromDoc.transferable + amount)]
    else
      v
  }

  /** One log entry applied through the incremental path, with the stored balance as the caller's read. */
  function ApplyIncremental(v: View, e: Entry): (r: View)
    ensures AllConsistent(v) ==> AllConsistent(r)
  {
    match e.kind
    case Receive => UpdateReceiver(v, e.address, e.amount, e.tick)
    case Send => UpdateSender(v, e.address, e.amount, e.tick)
    case Inscription =>
      var stored := if KeyOf(e) in v then v[KeyOf(e)] else Zero;
      UpdateTransferInscriber(v, e.address, e.amount, e.tick, stored)
  }

  /** The incremental path applied to a whole log, starting from `v`. */
  function Replay(v: View, entries: seq<Entry>): View
    decreases |entries|
  {
    if |entries| == 0 then v
    else ApplyIncremental(Replay(v, entries[..|entries| - 1]), entries[|entries| - 1])
  }

  /** The incremental update and the fold step agree whenever the pair already has a balance or the entry is a receive. */
  lemma IncrementalMatchesStep(v: View, e: Entry)
    requires KeyOf(e) in v || e.kind == Receive
    ensures ApplyIncremental(v, e) == Step(v, e)
  {
  }

  /**
    A send or inscription for a pair without a stored balance is dropped by
    the incremental path, while the fold opens the pair at (0, 0, 0) and
    applies it.
   */
  lemma IncrementalDropsUnknownPair(v: View, e: Entry)
    requires KeyOf(e) !in v && e.kind != Receive
    ensures ApplyIncremental(v, e) == v
    ensures Step(v, e) != v
  {
  }

  /** Every send and inscription in the log follows an earlier entry for the same pair. */
  predicate Covered(entries: seq<Entry>)
  {
    forall i :: 0 <= i < |entries| && entries[i].kind != Receive ==>
      exists j :: 0 <= j < i && KeyOf(entries[j]) == KeyOf(entries[i])
  }

  /**
    On a log where no send or inscription precedes its pair's first entry,
    replaying it incrementally from an empty view gives exactly the rebuilt
    balances.
   */
  lemma {:induction false} ReplayMatchesRebuild(entries: seq<Entry>)
    requires Covered(entries)
    ensures Replay(map[], entries) == Rebuild(entries)
    decreases |entries|
  {
    if |entries| > 0 {
      var n := |entries|;
      var init, last := entries[..n - 1], entries[n - 1];
      assert forall i :: 0 <= i < |init| ==> init[i] == entries[i];
      assert Covered(init);
      ReplayMatchesRebuild(init);
      if last.kind != Receive {
        var j :| 0 <= j < n - 1 && KeyOf(entries[j]) == KeyOf(last);
        assert init[j] in init;
        assert KeyOf(last) in KeysOf(init);
      }
      IncrementalMatchesStep(Rebuild(init), last);
    }
  }
}
