/** The gossip queue as values (src/membership/disseminator.cpp): which updates are piggybacked,
    how often, and when they are dropped. */
module GossipQueue {
  import opened NodeInfos
  import opened Sequences

  datatype Entry = Entry(update: Update, count: nat)

  /** The order in which one queued update replaces another about the same node. */
  predicate Outranks(u: Update, v: Update) {
    u.incarnation > v.incarnation
    || (u.incarnation == v.incarnation && UpdateCode(u.typ) > UpdateCode(v.typ))
  }

  // ---------------------------------------------------------------- specification

  /** The queue after `enqueue`: the first entry about the node is replaced or kept,
      and only a node without an entry is appended. */
  function Enqueue(q: seq<Entry>, u: Update): seq<Entry> {
    if q == [] then [Entry(u, 0)]
    else if q[0].update.node == u.node then
      if Outranks(u, q[0].update) then [Entry(u, 0)] + q[1..] else q
    else [q[0]] + Enqueue(q[1..], u)
  }

  function Min(a: nat, b: nat): nat { if a < b then a else b }

  predicate SortedByCount(s: seq<Entry>) {
    forall i, j :: 0 <= i < j < |s| ==> s[i].count <= s[j].count
  }

  function Updates(s: seq<Entry>): (r: seq<Update>)
    ensures |r| == |s|
    ensures forall i :: 0 <= i < |s| ==> r[i] == s[i].update
  {
    seq(|s|, i requires 0 <= i < |s| => s[i].update)
  }

  /** The first `k` entries have been transmitted once more. */
  function Bump(s: seq<Entry>, k: nat): (r: seq<Entry>)
    requires k <= |s|
    ensures |r| == |s|
    ensures forall i :: 0 <= i < |s| ==> r[i] == if i < k then Entry(s[i].update, s[i].count + 1) else s[i]
  {
    seq(|s|, i requires 0 <= i < |s| => if i < k then Entry(s[i].update, s[i].count + 1) else s[i])
  }

  /** What `erase_if` leaves. */
  function Survivors(s: seq<Entry>, maxTx: nat): seq<Entry> {
    if s == [] then []
    else Survivors(s[..|s| - 1], maxTx)
         + (if s[|s| - 1].count >= maxTx then [] else [s[|s| - 1]])
  }

  /** `s` is an order in which the unstable sort may leave the queue. */
  ghost predicate Arranges(q: seq<Entry>, s: seq<Entry>) {
    multiset(q) == multiset(s) && SortedByCount(s)
  }

  /** One outcome of `get_updates(limit)`, for the order `s` that the sort chose. */
  ghost predicate Sends(q: seq<Entry>, s: seq<Entry>, limit: nat, maxTx: nat, q': seq<Entry>, out: seq<Update>) {
    Arranges(q, s) && out == Updates(s[..Min(limit, |s|)]) && q' == Survivors(Bump(s, Min(limit, |s|)), maxTx)
  }

  /** `get_updates(limit)` may turn `q` into `q'` and return `out`. */
  ghost predicate GetUpdates(q: seq<Entry>, limit: nat, maxTx: nat, q': seq<Entry>, out: seq<Update>) {
    exists s: seq<Entry> :: Sends(q, s, limit, maxTx, q', out)
  }

  ghost predicate OnePerNode(q: seq<Entry>) {
    forall i, j :: 0 <= i < j < |q| ==> q[i].update.node != q[j].update.node
  }

  ghost predicate Queued(q: seq<Entry>, x: NodeId) {
    exists i :: 0 <= i < |q| && q[i].update.node == x
  }

  // ---------------------------------------------------------------- enqueue

  /** One entry per node survives, other nodes keep their entry, and the node of `u` is left
      with the greater of its old update and `u`. */
  lemma {:induction false} EnqueueKeepsGreatest(q: seq<Entry>, u: Update)
    requires OnePerNode(q)
    ensures OnePerNode(Enqueue(q, u))
    ensures forall e :: e in q && e.update.node != u.node ==> e in Enqueue(q, u)
    ensures forall e :: e in Enqueue(q, u) && e.update.node != u.node ==> e in q
    ensures forall e :: e in q && e.update.node == u.node ==>
              (if Outranks(u, e.update) then Entry(u, 0) else e) in Enqueue(q, u)
    ensures !Queued(q, u.node) ==> Entry(u, 0) in Enqueue(q, u)
    ensures forall e :: e in Enqueue(q, u) && e.update.node == u.node && e != Entry(u, 0) ==> e in q
  {
    if q != [] && q[0].update.node != u.node {
      var t := q[1..];
      assert q == [q[0]] + t;
      EnqueueKeepsGreatest(t, u);
      var r := Enqueue(t, u);
      assert Enqueue(q, u) == [q[0]] + r;
      forall j | 0 <= j < |r| ensures r[j].update.node != q[0].update.node {
        assert r[j] in r;
        if r[j].update.node != u.node { assert r[j] in t; }
      }
      assert forall i :: 0 <= i < |t| ==> q[i + 1] == t[i];
    } else if q != [] {
      assert q == [q[0]] + q[1..];
      assert Queued(q, u.node);
      forall e | e in q && e.update.node == u.node ensures e == q[0] {
      }
    }
  }

  // ---------------------------------------------------------------- get_updates

  lemma {:induction false} SurvivorsMember(s: seq<Entry>, maxTx: nat, e: Entry)
    ensures e in Survivors(s, maxTx) <==> e in s && e.count < maxTx
  {
    if s == [] {
    } else {
      var t := s[..|s| - 1];
      assert s == t + [s[|s| - 1]];
      SurvivorsMember(t, maxTx, e);
    }
  }

  lemma {:induction false} SurvivorsOnePerNode(s: seq<Entry>, maxTx: nat)
    requires OnePerNode(s)
    ensures OnePerNode(Survivors(s, maxTx))
  {
    if s == [] {
    } else {
      var t := s[..|s| - 1];
      SurvivorsOnePerNode(t, maxTx);
      forall i | 0 <= i < |Survivors(t, maxTx)|
        ensures Survivors(t, maxTx)[i].update.node != s[|s| - 1].update.node
      {
        SurvivorsMember(t, maxTx, Survivors(t, maxTx)[i]);
      }
    }
  }

  /** Rearranging keeps membership and length. */
  lemma ArrangesMembers(q: seq<Entry>, s: seq<Entry>)
    requires Arranges(q, s)
    ensures |q| == |s|
    ensures forall e :: e in q <==> e in s
  {
    assert |multiset(q)| == |multiset(s)|;
    forall e ensures e in q <==> e in s {
      assert e in q <==> e in multiset(q);
      assert e in s <==> e in multiset(s);
    }
  }

  lemma {:induction false} MultiplicityOne(q: seq<Entry>, i: nat)
    requires OnePerNode(q) && i < |q|
    ensures multiset(q)[q[i]] == 1
  {
    assert q == q[..i] + [q[i]] + q[i + 1..];
    assert q[i] !in q[..i] && q[i] !in q[i + 1..];
    assert multiset(q) == multiset(q[..i]) + multiset{q[i]} + multiset(q[i + 1..]);
  }

  lemma OnceOnly(s: seq<Entry>, i: nat, j: nat)
    requires i < j < |s| && multiset(s)[s[i]] == 1
    ensures s[i] != s[j]
  {
    var t := s[i + 1..];
    assert s == s[..i] + [s[i]] + t;
    assert multiset(s) == multiset(s[..i]) + multiset{s[i]} + multiset(t);
    assert multiset(t)[s[i]] == 0;
    assert t[j - i - 1] == s[j] && s[j] in multiset(t);
  }

  /** Two entries of a queue are about the same node only if they are the same entry. */
  lemma UniqueEntry(q: seq<Entry>, a: Entry, b: Entry)
    requires OnePerNode(q) && a in q && b in q
    ensures a.update.node == b.update.node <==> a == b
  {
  }

  lemma ArrangesOnePerNode(q: seq<Entry>, s: seq<Entry>)
    requires Arranges(q, s) && OnePerNode(q)
    ensures OnePerNode(s)
  {
    ArrangesMembers(q, s);
    forall i, j | 0 <= i < j < |s| ensures s[i].update.node != s[j].update.node {
      assert s[i] in q && s[j] in q;
      var a :| 0 <= a < |q| && q[a] == s[i];
      MultiplicityOne(q, a);
      OnceOnly(s, i, j);
      UniqueEntry(q, s[i], s[j]);
    }
  }

  lemma SendsPrefix(q: seq<Entry>, s: seq<Entry>, limit: nat, maxTx: nat, q': seq<Entry>, out: seq<Update>)
    requires OnePerNode(q) && Sends(q, s, limit, maxTx, q', out)
    ensures |q| == |s| && OnePerNode(s)
    ensures forall i :: 0 <= i < |s| ==> (s[i].update in out <==> i < Min(limit, |s|))
    ensures Distinct(out)
  {
    var k := Min(limit, |s|);
    ArrangesMembers(q, s);
    ArrangesOnePerNode(q, s);
    forall i | 0 <= i < |s| ensures s[i].update in out <==> i < k {
      if i < k { assert out[i] == s[i].update; }
      else {
        forall j | 0 <= j < |out| ensures out[j] != s[i].update { assert out[j] == s[j].update; }
      }
    }
  }

  lemma SendsKeeps(q: seq<Entry>, s: seq<Entry>, limit: nat, maxTx: nat, q': seq<Entry>, out: seq<Update>, e: Entry)
    requires OnePerNode(q) && Sends(q, s, limit, maxTx, q', out) && e in q
    ensures e.update !in out && e.count < maxTx ==> e in q'
    ensures e.update in out && e.count + 1 < maxTx ==> Entry(e.update, e.count + 1) in q'
  {
    SendsPrefix(q, s, limit, maxTx, q', out);
    ArrangesMembers(q, s);
    var b := Bump(s, Min(limit, |s|));
    var i :| 0 <= i < |s| && s[i] == e;
    assert b[i] in b;
    SurvivorsMember(b, maxTx, b[i]);
  }

  /** A surviving entry is an old one, with one more transmission if it was returned. */
  ghost predicate CameFrom(q: seq<Entry>, maxTx: nat, out: seq<Update>, e': Entry) {
    && e'.count < maxTx
    && (if e'.update in out then e'.count > 0 && Entry(e'.update, e'.count - 1) in q else e' in q)
  }

  lemma SendsOnly(q: seq<Entry>, s: seq<Entry>, limit: nat, maxTx: nat, q': seq<Entry>, out: seq<Update>, e': Entry)
    requires OnePerNode(q) && Sends(q, s, limit, maxTx, q', out) && e' in q'
    ensures CameFrom(q, maxTx, out, e')
  {
    SendsPrefix(q, s, limit, maxTx, q', out);
    ArrangesMembers(q, s);
    var b := Bump(s, Min(limit, |s|));
    SurvivorsMember(b, maxTx, e');
    var i :| 0 <= i < |b| && b[i] == e';
    assert s[i] in q;
  }

  lemma SendsLeast(q: seq<Entry>, s: seq<Entry>, limit: nat, maxTx: nat, q': seq<Entry>, out: seq<Update>, e: Entry,
                   e': Entry)
    requires OnePerNode(q) && Sends(q, s, limit, maxTx, q', out)
    requires e in q && e' in q && e.update in out && e'.update !in out
    ensures e.count <= e'.count
  {
    SendsPrefix(q, s, limit, maxTx, q', out);
    ArrangesMembers(q, s);
    var i :| 0 <= i < |s| && s[i] == e;
    var j :| 0 <= j < |s| && s[j] == e';
  }

  lemma SendsOnePerNode(q: seq<Entry>, s: seq<Entry>, limit: nat, maxTx: nat, q': seq<Entry>, out: seq<Update>)
    requires OnePerNode(q) && Sends(q, s, limit, maxTx, q', out)
    ensures OnePerNode(q')
  {
    SendsPrefix(q, s, limit, maxTx, q', out);
    SurvivorsOnePerNode(Bump(s, Min(limit, |s|)), maxTx);
  }

  lemma SendsFromQueue(q: seq<Entry>, s: seq<Entry>, limit: nat, maxTx: nat, q': seq<Entry>, out: seq<Update>,
                       u: Update)
    requires Sends(q, s, limit, maxTx, q', out) && u in out
    ensures exists e :: e in q && e.update == u
  {
    ArrangesMembers(q, s);
    var i :| 0 <= i < |out| && out[i] == u;
    assert s[i] in q && s[i].update == u;
  }

  /** What one call returns: min(limit, size) distinct queued updates, none of them transmitted more
      often than one it holds back. */
  lemma GetUpdatesSelection(q: seq<Entry>, limit: nat, maxTx: nat, q': seq<Entry>, out: seq<Update>)
    requires OnePerNode(q)
    requires GetUpdates(q, limit, maxTx, q', out)
    ensures |out| == Min(limit, |q|)
    ensures Distinct(out)
    ensures forall u :: u in out ==> exists e :: e in q && e.update == u
    ensures forall e, e' :: e in q && e' in q && e.update in out && e'.update !in out ==> e.count <= e'.count
  {
    var s: seq<Entry> :| Sends(q, s, limit, maxTx, q', out);
    SendsPrefix(q, s, limit, maxTx, q', out);
    forall u | u in out ensures exists e :: e in q && e.update == u {
      SendsFromQueue(q, s, limit, maxTx, q', out, u);
    }
    forall e, e' | e in q && e' in q && e.update in out && e'.update !in out ensures e.count <= e'.count {
      SendsLeast(q, s, limit, maxTx, q', out, e, e');
    }
  }

  /** What one call leaves: a returned update has its counter raised and is dropped when the counter
      reaches the limit, an update held back is untouched, and nothing else is in the queue. */
  lemma GetUpdatesRemainder(q: seq<Entry>, limit: nat, maxTx: nat, q': seq<Entry>, out: seq<Update>)
    requires OnePerNode(q)
    requires GetUpdates(q, limit, maxTx, q', out)
    ensures OnePerNode(q')
    ensures forall e :: e in q && e.update !in out && e.count < maxTx ==> e in q'
    ensures forall e :: e in q && e.update in out && e.count + 1 < maxTx ==> Entry(e.update, e.count + 1) in q'
    ensures forall e' :: e' in q' ==> CameFrom(q, maxTx, out, e')
  {
    var s: seq<Entry> :| Sends(q, s, limit, maxTx, q', out);
    SendsOnePerNode(q, s, limit, maxTx, q', out);
    forall e | e in q ensures
        && (e.update !in out && e.count < maxTx ==> e in q')
        && (e.update in out && e.count + 1 < maxTx ==> Entry(e.update, e.count + 1) in q')
    {
      SendsKeeps(q, s, limit, maxTx, q', out, e);
    }
    forall e' | e' in q' ensures CameFrom(q, maxTx, out, e') {
      SendsOnly(q, s, limit, maxTx, q', out, e');
    }
  }

  // ---------------------------------------------------------------- nothing is made up

  ghost function UpdatesIn(q: seq<Entry>): set<Update> { set e | e in q :: e.update }

  lemma GetUpdatesSources(q: seq<Entry>, limit: nat, maxTx: nat, q': seq<Entry>, out: seq<Update>)
    requires GetUpdates(q, limit, maxTx, q', out)
    ensures UpdatesIn(q') <= UpdatesIn(q)
    ensures forall u :: u in out ==> u in UpdatesIn(q)
  {
    var s: seq<Entry> :| Sends(q, s, limit, maxTx, q', out);
    ArrangesMembers(q, s);
    forall u | u in out ensures u in UpdatesIn(q) { SendsFromQueue(q, s, limit, maxTx, q', out, u); }
    var b := Bump(s, Min(limit, |s|));
    forall e | e in q' ensures e.update in UpdatesIn(q) {
      SurvivorsMember(b, maxTx, e);
      var i :| 0 <= i < |b| && b[i] == e;
      assert s[i] in q;
    }
  }

  /** A transmission limit of zero empties the queue on the first call, handed out or not. */
  lemma ZeroLimitDropsAll(q: seq<Entry>, limit: nat, q': seq<Entry>, out: seq<Update>)
    requires GetUpdates(q, limit, 0, q', out)
    ensures q' == []
  {
    var s: seq<Entry> :| Sends(q, s, limit, 0, q', out);
    if q' != [] { SurvivorsMember(Bump(s, Min(limit, |s|)), 0, q'[0]); }
  }

  // ---------------------------------------------------------------- transmission budget

  /** Every queued entry still has a transmission left. */
  ghost predicate WithinLimit(q: seq<Entry>, maxTx: nat) {
    forall e :: e in q ==> e.count < maxTx
  }

  lemma EnqueueWithinLimit(q: seq<Entry>, u: Update, maxTx: nat)
    requires OnePerNode(q) && WithinLimit(q, maxTx) && maxTx >= 1
    ensures WithinLimit(Enqueue(q, u), maxTx)
  {
  }

  /** Transmissions the queue still owes in all. */
  ghost function Budget(q: seq<Entry>, maxTx: nat): int {
    if q == [] then 0 else Budget(q[..|q| - 1], maxTx) + maxTx - q[|q| - 1].count
  }

  /** Transmissions the queue still owes to one update. */
  ghost function Owed(q: seq<Entry>, u: Update, maxTx: nat): int {
    if q == [] then 0
    else Owed(q[..|q| - 1], u, maxTx) + (if q[|q| - 1].update == u then maxTx - q[|q| - 1].count else 0)
  }

  /** Budget as a sum over a multiset, so that it does not depend on the order. */
  lemma {:induction false} BudgetRemove(q: seq<Entry>, i: nat, maxTx: nat)
    requires i < |q|
    ensures Budget(q, maxTx) == Budget(q[..i] + q[i + 1..], maxTx) + maxTx - q[i].count
  {
    var n := |q| - 1;
    if i == n {
      assert q[..i] + q[i + 1..] == q[..n];
    } else {
      BudgetRemove(q[..n], i, maxTx);
      var r := q[..i] + q[i + 1..];
      assert r[..|r| - 1] == q[..n][..i] + q[..n][i + 1..];
    }
  }

  lemma RemoveOne(s: seq<Entry>, i: nat)
    requires i < |s|
    ensures multiset(s) == multiset(s[..i] + s[i + 1..]) + multiset{s[i]}
  {
    assert s == s[..i] + [s[i]] + s[i + 1..];
    assert multiset(s) == multiset(s[..i]) + multiset{s[i]} + multiset(s[i + 1..]);
  }

  lemma {:induction false} BudgetOrder(q: seq<Entry>, s: seq<Entry>, maxTx: nat)
    requires multiset(q) == multiset(s)
    ensures Budget(q, maxTx) == Budget(s, maxTx)
    decreases |q|
  {
    if q == [] {
      assert |multiset(s)| == 0;
    } else {
      var n := |q| - 1;
      var x := q[n];
      assert q == q[..n] + [x];
      assert x in multiset(q) && x in multiset(s);
      var i :| 0 <= i < |s| && s[i] == x;
      BudgetRemove(s, i, maxTx);
      RemoveOne(s, i);
      assert multiset(q[..n]) == multiset(q) - multiset{x};
      assert multiset(s[..i] + s[i + 1..]) == multiset(s) - multiset{x};
      BudgetOrder(q[..n], s[..i] + s[i + 1..], maxTx);
    }
  }

  lemma {:induction false} BudgetBump(s: seq<Entry>, k: nat, maxTx: nat)
    requires k <= |s|
    ensures Budget(Bump(s, k), maxTx) == Budget(s, maxTx) - k
  {
    if s == [] {
    } else {
      var n := |s| - 1;
      if k <= n {
        BudgetBump(s[..n], k, maxTx);
        assert Bump(s, k)[..n] == Bump(s[..n], k);
      } else {
        BudgetBump(s[..n], n, maxTx);
        assert Bump(s, k)[..n] == Bump(s[..n], n);
      }
    }
  }

  lemma {:induction false} BudgetSurvivors(s: seq<Entry>, maxTx: nat)
    requires forall i :: 0 <= i < |s| ==> s[i].count <= maxTx
    ensures Budget(Survivors(s, maxTx), maxTx) == Budget(s, maxTx)
  {
    if s == [] {
    } else {
      var n := |s| - 1;
      BudgetSurvivors(s[..n], maxTx);
      var r := Survivors(s[..n], maxTx);
      assert r + [] == r && (r + [s[n]])[..|r|] == r;
    }
  }

  lemma BudgetNonnegative(q: seq<Entry>, maxTx: nat)
    requires WithinLimit(q, maxTx)
    ensures Budget(q, maxTx) >= |q|
  {
  }

  /** Conservation: each call spends exactly one transmission per update it returns. */
  lemma GetUpdatesSpendsBudget(q: seq<Entry>, limit: nat, maxTx: nat, q': seq<Entry>, out: seq<Update>)
    requires WithinLimit(q, maxTx)
    requires GetUpdates(q, limit, maxTx, q', out)
    ensures WithinLimit(q', maxTx)
    ensures Budget(q', maxTx) == Budget(q, maxTx) - Min(limit, |q|)
  {
    var s: seq<Entry> :| Sends(q, s, limit, maxTx, q', out);
    var k := Min(limit, |s|);
    ArrangesMembers(q, s);
    BudgetOrder(q, s, maxTx);
    BudgetBump(s, k, maxTx);
    forall i | 0 <= i < |s| ensures Bump(s, k)[i].count <= maxTx { assert s[i] in q; }
    BudgetSurvivors(Bump(s, k), maxTx);
    forall e | e in q' ensures e.count < maxTx { SurvivorsMember(Bump(s, k), maxTx, e); }
  }

  lemma {:induction false} OwedByEntry(q: seq<Entry>, u: Update, maxTx: nat)
    requires OnePerNode(q)
    ensures forall e :: e in q && e.update == u ==> Owed(q, u, maxTx) == maxTx - e.count
    ensures (forall e :: e in q ==> e.update != u) ==> Owed(q, u, maxTx) == 0
  {
    if q == [] {
    } else {
      var n := |q| - 1;
      assert q == q[..n] + [q[n]];
      OwedByEntry(q[..n], u, maxTx);
      if q[n].update == u {
        assert forall e :: e in q[..n] ==> e.update != u;
      } else {
        assert forall e :: e in q && e.update == u ==> e in q[..n];
        assert forall e :: e in q[..n] ==> e in q;
      }
    }
  }

  lemma SurvivorOf(q: seq<Entry>, maxTx: nat, out: seq<Update>, e: Entry, e': Entry)
    requires OnePerNode(q) && e in q && e'.update == e.update && CameFrom(q, maxTx, out, e')
    ensures e'.count == if e.update in out then e.count + 1 else e.count
  {
  }

  /** Conservation per update: what is returned is one transmission less owed, and nothing else changes. */
  lemma GetUpdatesSpendsOwed(q: seq<Entry>, limit: nat, maxTx: nat, q': seq<Entry>, out: seq<Update>, u: Update)
    requires OnePerNode(q) && WithinLimit(q, maxTx)
    requires GetUpdates(q, limit, maxTx, q', out)
    ensures Owed(q', u, maxTx) == Owed(q, u, maxTx) - (if u in out then 1 else 0)
  {
    hide GetUpdates, Owed;
    GetUpdatesSelection(q, limit, maxTx, q', out);
    GetUpdatesRemainder(q, limit, maxTx, q', out);
    if e :| e in q && e.update == u {
      OwedByEntry(q, u, maxTx);
      OwedAfter(q, maxTx, q', out, e);
    } else {
      OwedByEntry(q, u, maxTx);
      forall e' | e' in q' ensures e'.update != u { assert CameFrom(q, maxTx, out, e'); }
      OwedByEntry(q', u, maxTx);
    }
  }

  lemma OwedAfter(q: seq<Entry>, maxTx: nat, q': seq<Entry>, out: seq<Update>, e: Entry)
    requires OnePerNode(q) && OnePerNode(q') && e in q && e.count < maxTx
    requires e.update !in out ==> e in q'
    requires e.update in out && e.count + 1 < maxTx ==> Entry(e.update, e.count + 1) in q'
    requires forall e' :: e' in q' ==> CameFrom(q, maxTx, out, e')
    ensures Owed(q', e.update, maxTx) == maxTx - e.count - (if e.update in out then 1 else 0)
  {
    hide Owed;
    OwedByEntry(q', e.update, maxTx);
    forall e' | e' in q' && e'.update == e.update
      ensures e'.count == (if e.update in out then e.count + 1 else e.count) && e'.count < maxTx
    {
      SurvivorOf(q, maxTx, out, e, e');
    }
  }

  /** `qs` are the queues of a run of calls `get_updates(limits[i])` with nothing enqueued in
      between, and `outs` what the calls return. */
  ghost predicate Drain(qs: seq<seq<Entry>>, limits: seq<nat>, outs: seq<seq<Update>>, maxTx: nat) {
    && |qs| == |limits| + 1 && |outs| == |limits|
    && (forall i :: 0 <= i < |limits| ==> GetUpdates(qs[i], limits[i], maxTx, qs[i + 1], outs[i]))
  }

  ghost function TimesSent(outs: seq<seq<Update>>, u: Update): nat {
    if outs == [] then 0
    else TimesSent(outs[..|outs| - 1], u) + (if u in outs[|outs| - 1] then 1 else 0)
  }

  lemma {:induction false} DrainConserves(qs: seq<seq<Entry>>, limits: seq<nat>, outs: seq<seq<Update>>, maxTx: nat,
                                          u: Update)
    requires Drain(qs, limits, outs, maxTx)
    requires OnePerNode(qs[0]) && WithinLimit(qs[0], maxTx)
    ensures OnePerNode(qs[|limits|]) && WithinLimit(qs[|limits|], maxTx)
    ensures TimesSent(outs, u) + Owed(qs[|limits|], u, maxTx) == Owed(qs[0], u, maxTx)
  {
    if limits == [] {
    } else {
      var n := |limits| - 1;
      DrainConserves(qs[..n + 1], limits[..n], outs[..n], maxTx, u);
      GetUpdatesRemainder(qs[n], limits[n], maxTx, qs[n + 1], outs[n]);
      GetUpdatesSpendsBudget(qs[n], limits[n], maxTx, qs[n + 1], outs[n]);
      GetUpdatesSpendsOwed(qs[n], limits[n], maxTx, qs[n + 1], outs[n], u);
    }
  }

  lemma {:induction false} DrainShrinks(qs: seq<seq<Entry>>, limits: seq<nat>, outs: seq<seq<Update>>, maxTx: nat)
    requires Drain(qs, limits, outs, maxTx)
    requires WithinLimit(qs[0], maxTx)
    requires forall i :: 0 <= i < |limits| ==> limits[i] >= 1
    ensures WithinLimit(qs[|limits|], maxTx)
    ensures qs[|limits|] == [] || Budget(qs[|limits|], maxTx) <= Budget(qs[0], maxTx) - |limits|
  {
    if limits == [] {
    } else {
      var n := |limits| - 1;
      DrainShrinks(qs[..n + 1], limits[..n], outs[..n], maxTx);
      GetUpdatesSpendsBudget(qs[n], limits[n], maxTx, qs[n + 1], outs[n]);
      if qs[n] == [] {
        BudgetNonnegative(qs[n + 1], maxTx);
      }
    }
  }

  /** With nothing new enqueued, as many calls as the budget (each with a positive limit) empty the
      queue, and by then every update that was queued has been sent exactly as often as it was owed:
      a fresh one exactly `maxTx` times. */
  lemma DrainSendsExactly(qs: seq<seq<Entry>>, limits: seq<nat>, outs: seq<seq<Update>>, maxTx: nat)
    requires Drain(qs, limits, outs, maxTx)
    requires OnePerNode(qs[0]) && WithinLimit(qs[0], maxTx)
    requires forall i :: 0 <= i < |limits| ==> limits[i] >= 1
    requires |limits| >= Budget(qs[0], maxTx)
    ensures qs[|limits|] == []
    ensures forall e :: e in qs[0] ==> TimesSent(outs, e.update) == maxTx - e.count
  {
    DrainShrinks(qs, limits, outs, maxTx);
    BudgetNonnegative(qs[|limits|], maxTx);
    forall e | e in qs[0] ensures TimesSent(outs, e.update) == maxTx - e.count {
      DrainConserves(qs, limits, outs, maxTx, e.update);
      OwedByEntry(qs[0], e.update, maxTx);
    }
  }

  // ---------------------------------------------------------------- runs with enqueues

  datatype QueueOp = EnqueueOp(update: Update) | GetOp(limit: nat)

  ghost predicate QueueStep(q: seq<Entry>, op: QueueOp, maxTx: nat, q': seq<Entry>) {
    match op
    case EnqueueOp(u) => q' == Enqueue(q, u)
    case GetOp(limit) => exists out :: GetUpdates(q, limit, maxTx, q', out)
  }

  /** `qs` are the queues of a run of the disseminator from its construction. */
  ghost predicate QueueRun(qs: seq<seq<Entry>>, ops: seq<QueueOp>, maxTx: nat) {
    && |qs| == |ops| + 1 && qs[0] == []
    && (forall i :: 0 <= i < |ops| ==> QueueStep(qs[i], ops[i], maxTx, qs[i + 1]))
  }

  /** The updates about `x` enqueued since the queue last held none about it. */
  ghost function EnqueuedSince(qs: seq<seq<Entry>>, ops: seq<QueueOp>, j: nat, x: NodeId): seq<Update>
    requires |qs| == |ops| + 1 && j <= |ops|
  {
    if j == 0 then []
    else
      var before := if Queued(qs[j - 1], x) then EnqueuedSince(qs, ops, j - 1, x) else [];
      match ops[j - 1]
      case EnqueueOp(u) => if u.node == x then before + [u] else before
      case GetOp(_) => before
  }

  lemma QueueStepKeepsUnique(q: seq<Entry>, op: QueueOp, maxTx: nat, q': seq<Entry>)
    requires OnePerNode(q) && QueueStep(q, op, maxTx, q')
    ensures OnePerNode(q')
  {
    match op {
      case EnqueueOp(u) => EnqueueKeepsGreatest(q, u);
      case GetOp(limit) =>
        var out :| GetUpdates(q, limit, maxTx, q', out);
        GetUpdatesRemainder(q, limit, maxTx, q', out);
    }
  }

  /** `e` holds the greatest of the updates about its node enqueued since it entered. */
  ghost predicate Greatest(qs: seq<seq<Entry>>, ops: seq<QueueOp>, j: nat, e: Entry)
    requires |qs| == |ops| + 1 && j <= |ops|
  {
    var since := EnqueuedSince(qs, ops, j, e.update.node);
    e.update in since && forall u :: u in since ==> !Outranks(u, e.update)
  }

  ghost predicate AllGreatest(qs: seq<seq<Entry>>, ops: seq<QueueOp>, j: nat)
    requires |qs| == |ops| + 1 && j <= |ops|
  {
    forall e :: e in qs[j] ==> Greatest(qs, ops, j, e)
  }

  lemma EnqueueTracksGreatest(qs: seq<seq<Entry>>, ops: seq<QueueOp>, j: nat, u: Update, e': Entry)
    requires |qs| == |ops| + 1 && 0 < j <= |ops|
    requires OnePerNode(qs[j - 1]) && AllGreatest(qs, ops, j - 1)
    requires ops[j - 1] == EnqueueOp(u) && e' in Enqueue(qs[j - 1], u)
    ensures Greatest(qs, ops, j, e')
  {
    var q, x := qs[j - 1], e'.update.node;
    EnqueueKeepsGreatest(q, u);
    if u.node != x {
      EntryIsQueued(q, e');
    } else if Queued(q, x) {
      var i :| 0 <= i < |q| && q[i].update.node == x;
      var e := q[i];
      assert e in q && Greatest(qs, ops, j - 1, e);
      UniqueEntry(Enqueue(q, u), if Outranks(u, e.update) then Entry(u, 0) else e, e');
    } else {
      UniqueEntry(Enqueue(q, u), Entry(u, 0), e');
    }
  }

  lemma GetTracksGreatest(qs: seq<seq<Entry>>, ops: seq<QueueOp>, maxTx: nat, j: nat, out: seq<Update>, e': Entry)
    requires |qs| == |ops| + 1 && 0 < j <= |ops|
    requires OnePerNode(qs[j - 1]) && AllGreatest(qs, ops, j - 1)
    requires ops[j - 1].GetOp? && GetUpdates(qs[j - 1], ops[j - 1].limit, maxTx, qs[j], out) && e' in qs[j]
    ensures Greatest(qs, ops, j, e')
  {
    GetUpdatesRemainder(qs[j - 1], ops[j - 1].limit, maxTx, qs[j], out);
    assert CameFrom(qs[j - 1], maxTx, out, e');
    var p := if e'.update in out then Entry(e'.update, e'.count - 1) else e';
    assert p in qs[j - 1];
    EntryIsQueued(qs[j - 1], p);
    assert Greatest(qs, ops, j - 1, p);
  }

  lemma EntryIsQueued(q: seq<Entry>, e: Entry)
    requires e in q
    ensures Queued(q, e.update.node)
  {
  }

  /** With a limit of at least one every queued update is owed a transmission, at every point of every run. */
  lemma {:induction false} RunWithinLimit(qs: seq<seq<Entry>>, ops: seq<QueueOp>, maxTx: nat, j: nat)
    requires QueueRun(qs, ops, maxTx) && j <= |ops| && maxTx >= 1
    ensures OnePerNode(qs[j]) && WithinLimit(qs[j], maxTx)
  {
    if j == 0 {
    } else {
      RunWithinLimit(qs, ops, maxTx, j - 1);
      assert QueueStep(qs[j - 1], ops[j - 1], maxTx, qs[j - 1 + 1]);
      QueueStepKeepsUnique(qs[j - 1], ops[j - 1], maxTx, qs[j]);
      match ops[j - 1] {
        case EnqueueOp(u) => EnqueueWithinLimit(qs[j - 1], u, maxTx);
        case GetOp(limit) =>
          var out :| GetUpdates(qs[j - 1], limit, maxTx, qs[j], out);
          GetUpdatesSpendsBudget(qs[j - 1], limit, maxTx, qs[j], out);
      }
    }
  }

  /** At every point of every run the queue holds at most one update per node, and the one it holds
      is the greatest of those enqueued since the node entered the queue. */
  lemma {:induction false} QueueHoldsGreatest(qs: seq<seq<Entry>>, ops: seq<QueueOp>, maxTx: nat, j: nat)
    requires QueueRun(qs, ops, maxTx) && j <= |ops|
    ensures OnePerNode(qs[j])
    ensures AllGreatest(qs, ops, j)
  {
    if j == 0 {
    } else {
      QueueHoldsGreatest(qs, ops, maxTx, j - 1);
      assert QueueStep(qs[j - 1], ops[j - 1], maxTx, qs[j]);
      QueueStepKeepsUnique(qs[j - 1], ops[j - 1], maxTx, qs[j]);
      forall e' | e' in qs[j] ensures Greatest(qs, ops, j, e') {
        match ops[j - 1] {
          case EnqueueOp(u) => EnqueueTracksGreatest(qs, ops, j, u, e');
          case GetOp(limit) =>
            var out :| GetUpdates(qs[j - 1], limit, maxTx, qs[j], out);
            GetTracksGreatest(qs, ops, maxTx, j, out, e');
        }
      }
    }
  }
}

/** The object that holds the queue; `std::sort` is replaced by an insertion sort whose contract is
    all its caller uses. */
module Dissemination {
  import opened NodeInfos
  import opened GossipQueue

  class Disseminator {
    const maxTransmissions: nat
    var queue: seq<Entry>

    constructor (maxTransmissions: nat := 10)
      ensures this.maxTransmissions == maxTransmissions && queue == []
    {
      this.maxTransmissions := maxTransmissions;
      queue := [];
    }

    method Enqueue(update: Update)
      modifies this
      ensures queue == GossipQueue.Enqueue(old(queue), update)
    {
      var i := 0;
      while i < |queue|
        invariant 0 <= i <= |queue|
        invariant queue == old(queue)
        invariant forall j :: 0 <= j < i ==> queue[j].update.node != update.node
      {
        if queue[i].update.node == update.node {
          EnqueueAt(queue, i, update);
          if Outranks(update, queue[i].update) {
            queue := queue[i := Entry(update, 0)];
          }
          return;
        }
        i := i + 1;
      }
      EnqueueAbsent(queue, update);
      queue := queue + [Entry(update, 0)];
    }

    method GetUpdates(limit: nat) returns (result: seq<Update>)
      modifies this
      ensures GossipQueue.GetUpdates(old(queue), limit, maxTransmissions, queue, result)
    {
      queue := SortByCount(queue);
      ghost var s := queue;
      ghost var k := Min(limit, |s|);
      result := [];
      var count := Min(limit, |queue|);
      for i := 0 to count
        invariant |queue| == |s|
        invariant queue == Bump(s, i)
        invariant result == Updates(s[..i])
      {
        result := result + [queue[i].update];
        queue := queue[i := Entry(queue[i].update, queue[i].count + 1)];
      }
      var kept := [];
      for i := 0 to |queue|
        invariant queue == Bump(s, k)
        invariant kept == Survivors(queue[..i], maxTransmissions)
      {
        assert queue[..i + 1][..i] == queue[..i];
        if queue[i].count < maxTransmissions {
          kept := kept + [queue[i]];
        }
      }
      assert queue[..|queue|] == queue;
      queue := kept;
      assert Sends(old(queue), s, limit, maxTransmissions, queue, result);
    }
  }

  lemma {:induction false} EnqueueAt(q: seq<Entry>, i: nat, u: Update)
    requires i < |q| && q[i].update.node == u.node
    requires forall j :: 0 <= j < i ==> q[j].update.node != u.node
    ensures GossipQueue.Enqueue(q, u) == if Outranks(u, q[i].update) then q[i := Entry(u, 0)] else q
  {
    if i == 0 {
    } else {
      EnqueueAt(q[1..], i - 1, u);
    }
  }

  lemma {:induction false} EnqueueAbsent(q: seq<Entry>, u: Update)
    requires forall j :: 0 <= j < |q| ==> q[j].update.node != u.node
    ensures GossipQueue.Enqueue(q, u) == q + [Entry(u, 0)]
  {
    if q == [] {
    } else {
      EnqueueAbsent(q[1..], u);
    }
  }

  method Insert(s: seq<Entry>, e: Entry) returns (r: seq<Entry>)
    requires SortedByCount(s)
    ensures SortedByCount(r)
    ensures multiset(r) == multiset(s) + multiset{e}
  {
    hide SortedByCount;
    var j := |s|;
    while j > 0 && s[j - 1].count > e.count
      invariant 0 <= j <= |s|
      invariant forall m :: j <= m < |s| ==> s[m].count > e.count
    {
      j := j - 1;
    }
    assert s == s[..j] + s[j..];
    r := s[..j] + [e] + s[j..];
    InsertedInOrder(s, j, e);
  }

  lemma InsertedInOrder(s: seq<Entry>, j: nat, e: Entry)
    requires SortedByCount(s) && j <= |s| && (j > 0 ==> s[j - 1].count <= e.count)
    requires forall m :: j <= m < |s| ==> s[m].count > e.count
    ensures SortedByCount(s[..j] + [e] + s[j..])
  {
  }

  /** Stands for `std::sort`; callers may rely on nothing but a sorted rearrangement. */
  method SortByCount(q: seq<Entry>) returns (s: seq<Entry>)
    ensures Arranges(q, s)
  {
    s := [];
    for i := 0 to |q|
      invariant SortedByCount(s)
      invariant multiset(s) == multiset(q[..i])
    {
      assert q[..i + 1] == q[..i] + [q[i]];
      s := Insert(s, q[i]);
    }
    assert q[..|q|] == q;
  }

  /** A disseminator from its construction on, through any calls: its queue moves as a run of the model, and
      `outs` are the updates each call hands out. */
  method Serve(maxTransmissions: nat, ops: seq<QueueOp>)
    returns (d: Disseminator, outs: seq<seq<Update>>, ghost qs: seq<seq<Entry>>)
    ensures QueueRun(qs, ops, maxTransmissions) && fresh(d) && d.queue == qs[|ops|]
    ensures |outs| == |ops|
    ensures forall i :: 0 <= i < |ops| ==> HandsOut(qs[i], ops[i], maxTransmissions, qs[i + 1], outs[i])
  {
    hide GossipQueue.GetUpdates, GossipQueue.Enqueue;
    d := new Disseminator(maxTransmissions);
    outs, qs := [], [d.queue];
    for i := 0 to |ops|
      invariant d.maxTransmissions == maxTransmissions && |outs| == i && |qs| == i + 1
      invariant qs[0] == [] && qs[i] == d.queue
      invariant forall j :: 0 <= j < i ==> HandsOut(qs[j], ops[j], maxTransmissions, qs[j + 1], outs[j])
    {
      var out := [];
      match ops[i] {
        case EnqueueOp(update) => d.Enqueue(update);
        case GetOp(limit) => out := d.GetUpdates(limit);
      }
      assert HandsOut(qs[i], ops[i], maxTransmissions, d.queue, out);
      outs, qs := outs + [out], qs + [d.queue];
    }
    forall i | 0 <= i < |ops| ensures QueueStep(qs[i], ops[i], maxTransmissions, qs[i + 1]) {
      assert HandsOut(qs[i], ops[i], maxTransmissions, qs[i + 1], outs[i]);
    }
  }

  ghost predicate HandsOut(q: seq<Entry>, op: QueueOp, maxTx: nat, q': seq<Entry>, out: seq<Update>) {
    match op
    case EnqueueOp(u) => q' == GossipQueue.Enqueue(q, u) && out == []
    case GetOp(limit) => GossipQueue.GetUpdates(q, limit, maxTx, q', out)
  }
}
