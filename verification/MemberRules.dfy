/** How one node's view of its peers changes (src/membership/member_list.cpp), as functions on the
    map of known members, and the order in which views grow. */
module MemberRules {
  import opened NodeInfos

  /** A proposal (incarnation, state) replaces what is recorded. */
  predicate Replaces(incarnation: nat, state: NodeState, current: NodeInfo) {
    incarnation > current.incarnation
    || (incarnation == current.incarnation && StateSupersedes(state, current.state))
  }

  predicate AddAccepted(m: Members, info: NodeInfo) {
    info.id in m ==> Replaces(info.incarnation, info.state, m[info.id])
  }

  function AddNode(m: Members, info: NodeInfo): Members {
    if AddAccepted(m, info) then m[info.id := info] else m
  }

  predicate UpdateAccepted(m: Members, id: NodeId, state: NodeState, incarnation: nat) {
    id in m && Replaces(incarnation, state, m[id])
  }

  function UpdateState(m: Members, id: NodeId, state: NodeState, incarnation: nat): Members {
    if UpdateAccepted(m, id, state, incarnation)
    then m[id := m[id].(state := state, incarnation := incarnation)]
    else m
  }

  function RemoveNode(m: Members, id: NodeId): Members { m - {id} }

  // ---------------------------------------------------------------- the order on views

  /** (incarnation, state) compared lexicographically. */
  predicate StampLeq(i: nat, s: NodeState, j: nat, t: NodeState) {
    i < j || (i == j && Rank(s) <= Rank(t))
  }

  predicate InfoLeq(a: NodeInfo, b: NodeInfo) {
    StampLeq(a.incarnation, a.state, b.incarnation, b.state)
  }

  /** `m'` knows everybody `m` knows, at the same or a later stamp. */
  ghost predicate Grows(m: Members, m': Members) {
    forall id :: id in m ==> id in m' && InfoLeq(m[id], m'[id])
  }

  /** The view a node adopts from one piggybacked update about another node. */
  function Merge(m: Members, u: Update): Members {
    match u.typ
    case JoinUpdate => AddNode(m, NodeInfo(u.node, u.dataPort, Alive, u.incarnation))
    case AliveUpdate => AddNode(m, NodeInfo(u.node, u.dataPort, Alive, u.incarnation))
    case SuspectUpdate => UpdateState(m, u.node, Suspect, u.incarnation)
    case DeadUpdate => UpdateState(m, u.node, Dead, u.incarnation)
    case LeaveUpdate => UpdateState(m, u.node, Left, u.incarnation)
  }

  function StateOf(t: UpdateType): NodeState {
    match t
    case JoinUpdate => Alive
    case AliveUpdate => Alive
    case SuspectUpdate => Suspect
    case DeadUpdate => Dead
    case LeaveUpdate => Left
  }

  function MergeAll(m: Members, us: seq<Update>): Members {
    if us == [] then m else Merge(MergeAll(m, us[..|us| - 1]), us[|us| - 1])
  }

  /** The recorded stamp is at least the update's. */
  predicate Reaches(info: NodeInfo, u: Update) {
    StampLeq(u.incarnation, StateOf(u.typ), info.incarnation, info.state)
  }

  predicate SameStamp(a: NodeInfo, b: NodeInfo) {
    a.incarnation == b.incarnation && a.state == b.state
  }

  /** After any list of updates a known member's stamp is the least upper bound of what was recorded
      and of every update about it: it covers them all and is one of them. */
  lemma {:induction false} MergeAllIsJoin(m: Members, us: seq<Update>, id: NodeId)
    requires id in m
    ensures id in MergeAll(m, us) && InfoLeq(m[id], MergeAll(m, us)[id])
    ensures forall u :: u in us && u.node == id ==> Reaches(MergeAll(m, us)[id], u)
    ensures SameStamp(MergeAll(m, us)[id], m[id])
            || exists u :: u in us && u.node == id
                        && u.incarnation == MergeAll(m, us)[id].incarnation
                        && StateOf(u.typ) == MergeAll(m, us)[id].state
  {
    if us == [] {
    } else {
      var n := |us| - 1;
      var last := us[n];
      MergeAllIsJoin(m, us[..n], id);
      assert us == us[..n] + [last];
      assert last in us;
      var before, after := MergeAll(m, us[..n])[id], MergeAll(m, us)[id];
      if after == before {
        if !SameStamp(after, m[id]) {
          var u :| u in us[..n] && u.node == id && u.incarnation == before.incarnation
              && StateOf(u.typ) == before.state;
          assert u in us;
        }
      } else {
        assert last.node == id && last.incarnation == after.incarnation && StateOf(last.typ) == after.state;
      }
    }
  }

  /** Order and repetition do not matter: two lists with the same updates lead to the same stamp. */
  lemma MergeOrderIrrelevant(m: Members, us: seq<Update>, vs: seq<Update>, id: NodeId)
    requires id in m
    requires forall u :: u in us <==> u in vs
    ensures id in MergeAll(m, us) && id in MergeAll(m, vs)
    ensures SameStamp(MergeAll(m, us)[id], MergeAll(m, vs)[id])
  {
    MergeBelow(m, us, vs, id);
    MergeBelow(m, vs, us, id);
  }

  lemma MergeBelow(m: Members, us: seq<Update>, vs: seq<Update>, id: NodeId)
    requires id in m
    requires forall u :: u in us ==> u in vs
    ensures id in MergeAll(m, us) && id in MergeAll(m, vs)
    ensures InfoLeq(MergeAll(m, us)[id], MergeAll(m, vs)[id])
  {
    MergeAllIsJoin(m, us, id);
    MergeAllIsJoin(m, vs, id);
    if !SameStamp(MergeAll(m, us)[id], m[id]) {
      var u :| u in us && u.node == id
               && u.incarnation == MergeAll(m, us)[id].incarnation
               && StateOf(u.typ) == MergeAll(m, us)[id].state;
      assert u in vs;
    }
  }

  // ---------------------------------------------------------------- nodes not yet known

  /** For a node not yet known the order does matter: news of its death that arrives first is dropped. */
  lemma UnknownNodeOrderMatters(m: Members, x: NodeId)
    requires x !in m
    ensures var dead := Update(DeadUpdate, x, 1, 0);
            var alive := Update(AliveUpdate, x, 0, 0);
            && MergeAll(m, [dead, alive]) == m[x := NodeInfo(x, 0, Alive, 0)]
            && MergeAll(m, [alive, dead]) == m[x := NodeInfo(x, 0, Dead, 1)]
  {
    var dead := Update(DeadUpdate, x, 1, 0);
    var alive := Update(AliveUpdate, x, 0, 0);
    assert [dead, alive][..1] == [dead] && [alive, dead][..1] == [alive];
    assert [dead][..0] == [] && [alive][..0] == [];
    assert MergeAll(m, [dead]) == m;
    assert MergeAll(m, [alive]) == m[x := NodeInfo(x, 0, Alive, 0)];
  }

  /** Only these updates make a node known. */
  predicate Introduces(u: Update, id: NodeId) { u.node == id && (u.typ.JoinUpdate? || u.typ.AliveUpdate?) }

  ghost predicate SameUpdates(us: seq<Update>, vs: seq<Update>) { forall u :: u in us <==> u in vs }

  /** Both views know the node, at the same stamp, or neither does. */
  predicate Agree(m: Members, m': Members, id: NodeId) {
    (id in m <==> id in m') && (id in m ==> SameStamp(m[id], m'[id]))
  }

  /** Nothing introduces the node, or an introduction outdates everything else said about it. */
  ghost predicate Conclusive(us: seq<Update>, id: NodeId) {
    || (forall u :: u in us ==> !Introduces(u, id))
    || (forall u :: u in us && u.node == id && !Introduces(u, id) ==> Superseded(us, u, id))
  }

  ghost predicate Superseded(us: seq<Update>, u: Update, id: NodeId) {
    exists a :: a in us && Introduces(a, id) && u.incarnation < a.incarnation
  }

  lemma {:induction false} MergeAllPlus(m: Members, us: seq<Update>, vs: seq<Update>)
    ensures MergeAll(m, us + vs) == MergeAll(MergeAll(m, us), vs)
  {
    if vs == [] {
      assert us + vs == us;
    } else {
      var n := |vs| - 1;
      assert (us + vs)[..|us| + n] == us + vs[..n];
      MergeAllPlus(m, us, vs[..n]);
    }
  }

  /** The stamp a node unknown at first ends up with: that of some update about it, at least that of
      every introduction. */
  lemma {:induction false} UnknownStamp(m: Members, us: seq<Update>, id: NodeId)
    requires id !in m
    ensures id in MergeAll(m, us) <==> exists a :: a in us && Introduces(a, id)
    ensures id in MergeAll(m, us) ==> StampedBy(us, id, MergeAll(m, us)[id])
    ensures forall a :: a in us && Introduces(a, id) ==> id in MergeAll(m, us) && Reaches(MergeAll(m, us)[id], a)
  {
    if us == [] {
    } else {
      var n := |us| - 1;
      var last, before, after := us[n], MergeAll(m, us[..n]), MergeAll(m, us);
      UnknownStamp(m, us[..n], id);
      assert us == us[..n] + [last];
      assert last in us;
      if id in after && id in before && after[id] == before[id] {
        var u :| u in us[..n] && Stamps(u, id, before[id]);
        assert u in us;
      } else if id in after {
        assert Stamps(last, id, after[id]);
      }
    }
  }

  predicate Stamps(u: Update, id: NodeId, info: NodeInfo) {
    u.node == id && u.incarnation == info.incarnation && StateOf(u.typ) == info.state
  }

  ghost predicate StampedBy(us: seq<Update>, id: NodeId, info: NodeInfo) { exists u :: u in us && Stamps(u, id, info) }

  /** For a node not yet known, order and repetition do not matter exactly when the list is conclusive. */
  lemma UnknownNodeOrderIrrelevantIff(m: Members, us: seq<Update>, id: NodeId)
    requires id !in m
    ensures Conclusive(us, id) <==>
            forall vs :: SameUpdates(us, vs) ==> Agree(MergeAll(m, us), MergeAll(m, vs), id)
  {
    if Conclusive(us, id) {
      forall vs | SameUpdates(us, vs) ensures Agree(MergeAll(m, us), MergeAll(m, vs), id) {
        ConclusiveAgree(m, us, vs, id);
      }
    } else {
      var late := Others(us, id) + Introductions(us, id);
      InconclusiveDiffer(m, us, id);
      SplitUpdates(us, id);
      assert SameUpdates(us, us + us) && SameUpdates(us, late);
    }
  }

  lemma ConclusiveAgree(m: Members, us: seq<Update>, vs: seq<Update>, id: NodeId)
    requires id !in m && Conclusive(us, id) && SameUpdates(us, vs)
    ensures Agree(MergeAll(m, us), MergeAll(m, vs), id)
  {
    UnknownStamp(m, us, id);
    UnknownStamp(m, vs, id);
    if id in MergeAll(m, us) {
      IntroductionDecides(m, us, us, id);
      IntroductionDecides(m, us, vs, id);
    }
  }

  /** The stamp is that of an introduction, the latest one. */
  lemma IntroductionDecides(m: Members, us: seq<Update>, vs: seq<Update>, id: NodeId)
    requires id !in m && Conclusive(us, id) && SameUpdates(us, vs) && id in MergeAll(m, vs)
    ensures var info := MergeAll(m, vs)[id];
            && info.state.Alive?
            && (exists a :: a in us && Introduces(a, id) && a.incarnation == info.incarnation)
            && (forall a :: a in us && Introduces(a, id) ==> a.incarnation <= info.incarnation)
  {
    UnknownStamp(m, vs, id);
    var info := MergeAll(m, vs)[id];
    var u :| u in vs && Stamps(u, id, info);
    forall a | a in us && Introduces(a, id) ensures a.incarnation <= u.incarnation {
      assert Reaches(info, a);
    }
    assert !Superseded(us, u, id);
  }

  function Introductions(us: seq<Update>, id: NodeId): seq<Update> {
    if us == [] then []
    else
      var rest := Introductions(us[..|us| - 1], id);
      if Introduces(us[|us| - 1], id) then rest + [us[|us| - 1]] else rest
  }

  function Others(us: seq<Update>, id: NodeId): seq<Update> {
    if us == [] then []
    else
      var rest := Others(us[..|us| - 1], id);
      if Introduces(us[|us| - 1], id) then rest else rest + [us[|us| - 1]]
  }

  lemma {:induction false} SplitUpdates(us: seq<Update>, id: NodeId)
    ensures forall u :: u in Introductions(us, id) <==> u in us && Introduces(u, id)
    ensures forall u :: u in Others(us, id) <==> u in us && !Introduces(u, id)
  {
    if us == [] {
    } else {
      assert us == us[..|us| - 1] + [us[|us| - 1]];
      SplitUpdates(us[..|us| - 1], id);
    }
  }

  /** A list heard twice leaves nothing out. */
  lemma HeardTwice(m: Members, us: seq<Update>, id: NodeId)
    requires id !in m && exists a :: a in us && Introduces(a, id)
    ensures id in MergeAll(m, us + us)
    ensures forall u :: u in us && u.node == id ==> Reaches(MergeAll(m, us + us)[id], u)
  {
    UnknownStamp(m, us, id);
    MergeAllPlus(m, us, us);
    MergeAllIsJoin(MergeAll(m, us), us, id);
  }

  /** With the introductions last everything before them is lost. */
  lemma IntroducedLast(m: Members, us: seq<Update>, id: NodeId)
    requires id !in m
    ensures var late := MergeAll(m, Others(us, id) + Introductions(us, id));
            id in late ==> exists a :: a in us && Introduces(a, id) && Stamps(a, id, late[id])
  {
    var late := MergeAll(m, Others(us, id) + Introductions(us, id));
    SplitUpdates(us, id);
    MergeAllPlus(m, Others(us, id), Introductions(us, id));
    UnknownStamp(m, Others(us, id), id);
    UnknownStamp(MergeAll(m, Others(us, id)), Introductions(us, id), id);
    if id in late {
      var a :| a in Introductions(us, id) && Stamps(a, id, late[id]);
    }
  }

  lemma InconclusiveDiffer(m: Members, us: seq<Update>, id: NodeId)
    requires id !in m && !Conclusive(us, id)
    ensures !Agree(MergeAll(m, us + us), MergeAll(m, Others(us, id) + Introductions(us, id)), id)
  {
    hide MergeAll;
    var u :| u in us && u.node == id && !Introduces(u, id) && !Superseded(us, u, id);
    HeardTwice(m, us, id);
    IntroducedLast(m, us, id);
    assert Reaches(MergeAll(m, us + us)[id], u);
  }

  /** Neither `add_node` nor `update_state` ever forgets a member or lowers a stamp. */
  lemma AddGrows(m: Members, info: NodeInfo)
    ensures Grows(m, AddNode(m, info))
  {
  }

  lemma UpdateGrows(m: Members, id: NodeId, state: NodeState, incarnation: nat)
    ensures Grows(m, UpdateState(m, id, state, incarnation))
  {
  }

  lemma MergeGrows(m: Members, u: Update)
    ensures Grows(m, Merge(m, u))
  {
  }

  lemma GrowsTransitive(a: Members, b: Members, c: Members)
    requires Grows(a, b) && Grows(b, c)
    ensures Grows(a, c)
  {
  }
}
