/**
 * Which role changes and deletions, asked for together, can leave the shop
 * without an admin: the exact condition on the requests alone
 * (backend/internal/store/users.go).
 */
module AdminLoss {
  import opened Wrappers
  import opened Admins

  ghost predicate Asked(s: Sys, kind: Kind, u: nat) {
    exists id :: id in s.txns && s.txns[id].kind == kind && s.txns[id].target == u
  }

  /** Somebody asks to take this account's admin role away, one way or the other. */
  ghost predicate Removable(s: Sys, u: nat) {
    Asked(s, Demote, u) || Asked(s, Delete, u)
  }

  /** An account that can be admin while x is not, and can go afterwards. */
  ghost predicate Spare(s: Sys, x: nat, z: nat) {
    z != x && z in s.roles && (z in AdminsOf(s.roles) || Asked(s, Promote, z)) && Removable(s, z)
  }

  /**
   * x is to be deleted and to be promoted, every other admin is to go, and
   * where x is an admin already it is also to be demoted while a spare stands in.
   */
  ghost predicate Losable(s: Sys, x: nat) {
    && x in s.roles && Asked(s, Delete, x) && Asked(s, Promote, x)
    && (forall y | y in AdminsOf(s.roles) && y != x :: Removable(s, y))
    && (x in AdminsOf(s.roles) ==> Asked(s, Demote, x) && exists z :: Spare(s, x, z))
  }

  // ----- A loss needs those requests ------------------------------------------------------

  ghost predicate SameAsks(s0: Sys, s: Sys) {
    && s.txns.Keys == s0.txns.Keys
    && forall id | id in s.txns :: s.txns[id].kind == s0.txns[id].kind && s.txns[id].target == s0.txns[id].target
  }

  ghost predicate StandIn(s0: Sys, roles: map<nat, Role>, x: nat, z: nat) {
    && z != x && z in s0.roles
    && (z in AdminsOf(s0.roles) || Asked(s0, Promote, z))
    && (z in AdminsOf(roles) || Removable(s0, z))
  }

  /** What a deletion that read a customer's role says about the requests. */
  ghost predicate DeletionTraced(s0: Sys, roles: map<nat, Role>, x: nat) {
    && x in s0.roles
    && (x in AdminsOf(roles) ==> Asked(s0, Promote, x))
    && (x in AdminsOf(s0.roles) ==> Asked(s0, Demote, x) && exists z :: StandIn(s0, roles, x, z))
  }

  /** Whoever became an admin was asked to be; whoever ceased to be was asked to, and how. */
  ghost predicate RolesTraced(s0: Sys, roles: map<nat, Role>) {
    && roles.Keys <= s0.roles.Keys
    && (forall u | u in AdminsOf(roles) :: u in AdminsOf(s0.roles) || Asked(s0, Promote, u))
    && (forall u | u in AdminsOf(s0.roles) :: u in AdminsOf(roles) || Removable(s0, u))
    && (forall u | u in AdminsOf(s0.roles) && u in roles :: u in AdminsOf(roles) || Asked(s0, Demote, u))
  }

  ghost predicate Traced(s0: Sys, s: Sys) {
    && SameAsks(s0, s)
    && RolesTraced(s0, s.roles)
    && forall id | id in s.txns && s.txns[id].phase == Cleared && s.txns[id].admins.None? ::
         DeletionTraced(s0, s.roles, s.txns[id].target)
  }

  /** A statement moves no role but its target's, and that one only the way it was asked to. */
  lemma RolesMove(roles: map<nat, Role>, t: Txn, u: nat)
    requires TxnSound(roles, t)
    ensures
      var roles' := Effect(roles, t).0;
      && (u in roles' ==> u in roles)
      && (u in AdminsOf(roles') && u !in AdminsOf(roles) ==> u == t.target && t.kind == Promote)
      && (u in AdminsOf(roles) && u !in AdminsOf(roles') ==>
            u == t.target && (t.kind == Delete || t.kind == Demote) && (t.kind == Delete ==> u !in roles'))
  {
  }

  lemma RolesTracedStep(s0: Sys, s: Sys, id: nat)
    requires SameAsks(s0, s) && RolesTraced(s0, s.roles) && id in s.txns && TxnSound(s.roles, s.txns[id])
    ensures RolesTraced(s0, Effect(s.roles, s.txns[id]).0)
  {
    var t, roles := s.txns[id], Effect(s.roles, s.txns[id]).0;
    assert s0.txns[id].kind == t.kind && s0.txns[id].target == t.target;
    forall u
      ensures u in roles ==> u in s0.roles
      ensures u in AdminsOf(roles) ==> u in AdminsOf(s0.roles) || Asked(s0, Promote, u)
      ensures u in AdminsOf(s0.roles) ==> u in AdminsOf(roles) || Removable(s0, u)
      ensures u in AdminsOf(s0.roles) && u in roles ==> u in AdminsOf(roles) || Asked(s0, Demote, u)
    {
      RolesMove(s.roles, t, u);
    }
  }

  lemma DeletionTracedStep(s0: Sys, s: Sys, id: nat, x: nat)
    requires SameAsks(s0, s) && id in s.txns && TxnSound(s.roles, s.txns[id]) && DeletionTraced(s0, s.roles, x)
    ensures DeletionTraced(s0, Effect(s.roles, s.txns[id]).0, x)
  {
    var t, roles := s.txns[id], Effect(s.roles, s.txns[id]).0;
    assert s0.txns[id].kind == t.kind && s0.txns[id].target == t.target;
    RolesMove(s.roles, t, x);
    if x in AdminsOf(s0.roles) {
      var z :| StandIn(s0, s.roles, x, z);
      RolesMove(s.roles, t, z);
      assert StandIn(s0, roles, x, z);
    }
  }

  /** A deletion clears without locks only for an account that is no admin at that moment, while another is. */
  lemma DeletionClears(s0: Sys, s: Sys, x: nat)
    requires RolesTraced(s0, s.roles) && AdminsOf(s.roles) != {} && x in s.roles && x !in AdminsOf(s.roles)
    ensures DeletionTraced(s0, s.roles, x)
  {
    if x in AdminsOf(s0.roles) {
      var z :| z in AdminsOf(s.roles);
      assert z in s.roles;
      assert StandIn(s0, s.roles, x, z);
    }
  }

  lemma TracedStep(s0: Sys, s: Sys, id: nat)
    requires OneAdminHeld(s) && Traced(s0, s)
    ensures Traced(s0, Step(s, id))
  {
    if CanStep(s, id) {
      var s', t := Step(s, id), s.txns[id];
      RolesTracedStep(s0, s, id);
      EffectKeepsTarget(s.roles, t, 0);
      forall other | other in s'.txns && s'.txns[other].phase == Cleared && s'.txns[other].admins.None?
        ensures DeletionTraced(s0, s'.roles, s'.txns[other].target)
      {
        if other == id {
          assert t.phase == Starting && s'.roles == s.roles;
          DeletionClears(s0, s, t.target);
        } else {
          DeletionTracedStep(s0, s, id, s.txns[other].target);
        }
      }
    }
  }

  lemma {:induction false} RunTraced(s: Sys, schedule: seq<nat>)
    requires StartsSound(s) && NeverLoses(s, schedule)
    ensures OneAdminHeld(Execute(s, schedule)) && Traced(s, Execute(s, schedule))
  {
    AlwaysAnAdmin(s, schedule);
    if schedule != [] {
      var front, id := schedule[..|schedule| - 1], schedule[|schedule| - 1];
      assert schedule == front + [id];
      NeverLosesSnoc(s, front, id);
      RunTraced(s, front);
      TracedStep(s, Execute(s, front), id);
    }
  }

  /** A schedule that ends without an admin has a first statement that loses the last one. */
  lemma {:induction false} FirstLoss(s: Sys, schedule: seq<nat>) returns (front: seq<nat>, id: nat)
    requires StartsSound(s) && AdminsOf(Execute(s, schedule).roles) == {}
    ensures NeverLoses(s, front) && LosesLast(Execute(s, front), id)
    decreases |schedule|
  {
    front, id := schedule[..|schedule| - 1], schedule[|schedule| - 1];
    AlwaysAnAdmin(s, front);
    if NeverLoses(s, front) {
      StepKeepsAdmin(Execute(s, front), id);
    } else {
      var k :| 0 <= k <= |front| && AdminsOf(Execute(s, front[..k]).roles) == {};
      front, id := FirstLoss(s, front[..k]);
    }
  }

  lemma LossNeedsRequests(s0: Sys, s: Sys, id: nat)
    requires Traced(s0, s) && LosesLast(s, id)
    ensures Losable(s0, s.txns[id].target)
  {
    var x := s.txns[id].target;
    assert DeletionTraced(s0, s.roles, x);
    assert s0.txns[id].kind == Delete && s0.txns[id].target == x;
    if x in AdminsOf(s0.roles) {
      var z :| StandIn(s0, s.roles, x, z);
      assert Spare(s0, x, z);
    }
  }

  // ----- Those requests admit a loss --------------------------------------------------------

  ghost predicate Reaches(s: Sys, s': Sys) {
    exists schedule :: Execute(s, schedule) == s'
  }

  lemma {:induction false} Continues(s: Sys, first: seq<nat>, more: seq<nat>)
    ensures Execute(s, first + more) == Execute(Execute(s, first), more)
  {
    if more == [] {
      assert first + more == first;
    } else {
      var front := more[..|more| - 1];
      Continues(s, first, front);
      assert (first + more)[..|first + more| - 1] == first + front;
    }
  }

  lemma ReachesOn(a: Sys, b: Sys, c: Sys)
    requires Reaches(a, b) && Reaches(b, c)
    ensures Reaches(a, c)
  {
    var first :| Execute(a, first) == b;
    var more :| Execute(b, more) == c;
    Continues(a, first, more);
  }

  lemma ReachesStep(a: Sys, b: Sys, id: nat)
    requires Reaches(a, b)
    ensures Reaches(a, Step(b, id))
  {
    var first :| Execute(a, first) == b;
    ExecuteSnoc(a, first, id);
  }

  lemma ReachesItself(s: Sys)
    ensures Reaches(s, s)
  {
    assert Execute(s, []) == s;
  }

  /** Nobody holds a lock. */
  ghost predicate Quiet(s: Sys) {
    forall id | id in s.txns :: LockedRows(s.txns[id]) == {}
  }

  /** From a to b only transaction id has moved, and nobody holds a lock. */
  ghost predicate Moved(a: Sys, b: Sys, id: nat) {
    id in b.txns && b.txns == a.txns[id := b.txns[id]] && Quiet(b)
  }

  lemma DoPromote(s: Sys, id: nat)
    requires Quiet(s) && id in s.txns && s.txns[id].kind == Promote && s.txns[id].phase == Starting
    requires s.txns[id].target in s.roles
    ensures Step(s, id).roles == s.roles[s.txns[id].target := Admin]
    ensures AdminsOf(Step(s, id).roles) == AdminsOf(s.roles) + {s.txns[id].target}
    ensures Moved(s, Step(s, id), id)
  {
  }

  lemma DoRead(s: Sys, id: nat)
    requires Quiet(s) && id in s.txns && s.txns[id].kind == Delete && s.txns[id].phase == Starting
    requires s.txns[id].admins.None? && s.txns[id].target in s.roles && s.txns[id].target !in AdminsOf(s.roles)
    ensures Step(s, id) == Sys(s.roles, s.txns[id := s.txns[id].(phase := Cleared)])
    ensures Moved(s, Step(s, id), id)
  {
  }

  /** One transaction alone at work: the phases it goes through once its target is an admin among others. */
  lemma LockAlone(s: Sys, id: nat)
    requires id in s.txns && Free(s, id, AdminsOf(s.roles))
    requires s.txns[id].phase == Locking || (s.txns[id].phase == Starting && s.txns[id].kind == Demote)
    ensures Step(s, id) == Sys(s.roles, s.txns[id := s.txns[id].(phase := Locked, admins := Some(AdminsOf(s.roles)))])
  {
  }

  lemma CheckAlone(s: Sys, id: nat)
    requires id in s.txns && s.txns[id].phase == Locked && s.txns[id].admins == Some(AdminsOf(s.roles))
    requires AdminsOf(s.roles) != {s.txns[id].target}
    ensures Step(s, id) == Sys(s.roles, s.txns[id := s.txns[id].(phase := Cleared)])
  {
    if s.txns[id].target in AdminsOf(s.roles) && |AdminsOf(s.roles)| == 1 {
      SoleMember(AdminsOf(s.roles), s.txns[id].target);
    }
  }

  lemma CommitAlone(s: Sys, id: nat)
    requires id in s.txns && Free(s, id, {s.txns[id].target})
    requires s.txns[id].phase == Cleared && s.txns[id].target in s.roles && s.txns[id].kind != Promote
    ensures
      var u := s.txns[id].target;
      && Step(s, id).txns == s.txns[id := End(s.txns[id], Done)]
      && Step(s, id).roles == (if s.txns[id].kind == Delete then s.roles - {u} else s.roles[u := Customer])
      && AdminsOf(Step(s, id).roles) == AdminsOf(s.roles) - {u}
  {
    OthersRemain(s.roles, s.txns[id].target, Customer);
  }

  ghost predicate WaitsToRemove(t: Txn, u: nat) {
    (t.kind == Demote || t.kind == Delete) && t.target == u && t.phase == Starting && t.admins.None?
  }

  lemma LockAndRemove(s: Sys, id: nat, u: nat) returns (s': Sys)
    requires Quiet(s) && id in s.txns && s.txns[id].target == u && s.txns[id].kind != Promote
    requires s.txns[id].phase == Locking || (s.txns[id].phase == Starting && s.txns[id].kind == Demote)
    requires u in AdminsOf(s.roles) && AdminsOf(s.roles) != {u}
    ensures Reaches(s, s') && Moved(s, s', id)
    ensures AdminsOf(s'.roles) == AdminsOf(s.roles) - {u}
    ensures s'.roles == if s.txns[id].kind == Delete then s.roles - {u} else s.roles[u := Customer]
  {
    ReachesItself(s);
    LockAlone(s, id);
    ReachesStep(s, s, id);
    var b := Step(s, id);
    CheckAlone(b, id);
    ReachesStep(s, b, id);
    var c := Step(b, id);
    CommitAlone(c, id);
    ReachesStep(s, c, id);
    s' := Step(c, id);
  }

  /** A removal alone at work, of an admin who is not the only one, goes through. */
  lemma DoRemove(s: Sys, id: nat, u: nat) returns (s': Sys)
    requires Quiet(s) && id in s.txns && WaitsToRemove(s.txns[id], u)
    requires u in AdminsOf(s.roles) && AdminsOf(s.roles) != {u}
    ensures Reaches(s, s') && Moved(s, s', id)
    ensures AdminsOf(s'.roles) == AdminsOf(s.roles) - {u}
    ensures s'.roles == if s.txns[id].kind == Delete then s.roles - {u} else s.roles[u := Customer]
  {
    var a := s;
    ReachesItself(s);
    if s.txns[id].kind == Delete {
      a := Step(s, id);
      assert a == Sys(s.roles, s.txns[id := s.txns[id].(phase := Locking)]);
      ReachesStep(s, s, id);
    }
    s' := LockAndRemove(a, id, u);
    ReachesOn(s, a, s');
  }

  ghost predicate RemovalWaits(s: Sys, u: nat) {
    exists id :: id in s.txns && WaitsToRemove(s.txns[id], u)
  }

  /** Nothing that aims at x has moved. */
  ghost predicate Untouched(a: Sys, b: Sys, x: nat) {
    b.txns.Keys == a.txns.Keys && forall id | id in a.txns && a.txns[id].target == x :: b.txns[id] == a.txns[id]
  }

  /** Every admin but x goes, one after the other. */
  lemma {:induction false} RemoveOthers(s: Sys, x: nat, ys: set<nat>) returns (s': Sys)
    requires Quiet(s) && x !in ys && AdminsOf(s.roles) == ys + {x}
    requires forall y | y in ys :: RemovalWaits(s, y)
    ensures Reaches(s, s') && Quiet(s') && Untouched(s, s', x)
    ensures AdminsOf(s'.roles) == {x}
    decreases ys
  {
    if ys == {} {
      ReachesItself(s);
      s' := s;
    } else {
      var y :| y in ys;
      var id :| id in s.txns && WaitsToRemove(s.txns[id], y);
      assert x in AdminsOf(s.roles) && y in AdminsOf(s.roles);
      var a := DoRemove(s, id, y);
      forall w | w in ys - {y}
        ensures RemovalWaits(a, w)
      {
        var other :| other in s.txns && WaitsToRemove(s.txns[other], w);
        assert a.txns[other] == s.txns[other];
      }
      assert AdminsOf(a.roles) == (ys - {y}) + {x};
      s' := RemoveOthers(a, x, ys - {y});
      ReachesOn(s, a, s');
    }
  }

  /** With the deletion of x past its check and x promoted since: the others go, then x. */
  lemma Ending(s: Sys, d: nat, x: nat, ys: set<nat>) returns (s': Sys)
    requires Quiet(s) && d in s.txns && s.txns[d] == Txn(Delete, x, Cleared, None)
    requires x !in ys && AdminsOf(s.roles) == ys + {x} && forall y | y in ys :: RemovalWaits(s, y)
    ensures Reaches(s, s') && AdminsOf(s'.roles) == {}
  {
    var a := RemoveOthers(s, x, ys);
    assert x in AdminsOf(a.roles);
    CommitAlone(a, d);
    ReachesStep(s, a, d);
    s' := Step(a, d);
  }

  /** A customer's deletion is read, the customer is promoted, and the rest follows. */
  lemma ReadThenPromote(s: Sys, d: nat, p: nat, x: nat) returns (s': Sys)
    requires Quiet(s) && x in s.roles && x !in AdminsOf(s.roles)
    requires d in s.txns && s.txns[d] == Txn(Delete, x, Starting, None)
    requires p in s.txns && s.txns[p] == Txn(Promote, x, Starting, None)
    requires forall y | y in AdminsOf(s.roles) :: RemovalWaits(s, y)
    ensures Reaches(s, s') && AdminsOf(s'.roles) == {}
  {
    ReachesItself(s);
    DoRead(s, d);
    ReachesStep(s, s, d);
    var a := Step(s, d);
    DoPromote(a, p);
    ReachesStep(s, a, p);
    var b := Step(a, p);
    forall y | y in AdminsOf(s.roles)
      ensures RemovalWaits(b, y)
    {
      var id :| id in s.txns && WaitsToRemove(s.txns[id], y);
      assert b.txns[id] == s.txns[id];
    }
    s' := Ending(b, d, x, AdminsOf(s.roles));
    ReachesOn(s, b, s');
  }

  lemma AskedWaits(s: Sys, kind: Kind, u: nat) returns (id: nat)
    requires StartsSound(s) && Asked(s, kind, u)
    ensures id in s.txns && s.txns[id] == Txn(kind, u, Starting, None)
  {
    id :| id in s.txns && s.txns[id].kind == kind && s.txns[id].target == u;
  }

  lemma RemovableWaits(s: Sys, u: nat)
    requires StartsSound(s) && Removable(s, u)
    ensures RemovalWaits(s, u)
  {
    var id := AskedWaits(s, if Asked(s, Demote, u) then Demote else Delete, u);
    assert WaitsToRemove(s.txns[id], u);
  }

  /** The spare is made an admin, unless it is one. */
  lemma BringIn(s: Sys, x: nat, z: nat) returns (s': Sys)
    requires StartsSound(s) && Spare(s, x, z)
    ensures Reaches(s, s') && Quiet(s') && s'.txns.Keys == s.txns.Keys
    ensures AdminsOf(s'.roles) == AdminsOf(s.roles) + {z} && s'.roles.Keys == s.roles.Keys
    ensures forall id | id in s.txns && (s.txns[id].target != z || s.txns[id].kind != Promote) :: s'.txns[id] == s.txns[id]
  {
    ReachesItself(s);
    s' := s;
    if z !in AdminsOf(s.roles) {
      var p := AskedWaits(s, Promote, z);
      DoPromote(s, p);
      ReachesStep(s, s, p);
      s' := Step(s, p);
    }
  }

  /** An admin to be deleted is first demoted while a spare stands in. */
  lemma AdminLoses(s: Sys, x: nat, z: nat) returns (s': Sys)
    requires StartsSound(s) && Losable(s, x) && x in AdminsOf(s.roles) && Spare(s, x, z)
    ensures Reaches(s, s') && AdminsOf(s'.roles) == {}
  {
    var d := AskedWaits(s, Delete, x);
    var p := AskedWaits(s, Promote, x);
    var m := AskedWaits(s, Demote, x);
    var a := BringIn(s, x, z);
    assert WaitsToRemove(a.txns[m], x);
    assert z in AdminsOf(a.roles) && x in AdminsOf(a.roles);
    var b := DoRemove(a, m, x);
    forall y | y in AdminsOf(b.roles)
      ensures RemovalWaits(b, y)
    {
      RemovableWaits(s, y);
      var id :| id in s.txns && WaitsToRemove(s.txns[id], y);
      assert b.txns[id] == s.txns[id];
    }
    s' := ReadThenPromote(b, d, p, x);
    ReachesOn(a, b, s');
    ReachesOn(s, a, s');
  }

  lemma LosableLoses(s: Sys, x: nat)
    requires StartsSound(s) && Losable(s, x)
    ensures exists schedule :: AdminsOf(Execute(s, schedule).roles) == {}
  {
    var s';
    if x in AdminsOf(s.roles) {
      var z :| Spare(s, x, z);
      s' := AdminLoses(s, x, z);
    } else {
      var d := AskedWaits(s, Delete, x);
      var p := AskedWaits(s, Promote, x);
      forall y | y in AdminsOf(s.roles)
        ensures RemovalWaits(s, y)
      {
        RemovableWaits(s, y);
      }
      s' := ReadThenPromote(s, d, p, x);
    }
    var schedule :| Execute(s, schedule) == s';
  }

  /** Some order of their statements leaves no admin if and only if some account is losable. */
  lemma CanLoseLastIff(s: Sys)
    requires StartsSound(s)
    ensures (exists schedule :: AdminsOf(Execute(s, schedule).roles) == {}) <==> exists x :: Losable(s, x)
  {
    if schedule :| AdminsOf(Execute(s, schedule).roles) == {} {
      var front, id := FirstLoss(s, schedule);
      RunTraced(s, front);
      LossNeedsRequests(s, Execute(s, front), id);
    }
    if x :| Losable(s, x) {
      LosableLoses(s, x);
    }
  }
}
