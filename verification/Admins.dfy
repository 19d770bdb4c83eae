/**
 * "At least one admin": role changes and account deletions, first one at a
 * time and then interleaved as the separate statements they are
 * (backend/internal/store/users.go).
 *
 * Locking the admin set is one step: it is granted when no other transaction
 * holds a row of the set, and the set is the admins at that moment.
 */
module Admins {
  import opened Wrappers

  datatype Role = Customer | Admin

  datatype Outcome = Done | LastAdmin | NotFound

  function AdminsOf(roles: map<nat, Role>): set<nat> {
    set u | u in roles && roles[u] == Admin
  }

  // ----- One at a time ---------------------------------------------------------------

  class Users {
    var roles: map<nat, Role>

    /** The admin rows, gathered one by one as they are locked. */
    method LockAdmins() returns (admins: set<nat>)
      ensures admins == AdminsOf(roles)
    {
      admins := {};
      var todo := roles.Keys;
      while todo != {}
        invariant todo <= roles.Keys
        invariant admins == set u | u in roles && u !in todo && roles[u] == Admin
        decreases |todo|
      {
        var u :| u in todo;
        todo := todo - {u};
        if roles[u] == Admin {
          admins := admins + {u};
        }
      }
    }

    method UpdateUserRole(user: nat, role: Role) returns (outcome: Outcome)
      modifies this
      ensures outcome == LastAdmin <==> role == Customer && AdminsOf(old(roles)) == {user}
      ensures outcome == NotFound <==> user !in old(roles)
      ensures roles == if outcome == Done then old(roles)[user := role] else old(roles)
      ensures AdminsOf(old(roles)) != {} ==> AdminsOf(roles) != {}
    {
      if role == Customer {
        var admins := LockAdmins();
        if user in admins && |admins| == 1 {
          SoleMember(admins, user);
          return LastAdmin;
        }
        OthersRemain(roles, user, Customer);
      }
      if user !in roles {
        return NotFound;
      }
      roles := roles[user := role];
      assert role == Admin ==> user in AdminsOf(roles);
      outcome := Done;
    }

    method DeleteAccount(user: nat) returns (outcome: Outcome)
      modifies this
      ensures outcome == LastAdmin <==> AdminsOf(old(roles)) == {user}
      ensures outcome == NotFound <==> user !in old(roles)
      ensures roles == if outcome == Done then old(roles) - {user} else old(roles)
      ensures AdminsOf(old(roles)) != {} ==> AdminsOf(roles) != {}
    {
      if user !in roles {
        return NotFound;
      }
      if roles[user] == Admin {
        var admins := LockAdmins();
        if user in admins && |admins| == 1 {
          SoleMember(admins, user);
          return LastAdmin;
        }
      }
      OthersRemain(roles, user, Customer);
      roles := roles - {user};
      outcome := Done;
    }
  }

  lemma SoleMember(s: set<nat>, x: nat)
    requires x in s && |s| == 1
    ensures s == {x}
  {
    assert |s - {x}| == 0;
  }

  lemma OthersRemain(roles: map<nat, Role>, user: nat, role: Role)
    ensures AdminsOf(roles - {user}) == AdminsOf(roles) - {user}
    ensures AdminsOf(roles[user := role]) == AdminsOf(roles) - {user} + if role == Admin then {user} else {}
    ensures AdminsOf(roles) != {user} && AdminsOf(roles) != {} ==> AdminsOf(roles) - {user} != {}
  {
    if AdminsOf(roles) != {user} && AdminsOf(roles) != {} {
      SomeoneElse(AdminsOf(roles), user);
    }
  }

  lemma SomeoneElse(s: set<nat>, x: nat)
    requires s != {} && s != {x}
    ensures s - {x} != {}
  {
    var a :| a in s;
    if a == x {
      assert {x} < s;
      var b :| b in s && b != x;
      assert b in s - {x};
    } else {
      assert a in s - {x};
    }
  }

  // ----- Statement by statement --------------------------------------------------------

  datatype Kind = Promote | Demote | Delete

  /** `Cleared` without a locked set is a deletion whose account read as a customer's. */
  datatype Phase = Starting | Locking | Locked | Cleared | Finished(outcome: Outcome)

  datatype Txn = Txn(kind: Kind, target: nat, phase: Phase, admins: Option<set<nat>>)

  datatype Sys = Sys(roles: map<nat, Role>, txns: map<nat, Txn>)

  predicate Open(t: Txn) {
    !t.phase.Finished?
  }

  /** The user rows a transaction has locked. */
  function LockedRows(t: Txn): set<nat> {
    if Open(t) && t.admins.Some? then t.admins.value else {}
  }

  /** No other transaction holds any of these rows. */
  predicate Free(s: Sys, id: nat, rows: set<nat>) {
    forall other | other in s.txns && other != id :: LockedRows(s.txns[other]) !! rows
  }

  /** The rows the next statement has to lock. */
  function WantedRows(roles: map<nat, Role>, t: Txn): set<nat> {
    match t.phase
    case Starting => if t.kind == Promote then {t.target} else if t.kind == Demote then AdminsOf(roles) else {}
    case Locking => AdminsOf(roles)
    case Cleared => {t.target}
    case _ => {}
  }

  predicate CanStep(s: Sys, id: nat) {
    id in s.txns && Open(s.txns[id]) && Free(s, id, WantedRows(s.roles, s.txns[id]))
  }

  /** Somebody else holds a row the statement touches. */
  ghost predicate HeldByAnother(s: Sys, id: nat, row: nat) {
    exists other :: other in s.txns && other != id && row in LockedRows(s.txns[other])
  }

  /**
   * What a statement waits for: a promotion and the last write for their target's row, a lock of the admin set
   * for every row in it; the reading start of a deletion, and the check of what is locked, for nothing.
   */
  lemma WaitsFor(s: Sys, id: nat)
    requires id in s.txns && !s.txns[id].phase.Finished?
    ensures
      var t := s.txns[id];
      var one := t.phase == Cleared || (t.phase == Starting && t.kind == Promote);
      var all := t.phase == Locking || (t.phase == Starting && t.kind == Demote);
      CanStep(s, id) <==>
        && (one ==> !HeldByAnother(s, id, t.target))
        && (all ==> forall a | a in s.roles && s.roles[a] == Admin :: !HeldByAnother(s, id, a))
  {
    var wanted := WantedRows(s.roles, s.txns[id]);
    if !Free(s, id, wanted) {
      var other :| other in s.txns && other != id && !(LockedRows(s.txns[other]) !! wanted);
      var row :| row in LockedRows(s.txns[other]) && row in wanted;
      assert HeldByAnother(s, id, row);
    }
  }

  function End(t: Txn, outcome: Outcome): Txn {
    t.(phase := Finished(outcome))
  }

  /** The roles and the transaction after its next statement. */
  function Effect(roles: map<nat, Role>, t: Txn): (map<nat, Role>, Txn) {
    match t.phase
    case Starting =>
      (match t.kind
       case Promote =>
         if t.target in roles then (roles[t.target := Admin], End(t, Done)) else (roles, End(t, NotFound))
       case Demote => (roles, t.(phase := Locked, admins := Some(AdminsOf(roles))))
       case Delete =>
         if t.target !in roles then (roles, End(t, NotFound))
         else if roles[t.target] == Admin then (roles, t.(phase := Locking))
         else (roles, t.(phase := Cleared)))
    case Locking => (roles, t.(phase := Locked, admins := Some(AdminsOf(roles))))
    case Locked =>
      if t.admins.Some? && t.target in t.admins.value && |t.admins.value| == 1 then (roles, End(t, LastAdmin))
      else (roles, t.(phase := Cleared))
    case Cleared =>
      if t.target !in roles then (roles, End(t, NotFound))
      else if t.kind == Delete then (roles - {t.target}, End(t, Done))
      else (roles[t.target := Customer], End(t, Done))
    case Finished(_) => (roles, t)
  }

  function Step(s: Sys, id: nat): Sys {
    if !CanStep(s, id) then s
    else
      var (roles, t) := Effect(s.roles, s.txns[id]);
      Sys(roles, s.txns[id := t])
  }

  function Execute(s: Sys, schedule: seq<nat>): Sys {
    if schedule == [] then s else Step(Execute(s, schedule[..|schedule| - 1]), schedule[|schedule| - 1])
  }

  // ----- What the locks guarantee ----------------------------------------------------------

  ghost predicate TxnSound(roles: map<nat, Role>, t: Txn) {
    && (t.admins.Some? && Open(t) ==> t.admins.value != {} && t.admins.value <= AdminsOf(roles))
    && (t.phase == Starting || t.phase == Locking ==> t.admins.None?)
    && (t.phase == Locked ==> t.admins.Some?)
    && (t.phase == Cleared && t.admins.Some? ==> t.admins.value != {t.target})
    && (t.phase == Cleared && t.admins.None? ==> t.kind == Delete)
    && (t.kind == Promote ==> t.phase == Starting || t.phase.Finished?)
  }

  ghost predicate OneAdminHeld(s: Sys) {
    && AdminsOf(s.roles) != {}
    && (forall id | id in s.txns :: TxnSound(s.roles, s.txns[id]))
    && (forall a, b | a in s.txns && b in s.txns && a != b :: LockedRows(s.txns[a]) !! LockedRows(s.txns[b]))
  }

  /** The one statement that can empty the set: a deletion cleared without locks, of the only admin there is. */
  predicate LosesLast(s: Sys, id: nat) {
    CanStep(s, id) && DropsLast(s.roles, s.txns[id])
  }

  predicate DropsLast(roles: map<nat, Role>, t: Txn) {
    t.kind == Delete && t.phase == Cleared && t.admins.None? && AdminsOf(roles) == {t.target}
  }

  /** What one statement may do to the admin set: nothing, add its target, or drop a target it has locked. */
  ghost predicate AdminsMove(roles: map<nat, Role>, t: Txn, roles': map<nat, Role>) {
    || AdminsOf(roles') == AdminsOf(roles)
    || AdminsOf(roles') == AdminsOf(roles) + {t.target}
    || (AdminsOf(roles') == AdminsOf(roles) - {t.target} && WantedRows(roles, t) == {t.target})
  }

  lemma LockEffect(roles: map<nat, Role>, t: Txn)
    requires AdminsOf(roles) != {} && TxnSound(roles, t)
    requires (t.phase == Starting && t.kind != Promote) || t.phase == Locking
    ensures Effect(roles, t).0 == roles && TxnSound(roles, Effect(roles, t).1)
    ensures LockedRows(Effect(roles, t).1) <= WantedRows(roles, t)
  {
  }

  lemma PromoteEffect(roles: map<nat, Role>, t: Txn)
    requires TxnSound(roles, t) && t.phase == Starting && t.kind == Promote
    ensures AdminsMove(roles, t, Effect(roles, t).0) && TxnSound(Effect(roles, t).0, Effect(roles, t).1)
    ensures AdminsOf(roles) != {} ==> AdminsOf(Effect(roles, t).0) != {}
  {
    OthersRemain(roles, t.target, Admin);
    if t.target in AdminsOf(roles) {
      assert AdminsOf(roles) - {t.target} + {t.target} == AdminsOf(roles);
    } else {
      assert AdminsOf(roles) - {t.target} == AdminsOf(roles);
    }
  }

  lemma CheckEffect(roles: map<nat, Role>, t: Txn)
    requires TxnSound(roles, t) && t.phase == Locked
    ensures Effect(roles, t).0 == roles && TxnSound(roles, Effect(roles, t).1)
    ensures Effect(roles, t).1.phase == Finished(LastAdmin) <==> t.admins == Some({t.target})
  {
    if t.target in t.admins.value && |t.admins.value| == 1 {
      SoleMember(t.admins.value, t.target);
    }
  }

  lemma CommitEffect(roles: map<nat, Role>, t: Txn)
    requires TxnSound(roles, t) && t.phase == Cleared && AdminsOf(roles) != {}
    ensures AdminsMove(roles, t, Effect(roles, t).0)
    ensures AdminsOf(Effect(roles, t).0) != {} <==> !DropsLast(roles, t)
  {
    OthersRemain(roles, t.target, Customer);
    if t.target !in roles {
      assert t.target !in AdminsOf(roles);
    }
    if t.admins.Some? {
      SomeoneElse(t.admins.value, t.target);
      var a :| a in t.admins.value - {t.target};
      assert a in AdminsOf(roles) - {t.target};
    }
  }

  lemma EffectOnAdmins(roles: map<nat, Role>, t: Txn)
    requires AdminsOf(roles) != {} && TxnSound(roles, t) && Open(t)
    ensures AdminsMove(roles, t, Effect(roles, t).0)
    ensures AdminsOf(Effect(roles, t).0) != {} <==> !DropsLast(roles, t)
    ensures TxnSound(Effect(roles, t).0, Effect(roles, t).1)
    ensures LockedRows(Effect(roles, t).1) <= LockedRows(t) + WantedRows(roles, t)
  {
    match t.phase {
      case Starting =>
        if t.kind == Promote {
          PromoteEffect(roles, t);
        } else {
          LockEffect(roles, t);
        }
      case Locking => LockEffect(roles, t);
      case Locked => CheckEffect(roles, t);
      case Cleared => CommitEffect(roles, t);
    }
  }

  lemma OthersStaySound(s: Sys, id: nat, other: nat)
    requires OneAdminHeld(s) && CanStep(s, id) && other in s.txns && other != id
    ensures TxnSound(Effect(s.roles, s.txns[id]).0, s.txns[other])
    ensures LockedRows(s.txns[other]) !! LockedRows(Effect(s.roles, s.txns[id]).1)
  {
    EffectOnAdmins(s.roles, s.txns[id]);
    assert TxnSound(s.roles, s.txns[other]);
    assert LockedRows(s.txns[other]) !! WantedRows(s.roles, s.txns[id]);
    assert LockedRows(s.txns[other]) !! LockedRows(s.txns[id]);
  }

  /** Every statement of every transaction keeps an admin, except exactly the one that loses the last. */
  lemma StepKeepsAdmin(s: Sys, id: nat)
    requires OneAdminHeld(s)
    ensures AdminsOf(Step(s, id).roles) != {} <==> !LosesLast(s, id)
    ensures !LosesLast(s, id) ==> OneAdminHeld(Step(s, id))
  {
    if CanStep(s, id) {
      EffectOnAdmins(s.roles, s.txns[id]);
      forall other | other in s.txns && other != id
        ensures TxnSound(Step(s, id).roles, s.txns[other])
        ensures LockedRows(s.txns[other]) !! LockedRows(Effect(s.roles, s.txns[id]).1)
      {
        OthersStaySound(s, id, other);
      }
    }
  }

  ghost predicate StartsSound(s: Sys) {
    AdminsOf(s.roles) != {} && forall id | id in s.txns :: s.txns[id].phase == Starting && s.txns[id].admins.None?
  }

  ghost predicate NeverLoses(s: Sys, schedule: seq<nat>) {
    forall k | 0 <= k < |schedule| :: !LosesLast(Execute(s, schedule[..k]), schedule[k])
  }

  ghost predicate AlwaysSome(s: Sys, schedule: seq<nat>) {
    forall k | 0 <= k <= |schedule| :: AdminsOf(Execute(s, schedule[..k]).roles) != {}
  }

  lemma PrefixOfSnoc(front: seq<nat>, id: nat, k: nat)
    requires k <= |front|
    ensures (front + [id])[..k] == front[..k]
    ensures k < |front| ==> (front + [id])[k] == front[k]
  {
  }

  lemma AlwaysSomeSnoc(s: Sys, front: seq<nat>, id: nat)
    ensures AlwaysSome(s, front + [id]) <==>
              AlwaysSome(s, front) && AdminsOf(Step(Execute(s, front), id).roles) != {}
  {
    if AlwaysSome(s, front + [id]) {
      SomeBefore(s, front, id);
    }
    if AlwaysSome(s, front) && AdminsOf(Step(Execute(s, front), id).roles) != {} {
      SomeAfter(s, front, id);
    }
  }

  lemma SomeBefore(s: Sys, front: seq<nat>, id: nat)
    requires AlwaysSome(s, front + [id])
    ensures AlwaysSome(s, front) && AdminsOf(Step(Execute(s, front), id).roles) != {}
  {
    var all, n := front + [id], |front|;
    ExecuteSnoc(s, front, id);
    assert all[..n + 1] == all;
    forall k | 0 <= k <= n
      ensures AdminsOf(Execute(s, front[..k]).roles) != {}
    {
      PrefixOfSnoc(front, id, k);
    }
  }

  lemma SomeAfter(s: Sys, front: seq<nat>, id: nat)
    requires AlwaysSome(s, front) && AdminsOf(Step(Execute(s, front), id).roles) != {}
    ensures AlwaysSome(s, front + [id])
  {
    var all, n := front + [id], |front|;
    forall k | 0 <= k <= n + 1
      ensures AdminsOf(Execute(s, all[..k]).roles) != {}
    {
      if k <= n {
        PrefixOfSnoc(front, id, k);
      } else {
        ExecuteSnoc(s, front, id);
        assert all[..k] == all;
      }
    }
  }

  lemma NeverLosesSnoc(s: Sys, front: seq<nat>, id: nat)
    ensures NeverLoses(s, front + [id]) <==> NeverLoses(s, front) && !LosesLast(Execute(s, front), id)
  {
    var all, n := front + [id], |front|;
    forall k: nat | k < n
      ensures LosesLast(Execute(s, all[..k]), all[k]) <==> LosesLast(Execute(s, front[..k]), front[k])
    {
      PrefixOfSnoc(front, id, k);
    }
    assert all[..n] == front && all[n] == id;
  }

  /** Over every interleaving there is an admin at every moment if and only if no step loses the last. */
  lemma {:induction false} AlwaysAnAdmin(s: Sys, schedule: seq<nat>)
    requires StartsSound(s)
    ensures NeverLoses(s, schedule) <==> AlwaysSome(s, schedule)
    ensures NeverLoses(s, schedule) ==> OneAdminHeld(Execute(s, schedule))
  {
    if schedule != [] {
      var front, id := schedule[..|schedule| - 1], schedule[|schedule| - 1];
      assert schedule == front + [id];
      AlwaysAnAdmin(s, front);
      NeverLosesSnoc(s, front, id);
      AlwaysSomeSnoc(s, front, id);
      if NeverLoses(s, front) {
        StepKeepsAdmin(Execute(s, front), id);
      }
    }
  }

  // ----- When that can happen ---------------------------------------------------------------

  /** An account read as a customer's is still one. */
  ghost predicate StillCustomers(s: Sys) {
    forall id | id in s.txns && s.txns[id].phase == Cleared && s.txns[id].admins.None? ::
      s.txns[id].target !in AdminsOf(s.roles)
  }

  /** Nobody is promoting an account that is being deleted. */
  ghost predicate NoPromotedDeletion(s: Sys) {
    forall p, d | p in s.txns && d in s.txns && s.txns[p].kind == Promote && s.txns[d].kind == Delete ::
      s.txns[p].target != s.txns[d].target
  }

  lemma EffectKeepsTarget(roles: map<nat, Role>, t: Txn, u: nat)
    ensures Effect(roles, t).1.target == t.target && Effect(roles, t).1.kind == t.kind
    ensures t.kind != Promote && u !in AdminsOf(roles) ==> u !in AdminsOf(Effect(roles, t).0)
    ensures u != t.target && u !in AdminsOf(roles) ==> u !in AdminsOf(Effect(roles, t).0)
  {
  }

  lemma StepKeepsCustomers(s: Sys, id: nat)
    requires OneAdminHeld(s) && StillCustomers(s) && NoPromotedDeletion(s)
    ensures !LosesLast(s, id) && NoPromotedDeletion(Step(s, id)) && StillCustomers(Step(s, id))
  {
    if CanStep(s, id) {
      var s' := Step(s, id);
      EffectOnAdmins(s.roles, s.txns[id]);
      forall other | other in s.txns
        ensures s'.txns[other].target == s.txns[other].target && s'.txns[other].kind == s.txns[other].kind
      {
        EffectKeepsTarget(s.roles, s.txns[id], 0);
      }
      forall other | other in s'.txns && s'.txns[other].phase == Cleared && s'.txns[other].admins.None?
        ensures s'.txns[other].target !in AdminsOf(s'.roles)
      {
        assert s'.txns[other].kind == Delete;
        EffectKeepsTarget(s.roles, s.txns[id], s.txns[other].target);
      }
    }
  }

  /** Without a promotion of an account under deletion, every interleaving always has an admin. */
  lemma {:induction false} SafeWithoutPromotedDeletion(s: Sys, schedule: seq<nat>)
    requires StartsSound(s) && NoPromotedDeletion(s)
    ensures AlwaysSome(s, schedule) && OneAdminHeld(Execute(s, schedule))
    ensures NoPromotedDeletion(Execute(s, schedule)) && StillCustomers(Execute(s, schedule))
  {
    if schedule == [] {
      assert schedule[..0] == [];
    } else {
      var front, id := schedule[..|schedule| - 1], schedule[|schedule| - 1];
      assert schedule == front + [id];
      SafeWithoutPromotedDeletion(s, front);
      StepKeepsCustomers(Execute(s, front), id);
      StepKeepsAdmin(Execute(s, front), id);
      NeverLosesSnoc(s, front, id);
      AlwaysSomeSnoc(s, front, id);
    }
  }

  /** Account 2 is deleted and promoted while admin 1 is demoted. */
  function Race(first: Role, second: Role, deletion: Phase, promotion: Phase, demotion: Phase,
                locked: Option<set<nat>>): Sys {
    Sys(map[1 := first, 2 := second],
        map[10 := Txn(Delete, 2, deletion, None), 11 := Txn(Promote, 2, promotion, None),
            12 := Txn(Demote, 1, demotion, locked)])
  }

  lemma RaceReadsRole()
    ensures StartsSound(Race(Admin, Customer, Starting, Starting, Starting, None))
    ensures Step(Race(Admin, Customer, Starting, Starting, Starting, None), 10)
            == Race(Admin, Customer, Cleared, Starting, Starting, None)
  {
    var s := Race(Admin, Customer, Starting, Starting, Starting, None);
    assert 1 in AdminsOf(s.roles);
    assert Step(s, 10).txns == Race(Admin, Customer, Cleared, Starting, Starting, None).txns;
  }

  lemma RacePromotes()
    ensures Step(Race(Admin, Customer, Cleared, Starting, Starting, None), 11)
            == Race(Admin, Admin, Cleared, Finished(Done), Starting, None)
  {
    var s := Race(Admin, Customer, Cleared, Starting, Starting, None);
    assert Step(s, 11).roles == map[1 := Admin, 2 := Admin];
    assert Step(s, 11).txns == Race(Admin, Admin, Cleared, Finished(Done), Starting, None).txns;
  }

  lemma RaceLocks()
    ensures Step(Race(Admin, Admin, Cleared, Finished(Done), Starting, None), 12)
            == Race(Admin, Admin, Cleared, Finished(Done), Locked, Some({1, 2}))
  {
    var s := Race(Admin, Admin, Cleared, Finished(Done), Starting, None);
    assert AdminsOf(s.roles) == {1, 2};
    assert Step(s, 12).txns == Race(Admin, Admin, Cleared, Finished(Done), Locked, Some({1, 2})).txns;
  }

  lemma RaceChecks()
    ensures Step(Race(Admin, Admin, Cleared, Finished(Done), Locked, Some({1, 2})), 12)
            == Race(Admin, Admin, Cleared, Finished(Done), Cleared, Some({1, 2}))
  {
    var s := Race(Admin, Admin, Cleared, Finished(Done), Locked, Some({1, 2}));
    assert |{1, 2}| == 2;
    assert Step(s, 12).txns == Race(Admin, Admin, Cleared, Finished(Done), Cleared, Some({1, 2})).txns;
  }

  lemma RaceDemotes()
    ensures Step(Race(Admin, Admin, Cleared, Finished(Done), Cleared, Some({1, 2})), 12)
            == Race(Customer, Admin, Cleared, Finished(Done), Finished(Done), Some({1, 2}))
  {
    var s := Race(Admin, Admin, Cleared, Finished(Done), Cleared, Some({1, 2}));
    assert Step(s, 12).roles == map[1 := Customer, 2 := Admin];
    assert Step(s, 12).txns == Race(Customer, Admin, Cleared, Finished(Done), Finished(Done), Some({1, 2})).txns;
  }

  lemma RaceDeletes()
    ensures AdminsOf(Step(Race(Customer, Admin, Cleared, Finished(Done), Finished(Done), Some({1, 2})), 10).roles) == {}
  {
    var s := Race(Customer, Admin, Cleared, Finished(Done), Finished(Done), Some({1, 2}));
    assert Step(s, 10).roles == map[1 := Customer];
  }

  /** With one it may not: read the role, promote the account, demote the other admin, then delete. */
  lemma PromotedDeletionLosesLast()
    ensures StartsSound(Race(Admin, Customer, Starting, Starting, Starting, None))
    ensures AdminsOf(Execute(Race(Admin, Customer, Starting, Starting, Starting, None),
                             [10, 11, 12, 12, 12, 10]).roles) == {}
  {
    var s := Race(Admin, Customer, Starting, Starting, Starting, None);
    RaceReadsRole();
    RacePromotes();
    RaceLocks();
    RaceChecks();
    RaceDemotes();
    RaceDeletes();
    ExecuteSix(s, 10, 11, 12, 12, 12, 10);
  }

  lemma ExecuteSix(s: Sys, a: nat, b: nat, c: nat, d: nat, e: nat, f: nat)
    ensures Execute(s, [a, b, c, d, e, f]) == Step(Step(Step(Step(Step(Step(s, a), b), c), d), e), f)
  {
    ExecuteSnoc(s, [], a);
    ExecuteSnoc(s, [a], b);
    ExecuteSnoc(s, [a, b], c);
    ExecuteSnoc(s, [a, b, c], d);
    ExecuteSnoc(s, [a, b, c, d], e);
    ExecuteSnoc(s, [a, b, c, d, e], f);
    assert [] + [a] == [a] && [a] + [b] == [a, b] && [a, b] + [c] == [a, b, c];
    assert [a, b, c] + [d] == [a, b, c, d] && [a, b, c, d] + [e] == [a, b, c, d, e];
    assert [a, b, c, d, e] + [f] == [a, b, c, d, e, f];
  }

  lemma ExecuteSnoc(s: Sys, front: seq<nat>, id: nat)
    ensures Execute(s, front + [id]) == Step(Execute(s, front), id)
  {
    assert (front + [id])[..|front|] == front;
  }

  /** A transaction is refused only when its target was alone in the set it locked. */
  lemma RefusedOnlyAlone(s: Sys, id: nat)
    requires OneAdminHeld(s) && id in s.txns && s.txns[id].phase != Finished(LastAdmin)
    requires Step(s, id).txns[id].phase == Finished(LastAdmin)
    ensures s.txns[id].phase == Locked && s.txns[id].admins == Some({s.txns[id].target})
    ensures Step(s, id).roles == s.roles
  {
    assert TxnSound(s.roles, s.txns[id]);
    if s.txns[id].phase == Locked {
      CheckEffect(s.roles, s.txns[id]);
    }
  }
}
