/** Reconciliation of an Okta app's user and group assignments
    (`update_app_assignments`). Only the user logins and group names are
    compared; other fields of an assignment play no part. */
module OktaAssignments {
  import opened Wrappers
  import opened JsonValue
  import opened Seqs
  import opened Changes
  import opened OktaModel

  function UsersToUnassign(app: App, desired: seq<Assignment>): seq<string>
  {
    Without(UserNames(app.assignments), UserNames(desired))
  }

  function UsersToAssign(app: App, desired: seq<Assignment>): seq<string>
  {
    Without(UserNames(desired), UserNames(app.assignments))
  }

  function GroupsToUnassign(app: App, desired: seq<Assignment>): seq<string>
  {
    Without(GroupNames(app.assignments), GroupNames(desired))
  }

  function GroupsToAssign(app: App, desired: seq<Assignment>): seq<string>
  {
    Without(GroupNames(desired), GroupNames(app.assignments))
  }

  /** Something is to be unassigned. */
  predicate Unassigns(app: App, desired: seq<Assignment>)
  {
    UsersToUnassign(app, desired) != [] || GroupsToUnassign(app, desired) != []
  }

  /** Something is to be assigned. */
  predicate Assigns(app: App, desired: seq<Assignment>)
  {
    UsersToAssign(app, desired) != [] || GroupsToAssign(app, desired) != []
  }

  function DetachRecord(app: App, users: seq<string>, groups: seq<string>): ProposedChange
  {
    ProposedChange(Detach, Some(app.id), Some(app.resourceType), "assignments", None, None,
      Some(Obj(map["AssignmentsToUnassign" :=
        Obj(map["user_assignments_to_unassign" := StrArray(users),
                "group_assignments_to_unassign" := StrArray(groups)])])))
  }

  function AttachRecord(app: App, users: seq<string>, groups: seq<string>): ProposedChange
  {
    ProposedChange(Attach, Some(app.id), Some(app.resourceType), "assignments", None, None,
      Some(Obj(map["AssignmentsToAssign" :=
        Obj(map["user_assignments_to_assign" := StrArray(users),
                "group_assignments_to_assign" := StrArray(groups)])])))
  }

  /** The records: a DETACH exactly when something is to be unassigned, an
      ATTACH exactly when something is to be assigned, DETACH first. */
  function Records(app: App, desired: seq<Assignment>): (cs: seq<ProposedChange>)
    ensures |cs| <= 2
    ensures CountOf(cs, Detach) == if Unassigns(app, desired) then 1 else 0
    ensures CountOf(cs, Attach) == if Assigns(app, desired) then 1 else 0
    ensures |cs| == CountOf(cs, Detach) + CountOf(cs, Attach)
    ensures Unassigns(app, desired) ==>
              cs[0] == DetachRecord(app, UsersToUnassign(app, desired), GroupsToUnassign(app, desired))
    ensures Assigns(app, desired) ==>
              cs[|cs| - 1] == AttachRecord(app, UsersToAssign(app, desired), GroupsToAssign(app, desired))
  {
    OptionalPair(Unassigns(app, desired),
                 DetachRecord(app, UsersToUnassign(app, desired), GroupsToUnassign(app, desired)),
                 Assigns(app, desired),
                 AttachRecord(app, UsersToAssign(app, desired), GroupsToAssign(app, desired)))
  }

  /** An optional DETACH record followed by an optional ATTACH record. */
  function OptionalPair(detach: bool, d: ProposedChange, attach: bool, a: ProposedChange): (cs: seq<ProposedChange>)
    requires d.changeType == Detach && a.changeType == Attach
    ensures |cs| <= 2
    ensures CountOf(cs, Detach) == if detach then 1 else 0
    ensures CountOf(cs, Attach) == if attach then 1 else 0
    ensures |cs| == CountOf(cs, Detach) + CountOf(cs, Attach)
    ensures detach ==> cs[0] == d
    ensures attach ==> cs[|cs| - 1] == a
  {
    CountOfOne(d, Detach);
    CountOfOne(d, Attach);
    CountOfOne(a, Detach);
    CountOfOne(a, Attach);
    if detach && attach then
      CountOfAppend([d], [a], Detach);
      CountOfAppend([d], [a], Attach);
      [d, a]
    else if detach then [d]
    else if attach then [a]
    else []
  }

  // ---------------------------------------------------------------------
  // The calls made in execute mode.
  // ---------------------------------------------------------------------

  /** Where a call falls in the loop order: assign users, assign groups,
      unassign users, unassign groups. */
  function Phase(op: OktaOp): nat
  {
    match op
    case AssignUserToApplication(_, _) => 0
    case CreateApplicationGroupAssignment(_, _) => 1
    case DeleteApplicationUser(_, _) => 2
    case DeleteApplicationGroupAssignment(_, _) => 3
    case UpdateApplication(_, _) => 4
    case DeleteApplication(_) => 5
  }

  function UserOp(appId: string, userId: string, assign: bool): OktaOp
  {
    if assign then AssignUserToApplication(appId, userId) else DeleteApplicationUser(appId, userId)
  }

  function GroupOp(appId: string, groupId: string, assign: bool): OktaOp
  {
    if assign then CreateApplicationGroupAssignment(appId, groupId) else DeleteApplicationGroupAssignment(appId, groupId)
  }

  /** One loop over user logins: a login whose lookup fails is skipped, and
      only that login. */
  function UserOps(appId: string, logins: seq<string>, org: Org, assign: bool): (ops: seq<OktaOp>)
    ensures |ops| <= |logins|
    ensures forall u :: u in logins && org.userId(u).Some? ==> UserOp(appId, org.userId(u).value, assign) in ops
    ensures forall op :: op in ops ==>
              exists u :: u in logins && org.userId(u).Some? && op == UserOp(appId, org.userId(u).value, assign)
    ensures forall op :: op in ops ==> Phase(op) == if assign then 0 else 2
  {
    if |logins| == 0 then []
    else
      var rest := UserOps(appId, logins[1..], org, assign);
      assert forall u :: u in logins <==> u == logins[0] || u in logins[1..];
      match org.userId(logins[0])
      case None => rest
      case Some(id) => [UserOp(appId, id, assign)] + rest
  }

  /** The user loop follows its list: the i-th call is for the i-th login
      whose lookup succeeds. */
  lemma {:induction false} UserOpsFollowList(appId: string, logins: seq<string>, org: Org, assign: bool)
    ensures var ops := UserOps(appId, logins, org, assign);
            var found := Filter(logins, u => org.userId(u).Some?);
            && |ops| == |found|
            && forall i :: 0 <= i < |found| ==>
                 org.userId(found[i]).Some? && ops[i] == UserOp(appId, org.userId(found[i]).value, assign)
  {
    if |logins| > 0 {
      UserOpsFollowList(appId, logins[1..], org, assign);
      UserOpsInOrder(appId, logins, org, assign, UserOps(appId, logins[1..], org, assign));
    }
  }

  /** The recursive step of `UserOpsFollowList`. */
  lemma UserOpsInOrder(appId: string, logins: seq<string>, org: Org, assign: bool, rest: seq<OktaOp>)
    requires |logins| > 0
    requires var found := Filter(logins[1..], u => org.userId(u).Some?);
             && |rest| == |found|
             && forall i :: 0 <= i < |found| ==>
                  org.userId(found[i]).Some? && rest[i] == UserOp(appId, org.userId(found[i]).value, assign)
    ensures var ops := match org.userId(logins[0])
                       case None => rest
                       case Some(id) => [UserOp(appId, id, assign)] + rest;
            var found := Filter(logins, u => org.userId(u).Some?);
            && |ops| == |found|
            && forall i :: 0 <= i < |found| ==>
                 org.userId(found[i]).Some? && ops[i] == UserOp(appId, org.userId(found[i]).value, assign)
  {
    assert Filter(logins, u => org.userId(u).Some?)
           == (if org.userId(logins[0]).Some? then [logins[0]] else []) + Filter(logins[1..], u => org.userId(u).Some?);
  }

  /** One loop over group names, skipping a name when either lookup fails. */
  function GroupOps(appId: string, names: seq<string>, org: Org, assign: bool): (ops: seq<OktaOp>)
    ensures |ops| <= |names|
    ensures forall g :: g in names && GroupId(org, g).Some? ==> GroupOp(appId, GroupId(org, g).value, assign) in ops
    ensures forall op :: op in ops ==>
              exists g :: g in names && GroupId(org, g).Some? && op == GroupOp(appId, GroupId(org, g).value, assign)
    ensures forall op :: op in ops ==> Phase(op) == if assign then 1 else 3
  {
    if |names| == 0 then []
    else
      var rest := GroupOps(appId, names[1..], org, assign);
      assert forall g :: g in names <==> g == names[0] || g in names[1..];
      match GroupId(org, names[0])
      case None => rest
      case Some(id) => [GroupOp(appId, id, assign)] + rest
  }

  /** The group loop follows its list: the i-th call is for the i-th name
      whose lookups succeed. */
  lemma {:induction false} GroupOpsFollowList(appId: string, names: seq<string>, org: Org, assign: bool)
    ensures var ops := GroupOps(appId, names, org, assign);
            var found := Filter(names, g => GroupId(org, g).Some?);
            && |ops| == |found|
            && forall i :: 0 <= i < |found| ==>
                 GroupId(org, found[i]).Some? && ops[i] == GroupOp(appId, GroupId(org, found[i]).value, assign)
  {
    if |names| > 0 {
      GroupOpsFollowList(appId, names[1..], org, assign);
      GroupOpsInOrder(appId, names, org, assign, GroupOps(appId, names[1..], org, assign));
    }
  }

  /** The recursive step of `GroupOpsFollowList`. */
  lemma GroupOpsInOrder(appId: string, names: seq<string>, org: Org, assign: bool, rest: seq<OktaOp>)
    requires |names| > 0
    requires var found := Filter(names[1..], g => GroupId(org, g).Some?);
             && |rest| == |found|
             && forall i :: 0 <= i < |found| ==>
                  GroupId(org, found[i]).Some? && rest[i] == GroupOp(appId, GroupId(org, found[i]).value, assign)
    ensures var ops := match GroupId(org, names[0])
                       case None => rest
                       case Some(id) => [GroupOp(appId, id, assign)] + rest;
            var found := Filter(names, g => GroupId(org, g).Some?);
            && |ops| == |found|
            && forall i :: 0 <= i < |found| ==>
                 GroupId(org, found[i]).Some? && ops[i] == GroupOp(appId, GroupId(org, found[i]).value, assign)
  {
    assert Filter(names, g => GroupId(org, g).Some?)
           == (if GroupId(org, names[0]).Some? then [names[0]] else []) + Filter(names[1..], g => GroupId(org, g).Some?);
  }

  /** The calls of the execute loops, in the order they are made: one per
      name to assign or unassign whose lookups succeed, all on this app and
      none of them a rename or a delete. */
  function Calls(app: App, desired: seq<Assignment>, org: Org): (ops: seq<OktaOp>)
    ensures |ops| <= |UsersToAssign(app, desired)| + |GroupsToAssign(app, desired)|
                     + |UsersToUnassign(app, desired)| + |GroupsToUnassign(app, desired)|
    ensures forall u :: u in UsersToAssign(app, desired) && org.userId(u).Some? ==>
              AssignUserToApplication(app.id, org.userId(u).value) in ops
    ensures forall g :: g in GroupsToAssign(app, desired) && GroupId(org, g).Some? ==>
              CreateApplicationGroupAssignment(app.id, GroupId(org, g).value) in ops
    ensures forall u :: u in UsersToUnassign(app, desired) && org.userId(u).Some? ==>
              DeleteApplicationUser(app.id, org.userId(u).value) in ops
    ensures forall g :: g in GroupsToUnassign(app, desired) && GroupId(org, g).Some? ==>
              DeleteApplicationGroupAssignment(app.id, GroupId(org, g).value) in ops
    ensures forall op :: op in ops ==> op.appId == app.id && Phase(op) <= 3
    ensures forall op :: op in ops && op.AssignUserToApplication? ==>
              exists u :: u in UsersToAssign(app, desired) && org.userId(u) == Some(op.userId)
    ensures forall op :: op in ops && op.CreateApplicationGroupAssignment? ==>
              exists g :: g in GroupsToAssign(app, desired) && GroupId(org, g) == Some(op.groupId)
    ensures forall op :: op in ops && op.DeleteApplicationUser? ==>
              exists u :: u in UsersToUnassign(app, desired) && org.userId(u) == Some(op.userId)
    ensures forall op :: op in ops && op.DeleteApplicationGroupAssignment? ==>
              exists g :: g in GroupsToUnassign(app, desired) && GroupId(org, g) == Some(op.groupId)
  {
    UserOps(app.id, UsersToAssign(app, desired), org, true)
      + GroupOps(app.id, GroupsToAssign(app, desired), org, true)
      + UserOps(app.id, UsersToUnassign(app, desired), org, false)
      + GroupOps(app.id, GroupsToUnassign(app, desired), org, false)
  }

  /** The calls come loop by loop: every user assignment before any group
      assignment, every assignment before any unassignment. */
  lemma CallsInLoopOrder(app: App, desired: seq<Assignment>, org: Org)
    ensures var ops := Calls(app, desired, org);
            forall i, j :: 0 <= i < j < |ops| ==> Phase(ops[i]) <= Phase(ops[j])
  {
    var a := UserOps(app.id, UsersToAssign(app, desired), org, true);
    var b := GroupOps(app.id, GroupsToAssign(app, desired), org, true);
    var c := UserOps(app.id, UsersToUnassign(app, desired), org, false);
    var d := GroupOps(app.id, GroupsToUnassign(app, desired), org, false);
    var ops := a + b + c + d;
    forall i, j | 0 <= i < j < |ops| ensures Phase(ops[i]) <= Phase(ops[j]) {
      PhaseByPosition(a, b, c, d, i);
      PhaseByPosition(a, b, c, d, j);
    }
  }

  /** Within four consecutive loops of phases 0 to 3, the phase of a call is
      fixed by the loop its position falls in. */
  lemma PhaseByPosition(a: seq<OktaOp>, b: seq<OktaOp>, c: seq<OktaOp>, d: seq<OktaOp>, i: nat)
    requires forall op :: op in a ==> Phase(op) == 0
    requires forall op :: op in b ==> Phase(op) == 1
    requires forall op :: op in c ==> Phase(op) == 2
    requires forall op :: op in d ==> Phase(op) == 3
    requires i < |a + b + c + d|
    ensures Phase((a + b + c + d)[i]) == if i < |a| then 0 else if i < |a| + |b| then 1
                                          else if i < |a| + |b| + |c| then 2 else 3
  {
    var ops := a + b + c + d;
    if i < |a| {
      assert ops[i] == a[i];
    } else if i < |a| + |b| {
      assert ops[i] == b[i - |a|];
    } else if i < |a| + |b| + |c| {
      assert ops[i] == c[i - |a| - |b|];
    } else {
      assert ops[i] == d[i - |a| - |b| - |c|];
    }
  }

  // ---------------------------------------------------------------------
  // The planner.
  // ---------------------------------------------------------------------

  /** `update_app_assignments`, with a failed call skipping its item as the
      loops' `continue` intends. */
  function Update(app: App, desired: seq<Assignment>, org: Org, execute: bool): (o: Outcome<OktaOp>)
    ensures o.Returned?
    ensures o.plan.changes == Records(app, desired)
    ensures !execute ==> o.plan.trace == []
    ensures execute ==> o.plan.trace == Sequential(Calls(app, desired, org))
  {
    Returned(Plan(Records(app, desired), if execute then Sequential(Calls(app, desired, org)) else []))
  }

  /** The index of the first call that fails, if any. */
  function FirstFailure(ops: seq<OktaOp>, accepts: OktaOp -> bool): (r: Option<nat>)
    ensures r.None? <==> forall op :: op in ops ==> accepts(op)
    ensures r.Some? ==> r.value < |ops| && !accepts(ops[r.value])
                        && forall k :: 0 <= k < r.value ==> accepts(ops[k])
  {
    if |ops| == 0 then None
    else if !accepts(ops[0]) then Some(0)
    else
      assert forall op :: op in ops <==> op == ops[0] || op in ops[1..];
      match FirstFailure(ops[1..], accepts)
      case None => None
      case Some(k) => Some(k + 1)
  }

  const AttributeError := "AttributeError: 'str' object has no attribute"

  /** The calls made one after another until the first that fails, which
      raises and discards the records. */
  function RunAsWritten(changes: seq<ProposedChange>, calls: seq<OktaOp>, accepts: OktaOp -> bool): (o: Outcome<OktaOp>)
    ensures o.Returned? <==> forall op :: op in calls ==> accepts(op)
    ensures o.Returned? ==> o.plan == Plan(changes, Sequential(calls))
    ensures o.Raised? ==>
              exists k :: 0 <= k < |calls| && !accepts(calls[k]) && (forall j :: 0 <= j < k ==> accepts(calls[j]))
                          && o == Raised(AttributeError, Sequential(calls[..k + 1]))
  {
    match FirstFailure(calls, accepts)
    case None => Returned(Plan(changes, Sequential(calls)))
    case Some(k) => Raised(AttributeError, Sequential(calls[..k + 1]))
  }

  /** `update_app_assignments` as written: the error branch after a failed
      call logs `assignment.user` (or `.oup`, `.group`) of a plain string,
      which raises, so the first failed call ends the whole run. */
  function UpdateAsWritten(app: App, desired: seq<Assignment>, org: Org, execute: bool): (o: Outcome<OktaOp>)
    ensures !execute ==> o == Returned(Plan(Records(app, desired), []))
    ensures execute ==> o == RunAsWritten(Records(app, desired), Calls(app, desired, org), org.accepts)
  {
    if !execute then Returned(Plan(Records(app, desired), []))
    else RunAsWritten(Records(app, desired), Calls(app, desired, org), org.accepts)
  }

  // ---------------------------------------------------------------------
  // Properties.
  // ---------------------------------------------------------------------

  /** Nothing is both assigned and unassigned. */
  lemma AssignAndUnassignDisjoint(app: App, desired: seq<Assignment>)
    ensures forall u :: u in UsersToAssign(app, desired) ==> u !in UsersToUnassign(app, desired)
    ensures forall g :: g in GroupsToAssign(app, desired) ==> g !in GroupsToUnassign(app, desired)
  {
  }

  /** Assignments whose logins and group names agree with the app's, in any
      order and whatever their other fields (an expiry, say), plan nothing
      and call nothing. */
  lemma {:induction false} SameNamesPlanNothing(app: App, desired: seq<Assignment>, org: Org, execute: bool)
    requires Elements(UserNames(app.assignments)) == Elements(UserNames(desired))
    requires Elements(GroupNames(app.assignments)) == Elements(GroupNames(desired))
    ensures Update(app, desired, org, execute) == Returned(Plan([], []))
  {
    EmptyWhenCovered(UserNames(app.assignments), UserNames(desired));
    EmptyWhenCovered(UserNames(desired), UserNames(app.assignments));
    EmptyWhenCovered(GroupNames(app.assignments), GroupNames(desired));
    EmptyWhenCovered(GroupNames(desired), GroupNames(app.assignments));
    NothingToDo(app, desired, org, execute);
  }

  /** With nothing to assign or unassign, the planner returns nothing and
      calls nothing. */
  lemma NothingToDo(app: App, desired: seq<Assignment>, org: Org, execute: bool)
    requires UsersToAssign(app, desired) == [] && GroupsToAssign(app, desired) == []
    requires UsersToUnassign(app, desired) == [] && GroupsToUnassign(app, desired) == []
    ensures Update(app, desired, org, execute) == Returned(Plan([], []))
  {
    CallsWhenOnlyUsersAssigned(app, desired, org);
    assert Calls(app, desired, org) == [];
  }

  /** The as-written run matches the intended one whenever every call
      succeeds. */
  lemma AsWrittenAgreesWhenCallsSucceed(app: App, desired: seq<Assignment>, org: Org, execute: bool)
    requires forall op :: op in Calls(app, desired, org) ==> org.accepts(op)
    ensures UpdateAsWritten(app, desired, org, execute) == Update(app, desired, org, execute)
  {
  }

  const ExampleApp := App("app", "App", "okta_app", "app", [])
  const ExampleDesired := [Assignment(Some("ann"), None, None), Assignment(Some("bob"), None, None)]
  const ExampleOrg := Org(s => Some(s), s => None, s => None, op => op != AssignUserToApplication("app", "ann"))

  lemma ExampleNames()
    ensures UsersToAssign(ExampleApp, ExampleDesired) == ["ann", "bob"]
    ensures GroupsToAssign(ExampleApp, ExampleDesired) == []
    ensures UsersToUnassign(ExampleApp, ExampleDesired) == []
    ensures GroupsToUnassign(ExampleApp, ExampleDesired) == []
  {
    var d := ExampleDesired;
    assert d[1..] == [Assignment(Some("bob"), None, None)];
    assert d[1..][1..] == [];
    assert UserNames(d[1..]) == ["bob"];
    assert UserNames(d) == ["ann", "bob"];
    assert GroupNames(d) == [];
    assert ["ann", "bob"][1..] == ["bob"];
    assert ["bob"][1..] == [];
  }

  lemma ExampleUserOps()
    ensures UserOps("app", ["ann", "bob"], ExampleOrg, true)
            == [AssignUserToApplication("app", "ann"), AssignUserToApplication("app", "bob")]
  {
    var logins := ["ann", "bob"];
    assert logins[1..] == ["bob"];
    assert ["bob"][1..] == [];
    assert ExampleOrg.userId("bob") == Some("bob");
    assert ExampleOrg.userId("ann") == Some("ann");
    assert UserOps("app", [], ExampleOrg, true) == [];
    assert UserOps("app", ["bob"], ExampleOrg, true) == [AssignUserToApplication("app", "bob")];
  }

  lemma CallsWhenOnlyUsersAssigned(app: App, desired: seq<Assignment>, org: Org)
    requires GroupsToAssign(app, desired) == []
    requires UsersToUnassign(app, desired) == [] && GroupsToUnassign(app, desired) == []
    ensures Calls(app, desired, org) == UserOps(app.id, UsersToAssign(app, desired), org, true)
  {
    var b := GroupOps(app.id, GroupsToAssign(app, desired), org, true);
    var c := UserOps(app.id, UsersToUnassign(app, desired), org, false);
    var d := GroupOps(app.id, GroupsToUnassign(app, desired), org, false);
    assert |b| == 0 && |c| == 0 && |d| == 0;
    AppendEmpty(UserOps(app.id, UsersToAssign(app, desired), org, true), b, c, d);
  }

  lemma AppendEmpty<T>(a: seq<T>, b: seq<T>, c: seq<T>, d: seq<T>)
    requires b == [] && c == [] && d == []
    ensures a + b + c + d == a
  {
  }

  lemma ExampleCalls()
    ensures Calls(ExampleApp, ExampleDesired, ExampleOrg)
            == [AssignUserToApplication("app", "ann"), AssignUserToApplication("app", "bob")]
  {
    ExampleNames();
    CallsWhenOnlyUsersAssigned(ExampleApp, ExampleDesired, ExampleOrg);
    ExampleUserOps();
  }

  /** As written, a failed call raises: no later call is made and the
      records are lost, while the intended run makes every call. */
  lemma FailedCallAbortsAsWritten(app: App, desired: seq<Assignment>, org: Org, k: nat)
    requires k < |Calls(app, desired, org)| && !org.accepts(Calls(app, desired, org)[k])
    ensures UpdateAsWritten(app, desired, org, true).Raised?
    ensures |UpdateAsWritten(app, desired, org, true).trace| <= k + 1
    ensures Update(app, desired, org, true).plan.trace == Sequential(Calls(app, desired, org))
  {
    var calls := Calls(app, desired, org);
    assert calls[k] in calls;
  }

  /** Two users to assign and the first assignment rejected: as written the
      run stops after one call, and "bob" is never assigned. */
  lemma ExampleFailure()
    ensures |Calls(ExampleApp, ExampleDesired, ExampleOrg)| == 2
    ensures !ExampleOrg.accepts(Calls(ExampleApp, ExampleDesired, ExampleOrg)[0])
    ensures Calls(ExampleApp, ExampleDesired, ExampleOrg)[1] == AssignUserToApplication("app", "bob")
    ensures UpdateAsWritten(ExampleApp, ExampleDesired, ExampleOrg, true).Raised?
    ensures AssignUserToApplication("app", "bob") !in AllOps(UpdateAsWritten(ExampleApp, ExampleDesired, ExampleOrg, true).trace)
  {
    ExampleCalls();
    FirstCallRejectedAsWritten(ExampleApp, ExampleDesired, ExampleOrg);
    AllOpsSingle(multiset{AssignUserToApplication("app", "ann")});
  }

  /** As written, a rejected first call ends the run after that one call. */
  lemma FirstCallRejectedAsWritten(app: App, desired: seq<Assignment>, org: Org)
    requires |Calls(app, desired, org)| > 0 && !org.accepts(Calls(app, desired, org)[0])
    ensures UpdateAsWritten(app, desired, org, true)
            == Raised(AttributeError, [multiset{Calls(app, desired, org)[0]}])
  {
    var calls := Calls(app, desired, org);
    assert FirstFailure(calls, org.accepts) == Some(0);
    assert Sequential(calls[..1]) == [multiset{calls[0]}];
  }
}
