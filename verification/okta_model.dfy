/** The Okta app as the planners see it, and the Okta API calls they issue. */
module OktaModel {
  import opened Wrappers

  /** One assignment of an app: to a user (by login) or to a group (by
      name), with operator-owned fields such as an expiry alongside. */
  datatype Assignment = Assignment(user: Option<string>, group: Option<string>, expiresAt: Option<string>)

  /** An Okta app. `resourceType` and `resourceId` are the model's
      reporting identifiers; the model class itself is not part of this
      model. */
  datatype App = App(id: string, name: string, resourceType: string, resourceId: string,
                     assignments: seq<Assignment>)

  /** One mutating Okta API call. */
  datatype OktaOp =
    | AssignUserToApplication(appId: string, userId: string)
    | CreateApplicationGroupAssignment(appId: string, groupId: string)
    | DeleteApplicationUser(appId: string, userId: string)
    | DeleteApplicationGroupAssignment(appId: string, groupId: string)
    | UpdateApplication(appId: string, newName: string)
    | DeleteApplication(appId: string)

  /** The organisation as a planner sees it: lookups that may fail (`None`)
      and whether a mutating call succeeds. */
  datatype Org = Org(
    userId: string -> Option<string>,        // `client.get_user(login)`
    groupByName: string -> Option<string>,   // `get_group("", name, org)`, its `group_id`
    oktaGroupId: string -> Option<string>,   // `client.get_group(group_id)`, its `id`
    accepts: OktaOp -> bool)                 // the call returned no error

  /** Python truthiness of an optional name. */
  predicate Present(s: Option<string>)
  {
    s.Some? && |s.value| > 0
  }

  /** `[a.user for a in assignments if a.user]`. */
  function UserNames(assignments: seq<Assignment>): (r: seq<string>)
    ensures forall u :: u in r <==> exists a :: a in assignments && Present(a.user) && a.user.value == u
  {
    if |assignments| == 0 then []
    else
      var a := assignments[0];
      assert forall b :: b in assignments <==> b == a || b in assignments[1..];
      (if Present(a.user) then [a.user.value] else []) + UserNames(assignments[1..])
  }

  /** `[a.group for a in assignments if a.group]`. */
  function GroupNames(assignments: seq<Assignment>): (r: seq<string>)
    ensures forall g :: g in r <==> exists a :: a in assignments && Present(a.group) && a.group.value == g
  {
    if |assignments| == 0 then []
    else
      var a := assignments[0];
      assert forall b :: b in assignments <==> b == a || b in assignments[1..];
      (if Present(a.group) then [a.group.value] else []) + GroupNames(assignments[1..])
  }

  /** A group's Okta id through both lookups; a failure of either is `None`. */
  function GroupId(org: Org, name: string): Option<string>
  {
    match org.groupByName(name)
    case None => None
    case Some(gid) => org.oktaGroupId(gid)
  }
}
