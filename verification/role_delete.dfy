/** Cascading deletion of an IAM role (`delete_iam_role`): a role with live
    dependents cannot be deleted, so the dependents go first. */
module RoleDeletion {
  import opened Changes
  import opened Iam

  function RemoveFromProfiles(role: string, profiles: seq<string>): (ops: seq<IamOp>)
    ensures |ops| == |profiles|
    ensures forall i :: 0 <= i < |profiles| ==> ops[i] == RemoveRoleFromInstanceProfile(role, profiles[i])
    ensures forall p :: p in profiles ==> RemoveRoleFromInstanceProfile(role, p) in ops
    ensures forall op :: op in ops ==> op.RemoveRoleFromInstanceProfile?
  {
    seq(|profiles|, i requires 0 <= i < |profiles| => RemoveRoleFromInstanceProfile(role, profiles[i]))
  }

  function DeleteProfiles(profiles: seq<string>): (ops: seq<IamOp>)
    ensures |ops| == |profiles|
    ensures forall i :: 0 <= i < |profiles| ==> ops[i] == DeleteInstanceProfile(profiles[i])
    ensures forall p :: p in profiles ==> DeleteInstanceProfile(p) in ops
    ensures forall op :: op in ops ==> op.DeleteInstanceProfile?
  {
    seq(|profiles|, i requires 0 <= i < |profiles| => DeleteInstanceProfile(profiles[i]))
  }

  function DetachPolicies(role: string, arns: seq<string>): (ops: seq<IamOp>)
    ensures |ops| == |arns|
    ensures forall i :: 0 <= i < |arns| ==> ops[i] == DetachRolePolicy(role, arns[i])
    ensures forall a :: a in arns ==> DetachRolePolicy(role, a) in ops
    ensures forall op :: op in ops ==> op.DetachRolePolicy?
  {
    seq(|arns|, i requires 0 <= i < |arns| => DetachRolePolicy(role, arns[i]))
  }

  function DeletePolicies(role: string, names: seq<string>): (ops: seq<IamOp>)
    ensures |ops| == |names|
    ensures forall i :: 0 <= i < |names| ==> ops[i] == DeleteRolePolicy(role, names[i])
    ensures forall n :: n in names ==> DeleteRolePolicy(role, n) in ops
    ensures forall op :: op in ops ==> op.DeleteRolePolicy?
  {
    seq(|names|, i requires 0 <= i < |names| => DeleteRolePolicy(role, names[i]))
  }

  /** `delete_iam_role`, given what the role has: its instance profiles,
      the ARNs of its managed policies and the names of its inline
      policies. Each `asyncio.gather` is one group, also when it is empty. */
  function Delete(role: string, profiles: seq<string>, arns: seq<string>, inline: seq<string>): (t: Trace<IamOp>)
    ensures |t| == 4
    // 1. every profile has the role removed,
    ensures forall p :: p in profiles ==> RemoveRoleFromInstanceProfile(role, p) in t[0]
    // 2. then every profile is deleted,
    ensures forall p :: p in profiles ==> DeleteInstanceProfile(p) in t[1]
    // 3. then every managed policy is detached and every inline one deleted,
    ensures forall a :: a in arns ==> DetachRolePolicy(role, a) in t[2]
    ensures forall n :: n in inline ==> DeleteRolePolicy(role, n) in t[2]
    // 4. and the role itself goes last, once, on its own.
    ensures t[3] == multiset{DeleteRole(role)}
    ensures DeleteRole(role) !in t[0] && DeleteRole(role) !in t[1] && DeleteRole(role) !in t[2]
    // Each group holds exactly its loop's calls, repetitions included.
    ensures t[0] == multiset(RemoveFromProfiles(role, profiles))
    ensures t[1] == multiset(DeleteProfiles(profiles))
    ensures t[2] == multiset(DetachPolicies(role, arns) + DeletePolicies(role, inline))
    // Nothing else: two calls per profile, one per policy, one for the role.
    ensures |AllOps(t)| == 2 * |profiles| + |arns| + |inline| + 1
  {
    var removals := multiset(RemoveFromProfiles(role, profiles));
    var deletions := multiset(DeleteProfiles(profiles));
    var policies := multiset(DetachPolicies(role, arns) + DeletePolicies(role, inline));
    RoleDeletedOnlyLast(role, profiles, arns, inline);
    PoliciesInThirdGroup(role, arns, inline);
    assert |policies| == |arns| + |inline|;
    Groups(removals, deletions, policies, multiset{DeleteRole(role)})
  }

  lemma RoleDeletedOnlyLast(role: string, profiles: seq<string>, arns: seq<string>, inline: seq<string>)
    ensures DeleteRole(role) !in RemoveFromProfiles(role, profiles)
    ensures DeleteRole(role) !in DeleteProfiles(profiles)
    ensures DeleteRole(role) !in DetachPolicies(role, arns) + DeletePolicies(role, inline)
  {
    assert !DeleteRole(role).RemoveRoleFromInstanceProfile?;
    assert !DeleteRole(role).DeleteInstanceProfile?;
    assert !DeleteRole(role).DetachRolePolicy? && !DeleteRole(role).DeleteRolePolicy?;
  }

  lemma PoliciesInThirdGroup(role: string, arns: seq<string>, inline: seq<string>)
    ensures forall a :: a in arns ==> DetachRolePolicy(role, a) in DetachPolicies(role, arns) + DeletePolicies(role, inline)
    ensures forall n :: n in inline ==> DeleteRolePolicy(role, n) in DetachPolicies(role, arns) + DeletePolicies(role, inline)
  {
  }

  /** Four gathers, one after another. */
  function Groups(g0: multiset<IamOp>, g1: multiset<IamOp>, g2: multiset<IamOp>, g3: multiset<IamOp>): (t: Trace<IamOp>)
    ensures |t| == 4 && t[0] == g0 && t[1] == g1 && t[2] == g2 && t[3] == g3
    ensures AllOps(t) == g0 + g1 + g2 + g3
  {
    var t := [g0, g1, g2, g3];
    var t3, t2, t1 := t[..3], t[..2], t[..1];
    assert t3[..2] == t2 && t2[..1] == t1 && t1[..0] == [];
    assert AllOps(t1) == g0;
    assert AllOps(t2) == g0 + g1;
    assert AllOps(t3) == g0 + g1 + g2;
    t
  }

  /** Every call other than the role's own deletion is made in a group
      gathered before the last one, so the role is deleted only after all
      of its dependents are gone. */
  lemma DependentsGoFirst(role: string, profiles: seq<string>, arns: seq<string>, inline: seq<string>,
                          op: IamOp)
    requires op in AllOps(Delete(role, profiles, arns, inline)) && op != DeleteRole(role)
    ensures var t := Delete(role, profiles, arns, inline);
            exists i :: 0 <= i < |t| - 1 && op in t[i]
  {
    var t := Delete(role, profiles, arns, inline);
    assert op in t[0] || op in t[1] || op in t[2];
  }
}
