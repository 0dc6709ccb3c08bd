/** Managed-policy reconciliation for an IAM role
    (`apply_role_managed_policies`): attach what the template adds, detach
    what it no longer lists. */
module ManagedPolicies {
  import opened Wrappers
  import opened Seqs
  import opened Changes
  import opened Iam

  function AttachRecord(arn: string): ProposedChange
  {
    ProposedChange(Attach, Some(arn), None, "managed_policies", None, None, None)
  }

  function DetachRecord(arn: string): ProposedChange
  {
    ProposedChange(Detach, Some(arn), None, "managed_policies", None, None, None)
  }

  /** Template ARNs the role does not have yet, in template order. */
  function ToAttach(template: seq<string>, existing: seq<string>): (r: seq<string>)
    ensures forall a :: a in r <==> a in template && a !in existing
  {
    Without(template, existing)
  }

  /** Attached ARNs the template no longer lists, in existing order. */
  function ToDetach(template: seq<string>, existing: seq<string>): (r: seq<string>)
    ensures forall a :: a in r <==> a in existing && a !in template
  {
    Without(existing, template)
  }

  /** One record per ARN, of one kind, in order. */
  function ArnRecords(arns: seq<string>, attach: bool): (cs: seq<ProposedChange>)
    ensures |cs| == |arns|
    ensures forall i :: 0 <= i < |arns| ==>
              cs[i].changeType == (if attach then Attach else Detach) && cs[i].resourceId == Some(arns[i])
    ensures forall c :: c in cs ==>
              c.changeType == (if attach then Attach else Detach) && c.resourceId.Some? && c.resourceId.value in arns
  {
    seq(|arns|, i requires 0 <= i < |arns| => if attach then AttachRecord(arns[i]) else DetachRecord(arns[i]))
  }

  function ArnOps(role: string, arns: seq<string>, attach: bool): (ops: seq<IamOp>)
    ensures |ops| == |arns|
    ensures forall i :: 0 <= i < |arns| ==>
              ops[i] == if attach then AttachRolePolicy(role, arns[i]) else DetachRolePolicy(role, arns[i])
  {
    seq(|arns|, i requires 0 <= i < |arns| =>
          if attach then AttachRolePolicy(role, arns[i]) else DetachRolePolicy(role, arns[i]))
  }

  /** `apply_role_managed_policies` over the ARNs of the template's and the
      role's policies. */
  function Apply(role: string, template: seq<string>, existing: seq<string>, execute: bool): (p: Plan<IamOp>)
    ensures var attach := ToAttach(template, existing);
            var detach := ToDetach(template, existing);
            && |p.changes| == |attach| + |detach|
            && p.changes[..|attach|] == ArnRecords(attach, true)
            && p.changes[|attach|..] == ArnRecords(detach, false)
    ensures !execute ==> p.trace == []
    ensures execute ==> |p.trace| <= 1
    ensures execute ==>
              AllOps(p.trace) == multiset(ArnOps(role, ToAttach(template, existing), true))
                                 + multiset(ArnOps(role, ToDetach(template, existing), false))
    // `if tasks:`: no gather at all when there is nothing to attach or detach.
    ensures execute ==> (p.trace == [] <==> p.changes == [])
  {
    var attach := ToAttach(template, existing);
    var detach := ToDetach(template, existing);
    var ops := if execute then ArnOps(role, attach, true) + ArnOps(role, detach, false) else [];
    GatherOps(ops);
    var cs := ArnRecords(attach, true) + ArnRecords(detach, false);
    assert cs[..|attach|] == ArnRecords(attach, true);
    assert cs[|attach|..] == ArnRecords(detach, false);
    Plan(cs, Gather(ops))
  }

  /** No ARN gets both an ATTACH and a DETACH record. */
  lemma NoArnAttachedAndDetached(role: string, template: seq<string>, existing: seq<string>, execute: bool)
    ensures var cs := Apply(role, template, existing, execute).changes;
            forall c, d :: c in cs && d in cs && c.changeType == Attach && d.changeType == Detach ==>
              c.resourceId != d.resourceId
  {
    var cs := Apply(role, template, existing, execute).changes;
    var attach := ToAttach(template, existing);
    var detach := ToDetach(template, existing);
    assert cs == cs[..|attach|] + cs[|attach|..];
    forall c, d | c in cs && d in cs && c.changeType == Attach && d.changeType == Detach
      ensures c.resourceId != d.resourceId
    {
      assert c in ArnRecords(attach, true);
      assert d in ArnRecords(detach, false);
    }
  }

  /** Plan mode reports what execute mode reports and makes no call. */
  lemma PlanModeMatchesExecute(role: string, template: seq<string>, existing: seq<string>)
    ensures Apply(role, template, existing, false).changes == Apply(role, template, existing, true).changes
    ensures Apply(role, template, existing, false).trace == []
  {
  }

  /** The same ARNs, in any order and with any repetition, plan nothing. */
  lemma {:induction false} SameArnsPlanNothing(role: string, template: seq<string>, existing: seq<string>,
                                               execute: bool)
    requires Elements(template) == Elements(existing)
    ensures Apply(role, template, existing, execute) == Plan([], [])
  {
    EmptyWhenCovered(template, existing);
    EmptyWhenCovered(existing, template);
  }

  /** The ARNs attached once the gathered calls have taken effect. */
  function Executed(existing: seq<string>, attach: seq<string>, detach: seq<string>): set<string>
  {
    (Elements(existing) + Elements(attach)) - Elements(detach)
  }

  /** Convergence: after the calls, exactly the template's ARNs are
      attached, so the same template then plans nothing. */
  lemma {:induction false} ExecutedPoliciesConverge(role: string, template: seq<string>, existing: seq<string>,
                                                   after: seq<string>, execute: bool)
    requires Elements(after) == Executed(existing, ToAttach(template, existing), ToDetach(template, existing))
    ensures Elements(after) == Elements(template)
    ensures Apply(role, template, after, execute) == Plan([], [])
  {
    SameArnsPlanNothing(role, template, after, execute);
  }
}
