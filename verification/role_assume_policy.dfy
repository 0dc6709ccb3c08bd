/** Trust-policy reconciliation for an IAM role
    (`update_assume_role_policy`). */
module AssumeRolePolicy {
  import opened Wrappers
  import opened JsonValue
  import opened Changes
  import opened Iam

  /** The existing document as compared: a string form is decoded first
      (`json.loads`, passed in as `parse`). */
  function Decoded(existing: Json, parse: string -> Json): Json
  {
    if existing.Str? then parse(existing.s) else existing
  }

  function CreateRecord(template: Json): ProposedChange
  {
    ProposedChange(Create, None, None, "assume_role_policy_document", None, Some(template), None)
  }

  function UpdateRecord(current: Json, template: Json, d: Drift): ProposedChange
  {
    ProposedChange(ChangeType.Update, None, None, "assume_role_policy_document", Some(current), Some(template), Some(Obj(d)))
  }

  /** `update_assume_role_policy`. `existing` is the role's document as
      fetched (`Null` when the role has none), `drift` the structural
      comparison, of which only emptiness and the report are used. */
  function Update(role: string, template: Json, existing: Json, parse: string -> Json,
                  drift: (Json, Json) -> Drift, execute: bool): (p: Plan<IamOp>)
    ensures |p.changes| <= 1
    // No document yet: exactly one CREATE carrying the template.
    ensures !Truthy(existing) ==> p.changes == [CreateRecord(template)]
    // A document that drifts: exactly one UPDATE with both values and the report.
    ensures var current := Decoded(existing, parse);
            Truthy(existing) && |drift(current, template)| > 0 ==>
              p.changes == [UpdateRecord(current, template, drift(current, template))]
    // A document that does not drift: nothing.
    ensures var current := Decoded(existing, parse);
            Truthy(existing) && Truthy(current) && |drift(current, template)| == 0 ==> p.changes == []
    // A non-empty text that decodes to an empty document, without drift: CREATE.
    ensures var current := Decoded(existing, parse);
            Truthy(existing) && !Truthy(current) && |drift(current, template)| == 0 ==>
              p.changes == [CreateRecord(template)]
    // The update call is made exactly when a record is reported and the run executes.
    ensures p.trace == if execute && |p.changes| == 1
                       then [multiset{UpdateAssumeRolePolicy(role, template)}] else []
  {
    var current := Decoded(existing, parse);
    var report := if Truthy(existing) then drift(current, template) else map[];
    if !Truthy(existing) || !Truthy(current) || |report| > 0 then
      var record := if |report| > 0 then UpdateRecord(current, template, report) else CreateRecord(template);
      Plan([record], if execute then [multiset{UpdateAssumeRolePolicy(role, template)}] else [])
    else
      Plan([], [])
  }

  /** Plan mode reports what execute mode reports and makes no call. */
  lemma PlanModeMatchesExecute(role: string, template: Json, existing: Json, parse: string -> Json,
                               drift: (Json, Json) -> Drift)
    ensures Update(role, template, existing, parse, drift, false).changes
            == Update(role, template, existing, parse, drift, true).changes
    ensures Update(role, template, existing, parse, drift, false).trace == []
  {
  }

  /** Convergence: once the template document is in place, and comparing a
      document with itself reports no drift, nothing more is planned. */
  lemma AppliedPolicyConverges(role: string, template: Json, parse: string -> Json,
                               drift: (Json, Json) -> Drift, execute: bool)
    requires Truthy(template) && !template.Str?
    requires |drift(template, template)| == 0
    ensures Update(role, template, template, parse, drift, execute) == Plan([], [])
  {
  }
}
