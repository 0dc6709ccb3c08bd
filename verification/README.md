# Change planners of an identity-governance engine, in Dafny

This project models the change planners of an engine that reconciles
declarative templates for IAM roles and Okta apps against what the provider
reports. Each planner compares a template with the live state of one part
of a resource and returns an ordered list of change records. A record has a
type (CREATE, UPDATE, ATTACH, DETACH or DELETE), a resource id and type, an
attribute, current and new values, and a change summary. When the
`execute` flag is set, the planner also issues the matching provider
mutations.

Planners are pure functions here. Provider mutations are not performed.
They are emitted as a trace of operation values:

- A trace is a sequence of multisets of operations.
- Each `asyncio.gather` becomes one multiset, because its calls are
  unordered.
- A sequential `await` becomes a singleton multiset.

Modules:

- `Wrappers`, `JsonValue`, `Seqs`: option and result types, JSON values
  with Python truthiness, and list helpers. `Without(xs, ys)` is the
  comprehension `[x for x in xs if x not in ys]`.
- `OrderedDict`: Python dict semantics for `{k: v for ...}`. A key keeps the
  position of its first occurrence and takes the value of its last.
- `Changes`: the change record, plans, traces and the `Outcome` of a
  planner that may raise.
- `Iam`, `RoleTags`, `AssumeRolePolicy`, `ManagedPolicies`,
  `InlinePolicies`, `RoleDeletion`: the IAM role planners of
  `iambic/plugins/v0_1_0/aws/iam/role/utils.py`.
- `OktaModel`, `OktaAssignments`, `OktaApps`, `OktaListing`: the Okta app
  planners and the assignment folding of `iambic/okta/app/utils.py`.

DeepDiff is an opaque parameter, `drift: (Json, Json) -> map<string, Json>`.
Only whether its report is empty, and the report itself as a change
summary, are used. `json.loads` of a string trust policy is an opaque
`parse` parameter. The Okta lookups (user by login, group by name, Okta
group by id) and the outcome of each mutating call are fields of an `Org`
value.

## Model

| member | source | states |
|---|---|---|
| OrderedDict.FromPairs | iambic/plugins/v0_1_0/aws/iam/role/utils.py:129-130 | A dict built from pairs has unique keys. A lookup gives the value of the last pair with that key, against an independent definition. Keys appear in order of first occurrence. |
| OrderedDict.Set | iambic/plugins/v0_1_0/aws/iam/role/utils.py:333-340 | Assigning `d[k] = v` makes `k` read `v` and leaves every other key's value unchanged. Key order is kept, with a new key appended. Key uniqueness is preserved. |
| RoleTags.TagsToApplyAsWritten | iambic/plugins/v0_1_0/aws/iam/role/utils.py:129-135 | As written, a template tag is applied exactly when its value, a missing one read as "", differs from the existing lookup. That lookup gives "" for an absent key and `None` for a key whose last tag has no value. |
| RoleTags.TagsToApply | iambic/plugins/v0_1_0/aws/iam/role/utils.py:129-135 | A template tag is applied exactly when its value, a missing one read as "", differs from the role's current value for its key. The current value is that of the last tag with the key, "" when absent. |
| RoleTags.TagsToRemove | iambic/plugins/v0_1_0/aws/iam/role/utils.py:139-141 | A key is removed exactly when some existing tag has it and no template tag does. |
| RoleTags.Records | iambic/plugins/v0_1_0/aws/iam/role/utils.py:139-168 | There is one DETACH carrying all stale keys, present iff there are any, and placed first. It is followed by one ATTACH per applied tag, in template order. The counts of each type follow from this. |
| RoleTags.Apply | iambic/plugins/v0_1_0/aws/iam/role/utils.py:121-181 | The records do not depend on `execute`. Plan mode emits no call. Execute mode emits at most one gathered group holding the untag and tag calls. There is no group exactly when no record is produced. |
| RoleTags.PlanModeMatchesExecute | iambic/plugins/v0_1_0/aws/iam/role/utils.py:150-156 | Plan and execute mode return the same records, and plan mode returns no trace. |
| RoleTags.RemovedAndAppliedDisjoint | iambic/plugins/v0_1_0/aws/iam/role/utils.py:129-141 | No key is both removed and applied. |
| RoleTags.MatchingTagNotApplied | iambic/plugins/v0_1_0/aws/iam/role/utils.py:131-135 | With distinct existing keys, an existing tag in the template is not applied. |
| RoleTags.IdenticalTagsPlanNothing | iambic/plugins/v0_1_0/aws/iam/role/utils.py:121-181 | Identical tag lists with distinct keys produce no record and no call. |
| RoleTags.ExecutedTagsConverge | iambic/plugins/v0_1_0/aws/iam/role/utils.py:150-181 | For a template with distinct tag keys: once the untag and tag calls have taken effect, the same template plans nothing against the new tags. |
| RoleTags.ValuelessTagReapplied | iambic/plugins/v0_1_0/aws/iam/role/utils.py:129-134 | As written, a template tag without a value is re-applied to a role whose tag for that key has no value. The corrected reading applies nothing. |
| RoleTags.AsWrittenAgreesWhenValued | iambic/plugins/v0_1_0/aws/iam/role/utils.py:129-134 | When every existing tag has a value, the as-written and corrected readings select the same tags. |
| AssumeRolePolicy.Update | iambic/plugins/v0_1_0/aws/iam/role/utils.py:184-243 | A role with no document gives exactly one CREATE with the template, and so does a document that decodes to an empty one without drift. A drifting document gives exactly one UPDATE with current value, new value and the drift report. A non-empty document without drift gives no record. The update call is made exactly when a record exists and the run executes. |
| AssumeRolePolicy.PlanModeMatchesExecute | iambic/plugins/v0_1_0/aws/iam/role/utils.py:229-236 | Plan and execute mode report the same records, and plan mode makes no call. |
| AssumeRolePolicy.AppliedPolicyConverges | iambic/plugins/v0_1_0/aws/iam/role/utils.py:195-243 | For a non-empty, already decoded template document: once it is in place, and a document does not drift against itself, nothing is planned. An empty template gets a CREATE on every run, as in the source. |
| ManagedPolicies.Apply | iambic/plugins/v0_1_0/aws/iam/role/utils.py:246-320 | One ATTACH per template ARN not attached, then one DETACH per attached ARN not in the template. In execute mode, all attach and detach calls form one gathered group, and there is no group when there is no record. Plan mode makes no call. |
| ManagedPolicies.NoArnAttachedAndDetached | iambic/plugins/v0_1_0/aws/iam/role/utils.py:260-292 | No ARN gets both an ATTACH and a DETACH. |
| ManagedPolicies.PlanModeMatchesExecute | iambic/plugins/v0_1_0/aws/iam/role/utils.py:275-314 | Plan and execute mode report the same records, and plan mode makes no call. |
| ManagedPolicies.SameArnsPlanNothing | iambic/plugins/v0_1_0/aws/iam/role/utils.py:256-320 | Equal ARN sets, in any order and with any repetition, plan nothing. |
| ManagedPolicies.ExecutedPoliciesConverge | iambic/plugins/v0_1_0/aws/iam/role/utils.py:275-318 | After the calls take effect, exactly the template's ARNs are attached, and the same template plans nothing. |
| InlinePolicies.Body | iambic/plugins/v0_1_0/aws/iam/role/utils.py:333-340 | A document is compared with its `PolicyName` key removed. Every other key is kept, with its value. |
| InlinePolicies.StaleNames | iambic/plugins/v0_1_0/aws/iam/role/utils.py:342-343 | A role policy is stale exactly when the template has no policy of that name or only an empty one. |
| InlinePolicies.Classify | iambic/plugins/v0_1_0/aws/iam/role/utils.py:363-405 | A missing or empty role document gives CREATE. Drift gives UPDATE with both documents and the report. No drift gives nothing. |
| InlinePolicies.TemplateRecords | iambic/plugins/v0_1_0/aws/iam/role/utils.py:363-405 | Only CREATE and UPDATE records appear. Every template policy with a record contributes it, and every record comes from a template policy. There are no records exactly when no policy gets one. |
| InlinePolicies.TemplateRecordsInOrder | iambic/plugins/v0_1_0/aws/iam/role/utils.py:363-405 | There is exactly one record per template policy that gets one, in template order. |
| InlinePolicies.PutOps | iambic/plugins/v0_1_0/aws/iam/role/utils.py:380-417 | A put is issued for a template policy exactly when it has a record and a non-empty document. Every put carries that policy's name and document. |
| InlinePolicies.Apply | iambic/plugins/v0_1_0/aws/iam/role/utils.py:323-424 | In execute mode, one DELETE per stale policy comes before the template records. The delete and put calls form one gathered group, and there is no group when there is nothing to delete or put. In plan mode, only template records are returned, none of them DELETE, and no call is made. |
| InlinePolicies.StaleReportedOnlyWhenExecuting | iambic/plugins/v0_1_0/aws/iam/role/utils.py:342-361 | The number of DELETE records is the number of stale policies when executing, and zero in plan mode. |
| InlinePolicies.IdenticalPoliciesPlanNothing | iambic/plugins/v0_1_0/aws/iam/role/utils.py:323-424 | Identical policy lists with non-empty documents, where a document does not drift against itself, plan nothing and call nothing. |
| RoleDeletion.Delete | iambic/plugins/v0_1_0/aws/iam/role/utils.py:427-483 | There are four groups, in order. First the role is removed from every profile. Then every profile is deleted. Then every managed policy is detached and every inline policy deleted. The last group is the single role deletion, which appears in no earlier group. Each of the first three groups holds exactly its loop's calls, repetitions included. The call count is 2·profiles + ARNs + inline + 1. |
| RoleDeletion.DependentsGoFirst | iambic/plugins/v0_1_0/aws/iam/role/utils.py:427-483 | Every call other than the role's deletion comes in a group before the last. |
| OktaAssignments.Records | iambic/okta/app/utils.py:223-259 | There is a DETACH exactly when some user or group is to be unassigned, and an ATTACH exactly when some is to be assigned. DETACH comes first, so there are at most two records, and each carries its name lists. |
| OktaAssignments.AssignAndUnassignDisjoint | iambic/okta/app/utils.py:187-221 | No user or group is both assigned and unassigned. |
| OktaAssignments.SameNamesPlanNothing | iambic/okta/app/utils.py:187-221 | Assignment lists with the same user and group names plan and call nothing, whatever their order and other fields such as `expires_at`. |
| OktaAssignments.UserOps | iambic/okta/app/utils.py:262-275 | A user is called for exactly when its lookup succeeds. A failed lookup skips only that user. |
| OktaAssignments.GroupOps | iambic/okta/app/utils.py:276-299 | A group is called for exactly when both of its lookups succeed. A failed lookup skips only that group. |
| OktaAssignments.UserOpsFollowList | iambic/okta/app/utils.py:262-275 | The user loop follows its list: the i-th call is for the i-th login whose lookup succeeds. |
| OktaAssignments.GroupOpsFollowList | iambic/okta/app/utils.py:276-299 | The group loop follows its list: the i-th call is for the i-th name whose two lookups succeed. |
| OktaAssignments.CallsInLoopOrder | iambic/okta/app/utils.py:261-331 | Calls come in the order assign users, assign groups, unassign users, unassign groups. Within a loop, the order is that of its list, by `UserOpsFollowList` and `GroupOpsFollowList`. |
| OktaAssignments.Calls | iambic/okta/app/utils.py:261-331 | In execute mode, a call is made for each user or group to assign or unassign whose lookups succeed, on this app. Every call is one of those, and there are at most as many calls as names to handle. |
| OktaAssignments.UpdateAsWritten | iambic/okta/app/utils.py:165-333 | As written, plan mode returns the records with no call. Execute mode makes the calls one after another and raises at the first failed one, dropping the records. |
| OktaAssignments.Update | iambic/okta/app/utils.py:165-333 | With a failed call skipping its item, the planner always returns. Its records do not depend on `execute`, plan mode makes no call, and execute mode makes the calls one after another. |
| OktaAssignments.RunAsWritten | iambic/okta/app/utils.py:268-275 | As written, the run returns only when every call succeeds. Otherwise it raises right after the first failed call. |
| OktaAssignments.AsWrittenAgreesWhenCallsSucceed | iambic/okta/app/utils.py:261-331 | When every call succeeds, the as-written and intended runs agree. |
| OktaAssignments.FailedCallAbortsAsWritten | iambic/okta/app/utils.py:268-331 | A failed call makes the as-written run raise with none of the later calls made, while the intended run makes them all. |
| OktaAssignments.ExampleFailure | iambic/okta/app/utils.py:262-275 | With two users to assign and the first call rejected, the intended run's second call assigns "bob". The as-written run raises, and that call is not in its trace. |
| OktaApps.Rename | iambic/okta/app/utils.py:336-368 | An unchanged name gives no record and no call. Otherwise there is exactly one UPDATE of `app_name` carrying the new name, with the app's resource id and type. The update call is made only when executing, and its failure raises. |
| OktaApps.RenamePlanModeMatchesExecute | iambic/okta/app/utils.py:344-367 | Plan and execute mode report the same rename record. |
| OktaApps.RenameConverges | iambic/okta/app/utils.py:344-345 | Once renamed, renaming to the same name plans nothing. |
| OktaApps.MaybeDelete | iambic/okta/app/utils.py:371-407 | Without the delete flag, there is no record and no call. With it, there is exactly one DELETE of `app` with summary `{"app": name}`, with the app's id and resource type. The delete call is made only when executing, and its failure raises. |
| OktaApps.DeletePlanModeMatchesExecute | iambic/okta/app/utils.py:390-407 | Plan and execute mode report the same delete record. |
| OktaListing.UserListing | iambic/okta/app/utils.py:20-41 | App users in scope `GROUP` are skipped. The listing fails exactly when the login lookup of a remaining user fails. Otherwise it holds those users' logins, in order. |
| OktaListing.Collected | iambic/okta/app/utils.py:155-160 | An app collects exactly the entries of the listings with its id. |
| OktaListing.Fold | iambic/okta/app/utils.py:152-162 | Apps are returned in input order, otherwise unchanged. Each keeps its assignments and then receives what the listings gathered for it. |
| OktaListing.Gathered | iambic/okta/app/utils.py:136-152 | The listings come in app order, two per app: its user listing, then its group listing. |
| OktaListing.FoldGathered | iambic/okta/app/utils.py:136-162 | With distinct app ids, folding the listings in gather order gives every app its own users followed by its own groups. |

## Left out

- Provider I/O is not modelled: boto3 and Okta SDK calls, pagination, and the `get_role*`, `get_app` and `list_*` fetches. Fetched state is an input to the planners.
- AWS calls are assumed to succeed. `boto_crud_call` is not part of this model, so a failed AWS mutation is not modelled.
- The `tenacity` retry of `get_app` is left out, because it is timing behaviour of a library.
- DeepDiff and `json.loads`/`json.dumps` are not modelled; they are opaque parameters. Order-insensitivity of the comparison is not claimed.
- Concurrency is not modelled. Each `asyncio.gather` is an unordered group, and the interleaving inside it is not.
- Logging is left out. The one exception is the evaluation of the log arguments after a failed Okta call; see Findings.
- JSON numbers are integers only; floating point is not modelled.
- `list_app_group_assignments`, `get_app` and the app listing in `list_all_apps` are I/O. The listings they produce are inputs to `OktaListing.Fold`.
- `list_app_user_assignments` can fail to list app users and then iterate over the missing list. That failure is not modelled.
- `maybe_delete_app` calls `delete_app` on the Okta client. The SDK is not part of this model, so the call is the `DeleteApplication` operation, and whether that method exists is not checked.
- `iambic/main.py`, template merge, account-scope resolution and the apply driver are not part of this model.
- RoleTags.TagsToApply: states the corrected selection, where a missing existing value reads as "". As written, the source reads it as `None` and re-applies such a tag; that reading is `RoleTags.TagsToApplyAsWritten`. The two agree whenever every existing tag has a value, by `RoleTags.AsWrittenAgreesWhenValued`. See Findings.
- RoleTags.Apply: plans from the corrected `RoleTags.TagsToApply`, as do `RoleTags.Records` and `RoleTags.TagOps`. The as-written planner differs only for an existing tag without a value; see `RoleTags.TagsToApplyAsWritten` and `RoleTags.AsWrittenAgreesWhenValued`.
- RoleTags.Apply: the calls' effect on the role is stated as a separate map update, `RoleTags.Executed`, not as part of the planner.
- RoleDeletion.Delete: the instance profiles, managed policies and inline policies are inputs rather than fetches.
- OktaListing.FoldGathered: the lemma assumes distinct app ids, which the provider guarantees. With repeated ids, each app would collect every listing with its id.

## Findings

| source | as written | input that shows it | evidently intended | confidence | as-written member | corrected member |
|---|---|---|---|---|---|---|
| iambic/okta/app/utils.py:268-275, 293-299, 306-312, 325-331 | After a failed mutating call, the error log reads `assignment.user`, `assignment.oup` or `assignment.group`. `assignment` is a plain string, so this raises, ends the whole run and drops the records. | Two users to assign, with the first assignment rejected. The run raises after one call, and the second user is never assigned. | Log and `continue`, so that only the failing item is skipped. | not executed; medium, since it rests on Python raising AttributeError for a missing attribute of `str` | OktaAssignments.UpdateAsWritten, OktaAssignments.RunAsWritten, OktaAssignments.FailedCallAbortsAsWritten, OktaAssignments.ExampleFailure | OktaAssignments.Update, OktaAssignments.UserOps, OktaAssignments.GroupOps |
| iambic/plugins/v0_1_0/aws/iam/role/utils.py:129-134 | `existing_tag_map` stores `tag.get("Value")`, which is `None` for a tag without a value. `.get(key, "")` then returns `None`, and the template side's `""` never equals it. | Template `[{"Key": "env"}]` against existing `[{"Key": "env"}]`: the tag is re-applied on every run. | Read a missing value as `""` on both sides. | not executed; low, since AWS normally returns a Value for every tag | RoleTags.TagsToApplyAsWritten, RoleTags.ValuelessTagReapplied | RoleTags.TagsToApply, RoleTags.AsWrittenAgreesWhenValued |
