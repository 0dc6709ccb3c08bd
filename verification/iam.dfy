/** The AWS IAM role state the planners compare against, and the IAM API
    calls they issue. */
module Iam {
  import opened Wrappers
  import opened JsonValue

  /** A role tag, `{"Key": key, "Value": value}`; "Value" may be missing. */
  datatype Tag = Tag(key: string, value: Option<string>)

  /** The tag as the dictionary it was given as. */
  function TagJson(t: Tag): (j: Json)
    ensures j.Obj? && "Key" in j.fields && j.fields["Key"] == Str(t.key)
    ensures "Value" in j.fields <==> t.value.Some?
  {
    match t.value
    case None => Obj(map["Key" := Str(t.key)])
    case Some(v) => Obj(map["Key" := Str(t.key), "Value" := Str(v)])
  }

  /** The keys of a tag list, in order. */
  function TagKeys(tags: seq<Tag>): (ks: seq<string>)
    ensures |ks| == |tags|
    ensures forall i :: 0 <= i < |tags| ==> ks[i] == tags[i].key
  {
    seq(|tags|, i requires 0 <= i < |tags| => tags[i].key)
  }

  /** One IAM API call made on behalf of role `role`. */
  datatype IamOp =
    | UntagRole(role: string, keys: seq<string>)
    | TagRole(role: string, tags: seq<Tag>)
    | UpdateAssumeRolePolicy(role: string, document: Json)
    | AttachRolePolicy(role: string, arn: string)
    | DetachRolePolicy(role: string, arn: string)
    | PutRolePolicy(role: string, policyName: string, policy: map<string, Json>)
    | DeleteRolePolicy(role: string, policyName: string)
    | RemoveRoleFromInstanceProfile(role: string, profile: string)
    | DeleteInstanceProfile(profile: string)
    | DeleteRole(role: string)
}
