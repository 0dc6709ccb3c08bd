/** Tag reconciliation for an IAM role (`apply_role_tags`): stale keys are
    removed in one DETACH, and every template tag whose value differs from
    the role's is attached. */
module RoleTags {
  import opened Wrappers
  import opened JsonValue
  import opened Seqs
  import OrderedDict
  import opened Changes
  import opened Iam

  /** `tag.get("Value", "")`: the value a tag asks for. */
  function Wanted(t: Tag): string
  {
    t.value.GetOr("")
  }

  /** The (key, value) pairs of a tag list, in order. */
  function Pairs(tags: seq<Tag>): (ps: seq<(string, Option<string>)>)
    ensures |ps| == |tags|
    ensures forall i :: 0 <= i < |tags| ==> ps[i] == (tags[i].key, tags[i].value)
  {
    seq(|tags|, i requires 0 <= i < |tags| => (tags[i].key, tags[i].value))
  }

  /** `{tag["Key"]: tag.get("Value") for tag in tags}`. */
  function ValueMap(tags: seq<Tag>): seq<(string, Option<string>)>
  {
    OrderedDict.FromPairs(Pairs(tags))
  }

  /** The value the role carries under `key`: that of the last tag with the
      key, with a missing tag or a missing value read as "". This is the
      reference the planner's dictionary lookup is proved against. */
  function CurrentValue(tags: seq<Tag>, key: string): string
  {
    if |tags| == 0 then ""
    else if tags[|tags| - 1].key == key then Wanted(tags[|tags| - 1])
    else CurrentValue(tags[..|tags| - 1], key)
  }

  /** The role's tags as a key-to-value map. */
  function State(tags: seq<Tag>): map<string, string>
  {
    map k | k in TagKeys(tags) :: CurrentValue(tags, k)
  }

  // ---------------------------------------------------------------------
  // Which template tags to apply.
  // ---------------------------------------------------------------------

  /** `existing_tag_map.get(key, "")` as written: a key whose existing tag
      had no "Value" maps to Python's `None` (here `None`), which no string
      equals. */
  function LookupAsWritten(existing: seq<Tag>, key: string): Option<string>
  {
    match OrderedDict.Get(ValueMap(existing), key)
    case None => Some("")
    case Some(v) => v
  }

  /** `tags_to_apply` as written. */
  function TagsToApplyAsWritten(template: seq<Tag>, existing: seq<Tag>): (r: seq<Tag>)
    ensures forall t :: t in r <==> t in template && Some(Wanted(t)) != LookupAsWritten(existing, t.key)
  {
    Filter(template, t => Some(Wanted(t)) != LookupAsWritten(existing, t.key))
  }

  /** The existing value with a missing value read as "", as the template
      side already reads it. */
  function Lookup(existing: seq<Tag>, key: string): string
  {
    match OrderedDict.Get(ValueMap(existing), key)
    case None => ""
    case Some(v) => v.GetOr("")
  }

  /** `tags_to_apply`, with both sides reading a missing value as "": the
      template tags whose value differs from the role's current one. */
  function TagsToApply(template: seq<Tag>, existing: seq<Tag>): (r: seq<Tag>)
    ensures forall t :: t in r <==> t in template && Wanted(t) != CurrentValue(existing, t.key)
    ensures |r| <= |template|
  {
    forall k ensures Lookup(existing, k) == CurrentValue(existing, k) {
      LookupIsCurrentValue(existing, k);
    }
    Filter(template, t => Wanted(t) != Lookup(existing, t.key))
  }

  /** `tags_to_remove`: the keys of existing tags that the template does not
      mention, in existing order. */
  function TagsToRemove(template: seq<Tag>, existing: seq<Tag>): (r: seq<string>)
    ensures forall k :: k in r <==> k in TagKeys(existing) && k !in TagKeys(template)
  {
    Without(TagKeys(existing), TagKeys(template))
  }

  // ---------------------------------------------------------------------
  // The planner.
  // ---------------------------------------------------------------------

  function DetachRecord(keys: seq<string>): ProposedChange
  {
    ProposedChange(Detach, None, None, "tags", None, None, Some(Obj(map["TagKeys" := StrArray(keys)])))
  }

  function AttachRecord(t: Tag): ProposedChange
  {
    ProposedChange(Attach, None, None, "tags", None, Some(TagJson(t)), None)
  }

  /** The records `apply_role_tags` returns, which do not depend on the
      execute flag: one DETACH carrying every stale key, if there is any,
      then one ATTACH per tag to apply, in template order. */
  function Records(template: seq<Tag>, existing: seq<Tag>): (cs: seq<ProposedChange>)
    ensures |cs| == |Detaches(template, existing)| + |TagsToApply(template, existing)|
    ensures CountOf(cs, Detach) == |Detaches(template, existing)|
    ensures CountOf(cs, Attach) == |TagsToApply(template, existing)|
    ensures TagsToRemove(template, existing) != [] ==> cs[0] == DetachRecord(TagsToRemove(template, existing))
    ensures cs[|Detaches(template, existing)|..] == AttachRecords(TagsToApply(template, existing))
  {
    var detach := Detaches(template, existing);
    var attach := AttachRecords(TagsToApply(template, existing));
    CountOfAppend(detach, attach, Detach);
    CountOfAppend(detach, attach, Attach);
    assert (detach + attach)[|detach|..] == attach;
    detach + attach
  }

  /** The DETACH record for the stale keys, if there are any. */
  function Detaches(template: seq<Tag>, existing: seq<Tag>): (d: seq<ProposedChange>)
    ensures |d| <= 1 && (|d| == 1 <==> TagsToRemove(template, existing) != [])
    ensures CountOf(d, Detach) == |d| && CountOf(d, Attach) == 0
  {
    var remove := TagsToRemove(template, existing);
    if remove == [] then [] else [DetachRecord(remove)]
  }

  /** The calls `apply_role_tags` gathers when executing: `untag_role` with
      every stale key and `tag_role` with every tag to apply, each only when
      it has something to do. */
  function TagOps(role: string, template: seq<Tag>, existing: seq<Tag>): (ops: multiset<IamOp>)
  {
    var remove := TagsToRemove(template, existing);
    var apply := TagsToApply(template, existing);
    (if remove == [] then multiset{} else multiset{UntagRole(role, remove)})
    + (if apply == [] then multiset{} else multiset{TagRole(role, apply)})
  }

  /** `apply_role_tags`: the records, and in execute mode the one gathered
      group of tag calls; in plan mode no call at all. */
  function Apply(role: string, template: seq<Tag>, existing: seq<Tag>, execute: bool): (p: Plan<IamOp>)
    ensures p.changes == Records(template, existing)
    ensures !execute ==> p.trace == []
    ensures execute ==> |p.trace| <= 1 && AllOps(p.trace) == TagOps(role, template, existing)
    ensures execute ==> (p.trace == [] <==> p.changes == [])
  {
    var remove := TagsToRemove(template, existing);
    var apply := TagsToApply(template, existing);
    var untag := if execute && remove != [] then [UntagRole(role, remove)] else [];
    var tag := if execute && apply != [] then [TagRole(role, apply)] else [];
    GatherOps(untag + tag);
    Plan(Records(template, existing), Gather(untag + tag))
  }

  /** One ATTACH record per tag, in order. */
  function AttachRecords(apply: seq<Tag>): (a: seq<ProposedChange>)
    ensures |a| == |apply|
    ensures forall i :: 0 <= i < |apply| ==> a[i] == AttachRecord(apply[i])
    ensures CountOf(a, Attach) == |apply| && CountOf(a, Detach) == 0
  {
    var a := seq(|apply|, i requires 0 <= i < |apply| => AttachRecord(apply[i]));
    AllOfKind(a, Attach);
    a
  }

  // ---------------------------------------------------------------------
  // Properties.
  // ---------------------------------------------------------------------

  /** The dictionary lookup of the planner agrees with the last-tag-wins
      reading of the role's current value. */
  lemma {:induction false} LookupIsCurrentValue(existing: seq<Tag>, key: string)
    ensures Lookup(existing, key) == CurrentValue(existing, key)
  {
    LastPairIsCurrentValue(existing, key);
  }

  lemma {:induction false} LastPairIsCurrentValue(existing: seq<Tag>, key: string)
    ensures (match OrderedDict.LastValue(Pairs(existing), key)
             case None => ""
             case Some(v) => v.GetOr("")) == CurrentValue(existing, key)
  {
    if |existing| > 0 {
      var n := |existing|;
      assert Pairs(existing)[..n - 1] == Pairs(existing[..n - 1]);
      LastPairIsCurrentValue(existing[..n - 1], key);
    }
  }

  // ---------------------------------------------------------------------
  // Facts about CurrentValue.
  // ---------------------------------------------------------------------

  lemma {:induction false} CurrentValueAbsent(tags: seq<Tag>, key: string)
    requires key !in TagKeys(tags)
    ensures CurrentValue(tags, key) == ""
  {
    if |tags| > 0 {
      var n := |tags|;
      assert TagKeys(tags[..n - 1]) == TagKeys(tags)[..n - 1];
      assert tags[n - 1].key == TagKeys(tags)[n - 1];
      CurrentValueAbsent(tags[..n - 1], key);
    }
  }

  /** A present key reads the value of one of the tags carrying it. */
  lemma {:induction false} CurrentValueWitness(tags: seq<Tag>, key: string) returns (t: Tag)
    requires key in TagKeys(tags)
    ensures t in tags && t.key == key && CurrentValue(tags, key) == Wanted(t)
  {
    var n := |tags|;
    if tags[n - 1].key == key {
      t := tags[n - 1];
    } else {
      assert TagKeys(tags) == TagKeys(tags[..n - 1]) + [tags[n - 1].key];
      t := CurrentValueWitness(tags[..n - 1], key);
      assert t in tags;
    }
  }

  /** With distinct keys, a tag's key determines the tag. */
  lemma SameKeySameTag(tags: seq<Tag>, t: Tag, u: Tag)
    requires Distinct(TagKeys(tags))
    requires t in tags && u in tags && t.key == u.key
    ensures t == u
  {
    var i :| 0 <= i < |tags| && tags[i] == t;
    var j :| 0 <= j < |tags| && tags[j] == u;
    assert TagKeys(tags)[i] == TagKeys(tags)[j];
  }

  lemma KeyOfMember(tags: seq<Tag>, t: Tag)
    requires t in tags
    ensures t.key in TagKeys(tags)
  {
    var i :| 0 <= i < |tags| && tags[i] == t;
    assert TagKeys(tags)[i] == t.key;
  }

  lemma MemberOfKey(tags: seq<Tag>, k: string) returns (t: Tag)
    requires k in TagKeys(tags)
    ensures t in tags && t.key == k
  {
    var i :| 0 <= i < |tags| && TagKeys(tags)[i] == k;
    t := tags[i];
  }

  // ---------------------------------------------------------------------
  // Properties of the planner.
  // ---------------------------------------------------------------------

  /** Plan mode returns the same records as execute mode and issues no
      tag call. */
  lemma PlanModeMatchesExecute(role: string, template: seq<Tag>, existing: seq<Tag>)
    ensures Apply(role, template, existing, false).changes == Apply(role, template, existing, true).changes
    ensures Apply(role, template, existing, false).trace == []
  {
  }

  /** No key is both removed and set. */
  lemma {:induction false} RemovedAndAppliedDisjoint(template: seq<Tag>, existing: seq<Tag>)
    ensures forall t :: t in TagsToApply(template, existing) ==> t.key !in TagsToRemove(template, existing)
  {
    forall t | t in TagsToApply(template, existing)
      ensures t.key !in TagsToRemove(template, existing)
    {
      KeyOfMember(template, t);
    }
  }

  /** A tag whose key already carries its value is never applied. */
  lemma {:induction false} MatchingTagNotApplied(template: seq<Tag>, existing: seq<Tag>, t: Tag)
    requires Distinct(TagKeys(existing))
    requires t in existing
    ensures t !in TagsToApply(template, existing)
  {
    KeyOfMember(existing, t);
    var u := CurrentValueWitness(existing, t.key);
    SameKeySameTag(existing, t, u);
  }

  /** Identical tag lists (keys distinct, as AWS keeps them) plan nothing
      and call nothing. */
  lemma {:induction false} IdenticalTagsPlanNothing(role: string, tags: seq<Tag>, execute: bool)
    requires Distinct(TagKeys(tags))
    ensures Apply(role, tags, tags, execute) == Plan([], [])
  {
    IdenticalTagsApplyNothing(tags);
    EmptyWhenCovered(TagKeys(tags), TagKeys(tags));
    NothingToDo(role, tags, tags, execute);
  }

  lemma {:induction false} IdenticalTagsApplyNothing(tags: seq<Tag>)
    requires Distinct(TagKeys(tags))
    ensures TagsToApply(tags, tags) == []
  {
    forall t | t in tags ensures CurrentValue(tags, t.key) == Wanted(t) {
      KeyOfMember(tags, t);
      var u := CurrentValueWitness(tags, t.key);
      SameKeySameTag(tags, t, u);
    }
    WantedValuesApplyNothing(tags, tags);
  }

  /** With nothing to remove and nothing to apply, the planner returns
      nothing and calls nothing. */
  lemma NothingToDo(role: string, template: seq<Tag>, existing: seq<Tag>, execute: bool)
    requires TagsToRemove(template, existing) == [] && TagsToApply(template, existing) == []
    ensures Apply(role, template, existing, execute) == Plan([], [])
  {
  }

  /** The role's tags after the gathered calls: `untag_role` drops the
      stale keys, `tag_role` sets every applied tag. The two touch disjoint
      keys, so their order does not matter. */
  function Executed(before: map<string, string>, remove: seq<string>, apply: seq<Tag>): map<string, string>
  {
    (before - set k | k in remove) + State(apply)
  }

  /** Convergence: once the calls of an execute run have taken effect, the
      same template plans nothing against the role's new tags. */
  lemma {:induction false} ExecutedTagsConverge(role: string, template: seq<Tag>, existing: seq<Tag>,
                                               after: seq<Tag>, execute: bool)
    requires Distinct(TagKeys(template))
    requires State(after) == Executed(State(existing), TagsToRemove(template, existing),
                                      TagsToApply(template, existing))
    ensures Apply(role, template, after, execute) == Plan([], [])
  {
    ExecutedKeysAreTemplateKeys(template, existing, after);
    EmptyWhenCovered(TagKeys(after), TagKeys(template));
    ExecutedValuesAreWanted(template, existing, after);
    WantedValuesApplyNothing(template, after);
    NothingToDo(role, template, after, execute);
  }

  lemma WantedValuesApplyNothing(template: seq<Tag>, existing: seq<Tag>)
    requires forall t :: t in template ==> CurrentValue(existing, t.key) == Wanted(t)
    ensures TagsToApply(template, existing) == []
  {
    forall k ensures Lookup(existing, k) == CurrentValue(existing, k) {
      LookupIsCurrentValue(existing, k);
    }
    FilterNone(template, t => Wanted(t) != Lookup(existing, t.key));
  }

  lemma {:induction false} ExecutedKeysAreTemplateKeys(template: seq<Tag>, existing: seq<Tag>, after: seq<Tag>)
    requires State(after) == Executed(State(existing), TagsToRemove(template, existing),
                                      TagsToApply(template, existing))
    ensures forall k :: k in TagKeys(after) ==> k in TagKeys(template)
  {
    var apply := TagsToApply(template, existing);
    forall k | k in TagKeys(after) ensures k in TagKeys(template) {
      assert k in State(after);
      if k in State(apply) {
        var t := MemberOfKey(apply, k);
        KeyOfMember(template, t);
      }
    }
  }

  lemma {:induction false} ExecutedValuesAreWanted(template: seq<Tag>, existing: seq<Tag>, after: seq<Tag>)
    requires Distinct(TagKeys(template))
    requires State(after) == Executed(State(existing), TagsToRemove(template, existing),
                                      TagsToApply(template, existing))
    ensures forall t :: t in template ==> CurrentValue(after, t.key) == Wanted(t)
  {
    forall t | t in template ensures CurrentValue(after, t.key) == Wanted(t) {
      ExecutedValueIsWanted(template, existing, after, t);
    }
  }

  lemma ExecutedValueIsWanted(template: seq<Tag>, existing: seq<Tag>, after: seq<Tag>, t: Tag)
    requires Distinct(TagKeys(template))
    requires State(after) == Executed(State(existing), TagsToRemove(template, existing),
                                      TagsToApply(template, existing))
    requires t in template
    ensures CurrentValue(after, t.key) == Wanted(t)
  {
    KeyOfMember(template, t);
    var apply := TagsToApply(template, existing);
    if t.key in TagKeys(apply) {
      AppliedValueIsWanted(template, existing, after, t);
    } else {
      assert t !in apply by {
        if t in apply { KeyOfMember(apply, t); }
      }
      if t.key in TagKeys(existing) {
        KeptValueIsWanted(template, existing, after, t);
      } else {
        AbsentValueIsWanted(template, existing, after, t);
      }
    }
  }

  /** A key set by `tag_role` reads the template's value. */
  lemma AppliedValueIsWanted(template: seq<Tag>, existing: seq<Tag>, after: seq<Tag>, t: Tag)
    requires Distinct(TagKeys(template))
    requires State(after) == Executed(State(existing), TagsToRemove(template, existing),
                                      TagsToApply(template, existing))
    requires t in template
    requires t.key in TagKeys(TagsToApply(template, existing))
    ensures CurrentValue(after, t.key) == Wanted(t)
  {
    var u := CurrentValueWitness(TagsToApply(template, existing), t.key);
    SameKeySameTag(template, t, u);
    assert t.key in State(after);
  }

  /** A key left alone already read the template's value. */
  lemma KeptValueIsWanted(template: seq<Tag>, existing: seq<Tag>, after: seq<Tag>, t: Tag)
    requires Distinct(TagKeys(template))
    requires State(after) == Executed(State(existing), TagsToRemove(template, existing),
                                      TagsToApply(template, existing))
    requires t in template
    requires t.key in TagKeys(template)
    requires t.key !in TagKeys(TagsToApply(template, existing))
    requires t !in TagsToApply(template, existing)
    requires t.key in TagKeys(existing)
    ensures CurrentValue(after, t.key) == Wanted(t)
  {
    assert t.key !in TagsToRemove(template, existing);
    assert t.key in State(after);
  }

  /** A key the role never had and the template leaves empty stays away. */
  lemma AbsentValueIsWanted(template: seq<Tag>, existing: seq<Tag>, after: seq<Tag>, t: Tag)
    requires Distinct(TagKeys(template))
    requires State(after) == Executed(State(existing), TagsToRemove(template, existing),
                                      TagsToApply(template, existing))
    requires t in template
    requires t.key !in TagKeys(TagsToApply(template, existing))
    requires t !in TagsToApply(template, existing)
    requires t.key !in TagKeys(existing)
    ensures CurrentValue(after, t.key) == Wanted(t)
  {
    CurrentValueAbsent(existing, t.key);
    assert t.key !in State(after);
    CurrentValueAbsent(after, t.key);
  }

  /** The as-written lookup re-applies a tag without a value to a role that
      already carries that key without a value; the corrected one does not. */
  lemma ValuelessTagReapplied()
    ensures TagsToApplyAsWritten([Tag("env", None)], [Tag("env", None)]) == [Tag("env", None)]
    ensures TagsToApply([Tag("env", None)], [Tag("env", None)]) == []
  {
    var tags := [Tag("env", None)];
    assert ValueMap(tags) == [("env", None)] by {
      assert Pairs(tags) == [("env", None)];
    }
    assert Tag("env", None) !in TagsToApply(tags, tags);
    var w := TagsToApplyAsWritten(tags, tags);
    assert w == Filter(tags, t => Some(Wanted(t)) != LookupAsWritten(tags, t.key));
    assert tags == [tags[0]] + tags[1..];
  }

  /** The discrepancy needs an existing tag without a value: when every
      existing tag carries one, both readings select the same tags. */
  lemma {:induction false} AsWrittenAgreesWhenValued(template: seq<Tag>, existing: seq<Tag>)
    requires forall e :: e in existing ==> e.value.Some?
    ensures TagsToApplyAsWritten(template, existing) == TagsToApply(template, existing)
  {
    forall k ensures LookupAsWritten(existing, k) == Some(Lookup(existing, k)) {
      var lv := OrderedDict.LastValue(Pairs(existing), k);
      if lv.Some? {
        var i :| 0 <= i < |Pairs(existing)| && Pairs(existing)[i] == (k, lv.value);
        assert existing[i] in existing;
      }
    }
    FilterSameKeep(template, t => Some(Wanted(t)) != LookupAsWritten(existing, t.key),
                   t => Wanted(t) != Lookup(existing, t.key));
  }
}
