/** Inline-policy reconciliation for an IAM role
    (`apply_role_inline_policies`): policies are keyed by name and compared
    with the name stripped from the document. */
module InlinePolicies {
  import opened Wrappers
  import opened JsonValue
  import opened Seqs
  import OrderedDict
  import opened Changes
  import opened Iam

  /** A policy as listed: a document that also carries its name. */
  type Policy = map<string, Json>

  const PolicyNameKey: string := "PolicyName"

  /** The source indexes `policy["PolicyName"]`; the name is a string. */
  predicate Named(p: Policy)
  {
    PolicyNameKey in p && p[PolicyNameKey].Str?
  }

  function NameOf(p: Policy): string
    requires Named(p)
  {
    p[PolicyNameKey].s
  }

  /** `{k: v for k, v in policy.items() if k != "PolicyName"}`. */
  function Body(p: Policy): (d: map<string, Json>)
    ensures PolicyNameKey !in d
    ensures forall k :: k in d <==> k in p && k != PolicyNameKey
    ensures forall k :: k in d ==> d[k] == p[k]
  {
    p - {PolicyNameKey}
  }

  function Entries(ps: seq<Policy>): (es: seq<(string, map<string, Json>)>)
    requires forall p :: p in ps ==> Named(p)
    ensures |es| == |ps|
    ensures forall i :: 0 <= i < |ps| ==> es[i] == (NameOf(ps[i]), Body(ps[i]))
  {
    seq(|ps|, i requires 0 <= i < |ps| => (NameOf(ps[i]), Body(ps[i])))
  }

  /** `{policy["PolicyName"]: <body> for policy in policies}`. */
  function PolicyMap(ps: seq<Policy>): seq<(string, map<string, Json>)>
    requires forall p :: p in ps ==> Named(p)
  {
    OrderedDict.FromPairs(Entries(ps))
  }

  // ---------------------------------------------------------------------
  // Stale policies.
  // ---------------------------------------------------------------------

  /** `not template_policy_map.get(name)`: the template has no policy of
      that name, or only an empty one. */
  predicate Stale(templateMap: seq<(string, map<string, Json>)>, name: string)
  {
    match OrderedDict.Get(templateMap, name)
    case None => true
    case Some(d) => |d| == 0
  }

  /** The role's policy names the template does not keep, in role order. */
  function StaleNames(templateMap: seq<(string, map<string, Json>)>,
                      existingMap: seq<(string, map<string, Json>)>): (r: seq<string>)
    ensures forall n :: n in r <==> n in OrderedDict.Keys(existingMap) && Stale(templateMap, n)
  {
    Filter(OrderedDict.Keys(existingMap), n => Stale(templateMap, n))
  }

  function DeleteRecord(name: string): ProposedChange
  {
    ProposedChange(Delete, Some(name), None, "inline_policies", None, None, None)
  }

  // ---------------------------------------------------------------------
  // Template policies.
  // ---------------------------------------------------------------------

  function CreateRecord(name: string, doc: map<string, Json>): ProposedChange
  {
    ProposedChange(Create, Some(name), None, "inline_policies", None, Some(Obj(doc)), None)
  }

  function UpdateRecord(name: string, current: map<string, Json>, doc: map<string, Json>, d: Drift): ProposedChange
  {
    ProposedChange(ChangeType.Update, Some(name), None, "inline_policies", Some(Obj(current)), Some(Obj(doc)), Some(Obj(d)))
  }

  /** The record for one template policy against the role's document of the
      same name, if any. */
  function Classify(name: string, doc: map<string, Json>, current: Option<map<string, Json>>,
                    drift: (Json, Json) -> Drift): (r: Option<ProposedChange>)
    // Missing or empty on the role: CREATE.
    ensures (current.None? || |current.value| == 0) ==> r == Some(CreateRecord(name, doc))
    // Present and drifting: UPDATE with both documents and the report.
    ensures current.Some? && |current.value| > 0 && |drift(Obj(current.value), Obj(doc))| > 0 ==>
              r == Some(UpdateRecord(name, current.value, doc, drift(Obj(current.value), Obj(doc))))
    // Present without drift: nothing.
    ensures current.Some? && |current.value| > 0 && |drift(Obj(current.value), Obj(doc))| == 0 ==> r == None
  {
    var existing := current.GetOr(map[]);
    if |existing| > 0 then
      var d := drift(Obj(existing), Obj(doc));
      if |d| > 0 then Some(UpdateRecord(name, existing, doc, d)) else None
    else
      Some(CreateRecord(name, doc))
  }

  /** One template entry's record, looked up against the role's policies. */
  function EntryRecord(e: (string, map<string, Json>), existingMap: seq<(string, map<string, Json>)>,
                       drift: (Json, Json) -> Drift): Option<ProposedChange>
  {
    Classify(e.0, e.1, OrderedDict.Get(existingMap, e.0), drift)
  }

  /** The CREATE and UPDATE records, in template order. */
  function TemplateRecords(entries: seq<(string, map<string, Json>)>,
                           existingMap: seq<(string, map<string, Json>)>,
                           drift: (Json, Json) -> Drift): (cs: seq<ProposedChange>)
    ensures |cs| <= |entries|
    ensures forall c :: c in cs ==> c.changeType == Create || c.changeType == ChangeType.Update
    ensures forall i :: 0 <= i < |entries| && EntryRecord(entries[i], existingMap, drift).Some? ==>
              EntryRecord(entries[i], existingMap, drift).value in cs
    ensures forall c :: c in cs ==>
              exists i :: 0 <= i < |entries| && EntryRecord(entries[i], existingMap, drift) == Some(c)
    ensures cs == [] <==> forall i :: 0 <= i < |entries| ==> EntryRecord(entries[i], existingMap, drift).None?
  {
    if |entries| == 0 then []
    else
      var rest := TemplateRecords(entries[1..], existingMap, drift);
      TemplateRecordsCons(entries, existingMap, drift, rest);
      OptionSeq(EntryRecord(entries[0], existingMap, drift)) + rest
  }

  function OptionSeq(o: Option<ProposedChange>): (s: seq<ProposedChange>)
    ensures forall c :: c in s <==> o == Some(c)
    ensures s == [] <==> o.None?
  {
    match o
    case None => []
    case Some(c) => [c]
  }

  /** The recursive step of `TemplateRecords`. */
  lemma TemplateRecordsCons(entries: seq<(string, map<string, Json>)>,
                            existingMap: seq<(string, map<string, Json>)>,
                            drift: (Json, Json) -> Drift, rest: seq<ProposedChange>)
    requires |entries| > 0
    requires |rest| <= |entries| - 1
    requires forall c :: c in rest ==> c.changeType == Create || c.changeType == ChangeType.Update
    requires forall i :: 0 <= i < |entries[1..]| && EntryRecord(entries[1..][i], existingMap, drift).Some? ==>
               EntryRecord(entries[1..][i], existingMap, drift).value in rest
    requires forall c :: c in rest ==>
               exists i :: 0 <= i < |entries[1..]| && EntryRecord(entries[1..][i], existingMap, drift) == Some(c)
    requires rest == [] <==> forall i :: 0 <= i < |entries[1..]| ==> EntryRecord(entries[1..][i], existingMap, drift).None?
    ensures var cs := OptionSeq(EntryRecord(entries[0], existingMap, drift)) + rest;
            && |cs| <= |entries|
            && (forall c :: c in cs ==> c.changeType == Create || c.changeType == ChangeType.Update)
            && (forall i :: 0 <= i < |entries| && EntryRecord(entries[i], existingMap, drift).Some? ==>
                  EntryRecord(entries[i], existingMap, drift).value in cs)
            && (forall c :: c in cs ==>
                  exists i :: 0 <= i < |entries| && EntryRecord(entries[i], existingMap, drift) == Some(c))
            && (cs == [] <==> forall i :: 0 <= i < |entries| ==> EntryRecord(entries[i], existingMap, drift).None?)
  {
    var first := OptionSeq(EntryRecord(entries[0], existingMap, drift));
    var cs := first + rest;
    assert forall i :: 1 <= i < |entries| ==> entries[i] == entries[1..][i - 1];
    forall c | c in cs ensures c.changeType == Create || c.changeType == ChangeType.Update {
      if c in first {
        var e := entries[0];
        assert Classify(e.0, e.1, OrderedDict.Get(existingMap, e.0), drift) == Some(c);
      }
    }
    forall c | c in cs
      ensures exists i :: 0 <= i < |entries| && EntryRecord(entries[i], existingMap, drift) == Some(c)
    {
      if c !in first {
        var i :| 0 <= i < |entries[1..]| && EntryRecord(entries[1..][i], existingMap, drift) == Some(c);
        assert entries[i + 1] == entries[1..][i];
      }
    }
  }

  /** A template entry that gets a CREATE or UPDATE record. */
  predicate HasRecord(e: (string, map<string, Json>), existingMap: seq<(string, map<string, Json>)>,
                      drift: (Json, Json) -> Drift)
  {
    EntryRecord(e, existingMap, drift).Some?
  }

  /** `cs` holds, position by position, the records of the entries `kept`. */
  predicate RecordsOf(kept: seq<(string, map<string, Json>)>, cs: seq<ProposedChange>,
                      existingMap: seq<(string, map<string, Json>)>, drift: (Json, Json) -> Drift)
  {
    |cs| == |kept| && forall j :: 0 <= j < |kept| ==> EntryRecord(kept[j], existingMap, drift) == Some(cs[j])
  }

  /** The records are one per template policy that gets a record, in
      template order: the loop appends at most one record per policy and
      never reorders. */
  lemma {:induction false} TemplateRecordsInOrder(entries: seq<(string, map<string, Json>)>,
                                                  existingMap: seq<(string, map<string, Json>)>,
                                                  drift: (Json, Json) -> Drift)
    ensures RecordsOf(Filter(entries, e => HasRecord(e, existingMap, drift)),
                      TemplateRecords(entries, existingMap, drift), existingMap, drift)
  {
    if |entries| > 0 {
      TemplateRecordsInOrder(entries[1..], existingMap, drift);
      var keep := e => HasRecord(e, existingMap, drift);
      var head := if keep(entries[0]) then [entries[0]] else [];
      var first := OptionSeq(EntryRecord(entries[0], existingMap, drift));
      assert RecordsOf(head, first, existingMap, drift);
      assert Filter(entries, keep) == head + Filter(entries[1..], keep);
      assert TemplateRecords(entries, existingMap, drift) == first + TemplateRecords(entries[1..], existingMap, drift);
      RecordsOfAppend(head, Filter(entries[1..], keep), first, TemplateRecords(entries[1..], existingMap, drift),
                      existingMap, drift);
    }
  }

  lemma RecordsOfAppend(kept0: seq<(string, map<string, Json>)>, kept1: seq<(string, map<string, Json>)>,
                        cs0: seq<ProposedChange>, cs1: seq<ProposedChange>,
                        existingMap: seq<(string, map<string, Json>)>, drift: (Json, Json) -> Drift)
    requires RecordsOf(kept0, cs0, existingMap, drift) && RecordsOf(kept1, cs1, existingMap, drift)
    ensures RecordsOf(kept0 + kept1, cs0 + cs1, existingMap, drift)
  {
    forall j | 0 <= j < |kept0 + kept1|
      ensures EntryRecord((kept0 + kept1)[j], existingMap, drift) == Some((cs0 + cs1)[j])
    {
      if j >= |kept0| {
        assert (kept0 + kept1)[j] == kept1[j - |kept0|] && (cs0 + cs1)[j] == cs1[j - |cs0|];
      }
    }
  }

  /** A template entry is put when it got a record and its document is not
      empty. */
  predicate Puts(e: (string, map<string, Json>), existingMap: seq<(string, map<string, Json>)>,
                 drift: (Json, Json) -> Drift)
  {
    EntryRecord(e, existingMap, drift).Some? && |e.1| > 0
  }

  function PutOps(role: string, entries: seq<(string, map<string, Json>)>,
                  existingMap: seq<(string, map<string, Json>)>,
                  drift: (Json, Json) -> Drift): (ops: seq<IamOp>)
    ensures forall op :: op in ops ==> op.PutRolePolicy? && op.role == role && |op.policy| > 0
    ensures forall e :: e in entries && Puts(e, existingMap, drift) ==> PutRolePolicy(role, e.0, e.1) in ops
    ensures forall op :: op in ops ==> (op.policyName, op.policy) in entries
    ensures forall op :: op in ops ==> Puts((op.policyName, op.policy), existingMap, drift)
  {
    var put := Filter(entries, e => Puts(e, existingMap, drift));
    var ops := seq(|put|, i requires 0 <= i < |put| => PutRolePolicy(role, put[i].0, put[i].1));
    forall e | e in put ensures PutRolePolicy(role, e.0, e.1) in ops {
      var i :| 0 <= i < |put| && put[i] == e;
      assert ops[i] == PutRolePolicy(role, e.0, e.1);
    }
    forall op | op in ops
      ensures op.PutRolePolicy? && op.role == role && |op.policy| > 0 && (op.policyName, op.policy) in entries
      ensures Puts((op.policyName, op.policy), existingMap, drift)
    {
      var i :| 0 <= i < |ops| && ops[i] == op;
      assert put[i] in put;
    }
    ops
  }

  function DeleteOps(role: string, names: seq<string>): (ops: seq<IamOp>)
    ensures |ops| == |names|
    ensures forall i :: 0 <= i < |names| ==> ops[i] == DeleteRolePolicy(role, names[i])
  {
    seq(|names|, i requires 0 <= i < |names| => DeleteRolePolicy(role, names[i]))
  }

  function DeleteRecords(names: seq<string>): (cs: seq<ProposedChange>)
    ensures |cs| == |names|
    ensures forall c :: c in cs ==> c.changeType == Delete
    ensures forall i :: 0 <= i < |names| ==> cs[i] == DeleteRecord(names[i])
  {
    seq(|names|, i requires 0 <= i < |names| => DeleteRecord(names[i]))
  }

  // ---------------------------------------------------------------------
  // The planner.
  // ---------------------------------------------------------------------

  /** `apply_role_inline_policies`. In execute mode: a DELETE per stale
      policy, then the template records; the delete and put calls are
      gathered in one group. In plan mode: only the template records, and no
      call. */
  function Apply(role: string, template: seq<Policy>, existing: seq<Policy>,
                 drift: (Json, Json) -> Drift, execute: bool): (p: Plan<IamOp>)
    requires forall q :: q in template ==> Named(q)
    requires forall q :: q in existing ==> Named(q)
    ensures var stale := StaleNames(PolicyMap(template), PolicyMap(existing));
            var records := TemplateRecords(PolicyMap(template), PolicyMap(existing), drift);
            && p.changes == (if execute then DeleteRecords(stale) else []) + records
    ensures !execute ==> p.trace == [] && forall c :: c in p.changes ==> c.changeType != Delete
    ensures execute ==> |p.trace| <= 1
    ensures var stale := StaleNames(PolicyMap(template), PolicyMap(existing));
            execute ==> AllOps(p.trace) == multiset(DeleteOps(role, stale))
                          + multiset(PutOps(role, PolicyMap(template), PolicyMap(existing), drift))
    // `if tasks:`: no gather at all when there is nothing to delete or put.
    ensures execute ==> (p.trace == [] <==> StaleNames(PolicyMap(template), PolicyMap(existing)) == []
                                            && PutOps(role, PolicyMap(template), PolicyMap(existing), drift) == [])
  {
    var tMap := PolicyMap(template);
    var eMap := PolicyMap(existing);
    Combine(role, StaleNames(tMap, eMap), TemplateRecords(tMap, eMap, drift), PutOps(role, tMap, eMap, drift), execute)
  }

  /** The stale deletions and the template records and puts put together as
      the execute flag decides. */
  function Combine(role: string, stale: seq<string>, records: seq<ProposedChange>, puts: seq<IamOp>,
                   execute: bool): (p: Plan<IamOp>)
    requires forall c :: c in records ==> c.changeType == Create || c.changeType == ChangeType.Update
    ensures p.changes == (if execute then DeleteRecords(stale) else []) + records
    ensures !execute ==> p.trace == [] && forall c :: c in p.changes ==> c.changeType != Delete
    ensures execute ==> |p.trace| <= 1
    ensures execute ==> AllOps(p.trace) == multiset(DeleteOps(role, stale)) + multiset(puts)
    ensures execute ==> (p.trace == [] <==> stale == [] && puts == [])
  {
    var ops := if execute then DeleteOps(role, stale) + puts else [];
    GatherOps(ops);
    Plan((if execute then DeleteRecords(stale) else []) + records, Gather(ops))
  }

  // ---------------------------------------------------------------------
  // Properties.
  // ---------------------------------------------------------------------

  /** Stale policies are reported only in execute mode, one DELETE each. */
  lemma StaleReportedOnlyWhenExecuting(role: string, template: seq<Policy>, existing: seq<Policy>,
                                       drift: (Json, Json) -> Drift, execute: bool)
    requires forall q :: q in template ==> Named(q)
    requires forall q :: q in existing ==> Named(q)
    ensures var p := Apply(role, template, existing, drift, execute);
            var stale := StaleNames(PolicyMap(template), PolicyMap(existing));
            CountOf(p.changes, Delete) == if execute then |stale| else 0
  {
    var tMap := PolicyMap(template);
    var eMap := PolicyMap(existing);
    CombineCountsDeletes(role, StaleNames(tMap, eMap), TemplateRecords(tMap, eMap, drift),
                         PutOps(role, tMap, eMap, drift), execute);
  }

  lemma CombineCountsDeletes(role: string, stale: seq<string>, records: seq<ProposedChange>, puts: seq<IamOp>,
                             execute: bool)
    requires forall c :: c in records ==> c.changeType == Create || c.changeType == ChangeType.Update
    ensures CountOf(Combine(role, stale, records, puts, execute).changes, Delete) == if execute then |stale| else 0
  {
    var dels := if execute then DeleteRecords(stale) else [];
    CountOfAppend(dels, records, Delete);
    AllOfKind(dels, Delete);
  }

  /** Identical policy lists with non-empty documents, when a document
      compared with itself shows no drift, plan nothing and call nothing. */
  lemma {:induction false} IdenticalPoliciesPlanNothing(role: string, policies: seq<Policy>,
                                                      drift: (Json, Json) -> Drift, execute: bool)
    requires forall q :: q in policies ==> Named(q)
    requires forall q :: q in policies ==> |Body(q)| > 0 && |drift(Obj(Body(q)), Obj(Body(q)))| == 0
    ensures Apply(role, policies, policies, drift, execute) == Plan([], [])
  {
    var m := PolicyMap(policies);
    MapValuesAreBodies(policies);
    NothingStale(m);
    NoTemplateRecords(m, drift);
    NoPuts(role, m, drift);
  }

  /** Every entry of a policy map holds the body of one of the policies. */
  lemma MapValuesAreBodies(policies: seq<Policy>)
    requires forall q :: q in policies ==> Named(q)
    ensures forall e :: e in PolicyMap(policies) ==> exists q :: q in policies && e.1 == Body(q)
  {
    var m := PolicyMap(policies);
    var es := Entries(policies);
    forall e | e in m ensures exists q :: q in policies && e.1 == Body(q) {
      var j :| 0 <= j < |m| && m[j] == e;
      OrderedDict.GetUnique(m, e.0, j);
      var v := OrderedDict.LastValue(es, e.0);
      var i :| 0 <= i < |es| && es[i] == (e.0, v.value);
      assert policies[i] in policies;
    }
  }

  /** Against itself, a map whose documents are all non-empty has no stale
      name. */
  lemma NothingStale(m: seq<(string, map<string, Json>)>)
    requires OrderedDict.UniqueKeys(m)
    requires forall e :: e in m ==> |e.1| > 0
    ensures StaleNames(m, m) == []
  {
    forall n | n in OrderedDict.Keys(m) ensures !Stale(m, n) {
      var j :| 0 <= j < |m| && OrderedDict.Keys(m)[j] == n;
      OrderedDict.GetUnique(m, n, j);
      assert m[j] in m;
    }
    FilterNone(OrderedDict.Keys(m), n => Stale(m, n));
  }

  lemma NoTemplateRecords(m: seq<(string, map<string, Json>)>, drift: (Json, Json) -> Drift)
    requires OrderedDict.UniqueKeys(m)
    requires forall e :: e in m ==> |e.1| > 0 && |drift(Obj(e.1), Obj(e.1))| == 0
    ensures TemplateRecords(m, m, drift) == []
  {
    forall i | 0 <= i < |m| ensures EntryRecord(m[i], m, drift).None? {
      OrderedDict.GetUnique(m, m[i].0, i);
      assert m[i] in m;
    }
  }

  lemma NoPuts(role: string, m: seq<(string, map<string, Json>)>, drift: (Json, Json) -> Drift)
    requires OrderedDict.UniqueKeys(m)
    requires forall e :: e in m ==> |e.1| > 0 && |drift(Obj(e.1), Obj(e.1))| == 0
    ensures PutOps(role, m, m, drift) == []
  {
    forall e | e in m ensures !Puts(e, m, drift) {
      var j :| 0 <= j < |m| && m[j] == e;
      OrderedDict.GetUnique(m, e.0, j);
    }
    FilterNone(m, e => Puts(e, m, drift));
  }
}
