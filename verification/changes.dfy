/** Change records and the provider operations a planner issues. */
module Changes {
  import opened Wrappers
  import opened JsonValue

  datatype ChangeType = Create | Update | Attach | Detach | Delete

  /** One proposed mutation; an absent field is Python's `None`. */
  datatype ProposedChange = ProposedChange(
    changeType: ChangeType,
    resourceId: Option<string>,
    resourceType: Option<string>,
    attribute: string,
    currentValue: Option<Json>,
    newValue: Option<Json>,
    changeSummary: Option<Json>)

  /** The operations a planner hands to a provider, in time order. Each
      group is one `asyncio.gather`: its operations run concurrently, so a
      group is a multiset. A plain `await` is a group of one. */
  type Trace<Op(==)> = seq<multiset<Op>>

  /** What a planner returns, together with the operations it issued. */
  datatype Plan<Op(==)> = Plan(changes: seq<ProposedChange>, trace: Trace<Op>)

  /** A planner that returned normally, or one that raised after issuing
      the operations in `trace`; a raise discards the records. */
  datatype Outcome<Op(==)> = Returned(plan: Plan<Op>) | Raised(message: string, trace: Trace<Op>)

  /** `if tasks: await asyncio.gather(*tasks)`: one group, or nothing when
      there are no tasks. */
  function Gather<Op(==)>(ops: seq<Op>): (t: Trace<Op>)
    ensures |t| <= 1
    ensures |t| == 1 <==> |ops| > 0
    ensures forall i :: 0 <= i < |t| ==> t[i] == multiset(ops)
  {
    if |ops| == 0 then [] else [multiset(ops)]
  }

  /** A run of plain `await`s, one after another. */
  function Sequential<Op(==)>(ops: seq<Op>): (t: Trace<Op>)
    ensures |t| == |ops|
    ensures forall i :: 0 <= i < |ops| ==> t[i] == multiset{ops[i]}
  {
    seq(|ops|, i requires 0 <= i < |ops| => multiset{ops[i]})
  }

  /** Every operation of a trace, regardless of group. */
  function AllOps<Op(==)>(t: Trace<Op>): (ops: multiset<Op>)
    ensures forall i :: 0 <= i < |t| ==> t[i] <= ops
    ensures |t| == 0 ==> ops == multiset{}
  {
    if |t| == 0 then multiset{}
    else AllOps(t[..|t| - 1]) + t[|t| - 1]
  }

  /** The number of records of the given kind. */
  function CountOf(changes: seq<ProposedChange>, t: ChangeType): (n: nat)
    ensures n <= |changes|
    ensures n == 0 <==> forall c :: c in changes ==> c.changeType != t
  {
    if |changes| == 0 then 0
    else
      assert changes == changes[..|changes| - 1] + [changes[|changes| - 1]];
      CountOf(changes[..|changes| - 1], t) + (if changes[|changes| - 1].changeType == t then 1 else 0)
  }

  /** Counting over a concatenation adds up. */
  lemma {:induction false} CountOfAppend(a: seq<ProposedChange>, b: seq<ProposedChange>, t: ChangeType)
    ensures CountOf(a + b, t) == CountOf(a, t) + CountOf(b, t)
  {
    if |b| > 0 {
      assert (a + b)[..|a + b| - 1] == a + b[..|b| - 1];
      CountOfAppend(a, b[..|b| - 1], t);
    } else {
      assert a + b == a;
    }
  }

  /** Records all of one kind are all counted. */
  lemma {:induction false} AllOfKind(cs: seq<ProposedChange>, t: ChangeType)
    requires forall c :: c in cs ==> c.changeType == t
    ensures CountOf(cs, t) == |cs|
  {
    if |cs| > 0 {
      AllOfKind(cs[..|cs| - 1], t);
    }
  }

  lemma CountOfOne(c: ProposedChange, t: ChangeType)
    ensures CountOf([c], t) == if c.changeType == t then 1 else 0
  {
    assert [c][..0] == [];
  }

  /** The operations of two traces run one after the other are those of
      each: with `AllOps([g]) == g`, the operations of a trace are exactly
      the sum of its groups. */
  lemma {:induction false} AllOpsAppend<Op>(a: Trace<Op>, b: Trace<Op>)
    ensures AllOps(a + b) == AllOps(a) + AllOps(b)
  {
    if |b| == 0 {
      assert a + b == a;
    } else {
      assert (a + b)[..|a + b| - 1] == a + b[..|b| - 1];
      AllOpsAppend(a, b[..|b| - 1]);
    }
  }

  lemma AllOpsSingle<Op>(g: multiset<Op>)
    ensures AllOps([g]) == g
  {
    assert [g][..0] == [];
  }

  lemma GatherOps<Op>(ops: seq<Op>)
    ensures AllOps(Gather(ops)) == multiset(ops)
  {
    if |ops| > 0 {
      assert Gather(ops)[..0] == [];
    }
  }
}
