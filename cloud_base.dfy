/** The provider-agnostic cloud driver (`aasemble/deployment/cloud/base.py`):
    name mappings, namespace filtering, detection, and the ordered create and
    destroy passes. Provider calls that change the account are recorded, in
    the order they are issued, in the driver's `trace`; the worker pool's
    `map` is a sequential pass over the set in an order the pool chooses. */
module CloudBase {
  import opened Util
  import opened Resources

  /** kind -> logical name -> provider-specific name */
  type Mappings = map<string, map<string, string>>

  /** One provider call that changes the account. */
  datatype Op =
    | CreateGroup(group: SecurityGroup)
    | CreateNode(node: Node)
    | CreateRule(rule: SecurityGroupRule)
    | DestroyNode(handle: Option<ProviderNode>)

  function CreateGroupOp(g: SecurityGroup): Op { CreateGroup(g) }
  function CreateNodeOp(n: Node): Op { CreateNode(n) }
  function CreateRuleOp(r: SecurityGroupRule): Op { CreateRule(r) }
  function DestroyNodeOp(n: Node): Op { DestroyNode(n.private) }

  function NodeName(n: Node): string { n.name }
  function GroupName(g: SecurityGroup): string { g.name }

  /** The position of an operation's kind in the apply order. */
  function Phase(op: Op): nat {
    match op
    case CreateGroup(_) => 0
    case CreateNode(_) => 1
    case CreateRule(_) => 2
    case DestroyNode(_) => 3
  }

  /** The calls `pool.map(call, m)` issues when the pool visits the keys of
      `m` in `order`. */
  function Dispatch<K, V>(order: seq<K>, m: map<K, V>, call: V -> Op): (ops: seq<Op>)
    requires KeysIn(order, m)
    ensures |ops| == |order|
    ensures forall i | 0 <= i < |order| :: ops[i] == call(m[order[i]])
    decreases |order|
  {
    if order == [] then []
    else Dispatch(order[..|order| - 1], m, call) + [call(m[order[|order| - 1]])]
  }

  /** The calls a pass issues for the values it visits, in order. The plan
      functions speak of passes by the keys visited (`Dispatch`); the loop in
      `CloudDriver.Pass` grows a prefix of the visited values, and a prefix
      of values, unlike a prefix of keys, needs no proof that its keys are in
      the map. `DispatchIsCalls` shows the two agree on a whole pass. */
  function Calls<V>(values: seq<V>, call: V -> Op): (ops: seq<Op>)
    ensures |ops| == |values|
    ensures forall i | 0 <= i < |values| :: ops[i] == call(values[i])
    decreases |values|
  {
    if values == [] then []
    else Calls(values[..|values| - 1], call) + [call(values[|values| - 1])]
  }

  /** The values of `m` at the keys of `order`. */
  function ValuesAt<K, V>(order: seq<K>, m: map<K, V>): (values: seq<V>)
    requires KeysIn(order, m)
    ensures |values| == |order| && forall i | 0 <= i < |order| :: values[i] == m[order[i]]
  {
    seq(|order|, i requires 0 <= i < |order| => m[order[i]])
  }

  /** A pass over keys issues the calls for the values at those keys (the
      first clause lets the loop's prefix `values[..i]` reach the whole). */
  lemma DispatchIsCalls<K, V>(order: seq<K>, m: map<K, V>, call: V -> Op)
    requires KeysIn(order, m)
    ensures ValuesAt(order, m)[..|order|] == ValuesAt(order, m)
    ensures Calls(ValuesAt(order, m), call) == Dispatch(order, m, call)
  {
  }

  /** One step of a pass: the calls for the first `i + 1` values, and
      whether all of them succeed. */
  lemma CallsStep<V>(values: seq<V>, i: nat, call: V -> Op, fails: Op -> bool)
    requires i < |values|
    ensures Calls(values[..i + 1], call) == Calls(values[..i], call) + [call(values[i])]
    ensures AllSucceed(Calls(values[..i + 1], call), fails) <==>
      AllSucceed(Calls(values[..i], call), fails) && !fails(call(values[i]))
  {
    assert values[..i + 1][..i] == values[..i];
    AllSucceedSnoc(Calls(values[..i], call), call(values[i]), fails);
  }

  /** The calls of `apply_resources`: all groups, then all nodes, then all rules. */
  function ApplyPlan(c: Collection, groupOrder: seq<string>, nodeOrder: seq<string>, ruleOrder: seq<RuleKey>): seq<Op>
    requires KeysIn(groupOrder, c.securityGroups)
    requires KeysIn(nodeOrder, c.nodes)
    requires KeysIn(ruleOrder, c.securityGroupRules)
  {
    Dispatch(groupOrder, c.securityGroups, CreateGroupOp)
      + Dispatch(nodeOrder, c.nodes, CreateNodeOp)
      + Dispatch(ruleOrder, c.securityGroupRules, CreateRuleOp)
  }

  lemma {:induction false} ConcatAssoc<T>(a: seq<T>, b: seq<T>, c: seq<T>, d: seq<T>)
    ensures a + b + c + d == a + (b + c + d)
  {
  }

  /** The calls of `clean_resources`: one destroy per node, on its handle. */
  function CleanPlan(c: Collection, nodeOrder: seq<string>): seq<Op>
    requires KeysIn(nodeOrder, c.nodes)
  {
    Dispatch(nodeOrder, c.nodes, DestroyNodeOp)
  }

  /** Why a driver operation stops: the provider call that raised. A pool
      pass that has a failing call reports the phase it belongs to. */
  datatype DriverError = ListNodesFailed | DetectFirewallsFailed | CallFailed(phase: nat)

  /** No call of `ops` fails. */
  predicate AllSucceed(ops: seq<Op>, fails: Op -> bool) {
    forall i | 0 <= i < |ops| :: !fails(ops[i])
  }

  /** The calls `apply_resources` issues when `fails` says which provider
      calls raise: a pass is taken to issue its whole phase even when some of
      its calls fail, and then raises, so the later passes are never started. */
  function ApplyTrace(c: Collection, fails: Op -> bool,
                      groupOrder: seq<string>, nodeOrder: seq<string>, ruleOrder: seq<RuleKey>): seq<Op>
    requires KeysIn(groupOrder, c.securityGroups)
    requires KeysIn(nodeOrder, c.nodes)
    requires KeysIn(ruleOrder, c.securityGroupRules)
  {
    var groupOps := Dispatch(groupOrder, c.securityGroups, CreateGroupOp);
    var nodeOps := Dispatch(nodeOrder, c.nodes, CreateNodeOp);
    var ruleOps := Dispatch(ruleOrder, c.securityGroupRules, CreateRuleOp);
    if !AllSucceed(groupOps, fails) then groupOps
    else if !AllSucceed(nodeOps, fails) then groupOps + nodeOps
    else groupOps + nodeOps + ruleOps
  }

  /** How `apply_resources` ends: the first pass with a failing call raises. */
  function ApplyResult(c: Collection, fails: Op -> bool,
                       groupOrder: seq<string>, nodeOrder: seq<string>, ruleOrder: seq<RuleKey>): Result<(), DriverError>
    requires KeysIn(groupOrder, c.securityGroups)
    requires KeysIn(nodeOrder, c.nodes)
    requires KeysIn(ruleOrder, c.securityGroupRules)
  {
    if !AllSucceed(Dispatch(groupOrder, c.securityGroups, CreateGroupOp), fails) then Err(CallFailed(0))
    else if !AllSucceed(Dispatch(nodeOrder, c.nodes, CreateNodeOp), fails) then Err(CallFailed(1))
    else if !AllSucceed(Dispatch(ruleOrder, c.securityGroupRules, CreateRuleOp), fails) then Err(CallFailed(2))
    else Ok(())
  }

  /** A failing group pass is the whole of `apply_resources`. */
  lemma GroupPassFailed(c: Collection, fails: Op -> bool,
                        groupOrder: seq<string>, nodeOrder: seq<string>, ruleOrder: seq<RuleKey>)
    requires KeysIn(groupOrder, c.securityGroups)
    requires KeysIn(nodeOrder, c.nodes)
    requires KeysIn(ruleOrder, c.securityGroupRules)
    requires !AllSucceed(Dispatch(groupOrder, c.securityGroups, CreateGroupOp), fails)
    ensures ApplyTrace(c, fails, groupOrder, nodeOrder, ruleOrder) == Dispatch(groupOrder, c.securityGroups, CreateGroupOp)
    ensures ApplyResult(c, fails, groupOrder, nodeOrder, ruleOrder) == Err(CallFailed(0))
  {
  }

  /** After the group pass succeeds, a failing node pass ends `apply_resources`. */
  lemma NodePassFailed(c: Collection, fails: Op -> bool,
                       groupOrder: seq<string>, nodeOrder: seq<string>, ruleOrder: seq<RuleKey>)
    requires KeysIn(groupOrder, c.securityGroups)
    requires KeysIn(nodeOrder, c.nodes)
    requires KeysIn(ruleOrder, c.securityGroupRules)
    requires AllSucceed(Dispatch(groupOrder, c.securityGroups, CreateGroupOp), fails)
    requires !AllSucceed(Dispatch(nodeOrder, c.nodes, CreateNodeOp), fails)
    ensures ApplyTrace(c, fails, groupOrder, nodeOrder, ruleOrder) ==
      Dispatch(groupOrder, c.securityGroups, CreateGroupOp) + Dispatch(nodeOrder, c.nodes, CreateNodeOp)
    ensures ApplyResult(c, fails, groupOrder, nodeOrder, ruleOrder) == Err(CallFailed(1))
  {
  }

  /** Once groups and nodes succeed, all three passes run and the rule pass decides. */
  lemma AllPassesRan(c: Collection, fails: Op -> bool,
                     groupOrder: seq<string>, nodeOrder: seq<string>, ruleOrder: seq<RuleKey>)
    requires KeysIn(groupOrder, c.securityGroups)
    requires KeysIn(nodeOrder, c.nodes)
    requires KeysIn(ruleOrder, c.securityGroupRules)
    requires AllSucceed(Dispatch(groupOrder, c.securityGroups, CreateGroupOp), fails)
    requires AllSucceed(Dispatch(nodeOrder, c.nodes, CreateNodeOp), fails)
    ensures ApplyTrace(c, fails, groupOrder, nodeOrder, ruleOrder) ==
      Dispatch(groupOrder, c.securityGroups, CreateGroupOp) + Dispatch(nodeOrder, c.nodes, CreateNodeOp)
      + Dispatch(ruleOrder, c.securityGroupRules, CreateRuleOp)
    ensures ApplyResult(c, fails, groupOrder, nodeOrder, ruleOrder) ==
      if AllSucceed(Dispatch(ruleOrder, c.securityGroupRules, CreateRuleOp), fails) then Ok(()) else Err(CallFailed(2))
  {
  }

  class CloudDriver {
    const namespace: Option<string>
    const mappings: Mappings
    /** The provider's `get_namespace` hook. */
    const namespaceOf: ProviderNode -> Option<string>
    /** The provider's `_aasemble_node_from_provider_node` hook. */
    const toNode: ProviderNode -> Node
    /** Which account-changing provider calls raise. */
    const fails: Op -> bool
    /** The account-changing provider calls issued so far. */
    var trace: seq<Op>

    /** `mappings or {}`: a missing table is the empty table. */
    constructor (namespace: Option<string>, mappings: Option<Mappings>,
                 namespaceOf: ProviderNode -> Option<string>, toNode: ProviderNode -> Node,
                 fails: Op -> bool)
      ensures this.namespace == namespace
      ensures this.mappings == (if mappings.Some? then mappings.value else map[])
      ensures this.namespaceOf == namespaceOf && this.toNode == toNode && this.fails == fails
      ensures trace == []
    {
      this.namespace := namespace;
      this.mappings := if mappings.Some? then mappings.value else map[];
      this.namespaceOf := namespaceOf;
      this.toNode := toNode;
      this.fails := fails;
      trace := [];
    }

    /** The provider name for a logical `name` of kind `kind`, falling back
        to the name itself when either level of the table has no entry. */
    function ApplyMappings(kind: string, name: string): (r: string)
      ensures kind !in mappings ==> r == name
      ensures kind in mappings && name !in mappings[kind] ==> r == name
      ensures kind in mappings && name in mappings[kind] ==> r == mappings[kind][name]
    {
      var byName := if kind in mappings then mappings[kind] else map[];
      if name in byName then byName[name] else name
    }

    /** `_is_node_relevant`: with no namespace configured every node is
        relevant; otherwise exactly the nodes tagged with that namespace. */
    predicate IsNodeRelevant(p: ProviderNode): (r: bool)
      ensures namespace.None? ==> r
      ensures namespace.Some? ==> (r <==> namespaceOf(p) == namespace)
    {
      namespace.None? || namespaceOf(p) == namespace
    }

    /** `_get_relevant_nodes`: the listed nodes that pass the namespace
        filter, in listing order. */
    function RelevantNodes(listed: seq<ProviderNode>): (r: seq<ProviderNode>)
      ensures |r| <= |listed|
      ensures forall p :: p in r <==> p in listed && IsNodeRelevant(p)
    {
      if listed == [] then []
      else if IsNodeRelevant(listed[0]) then [listed[0]] + RelevantNodes(listed[1..])
      else RelevantNodes(listed[1..])
    }

    function Converted(ps: seq<ProviderNode>): (r: seq<Node>)
      ensures |r| == |ps| && forall i | 0 <= i < |ps| :: r[i] == toNode(ps[i])
    {
      seq(|ps|, i requires 0 <= i < |ps| => toNode(ps[i]))
    }

    /** The node set `detect_nodes` returns for the listing `listed`. */
    function DetectedNodes(listed: seq<ProviderNode>): map<string, Node> {
      SetOf(Converted(RelevantNodes(listed)), NodeName)
    }

    /** The collection `detect_resources` returns, given the listing and what
        `detect_firewalls` reports. */
    function DetectedCollection(listed: seq<ProviderNode>, groups: seq<SecurityGroup>,
                                rules: seq<SecurityGroupRule>): Collection
    {
      Connect(Collection(DetectedNodes(listed), SetOf(groups, GroupName), SetOf(rules, RuleKeyOf)))
    }

    /** `detect_nodes`: convert each relevant listed node and add it to a
        set of nodes. */
    method DetectNodes(listed: seq<ProviderNode>) returns (nodes: map<string, Node>)
      ensures nodes == DetectedNodes(listed)
    {
      var relevant := RelevantNodes(listed);
      ghost var converted := Converted(relevant);
      nodes := map[];
      for i := 0 to |relevant|
        invariant nodes == SetOf(converted[..i], NodeName)
      {
        var node := toNode(relevant[i]);
        SetOfStep(converted, i, NodeName);
        nodes := Insert(nodes, node.name, node);
      }
      assert converted[..|relevant|] == converted;
    }

    /** `detect_resources`: a fresh collection filled with the detected nodes,
        then the reported groups, then the reported rules, and connected once
        all three sets are complete. `listed` is what `list_nodes` returns and
        `firewalls` what `detect_firewalls` returns; `None` means the call
        raised, which ends detection. */
    method DetectResources(listed: Option<seq<ProviderNode>>,
                           firewalls: Option<(seq<SecurityGroup>, seq<SecurityGroupRule>)>)
      returns (r: Result<Collection, DriverError>)
      ensures listed.None? ==> r == Err(ListNodesFailed)
      ensures listed.Some? && firewalls.None? ==> r == Err(DetectFirewallsFailed)
      ensures listed.Some? && firewalls.Some? ==>
        r == Ok(DetectedCollection(listed.value, firewalls.value.0, firewalls.value.1))
    {
      var c := EmptyCollection();
      if listed.None? {
        return Err(ListNodesFailed);
      }
      var nodes := DetectNodes(listed.value);
      // Adding every member of a set to an empty set yields that set.
      c := c.(nodes := nodes);
      if firewalls.None? {
        return Err(DetectFirewallsFailed);
      }
      var groupSet := AddEach(firewalls.value.0, GroupName);
      c := c.(securityGroups := groupSet);
      var ruleSet := AddEach(firewalls.value.1, RuleKeyOf);
      c := c.(securityGroupRules := ruleSet);
      c := Connect(c);
      return Ok(c);
    }

    /** One account-changing provider call (a `create_*` hook or
        `destroy_node`); it raises when `fails` says so. */
    method Call(op: Op) returns (ok: bool)
      modifies this
      ensures trace == old(trace) + [op]
      ensures ok == !fails(op)
    {
      trace := trace + [op];
      ok := !fails(op);
    }

    /** `pool.map(hook, m)`: the pool visits every element of `m` once, in
        an order it chooses (returned as a ghost result), and calls the hook
        on each; it raises if any of them did. The calls the pool skips after
        a failure, in the rest of that call's chunk, are issued here too. */
    method Pass<K(!new), V>(m: map<K, V>, hook: V -> Op) returns (ok: bool, ghost order: seq<K>)
      modifies this
      ensures Enumerates(order, m.Keys)
      ensures trace == old(trace) + Dispatch(order, m, hook)
      ensures ok <==> AllSucceed(Dispatch(order, m, hook), fails)
    {
      var ks := Enumerate(m.Keys);
      ghost var values := ValuesAt(ks, m);
      ghost var before := trace;
      ok := true;
      for i := 0 to |ks|
        invariant trace == before + Calls(values[..i], hook)
        invariant ok <==> AllSucceed(Calls(values[..i], hook), fails)
      {
        CallsStep(values, i, hook, fails);
        var succeeded := Call(hook(m[ks[i]]));
        ok := ok && succeeded;
      }
      DispatchIsCalls(ks, m, hook);
      order := ks;
    }

    /** `apply_resources`: three pool passes, one after the other, creating
        the groups, then the nodes, then the rules of `c`; a pass that raises
        ends it. The orders the pool visited the sets in are returned as
        ghost results (empty for a pass never started). */
    method ApplyResources(c: Collection)
      returns (r: Result<(), DriverError>,
               ghost groupOrder: seq<string>, ghost nodeOrder: seq<string>, ghost ruleOrder: seq<RuleKey>)
      modifies this
      ensures Enumerates(groupOrder, c.securityGroups.Keys)
      ensures KeysIn(nodeOrder, c.nodes)
      ensures KeysIn(ruleOrder, c.securityGroupRules)
      ensures AllSucceed(Dispatch(groupOrder, c.securityGroups, CreateGroupOp), fails) ==>
        Enumerates(nodeOrder, c.nodes.Keys)
      ensures (AllSucceed(Dispatch(groupOrder, c.securityGroups, CreateGroupOp), fails)
               && AllSucceed(Dispatch(nodeOrder, c.nodes, CreateNodeOp), fails)) ==>
        Enumerates(ruleOrder, c.securityGroupRules.Keys)
      ensures trace == old(trace) + ApplyTrace(c, fails, groupOrder, nodeOrder, ruleOrder)
      ensures r == ApplyResult(c, fails, groupOrder, nodeOrder, ruleOrder)
    {
      ghost var before := trace;
      var ok;
      nodeOrder, ruleOrder := [], [];
      ok, groupOrder := Pass(c.securityGroups, CreateGroupOp);
      ghost var groupOps := Dispatch(groupOrder, c.securityGroups, CreateGroupOp);
      if !ok {
        GroupPassFailed(c, fails, groupOrder, nodeOrder, ruleOrder);
        return Err(CallFailed(0)), groupOrder, nodeOrder, ruleOrder;
      }
      ok, nodeOrder := Pass(c.nodes, CreateNodeOp);
      ghost var nodeOps := Dispatch(nodeOrder, c.nodes, CreateNodeOp);
      assert trace == before + (groupOps + nodeOps);
      if !ok {
        NodePassFailed(c, fails, groupOrder, nodeOrder, ruleOrder);
        return Err(CallFailed(1)), groupOrder, nodeOrder, ruleOrder;
      }
      ok, ruleOrder := Pass(c.securityGroupRules, CreateRuleOp);
      ghost var ruleOps := Dispatch(ruleOrder, c.securityGroupRules, CreateRuleOp);
      ConcatAssoc(before, groupOps, nodeOps, ruleOps);
      AllPassesRan(c, fails, groupOrder, nodeOrder, ruleOrder);
      r := if ok then Ok(()) else Err(CallFailed(2));
    }

    /** `delete_node`: destroy the provider node behind the node's handle.
        The call is `DestroyNodeOp(n)`, the hook `CleanResources` passes to
        the pool, so the destroy call is defined once. */
    method DeleteNode(n: Node) returns (ok: bool)
      modifies this
      ensures trace == old(trace) + [DestroyNodeOp(n)]
      ensures ok == !fails(DestroyNodeOp(n))
    {
      ok := Call(DestroyNodeOp(n));
    }

    /** `clean_resources`: one pool pass of `delete_node` over the nodes of
        `c`, each issuing the call `DeleteNode` issues; groups and rules are
        left alone. It raises if any destroy did. */
    method CleanResources(c: Collection) returns (r: Result<(), DriverError>, ghost nodeOrder: seq<string>)
      modifies this
      ensures Enumerates(nodeOrder, c.nodes.Keys)
      ensures trace == old(trace) + CleanPlan(c, nodeOrder)
      ensures r == if AllSucceed(CleanPlan(c, nodeOrder), fails) then Ok(()) else Err(CallFailed(3))
    {
      var ok;
      ok, nodeOrder := Pass(c.nodes, DestroyNodeOp);
      r := if ok then Ok(()) else Err(CallFailed(3));
    }
  }

  /** A driver built without a mapping table translates every name to itself. */
  lemma NoMappingsIsIdentity(d: CloudDriver, kind: string, name: string)
    requires d.mappings == map[]
    ensures d.ApplyMappings(kind, name) == name
  {
  }

  /** `detect_nodes` holds exactly the conversions of the relevant listed
      nodes, one per name: every relevant node's name is present, and every
      member is the conversion of some relevant listed node. */
  lemma {:induction false} DetectedNodesExact(d: CloudDriver, listed: seq<ProviderNode>)
    ensures forall p | p in listed && d.IsNodeRelevant(p) :: d.toNode(p).name in d.DetectedNodes(listed)
    ensures forall k | k in d.DetectedNodes(listed) ::
      && d.DetectedNodes(listed)[k].name == k
      && exists p :: p in listed && d.IsNodeRelevant(p) && d.DetectedNodes(listed)[k] == d.toNode(p)
  {
    var relevant := d.RelevantNodes(listed);
    var converted := d.Converted(relevant);
    var r := d.DetectedNodes(listed);
    forall p | p in listed && d.IsNodeRelevant(p) ensures d.toNode(p).name in r {
      var i :| 0 <= i < |relevant| && relevant[i] == p;
      assert NodeName(converted[i]) in r;
    }
    forall k | k in r
      ensures r[k].name == k
      ensures exists p :: p in listed && d.IsNodeRelevant(p) && r[k] == d.toNode(p)
    {
      assert NodeName(r[k]) == k;
      var i :| 0 <= i < |converted| && converted[i] == r[k];
      assert relevant[i] in relevant;
    }
  }

  /** Namespace isolation: with a namespace configured, a node tagged with
      another namespace is never detected, even when it shares its name with
      a node of the configured namespace. */
  lemma {:induction false} NamespaceIsolation(d: CloudDriver, mine: ProviderNode, other: ProviderNode)
    requires d.namespace.Some?
    requires d.namespaceOf(mine) == d.namespace && d.namespaceOf(other) != d.namespace
    ensures d.DetectedNodes([other, mine]) == map[d.toNode(mine).name := d.toNode(mine)]
    ensures d.DetectedNodes([mine, other]) == map[d.toNode(mine).name := d.toNode(mine)]
  {
    assert d.RelevantNodes([other, mine]) == [mine] by {
      assert [other, mine][1..] == [mine];
      assert [mine][1..] == [];
    }
    assert d.RelevantNodes([mine, other]) == [mine] by {
      assert [mine, other][1..] == [other];
      assert [other][1..] == [];
    }
    assert d.Converted([mine]) == [d.toNode(mine)];
    assert [d.toNode(mine)][..0] == [];
  }

  /** The namespace filter keeps the listing order: a node listed after the
      others comes after them among the relevant nodes, if it is relevant. */
  lemma {:induction false} RelevantNodesSnoc(d: CloudDriver, listed: seq<ProviderNode>, p: ProviderNode)
    ensures d.RelevantNodes(listed + [p]) == d.RelevantNodes(listed) + (if d.IsNodeRelevant(p) then [p] else [])
    decreases |listed|
  {
    if listed == [] {
      assert listed + [p] == [p];
      assert [p][1..] == [];
    } else {
      assert (listed + [p])[0] == listed[0];
      assert (listed + [p])[1..] == listed[1..] + [p];
      RelevantNodesSnoc(d, listed[1..], p);
    }
  }

  /** Listing one more node adds its conversion to the detected set, unless
      it is filtered out or a node of the same name is already there. */
  lemma {:induction false} DetectedNodesSnoc(d: CloudDriver, listed: seq<ProviderNode>, p: ProviderNode)
    ensures d.DetectedNodes(listed + [p]) ==
      if d.IsNodeRelevant(p) then Insert(d.DetectedNodes(listed), d.toNode(p).name, d.toNode(p))
      else d.DetectedNodes(listed)
  {
    RelevantNodesSnoc(d, listed, p);
    var relevant := d.RelevantNodes(listed);
    if d.IsNodeRelevant(p) {
      assert d.Converted(relevant + [p]) == d.Converted(relevant) + [d.toNode(p)];
      SetOfSnoc(d.Converted(relevant), d.toNode(p), NodeName);
    } else {
      assert relevant + [] == relevant;
    }
  }

  /** A name no relevant listed node converts to is not detected. */
  lemma NameNotYetDetected(d: CloudDriver, listed: seq<ProviderNode>, name: string)
    requires forall j | 0 <= j < |listed| && d.IsNodeRelevant(listed[j]) :: d.toNode(listed[j]).name != name
    ensures name !in d.DetectedNodes(listed)
  {
    DetectedNodesExact(d, listed);
  }

  /** A relevant node listed after every other node of its name is detected. */
  lemma FirstOfNameAdded(d: CloudDriver, init: seq<ProviderNode>, p: ProviderNode)
    requires d.IsNodeRelevant(p)
    requires forall j | 0 <= j < |init| && d.IsNodeRelevant(init[j]) :: d.toNode(init[j]).name != d.toNode(p).name
    ensures d.toNode(p).name in d.DetectedNodes(init + [p])
    ensures d.DetectedNodes(init + [p])[d.toNode(p).name] == d.toNode(p)
  {
    DetectedNodesSnoc(d, init, p);
    NameNotYetDetected(d, init, d.toNode(p).name);
  }

  /** Listing one more node never replaces a detected node. */
  lemma DetectedNodeKept(d: CloudDriver, init: seq<ProviderNode>, p: ProviderNode, name: string)
    requires name in d.DetectedNodes(init)
    ensures name in d.DetectedNodes(init + [p])
    ensures d.DetectedNodes(init + [p])[name] == d.DetectedNodes(init)[name]
  {
    DetectedNodesSnoc(d, init, p);
  }

  /** The detected set is keyed by name and keeps the first node added: the
      node filed under a name is the conversion of the first relevant listed
      node with that name, even when later listed nodes share it (which can
      only happen without a namespace, or within one namespace). */
  lemma {:induction false} DetectedNodesKeepFirst(d: CloudDriver, listed: seq<ProviderNode>, i: nat)
    requires i < |listed| && d.IsNodeRelevant(listed[i])
    requires forall j | 0 <= j < i && d.IsNodeRelevant(listed[j]) :: d.toNode(listed[j]).name != d.toNode(listed[i]).name
    ensures d.toNode(listed[i]).name in d.DetectedNodes(listed)
    ensures d.DetectedNodes(listed)[d.toNode(listed[i]).name] == d.toNode(listed[i])
    decreases |listed|
  {
    var init := listed[..|listed| - 1];
    var last := listed[|listed| - 1];
    assert listed == init + [last];
    if i == |listed| - 1 {
      assert forall j | 0 <= j < |init| :: init[j] == listed[j];
      FirstOfNameAdded(d, init, last);
    } else {
      assert forall j | 0 <= j <= i :: init[j] == listed[j];
      DetectedNodesKeepFirst(d, init, i);
      DetectedNodeKept(d, init, last, d.toNode(listed[i]).name);
    }
  }

  /** What `detect_resources` returns: the detected nodes, one group per
      reported group name, one rule per reported rule identity, every element
      filed under its identity and every rule linked to its group. */
  lemma {:induction false} DetectedCollectionContents(d: CloudDriver, listed: seq<ProviderNode>,
                                   groups: seq<SecurityGroup>, rules: seq<SecurityGroupRule>)
    ensures var c := d.DetectedCollection(listed, groups, rules);
      && WellFormed(c) && Linked(c)
      && c.nodes == d.DetectedNodes(listed)
      && (forall g | g in groups :: g.name in c.securityGroups)
      && (forall k | k in c.securityGroups :: c.securityGroups[k] in groups)
      && (forall r | r in rules :: RuleKeyOf(r) in c.securityGroupRules)
      && (forall k | k in c.securityGroupRules :: exists r | r in rules :: RuleKeyOf(r) == k)
  {
    var groupSet := SetOf(groups, GroupName);
    var ruleSet := SetOf(rules, RuleKeyOf);
    forall g | g in groups ensures g.name in groupSet {
      var i :| 0 <= i < |groups| && groups[i] == g;
      assert GroupName(groups[i]) in groupSet;
    }
    forall r | r in rules ensures RuleKeyOf(r) in ruleSet {
      var i :| 0 <= i < |rules| && rules[i] == r;
    }
    forall k | k in ruleSet ensures exists r | r in rules :: RuleKeyOf(r) == k {
      assert RuleKeyOf(ruleSet[k]) == k;
    }
  }

  /** An order that visits every key once is as long as the key set. */
  lemma {:induction false} EnumeratesSize<K(!new)>(order: seq<K>, keys: set<K>)
    requires Enumerates(order, keys)
    ensures |order| == |keys|
    decreases |order|
  {
    if order != [] {
      var last := order[|order| - 1];
      var init := order[..|order| - 1];
      assert order == init + [last];
      assert last !in init by {
        forall i | 0 <= i < |init| ensures init[i] != last {
          assert order[i] != order[|order| - 1];
        }
      }
      assert Enumerates(init, keys - {last});
      EnumeratesSize(init, keys - {last});
    }
  }

  /** A pool pass over distinct keys issues each element's call exactly once. */
  lemma {:induction false} DispatchCount<K, V>(order: seq<K>, m: map<K, V>, call: V -> Op, k: K)
    requires Distinct(order) && forall x | x in order :: x in m
    requires forall a, b :: call(a) == call(b) ==> a == b
    requires forall x, y | x in m && y in m && x != y :: m[x] != m[y]
    requires k in m
    ensures multiset(Dispatch(order, m, call))[call(m[k])] == if k in order then 1 else 0
    decreases |order|
  {
    if order != [] {
      var init := order[..|order| - 1];
      var last := order[|order| - 1];
      assert order == init + [last];
      assert Distinct(init);
      DispatchCount(init, m, call, k);
      assert Dispatch(order, m, call) == Dispatch(init, m, call) + [call(m[last])];
      assert last !in init by {
        forall i | 0 <= i < |init| ensures init[i] != last {
          assert order[i] != order[|order| - 1];
        }
      }
      if k != last {
        assert call(m[last]) != call(m[k]);
      }
    }
  }

  /** Phase ordering of `apply_resources`: every group is created before any
      node, and every node before any rule; nothing but creates is issued. */
  lemma {:induction false} ApplyPlanPhaseOrder(c: Collection, groupOrder: seq<string>, nodeOrder: seq<string>, ruleOrder: seq<RuleKey>)
    requires KeysIn(groupOrder, c.securityGroups)
    requires KeysIn(nodeOrder, c.nodes)
    requires KeysIn(ruleOrder, c.securityGroupRules)
    ensures var ops := ApplyPlan(c, groupOrder, nodeOrder, ruleOrder);
      && (forall i | 0 <= i < |ops| :: Phase(ops[i]) <= 2)
      && (forall i, j | 0 <= i < j < |ops| :: Phase(ops[i]) <= Phase(ops[j]))
  {
    var groupOps := Dispatch(groupOrder, c.securityGroups, CreateGroupOp);
    var nodeOps := Dispatch(nodeOrder, c.nodes, CreateNodeOp);
    var ruleOps := Dispatch(ruleOrder, c.securityGroupRules, CreateRuleOp);
    var ops := ApplyPlan(c, groupOrder, nodeOrder, ruleOrder);
    var g, n := |groupOps|, |nodeOps|;
    forall i | 0 <= i < |ops|
      ensures Phase(ops[i]) == if i < g then 0 else if i < g + n then 1 else 2
    {
      if i < g {
        assert ops[i] == groupOps[i];
      } else if i < g + n {
        assert ops[i] == nodeOps[i - g];
      } else {
        assert ops[i] == ruleOps[i - g - n];
      }
    }
  }

  /** How often a plan of three passes issues `op`. */
  lemma {:induction false} CountInThreePasses(a: seq<Op>, b: seq<Op>, c: seq<Op>, op: Op)
    ensures multiset(a + b + c)[op] == multiset(a)[op] + multiset(b)[op] + multiset(c)[op]
  {
    assert multiset(a + b + c) == multiset(a) + multiset(b) + multiset(c);
  }

  /** Each element of a well-formed collection is filed under its own key,
      so different keys hold different elements. */
  lemma WellFormedDistinct(c: Collection)
    requires WellFormed(c)
    ensures forall x, y | x in c.securityGroups && y in c.securityGroups && x != y :: c.securityGroups[x] != c.securityGroups[y]
    ensures forall x, y | x in c.nodes && y in c.nodes && x != y :: c.nodes[x] != c.nodes[y]
    ensures forall x, y | x in c.securityGroupRules && y in c.securityGroupRules && x != y ::
      c.securityGroupRules[x] != c.securityGroupRules[y]
  {
  }

  /** Every call of a pass belongs to the pass's phase. */
  lemma {:induction false} PassPhase<K, V>(order: seq<K>, m: map<K, V>, call: V -> Op, phase: nat)
    requires KeysIn(order, m)
    requires forall v :: Phase(call(v)) == phase
    ensures forall i | 0 <= i < |Dispatch(order, m, call)| :: Phase(Dispatch(order, m, call)[i]) == phase
  {
  }

  /** A call of one phase never occurs in a pass whose calls all belong to another. */
  lemma {:induction false} AbsentFromPass(ops: seq<Op>, phase: nat, op: Op)
    requires forall i | 0 <= i < |ops| :: Phase(ops[i]) == phase
    requires Phase(op) != phase
    ensures multiset(ops)[op] == 0
  {
    assert op !in ops;
  }

  /** Every group of the collection is created exactly once by the plan. */
  lemma {:induction false} GroupsOnce(c: Collection, groupOrder: seq<string>, nodeOps: seq<Op>, ruleOps: seq<Op>, k: string)
    requires WellFormed(c) && Enumerates(groupOrder, c.securityGroups.Keys) && k in c.securityGroups
    requires forall i | 0 <= i < |nodeOps| :: Phase(nodeOps[i]) == 1
    requires forall i | 0 <= i < |ruleOps| :: Phase(ruleOps[i]) == 2
    ensures multiset(Dispatch(groupOrder, c.securityGroups, CreateGroupOp) + nodeOps + ruleOps)[CreateGroup(c.securityGroups[k])] == 1
  {
    var groupOps := Dispatch(groupOrder, c.securityGroups, CreateGroupOp);
    WellFormedDistinct(c);
    var op := CreateGroupOp(c.securityGroups[k]);
    DispatchCount(groupOrder, c.securityGroups, CreateGroupOp, k);
    AbsentFromPass(nodeOps, 1, op);
    AbsentFromPass(ruleOps, 2, op);
    CountInThreePasses(groupOps, nodeOps, ruleOps, op);
  }

  /** Every node of the collection is created exactly once by the plan. */
  lemma {:induction false} NodesOnce(c: Collection, groupOps: seq<Op>, nodeOrder: seq<string>, ruleOps: seq<Op>, k: string)
    requires WellFormed(c) && Enumerates(nodeOrder, c.nodes.Keys) && k in c.nodes
    requires forall i | 0 <= i < |groupOps| :: Phase(groupOps[i]) == 0
    requires forall i | 0 <= i < |ruleOps| :: Phase(ruleOps[i]) == 2
    ensures multiset(groupOps + Dispatch(nodeOrder, c.nodes, CreateNodeOp) + ruleOps)[CreateNode(c.nodes[k])] == 1
  {
    var nodeOps := Dispatch(nodeOrder, c.nodes, CreateNodeOp);
    WellFormedDistinct(c);
    var op := CreateNodeOp(c.nodes[k]);
    DispatchCount(nodeOrder, c.nodes, CreateNodeOp, k);
    AbsentFromPass(groupOps, 0, op);
    AbsentFromPass(ruleOps, 2, op);
    CountInThreePasses(groupOps, nodeOps, ruleOps, op);
  }

  /** Every rule of the collection is created exactly once by the plan. */
  lemma {:induction false} RulesOnce(c: Collection, groupOps: seq<Op>, nodeOps: seq<Op>, ruleOrder: seq<RuleKey>, k: RuleKey)
    requires WellFormed(c) && Enumerates(ruleOrder, c.securityGroupRules.Keys) && k in c.securityGroupRules
    requires forall i | 0 <= i < |groupOps| :: Phase(groupOps[i]) == 0
    requires forall i | 0 <= i < |nodeOps| :: Phase(nodeOps[i]) == 1
    ensures multiset(groupOps + nodeOps + Dispatch(ruleOrder, c.securityGroupRules, CreateRuleOp))[CreateRule(c.securityGroupRules[k])] == 1
  {
    var ruleOps := Dispatch(ruleOrder, c.securityGroupRules, CreateRuleOp);
    WellFormedDistinct(c);
    var op := CreateRuleOp(c.securityGroupRules[k]);
    DispatchCount(ruleOrder, c.securityGroupRules, CreateRuleOp, k);
    AbsentFromPass(groupOps, 0, op);
    AbsentFromPass(nodeOps, 1, op);
    CountInThreePasses(groupOps, nodeOps, ruleOps, op);
  }

  /** The plan creates every group of the collection exactly once. */
  lemma {:induction false} AllGroupsOnce(c: Collection, groupOrder: seq<string>, nodeOrder: seq<string>, ruleOrder: seq<RuleKey>)
    requires WellFormed(c) && Enumerates(groupOrder, c.securityGroups.Keys)
    requires KeysIn(nodeOrder, c.nodes)
    requires KeysIn(ruleOrder, c.securityGroupRules)
    ensures forall k | k in c.securityGroups ::
      multiset(ApplyPlan(c, groupOrder, nodeOrder, ruleOrder))[CreateGroup(c.securityGroups[k])] == 1
  {
    var nodeOps := Dispatch(nodeOrder, c.nodes, CreateNodeOp);
    var ruleOps := Dispatch(ruleOrder, c.securityGroupRules, CreateRuleOp);
    PassPhase(nodeOrder, c.nodes, CreateNodeOp, 1);
    PassPhase(ruleOrder, c.securityGroupRules, CreateRuleOp, 2);
    forall k | k in c.securityGroups
      ensures multiset(ApplyPlan(c, groupOrder, nodeOrder, ruleOrder))[CreateGroup(c.securityGroups[k])] == 1
    {
      GroupsOnce(c, groupOrder, nodeOps, ruleOps, k);
    }
  }

  /** The plan creates every node of the collection exactly once. */
  lemma {:induction false} AllNodesOnce(c: Collection, groupOrder: seq<string>, nodeOrder: seq<string>, ruleOrder: seq<RuleKey>)
    requires WellFormed(c) && Enumerates(nodeOrder, c.nodes.Keys)
    requires KeysIn(groupOrder, c.securityGroups)
    requires KeysIn(ruleOrder, c.securityGroupRules)
    ensures forall k | k in c.nodes ::
      multiset(ApplyPlan(c, groupOrder, nodeOrder, ruleOrder))[CreateNode(c.nodes[k])] == 1
  {
    var groupOps := Dispatch(groupOrder, c.securityGroups, CreateGroupOp);
    var ruleOps := Dispatch(ruleOrder, c.securityGroupRules, CreateRuleOp);
    PassPhase(groupOrder, c.securityGroups, CreateGroupOp, 0);
    PassPhase(ruleOrder, c.securityGroupRules, CreateRuleOp, 2);
    forall k | k in c.nodes
      ensures multiset(ApplyPlan(c, groupOrder, nodeOrder, ruleOrder))[CreateNode(c.nodes[k])] == 1
    {
      NodesOnce(c, groupOps, nodeOrder, ruleOps, k);
    }
  }

  /** The plan creates every rule of the collection exactly once. */
  lemma {:induction false} AllRulesOnce(c: Collection, groupOrder: seq<string>, nodeOrder: seq<string>, ruleOrder: seq<RuleKey>)
    requires WellFormed(c) && Enumerates(ruleOrder, c.securityGroupRules.Keys)
    requires KeysIn(groupOrder, c.securityGroups)
    requires KeysIn(nodeOrder, c.nodes)
    ensures forall k | k in c.securityGroupRules ::
      multiset(ApplyPlan(c, groupOrder, nodeOrder, ruleOrder))[CreateRule(c.securityGroupRules[k])] == 1
  {
    var groupOps := Dispatch(groupOrder, c.securityGroups, CreateGroupOp);
    var nodeOps := Dispatch(nodeOrder, c.nodes, CreateNodeOp);
    PassPhase(groupOrder, c.securityGroups, CreateGroupOp, 0);
    PassPhase(nodeOrder, c.nodes, CreateNodeOp, 1);
    forall k | k in c.securityGroupRules
      ensures multiset(ApplyPlan(c, groupOrder, nodeOrder, ruleOrder))[CreateRule(c.securityGroupRules[k])] == 1
    {
      RulesOnce(c, groupOps, nodeOps, ruleOrder, k);
    }
  }

  /** Exactly one create call per element of the collection, and no others. */
  lemma {:induction false} ApplyPlanExactlyOnce(c: Collection, groupOrder: seq<string>, nodeOrder: seq<string>, ruleOrder: seq<RuleKey>)
    requires WellFormed(c)
    requires Enumerates(groupOrder, c.securityGroups.Keys)
    requires Enumerates(nodeOrder, c.nodes.Keys)
    requires Enumerates(ruleOrder, c.securityGroupRules.Keys)
    ensures var ops := ApplyPlan(c, groupOrder, nodeOrder, ruleOrder);
      && |ops| == |c.securityGroups| + |c.nodes| + |c.securityGroupRules|
      && (forall k | k in c.securityGroups :: multiset(ops)[CreateGroup(c.securityGroups[k])] == 1)
      && (forall k | k in c.nodes :: multiset(ops)[CreateNode(c.nodes[k])] == 1)
      && (forall k | k in c.securityGroupRules :: multiset(ops)[CreateRule(c.securityGroupRules[k])] == 1)
  {
    EnumeratesSize(groupOrder, c.securityGroups.Keys);
    EnumeratesSize(nodeOrder, c.nodes.Keys);
    EnumeratesSize(ruleOrder, c.securityGroupRules.Keys);
    AllGroupsOnce(c, groupOrder, nodeOrder, ruleOrder);
    AllNodesOnce(c, groupOrder, nodeOrder, ruleOrder);
    AllRulesOnce(c, groupOrder, nodeOrder, ruleOrder);
  }

  /** `clean_resources` destroys one node per node of the collection, each on
      its own handle, and issues nothing for groups or rules. */
  lemma {:induction false} CleanPlanScope(c: Collection, nodeOrder: seq<string>)
    requires Enumerates(nodeOrder, c.nodes.Keys)
    ensures var ops := CleanPlan(c, nodeOrder);
      && |ops| == |c.nodes|
      && (forall i | 0 <= i < |ops| :: Phase(ops[i]) == 3)
      && (forall k | k in c.nodes :: DestroyNode(c.nodes[k].private) in ops)
      && (forall i | 0 <= i < |ops| :: exists k :: k in c.nodes && ops[i] == DestroyNode(c.nodes[k].private))
  {
    var ops := CleanPlan(c, nodeOrder);
    EnumeratesSize(nodeOrder, c.nodes.Keys);
    forall k | k in c.nodes ensures DestroyNode(c.nodes[k].private) in ops {
      var i :| 0 <= i < |nodeOrder| && nodeOrder[i] == k;
      assert ops[i] == DestroyNode(c.nodes[k].private);
    }
  }

  lemma AllSucceedSnoc(ops: seq<Op>, op: Op, fails: Op -> bool)
    ensures AllSucceed(ops + [op], fails) <==> AllSucceed(ops, fails) && !fails(op)
  {
    assert forall i | 0 <= i < |ops| :: (ops + [op])[i] == ops[i];
    assert (ops + [op])[|ops|] == op;
  }

  /** No call of a concatenation fails iff no call of either part fails. */
  lemma {:induction false} AllSucceedConcat(a: seq<Op>, b: seq<Op>, fails: Op -> bool)
    ensures AllSucceed(a + b, fails) <==> AllSucceed(a, fails) && AllSucceed(b, fails)
  {
    assert forall i | 0 <= i < |a| :: (a + b)[i] == a[i];
    assert forall i | 0 <= i < |b| :: (a + b)[|a| + i] == b[i];
  }

  /** What `apply_resources` issues is always a prefix of the full plan, so
      the phase order holds whether or not a call fails. It succeeds iff no
      call of the full plan fails, and then it has issued the whole plan. */
  lemma {:induction false} ApplyTraceIsPlanPrefix(c: Collection, fails: Op -> bool,
                                                  groupOrder: seq<string>, nodeOrder: seq<string>, ruleOrder: seq<RuleKey>)
    requires KeysIn(groupOrder, c.securityGroups)
    requires KeysIn(nodeOrder, c.nodes)
    requires KeysIn(ruleOrder, c.securityGroupRules)
    ensures ApplyTrace(c, fails, groupOrder, nodeOrder, ruleOrder) <= ApplyPlan(c, groupOrder, nodeOrder, ruleOrder)
    ensures ApplyResult(c, fails, groupOrder, nodeOrder, ruleOrder).Ok? <==>
      AllSucceed(ApplyPlan(c, groupOrder, nodeOrder, ruleOrder), fails)
    ensures ApplyResult(c, fails, groupOrder, nodeOrder, ruleOrder).Ok? ==>
      ApplyTrace(c, fails, groupOrder, nodeOrder, ruleOrder) == ApplyPlan(c, groupOrder, nodeOrder, ruleOrder)
  {
    var groupOps := Dispatch(groupOrder, c.securityGroups, CreateGroupOp);
    var nodeOps := Dispatch(nodeOrder, c.nodes, CreateNodeOp);
    var ruleOps := Dispatch(ruleOrder, c.securityGroupRules, CreateRuleOp);
    AllSucceedConcat(groupOps, nodeOps, fails);
    AllSucceedConcat(groupOps + nodeOps, ruleOps, fails);
    assert groupOps <= groupOps + nodeOps <= groupOps + nodeOps + ruleOps;
  }

  /** A failing group create ends `apply_resources` before any node or rule
      is created; a failing node create ends it before any rule is created. */
  lemma {:induction false} FailureStopsLaterPhases(c: Collection, fails: Op -> bool,
                                                   groupOrder: seq<string>, nodeOrder: seq<string>, ruleOrder: seq<RuleKey>)
    requires KeysIn(groupOrder, c.securityGroups)
    requires KeysIn(nodeOrder, c.nodes)
    requires KeysIn(ruleOrder, c.securityGroupRules)
    ensures var trace := ApplyTrace(c, fails, groupOrder, nodeOrder, ruleOrder);
      var result := ApplyResult(c, fails, groupOrder, nodeOrder, ruleOrder);
      && (!AllSucceed(Dispatch(groupOrder, c.securityGroups, CreateGroupOp), fails) ==>
            result == Err(CallFailed(0)) && forall i | 0 <= i < |trace| :: trace[i].CreateGroup?)
      && (AllSucceed(Dispatch(groupOrder, c.securityGroups, CreateGroupOp), fails)
          && !AllSucceed(Dispatch(nodeOrder, c.nodes, CreateNodeOp), fails) ==>
            result == Err(CallFailed(1)) && forall i | 0 <= i < |trace| :: !trace[i].CreateRule?)
  {
    var groupOps := Dispatch(groupOrder, c.securityGroups, CreateGroupOp);
    var nodeOps := Dispatch(nodeOrder, c.nodes, CreateNodeOp);
    PassPhase(groupOrder, c.securityGroups, CreateGroupOp, 0);
    PassPhase(nodeOrder, c.nodes, CreateNodeOp, 1);
    var trace := ApplyTrace(c, fails, groupOrder, nodeOrder, ruleOrder);
    if AllSucceed(groupOps, fails) && !AllSucceed(nodeOps, fails) {
      forall i | 0 <= i < |trace| ensures !trace[i].CreateRule? {
        if i < |groupOps| {
          assert trace[i] == groupOps[i];
        } else {
          assert trace[i] == nodeOps[i - |groupOps|];
        }
      }
    }
  }
}
