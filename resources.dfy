/** The resource model the driver reconciles: nodes, security groups and
    security-group rules, and the Collection that holds one set of each.
    Every set is keyed by the element's identity (a node's or a group's
    name, a rule's field tuple), so it is a map from identity to element;
    two elements with the same identity are the same member of the set. */
module Resources {
  import opened Util

  /** The provider's own record of a live instance (the opaque `private`
      handle of a detected node); only the public addresses are read. */
  datatype ProviderNode = ProviderNode(id: string, publicIps: seq<string>)

  datatype Node = Node(
    name: string,
    image: string,
    flavor: string,
    networks: seq<string>,
    private: Option<ProviderNode>)

  datatype SecurityGroup = SecurityGroup(name: string, private: Option<string>)

  datatype SecurityGroupRule = SecurityGroupRule(
    protocol: string,
    fromPort: int,
    toPort: int,
    source: string,
    group: SecurityGroup)

  /** A rule is a value: its identity is its whole field tuple, with the
      group standing for itself by name. */
  datatype RuleKey = RuleKey(protocol: string, fromPort: int, toPort: int, source: string, group: string)

  function RuleKeyOf(r: SecurityGroupRule): RuleKey {
    RuleKey(r.protocol, r.fromPort, r.toPort, r.source, r.group.name)
  }

  datatype Collection = Collection(
    nodes: map<string, Node>,
    securityGroups: map<string, SecurityGroup>,
    securityGroupRules: map<RuleKey, SecurityGroupRule>)

  /** Each element is filed under its own identity. */
  predicate WellFormed(c: Collection) {
    && (forall k | k in c.nodes :: c.nodes[k].name == k)
    && (forall k | k in c.securityGroups :: c.securityGroups[k].name == k)
    && (forall k | k in c.securityGroupRules :: RuleKeyOf(c.securityGroupRules[k]) == k)
  }

  function EmptyCollection(): (r: Collection)
    ensures WellFormed(r)
    ensures |r.nodes| == 0 && |r.securityGroups| == 0 && |r.securityGroupRules| == 0
  {
    Collection(map[], map[], map[])
  }

  /** `a - b`: per kind, the elements of `a` whose identity is not in `b`. */
  function Difference(a: Collection, b: Collection): (r: Collection)
    ensures r.nodes.Keys == a.nodes.Keys - b.nodes.Keys
    ensures r.securityGroups.Keys == a.securityGroups.Keys - b.securityGroups.Keys
    ensures r.securityGroupRules.Keys == a.securityGroupRules.Keys - b.securityGroupRules.Keys
    ensures forall k | k in r.nodes :: r.nodes[k] == a.nodes[k]
    ensures forall k | k in r.securityGroups :: r.securityGroups[k] == a.securityGroups[k]
    ensures forall k | k in r.securityGroupRules :: r.securityGroupRules[k] == a.securityGroupRules[k]
  {
    Collection(
      map k | k in a.nodes && k !in b.nodes :: a.nodes[k],
      map k | k in a.securityGroups && k !in b.securityGroups :: a.securityGroups[k],
      map k | k in a.securityGroupRules && k !in b.securityGroupRules :: a.securityGroupRules[k])
  }

  /** Set union of two maps keyed by identity; where both hold an identity
      the element of `a` stays, as with Python's `set.add`. */
  function MergeSet<K, V>(a: map<K, V>, b: map<K, V>): (r: map<K, V>)
    ensures r.Keys == a.Keys + b.Keys
    ensures forall k | k in a :: r[k] == a[k]
    ensures forall k | k in b && k !in a :: r[k] == b[k]
  {
    map k | k in a.Keys + b.Keys :: if k in a then a[k] else b[k]
  }

  /** Collection union, used when a collection is assembled from parts. */
  function Union(a: Collection, b: Collection): (r: Collection)
    ensures r.nodes.Keys == a.nodes.Keys + b.nodes.Keys
    ensures r.securityGroups.Keys == a.securityGroups.Keys + b.securityGroups.Keys
    ensures r.securityGroupRules.Keys == a.securityGroupRules.Keys + b.securityGroupRules.Keys
  {
    Collection(
      MergeSet(a.nodes, b.nodes),
      MergeSet(a.securityGroups, b.securityGroups),
      MergeSet(a.securityGroupRules, b.securityGroupRules))
  }

  predicate IsEmpty(c: Collection) {
    c.nodes == map[] && c.securityGroups == map[] && c.securityGroupRules == map[]
  }

  lemma DifferenceWellFormed(a: Collection, b: Collection)
    requires WellFormed(a)
    ensures WellFormed(Difference(a, b))
  {
  }

  /** The diff is empty exactly when every identity of `a` is already in `b`:
      the "nothing left to create" condition. */
  lemma DifferenceEmptyIff(a: Collection, b: Collection)
    ensures IsEmpty(Difference(a, b)) <==>
      && a.nodes.Keys <= b.nodes.Keys
      && a.securityGroups.Keys <= b.securityGroups.Keys
      && a.securityGroupRules.Keys <= b.securityGroupRules.Keys
  {
    var d := Difference(a, b);
    if a.nodes.Keys <= b.nodes.Keys
      && a.securityGroups.Keys <= b.securityGroups.Keys
      && a.securityGroupRules.Keys <= b.securityGroupRules.Keys
    {
      assert d.nodes.Keys == {} && d.securityGroups.Keys == {} && d.securityGroupRules.Keys == {};
    }
    if IsEmpty(d) {
      forall k | k in a.nodes ensures k in b.nodes {
        assert k !in d.nodes;
      }
      forall k | k in a.securityGroups ensures k in b.securityGroups {
        assert k !in d.securityGroups;
      }
      forall k | k in a.securityGroupRules ensures k in b.securityGroupRules {
        assert k !in d.securityGroupRules;
      }
    }
  }

  /** Re-running detect + apply converges: once the missing part of the
      desired collection has been created next to what was detected, the
      next diff against the live state is empty. */
  lemma ReapplyCreatesNothing(desired: Collection, detected: Collection)
    ensures IsEmpty(Difference(desired, Union(detected, Difference(desired, detected))))
  {
    var live := Union(detected, Difference(desired, detected));
    DifferenceEmptyIff(desired, live);
  }

  /** A rule re-pointed at the canonical group of the same name, if the
      collection holds one. */
  function Relink(r: SecurityGroupRule, groups: map<string, SecurityGroup>): SecurityGroupRule {
    if r.group.name in groups then r.(group := groups[r.group.name]) else r
  }

  /** Every rule whose group is present refers to that very group value. */
  predicate Linked(c: Collection) {
    forall k | k in c.securityGroupRules ::
      c.securityGroupRules[k].group.name in c.securityGroups ==>
        c.securityGroupRules[k].group == c.securityGroups[c.securityGroupRules[k].group.name]
  }

  /** `connect()`: resolve the rules' group references against the groups of
      the same collection, leaving membership unchanged. */
  function Connect(c: Collection): (r: Collection)
    requires WellFormed(c)
    ensures WellFormed(r) && Linked(r)
    ensures r.nodes == c.nodes && r.securityGroups == c.securityGroups
    ensures r.securityGroupRules.Keys == c.securityGroupRules.Keys
  {
    c.(securityGroupRules := map k | k in c.securityGroupRules :: Relink(c.securityGroupRules[k], c.securityGroups))
  }

  /** Connecting twice is connecting once. */
  lemma ConnectIdempotent(c: Collection)
    requires WellFormed(c)
    ensures Connect(Connect(c)) == Connect(c)
  {
    var once := Connect(c);
    var twice := Connect(once);
    forall k | k in once.securityGroupRules
      ensures twice.securityGroupRules[k] == once.securityGroupRules[k]
    {
    }
    assert twice.securityGroupRules == once.securityGroupRules;
  }
}
