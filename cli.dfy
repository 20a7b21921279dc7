/** The command-line workflow of `aasemble/deployment/cli.py`: parsing
    `key=value` substitutions, choosing the cluster, deciding what `apply`
    creates, and the text `format_collection` prints. The stack loader, the
    cluster client and the cloud configuration are inputs. */
module Cli {
  import opened Util
  import opened Resources
  import opened CloudBase

  // ---------------------------------------------------------------------
  // extract_substitutions

  /** `arg.split('=', 1)` on an argument holding at least one `=`: the text
      before the first `=` and everything after it. */
  function SplitAtFirst(arg: string): (r: (string, string))
    requires '=' in arg
    ensures '=' !in r.0
    ensures arg == r.0 + "=" + r.1
  {
    if arg[0] == '=' then ("", arg[1..])
    else
      var rest := SplitAtFirst(arg[1..]);
      ([arg[0]] + rest.0, rest.1)
  }

  /** The split is the only one whose key holds no `=`. */
  lemma {:induction false} SplitAtFirstUnique(arg: string, key: string, value: string)
    requires '=' !in key && arg == key + "=" + value
    ensures SplitAtFirst(arg) == (key, value)
    decreases |key|
  {
    if key == [] {
      assert arg[0] == '=' && arg[1..] == value;
    } else {
      assert arg[0] == key[0] && arg[0] != '=';
      assert arg[1..] == key[1..] + "=" + value;
      SplitAtFirstUnique(arg[1..], key[1..], value);
      assert [key[0]] + key[1..] == key;
    }
  }

  /** `arg` sets `key`. */
  predicate Assigns(arg: string, key: string) {
    '=' in arg && SplitAtFirst(arg).0 == key
  }

  /** The dictionary `extract_substitutions(args)` returns: every argument
      with a `=` stores its value under its key, in order, so a later
      argument overwrites an earlier one. */
  function Substitutions(args: seq<string>): (d: map<string, string>)
    ensures forall k | k in d :: '=' !in k
    decreases |args|
  {
    if args == [] then map[]
    else
      var d := Substitutions(args[..|args| - 1]);
      var arg := args[|args| - 1];
      if '=' in arg then
        var kv := SplitAtFirst(arg);
        d[kv.0 := kv.1]
      else d
  }

  /** `extract_substitutions`: one pass over the arguments filling a dictionary. */
  method ExtractSubstitutions(args: seq<string>) returns (d: map<string, string>)
    ensures d == Substitutions(args)
  {
    d := map[];
    for i := 0 to |args|
      invariant d == Substitutions(args[..i])
    {
      assert args[..i + 1][..i] == args[..i];
      if '=' in args[i] {
        var kv := SplitAtFirst(args[i]);
        d := d[kv.0 := kv.1];
      }
    }
    assert args[..|args|] == args;
  }

  /** A key is in the result exactly when some argument assigns it. */
  lemma {:induction false} SubstitutionsKeys(args: seq<string>, key: string)
    ensures key in Substitutions(args) <==> exists i | 0 <= i < |args| :: Assigns(args[i], key)
    decreases |args|
  {
    if args != [] {
      var init := args[..|args| - 1];
      SubstitutionsKeys(init, key);
      if exists i | 0 <= i < |init| :: Assigns(init[i], key) {
        var i :| 0 <= i < |init| && Assigns(init[i], key);
        assert args[i] == init[i];
      }
      if exists i | 0 <= i < |args| :: Assigns(args[i], key) {
        var i :| 0 <= i < |args| && Assigns(args[i], key);
        if i < |args| - 1 {
          assert init[i] == args[i];
        }
      }
    }
  }

  /** The value stored under a key is the one given by the last argument
      that assigns it. */
  lemma {:induction false} LastAssignmentWins(args: seq<string>, i: nat)
    requires i < |args| && '=' in args[i]
    requires forall j | i < j < |args| :: !Assigns(args[j], SplitAtFirst(args[i]).0)
    ensures var kv := SplitAtFirst(args[i]);
      kv.0 in Substitutions(args) && Substitutions(args)[kv.0] == kv.1
    decreases |args|
  {
    var init := args[..|args| - 1];
    if i < |args| - 1 {
      assert init[i] == args[i];
      forall j | i < j < |init| ensures !Assigns(init[j], SplitAtFirst(init[i]).0) {
        assert init[j] == args[j];
      }
      LastAssignmentWins(init, i);
      assert !Assigns(args[|args| - 1], SplitAtFirst(args[i]).0);
    }
  }

  /** An argument without `=` changes nothing, wherever it stands. */
  lemma {:induction false} IgnoresArgumentWithoutEquals(before: seq<string>, arg: string, after: seq<string>)
    requires '=' !in arg
    ensures Substitutions(before + [arg] + after) == Substitutions(before + after)
    decreases |after|
  {
    if after == [] {
      assert (before + [arg])[..|before|] == before;
      assert before + [arg] + after == before + [arg];
      assert before + after == before;
    } else {
      var init := after[..|after| - 1];
      var last := after[|after| - 1];
      IgnoresArgumentWithoutEquals(before, arg, init);
      assert (before + [arg] + after)[..|before + [arg] + after| - 1] == before + [arg] + init;
      assert (before + after)[..|before + after| - 1] == before + init;
      assert (before + [arg] + after)[|before + [arg] + after| - 1] == last;
      assert (before + after)[|before + after| - 1] == last;
    }
  }

  // ---------------------------------------------------------------------
  // handle_cluster_opts

  /** The cluster `handle_cluster_opts` picks and the substitutions after it
      ran: `--new-cluster` (whose created cluster's URL is `createdUrl`)
      wins over a non-empty `--cluster`, which wins over none. A chosen
      cluster is stored under `cluster`. */
  function ClusterChoice(newCluster: bool, cluster: Option<string>, subs: map<string, string>, createdUrl: string)
    : (r: (Option<string>, map<string, string>))
    ensures r.0.Some? <==> newCluster || TruthyStr(cluster)
    ensures newCluster ==> r.0 == Some(createdUrl)
    ensures !newCluster && TruthyStr(cluster) ==> r.0 == cluster
    ensures r.0.Some? ==> r.1.Keys == subs.Keys + {"cluster"} && r.1["cluster"] == r.0.value
    ensures forall k | k in subs && k != "cluster" :: k in r.1 && r.1[k] == subs[k]
    ensures r.0.None? ==> r.1 == subs
  {
    if newCluster then (Some(createdUrl), subs["cluster" := createdUrl])
    else if TruthyStr(cluster) then (cluster, subs["cluster" := cluster.value])
    else (None, subs)
  }

  // ---------------------------------------------------------------------
  // apply

  /** What `apply` hands to `apply_resources`: the loaded collection as it
      is under `--assume-empty`, otherwise only what is not already live. */
  function ToApply(loaded: Collection, detected: Collection, assumeEmpty: bool): (r: Collection)
    ensures assumeEmpty ==> r == loaded
    ensures !assumeEmpty ==>
      && r.nodes.Keys == loaded.nodes.Keys - detected.nodes.Keys
      && r.securityGroups.Keys == loaded.securityGroups.Keys - detected.securityGroups.Keys
      && r.securityGroupRules.Keys == loaded.securityGroupRules.Keys - detected.securityGroupRules.Keys
    ensures forall k | k in r.nodes :: k in loaded.nodes && r.nodes[k] == loaded.nodes[k]
    ensures forall k | k in r.securityGroups :: k in loaded.securityGroups && r.securityGroups[k] == loaded.securityGroups[k]
    ensures forall k | k in r.securityGroupRules ::
      k in loaded.securityGroupRules && r.securityGroupRules[k] == loaded.securityGroupRules[k]
  {
    if assumeEmpty then loaded else Difference(loaded, detected)
  }

  /** `apply`: parse the substitutions, pick the cluster, load the stack
      with them, build the driver, subtract what it detects unless
      `assumeEmpty`, and create the rest. `load` stands for loading the
      stack file with the given substitutions; `listed` and `firewalls` are
      what the provider's `list_nodes` and `detect_firewalls` return (`None`
      when the call raises), and `fails` says which create calls raise. A
      detection failure ends `apply` before anything is created; otherwise
      the result is that of `apply_resources`. */
  method Apply(args: seq<string>, newCluster: bool, cluster: Option<string>, createdUrl: string,
               load: map<string, string> -> Collection,
               namespace: Option<string>, mappings: Option<Mappings>,
               namespaceOf: ProviderNode -> Option<string>, toNode: ProviderNode -> Node,
               fails: Op -> bool, assumeEmpty: bool,
               listed: Option<seq<ProviderNode>>,
               firewalls: Option<(seq<SecurityGroup>, seq<SecurityGroupRule>)>)
    returns (driver: CloudDriver, applied: Collection, result: Result<(), DriverError>,
             ghost groupOrder: seq<string>, ghost nodeOrder: seq<string>, ghost ruleOrder: seq<RuleKey>)
    requires forall subs :: WellFormed(load(subs))
    ensures fresh(driver)
    ensures driver.namespace == namespace && driver.fails == fails
    ensures driver.namespaceOf == namespaceOf && driver.toNode == toNode
    ensures driver.mappings == if mappings.Some? then mappings.value else map[]
    ensures WellFormed(applied)
    ensures !assumeEmpty && listed.None? ==> result == Err(ListNodesFailed) && driver.trace == []
    ensures !assumeEmpty && listed.Some? && firewalls.None? ==> result == Err(DetectFirewallsFailed) && driver.trace == []
    ensures assumeEmpty || (listed.Some? && firewalls.Some?) ==>
      && applied == ToApply(
           load(ClusterChoice(newCluster, cluster, Substitutions(args), createdUrl).1),
           if assumeEmpty then EmptyCollection()
           else driver.DetectedCollection(listed.value, firewalls.value.0, firewalls.value.1),
           assumeEmpty)
      && Enumerates(groupOrder, applied.securityGroups.Keys)
      && (AllSucceed(Dispatch(groupOrder, applied.securityGroups, CreateGroupOp), fails) ==>
            Enumerates(nodeOrder, applied.nodes.Keys))
      && (AllSucceed(Dispatch(groupOrder, applied.securityGroups, CreateGroupOp), fails)
          && AllSucceed(Dispatch(nodeOrder, applied.nodes, CreateNodeOp), fails) ==>
            Enumerates(ruleOrder, applied.securityGroupRules.Keys))
    ensures forall k | k in groupOrder :: k in applied.securityGroups
    ensures forall k | k in nodeOrder :: k in applied.nodes
    ensures forall k | k in ruleOrder :: k in applied.securityGroupRules
    ensures assumeEmpty || (listed.Some? && firewalls.Some?) ==>
      && driver.trace == ApplyTrace(applied, fails, groupOrder, nodeOrder, ruleOrder)
      && result == ApplyResult(applied, fails, groupOrder, nodeOrder, ruleOrder)
  {
    var substitutions := ExtractSubstitutions(args);
    var choice := ClusterChoice(newCluster, cluster, substitutions, createdUrl);
    substitutions := choice.1;
    applied := load(substitutions);
    driver := new CloudDriver(namespace, mappings, namespaceOf, toNode, fails);
    groupOrder, nodeOrder, ruleOrder := [], [], [];
    if !assumeEmpty {
      var detected := driver.DetectResources(listed, firewalls);
      if detected.Err? {
        return driver, applied, Err(detected.error), groupOrder, nodeOrder, ruleOrder;
      }
      DifferenceWellFormed(applied, detected.value);
      applied := Difference(applied, detected.value);
    }
    result, groupOrder, nodeOrder, ruleOrder := driver.ApplyResources(applied);
  }

  // ---------------------------------------------------------------------
  // format_collection

  /** Reading `public_ips` through a node whose `private` handle is `None`. */
  datatype FormatError = AttributeError

  /** The items of a list of strings as Python writes them: quoted, joined
      by `, `. */
  function QuotedItems(items: seq<string>): string
    decreases |items|
  {
    if items == [] then ""
    else if |items| == 1 then "'" + items[0] + "'"
    else QuotedItems(items[..|items| - 1]) + ", '" + items[|items| - 1] + "'"
  }

  /** `'%s' % ips` for a list of strings. */
  function ListText(items: seq<string>): string {
    "[" + QuotedItems(items) + "]"
  }

  /** One printed node without its line break: `  <name>: <public ips>`. */
  function LineText(n: Node): string
    requires n.private.Some?
  {
    "  " + n.name + ": " + ListText(n.private.value.publicIps)
  }

  /** One printed node, ending its line. */
  function NodeLine(n: Node): string
    requires n.private.Some?
  {
    LineText(n) + "\n"
  }

  /** The text `format_collection` builds when it visits the nodes in
      `order`, or the error of the first node without a provider handle. */
  function FormatNodes(order: seq<string>, nodes: map<string, Node>): (r: Result<string, FormatError>)
    requires forall k | k in order :: k in nodes
    ensures r.Err? <==> exists i | 0 <= i < |order| :: nodes[order[i]].private.None?
    ensures r.Err? ==> r == Err(AttributeError)
    ensures r.Ok? ==> |r.value| >= 7 && r.value[..7] == "Nodes:\n" && r.value[|r.value| - 1] == '\n'
    decreases |order|
  {
    if order == [] then Ok("Nodes:\n")
    else
      var init := order[..|order| - 1];
      var node := nodes[order[|order| - 1]];
      var prefix := FormatNodes(init, nodes);
      assert forall i | 0 <= i < |init| :: init[i] == order[i];
      if prefix.Err? then prefix
      else if node.private.None? then Err(AttributeError)
      else Ok(prefix.value + NodeLine(node))
  }

  /** `format_collection`: a heading, then one line per node, in the order
      the set yields them (returned as a ghost result). */
  method FormatCollection(c: Collection) returns (r: Result<string, FormatError>, ghost order: seq<string>)
    ensures Enumerates(order, c.nodes.Keys)
    ensures r == FormatNodes(order, c.nodes)
  {
    var ks := Enumerate(c.nodes.Keys);
    order := ks;
    var out := "Nodes:\n";
    for i := 0 to |ks|
      invariant FormatNodes(ks[..i], c.nodes) == Ok(out)
    {
      assert ks[..i + 1][..i] == ks[..i];
      var node := c.nodes[ks[i]];
      if node.private.None? {
        assert c.nodes[order[i]].private.None?;
        assert FormatNodes(order, c.nodes).Err?;
        return Err(AttributeError), order;
      }
      out := out + NodeLine(node);
    }
    assert ks[..|ks|] == ks;
    r := Ok(out);
  }

  /** The lines of a text, cut at `\n` only: a final line break does not
      start another, empty, line. */
  function Lines(s: string): seq<string>
    decreases |s|
  {
    if s == [] then []
    else
      var rest := Lines(s[1..]);
      if s[0] == '\n' then [""] + rest
      else if rest == [] then [[s[0]]]
      else [[s[0]] + rest[0]] + rest[1..]
  }

  /** `Lines` on a text given as its first character and the rest. */
  lemma LinesCons(c: char, s: string)
    ensures Lines([c] + s) ==
      if c == '\n' then [""] + Lines(s)
      else if Lines(s) == [] then [[c]]
      else [[c] + Lines(s)[0]] + Lines(s)[1..]
  {
    assert ([c] + s)[0] == c && ([c] + s)[1..] == s;
  }

  /** A text without line breaks, ended by one, is the first line of
      whatever follows it. */
  lemma {:induction false} LineThenRest(t: string, rest: string)
    requires '\n' !in t
    ensures Lines(t + "\n" + rest) == [t] + Lines(rest)
    decreases |t|
  {
    if t == [] {
      assert t + "\n" + rest == ['\n'] + rest;
      LinesCons('\n', rest);
    } else {
      var c, u := t[0], t[1..];
      assert t == [c] + u;
      assert t + "\n" + rest == [c] + (u + "\n" + rest);
      LineThenRest(u, rest);
      LinesCons(c, u + "\n" + rest);
    }
  }

  /** Lines written one after the other, each ended by a line break. */
  function JoinLines(lines: seq<string>): string
    decreases |lines|
  {
    if lines == [] then "" else lines[0] + "\n" + JoinLines(lines[1..])
  }

  lemma {:induction false} JoinLinesSnoc(lines: seq<string>, line: string)
    ensures JoinLines(lines + [line]) == JoinLines(lines) + line + "\n"
    decreases |lines|
  {
    if lines == [] {
      assert lines + [line] == [line];
      assert [line][1..] == [];
    } else {
      assert (lines + [line])[0] == lines[0];
      assert (lines + [line])[1..] == lines[1..] + [line];
      JoinLinesSnoc(lines[1..], line);
    }
  }

  /** Splitting joined lines that hold no line break gives them back. */
  lemma {:induction false} LinesOfJoin(lines: seq<string>)
    requires forall i | 0 <= i < |lines| :: '\n' !in lines[i]
    ensures Lines(JoinLines(lines)) == lines
    decreases |lines|
  {
    if lines != [] {
      LinesOfJoin(lines[1..]);
      LineThenRest(lines[0], JoinLines(lines[1..]));
    }
  }

  lemma {:induction false} QuotedItemsNoNewline(items: seq<string>)
    requires forall i | 0 <= i < |items| :: '\n' !in items[i]
    ensures '\n' !in QuotedItems(items)
    decreases |items|
  {
    if |items| > 1 {
      QuotedItemsNoNewline(items[..|items| - 1]);
    }
  }

  /** A node whose name and addresses hold no line break prints as one line. */
  predicate PrintsOnOneLine(n: Node) {
    '\n' !in n.name &&
    (n.private.Some? ==> forall i | 0 <= i < |n.private.value.publicIps| :: '\n' !in n.private.value.publicIps[i])
  }

  lemma LineTextHasNoBreak(n: Node)
    requires PrintsOnOneLine(n) && n.private.Some?
    ensures '\n' !in LineText(n)
  {
    QuotedItemsNoNewline(n.private.value.publicIps);
  }

  /** A printed text is the text for all but the last node, followed by
      the last node's line. */
  lemma FormatNodesSnoc(order: seq<string>, nodes: map<string, Node>)
    requires order != [] && forall k | k in order :: k in nodes
    requires FormatNodes(order, nodes).Ok?
    ensures forall k | k in order[..|order| - 1] :: k in nodes
    ensures FormatNodes(order[..|order| - 1], nodes).Ok?
    ensures nodes[order[|order| - 1]].private.Some?
    ensures FormatNodes(order, nodes).value ==
      FormatNodes(order[..|order| - 1], nodes).value + NodeLine(nodes[order[|order| - 1]])
  {
    assert forall i | 0 <= i < |order| - 1 :: order[..|order| - 1][i] == order[i];
  }

  /** The printed text is the heading followed by one line per visited node. */
  lemma {:induction false} FormatNodesJoin(order: seq<string>, nodes: map<string, Node>) returns (lines: seq<string>)
    requires forall k | k in order :: k in nodes
    requires FormatNodes(order, nodes).Ok?
    ensures |lines| == |order|
    ensures forall i | 0 <= i < |order| :: nodes[order[i]].private.Some? && lines[i] == LineText(nodes[order[i]])
    ensures FormatNodes(order, nodes).value == JoinLines(["Nodes:"] + lines)
    decreases |order|
  {
    if order == [] {
      lines := [];
      assert ["Nodes:"][1..] == [];
    } else {
      var init := order[..|order| - 1];
      var node := nodes[order[|order| - 1]];
      FormatNodesSnoc(order, nodes);
      var before := FormatNodesJoin(init, nodes);
      lines := before + [LineText(node)];
      assert ["Nodes:"] + lines == (["Nodes:"] + before) + [LineText(node)];
      JoinLinesSnoc(["Nodes:"] + before, LineText(node));
      assert forall i | 0 <= i < |init| :: init[i] == order[i];
    }
  }

  /** The printed text, line by line: the heading, then one line per visited
      node, in the visiting order, naming the node and its public addresses. */
  lemma FormatNodesLines(order: seq<string>, nodes: map<string, Node>)
    requires forall k | k in order :: k in nodes
    requires forall k | k in order :: PrintsOnOneLine(nodes[k])
    requires FormatNodes(order, nodes).Ok?
    ensures var lines := Lines(FormatNodes(order, nodes).value);
      && |lines| == |order| + 1
      && lines[0] == "Nodes:"
      && forall i | 0 <= i < |order| :: nodes[order[i]].private.Some? && lines[i + 1] == LineText(nodes[order[i]])
  {
    var printed := FormatNodesJoin(order, nodes);
    var lines := ["Nodes:"] + printed;
    forall i | 0 <= i < |lines| ensures '\n' !in lines[i] {
      if i > 0 {
        LineTextHasNoBreak(nodes[order[i - 1]]);
      }
    }
    LinesOfJoin(lines);
  }

  /** `format_collection` prints the heading and then exactly one line per
      node of the collection, each naming a node and its public addresses. */
  lemma {:induction false} FormattedCollectionLines(c: Collection, order: seq<string>)
    requires Enumerates(order, c.nodes.Keys)
    requires forall k | k in c.nodes :: PrintsOnOneLine(c.nodes[k])
    requires FormatNodes(order, c.nodes).Ok?
    ensures var lines := Lines(FormatNodes(order, c.nodes).value);
      && |lines| == |c.nodes| + 1
      && lines[0] == "Nodes:"
      && (forall k | k in c.nodes :: c.nodes[k].private.Some? && LineText(c.nodes[k]) in lines[1..])
      && (forall i | 1 <= i < |lines| :: exists k | k in c.nodes :: c.nodes[k].private.Some? && lines[i] == LineText(c.nodes[k]))
  {
    EnumeratesSize(order, c.nodes.Keys);
    FormatNodesLines(order, c.nodes);
    var lines := Lines(FormatNodes(order, c.nodes).value);
    forall k | k in c.nodes ensures c.nodes[k].private.Some? && LineText(c.nodes[k]) in lines[1..] {
      var i :| 0 <= i < |order| && order[i] == k;
      assert lines[1..][i] == lines[i + 1];
    }
    forall i | 1 <= i < |lines| ensures exists k | k in c.nodes :: c.nodes[k].private.Some? && lines[i] == LineText(c.nodes[k]) {
      assert order[i - 1] in c.nodes;
    }
  }
}
