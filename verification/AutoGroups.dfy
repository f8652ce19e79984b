/** Spreading auto-group rules over a tree: what a scope declares reaches every provider in it. */
module AutoGroups {
  import opened Text
  import opened Bindings

  /** A rule, a module, a branch within a scope (an option group, a condition, or one case of a switch: a
      switch stands as its cases and its default, in order), a provider or supplied value with its
      options, or something else. */
  datatype Node =
    | Declares(rule: Rule)
    | Module(nodes: seq<Node>)
    | Branch(nodes: seq<Node>)
    | Target(opts: seq<Opt>)
    | Other

  /** The rules of a scope: its own and those of its branches, not those of modules within. */
  function Collect(nodes: seq<Node>): seq<Rule>
    decreases nodes, 1
  {
    if nodes == [] then [] else Collect(nodes[..|nodes| - 1]) + CollectOne(nodes[|nodes| - 1])
  }

  function CollectOne(n: Node): seq<Rule>
    decreases n, 0
  {
    match n
    case Declares(rule) => [rule]
    case Branch(inner) => Collect(inner)
    case _ => []
  }

  /** The tree with each provider given the rules in force. */
  function Spread(nodes: seq<Node>, inherited: seq<Rule>): seq<Node>
    decreases nodes, 2
  {
    SpreadAll(nodes, inherited + Collect(nodes))
  }

  function SpreadAll(nodes: seq<Node>, rules: seq<Rule>): seq<Node>
    decreases nodes, 1
  {
    if nodes == [] then [] else SpreadAll(nodes[..|nodes| - 1], rules) + [SpreadOne(nodes[|nodes| - 1], rules)]
  }

  function SpreadOne(n: Node, rules: seq<Rule>): Node
    decreases n, 0
  {
    match n
    case Module(inner) => Module(Spread(inner, rules))
    case Branch(inner) => Branch(Spread(inner, rules))
    case Target(opts) => Target(if rules == [] then opts else AddAutoGroupOptions(opts, rules))
    case _ => n
  }

  method CollectAutoGroupRules(nodes: seq<Node>) returns (rules: seq<Rule>)
    ensures rules == Collect(nodes)
    decreases nodes
  {
    rules := [];
    for i := 0 to |nodes|
      invariant rules == Collect(nodes[..i])
    {
      assert nodes[..i + 1][..i] == nodes[..i];
      match nodes[i] {
        case Declares(rule) =>
          rules := rules + [rule];
        case Branch(inner) =>
          var more := CollectAutoGroupRules(inner);
          rules := rules + more;
        case _ =>
      }
    }
    assert nodes[..|nodes|] == nodes;
  }

  method ApplyAutoGroups(nodes: seq<Node>, inherited: seq<Rule>) returns (out: seq<Node>)
    ensures out == Spread(nodes, inherited)
    decreases nodes
  {
    hide AddAutoGroupOptions;
    var own := CollectAutoGroupRules(nodes);
    var rules := inherited + own;
    out := [];
    for i := 0 to |nodes|
      invariant out == SpreadAll(nodes[..i], rules)
    {
      assert nodes[..i + 1][..i] == nodes[..i];
      match nodes[i] {
        case Module(inner) =>
          var child := ApplyAutoGroups(inner, rules);
          out := out + [Module(child)];
        case Branch(inner) =>
          var child := ApplyAutoGroups(inner, rules);
          out := out + [Branch(child)];
        case Target(opts) =>
          var given := opts;
          if |rules| > 0 {
            var changed;
            given, changed := AddMissingRules(opts, rules);
          }
          out := out + [Target(given)];
        case _ =>
          out := out + [nodes[i]];
      }
    }
    assert nodes[..|nodes|] == nodes;
  }

  // ---- The pass is idempotent --------------------------------------------

  lemma {:induction false} SpreadAt(nodes: seq<Node>, rules: seq<Rule>)
    ensures |SpreadAll(nodes, rules)| == |nodes|
    ensures forall i | 0 <= i < |nodes| :: SpreadAll(nodes, rules)[i] == SpreadOne(nodes[i], rules)
  {
    if nodes == [] {
    } else {
      var n := |nodes| - 1;
      SpreadAt(nodes[..n], rules);
      assert SpreadAll(nodes, rules)[..n] == SpreadAll(nodes[..n], rules);
      forall i | 0 <= i < n
        ensures SpreadAll(nodes, rules)[i] == SpreadOne(nodes[i], rules)
      {
        assert SpreadAll(nodes, rules)[i] == SpreadAll(nodes[..n], rules)[i] && nodes[..n][i] == nodes[i];
      }
    }
  }

  lemma {:induction false} CollectSpread(nodes: seq<Node>, rules: seq<Rule>)
    ensures Collect(SpreadAll(nodes, rules)) == Collect(nodes)
    decreases nodes, 1
  {
    if nodes == [] {
    } else {
      var n := |nodes| - 1;
      CollectSpread(nodes[..n], rules);
      if nodes[n].Branch? {
        CollectSpread(nodes[n].nodes, rules + Collect(nodes[n].nodes));
        assert SpreadOne(nodes[n], rules) == Branch(SpreadAll(nodes[n].nodes, rules + Collect(nodes[n].nodes)));
      }
      assert CollectOne(SpreadOne(nodes[n], rules)) == CollectOne(nodes[n]);
      var out := SpreadAll(nodes, rules);
      assert out[..|out| - 1] == SpreadAll(nodes[..n], rules) && out[|out| - 1] == SpreadOne(nodes[n], rules);
    }
  }

  /** Running the pass over its own result changes nothing. */
  lemma {:induction false} SpreadIdempotent(nodes: seq<Node>, inherited: seq<Rule>)
    ensures Spread(Spread(nodes, inherited), inherited) == Spread(nodes, inherited)
    decreases nodes, 2
  {
    var rules := inherited + Collect(nodes);
    CollectSpread(nodes, rules);
    AllIdempotent(nodes, rules);
  }

  lemma {:induction false} AllIdempotent(nodes: seq<Node>, rules: seq<Rule>)
    ensures SpreadAll(SpreadAll(nodes, rules), rules) == SpreadAll(nodes, rules)
    decreases nodes, 1
  {
    if nodes == [] {
    } else {
      var n := |nodes| - 1;
      var out := SpreadAll(nodes, rules);
      AllIdempotent(nodes[..n], rules);
      OneIdempotent(nodes[n], rules);
      assert out[..|out| - 1] == SpreadAll(nodes[..n], rules);
    }
  }

  lemma {:induction false} OneIdempotent(n: Node, rules: seq<Rule>)
    ensures SpreadOne(SpreadOne(n, rules), rules) == SpreadOne(n, rules)
    decreases n, 0
  {
    if n.Module? || n.Branch? {
      SpreadIdempotent(n.nodes, rules);
    } else if n.Target? {
      AddAutoGroupsIdempotent(n.opts, rules);
    }
  }

  // ---- Which rules reach a provider --------------------------------------

  /** The node at a path of positions. */
  function At(nodes: seq<Node>, path: seq<nat>): Option<Node> {
    if path == [] || path[0] >= |nodes| then None
    else if |path| == 1 then Some(nodes[path[0]])
    else
      match nodes[path[0]]
      case Module(inner) => At(inner, path[1..])
      case Branch(inner) => At(inner, path[1..])
      case _ => None
  }

  /** The rules handed to the node at the path. */
  function InForce(nodes: seq<Node>, path: seq<nat>, inherited: seq<Rule>): seq<Rule>
    requires At(nodes, path).Some?
  {
    var rules := inherited + Collect(nodes);
    if |path| == 1 then rules else InForce(nodes[path[0]].nodes, path[1..], rules)
  }

  lemma {:induction false} TargetGets(nodes: seq<Node>, path: seq<nat>, inherited: seq<Rule>)
    requires At(nodes, path).Some? && At(nodes, path).value.Target?
    ensures var rules, opts := InForce(nodes, path, inherited), At(nodes, path).value.opts;
            At(Spread(nodes, inherited), path) ==
                Some(Target(if rules == [] then opts else AddAutoGroupOptions(opts, rules)))
  {
    var rules := inherited + Collect(nodes);
    SpreadAt(nodes, rules);
    hide AddAutoGroupOptions;
    if |path| > 1 {
      TargetGets(nodes[path[0]].nodes, path[1..], rules);
    }
  }

  /** How far down the path to a node its innermost module lies; 0 outside all modules. */
  function Home(nodes: seq<Node>, path: seq<nat>): (h: nat)
    requires At(nodes, path).Some?
    ensures h < |path|
  {
    if |path| == 1 then 0
    else
      var h := Home(nodes[path[0]].nodes, path[1..]);
      if nodes[path[0]].Module? || h > 0 then h + 1 else 0
  }

  lemma {:induction false} CollectMember(nodes: seq<Node>, i: nat, rule: Rule)
    requires i < |nodes| && rule in CollectOne(nodes[i])
    ensures rule in Collect(nodes)
  {
    if i < |nodes| - 1 {
      CollectMember(nodes[..|nodes| - 1], i, rule);
    }
  }

  lemma {:induction false} CollectFrom(nodes: seq<Node>, rule: Rule) returns (i: nat)
    requires rule in Collect(nodes)
    ensures i < |nodes| && rule in CollectOne(nodes[i])
  {
    var n := |nodes| - 1;
    if rule in CollectOne(nodes[n]) {
      i := n;
    } else {
      i := CollectFrom(nodes[..n], rule);
    }
  }

  /** A rule outside modules is collected. */
  lemma {:induction false} HomeCollects(nodes: seq<Node>, q: seq<nat>)
    requires At(nodes, q).Some? && At(nodes, q).value.Declares? && Home(nodes, q) == 0
    ensures At(nodes, q).value.rule in Collect(nodes)
  {
    if |q| > 1 {
      HomeCollects(nodes[q[0]].nodes, q[1..]);
    }
    CollectMember(nodes, q[0], At(nodes, q).value.rule);
  }

  /** What is collected is declared outside modules. */
  lemma {:induction false} CollectedPath(nodes: seq<Node>, rule: Rule) returns (q: seq<nat>)
    requires rule in Collect(nodes)
    ensures At(nodes, q) == Some(Declares(rule)) && Home(nodes, q) == 0
    decreases nodes
  {
    var i := CollectFrom(nodes, rule);
    if nodes[i].Branch? {
      var rest := CollectedPath(nodes[i].nodes, rule);
      q := [i] + rest;
      assert q[1..] == rest;
    } else {
      q := [i];
    }
  }

  /** The innermost module around the rule at q is around the node at path too. */
  predicate Covers(nodes: seq<Node>, q: seq<nat>, path: seq<nat>)
    requires At(nodes, q).Some?
  {
    Home(nodes, q) < |path| && q[..Home(nodes, q)] == path[..Home(nodes, q)]
  }

  ghost predicate Reaches(nodes: seq<Node>, q: seq<nat>, rule: Rule, path: seq<nat>) {
    At(nodes, q) == Some(Declares(rule)) && Covers(nodes, q, path)
  }

  lemma {:induction false} InForceReaches(nodes: seq<Node>, path: seq<nat>, inherited: seq<Rule>, rule: Rule)
    returns (q: seq<nat>)
    requires At(nodes, path).Some? && rule in InForce(nodes, path, inherited) && rule !in inherited
    ensures Reaches(nodes, q, rule, path)
  {
    if rule in Collect(nodes) {
      q := CollectedPath(nodes, rule);
    } else {
      var inner := nodes[path[0]].nodes;
      var rest := InForceReaches(inner, path[1..], inherited + Collect(nodes), rule);
      q := [path[0]] + rest;
      assert q[1..] == rest;
      CoversInner(nodes, q, path);
    }
  }

  lemma CoversInner(nodes: seq<Node>, q: seq<nat>, path: seq<nat>)
    requires At(nodes, q).Some? && |q| > 1 && |path| > 1 && q[0] == path[0]
    ensures Covers(nodes[q[0]].nodes, q[1..], path[1..]) ==> Covers(nodes, q, path)
    ensures Covers(nodes, q, path) && Home(nodes, q) > 0 ==> Covers(nodes[q[0]].nodes, q[1..], path[1..])
  {
    var inner := nodes[q[0]].nodes;
    var g, h := Home(inner, q[1..]), Home(nodes, q);
    if h > 0 {
      assert q[..h] == [q[0]] + q[1..][..g] && q[..h][1..] == q[1..][..g];
      if h < |path| {
        assert path[..h] == [path[0]] + path[1..][..g] && path[..h][1..] == path[1..][..g];
      }
    }
  }

  lemma {:induction false} ReachesInForce(nodes: seq<Node>, path: seq<nat>, inherited: seq<Rule>, rule: Rule,
                                          q: seq<nat>)
    requires At(nodes, path).Some? && (rule in inherited || Reaches(nodes, q, rule, path))
    ensures rule in InForce(nodes, path, inherited)
  {
    if rule !in inherited && Home(nodes, q) == 0 {
      HomeCollects(nodes, q);
    }
    if |path| > 1 {
      if rule !in inherited && Home(nodes, q) > 0 {
        assert q[..Home(nodes, q)][0] == path[..Home(nodes, q)][0];
        CoversInner(nodes, q, path);
      }
      ReachesInForce(nodes[path[0]].nodes, path[1..], inherited + Collect(nodes), rule, if q == [] then q else q[1..]);
    }
  }

  /** A provider is handed exactly the rules whose innermost module encloses it, before or after it
      and in whatever branch they are declared; rules of other modules never reach it. */
  lemma ReachExactly(nodes: seq<Node>, path: seq<nat>, rule: Rule)
    requires At(nodes, path).Some?
    ensures rule in InForce(nodes, path, []) <==> exists q :: Reaches(nodes, q, rule, path)
  {
    if rule in InForce(nodes, path, []) {
      var q := InForceReaches(nodes, path, [], rule);
    }
    if q :| Reaches(nodes, q, rule, path) {
      ReachesInForce(nodes, path, [], rule, q);
    }
  }
}
