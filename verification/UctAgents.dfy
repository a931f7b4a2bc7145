/**
 The agent that picks table orders by upper-confidence tree search, and the join loop.

 A node of the search tree is named by the tables chosen after the fixed prefix.  Random
 choices are arbitrary.
 */
module UctAgents {
  import opened Wrappers
  import opened Sequences
  import opened Vectors
  import opened JoinStates
  import opened PredicateFlags
  import opened SkinnerJoin

  datatype UctNode = UctNode(createdIn: int, priority: seq<nat>, visits: nat, tries: seq<nat>, acc: seq<real>)

  /** The tables not in `joined`, in ascending order. */
  function Unjoined(n: nat, joined: set<nat>): (s: seq<nat>)
    ensures forall t: nat :: t in s <==> t < n && t !in joined
    ensures Distinct(s)
  {
    if n == 0 then [] else
      var s := Unjoined(n - 1, joined);
      if n - 1 in joined then s else s + [n - 1]
  }

  lemma {:induction false} UnjoinedCount(n: nat, joined: set<nat>)
    requires forall t :: t in joined ==> t < n
    ensures |Unjoined(n, joined)| == n - |joined|
  {
    if n == 0 {
      assert joined == {};
    } else {
      UnjoinedDrop(n - 1, joined, n - 1);
      UnjoinedCount(n - 1, joined - {n - 1});
    }
  }

  lemma {:induction false} UnjoinedDrop(n: nat, joined: set<nat>, t: nat)
    requires n <= t
    ensures Unjoined(n, joined) == Unjoined(n, joined - {t})
  {
    if n > 0 { UnjoinedDrop(n - 1, joined, t); }
  }

  lemma {:induction false} TablesCount(path: seq<nat>)
    requires Distinct(path)
    ensures |Tables(path)| == |path|
  {
    hide Tables;
    if path != [] {
      var n := |path| - 1;
      var rest := path[..n];
      TablesCount(rest);
      TablesOfPrefix(path, n);
      LastIsNew(path);
      assert path[..n + 1] == path;
    } else {
      NoTables(path);
    }
  }

  lemma LastIsNew(path: seq<nat>)
    requires Distinct(path) && path != []
    ensures path[|path| - 1] !in Tables(path[..|path| - 1])
  {
  }

  lemma NoTables(path: seq<nat>)
    requires path == []
    ensures Tables(path) == {}
  {
  }

  /** n distinct tables below n are all of them. */
  lemma DistinctIsOrder(order: seq<nat>, n: nat)
    requires |order| == n && InBounds(order, n) && Distinct(order)
    ensures IsOrder(order, n)
  {
    TablesCount(order);
    UnjoinedCount(n, Tables(order));
    forall t: nat | t < n ensures t in order {
      assert t in Tables(order) || t in Unjoined(n, Tables(order));
    }
  }

  predicate IsConnected(connections: set<(nat, nat)>, joined: set<nat>, table: nat)
  {
    exists t :: t in joined && (t, table) in connections
  }

  function ConnectedActions(connections: set<(nat, nat)>, joined: set<nat>, tables: seq<nat>): (s: set<nat>)
    ensures forall a: nat :: a in s <==> a < |tables| && IsConnected(connections, joined, tables[a])
  {
    set a: nat | a < |tables| && IsConnected(connections, joined, tables[a])
  }

  /** The actions worth trying below the root: connected tables, or all if there are none. */
  function Recommended(n: nat, connections: set<(nat, nat)>, joined: set<nat>, root: bool): (s: set<nat>)
    ensures forall a :: a in s ==> a < |Unjoined(n, joined)|
    ensures 0 < |Unjoined(n, joined)| ==> exists a :: a in s
  {
    var tables := Unjoined(n, joined);
    var connected := ConnectedActions(connections, joined, tables);
    if root || connected == {} then
      assert 0 < |tables| ==> 0 in UpTo(|tables|);
      UpTo(|tables|)
    else connected
  }

  /** An action is recommended at the root, if its table is connected, or if no missing table is. */
  lemma RecommendedExactly(n: nat, connections: set<(nat, nat)>, joined: set<nat>, root: bool, a: nat)
    requires a < |Unjoined(n, joined)|
    ensures a in Recommended(n, connections, joined, root) <==>
              || root || IsConnected(connections, joined, Unjoined(n, joined)[a])
              || forall t: nat :: t < n && t !in joined ==> !IsConnected(connections, joined, t)
  {
    hide Unjoined, IsConnected;
    var tables := Unjoined(n, joined);
    var connected := ConnectedActions(connections, joined, tables);
    if connected != {} {
      var i :| i in connected;
      assert tables[i] in tables;
    }
    if t: nat :| t < n && t !in joined && IsConnected(connections, joined, t) {
      assert t in tables;
      var i :| 0 <= i < |tables| && tables[i] == t;
      assert i in connected;
    }
  }

  /** The statistics of a node fit its actions, rewards add up to something non-negative,
      and every recommended action has been tried or is still queued - except `pending`. */
  ghost predicate NodeOk(node: UctNode, actions: nat, recommended: set<nat>, pending: set<nat>)
  {
    && |node.tries| == |node.acc| == actions
    && (forall a :: a in node.priority ==> a in recommended && a < actions)
    && Distinct(node.priority)
    && (forall a :: 0 <= a < actions ==> node.acc[a] >= 0.0 && node.tries[a] <= node.visits)
    && (forall a :: a in recommended && a < actions && a !in pending ==> a in node.priority || node.tries[a] >= 1)
  }

  // ----- statistics -----

  type Nodes = map<seq<nat>, UctNode>

  /** How often a node was visited, an action of it tried, and with what reward; a node that does not exist yet
      has not been visited. */
  ghost function VisitsOf(nodes: Nodes, p: seq<nat>): (n: nat)
  {
    if p in nodes then nodes[p].visits else 0
  }

  ghost function TriesOf(nodes: Nodes, p: seq<nat>, a: nat): (n: nat)
  {
    if p in nodes && a < |nodes[p].tries| then nodes[p].tries[a] else 0
  }

  ghost function RewardOf(nodes: Nodes, p: seq<nat>, a: nat): (x: real)
  {
    if p in nodes && a < |nodes[p].acc| then nodes[p].acc[a] else 0.0
  }

  /** One visit, and one try with this reward. */
  ghost predicate IsCredited(node: UctNode, node': UctNode, action: nat, reward: real)
  {
    && action < |node.tries| == |node.acc|
    && node' == node.(visits := node.visits + 1, tries := node.tries[action := node.tries[action] + 1],
                      acc := node.acc[action := node.acc[action] + reward])
  }

  ghost predicate SameStatistics(nodes: Nodes, nodes': Nodes, p: seq<nat>)
  {
    && VisitsOf(nodes', p) == VisitsOf(nodes, p)
    && forall a: nat :: TriesOf(nodes', p, a) == TriesOf(nodes, p, a) && RewardOf(nodes', p, a) == RewardOf(nodes, p, a)
  }

  ghost predicate SameEverywhere(nodes: Nodes, nodes': Nodes)
  {
    forall p :: SameStatistics(nodes, nodes', p)
  }

  /** Statistics differ at most at `child` and below. */
  ghost predicate SameOutside(nodes: Nodes, nodes': Nodes, child: seq<nat>)
  {
    forall p :: !(child <= p) ==> SameStatistics(nodes, nodes', p)
  }

  /** A round with this order and reward: a node on the way gains one visit, and of its actions the one for the
      next table of the order gains one try and the reward.  Other nodes stay as they are. */
  ghost predicate CreditedAt(prefix: seq<nat>, nodes: Nodes, nodes': Nodes, p: seq<nat>, order: seq<nat>, reward: real)
  {
    var here, tables := |prefix| + |p|, Unjoined(|order|, Tables(prefix + p));
    var onTheWay := here < |order| && prefix + p <= order;
    && VisitsOf(nodes', p) == VisitsOf(nodes, p) + (if onTheWay then 1 else 0)
    && forall a: nat :: a < |tables| ==>
        var taken := onTheWay && tables[a] == order[here];
        && TriesOf(nodes', p, a) == TriesOf(nodes, p, a) + (if taken then 1 else 0)
        && RewardOf(nodes', p, a) == RewardOf(nodes, p, a) + (if taken then reward else 0.0)
  }

  ghost predicate Credits(prefix: seq<nat>, nodes: Nodes, nodes': Nodes, path: seq<nat>, order: seq<nat>, reward: real)
  {
    forall p :: p in nodes' && path <= p ==> CreditedAt(prefix, nodes, nodes', p, order, reward)
  }

  /** A node has an older parent, except the root. */
  ghost predicate HasParents(nodes: Nodes, round: int)
  {
    forall p :: p in nodes ==> nodes[p].createdIn <= round && (p != [] ==> HasParent(nodes, p))
  }

  ghost predicate HasParent(nodes: Nodes, p: seq<nat>)
    requires p in nodes && p != []
  {
    p[..|p| - 1] in nodes && nodes[p[..|p| - 1]].createdIn < nodes[p].createdIn
  }

  /** At most one node is new, and none if the round has just created the node it starts from. */
  ghost predicate GrowsByOne(nodes: Nodes, nodes': Nodes, path: seq<nat>, round: int)
  {
    && nodes.Keys <= nodes'.Keys
    && (forall p, q :: p in nodes' && p !in nodes && q in nodes' && q !in nodes ==> p == q)
    && ((path in nodes && nodes[path].createdIn != round) || nodes'.Keys == nodes.Keys)
  }

  /** A node creates the child that it descends to, unless it is new itself. */
  ghost predicate IsExpansion(nodes: Nodes, nodes': Nodes, path: seq<nat>, child: seq<nat>, round: int)
  {
    && path in nodes && nodes'.Keys == nodes.Keys + (if nodes[path].createdIn != round then {child} else {})
    && (child in nodes' && child !in nodes ==> nodes'[child].createdIn == round)
    && (child in nodes ==> nodes[path].createdIn < round)
  }

  lemma GrowsOn(nodes: Nodes, expanded: Nodes, nodes': Nodes, path: seq<nat>, child: seq<nat>, round: int)
    requires IsExpansion(nodes, expanded, path, child, round) && GrowsByOne(expanded, nodes', child, round)
    ensures GrowsByOne(nodes, nodes', path, round)
  {
    if nodes[path].createdIn == round {
      assert expanded.Keys == nodes.Keys;
    } else if child in nodes {
      assert expanded.Keys == nodes.Keys;
    } else {
      assert nodes'.Keys == nodes.Keys + {child};
    }
  }

  lemma RootOnly(nodes: Nodes)
    requires nodes.Keys == {[]} && nodes[[]].createdIn == 0
    ensures HasParents(nodes, 0) && forall p :: p in nodes ==> p <= []
  {
  }

  lemma LaterRound(nodes: Nodes, round: int)
    requires HasParents(nodes, round)
    ensures HasParents(nodes, round + 1)
  {
  }

  lemma OlderThanChild(nodes: Nodes, round: int, path: seq<nat>, table: nat)
    requires HasParents(nodes, round) && path + [table] in nodes
    ensures path in nodes && nodes[path].createdIn < round
  {
    assert HasParent(nodes, path + [table]);
    assert (path + [table])[..|path|] == path;
  }

  lemma SameKeys(nodes: Nodes, nodes': Nodes, nodes'': Nodes, path: seq<nat>, round: int)
    requires GrowsByOne(nodes, nodes', path, round) && nodes''.Keys == nodes'.Keys
    ensures GrowsByOne(nodes, nodes'', path, round)
  {
  }

  lemma NothingGrows(nodes: Nodes, path: seq<nat>, round: int)
    ensures GrowsByOne(nodes, nodes, path, round)
  {
  }

  lemma {:induction false} NothingBelow(nodes: Nodes, round: int, path: seq<nat>, p: seq<nat>)
    requires HasParents(nodes, round) && path !in nodes && path <= p
    ensures p !in nodes
    decreases |p|
  {
    if |p| > |path| {
      assert path <= p[..|p| - 1] && (p in nodes ==> HasParent(nodes, p));
      NothingBelow(nodes, round, path, p[..|p| - 1]);
    } else {
      assert p == path;
    }
  }

  lemma EndOfOrder(prefix: seq<nat>, nodes: Nodes, path: seq<nat>, order: seq<nat>, reward: real)
    requires prefix + path == order
    ensures Credits(prefix, nodes, nodes, path, order, reward)
  {
  }

  lemma SameCredits(prefix: seq<nat>, nodes: Nodes, expanded: Nodes, nodes': Nodes, nodes'': Nodes, p: seq<nat>,
                    order: seq<nat>, reward: real)
    requires SameStatistics(nodes, expanded, p) && SameStatistics(nodes', nodes'', p)
    requires CreditedAt(prefix, expanded, nodes', p, order, reward)
    ensures CreditedAt(prefix, nodes, nodes'', p, order, reward)
  {
    hide TriesOf, RewardOf, VisitsOf, Unjoined;
  }

  lemma OffTheWay(prefix: seq<nat>, nodes: Nodes, nodes': Nodes, path: seq<nat>, table: nat, p: seq<nat>,
                  order: seq<nat>, reward: real)
    requires SameStatistics(nodes, nodes', p) && path <= p && p != path && !(path + [table] <= p)
    requires prefix + (path + [table]) <= order
    ensures CreditedAt(prefix, nodes, nodes', p, order, reward)
  {
    var i := |path|;
    assert p[i] != table by { assert p[..i + 1] == path + [p[i]]; }
    assert (prefix + (path + [table]))[|prefix| + i] == table;
    assert order[|prefix| + i] == table;
    assert (prefix + p)[|prefix| + i] == p[i];
  }

  lemma NotTwice(s: seq<nat>, a: nat, b: nat)
    requires Distinct(s) && a < |s| && b < |s| && s[a] == s[b]
    ensures a == b
  {
  }

  lemma OnTheWay(prefix: seq<nat>, nodes: Nodes, nodes': Nodes, path: seq<nat>, action: nat, order: seq<nat>,
                 reward: real)
    requires path in nodes && path in nodes'
    requires var tables := Unjoined(|order|, Tables(prefix + path));
             && action < |tables| && |nodes[path].tries| == |nodes[path].acc| == |tables|
             && prefix + (path + [tables[action]]) <= order
    requires IsCredited(nodes[path], nodes'[path], action, reward)
    ensures CreditedAt(prefix, nodes, nodes', path, order, reward)
  {
    var here, tables := |prefix| + |path|, Unjoined(|order|, Tables(prefix + path));
    var child := prefix + (path + [tables[action]]);
    assert child[here] == tables[action] && order[here] == child[here];
    assert prefix + path == child[..here] == order[..here];
    forall a: nat | a < |tables| && tables[a] == order[here] ensures a == action { NotTwice(tables, a, action); }
  }

  /** What a round below a node does to its statistics, put together. */
  lemma CreditsUp(prefix: seq<nat>, nodes: Nodes, expanded: Nodes, evaluated: Nodes, nodes': Nodes, path: seq<nat>,
                  child: seq<nat>, action: nat, order: seq<nat>, reward: real)
    requires path in evaluated && path in nodes'
    requires var tables := Unjoined(|order|, Tables(prefix + path));
             && action < |tables| && |evaluated[path].tries| == |evaluated[path].acc| == |tables|
             && child == path + [tables[action]]
    requires prefix + child <= order && Credits(prefix, expanded, evaluated, child, order, reward)
    requires SameOutside(expanded, evaluated, child) && SameEverywhere(nodes, expanded)
    requires forall p :: p != path ==> SameStatistics(evaluated, nodes', p)
    requires nodes'.Keys == evaluated.Keys
    requires IsCredited(evaluated[path], nodes'[path], action, reward)
    ensures Credits(prefix, nodes, nodes', path, order, reward)
  {
    hide CreditedAt, SameStatistics, Unjoined, Tables;
    forall p | p in nodes' && path <= p ensures CreditedAt(prefix, nodes, nodes', p, order, reward) {
      assert SameStatistics(nodes, expanded, p);
      if p == path {
        assert SameStatistics(expanded, evaluated, p);
        OnTheWay(prefix, evaluated, nodes', path, action, order, reward);
        SameTwice(nodes, expanded, evaluated, p);
        SameAsItself(nodes', p);
        SameCredits(prefix, nodes, evaluated, nodes', nodes', p, order, reward);
      } else if child <= p {
        assert CreditedAt(prefix, expanded, evaluated, p, order, reward);
        SameCredits(prefix, nodes, expanded, evaluated, nodes', p, order, reward);
      } else {
        SameTwice(nodes, expanded, evaluated, p);
        SameTwice(nodes, evaluated, nodes', p);
        OffTheWay(prefix, nodes, nodes', path, child[|path|], p, order, reward);
      }
    }
  }

  lemma SameTwice(a: Nodes, b: Nodes, c: Nodes, p: seq<nat>)
    requires SameStatistics(a, b, p) && SameStatistics(b, c, p)
    ensures SameStatistics(a, c, p)
  {
  }

  lemma StatisticsSize(node: UctNode, actions: nat, recommended: set<nat>, pending: set<nat>)
    requires NodeOk(node, actions, recommended, pending)
    ensures |node.tries| == |node.acc| == actions
  {
  }

  lemma Unevaluated(nodes: Nodes, nodes': Nodes, child: seq<nat>)
    requires nodes.Keys <= nodes'.Keys
    requires forall p :: p in nodes' && !(child <= p) ==> p in nodes && nodes'[p] == nodes[p]
    ensures SameOutside(nodes, nodes', child)
  {
    forall p | !(child <= p) ensures SameStatistics(nodes, nodes', p) {
      assert p in nodes' <==> p in nodes;
    }
  }

  lemma NothingChanges(nodes: Nodes)
    ensures SameEverywhere(nodes, nodes)
  {
  }

  lemma OneChanged(nodes: Nodes, nodes': Nodes, path: seq<nat>, round: int)
    requires nodes'.Keys == nodes.Keys && forall p :: p in nodes && p != path ==> nodes'[p] == nodes[p]
    requires path in nodes ==> nodes'[path].createdIn == nodes[path].createdIn
    ensures forall p :: p != path ==> SameStatistics(nodes, nodes', p)
    ensures HasParents(nodes, round) ==> HasParents(nodes', round)
  {
    forall p | HasParents(nodes, round) && p in nodes && p != [] ensures HasParent(nodes', p) {
      assert HasParent(nodes, p);
    }
  }

  /** A new node has not been visited, and its parent is there. */
  lemma ChildAdded(nodes: Nodes, nodes': Nodes, path: seq<nat>, table: nat, round: int)
    requires path in nodes && HasParents(nodes, round) && nodes'.Keys == nodes.Keys + {path + [table]}
    requires path + [table] !in nodes && nodes[path].createdIn != round == nodes'[path + [table]].createdIn
    requires (forall p :: p in nodes ==> nodes'[p] == nodes[p]) && SameStatistics(nodes, nodes', path + [table])
    ensures HasParents(nodes', round) && SameEverywhere(nodes, nodes')
  {
    assert (path + [table])[..|path|] == path;
    forall p | p in nodes' && p != [] ensures HasParent(nodes', p) {
      if p in nodes { assert HasParent(nodes, p); }
    }
    forall p ensures SameStatistics(nodes, nodes', p) {
      if p != path + [table] { assert p in nodes' <==> p in nodes; }
    }
  }

  lemma SameAsItself(nodes: Nodes, p: seq<nat>)
    ensures SameStatistics(nodes, nodes, p)
  {
  }

  class UctJoinAgent {
    const env: JoinEnvironment
    const connections: set<(nat, nat)>
    const explore: (nat, nat) -> real   // sqrt(log(visits) / tries), scaled
    var roundCtr: int
    var shouldForget: bool
    var nextForget: int
    var nodes: map<seq<nat>, UctNode>
    var order: seq<nat>

    ghost function N(): (n: nat) { |env.q.card| }

    ghost function Joined(path: seq<nat>): (s: set<nat>) { Tables(env.prefix + path) }

    ghost predicate PathOk(path: seq<nat>)
    {
      InBounds(env.prefix + path, N()) && Distinct(env.prefix + path)
    }

    /** The node at `path` is consistent, up to pending actions. */
    ghost predicate NodeAt(path: seq<nat>, pending: set<nat>)
      requires path in nodes
      reads this`nodes
    {
      NodeOk(nodes[path], |Unjoined(N(), Joined(path))|, Recommended(N(), connections, Joined(path), path == []),
          pending)
    }

    /** All nodes are consistent, except possibly those on the way to `path`. */
    ghost predicate ConsistentOff(path: seq<nat>)
      reads this`nodes, this`roundCtr
    {
      HasParents(nodes, roundCtr) && forall p :: p in nodes && !(p <= path) ==> PathOk(p) && NodeAt(p, {})
    }

    ghost predicate Ready()
      reads this`order
    {
      && PathOk([])
      && (forall v: nat, t: nat :: v >= 1 && t >= 1 ==> explore(v, t) >= 0.0)
      && |order| == N()
    }

    constructor (environment: JoinEnvironment, tableConnections: set<(nat, nat)>, exploration: (nat, nat) -> real,
                 forget: bool)
      requires InBounds(environment.prefix, |environment.q.card|) && Distinct(environment.prefix)
      requires forall v: nat, t: nat :: v >= 1 && t >= 1 ==> exploration(v, t) >= 0.0
      requires |environment.prefix| <= |environment.q.card|
      ensures env == environment && Ready() && [] in nodes && NodeAt([], {}) && ConsistentOff([])
      ensures environment.prefix <= order && connections == tableConnections
      ensures roundCtr == 0 && nextForget == 10 && shouldForget == forget && nodes.Keys == {[]}
    {
      env := environment;
      connections := tableConnections;
      explore := exploration;
      roundCtr, shouldForget, nextForget := 0, forget, 10;
      order := environment.prefix + seq(|environment.q.card| - |environment.prefix|, _ => 0);
      nodes := map[];
      new;
      hide NodeOk, Unjoined, Recommended, SameStatistics, Tables, Distinct, InBounds, HasParents;
      assert environment.prefix + [] == environment.prefix;
      AddNode([], true);
      RootOnly(nodes);
    }

    /** Creates the node at `path` with every recommended action queued. */
    method AddNode(path: seq<nat>, root: bool)
      requires PathOk(path) && root == (path == []) && path !in nodes
      modifies this`nodes
      ensures nodes.Keys == old(nodes).Keys + {path} && forall p :: p in old(nodes) ==> nodes[p] == old(nodes)[p]
      ensures NodeAt(path, {}) && SameStatistics(old(nodes), nodes, path) && nodes[path].createdIn == roundCtr
    {
      var joined := Tables(env.prefix + path);
      var n := |Unjoined(|env.q.card|, joined)|;
      var recommended := Recommended(|env.q.card|, connections, joined, root);
      var priority: seq<nat> := [];
      for i := 0 to n
        invariant forall a :: a in priority <==> a < i && a in recommended
        invariant Distinct(priority)
      {
        if i in recommended {
          priority := priority + [i];
        }
      }
      nodes := nodes[path := UctNode(roundCtr, priority, 0, seq(n, _ => 0), seq(n, _ => 0.0))];
    }

    /** Takes a queued action, or else the recommended one of best quality. */
    method SelectAction(path: seq<nat>) returns (action: nat)
      requires Ready() && path in nodes && PathOk(path) && NodeAt(path, {}) && 0 < |Unjoined(N(), Joined(path))|
      modifies this`nodes
      ensures nodes.Keys == old(nodes).Keys && forall p :: p in nodes && p != path ==> nodes[p] == old(nodes)[p]
      ensures action < |Unjoined(N(), Joined(path))|
      ensures action in Recommended(N(), connections, Joined(path), path == [])
      ensures nodes[path].createdIn == old(nodes)[path].createdIn
      ensures NodeAt(path, {action}) && SameStatistics(old(nodes), nodes, path)
    {
      hide NodeOk, Unjoined, Recommended, UpTo;
      var node;
      action, node := TakeAction(nodes[path], |Unjoined(|env.q.card|, Tables(env.prefix + path))|,
                                 Recommended(|env.q.card|, connections, Tables(env.prefix + path), path == []),
                                     explore);
      nodes := nodes[path := node];
    }

    /** Completes the order below a new leaf: connected tables first, in a random order. */
    method Playout(path: seq<nat>) returns (reward: Option<real>, ghost run: Run, ghost update: UpdateStatus)
      requires env.Configured() && !env.state.finished
      requires Ready() && PathOk(path) && path != [] && env.prefix + path <= order
      modifies this`order, env.state, env.engine
      ensures Ready() && env.Configured() && (reward.Some? ==> reward.value >= 0.0) && env.prefix + path <= order
      ensures old(env.engine.emitted) <= env.engine.emitted &&
              IsExecution(env.q, env.budget, order, old(env.Now()), env.Now(), reward, run, update)
      ensures old(env.Valid()) ==> env.Valid() && reward.Some?
      ensures old(env.Valid()) ==>
                env.state.finished || Remaining(env.q.card,
                    env.state.nodes) < old(Remaining(env.q.card, env.state.nodes))
    {
      hide IsExecution, JoinEnvironment.Now, JoinEnvironment.Valid, JoinEnvironment.Configured, Remaining, Distinct;
      hide IsOrder, InBounds;
      var n := |env.q.card|;
      var done := |env.prefix| + |path|;
      assert order[..done] == env.prefix + path;
      order := CompleteOrder(n, connections, order, done);
      DistinctIsOrder(order, n);
      reward, run, update := env.Execute(order);
    }

    /** Credits the reward to the action that led to it. */
    method UpdateStatistics(path: seq<nat>, action: nat, reward: real)
      requires path in nodes && NodeAt(path, {action}) && action < |Unjoined(N(), Joined(path))| && reward >= 0.0
      modifies this`nodes
      ensures nodes.Keys == old(nodes).Keys && forall p :: p in nodes && p != path ==> nodes[p] == old(nodes)[p]
      ensures NodeAt(path, {}) && IsCredited(old(nodes)[path], nodes[path], action, reward)
    {
      var node := nodes[path];
      nodes := nodes[path := node.(visits := node.visits + 1,
                                   tries := node.tries[action := node.tries[action] + 1],
                                   acc := node.acc[action := node.acc[action] + reward])];
    }

    /** Extends the order by the table of an action, creating its node when allowed. */
    method Descend(path: seq<nat>, table: nat)
      requires Ready() && path in nodes && PathOk(path) && ConsistentOff(path)
      requires env.prefix + path <= order && table < N() && table !in Joined(path)
      modifies this`order, this`nodes
      ensures Ready() && PathOk(path + [table]) && ConsistentOff(path)
      ensures env.prefix + (path + [table]) <= order
      ensures old(nodes).Keys <= nodes.Keys && forall p :: p in old(nodes) ==> nodes[p] == old(nodes)[p]
      ensures IsExpansion(old(nodes), nodes, path, path + [table], roundCtr) && SameEverywhere(old(nodes), nodes)
    {
      hide NodeOk, Unjoined, Recommended, SameStatistics, SameEverywhere, HasParents, Tables, Distinct, InBounds;
      var child := path + [table];
      assert env.prefix + child == (env.prefix + path) + [table];
      ChildPath(env.prefix + path, table, N());
      order := order[|env.prefix| + |path| := table];
      NothingChanges(nodes);
      if child in nodes { OlderThanChild(nodes, roundCtr, path, table); }
      if nodes[path].createdIn != roundCtr && child !in nodes {
        ghost var before := nodes;
        AddNode(child, false);
        ChildAdded(before, nodes, path, table, roundCtr);
      }
    }

    /** The child that an action leads to. */
    ghost predicate IsChild(path: seq<nat>, action: nat, child: seq<nat>)
    {
      var tables := Unjoined(N(), Joined(path));
      action < |tables| && child == path + [tables[action]]
    }

    lemma Credited(before: Nodes, expanded: Nodes, evaluated: Nodes, after: Nodes, path: seq<nat>, child: seq<nat>,
                   action: nat, order: seq<nat>, reward: real, round: int)
      requires path in evaluated && after.Keys == evaluated.Keys && |order| == N()
      requires IsChild(path, action, child) && env.prefix + child <= order
      requires NodeOk(evaluated[path], |Unjoined(N(), Joined(path))|,
                      Recommended(N(), connections, Joined(path), path == []), {action})
      requires IsExpansion(before, expanded, path, child, round) && GrowsByOne(expanded, evaluated, child, round)
      requires expanded.Keys <= evaluated.Keys && SameEverywhere(before, expanded)
      requires forall p :: p in evaluated && !(child <= p) ==> p in expanded && evaluated[p] == expanded[p]
      requires Credits(env.prefix, expanded, evaluated, child, order, reward)
      requires HasParents(evaluated, round) && forall p :: p in after && p != path ==> after[p] == evaluated[p]
      requires IsCredited(evaluated[path], after[path], action, reward)
      ensures Credits(env.prefix, before, after, path, order, reward)
      ensures HasParents(after, round) && GrowsByOne(before, after, path, round)
    {
      hide NodeOk, Unjoined, Recommended, Tables, SameStatistics, HasParents, Credits, SameOutside, SameEverywhere;
      hide GrowsByOne, IsExpansion;
      var actions := |Unjoined(N(), Joined(path))|;
      var recommended := Recommended(N(), connections, Joined(path), path == []);
      StatisticsSize(evaluated[path], actions, recommended, {action});
      GrowsOn(before, expanded, evaluated, path, child, round);
      SameKeys(before, evaluated, after, path, round);
      Unevaluated(expanded, evaluated, child);
      OneChanged(evaluated, after, path, round);
      CreditsUp(env.prefix, before, expanded, evaluated, after, path, child, action, order, reward);
    }

    /** One round below `path`: choose, descend or play out, and credit the reward. */
    method Sample(path: seq<nat>) returns (reward: Option<real>, ghost run: Run, ghost update: UpdateStatus)
      requires env.Configured() && !env.state.finished
      requires Ready() && path in nodes && PathOk(path) && NodeAt(path, {}) && ConsistentOff(path)
      requires env.prefix + path <= order
      modifies this`order, this`nodes, env.state, env.engine
      ensures Ready() && env.Configured() && (reward.Some? ==> reward.value >= 0.0) && env.prefix + path <= order
      ensures old(env.engine.emitted) <= env.engine.emitted &&
              IsExecution(env.q, env.budget, order, old(env.Now()), env.Now(), reward, run, update)
      ensures reward.Some? ==> Credits(env.prefix, old(nodes), nodes, path, order, reward.value)
      ensures reward.Some? ==> GrowsByOne(old(nodes), nodes, path, roundCtr)
      ensures old(env.Valid()) ==> env.Valid() && reward.Some?
      ensures old(env.Valid()) ==>
                env.state.finished || Remaining(env.q.card,
                    env.state.nodes) < old(Remaining(env.q.card, env.state.nodes))
      ensures reward.Some? ==> old(nodes).Keys <= nodes.Keys && NodeAt(path, {}) && ConsistentOff(path)
      ensures reward.Some? ==> forall p :: p in nodes && !(path <= p) ==> p in old(nodes) && nodes[p] == old(nodes)[p]
      decreases N() - |path|, 0
    {
      hide NodeOk, Unjoined, Recommended, Remaining, IsOrder, Tables, Distinct, InBounds, SameStatistics, HasParents;
      hide SameEverywhere, SameOutside, IsCredited, IsChild, GrowsByOne, IsExpansion, IsExecution, Credits;
      hide JoinEnvironment.Valid, JoinEnvironment.Configured, JoinEnvironment.Now;
      var tables := Unjoined(|env.q.card|, Tables(env.prefix + path));
      ActionCount(env.prefix + path, |env.q.card|);
      if |tables| == 0 {
        reward, run, update := ExecuteLeaf(path);
        return;
      }
      var action, child := Expand(path, tables);
      ghost var expanded := nodes;
      reward, run, update := Evaluate(child);
      if reward.Some? {
        ghost var evaluated := nodes;
        UpdateStatistics(path, action, reward.value);
        Credited(old(nodes), expanded, evaluated, nodes, path, child, action, order, reward.value, roundCtr);
      }
    }

    /** A leaf has no actions: the order is complete. */
    method ExecuteLeaf(path: seq<nat>) returns (reward: Option<real>, ghost run: Run, ghost update: UpdateStatus)
      requires env.Configured() && !env.state.finished
      requires Ready() && PathOk(path) && env.prefix + path <= order && |env.prefix + path| == N()
      modifies env.state, env.engine
      ensures env.Configured() && (reward.Some? ==> reward.value >= 0.0)
      ensures old(env.engine.emitted) <= env.engine.emitted &&
              IsExecution(env.q, env.budget, order, old(env.Now()), env.Now(), reward, run, update)
      ensures old(env.Valid()) ==> env.Valid() && reward.Some?
      ensures old(env.Valid()) ==>
                env.state.finished || Remaining(env.q.card,
                    env.state.nodes) < old(Remaining(env.q.card, env.state.nodes))
      ensures reward.Some? ==> Credits(env.prefix, nodes, nodes, path, order, reward.value)
      ensures GrowsByOne(nodes, nodes, path, roundCtr)
    {
      hide Remaining, IsOrder, Distinct, InBounds, GrowsByOne;
      hide JoinEnvironment.Valid, JoinEnvironment.Configured, JoinEnvironment.Now, IsExecution, Credits;
      assert env.prefix + path == order;
      DistinctIsOrder(order, |env.q.card|);
      reward, run, update := env.Execute(order);
      NothingGrows(nodes, path, roundCtr);
      if reward.Some? { EndOfOrder(env.prefix, nodes, path, order, reward.value); }
    }

    /** Selects an action at `path` and extends the order by its table. */
    method Expand(path: seq<nat>, tables: seq<nat>) returns (action: nat, child: seq<nat>)
      requires Ready() && path in nodes && PathOk(path) && NodeAt(path, {}) && ConsistentOff(path)
      requires env.prefix + path <= order && tables == Unjoined(N(), Joined(path)) && 0 < |tables|
      modifies this`order, this`nodes
      ensures Ready() && action < |tables| && child == path + [tables[action]] && PathOk(child)
      ensures env.prefix + child <= order && IsChild(path, action, child)
      ensures IsExpansion(old(nodes), nodes, path, child, roundCtr) && nodes.Keys <= old(nodes).Keys + {child}
      ensures SameEverywhere(old(nodes), nodes)
      ensures old(nodes).Keys <= nodes.Keys && NodeAt(path, {action}) && ConsistentOff(path)
      ensures forall p :: p in old(nodes) && p != path ==> nodes[p] == old(nodes)[p]
    {
      hide NodeOk, Unjoined, Recommended, Tables, SameStatistics, HasParents, Distinct, InBounds;
      ghost var before := nodes;
      action := SelectAction(path);
      ghost var selected := nodes;
      OneChanged(before, selected, path, roundCtr);
      ActionTable(|env.q.card|, Tables(env.prefix + path), action);
      child := path + [tables[action]];
      Descend(path, tables[action]);
      forall p ensures SameStatistics(before, nodes, p) {
        assert SameStatistics(before, selected, p) && SameStatistics(selected, nodes, p);
        SameTwice(before, selected, nodes, p);
      }
    }

    /** One round; the tree is forgotten after rounds 10, 100, 1000, ... when so configured.  There is no
        reward when the episode threw. */
    method Act() returns (reward: Option<real>, ghost run: Run, ghost update: UpdateStatus)
      requires env.Configured() && !env.state.finished
      requires Ready() && [] in nodes && NodeAt([], {}) && ConsistentOff([]) && env.prefix <= order
      modifies this, env.state, env.engine
      ensures Ready() && env.Configured() && (reward.Some? ==> reward.value >= 0.0) && env.prefix <= order
      ensures IsExecution(env.q, env.budget, order, old(env.Now()), env.Now(), reward, run, update)
      ensures roundCtr == old(roundCtr) + 1 && shouldForget == old(shouldForget)
      ensures reward.Some? ==>
                if shouldForget && roundCtr == old(nextForget) then
                  nodes.Keys == {[]} && SameStatistics(map[], nodes, []) && nextForget == old(nextForget) * 10
                else
                  && Credits(env.prefix, old(nodes), nodes, [], order, reward.value)
                  && GrowsByOne(old(nodes), nodes, [], roundCtr) && nextForget == old(nextForget)
      ensures reward.Some? ==> [] in nodes && NodeAt([], {}) && ConsistentOff([])
      ensures old(env.Valid()) ==> env.Valid() && reward.Some?
      ensures old(env.Valid()) ==>
                env.state.finished || Remaining(env.q.card,
                    env.state.nodes) < old(Remaining(env.q.card, env.state.nodes))
    {
      hide NodeOk, Unjoined, Recommended, Remaining, IsOrder, Tables, JoinEnvironment.Valid, JoinEnvironment.Configured;
      hide Distinct, JoinEnvironment.Now, IsExecution, Credits, SameStatistics, InBounds, HasParents, GrowsByOne;
      LaterRound(nodes, roundCtr);
      roundCtr := roundCtr + 1;
      assert env.prefix + [] == env.prefix;
      reward, run, update := Sample([]);
      if reward.Some? && shouldForget && roundCtr == nextForget {
        Forget();
      }
    }

    /** Starts with a new root. */
    method Forget()
      requires PathOk([])
      modifies this`nodes, this`nextForget
      ensures nodes.Keys == {[]} && NodeAt([], {}) && ConsistentOff([]) && SameStatistics(map[], nodes, [])
      ensures nextForget == old(nextForget) * 10
    {
      hide NodeOk, Unjoined, Recommended, SameStatistics, Tables;
      nodes := map[];
      AddNode([], true);
      nextForget := nextForget * 10;
    }

    /** Samples an existing node, or plays out a new one. */
    method Evaluate(child: seq<nat>) returns (reward: Option<real>, ghost run: Run, ghost update: UpdateStatus)
      requires env.Configured() && !env.state.finished
      requires Ready() && PathOk(child) && child != [] && ConsistentOff(child[..|child| - 1])
      requires env.prefix + child <= order
      modifies this`order, this`nodes, env.state, env.engine
      ensures Ready() && env.Configured() && (reward.Some? ==> reward.value >= 0.0) && env.prefix + child <= order
      ensures old(env.engine.emitted) <= env.engine.emitted &&
              IsExecution(env.q, env.budget, order, old(env.Now()), env.Now(), reward, run, update)
      ensures reward.Some? ==> Credits(env.prefix, old(nodes), nodes, child, order, reward.value)
      ensures reward.Some? ==> GrowsByOne(old(nodes), nodes, child, roundCtr)
      ensures old(env.Valid()) ==> env.Valid() && reward.Some?
      ensures old(env.Valid()) ==>
                env.state.finished || Remaining(env.q.card,
                    env.state.nodes) < old(Remaining(env.q.card, env.state.nodes))
      ensures reward.Some? ==> old(nodes).Keys <= nodes.Keys && ConsistentOff(child[..|child| - 1])
      ensures reward.Some? ==> forall p :: p in nodes && !(child <= p) ==> p in old(nodes) && nodes[p] == old(nodes)[p]
      decreases N() - |child|, 1
    {
      hide NodeOk, Unjoined, Recommended, Remaining, IsOrder, Tables, JoinEnvironment.Valid, JoinEnvironment.Configured;
      hide Distinct, JoinEnvironment.Now, IsExecution, SameStatistics, HasParents, CreditedAt, InBounds;
      if child in nodes {
        reward, run, update := Sample(child);
        forall p | reward.Some? && p in nodes && !(p <= child[..|child| - 1])
          ensures PathOk(p) && NodeAt(p, {})
        {
          assert p <= child ==> p == child;
        }
      } else {
        reward, run, update := Playout(child);
        NothingGrows(nodes, child, roundCtr);
        forall p | child <= p ensures p !in nodes { NothingBelow(nodes, roundCtr, child, p); }
      }
    }
  }

  lemma ActionCount(path: seq<nat>, n: nat)
    requires InBounds(path, n) && Distinct(path)
    ensures |Unjoined(n, Tables(path))| == n - |path|
  {
    TablesCount(path);
    UnjoinedCount(n, Tables(path));
  }

  lemma ActionTable(n: nat, joined: set<nat>, action: nat)
    requires action < |Unjoined(n, joined)|
    ensures Unjoined(n, joined)[action] < n && Unjoined(n, joined)[action] !in joined
  {
    assert Unjoined(n, joined)[action] in Unjoined(n, joined);
  }

  lemma ChildPath(path: seq<nat>, table: nat, n: nat)
    requires InBounds(path, n) && Distinct(path) && table < n && table !in Tables(path)
    ensures InBounds(path + [table], n) && Distinct(path + [table])
    ensures |path| < n
  {
    assert forall i :: 0 <= i < |path| ==> path[i] in Tables(path);
    ActionCount(path, n);
    assert table in Unjoined(n, Tables(path));
  }

  /** The choice at one node. */
  method TakeAction(node: UctNode, actions: nat, recommended: set<nat>, explore: (nat, nat) -> real)
    returns (action: nat, node': UctNode)
    requires NodeOk(node, actions, recommended, {})
    requires (forall a :: a in recommended ==> a < actions) && exists a :: a in recommended
    requires forall v: nat, t: nat :: v >= 1 && t >= 1 ==> explore(v, t) >= 0.0
    ensures action in recommended && NodeOk(node', actions, recommended, {action})
    ensures node' == node.(priority := node'.priority)
    ensures node.priority == [] ==> node' == node && IsBest(node, explore, recommended, action)
    ensures node.priority != [] ==>
            action in node.priority && forall a :: a in node'.priority <==> a in node.priority && a != action
  {
    node' := node;
    if node.priority != [] {
      var i: int := *;
      i := i % |node.priority|;
      action := node.priority[i];
      TakenFromPriority(node, actions, recommended, i);
      node' := node.(priority := node.priority[..i] + node.priority[i + 1..]);
      return;
    }
    action := BestAction(node, actions, recommended, explore);
  }

  lemma TakenFromPriority(node: UctNode, actions: nat, recommended: set<nat>, i: nat)
    requires NodeOk(node, actions, recommended, {}) && i < |node.priority|
    ensures node.priority[i] in recommended
    ensures NodeOk(node.(priority := node.priority[..i] + node.priority[i + 1..]), actions, recommended,
            {node.priority[i]})
    ensures forall a :: a in node.priority[..i] + node.priority[i + 1..] <==>
            a in node.priority && a != node.priority[i]
  {
    hide Distinct;
    var action := node.priority[i];
    assert action in node.priority;
    RemoveAt(node.priority, i);
    var rest := node.priority[..i] + node.priority[i + 1..];
    PriorityReplaced(node, actions, recommended, action, rest);
  }

  lemma PriorityReplaced(node: UctNode, actions: nat, recommended: set<nat>, action: nat, rest: seq<nat>)
    requires NodeOk(node, actions, recommended, {}) && Distinct(rest)
    requires forall a :: a in rest <==> a in node.priority && a != action
    ensures NodeOk(node.(priority := rest), actions, recommended, {action})
  {
    hide Distinct;
    forall a | a in recommended && a < actions && a !in {action} ensures a in rest || node.tries[a] >= 1 {
      assert a !in {};
      assert a in node.priority || node.tries[a] >= 1;
    }
  }

  lemma RemoveAt(s: seq<nat>, i: nat)
    requires i < |s| && Distinct(s)
    ensures Distinct(s[..i] + s[i + 1..])
    ensures forall a :: a in s[..i] + s[i + 1..] <==> a in s && a != s[i]
  {
    var r := s[..i] + s[i + 1..];
    forall a | a in s && a != s[i] ensures a in r {
      var j :| 0 <= j < |s| && s[j] == a;
      assert r[if j < i then j else j - 1] == a;
    }
  }

  /** Mean reward plus exploration term of an action that has been tried. */
  function Quality(node: UctNode, explore: (nat, nat) -> real, a: nat): (x: real)
    requires a < |node.tries| == |node.acc| && node.tries[a] >= 1
  {
    node.acc[a] / node.tries[a] as real + explore(node.visits, node.tries[a])
  }

  /** An action that was rewarded with `x` on the average has quality `x` plus the exploration term. */
  lemma QualityIsMean(node: UctNode, explore: (nat, nat) -> real, a: nat, x: real)
    requires a < |node.tries| == |node.acc| && node.tries[a] >= 1 && node.acc[a] == x * node.tries[a] as real
    ensures Quality(node, explore, a) == x + explore(node.visits, node.tries[a])
  {
    MeanOf(node.acc[a], node.tries[a] as real, x);
  }

  lemma MeanOf(acc: real, tries: real, x: real)
    requires tries >= 1.0 && acc == x * tries
    ensures acc / tries == x
  {
    var q := acc / tries;
    assert q * tries == acc;
    assert (q - x) * tries == 0.0;
  }

  /** The action has been tried, and no tried recommended action is better. */
  ghost predicate IsBest(node: UctNode, explore: (nat, nat) -> real, recommended: set<nat>, best: nat)
  {
    && |node.tries| == |node.acc| && best < |node.tries| && node.tries[best] >= 1
    && forall a :: a in recommended && a < |node.tries| && node.tries[a] >= 1 ==>
        Quality(node, explore, a) <= Quality(node, explore, best)
  }

  /** The scan for the best recommended action.  Every recommended action has been tried, so
      nothing is divided by zero, and qualities are non-negative, so one is always found. */
  method BestAction(node: UctNode, actions: nat, recommended: set<nat>, explore: (nat, nat) -> real) returns (best: nat)
    requires NodeOk(node, actions, recommended, {}) && node.priority == []
    requires (forall a :: a in recommended ==> a < actions) && exists a :: a in recommended
    requires forall v: nat, t: nat :: v >= 1 && t >= 1 ==> explore(v, t) >= 0.0
    ensures best in recommended && IsBest(node, explore, recommended, best)
  {
    var offset: int := *;
    offset := offset % actions;
    var bestAction: int, bestQuality := -1, -1.0;
    for i := 0 to actions
      invariant bestAction == -1 ==>
                bestQuality == -1.0 && forall k :: 0 <= k < i ==> Rotated(offset, k, actions) !in recommended
      invariant bestAction != -1 ==>
                bestAction >= 0 && bestAction in recommended && bestQuality == Quality(node, explore, bestAction)
      invariant forall k :: 0 <= k < i && Rotated(offset, k, actions) in recommended ==>
                Quality(node, explore, Rotated(offset, k, actions)) <= bestQuality
    {
      var action := Rotated(offset, i, actions);
      if action in recommended {
        var mean := node.acc[action] / node.tries[action] as real;
        MeanIsNonNegative(node.acc[action], node.tries[action]);
        var quality := mean + explore(node.visits, node.tries[action]);
        if quality > bestQuality {
          bestAction, bestQuality := action, quality;
        }
      }
    }
    if bestAction == -1 {
      RotationCovers(offset, actions, recommended);
    }
    best := bestAction;
    forall a | a in recommended && a < actions ensures Quality(node, explore, a) <= Quality(node, explore, best) {
      var k := RotationOf(offset, actions, a);
    }
  }

  lemma RotationOf(offset: int, actions: nat, a: nat) returns (k: int)
    requires 0 <= offset < actions && a < actions
    ensures 0 <= k < actions && Rotated(offset, k, actions) == a
  {
    k := if a >= offset then a - offset else a - offset + actions;
  }

  lemma MeanIsNonNegative(acc: real, tries: nat)
    requires acc >= 0.0 && tries >= 1
    ensures acc / tries as real >= 0.0
  {
  }

  function Rotated(offset: int, k: int, actions: nat): (a: nat)
    requires 0 <= offset < actions && 0 <= k < actions
  {
    if offset + k < actions then offset + k else offset + k - actions
  }

  lemma RotationCovers(offset: int, actions: nat, recommended: set<nat>)
    requires 0 <= offset < actions && (forall a :: a in recommended ==> a < actions) && exists a :: a in recommended
    ensures exists k :: 0 <= k < actions && Rotated(offset, k, actions) in recommended
  {
    var a :| a in recommended;
    var k := RotationOf(offset, actions, a);
  }

  /** The table at this position is connected to those before it, if any missing table is. */
  ghost predicate ConnectedIfPossible(n: nat, connections: set<(nat, nat)>, order: seq<nat>, pos: nat)
    requires pos < |order|
  {
    var joined := Tables(order[..pos]);
    (exists t: nat :: t < n && t !in joined && IsConnected(connections, joined, t)) ==>
      IsConnected(connections, joined, order[pos])
  }

  lemma SameChoices(n: nat, connections: set<(nat, nat)>, order: seq<nat>, order': seq<nat>, from: nat, pos: nat)
    requires from <= pos < |order| == |order'| && order'[..pos] == order[..pos]
    requires forall k :: from <= k < pos ==> ConnectedIfPossible(n, connections, order, k)
    ensures forall k :: from <= k < pos ==> ConnectedIfPossible(n, connections, order', k)
  {
    forall k | from <= k < pos ensures ConnectedIfPossible(n, connections, order', k) {
      assert order'[..pos][..k] == order'[..k] && order[..pos][..k] == order[..k];
      assert order'[..pos][k] == order'[k] && order[..pos][k] == order[k];
      assert ConnectedIfPossible(n, connections, order, k);
    }
  }

  /** Fills the order from position `from` on with the tables that are still missing. */
  method CompleteOrder(n: nat, connections: set<(nat, nat)>, order0: seq<nat>, from: nat) returns (order: seq<nat>)
    requires |order0| == n && from <= n && InBounds(order0[..from], n) && Distinct(order0[..from])
    ensures |order| == n && order[..from] == order0[..from] && InBounds(order, n) && Distinct(order)
    ensures forall pos :: from <= pos < n ==> ConnectedIfPossible(n, connections, order, pos)
  {
    hide InBounds, Distinct;
    order := order0;
    var joined := Tables(order[..from]);
    var unjoined := Shuffle(Unjoined(n, joined));
    for pos := from to n
      invariant |order| == n && order[..from] == order0[..from]
      invariant InBounds(order[..pos], n) && Distinct(order[..pos]) && joined == Tables(order[..pos])
      invariant forall t: nat :: t < n ==> t in joined || t in unjoined
      invariant forall t: nat :: t in unjoined ==> t < n
      invariant forall k :: from <= k < pos ==> ConnectedIfPossible(n, connections, order, k)
    {
      SomeTableLeft(n, order[..pos]);
      var table := NextTable(connections, joined, unjoined);
      ExtendPrefix(n, order, pos, table);
      SameChoices(n, connections, order, order[pos := table], from, pos);
      order := order[pos := table];
      joined := joined + {table};
    }
    assert order[..n] == order;
  }

  lemma SomeTableLeft(n: nat, path: seq<nat>)
    requires InBounds(path, n) && Distinct(path) && |path| < n
    ensures exists t: nat :: t < n && t !in Tables(path)
  {
    TablesCount(path);
    UnjoinedCount(n, Tables(path));
    assert Unjoined(n, Tables(path))[0] in Unjoined(n, Tables(path));
  }

  lemma ExtendPrefix(n: nat, order: seq<nat>, pos: nat, table: nat)
    requires pos < |order| && table < n && InBounds(order[..pos], n) && Distinct(order[..pos]) &&
             table !in Tables(order[..pos])
    ensures var order' := order[pos := table];
            && order'[..pos] == order[..pos] && InBounds(order'[..pos + 1], n) && Distinct(order'[..pos + 1])
            && Tables(order'[..pos + 1]) == Tables(order[..pos]) + {table}
  {
    var order' := order[pos := table];
    assert order'[..pos] == order[..pos] && order'[..pos + 1] == order[..pos] + [table];
    assert forall i :: 0 <= i < pos ==> order[..pos][i] in Tables(order[..pos]);
    TablesOfPrefix(order', pos);
  }

  /** A random permutation: any sequence with the same elements. */
  method Shuffle(s: seq<nat>) returns (r: seq<nat>)
    ensures multiset(r) == multiset(s)
    ensures forall t :: t in r <==> t in s
  {
    r := s;
    var swaps: int := *;
    for i := 0 to if swaps > 0 then swaps else 0
      invariant |r| == |s| && multiset(r) == multiset(s)
    {
      var j: int, k: int := *, *;
      if 0 <= j < |r| && 0 <= k < |r| {
        r := r[j := r[k]][k := r[j]];
      }
    }
    assert forall t :: t in r <==> t in multiset(r);
    assert forall t :: t in s <==> t in multiset(s);
  }

  /** The first table not yet joined that is connected, or else the first not yet joined. */
  method NextTable(connections: set<(nat, nat)>, joined: set<nat>, unjoined: seq<nat>) returns (table: nat)
    requires exists t :: t in unjoined && t !in joined
    ensures table in unjoined && table !in joined
    ensures (exists t :: t in unjoined && t !in joined && IsConnected(connections, joined, t)) ==>
            IsConnected(connections, joined, table)
  {
    table := 0;
    for i := 0 to |unjoined|
      invariant forall j :: 0 <= j < i ==> unjoined[j] in joined || !IsConnected(connections, joined, unjoined[j])
    {
      if unjoined[i] !in joined && IsConnected(connections, joined, unjoined[i]) {
        return unjoined[i];
      }
    }
    for i := 0 to |unjoined|
      invariant forall j :: 0 <= j < i ==> unjoined[j] in joined
    {
      if unjoined[i] !in joined {
        return unjoined[i];
      }
    }
    assert false;
  }

  /** The adaptive join: for every way of choosing orders it ends, and its output lists each
      matching vector exactly once and nothing else. */
  method ExecutePermutableSkinnerJoin(q: Query, connections: set<(nat, nat)>, prefix: seq<nat>, budget: int,
                                      exploration: (nat, nat) -> real, forget: bool) returns (output: seq<seq<int>>)
    requires WellShaped(q) && 0 < |q.card| && FlagsFor(q, prefix)
    requires forall t :: 0 <= t < |q.card| ==> 0 <= q.card[t]
    requires InBounds(prefix, |q.card|) && Distinct(prefix)
    requires budget >= 2 * |q.card|
    requires forall v: nat, t: nat :: v >= 1 && t >= 1 ==> exploration(v, t) >= 0.0
    ensures forall v :: v in output <==> InRange(q.card, v) && Matches(q, v)
    ensures forall i, j :: 0 <= i < j < |output| ==> output[i] != output[j]
  {
    for i := 0 to |q.card|
      invariant forall t :: 0 <= t < i ==> 0 < q.card[t]
    {
      if q.card[i] == 0 {
        EmptyCross(q.card, i);
        return [];
      }
    }
    PrefixFits(prefix, |q.card|);
    var env := new JoinEnvironment(q, prefix, budget);
    var agent := new UctJoinAgent(env, connections, exploration, forget);
    while !env.state.finished
      invariant agent.env == env && env.q == q && env.prefix == prefix && env.Valid() && fresh(env.state) &&
                fresh(env.engine)
      invariant fresh(agent) && agent.Ready() && [] in agent.nodes && agent.NodeAt([], {}) &&
                agent.ConsistentOff([]) && prefix <= agent.order
      decreases !env.state.finished, Remaining(q.card, env.state.nodes)
    {
      ghost var run, update;
      var reward;
      reward, run, update := agent.Act();
    }
    output := env.engine.output;
  }

  /** An empty table leaves no combination of rows. */
  lemma EmptyCross(card: seq<int>, i: nat)
    requires i < |card| && card[i] <= 0
    ensures forall v :: !InRange(card, v)
  {
    forall v ensures !InRange(card, v) {
      if |v| == |card| { assert !(0 <= v[i] < card[i]); }
    }
  }

  lemma PrefixFits(prefix: seq<nat>, n: nat)
    requires InBounds(prefix, n) && Distinct(prefix)
    ensures |prefix| <= n
  {
    ActionCount(prefix, n);
  }
}
