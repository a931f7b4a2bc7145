/**
 How much budget an episode needs: twice the number of tables, and not one unit less.

 With at most one unit per table the first episode gives up before its first vector, and the vector
 before that is the last one of all, so the join ends with nothing.  With more, but less than two
 units per table, every episode can be used up by repeating the vector it resumes at.
 */
module SmallBudgets {
  import opened Wrappers
  import opened Vectors
  import opened ProgressTrees
  import opened JoinStates
  import opened PredicateFlags
  import opened JoinCode
  import opened JoinScan
  import opened JoinEngine
  import opened SkinnerJoin

  function Zero(n: nat): (v: seq<int>)
  {
    seq(n, _ => 0)
  }

  /** There are no predicates, no offset has been raised, and the episode starts afresh or resumes at the first
      vector. */
  ghost predicate FromZero(e: Episode, resume: bool)
  {
    && EpisodeOk(e) && e.q.preds == []
    && (forall t :: 0 <= t < |e.offset| ==> e.offset[t] == -1)
    && (resume ==> e.p == Zero(|e.q.card|))
  }

  /** The rows at positions `from` to `to` of the order are zero. */
  ghost predicate ZeroAt(order: seq<nat>, idx: seq<int>, from: nat, to: nat)
    requires InBounds(order, |idx|) && to <= |order|
  {
    forall j :: from <= j < to ==> idx[order[j]] == 0
  }

  // ----- what the compiled code does -----

  /** Every table starts with row 0. */
  lemma StartsAtRowZero(e: Episode, k: nat, idx: seq<int>, left: int, resume: bool, visited: seq<seq<int>>)
    requires FromZero(e, resume) && ScanOk(e, k, idx) && k < |e.order|
    ensures ScanTable(e, k, idx, left, resume, visited) == ScanRows(e, k, idx, 0, left, resume, visited)
  {
  }

  /** Too little budget for a single vector: the code gives up before reaching the last table. */
  lemma {:induction false} StopsOnTheWayDown(e: Episode, k: nat, idx: seq<int>, left: int, resume: bool,
                                             visited: seq<seq<int>>)
    requires FromZero(e, resume) && ScanOk(e, k, idx) && 1 <= left <= |e.order| - k
    ensures var r := ScanTable(e, k, idx, left, resume, visited);
            && r.ret == -2 && r.depth == k + left - 1 && r.visited == visited
            && Same(e.order, k, r.idx, idx) && ZeroAt(e.order, r.idx, k, k + left)
    decreases left
  {
    StartsAtRowZero(e, k, idx, left, resume, visited);
    ScanStep(e, k, idx, 0, left, resume, visited);
    if left > 1 {
      StopsOnTheWayDown(e, k + 1, idx[e.order[k] := 0], left - 1, resume, visited);
    }
  }

  /** The first vector has its only successor at position `d`: all later tables have one row. */
  ghost predicate CarriesAt(card: seq<int>, order: seq<nat>, d: nat)
    requires IsOrder(order, |card|)
  {
    d < |order| && 1 < card[order[d]] && forall j :: d < j < |order| ==> card[order[j]] == 1
  }

  /** Below position `d` there is one vector, at the price of one unit per table. */
  lemma {:induction false} OneVector(e: Episode, d: nat, k: nat, idx: seq<int>, left: int, resume: bool,
                                     visited: seq<seq<int>>)
    requires FromZero(e, resume) && ScanOk(e, k, idx) && CarriesAt(e.q.card, e.order, d)
    requires d < k && |e.order| - k < left
    ensures var r := ScanTable(e, k, idx, left, resume, visited);
            && r.ret == left - (|e.order| - k) && r.visited == visited + [r.idx]
            && Same(e.order, k, r.idx, idx) && ZeroAt(e.order, r.idx, k, |e.order|)
    decreases |e.order| - k
  {
    if k < |e.order| {
      StartsAtRowZero(e, k, idx, left, resume, visited);
      ScanStep(e, k, idx, 0, left, resume, visited);
      OneVector(e, d, k + 1, idx[e.order[k] := 0], left - 1, resume, visited);
      var r := ScanTable(e, k + 1, idx[e.order[k] := 0], left - 1, resume, visited);
      ScanEnd(e, k, r.idx, r.ret, false, r.visited);
    }
  }

  /** The code gave up on the way to the second vector, having visited the first. */
  ghost predicate StopsAtSecond(e: Episode, d: nat, k: nat, idx: seq<int>, visited: seq<seq<int>>, r: Scan)
    requires ScanOk(e, k, idx) && d < |e.order| && |r.idx| == |idx|
  {
    && r.ret == -2 && d <= r.depth < |e.order|
    && Same(e.order, k, r.idx, idx) && ZeroAt(e.order, r.idx, k, d)
    && r.idx[e.order[d]] == 1 && ZeroAt(e.order, r.idx, d + 1, r.depth + 1)
    && (ZeroAt(e.order, idx, 0, k) ==> r.visited == visited + [Zero(|e.q.card|)])
  }

  lemma ZeroEverywhere(order: seq<nat>, v: seq<int>)
    requires IsOrder(order, |v|) && ZeroAt(order, v, 0, |order|)
    ensures v == Zero(|v|)
  {
    forall t: nat | t < |v| ensures v[t] == 0 {
      assert t in order;
      var j :| 0 <= j < |order| && order[j] == t;
    }
  }

  /** At position `d` the first row takes its vector, and the second row gets no further. */
  lemma SecondRowStops(e: Episode, d: nat, idx: seq<int>, left: int, resume: bool, visited: seq<seq<int>>)
    requires FromZero(e, resume) && CarriesAt(e.q.card, e.order, d) && ScanOk(e, d, idx)
    requires |e.order| - d < left <= 2 * (|e.order| - d)
    ensures StopsAtSecond(e, d, d, idx, visited, ScanTable(e, d, idx, left, resume, visited))
  {
    hide ScanTable, ScanRows, CarriesAt;
    var order, n := e.order, |e.order|;
    var t := order[d];
    assert 1 < e.q.card[t] by { CarryHasTwoRows(e.q.card, order, d); }
    StartsAtRowZero(e, d, idx, left, resume, visited);
    ScanStep(e, d, idx, 0, left, resume, visited);
    OneVector(e, d, d + 1, idx[t := 0], left - 1, resume, visited);
    var r := ScanTable(e, d + 1, idx[t := 0], left - 1, resume, visited);
    assert r.ret == left - (n - d);
    if ZeroAt(order, idx, 0, d) {
      ZeroEverywhere(order, r.idx);
    }
    ScanStep(e, d, r.idx, 1, r.ret, false, r.visited);
    if r.ret > 1 {
      StopsOnTheWayDown(e, d + 1, r.idx[t := 1], r.ret - 1, false, r.visited);
    }
  }

  lemma CarryHasTwoRows(card: seq<int>, order: seq<nat>, d: nat)
    requires IsOrder(order, |card|) && CarriesAt(card, order, d)
    ensures d < |order| && 1 < card[order[d]]
  {
  }

  lemma {:induction false} SecondVectorStops(e: Episode, d: nat, k: nat, idx: seq<int>, left: int, resume: bool,
                                             visited: seq<seq<int>>)
    requires FromZero(e, resume) && CarriesAt(e.q.card, e.order, d) && ScanOk(e, k, idx) && k <= d
    requires |e.order| - k < left <= 2 * |e.order| - d - k
    ensures StopsAtSecond(e, d, k, idx, visited, ScanTable(e, k, idx, left, resume, visited))
    decreases d - k
  {
    if k == d {
      SecondRowStops(e, d, idx, left, resume, visited);
    } else {
      StartsAtRowZero(e, k, idx, left, resume, visited);
      ScanStep(e, k, idx, 0, left, resume, visited);
      SecondVectorStops(e, d, k + 1, idx[e.order[k] := 0], left - 1, resume, visited);
    }
  }

  // ----- what the join makes of it -----

  /** The vector before the second one is the first. */
  lemma StoppedAtFirst(card: seq<int>, order: seq<nat>, d: nat, c: nat, idx: seq<int>, last: seq<int>)
    requires IsOrder(order, |card|) && |idx| == |card| && CarriesAt(card, order, d) && d <= c < |order|
    requires ZeroAt(order, idx, 0, d) && idx[order[d]] == 1 && ZeroAt(order, idx, d + 1, c + 1)
    requires IsLast(order, card, -2, c, idx, last)
    ensures last == Zero(|card|)
  {
    var w, u := View(order, Padded(order, c, idx)), View(order, last);
    assert IsBefore(order, card, c, idx, last);
    var b: nat :| b <= c && IsPredecessor(View(order, card), w, u, b);
    assert forall j :: 0 <= j < |order| ==> w[j] == if j == d then 1 else 0;
    assert b == d;
    assert forall j :: 0 <= j < |order| ==> u[j] == last[order[j]];
    ZeroEverywhere(order, last);
  }

  /** The tree is empty, or the order has stored the first vector. */
  ghost predicate AtFirst(card: seq<int>, nodes: Tree, order: seq<nat>)
    requires IsOrder(order, |card|)
  {
    nodes == map[] || (Stored(nodes, order, |order|) && Vals(nodes, order, |order|) == View(order, Zero(|card|)))
  }

  lemma OnlyZeroIsFirst(card: seq<int>, order: seq<nat>, v: seq<int>)
    requires IsOrder(order, |card|) && InRange(card, v) && LexLe(View(order, v), View(order, Zero(|card|)))
    ensures v == Zero(|card|)
  {
    LexTotal(View(order, v), View(order, Zero(|card|)));
    assert View(order, v) == View(order, Zero(|card|));
    forall j | 0 <= j < |order| ensures v[order[j]] == 0 {
      assert View(order, v)[j] == View(order, Zero(|card|))[j];
    }
    ZeroEverywhere(order, v);
  }

  /** Hence an episode starts afresh or resumes at the first vector. */
  lemma ResumesAtFirst(e: Episode, nodes: Tree, r: Option<seq<int>>)
    requires EpisodeOk(e) && e.q.preds == [] && Resumption(e, nodes, r) && AtFirst(e.q.card, nodes, e.order)
    requires forall t :: 0 <= t < |e.offset| ==> e.offset[t] == -1
    ensures FromZero(e, r.Some?)
    ensures nodes == map[] ==> r.None?
  {
    if r.Some? {
      LexTotal(View(e.order, e.p), View(e.order, e.p));
      assert AtOrBefore(e.order, e.p, r);
      assert Behind(nodes, e.order, e.p);
      if nodes != map[] {
        StoredIsShallow(nodes, e.order, |e.order|);
        assert e.order[..|e.order|] == e.order;
        OnlyZeroIsFirst(e.q.card, e.order, e.p);
      }
    }
  }

  /** Recording the first vector again changes nothing of this. */
  lemma FirstIsRecorded(card: seq<int>, order: seq<nat>, d: nat, nodes: Tree, offset: seq<int>, update: UpdateStatus,
                        finished': bool, nodes': Tree, offset': seq<int>)
    requires IsOrder(order, |card|) && 0 < d && CarriesAt(card, order, d) && InRange(card, Zero(|card|))
    requires AtFirst(card, nodes, order) && |offset| == |card| && forall t :: 0 <= t < |offset| ==> offset[t] == -1
    requires IsUpdate(card, false, nodes, offset, order, Zero(|card|), update, finished', nodes', offset')
    ensures !finished' && update.Advanced? && AtFirst(card, nodes', order) && offset' == offset
  {
    var f := Zero(|card|);
    assert f[order[d]] != card[order[d]] - 1;
    FirstIsAccepted(card, nodes, order);
    AdvanceOnPath(nodes, order, f, nodes', |order|);
    assert order[..|order|] == order;
  }

  lemma FirstIsAccepted(card: seq<int>, nodes: Tree, order: seq<nat>)
    requires IsOrder(order, |card|) && AtFirst(card, nodes, order)
    ensures !Regresses(nodes, order, Zero(|card|))
  {
    if nodes != map[] {
      StoredIsShallow(nodes, order, |order|);
      assert order[..|order|] == order;
    }
  }

  lemma ZeroInRange(q: Query)
    requires WellFormed(q)
    ensures InRange(q.card, Zero(|q.card|))
  {
  }

  lemma EverythingMatches(q: Query, v: seq<int>)
    requires q.preds == []
    ensures Matches(q, v)
  {
  }

  /** An episode that starts afresh and cannot reach the first vector. */
  lemma FirstIsMissed(q: Query, budget: int, order: seq<nat>, before: Snapshot, after: Snapshot,
                      reward: Option<real>, run: Run, update: UpdateStatus)
    requires WellFormed(q) && q.preds == [] && IsOrder(order, |q.card|) && 1 <= budget <= |q.card|
    requires !before.finished && before.nodes == map[] && before.output == []
    requires forall t :: 0 <= t < |before.offset| ==> before.offset[t] == -1
    requires IsExecution(q, budget, order, before, after, reward, run, update)
    ensures after.finished && after.output == []
  {
    hide WellFormed, IsUpdate, ScanTable, IsAdvance, IsTree, OffsetsLead, Suits, Regresses, VisitsMatches, Resumption;
    var e := Episode(q, order, before.offset, run.initial);
    assert AtFirst(q.card, before.nodes, order);
    ResumesAtFirst(e, before.nodes, run.resumeAt);
    NoPredicatesNoBuckets(e);
    StopsOnTheWayDown(e, 0, run.base, budget, false, []);
    assert run.visited == [];
    FinishedByMaximal(q.card, before.nodes, before.offset, order, run.last, update, after.finished, after.nodes,
        after.offset);
  }

  /** With at most one unit per table every join without predicates ends after one episode, and ends
      empty although every vector matches. */
  method EndsTooEarly(q: Query, order: seq<nat>, budget: int) returns (env: JoinEnvironment)
    requires WellFormed(q) && q.preds == [] && IsOrder(order, |q.card|)
    requires 1 <= budget <= |q.card|
    ensures env.q == q && env.prefix == order && env.budget == budget
    ensures env.state.finished && env.engine.output == []
    ensures InRange(q.card, Zero(|q.card|)) && Matches(q, Zero(|q.card|))
  {
    hide WellFormed, OutputOk, Counted, FlagsFor, IsTree, OffsetsLead, IsExecution;
    ZeroInRange(q);
    EverythingMatches(q, Zero(|q.card|));
    env := new JoinEnvironment(q, order, budget);
    ghost var before := env.Now();
    ghost var run;
    var reward, update;
    reward, run, update := env.Execute(order);
    FirstIsMissed(q, budget, order, before, env.Now(), reward, run, update);
  }

  lemma FinishedByMaximal(card: seq<int>, nodes: Tree, offset: seq<int>, order: seq<nat>, last: seq<int>,
                          update: UpdateStatus,
                          finished': bool, nodes': Tree, offset': seq<int>)
    requires IsOrder(order, |card|) && 0 < |card| && InRange(card, last) && |offset| == |card|
    requires IsUpdate(card, false, nodes, offset, order, last, update, finished', nodes', offset')
    ensures IsMaximal(card, last) ==> finished'
  {
  }

  /** Otherwise, unless there is as much budget as it takes to repeat the first vector and then reach
      the second, no number of episodes gets beyond the first vector. */
  method NeverEnds(q: Query, order: seq<nat>, d: nat, budget: int, episodes: nat) returns (env: JoinEnvironment)
    requires WellFormed(q) && q.preds == [] && IsOrder(order, |q.card|)
    requires 0 < d && CarriesAt(q.card, order, d)
    requires |q.card| < budget <= 2 * |q.card| - d
    ensures env.q == q && env.prefix == order && env.budget == budget
    ensures !env.state.finished && env.engine.emitted <= {Zero(|q.card|)}
    ensures exists v :: InRange(q.card, v) && Matches(q, v) && v != Zero(|q.card|)
  {
    hide OutputOk, Counted, IsTree, OffsetsLead, FlagsFor;
    env := new JoinEnvironment(q, order, budget);
    for i := 0 to episodes
      invariant env.q == q && env.prefix == order && env.budget == budget && env.Configured()
      invariant fresh(env.state) && fresh(env.engine)
      invariant !env.state.finished && env.engine.emitted <= {Zero(|q.card|)}
      invariant AtFirst(q.card, env.state.nodes, order)
      invariant forall t :: 0 <= t < |env.state.offset| ==> env.state.offset[t] == -1
    {
      RepeatFirst(env, d);
    }
    var second := Zero(|q.card|)[order[d] := 1];
    ZeroInRange(q);
    EverythingMatches(q, second);
    assert InRange(q.card, second) && second[order[d]] != Zero(|q.card|)[order[d]];
  }

  /** An episode that starts afresh or at the first vector and cannot reach the second one. */
  lemma FirstIsRepeated(q: Query, budget: int, order: seq<nat>, d: nat, before: Snapshot, after: Snapshot,
                        reward: Option<real>, run: Run, update: UpdateStatus)
    requires WellFormed(q) && q.preds == [] && IsOrder(order, |q.card|) && 0 < d && CarriesAt(q.card, order, d)
    requires |q.card| < budget <= 2 * |q.card| - d && !before.finished && AtFirst(q.card, before.nodes, order)
    requires forall t :: 0 <= t < |before.offset| ==> before.offset[t] == -1
    requires IsExecution(q, budget, order, before, after, reward, run, update)
    ensures !after.finished && AtFirst(q.card, after.nodes, order) && after.offset == before.offset
    ensures after.emitted == before.emitted + {Zero(|q.card|)}
  {
    hide WellFormed, IsUpdate, ScanTable, IsAdvance, IsTree, OffsetsLead, Suits, Regresses, AtFirst, CarriesAt, IsLast;
    hide VisitsMatches, Resumption, New;
    var e := Episode(q, order, before.offset, run.initial);
    ResumesAtFirst(e, before.nodes, run.resumeAt);
    CarryHasTwoRows(q.card, order, d);
    SecondVectorStops(e, d, 0, run.base, budget, run.resumeAt.Some?, []);
    assert run.visited == [Zero(|q.card|)];
    StoppedAtFirst(q.card, order, d, run.depth, after.idx, run.last);
    ZeroInRange(q);
    FirstIsRecorded(q.card, order, d, before.nodes, before.offset, update, after.finished, after.nodes, after.offset);
  }

  method RepeatFirst(env: JoinEnvironment, d: nat)
    requires env.Configured() && !env.state.finished && env.q.preds == [] && IsOrder(env.prefix, |env.q.card|)
    requires 0 < d && CarriesAt(env.q.card, env.prefix, d) && |env.q.card| < env.budget <= 2 * |env.q.card| - d
    requires AtFirst(env.q.card, env.state.nodes, env.prefix)
    requires forall t :: 0 <= t < |env.state.offset| ==> env.state.offset[t] == -1
    modifies env.state, env.engine
    ensures env.Configured() && !env.state.finished && AtFirst(env.q.card, env.state.nodes, env.prefix)
    ensures env.state.offset == old(env.state.offset)
    ensures env.engine.emitted == old(env.engine.emitted) + {Zero(|env.q.card|)}
  {
    hide WellFormed, AtFirst, CarriesAt, OutputOk, Counted, FlagsFor, IsTree, OffsetsLead, IsExecution;
    ghost var run;
    var reward, update;
    reward, run, update := env.Execute(env.prefix);
    FirstIsRepeated(env.q, env.budget, env.prefix, d, old(env.Now()), env.Now(), reward, run, update);
  }

  // ----- the exact bound -----

  /** An outcome of the first table function of an episode: it starts at a resume point that the offsets
      lead, and without predicates it is the outcome of the compiled code. */
  ghost predicate TopOutcome(e: Episode, base: seq<int>, budget: int, resume: bool, ret: int, c: nat, idx: seq<int>,
                             visited: seq<seq<int>>)
  {
    && EpisodeOk(e) && |base| == |idx| == |e.q.card|
    && (resume ==> InRange(e.q.card, e.p))
    && (resume && LastOfPrefix(e, 1) ==> e.p[e.order[0]] <= e.offset[e.order[0]])
    && Outcome(e, 0, base, budget, resume, ret, c, idx, set v | v in visited)
    && (NeverRepeats(e) ==> Follows(ScanTable(e, 0, base, budget, resume, []), ret, c, idx, visited))
  }

  /** Every interrupted episode over `n` tables accounts for a vector beyond its resume point. */
  ghost predicate AlwaysGains(n: nat, budget: int)
  {
    forall e, base, resume, ret, c, idx, visited ::
      TopOutcome(e, base, budget, resume, ret, c, idx, visited) && |e.q.card| == n && ret < 0 ==>
        Gained(e, 0, base, c, ret, idx, resume)
  }

  /** The least budget with which every episode makes progress is two units per table. */
  lemma BudgetIsExact(n: nat, budget: int)
    requires 1 <= n && 1 <= budget
    ensures AlwaysGains(n, budget) <==> budget >= 2 * n
  {
    if budget <= n {
      NoGainBeforeFirst(n, budget);
    } else if budget < 2 * n {
      NoGainBeyondFirst(n, budget);
    } else {
      forall e, base, resume, ret, c, idx, visited |
        TopOutcome(e, base, budget, resume, ret, c, idx, visited) && |e.q.card| == n && ret < 0
        ensures Gained(e, 0, base, c, ret, idx, resume)
      {
        assert budget > Slack(e, 0, resume);
      }
    }
  }

  /** The query without predicates over `n` tables of one row each, except that table `wide` has two. */
  function CrossProduct(n: nat, wide: nat): (q: Query)
    requires 0 < n
    ensures WellFormed(q) && |q.card| == n && q.preds == []
  {
    Query(seq(n, t => if t == wide then 2 else 1), [], map[], 0)
  }

  function Ascending(n: nat): (order: seq<nat>)
  {
    seq(n, i requires 0 <= i < n => i)
  }

  lemma AscendingIsOrder(n: nat)
    ensures IsOrder(Ascending(n), n)
  {
    forall t: nat | t < n ensures t in Ascending(n) {
      assert Ascending(n)[t] == t;
    }
  }

  /** The episode over the ascending order that starts afresh or resumes at the first vector. */
  ghost function FirstEpisode(n: nat, wide: nat, resume: bool): (e: Episode)
    requires 0 < n
    ensures FromZero(e, resume) && |e.q.card| == n && e.q.preds == []
  {
    var q := CrossProduct(n, wide);
    AscendingIsOrder(n);
    FlagsSuit(q, Ascending(n), Ascending(n));
    Episode(q, Ascending(n), seq(n, _ => -1), if resume then Zero(n) else seq(n, _ => -1))
  }

  lemma NoGainBeforeFirst(n: nat, budget: int)
    requires 1 <= budget <= n
    ensures !AlwaysGains(n, budget)
  {
    var e, base := FirstEpisode(n, 0, false), Zero(n);
    var r := ScanTable(e, 0, base, budget, false, []);
    StopsOnTheWayDown(e, 0, base, budget, false, []);
    NothingBeforeZeros(e, r.depth, r.idx);
    assert Outcome(e, 0, base, budget, false, r.ret, r.depth, r.idx, set v | v in r.visited);
    assert TopOutcome(e, base, budget, false, r.ret, r.depth, r.idx, r.visited);
  }

  lemma NothingBeforeZeros(e: Episode, c: nat, idx: seq<int>)
    requires EpisodeOk(e) && c < |e.order| && |idx| == |e.q.card| && ZeroAt(e.order, idx, 0, c + 1)
    ensures forall v :: InRange(e.q.card, v) ==> !Before(e.order, c + 1, v, idx)
  {
  }

  lemma NoGainBeyondFirst(n: nat, budget: int)
    requires n < budget < 2 * n
    ensures !AlwaysGains(n, budget)
  {
    var e, base := FirstEpisode(n, 1, true), Zero(n);
    var r := ScanTable(e, 0, base, budget, true, []);
    assert CarriesAt(e.q.card, e.order, 1);
    SecondVectorStops(e, 1, 0, base, budget, true, []);
    hide ScanTable;
    NoGainAtSecond(e, 1, base, budget, r.depth, r.idx, set v | v in r.visited);
    assert TopOutcome(e, base, budget, true, r.ret, r.depth, r.idx, r.visited);
  }

  /** Resuming at the first vector and giving up on the way to the second is no gain. */
  lemma NoGainAtSecond(e: Episode, d: nat, base: seq<int>, budget: int, c: nat, idx: seq<int>, emitted: set<seq<int>>)
    requires FromZero(e, true) && 0 < d && CarriesAt(e.q.card, e.order, d) && d <= c < |e.order|
    requires |idx| == |base| == |e.q.card| && 1 <= budget < 2 * |e.q.card| && Zero(|e.q.card|) in emitted
    requires ZeroAt(e.order, idx, 0, d) && idx[e.order[d]] == 1 && ZeroAt(e.order, idx, d + 1, c + 1)
    ensures Outcome(e, 0, base, budget, true, -2, c, idx, emitted) && !Gained(e, 0, base, c, -2, idx, true)
    ensures InRange(e.q.card, e.p) && !LastOfPrefix(e, 1)
  {
    OnlyZeroBeforeSecond(e, d, c, idx);
    assert e.p[e.order[d]] < e.q.card[e.order[d]] - 1;
    assert CompleteTo(e, 0, base, c, -2, idx, true, emitted) && !Gained(e, 0, base, c, -2, idx, true) by {
      hide Matches, WellFormed, Excluded, Suits;
      assert forall v :: Extends(e, 0, base, v) && Reached(e, c, -2, idx, v) ==> v == e.p;
    }
    hide CompleteTo, Gained, LastOfPrefix, Suits;
  }

  /** Only the first vector lies before the second. */
  lemma OnlyZeroBeforeSecond(e: Episode, d: nat, c: nat, idx: seq<int>)
    requires EpisodeOk(e) && CarriesAt(e.q.card, e.order, d) && d <= c < |e.order| && |idx| == |e.q.card|
    requires ZeroAt(e.order, idx, 0, d) && idx[e.order[d]] == 1 && ZeroAt(e.order, idx, d + 1, c + 1)
    ensures forall v :: InRange(e.q.card, v) && Before(e.order, c + 1, v, idx) ==> v == Zero(|v|)
  {
    forall v | InRange(e.q.card, v) && Before(e.order, c + 1, v, idx)
      ensures v == Zero(|v|)
    {
      var j :| 0 <= j < c + 1 && v[e.order[j]] < idx[e.order[j]] && Same(e.order, j, v, idx);
      assert j == d;
      ZeroEverywhere(e.order, v);
    }
  }

  // ----- no budget at all -----

  /** The row a table function starts with. */
  function StartRow(e: Episode, k: nat, resume: bool): (row: int)
    requires k < |e.order| && InBounds(e.order, |e.p|) && |e.offset| == |e.p|
  {
    if resume && e.p[e.order[k]] > e.offset[e.order[k]] then e.p[e.order[k]] else e.offset[e.order[k]] + 1
  }

  /** Without predicates, a budget of zero or less is never used up on the way down, and what is left of it after
      the first vector is taken for the sign to stop: the code emits that vector and returns. */
  lemma {:induction false} DryRun(e: Episode, k: nat, idx: seq<int>, budget: int, resume: bool, visited: seq<seq<int>>)
    requires ScanOk(e, k, idx) && e.q.preds == [] && budget <= 0 && (resume ==> InRange(e.q.card, e.p))
    ensures var r := ScanTable(e, k, idx, budget, resume, visited);
            && r.ret == budget - (|e.order| - k) && r.depth == 0 && r.visited == visited + [r.idx]
            && Same(e.order, k, r.idx, idx)
            && (k < |e.order| ==> r.idx[e.order[k]] == StartRow(e, k, resume))
            && forall j :: k <= j < |e.order| ==> 0 <= r.idx[e.order[j]] < e.q.card[e.order[j]]
    decreases |e.order| - k
  {
    if k < |e.order| {
      var row, t := StartRow(e, k, resume), e.order[k];
      var cont := resume && e.p[t] > e.offset[t];
      assert ScanTable(e, k, idx, budget, resume, visited) == ScanRows(e, k, idx, row, budget, cont, visited);
      ScanStep(e, k, idx, row, budget, cont, visited);
      DryRun(e, k + 1, idx[t := row], budget - 1, cont, visited);
    }
  }

  /** What one episode without budget reports.  It emits one vector; unless what is left of the budget happens to
      be the code for an accepted row, it reports all vectors with the same row of the first table, and otherwise
      none of them. */
  lemma DryEpisode(e: Episode, base: seq<int>, budget: int, resume: bool, visited: seq<seq<int>>, last: seq<int>)
    requires ScanOk(e, 0, base) && e.q.preds == [] && 0 < |e.order| && budget <= 0
    requires resume ==> InRange(e.q.card, e.p)
    requires var r := ScanTable(e, 0, base, budget, resume, visited);
             |r.idx| == |e.q.card| && IsLast(e.order, e.q.card, r.ret, 0, r.idx, last)
    ensures var r := ScanTable(e, 0, base, budget, resume, visited);
            && InRange(e.q.card, r.idx) && r.visited == visited + [r.idx] && (r.ret == -2 <==> budget == |e.order| - 2)
            && (r.ret != -2 ==> BlockCompleted(e.q.card, e.order, last) && last[e.order[0]] == r.idx[e.order[0]])
            && (r.ret == -2 && r.idx[e.order[0]] == 0 ==> IsMaximal(e.q.card, last))
            && (r.ret == -2 && r.idx[e.order[0]] > 0 ==> LexLt(View(e.order, last), View(e.order, r.idx)))
  {
    hide ScanTable, WellFormed, IsPredecessor, LexLt;
    DryRun(e, 0, base, budget, resume, visited);
    var r := ScanTable(e, 0, base, budget, resume, visited);
    RangeByPosition(e.q.card, e.order, r.idx);
    if r.ret == -2 && r.idx[e.order[0]] > 0 {
      BeforeAccepted(e, r.idx, last);
    }
  }

  lemma BeforeAccepted(e: Episode, idx: seq<int>, last: seq<int>)
    requires EpisodeOk(e) && 0 < |e.order| && InRange(e.q.card, idx) && idx[e.order[0]] > 0
    requires IsLast(e.order, e.q.card, -2, 0, idx, last)
    ensures LexLt(View(e.order, last), View(e.order, idx))
  {
    var w, u, x := View(e.order, Padded(e.order, 0, idx)), View(e.order, last), View(e.order, idx);
    assert IsBefore(e.order, e.q.card, 0, idx, last);
    var b: nat :| b <= 0 && IsPredecessor(View(e.order, e.q.card), w, u, b);
    assert u[0] == w[0] - 1 && w[0] == idx[e.order[0]] == x[0];
    LexLtAt(u, x, 0);
  }

  /** The first episode without budget loses combinations as soon as a later table has two rows: one that it has not
      emitted is reported as processed. */
  lemma DryEpisodeLosesRows(q: Query, order: seq<nat>, base: seq<int>, budget: int, t: nat, last: seq<int>)
    requires WellFormed(q) && q.preds == [] && Suits(q, order) && |base| == |q.card| && budget <= 0
    requires 0 < t < |order| && 1 < q.card[order[t]]
    requires var none := seq(|q.card|, _ => -1);
             var r := ScanTable(Episode(q, order, none, none), 0, base, budget, false, []);
             |r.idx| == |q.card| && IsLast(order, q.card, r.ret, 0, r.idx, last)
    ensures var none := seq(|q.card|, _ => -1);
            exists v :: InRange(q.card, v) && Matches(q, v) && LexLe(View(order, v), View(order, last)) &&
                        v !in ScanTable(Episode(q, order, none, none), 0, base, budget, false, []).visited
  {
    var none := seq(|q.card|, _ => -1);
    var e := Episode(q, order, none, none);
    var r := ScanTable(e, 0, base, budget, false, []);
    hide ScanTable, LexLe;
    DryEpisode(e, base, budget, false, [], last);
    DryRun(e, 0, base, budget, false, []);
    var v := r.idx[order[t] := if r.idx[order[t]] == 0 then 1 else 0];
    EverythingMatches(q, v);
    assert v[order[t]] != r.idx[order[t]];
    assert v[order[0]] == r.idx[order[0]] == 0;
    if r.ret == -2 {
      MaximalIsLastInOrder(q.card, order, last);
    } else {
      FinishedRowIsExact(q.card, order, last, 0);
    }
    assert InRange(q.card, v);
  }
}
