/**
 The run-time state shared by the compiled table functions, and the functions themselves.
 */
module JoinEngine {
  import opened Vectors
  import opened PredicateFlags
  import opened JoinCode
  import opened JoinScan

  /** How many rows an index hands out at a time. */
  const BatchSize: nat := 64

  class Engine {
    const q: Query
    var flags: seq<int>
    var handlers: seq<nat>        // handler of a table: the next table, or |q.card| for a valid tuple
    var progress: seq<int>
    var offset: seq<int>
    var idx: seq<int>
    var tableCtr: nat
    var numResultTuples: int
    var emitted: set<seq<int>>    // the tuple index table
    var output: seq<seq<int>>     // tuples handed to the parent operator
    ghost var known: seq<seq<int>>    // the output when the episode began
    ghost var visited: seq<seq<int>>  // the vectors that the episode has handed to the tuple handler
    ghost var seen: set<seq<int>>     // the same as a set
    ghost var steps: nat              // the rows that the episode has looked at, and the tables it ruled out

    ghost predicate Valid()
      reads this
    {
      && WellFormed(q)
      && |handlers| == |progress| == |offset| == |idx| == |q.card|
      && |flags| == q.numFlags
      && OutputOk(q, emitted, output)
      && Counted(known, visited, seen, numResultTuples, emitted, output)
    }

    /** Flags, handlers, offsets and progress have been set up for the episode. */
    ghost predicate Ready(e: Episode)
      reads this
    {
      && EpisodeOk(e) && e.q == q && e.offset == offset
      && FlagsMatch(q, e.order, flags)
      && IsChain(e.order, handlers)
      && |progress| == |e.p|
      && (forall t :: 0 <= t < |e.p| ==> progress[t] == if offset[t] > e.p[t] then offset[t] else e.p[t])
      && MayVisitAll(e, seen)
    }

    constructor (query: Query)
      requires WellFormed(query)
      ensures Valid() && q == query && emitted == {} && output == [] && visited == []
    {
      q := query;
      flags := seq(query.numFlags, _ => 0);
      handlers := seq(|query.card|, _ => 0);
      progress := seq(|query.card|, _ => -1);
      offset := seq(|query.card|, _ => -1);
      idx := seq(|query.card|, _ => 0);
      tableCtr, numResultTuples := 0, 0;
      emitted, output := {}, [];
      known, visited, seen, steps := [], [], {}, 0;
    }

    /** Links each table's handler to the next table of the order. */
    method SetJoinOrder(order: seq<nat>)
      requires Valid() && IsOrder(order, |q.card|)
      modifies this`handlers
      ensures Valid() && IsChain(order, handlers)
    {
      for i := 0 to |order| - 1
        invariant |handlers| == |q.card|
        invariant forall j :: 0 <= j < i ==> handlers[order[j]] == order[j + 1]
      {
        handlers := handlers[order[i] := order[i + 1]];
      }
      handlers := handlers[order[|order| - 1] := |order|];
    }

    /** Hands the resume point and the offsets to the table functions. */
    method SetResumeProgress(order: seq<nat>, last: seq<int>, offsets: seq<int>)
      requires Valid() && IsOrder(order, |q.card|) && |last| == |offsets| == |q.card|
      modifies this`progress, this`offset, this`tableCtr, this`numResultTuples
      modifies this`known, this`visited, this`seen, this`steps
      ensures Valid() && offset == offsets && tableCtr == order[0] && numResultTuples == 0
      ensures known == output && visited == [] && seen == {} && steps == 0
      ensures |progress| == |last|
      ensures forall t :: 0 <= t < |last| ==> progress[t] == if offsets[t] > last[t] then offsets[t] else last[t]
    {
      for table := 0 to |last|
        invariant Valid()
        invariant forall t :: 0 <= t < table ==> progress[t] == if offsets[t] > last[t] then offsets[t] else last[t]
        invariant forall t :: 0 <= t < table ==> offset[t] == offsets[t]
      {
        progress := progress[table := if offsets[table] > last[table] then offsets[table] else last[table]];
        offset := offset[table := offsets[table]];
      }
      tableCtr := order[0];
      numResultTuples := 0;
      known, visited, seen, steps := output, [], {}, 0;
    }

    /** Sets up handlers, flags, progress and offsets for an episode. */
    method Configure(order: seq<nat>, last: seq<int>, offsets: seq<int>)
      requires Valid() && Suits(q, order) && EpisodeOk(Episode(q, order, offsets, last))
      modifies this`handlers, this`flags, this`progress, this`offset, this`tableCtr, this`numResultTuples
      modifies this`known, this`visited, this`seen, this`steps
      ensures Valid() && Ready(Episode(q, order, offsets, last))
      ensures numResultTuples == 0 && tableCtr == order[0] && known == output && visited == [] && seen == {}
      ensures steps == 0
    {
      hide WellFormed, OutputOk, Counted, FlagsMatch, FlagChosen;
      SetJoinOrder(order);
      var ok, newFlags := TogglePredicateFlags(q, order);
      MatchingFlags(q, order, newFlags);
      flags := newFlags;
      SetResumeProgress(order, last, offsets);
    }

    /** Hands a new tuple to the parent; a tuple already in the index table is dropped. */
    method ValidTuple(budget: int) returns (ret: int)
      requires Valid() && InRange(q.card, idx) && Matches(q, idx)
      modifies this`emitted, this`output, this`numResultTuples, this`visited, this`seen
      ensures Valid() && ret == budget
      ensures emitted == old(emitted) + {idx} && visited == old(visited) + [idx] && seen == old(seen) + {idx}
      ensures output == if idx in old(emitted) then old(output) else old(output) + [idx]
      ensures numResultTuples == old(numResultTuples) + 1
    {
      CountNext(known, visited, output, idx);
      visited, seen := visited + [idx], seen + {idx};
      if idx !in emitted {
        emitted := emitted + {idx};
        output := output + [idx];
      }
      numResultTuples := numResultTuples + 1;
      ret := budget;
    }

    method Handle(handler: nat, budget: int, resume: bool, ghost e: Episode, ghost k: nat)
      returns (ret: int, ghost c: nat)
      requires Valid() && Ready(e) && 0 < k <= |e.order| && 1 <= budget
      requires handler == if k < |e.order| then e.order[k] else |q.card|
      requires Picked(e, k, idx)
      requires resume ==> InRange(q.card, e.p) && Same(e.order, k, idx, e.p)
      requires !resume ==> Ahead(e, k, idx)
      modifies this`idx, this`tableCtr, this`emitted, this`output, this`numResultTuples
      modifies this`visited, this`seen, this`steps
      ensures steps == old(steps) + if ret < 0 then budget else budget - ret
      ensures Valid() && Ready(e)
      ensures old(emitted) <= emitted && old(output) <= output && old(visited) <= visited && old(seen) <= seen
      ensures Outcome(e, k, old(idx), budget, resume, ret, c, idx, seen)
      ensures ret < 0 ==> tableCtr == e.order[c]
      ensures ret >= 0 ==> tableCtr == old(tableCtr)
      ensures NeverRepeats(e) ==>
              Follows(ScanTable(e, k, old(idx), budget, resume, old(visited)), ret, c, idx, visited)
      decreases |e.order| - k, 1
    {
      hide WellFormed, OutputOk, Counted, MayVisit, MayVisitAll, FlagsMatch, IsChain, Suits, Ahead, NeverRepeats;
      OrderBounds(e);
      if handler == |q.card| {
        PickedMatches(e, idx);
        ChosenMayBeVisited(e, idx, resume);
        MayVisitOneMore(e, seen, idx);
        ret := ValidTuple(budget);
        c := 0;
        SingleVector(e, idx, resume, seen);
      } else {
        ret, c := TableFunction(handler, budget, resume, e, k);
      }
    }

    method TableFunction(table: nat, budget: int, resume: bool, ghost e: Episode, ghost k: nat)
      returns (ret: int, ghost c: nat)
      requires Valid() && Ready(e) && k < |e.order| && e.order[k] == table && 1 <= budget
      requires Picked(e, k, idx)
      requires resume ==> InRange(q.card, e.p) && Same(e.order, k, idx, e.p)
      requires !resume ==> Ahead(e, k, idx)
      modifies this`idx, this`tableCtr, this`emitted, this`output, this`numResultTuples
      modifies this`visited, this`seen, this`steps
      ensures steps == old(steps) + if ret < 0 then budget else budget - ret
      ensures Valid() && Ready(e)
      ensures old(emitted) <= emitted && old(output) <= output && old(visited) <= visited && old(seen) <= seen
      ensures Outcome(e, k, old(idx), budget, resume, ret, c, idx, seen)
      ensures ret < 0 ==> tableCtr == e.order[c]
      ensures ret >= 0 ==> tableCtr == old(tableCtr)
      ensures ret >= 0 && k == 0 ==> idx[table] == q.card[table] - 1
      ensures NeverRepeats(e) ==>
              Follows(ScanTable(e, k, old(idx), budget, resume, old(visited)), ret, c, idx, visited)
      decreases |e.order| - k, 0
    {
      hide WellFormed, CompleteBelow, CompleteTo, Spent, Suits, OutputOk, Counted, MayVisitAll, FlagsMatch;
      hide NeverRepeats, Gained, Complete;
      hide Rested, ScanTable, ScanRows, ScanRow, Slack, PassesFlags, Progressing, Outcome, GainedBelow;
      c := k;
      ghost var base := idx;
      var card := q.card[table];

      // an index bucket that does not exist rules out the whole table
      NoBucketByPosition(e, flags, k, idx);
      if NoBucket(q, flags, table, idx) {
        NoBucketRejects(e, flags, k, idx);
        ScanNoBucket(e, k, idx, budget, resume, visited);
        EmptyBucket(e, flags, k, base, resume, seen);
        if k == 0 {
          FirstTableIsOpen(e, flags, idx, 0);
        }
        steps := steps + 1;
        if budget - 1 == 0 {
          EmptyBucketStop(e, k, base, resume, seen);
          idx := idx[table := card - 1];
          tableCtr := table;
          return -1, k;
        }
        EmptyBucketReturn(e, k, base, budget, resume, seen);
        return budget - 1, k;
      }

      var next := offset[table] + 1;
      if resume && progress[table] > next {
        next := progress[table];
      }
      var cont := resume && next == progress[table];
      StartStep(e, k, base, budget, resume, next, cont, seen);
      StartScan(e, k, idx, next, budget, resume, cont, visited);
      ret, c := RowLoop(table, next, budget, cont, e, k, resume);
    }

    /** The candidate rows of a table, from `start` on. */
    method RowLoop(table: nat, start: int, budget: int, cont0: bool, ghost e: Episode, ghost k: nat, ghost resume: bool)
      returns (ret: int, ghost c: nat)
      requires Valid() && Ready(e) && k < |e.order| && e.order[k] == table && start < q.card[table]
      requires Progressing(e, k, idx, budget, resume, start, budget, cont0, seen)
      modifies this`idx, this`tableCtr, this`emitted, this`output, this`numResultTuples
      modifies this`visited, this`seen, this`steps
      ensures steps == old(steps) + if ret < 0 then budget else budget - ret
      ensures Valid() && Ready(e)
      ensures old(emitted) <= emitted && old(output) <= output && old(visited) <= visited && old(seen) <= seen
      ensures Outcome(e, k, old(idx), budget, resume, ret, c, idx, seen)
      ensures ret < 0 ==> tableCtr == e.order[c]
      ensures ret >= 0 ==> tableCtr == old(tableCtr)
      ensures ret >= 0 && k == 0 ==> idx[table] == q.card[table] - 1
      ensures NeverRepeats(e) ==>
              Follows(ScanRows(e, k, old(idx), start, budget, cont0, old(visited)), ret, c, idx, visited)
      decreases |e.order| - k - 1, 6
    {
      hide WellFormed, CompleteBelow, CompleteTo, Spent, Suits, OutputOk, Counted, MayVisitAll, FlagsMatch;
      hide NeverRepeats, Gained, Complete, IsChain, Same;
      hide Picked;
      hide Rested, ScanRows, ScanRow, Slack, PassesFlags, Progressing, Outcome, GainedBelow, EpisodeOk;
      OrderBounds(e);
      c := k;
      ghost var base := idx;
      var card := q.card[table];
      var next, left, cont := start, budget, cont0;
      SameAsItself(e.order, k, idx);
      var handed: nat, again := 0, false;
      StartBatch(e, k, base, resume, next);
      hide Engine.Ready, InBounds, InRange;
      while next < card || again
        invariant Valid() && Ready(e) && flags == old(flags)
        invariant old(emitted) <= emitted && old(output) <= output && old(visited) <= visited && old(seen) <= seen
        invariant Progressing(e, k, base, budget, resume, next, left, cont, seen)
        invariant Same(e.order, k, idx, base)
        invariant k == 0 ==> start <= next && (next > start ==> idx[table] == next - 1)
        invariant tableCtr == old(tableCtr) && steps == old(steps) + budget - left
        invariant handed < BatchSize && (handed > 0 ==> !cont) && Rested(e, k, base, resume, next, handed, again)
        invariant NeverRepeats(e) ==>
                  !again && ScanRows(e, k, idx, next, left, cont, visited) ==
                  ScanRows(e, k, old(idx), start, budget, cont0, old(visited))
        decreases card - next, if again then 1 else 0
      {
        left, c, next, handed, again := LoopStep(table, next, left, cont, handed, again, e, k, base, budget, resume);
        if left < 0 {
          return left, c;
        }
        cont := false;
      }
      ret := left;
      ProgressBounds(e, k, base, budget, resume, next, left, cont, seen);
      ScanEnd(e, k, idx, left, cont, visited);
      FinishStep(e, k, base, budget, resume, left, cont, seen, idx, c);
    }

    /** One round of the row loop: the next candidate, or the last row of a full batch again. */
    method LoopStep(table: nat, next: int, left: int, cont: bool, handed: nat, again: bool, ghost e: Episode,
                    ghost k: nat,
                    ghost base: seq<int>, ghost budget: int, ghost resume: bool)
      returns (left': int, ghost c: nat, next': int, handed': nat, again': bool)
      requires Valid() && Ready(e) && k < |e.order| && e.order[k] == table && |base| == |q.card|
      requires Progressing(e, k, base, budget, resume, next, left, cont, seen) && Same(e.order, k, idx, base)
      requires next < q.card[table] || again
      requires handed < BatchSize && (handed > 0 ==> !cont) && Rested(e, k, base, resume, next, handed, again)
      requires NeverRepeats(e) ==> !again
      modifies this`idx, this`tableCtr, this`emitted, this`output, this`numResultTuples
      modifies this`visited, this`seen, this`steps
      ensures steps == old(steps) + if left' < 0 then left else left - left'
      ensures Valid() && Ready(e) && Same(e.order, k, idx, base)
      ensures old(emitted) <= emitted && old(output) <= output && old(visited) <= visited && old(seen) <= seen
      ensures left' < 0 ==> Outcome(e, k, base, budget, resume, left', c, idx, seen) && tableCtr == e.order[c]
      ensures left' >= 0 ==>
              Progressing(e, k, base, budget, resume, next', left', false, seen) && tableCtr == old(tableCtr)
      ensures left' >= 0 ==>
              next' <= q.card[table] && handed' < BatchSize && Rested(e, k, base, resume, next', handed', again')
      ensures left' >= 0 ==> next < next' || (next == next' && again && !again')
      ensures left' >= 0 && k == 0 ==> idx[table] == next' - 1
      ensures NeverRepeats(e) && left' < 0 ==>
              Follows(ScanRows(e, k, old(idx), next, left, cont, old(visited)), left', c, idx, visited)
      ensures NeverRepeats(e) && left' >= 0 ==>
                !again' && ScanRows(e, k, idx, next', left', false, visited) ==
                    ScanRows(e, k, old(idx), next, left, cont, old(visited))
      decreases |e.order| - k - 1, 5
    {
      hide WellFormed, CompleteBelow, CompleteTo, Spent, Suits, OutputOk, Counted, MayVisitAll, FlagsMatch;
      hide NeverRepeats, Gained, Complete, IsChain, Same, Picked, IsCandidate, ManyBuckets, Follows;
      hide Rested, ScanRows, ScanRow, Slack, PassesFlags, Progressing, Outcome, GainedBelow, EpisodeOk;
      OrderBounds(e);
      var card := q.card[table];
      next', handed', again' := next, 1, false;
      ProgressBounds(e, k, base, budget, resume, next, left, cont, seen);
      if again {
        // the index hands out the last row of a full batch once more
        AgainStep(e, k, base, budget, resume, next, left, cont, seen, handed);
        left', c := VisitRow(table, next - 1, left, false, e, k, base, budget, resume);
        AfterAgain(e, k, base, resume, next, handed);
        return;
      }
      var row;
      ghost var idx0, visited0 := idx, visited;
      left', c, row := TakeRow(table, next, left, cont, e, k, base, budget, resume);
      if NeverRepeats(e) {
        TookRow(e, k, idx0, next, row, left, cont, visited0, left', c, idx, visited);
      }
      if left' < 0 {
        return;
      }
      if row == card {
        SkipToEnd(e, k, base, resume, next, card, handed);
        next', handed' := card, handed;
      } else {
        NextInBatch(e, k, base, resume, next, row, handed, cont && row == next);
        next', handed' := row + 1, handed + 1;
        if handed' == BatchSize {
          again' := *;
          again' := again' && ManyBuckets(q, flags, table);
          if again' { ManyByPosition(e, flags, k); }
          handed' := 0;
          BatchEnds(e, k, base, resume, next', again');
        }
      }
    }

    /** Goes to the next candidate row, if there is one, and visits it. */
    method TakeRow(table: nat, next: int, budget: int, cont: bool, ghost e: Episode, ghost k: nat,
                   ghost base: seq<int>, ghost budget0: int, ghost resume: bool)
      returns (ret: int, ghost c: nat, row: int)
      requires Valid() && Ready(e) && k < |e.order| && e.order[k] == table && |base| == |q.card|
      requires Same(e.order, k, idx, base) && next < q.card[table]
      requires Progressing(e, k, base, budget0, resume, next, budget, cont, seen)
      modifies this`idx, this`tableCtr, this`emitted, this`output, this`numResultTuples
      modifies this`visited, this`seen, this`steps
      ensures steps == old(steps) + if ret < 0 then budget else budget - ret
      ensures Valid() && Ready(e) && next <= row <= q.card[table]
      ensures old(emitted) <= emitted && old(output) <= output && old(visited) <= visited && old(seen) <= seen
      ensures Same(e.order, k, idx, base)
      ensures ret < 0 ==> Outcome(e, k, base, budget0, resume, ret, c, idx, seen) && tableCtr == e.order[c]
      ensures ret >= 0 ==> tableCtr == old(tableCtr)
      ensures ret >= 0 && row == q.card[table] ==>
              k > 0 && Progressing(e, k, base, budget0, resume, row, ret, false, seen)
      ensures ret >= 0 && row < q.card[table] ==>
              idx[table] == row && Progressing(e, k, base, budget0, resume, row + 1, ret, false, seen)
      ensures resume ==> e.p[table] <= row && (!(cont && row == next) ==> e.p[table] < row)
      ensures forall r :: next <= r < row ==> !IsCandidate(e, k, old(idx), r)
      ensures row < q.card[table] ==> IsCandidate(e, k, old(idx), row)
      ensures row == q.card[table] ==> ret == budget && idx == old(idx) && visited == old(visited)
      ensures NeverRepeats(e) && row < q.card[table] ==>
                Follows(ScanRow(e, k, old(idx), row, budget, cont && row == next, old(visited)), ret, c, idx, visited)
      ensures k == 0 ==> row == next
      decreases |e.order| - k - 1, 4
    {
      hide WellFormed, CompleteBelow, CompleteTo, Spent, OutputOk, Counted, MayVisitAll, FlagsMatch;
      hide NeverRepeats, Gained, Complete, Suits, PassesFlags;
      hide PassesAt;
      hide ScanRow, Slack, GainedBelow, IsInBuckets, IsCandidate;
      // a scan takes every row, an index those in all of its buckets
      row := NextCandidate(q, flags, table, idx, next);
      ByBuckets(e, flags, k, idx, next, row);
      ReachRow(e, flags, k, base, budget0, resume, next, budget, cont, seen, idx, row);
      assert row > next ==> RejectsRow(q, flags, table, idx, next);
      if k == 0 { FirstTableIsOpen(e, flags, idx, next); }
      if row == q.card[table] {
        ret, c := budget, k;
      } else {
        ret, c := VisitRow(table, row, budget, cont && row == next, e, k, base, budget0, resume);
      }
    }

    /** One row: check it, and descend when it passes. */
    method VisitRow(table: nat, row: int, budget: int, cont: bool, ghost e: Episode, ghost k: nat,
                    ghost base: seq<int>, ghost budget0: int, ghost resume: bool) returns (ret: int, ghost c: nat)
      requires Valid() && Ready(e) && k < |e.order| && e.order[k] == table && |base| == |q.card|
      requires Same(e.order, k, idx, base) && row < q.card[table]
      requires Progressing(e, k, base, budget0, resume, row, budget, cont, seen)
      modifies this`idx, this`tableCtr, this`emitted, this`output, this`numResultTuples
      modifies this`visited, this`seen, this`steps
      ensures steps == old(steps) + if ret < 0 then budget else budget - ret
      ensures Valid() && Ready(e)
      ensures old(emitted) <= emitted && old(output) <= output && old(visited) <= visited && old(seen) <= seen
      ensures Same(e.order, k, idx, base)
      ensures ret < 0 ==> Outcome(e, k, base, budget0, resume, ret, c, idx, seen) && tableCtr == e.order[c]
      ensures ret >= 0 ==> Progressing(e, k, base, budget0, resume, row + 1, ret, false, seen)
      ensures ret >= 0 ==> idx[table] == row && tableCtr == old(tableCtr)
      ensures NeverRepeats(e) ==>
              Follows(ScanRow(e, k, old(idx), row, budget, cont, old(visited)), ret, c, idx, visited)
      decreases |e.order| - k - 1, 3
    {
      hide ScanTable, Slack;
      hide WellFormed, CompleteBelow, CompleteTo, Spent, OutputOk, Counted, MayVisitAll, FlagsMatch;
      hide NeverRepeats, Gained, Complete, Suits, PassesFlags;
      hide PassesAt;
      hide Progressing, Outcome, GainedBelow, IsChain, Same, Picked, EpisodeOk;
      OrderBounds(e);
      ProgressBounds(e, k, base, budget0, resume, row, budget, cont, seen);
      c := k;
      var left := budget - 1;
      steps := steps + 1;
      SameAfterStore(e, k, idx, base, row);
      var pass := CheckRow(table, row, e, k);
      if !pass {
        RejectStep(e, k, base, budget0, resume, budget, cont, seen, idx);
        if left == 0 {
          tableCtr := table;
          return -1, k;
        }
        return left, k;
      }
      if left == 0 {
        StopStep(e, k, base, budget0, resume, budget, cont, seen, idx);
        tableCtr := table;
        return -2, k;
      }
      ret, c := DescendRow(table, row, left, cont, e, k, base, budget0, resume);
    }

    /** Calls the handler of the next table for an accepted row. */
    method DescendRow(table: nat, ghost row: int, left: int, cont: bool, ghost e: Episode, ghost k: nat,
                      ghost base: seq<int>, ghost budget0: int, ghost resume: bool) returns (ret: int, ghost c: nat)
      requires Valid() && Ready(e) && k < |e.order| && e.order[k] == table && |base| == |q.card|
      requires Same(e.order, k, idx, base) && row == idx[table] < q.card[table] && 1 <= left &&
               PassesAt(q, e.order, k, idx)
      requires Progressing(e, k, base, budget0, resume, row, left + 1, cont, seen)
      modifies this`idx, this`tableCtr, this`emitted, this`output, this`numResultTuples
      modifies this`visited, this`seen, this`steps
      ensures steps == old(steps) + if ret < 0 then left else left - ret
      ensures Valid() && Ready(e)
      ensures old(emitted) <= emitted && old(output) <= output && old(visited) <= visited && old(seen) <= seen
      ensures Same(e.order, k, idx, base)
      ensures ret < 0 ==> Outcome(e, k, base, budget0, resume, ret, c, idx, seen) && tableCtr == e.order[c]
      ensures ret >= 0 ==> Progressing(e, k, base, budget0, resume, row + 1, ret, false, seen)
      ensures ret >= 0 ==> idx[table] == row && tableCtr == old(tableCtr)
      ensures NeverRepeats(e) ==>
              Follows(ScanTable(e, k + 1, old(idx), left, cont, old(visited)), ret, c, idx, visited)
      decreases |e.order| - k - 1, 2
    {
      hide WellFormed, CompleteBelow, CompleteTo, Spent, OutputOk, Counted, MayVisitAll, FlagsMatch;
      hide NeverRepeats, Gained, Complete, Suits, PassesFlags;
      hide PassesAt;
      hide Progressing, Outcome, GainedBelow, IsChain, Same, Picked, EpisodeOk, ScanTable, Slack;
      OrderBounds(e);
      ProgressBounds(e, k, base, budget0, resume, row, left + 1, cont, seen);
      ghost var called, emitted0 := idx, seen;
      ChooseRow(e, k, base, idx);
      ContinuesResume(e, k, base, idx, cont);
      if !cont { StaysAhead(e, k, base, idx, resume); }
      NextHandler(e.order, handlers, k);
      ret, c := Handle(handlers[table], left, cont, e, k + 1);
      OutcomeSame(e, k + 1, called, left, cont, ret, c, idx, seen);
      if ret < 0 {
        DescendStep(e, k, base, budget0, resume, left + 1, cont, emitted0, called, ret, c, idx, seen);
      } else {
        ReturnStep(e, k, base, budget0, resume, left + 1, cont, emitted0, called, ret, c, idx, seen);
      }
      SameTrans(e.order, k, idx, called, base);
    }

    /** Loads a row and evaluates the predicates flagged at its table. */
    method CheckRow(table: nat, row: int, ghost e: Episode, ghost k: nat) returns (pass: bool)
      requires Valid() && Ready(e) && k < |e.order| && e.order[k] == table
      modifies this`idx
      ensures Valid() && Ready(e) && idx == old(idx)[table := row]
      ensures forall j :: 0 <= j < k ==> idx[e.order[j]] == old(idx)[e.order[j]]
      ensures pass == PassesAt(q, e.order, k, idx)
    {
      hide WellFormed, OutputOk, Counted, MayVisitAll, FlagsMatch, PassesFlags, PassesAt;
      idx := idx[table := row];
      pass := PassesFlags(q, flags, table, idx);
      PassesFlagsAtPosition(q, e.order, flags, k, idx);
    }
  }

  // ----- index buckets -----

  /** The flag is set, and an index answers the predicate. */
  predicate IsIndexed(q: Query, flags: seq<int>, key: (nat, nat))
  {
    && key in q.flagOf && key.0 < |q.preds| && q.flagOf[key] < |flags|
    && flags[q.flagOf[key]] != 0 && q.preds[key.0].equality
  }

  predicate IsInBuckets(q: Query, flags: seq<int>, table: nat, idx: seq<int>, row: int)
    requires table < |idx|
  {
    forall key :: key in q.flagOf && key.1 == table && IsIndexed(q, flags, key) ==>
      HoldsForRow(q, key.0, table, idx, row)
  }

  predicate NoBucket(q: Query, flags: seq<int>, table: nat, idx: seq<int>)
    requires table < |q.card| && table < |idx|
  {
    exists key :: key in q.flagOf && key.1 == table && IsIndexed(q, flags, key) && IsEmptyBucket(q, key.0, table, idx)
  }

  predicate ManyBuckets(q: Query, flags: seq<int>, table: nat)
  {
    exists a, b, c :: a in q.flagOf && b in q.flagOf && c in q.flagOf &&
      a.1 == b.1 == c.1 == table && a.0 < b.0 < c.0 &&
      IsIndexed(q, flags, a) && IsIndexed(q, flags, b) && IsIndexed(q, flags, c)
  }

  /** The next row that is in all buckets, or the end of the table. */
  function NextCandidate(q: Query, flags: seq<int>, table: nat, idx: seq<int>, next: int): (row: int)
    requires table < |q.card| && table < |idx| && next <= q.card[table]
    ensures next <= row <= q.card[table] && (row < q.card[table] ==> IsInBuckets(q, flags, table, idx, row))
    ensures forall r :: next <= r < row ==> !IsInBuckets(q, flags, table, idx, r)
    decreases q.card[table] - next
  {
    if next == q.card[table] || IsInBuckets(q, flags, table, idx, next) then next
    else NextCandidate(q, flags, table, idx, next + 1)
  }

  lemma IndexedByPosition(e: Episode, flags: seq<int>, k: nat, p: nat)
    requires EpisodeOk(e) && FlagsMatch(e.q, e.order, flags) && k < |e.order|
    ensures IsIndexed(e.q, flags, (p, e.order[k])) <==> IndexedAt(e.q, e.order, k, p)
  {
    if IsIndexed(e.q, flags, (p, e.order[k])) { assert Flagged(e.q, p, e.order[k]); }
    if IndexedAt(e.q, e.order, k, p) { assert Flagged(e.q, p, e.order[k]); }
  }

  lemma BucketsByPosition(e: Episode, flags: seq<int>, k: nat, idx: seq<int>, row: int)
    requires EpisodeOk(e) && FlagsMatch(e.q, e.order, flags) && k < |e.order| && |idx| == |e.q.card|
    ensures IsInBuckets(e.q, flags, e.order[k], idx, row) <==> IsCandidate(e, k, idx, row)
    ensures !IsInBuckets(e.q, flags, e.order[k], idx, row) ==> RejectsRow(e.q, flags, e.order[k], idx, row)
  {
    hide IsIndexed, IndexedAt;
    var t := e.order[k];
    forall p: nat ensures IsIndexed(e.q, flags, (p, t)) <==> IndexedAt(e.q, e.order, k, p) {
      IndexedByPosition(e, flags, k, p);
    }
    if IsInBuckets(e.q, flags, t, idx, row) {
      forall p: nat | IndexedAt(e.q, e.order, k, p) ensures p < |e.q.preds| && e.q.preds[p].holds(idx[t := row]) {
        IndexedKey(e, flags, k, p);
        assert HoldsForRow(e.q, (p, t).0, t, idx, row);
      }
    } else {
      var key :| key in e.q.flagOf && key.1 == t && IsIndexed(e.q, flags, key) && !HoldsForRow(e.q, key.0, t, idx, row);
      assert key == (key.0, t);
      IndexedKey(e, flags, k, key.0);
      assert IndexedAt(e.q, e.order, k, key.0);
    }
  }

  lemma IndexedKey(e: Episode, flags: seq<int>, k: nat, p: nat)
    requires EpisodeOk(e) && FlagsMatch(e.q, e.order, flags) && k < |e.order|
    requires IndexedAt(e.q, e.order, k, p) || IsIndexed(e.q, flags, (p, e.order[k]))
    ensures p < |e.q.preds| && (p, e.order[k]) in e.q.flagOf && IsIndexed(e.q, flags, (p, e.order[k]))
    ensures e.q.flagOf[(p, e.order[k])] < |flags| && flags[e.q.flagOf[(p, e.order[k])]] != 0
  {
    IndexedByPosition(e, flags, k, p);
  }

  lemma ByBuckets(e: Episode, flags: seq<int>, k: nat, idx: seq<int>, next: int, row: int)
    requires EpisodeOk(e) && FlagsMatch(e.q, e.order, flags) && k < |e.order| && |idx| == |e.q.card| && next <= row
    requires forall r :: next <= r < row ==> !IsInBuckets(e.q, flags, e.order[k], idx, r)
    ensures forall r :: next <= r < row ==> !IsCandidate(e, k, idx, r)
    ensures forall r :: next <= r < row ==> RejectsRow(e.q, flags, e.order[k], idx, r)
    ensures IsInBuckets(e.q, flags, e.order[k], idx, row) ==> IsCandidate(e, k, idx, row)
  {
    hide IsInBuckets, IsCandidate, RejectsRow;
    forall r ensures IsInBuckets(e.q, flags, e.order[k], idx, r) <==> IsCandidate(e, k, idx, r)
             ensures !IsInBuckets(e.q, flags, e.order[k], idx, r) ==> RejectsRow(e.q, flags, e.order[k], idx, r)
    {
      BucketsByPosition(e, flags, k, idx, r);
    }
  }

  lemma NoBucketByPosition(e: Episode, flags: seq<int>, k: nat, idx: seq<int>)
    requires EpisodeOk(e) && FlagsMatch(e.q, e.order, flags) && k < |e.order| && |idx| == |e.q.card|
    ensures NoBucket(e.q, flags, e.order[k], idx) <==> NoBucketAt(e.q, e.order, k, idx)
  {
    hide IsIndexed, IsEmptyBucket, FlagsMatch, EvaluatedAt;
    var t := e.order[k];
    if NoBucket(e.q, flags, t, idx) {
      var key :| key in e.q.flagOf && key.1 == t && IsIndexed(e.q, flags, key) && IsEmptyBucket(e.q, key.0, t, idx);
      assert key == (key.0, t);
      IndexedByPosition(e, flags, k, key.0);
    }
    if NoBucketAt(e.q, e.order, k, idx) {
      var p: nat :| IndexedAt(e.q, e.order, k, p) && IsEmptyBucket(e.q, p, t, idx);
      IndexedKey(e, flags, k, p);
      var key := (p, t);
      assert key in e.q.flagOf && key.1 == t && IsIndexed(e.q, flags, key) && IsEmptyBucket(e.q, key.0, t, idx);
    }
  }

  lemma NoBucketRejects(e: Episode, flags: seq<int>, k: nat, idx: seq<int>)
    requires EpisodeOk(e) && FlagsMatch(e.q, e.order, flags) && k < |e.order| && |idx| == |e.q.card|
    requires NoBucket(e.q, flags, e.order[k], idx)
    ensures forall row :: 0 <= row < e.q.card[e.order[k]] ==> RejectsRow(e.q, flags, e.order[k], idx, row)
    ensures RejectsRow(e.q, flags, e.order[k], idx, 0)
  {
    hide RejectsRow;
    var t := e.order[k];
    var key :| key in e.q.flagOf && key.1 == t && IsIndexed(e.q, flags, key) && IsEmptyBucket(e.q, key.0, t, idx);
    forall row | 0 <= row < e.q.card[t] ensures RejectsRow(e.q, flags, t, idx, row) {
      assert !HoldsForRow(e.q, key.0, t, idx, row);
      BucketsByPosition(e, flags, k, idx, row);
    }
  }

  lemma ManyByPosition(e: Episode, flags: seq<int>, k: nat)
    requires EpisodeOk(e) && FlagsMatch(e.q, e.order, flags) && k < |e.order| && ManyBuckets(e.q, flags, e.order[k])
    ensures !NeverRepeats(e)
  {
    hide IsIndexed, IndexedAt;
    var t := e.order[k];
    var a, b, c :| a in e.q.flagOf && b in e.q.flagOf && c in e.q.flagOf && a.1 == b.1 == c.1 == t &&
      a.0 < b.0 < c.0 && IsIndexed(e.q, flags, a) && IsIndexed(e.q, flags, b) && IsIndexed(e.q, flags, c);
    assert a == (a.0, t) && b == (b.0, t) && c == (c.0, t);
    IndexedByPosition(e, flags, k, a.0);
    IndexedByPosition(e, flags, k, b.0);
    IndexedByPosition(e, flags, k, c.0);
    assert ManyBucketsAt(e.q, e.order, k);
  }

  lemma ScanNoBucket(e: Episode, k: nat, idx: seq<int>, budget: int, resume: bool, visited: seq<seq<int>>)
    requires ScanOk(e, k, idx) && k < |e.order| && NoBucketAt(e.q, e.order, k, idx)
    ensures var t := e.order[k];
            ScanTable(e, k, idx, budget, resume, visited) ==
            if budget - 1 == 0 then Scan(-1, k, idx[t := e.q.card[t] - 1], visited)
            else Scan(budget - 1, k, idx, visited)
  {
  }

  /** What taking a row does to the rest of the scan. */
  lemma TookRow(e: Episode, k: nat, idx: seq<int>, next: int, row: int, left: int, cont: bool, visited: seq<seq<int>>,
                ret: int, c: nat, idx': seq<int>, visited': seq<seq<int>>)
    requires ScanOk(e, k, idx) && k < |e.order| && next <= row <= e.q.card[e.order[k]]
    requires forall r :: next <= r < row ==> !IsCandidate(e, k, idx, r)
    requires row < e.q.card[e.order[k]] ==> IsCandidate(e, k, idx, row)
    requires row < e.q.card[e.order[k]] ==>
               Follows(ScanRow(e, k, idx, row, left, cont && row == next, visited), ret, c, idx', visited')
    requires row == e.q.card[e.order[k]] ==> ret == left >= 0 && idx' == idx && visited' == visited
    ensures |idx'| == |idx|
    ensures ret < 0 ==> Follows(ScanRows(e, k, idx, next, left, cont, visited), ret, c, idx', visited')
    ensures ret >= 0 && row < e.q.card[e.order[k]] ==>
              ScanRows(e, k, idx', row + 1, ret, false, visited') == ScanRows(e, k, idx, next, left, cont, visited)
    ensures ret >= 0 && row == e.q.card[e.order[k]] ==>
              ScanRows(e, k, idx', row, ret, false, visited') == ScanRows(e, k, idx, next, left, cont, visited)
  {
    hide ScanRows, ScanRow, IsCandidate;
    SkipRows(e, k, idx, next, row, left, cont, visited);
    if row < e.q.card[e.order[k]] {
      ScanStep(e, k, idx, row, left, cont && row == next, visited);
    } else {
      ScanEnd(e, k, idx, left, cont && row == next, visited);
      ScanEnd(e, k, idx, left, false, visited);
    }
  }

  lemma SameAfterStore(e: Episode, k: nat, idx: seq<int>, base: seq<int>, row: int)
    requires EpisodeOk(e) && k < |e.order| && |idx| == |base| == |e.q.card| && Same(e.order, k, idx, base)
    ensures Same(e.order, k, idx[e.order[k] := row], base) && idx[e.order[k] := row][e.order[k]] == row
  {
  }

  lemma OrderBounds(e: Episode)
    requires EpisodeOk(e)
    ensures |e.order| == |e.q.card| == |e.offset| == |e.p| && InBounds(e.order, |e.q.card|)
  {
  }

  lemma SameTrans(order: seq<nat>, k: nat, a: seq<int>, b: seq<int>, c: seq<int>)
    requires k <= |order| && InBounds(order, |a|) && |a| == |b| == |c| && Same(order, k, a, b) && Same(order, k, b, c)
    ensures Same(order, k, a, c)
  {
  }

  /** Continuing in the resume vector's row keeps agreeing with it. */
  lemma ContinuesResume(e: Episode, k: nat, base: seq<int>, idx: seq<int>, cont: bool)
    requires EpisodeOk(e) && k < |e.order| && |idx| == |base| == |e.q.card| && Same(e.order, k, idx, base)
    requires cont ==> Same(e.order, k, base, e.p) && idx[e.order[k]] == e.p[e.order[k]]
    ensures cont ==> Same(e.order, k + 1, idx, e.p)
  {
  }

  lemma SameAsItself(order: seq<nat>, k: nat, idx: seq<int>)
    requires k <= |order| && InBounds(order, |idx|)
    ensures Same(order, k, idx, idx)
  {
  }

  lemma ProgressBounds(e: Episode, k: nat, base: seq<int>, budget: int, resume: bool, next: int, left: int,
                       cont: bool, emitted: set<seq<int>>)
    requires Progressing(e, k, base, budget, resume, next, left, cont, emitted)
    ensures EpisodeOk(e) && k < |e.order| && Picked(e, k, base)
    ensures e.offset[e.order[k]] < next <= e.q.card[e.order[k]] && 1 <= left <= budget
    ensures resume ==> InRange(e.q.card, e.p) && Same(e.order, k, base, e.p)
    ensures !resume ==> Ahead(e, k, base)
    ensures cont ==> resume && next == e.p[e.order[k]]
    ensures resume && !cont ==> next > e.p[e.order[k]]
  {
  }

  // ----- batches of an index -----

  /** Vectors beyond the resume vector have been settled before the last row handed out, so that
      the row can be handed out once more without falling behind. */
  ghost predicate Repeatable(e: Episode, k: nat, base: seq<int>, resume: bool, next: int)
    requires EpisodeOk(e) && k < |e.order| && |base| == |e.q.card|
  {
    && e.offset[e.order[k]] < next - 1 < e.q.card[e.order[k]]
    && GainedBelow(e, k, base, next - 1, resume) && (resume ==> e.p[e.order[k]] < next - 1)
  }

  /** What is known after `handed` rows of a batch. */
  ghost predicate Rested(e: Episode, k: nat, base: seq<int>, resume: bool, next: int, handed: nat, again: bool)
    requires EpisodeOk(e) && k < |e.order| && |base| == |e.q.card|
  {
    && (handed >= 1 ==>
        e.offset[e.order[k]] < next - 1 < e.q.card[e.order[k]] && (resume ==> e.p[e.order[k]] <= next - 1))
    && (handed >= 2 ==> GainedBelow(e, k, base, next, resume) && (resume ==> e.p[e.order[k]] < next - 1))
    && (handed >= 3 || again ==> Repeatable(e, k, base, resume, next))
  }

  lemma StartBatch(e: Episode, k: nat, base: seq<int>, resume: bool, next: int)
    requires EpisodeOk(e) && k < |e.order| && |base| == |e.q.card|
    ensures Rested(e, k, base, resume, next, 0, false)
  {
  }

  lemma StartScan(e: Episode, k: nat, idx: seq<int>, next: int, budget: int, resume: bool, cont: bool,
                  visited: seq<seq<int>>)
    requires ScanOk(e, k, idx) && k < |e.order|
    requires next == if resume &&
             e.p[e.order[k]] > e.offset[e.order[k]] then e.p[e.order[k]] else e.offset[e.order[k]] + 1
    requires cont == (resume && e.p[e.order[k]] > e.offset[e.order[k]]) && !NoBucketAt(e.q, e.order, k, idx)
    ensures ScanRows(e, k, idx, next, budget, cont, visited) == ScanTable(e, k, idx, budget, resume, visited)
  {
  }

  lemma NextInBatch(e: Episode, k: nat, base: seq<int>, resume: bool, next: int, row: int, handed: nat, cont: bool)
    requires EpisodeOk(e) && k < |e.order| && Picked(e, k, base) && Rested(e, k, base, resume, next, handed, false)
    requires e.offset[e.order[k]] < next <= row < e.q.card[e.order[k]] && (handed > 0 ==> !cont)
    requires resume ==> Same(e.order, k, base, e.p) && e.p[e.order[k]] <= row && (!cont ==> e.p[e.order[k]] < row)
    ensures Rested(e, k, base, resume, row + 1, handed + 1, false)
  {
    hide GainedBelow;
    if handed >= 1 { GainByRow(e, k, base, row, resume); }
    if handed >= 2 { GainedBelowGrows(e, k, base, next, row, resume); }
  }

  lemma BatchEnds(e: Episode, k: nat, base: seq<int>, resume: bool, next: int, again: bool)
    requires EpisodeOk(e) && k < |e.order| && |base| == |e.q.card| && Rested(e, k, base, resume, next, BatchSize, false)
    ensures Rested(e, k, base, resume, next, 0, again)
  {
  }

  lemma SkipToEnd(e: Episode, k: nat, base: seq<int>, resume: bool, next: int, card: int, handed: nat)
    requires EpisodeOk(e) && k < |e.order| && |base| == |e.q.card| && Rested(e, k, base, resume, next, handed, false)
    requires next < card == e.q.card[e.order[k]]
    ensures Rested(e, k, base, resume, card, handed, false)
  {
    if handed >= 2 {
      GainedBelowGrows(e, k, base, next, card - 1, resume);
      GainedBelowGrows(e, k, base, next, card, resume);
    }
  }

  lemma AgainStep(e: Episode, k: nat, base: seq<int>, budget: int, resume: bool, next: int, left: int, cont: bool,
                  emitted: set<seq<int>>, handed: nat)
    requires Progressing(e, k, base, budget, resume, next, left, cont, emitted) &&
             Rested(e, k, base, resume, next, handed, true)
    ensures Progressing(e, k, base, budget, resume, next - 1, left, false, emitted) && next - 1 < e.q.card[e.order[k]]
  {
    hide GainedBelow;
    FewerRows(e, k, base, next - 1, next, resume, emitted);
  }

  lemma FewerRows(e: Episode, k: nat, base: seq<int>, row: int, next: int, resume: bool, emitted: set<seq<int>>)
    requires EpisodeOk(e) && k < |e.order| && |base| == |e.q.card| && row <= next
    requires CompleteBelow(e, k, base, next, resume, emitted)
    ensures CompleteBelow(e, k, base, row, resume, emitted)
  {
  }

  lemma AfterAgain(e: Episode, k: nat, base: seq<int>, resume: bool, next: int, handed: nat)
    requires EpisodeOk(e) && k < |e.order| && |base| == |e.q.card| && Rested(e, k, base, resume, next, handed, true)
    ensures Rested(e, k, base, resume, next, 1, false)
  {
  }

  lemma MatchingFlags(q: Query, order: seq<nat>, flags: seq<int>)
    requires FlagsMatch(q, order, flags)
    ensures |flags| == q.numFlags
  {
  }

  predicate RejectsRow(q: Query, flags: seq<int>, table: nat, idx: seq<int>, row: int)
    requires WellFormed(q) && |flags| == q.numFlags && table < |idx|
  {
    !PassesFlags(q, flags, table, idx[table := row])
  }

  /** Of the visited vectors, those that are new to the output, in the order of their first visit. */
  ghost function New(known: seq<seq<int>>, visited: seq<seq<int>>): (s: seq<seq<int>>)
    ensures |s| <= |visited|
  {
    if visited == [] then []
    else
      var v, before := visited[|visited| - 1], visited[..|visited| - 1];
      New(known, before) + if v in known || v in before then [] else [v]
  }

  /** Every visit counts, and what was new has been handed on. */
  ghost predicate Counted(known: seq<seq<int>>, visited: seq<seq<int>>, seen: set<seq<int>>, count: int,
                          emitted: set<seq<int>>, output: seq<seq<int>>)
  {
    && count == |visited| && output == known + New(known, visited)
    && (forall v :: v in seen <==> v in visited) && seen <= emitted
  }

  lemma {:induction false} InNew(known: seq<seq<int>>, visited: seq<seq<int>>, v: seq<int>)
    ensures v in known + New(known, visited) <==> v in known || v in visited
  {
    if visited != [] {
      var n := |visited| - 1;
      InNew(known, visited[..n], v);
      assert visited == visited[..n] + [visited[n]];
    }
  }

  lemma CountNext(known: seq<seq<int>>, visited: seq<seq<int>>, output: seq<seq<int>>, v: seq<int>)
    requires output == known + New(known, visited)
    ensures known + New(known, visited + [v]) == if v in output then output else output + [v]
  {
    InNew(known, visited, v);
    assert (visited + [v])[..|visited|] == visited;
    var s := New(known, visited);
    assert s + [] == s && known + (s + [v]) == known + s + [v];
  }

  ghost predicate OutputOk(q: Query, emitted: set<seq<int>>, output: seq<seq<int>>)
  {
    && (forall v :: v in emitted <==> v in output)
    && (forall i, j :: 0 <= i < j < |output| ==> output[i] != output[j])
    && (forall v :: v in emitted ==> InRange(q.card, v) && Matches(q, v))
  }

  ghost predicate IsChain(order: seq<nat>, handlers: seq<nat>)
  {
    && |handlers| == |order| && InBounds(order, |handlers|)
    && forall i: nat :: i < |order| ==> LeadsOn(order, handlers, i)
  }

  /** The handler of position `i` is the next table, or the tuple handler after the last. */
  ghost predicate LeadsOn(order: seq<nat>, handlers: seq<nat>, i: nat)
    requires i < |order| && InBounds(order, |handlers|)
  {
    handlers[order[i]] == if i + 1 < |order| then order[i + 1] else |order|
  }

  lemma NextHandler(order: seq<nat>, handlers: seq<nat>, k: nat)
    requires IsChain(order, handlers) && k < |order|
    ensures order[k] < |handlers| && handlers[order[k]] == if k + 1 < |order| then order[k + 1] else |order|
  {
    assert LeadsOn(order, handlers, k);
  }

  lemma FirstTableIsOpen(e: Episode, flags: seq<int>, idx: seq<int>, row: int)
    requires EpisodeOk(e) && FlagsMatch(e.q, e.order, flags) && |idx| == |e.q.card|
    ensures !RejectsRow(e.q, flags, e.order[0], idx, row)
  {
    PassesFlagsAtPosition(e.q, e.order, flags, 0, idx[e.order[0] := row]);
  }

  /** Invariant of the row loop of a table function. */
  ghost predicate Progressing(e: Episode, k: nat, base: seq<int>, budget: int, resume: bool,
                              next: int, left: int, cont: bool, emitted: set<seq<int>>)
  {
    && EpisodeOk(e) && k < |e.order| && Picked(e, k, base)
    && (resume ==> InRange(e.q.card, e.p) && Same(e.order, k, base, e.p)) && (!resume ==> Ahead(e, k, base))
    && e.offset[e.order[k]] < next <= e.q.card[e.order[k]]
    && 1 <= left <= budget
    && CompleteBelow(e, k, base, next, resume, emitted)
    && (cont ==> resume && next == e.p[e.order[k]] && left == budget)
    && (resume && !cont ==> next > e.p[e.order[k]])
    && Spent(e, k, base, budget, resume, next, left)
  }

  /** Either something was gained or little budget was spent. */
  ghost predicate Spent(e: Episode, k: nat, base: seq<int>, budget: int, resume: bool, next: int, left: int)
    requires EpisodeOk(e) && k < |e.order| && |base| == |e.q.card|
  {
    || GainedBelow(e, k, base, next, resume)
    || left == budget
    || (resume && e.offset[e.order[k]] < e.p[e.order[k]] && LastOfPrefix(e, k + 1) && budget - left <= |e.order| - k)
  }

  // ----- the valid-tuple handler -----

  lemma PickedMatches(e: Episode, idx: seq<int>)
    requires EpisodeOk(e) && Picked(e, |e.order|, idx)
    ensures InRange(e.q.card, idx) && Matches(e.q, idx)
  {
    forall t: nat | t < |idx| ensures 0 <= idx[t] < e.q.card[t] {
      assert t in e.order;
      var j :| 0 <= j < |e.order| && e.order[j] == t;
      assert e.offset[e.order[j]] < idx[e.order[j]];
    }
    MatchesByPosition(e.q, e.order, idx);
  }

  lemma SingleVector(e: Episode, idx: seq<int>, resume: bool, emitted: set<seq<int>>)
    requires EpisodeOk(e) && |idx| == |e.q.card| && idx in emitted
    ensures Complete(e, |e.order|, idx, resume, emitted)
  {
    forall v | Extends(e, |e.order|, idx, v) ensures Done(e, resume, emitted, v) {
      ViewInjective(e.order, v, idx);
    }
  }

  // ----- the row loop -----

  lemma RowFailsFlags(e: Episode, flags: seq<int>, k: nat, base: seq<int>, idx: seq<int>, row: int)
    requires EpisodeOk(e) && FlagsMatch(e.q, e.order, flags) && k < |e.order|
    requires |base| == |idx| == |e.q.card| && Same(e.order, k, idx, base)
    requires RejectsRow(e.q, flags, e.order[k], idx, row)
    ensures RowFails(e, k, base, row)
  {
    PassesFlagsAtPosition(e.q, e.order, flags, k, idx[e.order[k] := row]);
    PassesAtIsLocal(e.q, e.order, k, idx[e.order[k] := row], base[e.order[k] := row]);
  }

  lemma EmptyBucket(e: Episode, flags: seq<int>, k: nat, base: seq<int>, resume: bool, emitted: set<seq<int>>)
    requires EpisodeOk(e) && FlagsMatch(e.q, e.order, flags) && k < |e.order| && |base| == |e.q.card|
    requires forall row :: 0 <= row < e.q.card[e.order[k]] ==> RejectsRow(e.q, flags, e.order[k], base, row)
    ensures CompleteBelow(e, k, base, e.q.card[e.order[k]], resume, emitted)
    ensures Complete(e, k, base, resume, emitted)
  {
    var card := e.q.card[e.order[k]];
    forall row | 0 <= row < card ensures RowFails(e, k, base, row) {
      RowFailsFlags(e, flags, k, base, base, row);
    }
    assert CompleteBelow(e, k, base, 0, resume, emitted);
    RejectedRows(e, k, base, 0, card, resume, emitted);
    BelowCardIsAll(e, k, base, resume, emitted);
  }

  lemma EmptyBucketStop(e: Episode, k: nat, base: seq<int>, resume: bool, emitted: set<seq<int>>)
    requires EpisodeOk(e) && k < |e.order| && Picked(e, k, base)
    requires CompleteBelow(e, k, base, e.q.card[e.order[k]], resume, emitted)
    ensures Outcome(e, k, base, 1, resume, -1, k, base[e.order[k] := e.q.card[e.order[k]] - 1], emitted)
  {
    GiveUpHere(e, k, base, base[e.order[k] := e.q.card[e.order[k]] - 1], -1, resume, emitted);
  }

  lemma EmptyBucketReturn(e: Episode, k: nat, base: seq<int>, budget: int, resume: bool, emitted: set<seq<int>>)
    requires EpisodeOk(e) && k < |e.order| && |base| == |e.q.card| && budget > 1 &&
             Complete(e, k, base, resume, emitted)
    ensures Outcome(e, k, base, budget, resume, budget - 1, k, base, emitted)
  {
  }

  lemma OutcomeSame(e: Episode, k: nat, base: seq<int>, budget: int, resume: bool, ret: int, c: nat, idx: seq<int>,
                    emitted: set<seq<int>>)
    requires EpisodeOk(e) && k <= |e.order| && |idx| == |base| == |e.q.card| &&
             Outcome(e, k, base, budget, resume, ret, c, idx, emitted)
    ensures Same(e.order, k, idx, base)
    ensures k > 0 ==> idx[e.order[k - 1]] == base[e.order[k - 1]] && Same(e.order, k - 1, idx, base)
  {
  }

  lemma BelowCardIsAll(e: Episode, k: nat, base: seq<int>, resume: bool, emitted: set<seq<int>>)
    requires EpisodeOk(e) && k < |e.order| && |base| == |e.q.card|
    requires CompleteBelow(e, k, base, e.q.card[e.order[k]], resume, emitted)
    ensures Complete(e, k, base, resume, emitted)
  {
  }

  lemma StartStep(e: Episode, k: nat, base: seq<int>, budget: int, resume: bool, next: int, cont: bool,
                  emitted: set<seq<int>>)
    requires EpisodeOk(e) && k < |e.order| && Picked(e, k, base) && 1 <= budget
    requires resume ==> InRange(e.q.card, e.p) && Same(e.order, k, base, e.p)
    requires !resume ==> Ahead(e, k, base)
    requires next == if resume &&
             e.p[e.order[k]] > e.offset[e.order[k]] then e.p[e.order[k]] else e.offset[e.order[k]] + 1
    requires cont == (resume && e.p[e.order[k]] > e.offset[e.order[k]])
    ensures Progressing(e, k, base, budget, resume, next, budget, cont, emitted)
  {
    SkippedRows(e, k, base, next, resume, emitted);
  }

  /** Rows passed over on the way to the next candidate fail their predicates. */
  lemma ReachRow(e: Episode, flags: seq<int>, k: nat, base: seq<int>, budget: int, resume: bool,
                 next: int, left: int, cont: bool, emitted: set<seq<int>>, idx: seq<int>, row: int)
    requires Progressing(e, k, base, budget, resume, next, left, cont, emitted) && FlagsMatch(e.q, e.order, flags)
    requires |idx| == |base| && Same(e.order, k, idx, base)
    requires next <= row <= e.q.card[e.order[k]]
    requires forall r :: next <= r < row ==> RejectsRow(e.q, flags, e.order[k], idx, r)
    ensures Progressing(e, k, base, budget, resume, row, left, cont && row == next, emitted)
  {
    forall r | next <= r < row ensures RowFails(e, k, base, r) {
      RowFailsFlags(e, flags, k, base, idx, r);
    }
    RejectedRows(e, k, base, next, row, resume, emitted);
    if GainedBelow(e, k, base, next, resume) {
      GainedBelowGrows(e, k, base, next, row, resume);
    }
  }

  lemma RejectStep(e: Episode, k: nat, base: seq<int>, budget: int, resume: bool, left: int, cont: bool,
                   emitted: set<seq<int>>, idx: seq<int>)
    requires EpisodeOk(e) && k < |e.order| && |idx| == |base| == |e.q.card| && Same(e.order, k, idx, base)
    requires Progressing(e, k, base, budget, resume, idx[e.order[k]], left, cont, emitted)
    requires idx[e.order[k]] < e.q.card[e.order[k]] && !PassesAt(e.q, e.order, k, idx)
    ensures left - 1 == 0 ==> Outcome(e, k, base, budget, resume, -1, k, idx, emitted)
    ensures left - 1 > 0 ==> Progressing(e, k, base, budget, resume, idx[e.order[k]] + 1, left - 1, false, emitted)
  {
    hide WellFormed, CompleteBelow, CompleteTo, Gained, GainedBelow, PassesAt;
    var row := idx[e.order[k]];
    PassesAtIsLocal(e.q, e.order, k, idx, base[e.order[k] := row]);
    assert RowFails(e, k, base, row);
    RejectedRows(e, k, base, row, row + 1, resume, emitted);
    GiveUpHere(e, k, base, idx, -1, resume, emitted);
    if !cont {
      GainByRow(e, k, base, row, resume);
    } else if !LastOfPrefix(e, k + 1) {
      GainByResumedRow(e, k, base);
    }
  }

  lemma StopStep(e: Episode, k: nat, base: seq<int>, budget: int, resume: bool, left: int, cont: bool,
                 emitted: set<seq<int>>, idx: seq<int>)
    requires EpisodeOk(e) && k < |e.order| && |idx| == |base| == |e.q.card| && Same(e.order, k, idx, base)
    requires Progressing(e, k, base, budget, resume, idx[e.order[k]], left, cont, emitted)
    requires idx[e.order[k]] < e.q.card[e.order[k]] && left - 1 == 0
    ensures Outcome(e, k, base, budget, resume, -2, k, idx, emitted)
  {
    GiveUpHere(e, k, base, idx, -2, resume, emitted);
  }

  /** The accepted row extends the chosen prefix. */
  lemma ChooseRow(e: Episode, k: nat, base: seq<int>, idx: seq<int>)
    requires EpisodeOk(e) && k < |e.order| && Picked(e, k, base)
    requires |idx| == |base| && Same(e.order, k, idx, base)
    requires e.offset[e.order[k]] < idx[e.order[k]] < e.q.card[e.order[k]] && PassesAt(e.q, e.order, k, idx)
    ensures Picked(e, k + 1, idx)
  {
    forall j | 0 <= j < k ensures PassesAt(e.q, e.order, j, idx) {
      PassesAtIsLocal(e.q, e.order, j, idx, base);
    }
  }

  lemma DescendStep(e: Episode, k: nat, base: seq<int>, budget: int, resume: bool, left: int, cont: bool,
                    emitted0: set<seq<int>>, called: seq<int>, ret: int, c: nat, idx: seq<int>, emitted: set<seq<int>>)
    requires EpisodeOk(e) && k < |e.order| && |called| == |base| == |idx| == |e.q.card| &&
             Same(e.order, k, called, base)
    requires Progressing(e, k, base, budget, resume, called[e.order[k]], left, cont, emitted0) && emitted0 <= emitted
    requires Outcome(e, k + 1, called, left - 1, cont, ret, c, idx, emitted) && ret < 0
    ensures Outcome(e, k, base, budget, resume, ret, c, idx, emitted)
  {
    var row := called[e.order[k]];
    assert idx[e.order[k]] == row;
    assert Same(e.order, k, idx, base);
    CompleteBelowGrows(e, k, base, row, resume, emitted0, emitted);
    GiveUpBelow(e, k, base, called, idx, c, ret, cont, resume, emitted);
    if Gained(e, k + 1, called, c, ret, idx, cont) || GainedBelow(e, k, base, row, resume) {
      GainBelow(e, k, base, called, idx, c, ret, cont, resume, row);
    }
  }

  lemma ReturnStep(e: Episode, k: nat, base: seq<int>, budget: int, resume: bool, left: int, cont: bool,
                   emitted0: set<seq<int>>, called: seq<int>, ret: int, c: nat, idx: seq<int>, emitted: set<seq<int>>)
    requires EpisodeOk(e) && k < |e.order| && |called| == |base| == |idx| == |e.q.card| &&
             Same(e.order, k, called, base)
    requires Progressing(e, k, base, budget, resume, called[e.order[k]], left, cont, emitted0) && emitted0 <= emitted
    requires called[e.order[k]] < e.q.card[e.order[k]]
    requires Outcome(e, k + 1, called, left - 1, cont, ret, c, idx, emitted) && ret >= 0
    ensures Progressing(e, k, base, budget, resume, called[e.order[k]] + 1, ret, false, emitted)
    ensures Same(e.order, k, idx, base)
  {
    var row := called[e.order[k]];
    CompleteBelowGrows(e, k, base, row, resume, emitted0, emitted);
    SubtreeDone(e, k, base, called, cont, resume, emitted);
    if !cont {
      GainByRow(e, k, base, row, resume);
    } else if !LastOfPrefix(e, k + 1) {
      GainByResumedRow(e, k, base);
    }
  }

  lemma FinishStep(e: Episode, k: nat, base: seq<int>, budget: int, resume: bool, left: int, cont: bool,
                   emitted: set<seq<int>>, idx: seq<int>, c: nat)
    requires EpisodeOk(e) && k < |e.order| && |idx| == |base| == |e.q.card| && Same(e.order, k, idx, base)
    requires Progressing(e, k, base, budget, resume, e.q.card[e.order[k]], left, cont, emitted)
    ensures Outcome(e, k, base, budget, resume, left, c, idx, emitted)
  {
    BelowCardIsAll(e, k, base, resume, emitted);
    if resume && LastOfPrefix(e, k) {
      NoGainAtLast(e, k, base, e.q.card[e.order[k]]);
    }
  }
}
