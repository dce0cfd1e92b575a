/** Kahn's algorithm with a queue that is sorted before every pop. */
module TopoOrder {
  import opened Collections
  import opened Ordering

  type Deps = map<string, set<string>>

  ghost predicate WellFormed(names: seq<string>, deps: Deps) {
    && Distinct(names)
    && (forall n :: n in names <==> n in deps)
    && (forall n, d | n in deps && d in deps[n] :: d in deps)
  }

  ghost predicate Ready(deps: Deps, done: set<string>, n: string)
    requires n in deps
  {
    deps[n] <= done
  }

  ghost predicate LeastReady(deps: Deps, done: set<string>, pending: set<string>, n: string) {
    && n in pending && n in deps && Ready(deps, done, n)
    && forall m | m in pending && m in deps && Ready(deps, done, m) :: StrLe(n, m)
  }

  ghost predicate SomeReady(deps: Deps, done: set<string>, pending: set<string>) {
    exists n :: LeastReady(deps, done, pending, n)
  }

  /** What the loop pops: again and again the least name whose dependencies have all been popped. */
  ghost function Kahn(deps: Deps, done: set<string>, pending: set<string>): seq<string>
    decreases |pending|
  {
    if SomeReady(deps, done, pending) then
      var n :| LeastReady(deps, done, pending, n);
      [n] + Kahn(deps, done + {n}, pending - {n})
    else []
  }

  lemma {:induction false} LeastIsUnique(deps: Deps, done: set<string>, pending: set<string>, n: string, m: string)
    requires LeastReady(deps, done, pending, n) && LeastReady(deps, done, pending, m)
    ensures n == m
  {
    StrLeIsTotalOrder();
    hide StrLe;
    assert StrLe(n, m) && StrLe(m, n);
  }

  lemma {:induction false} KahnStep(deps: Deps, done: set<string>, pending: set<string>, n: string)
    requires LeastReady(deps, done, pending, n)
    ensures Kahn(deps, done, pending) == [n] + Kahn(deps, done + {n}, pending - {n})
  {
    hide LeastReady;
    assert SomeReady(deps, done, pending);
    var m :| LeastReady(deps, done, pending, m)
      && Kahn(deps, done, pending) == [m] + Kahn(deps, done + {m}, pending - {m});
    LeastIsUnique(deps, done, pending, n, m);
  }

  // ----- the algorithm -----

  ghost predicate Degrees(deps: Deps, done: set<string>, inDegree: map<string, nat>) {
    forall n | n in deps && n !in done :: n in inDegree && inDegree[n] == |deps[n] - done|
  }

  /** The queue holds exactly the pending names without missing dependencies. */
  ghost predicate Queued(deps: Deps, done: set<string>, inDegree: map<string, nat>, queue: seq<string>) {
    && Distinct(queue)
    && (forall n | n in deps && n !in done :: n in inDegree)
    && forall n :: n in queue <==> n in deps && n !in done && inDegree[n] == 0
  }

  /** The dependency edges, turned round. */
  ghost predicate IsGraph(deps: Deps, graph: map<string, set<string>>) {
    && (forall n :: n in graph <==> n in deps)
    && (forall n, d | n in graph :: d in graph[n] <==> d in deps && n in deps[d])
  }

  /** Whatever has been placed had its dependencies placed. */
  ghost predicate Closed(deps: Deps, done: set<string>) {
    forall n | n in done && n in deps :: deps[n] <= done
  }

  method Dependents(deps: Deps) returns (graph: map<string, set<string>>)
    ensures IsGraph(deps, graph)
  {
    graph := map n | n in deps :: (set d | d in deps && n in deps[d]);
  }

  /** While dependents are being released, the first k of them already miss one name less. */
  ghost predicate Releasing(deps: Deps, done: set<string>, node: string, released: seq<string>,
                            inDegree: map<string, nat>) {
    forall n | n in deps && n !in done + {node} ::
      n in inDegree && inDegree[n] == (if n in released then |deps[n] - (done + {node})| else |deps[n] - done|)
  }

  lemma {:induction false} ReleaseOne(deps: Deps, done: set<string>, node: string, released: seq<string>, d: string,
                                      inDegree: map<string, nat>)
    requires d in deps && node in deps[d] && node !in done && d !in done && d != node && d !in released
    requires Releasing(deps, done, node, released, inDegree)
    ensures d in inDegree && inDegree[d] > 0
    ensures Releasing(deps, done, node, released + [d], inDegree[d := inDegree[d] - 1])
  {
    OneFewer(deps[d], done, node);
  }

  lemma {:induction false} AllReleased(deps: Deps, done: set<string>, node: string, released: seq<string>,
                                       inDegree: map<string, nat>)
    requires forall d :: d in released <==> d in deps && node in deps[d]
    requires Releasing(deps, done, node, released, inDegree)
    ensures Degrees(deps, done + {node}, inDegree)
  {
    forall n | n in deps && n !in done + {node} ensures inDegree[n] == |deps[n] - (done + {node})| {
      if n !in released { assert deps[n] - (done + {node}) == deps[n] - done; }
    }
  }

  lemma {:induction false} QueueOne(deps: Deps, done: set<string>, inDegree: map<string, nat>, queue: seq<string>,
                                    d: string)
    requires Queued(deps, done, inDegree, queue) && d in deps && d !in done && d in inDegree && inDegree[d] > 0
    ensures Queued(deps, done, inDegree[d := inDegree[d] - 1], if inDegree[d] == 1 then queue + [d] else queue)
  {
    assert d !in queue;
  }

  /** Each dependent loses a missing dependency and joins the queue when that was its last. */
  method Release(deps: Deps, dependents: seq<string>, ghost done: set<string>, node: string,
                 inDegree: map<string, nat>, queue: seq<string>)
    returns (inDegree': map<string, nat>, queue': seq<string>)
    requires Distinct(dependents) && forall d :: d in dependents <==> d in deps && node in deps[d]
    requires node !in done && forall d | d in dependents :: d !in done && d != node
    requires Degrees(deps, done, inDegree) && Queued(deps, done + {node}, inDegree, queue)
    ensures Degrees(deps, done + {node}, inDegree') && Queued(deps, done + {node}, inDegree', queue')
  {
    inDegree', queue' := inDegree, queue;
    var k := 0;
    assert Releasing(deps, done, node, dependents[..k], inDegree');
    hide Degrees, Releasing, Queued;
    while k < |dependents|
      invariant 0 <= k <= |dependents|
      invariant Releasing(deps, done, node, dependents[..k], inDegree')
      invariant Queued(deps, done + {node}, inDegree', queue')
    {
      var d := dependents[k];
      assert d in dependents && d !in dependents[..k];
      ReleaseOne(deps, done, node, dependents[..k], d, inDegree');
      assert dependents[..k + 1] == dependents[..k] + [d];
      QueueOne(deps, done + {node}, inDegree', queue', d);
      inDegree' := inDegree'[d := inDegree'[d] - 1];
      if inDegree'[d] == 0 {
        queue' := queue' + [d];
      }
      k := k + 1;
    }
    assert dependents[..k] == dependents;
    AllReleased(deps, done, node, dependents, inDegree');
  }

  lemma {:induction false} OneFewer(needs: set<string>, done: set<string>, node: string)
    requires node in needs && node !in done
    ensures |needs - done| > 0 && |needs - (done + {node})| == |needs - done| - 1
  {
    assert needs - (done + {node}) == (needs - done) - {node};
  }

  lemma {:induction false} ReadyMeansNoneMissing(needs: set<string>, done: set<string>)
    ensures |needs - done| == 0 <==> needs <= done
  {
    if needs <= done { assert needs - done == {}; }
    assert forall x | x in needs && x !in done :: x in needs - done;
  }

  /** The first element of the sorted queue is the least ready name. */
  lemma {:induction false} HeadIsLeastReady(deps: Deps, done: set<string>, inDegree: map<string, nat>,
                                            queue: seq<string>)
    requires queue != [] && Degrees(deps, done, inDegree) && Queued(deps, done, inDegree, queue) && Sorted(StrLe, queue)
    ensures LeastReady(deps, done, deps.Keys - done, queue[0])
  {
    StrLeIsTotalOrder();
    forall n | n in deps && n !in done ensures n in queue <==> Ready(deps, done, n) {
      ReadyMeansNoneMissing(deps[n], done);
    }
    assert queue[0] in queue;
    forall m | m in deps.Keys - done && Ready(deps, done, m) ensures StrLe(queue[0], m) {
      assert m in queue;
      var j :| 0 <= j < |queue| && queue[j] == m;
    }
  }

  lemma {:induction false} EmptyQueueMeansDone(deps: Deps, done: set<string>, inDegree: map<string, nat>)
    requires Degrees(deps, done, inDegree) && Queued(deps, done, inDegree, [])
    ensures Kahn(deps, done, deps.Keys - done) == []
  {
    var nothing: seq<string> := [];
    forall n | n in deps && n !in done ensures !Ready(deps, done, n) {
      ReadyMeansNoneMissing(deps[n], done);
      assert n !in nothing;
    }
  }

  function Remaining(names: seq<string>, placed: seq<string>): seq<string> {
    if names == [] then [] else (if names[0] in placed then [] else [names[0]]) + Remaining(names[1..], placed)
  }

  function WithoutDeps(names: seq<string>, inDegree: map<string, nat>): (queue: seq<string>)
    requires forall n | n in names :: n in inDegree
    ensures Distinct(names) ==> Distinct(queue)
    ensures forall n :: n in queue <==> n in names && inDegree[n] == 0
  {
    if names == [] then []
    else
      assert names[0] in names && forall n | n in names[1..] :: n in names;
      (if inDegree[names[0]] == 0 then [names[0]] else []) + WithoutDeps(names[1..], inDegree)
  }

  ghost function SortedNames(names: seq<string>, deps: Deps): seq<string> {
    var placed := Kahn(deps, {}, deps.Keys);
    placed + Remaining(names, placed)
  }

  lemma {:induction false} SortQueue(deps: Deps, done: set<string>, inDegree: map<string, nat>, queue: seq<string>)
    requires Queued(deps, done, inDegree, queue)
    ensures Queued(deps, done, inDegree, Sort(StrLe, queue)) && Sorted(StrLe, Sort(StrLe, queue))
  {
    StrLeIsTotalOrder();
    SortSorted(StrLe, queue);
    SortDistinct(StrLe, queue);
  }

  lemma {:induction false} PopQueue(deps: Deps, done: set<string>, inDegree: map<string, nat>, queue: seq<string>)
    requires queue != [] && Queued(deps, done, inDegree, queue)
    ensures Queued(deps, done + {queue[0]}, inDegree, queue[1..])
  {
    assert queue == [queue[0]] + queue[1..];
  }

  /** Nothing that depends on a pending name has been placed. */
  lemma {:induction false} NotYetDone(deps: Deps, done: set<string>, node: string, d: string)
    requires Closed(deps, done)
    requires LeastReady(deps, done, deps.Keys - done, node)
    requires d in deps && node in deps[d]
    ensures d !in done && d != node && node !in done
  {
  }

  /** Where the loop stands once it has placed `result`. */
  ghost predicate Reached(deps: Deps, result: seq<string>, inDegree: map<string, nat>, queue: seq<string>) {
    var done := Elements(result);
    && Closed(deps, done)
    && Degrees(deps, done, inDegree) && Queued(deps, done, inDegree, queue)
    && Kahn(deps, {}, deps.Keys) == result + Kahn(deps, done, deps.Keys - done)
  }

  lemma {:induction false} Advance(deps: Deps, result: seq<string>, node: string, inDegree: map<string, nat>,
                                   queue: seq<string>)
    requires Closed(deps, Elements(result)) && LeastReady(deps, Elements(result), deps.Keys - Elements(result), node)
    requires Kahn(deps, {}, deps.Keys) == result + Kahn(deps, Elements(result), deps.Keys - Elements(result))
    requires Degrees(deps, Elements(result) + {node}, inDegree)
             && Queued(deps, Elements(result) + {node}, inDegree, queue)
    ensures Reached(deps, result + [node], inDegree, queue)
    ensures |deps.Keys - Elements(result + [node])| < |deps.Keys - Elements(result)|
  {
    hide Degrees, Queued, LeastReady, Kahn, Closed;
    var done := Elements(result);
    assert Elements(result + [node]) == done + {node};
    KahnStep(deps, done, deps.Keys - done, node);
    Popped(deps, done, node);
    Regroup(result, node, Kahn(deps, done + {node}, deps.Keys - (done + {node})));
  }

  /** Sort the queue: its head is the least ready name. */
  method TakeLeast(deps: Deps, ghost done: set<string>, inDegree: map<string, nat>, queue: seq<string>)
    returns (node: string, rest: seq<string>)
    requires queue != [] && Degrees(deps, done, inDegree) && Queued(deps, done, inDegree, queue)
    ensures LeastReady(deps, done, deps.Keys - done, node)
    ensures Queued(deps, done + {node}, inDegree, rest)
  {
    hide Degrees, Queued, Sort, LeastReady, StrLe, Sorted;
    SortQueue(deps, done, inDegree, queue);
    var sorted := Sort(StrLe, queue);
    HeadIsLeastReady(deps, done, inDegree, sorted);
    node := sorted[0];
    PopQueue(deps, done, inDegree, sorted);
    rest := sorted[1..];
  }

  /** One round of the loop: take the least ready name and release its dependents. */
  method PlaceLeast(deps: Deps, graph: map<string, set<string>>, result: seq<string>, inDegree: map<string, nat>,
                    queue: seq<string>)
    returns (node: string, inDegree': map<string, nat>, queue': seq<string>)
    requires queue != [] && IsGraph(deps, graph) && Reached(deps, result, inDegree, queue)
    ensures Reached(deps, result + [node], inDegree', queue')
    ensures |deps.Keys - Elements(result + [node])| < |deps.Keys - Elements(result)|
  {
    hide Degrees, Queued, LeastReady, Kahn, Closed;
    ghost var done := Elements(result);
    var rest;
    node, rest := TakeLeast(deps, done, inDegree, queue);
    Popped(deps, done, node);
    var dependents := SortedList(graph[node]);
    forall d | d in dependents ensures d !in done && d != node { NotYetDone(deps, done, node, d); }
    inDegree', queue' := Release(deps, dependents, done, node, inDegree, rest);
    Advance(deps, result, node, inDegree', queue');
  }

  /** `_topo_sort_shared`, from the collected dependencies on. */
  method TopoSort(names: seq<string>, deps: Deps) returns (result: seq<string>)
    requires WellFormed(names, deps)
    ensures result == SortedNames(names, deps)
  {
    var inDegree, graph, queue := Prepare(names, deps);
    result := [];
    Start(deps, inDegree, queue);
    hide Reached, Kahn, IsGraph, Elements, Remaining;
    while queue != []
      invariant Reached(deps, result, inDegree, queue)
      decreases |deps.Keys - Elements(result)|
    {
      var node;
      node, inDegree, queue := PlaceLeast(deps, graph, result, inDegree, queue);
      result := result + [node];
    }
    Finish(deps, result, inDegree);
    result := result + Remaining(names, result);
  }

  lemma {:induction false} Start(deps: Deps, inDegree: map<string, nat>, queue: seq<string>)
    requires Degrees(deps, {}, inDegree) && Queued(deps, {}, inDegree, queue)
    ensures Reached(deps, [], inDegree, queue)
  {
    hide Degrees, Queued, Kahn;
    assert Elements([]) == {} && deps.Keys - {} == deps.Keys;
  }

  lemma {:induction false} Finish(deps: Deps, result: seq<string>, inDegree: map<string, nat>)
    requires Reached(deps, result, inDegree, [])
    ensures Kahn(deps, {}, deps.Keys) == result
  {
    hide Degrees, Queued, Kahn, Closed;
    EmptyQueueMeansDone(deps, Elements(result), inDegree);
  }

  method Prepare(names: seq<string>, deps: Deps)
    returns (inDegree: map<string, nat>, graph: map<string, set<string>>, queue: seq<string>)
    requires WellFormed(names, deps)
    ensures Degrees(deps, {}, inDegree) && Queued(deps, {}, inDegree, queue)
    ensures IsGraph(deps, graph)
  {
    inDegree := map n | n in deps :: |deps[n]|;
    graph := Dependents(deps);
    queue := WithoutDeps(names, inDegree);
    forall n | n in deps ensures deps[n] - {} == deps[n] {}
  }

  lemma {:induction false} Regroup(a: seq<string>, x: string, b: seq<string>)
    ensures a + ([x] + b) == (a + [x]) + b
  {
  }

  lemma {:induction false} Popped(deps: Deps, done: set<string>, node: string)
    requires Closed(deps, done) && LeastReady(deps, done, deps.Keys - done, node)
    ensures Closed(deps, done + {node})
    ensures node in deps && node !in done && deps[node] <= done
    ensures deps.Keys - done - {node} == deps.Keys - (done + {node})
    ensures |deps.Keys - (done + {node})| < |deps.Keys - done|
  {
    assert deps.Keys - (done + {node}) == deps.Keys - done - {node};
  }

  /** `sorted` of a set; only its elements matter here. */
  method SortedList(s: set<string>) returns (r: seq<string>)
    ensures Distinct(r) && forall x :: x in r <==> x in s
  {
    r := [];
    var rest := s;
    while rest != {}
      invariant rest <= s && Distinct(r) && forall x :: x in r <==> x in s && x !in rest
    {
      var x :| x in rest;
      r := r + [x];
      rest := rest - {x};
    }
    SortDistinct(StrLe, r);
    r := Sort(StrLe, r);
  }
}
