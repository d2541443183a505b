// The error search of internal/errchecker/checker.go: a breadth-first walk over
// the errors wrapped by an error, which may share nodes and contain cycles.
module ErrorSearch {
  import opened Text
  import opened Wrappers

  // An error's identity stands for the interface value used as a map key.
  type Err = nat

  // `unwrap` is what errors.Unwrap returns, `joined` what an `Unwrap() []error` returns.
  datatype Node = Node(message: string, unwrap: Option<Err>, joined: seq<Err>)
  type Graph = map<Err, Node>

  // The error wraps c, by either of the two ways to wrap.
  predicate Wraps(n: Node, c: Err) {
    n.unwrap == Some(c) || c in n.joined
  }

  // Every wrapped error exists. In particular no multi-wrapper returns a nil entry,
  // which the errors package forbids.
  ghost predicate Closed(g: Graph) {
    forall e, c :: e in g && Wraps(g[e], c) ==> c in g
  }

  // What a visit puts on the queue.
  function Children(n: Node): (cs: seq<Err>)
    ensures forall c :: c in cs <==> Wraps(n, c)
  {
    (if n.unwrap.Some? then [n.unwrap.value] else []) + n.joined
  }

  ghost predicate IsPath(g: Graph, path: seq<Err>) {
    && path != []
    && (forall i :: 0 <= i < |path| ==> path[i] in g)
    && forall i :: 0 < i < |path| ==> Wraps(g[path[i - 1]], path[i])
  }

  ghost predicate Reachable(g: Graph, source: Err, dest: Err) {
    exists path :: IsPath(g, path) && path[0] == source && path[|path| - 1] == dest
  }

  predicate Matches(message: string, searchStrings: seq<string>) {
    exists k | 0 <= k < |searchStrings| :: Contains(message, searchStrings[k])
  }

  // The question both functions answer.
  ghost predicate SomeReachableMatches(g: Graph, err: Option<Err>, searchStrings: seq<string>) {
    err.Some? && exists e :: e in g && Reachable(g, err.value, e) && Matches(g[e].message, searchStrings)
  }

  // ---------------------------------------------------------------- the walk

  ghost predicate Explored(g: Graph, root: Err, visited: set<Err>, queue: seq<Err>, searchStrings: seq<string>) {
    && (forall e :: e in visited ==> e in g && Reachable(g, root, e) && !Matches(g[e].message, searchStrings))
    && (forall i :: 0 <= i < |queue| ==> queue[i] in g && Reachable(g, root, queue[i]))
    && (root in visited || root in queue)
    && (forall e, c :: e in visited && Wraps(g[e], c) ==> c in visited || c in queue)
  }

  lemma ReachableRoot(g: Graph, root: Err)
    requires root in g
    ensures Reachable(g, root, root)
  {
    assert IsPath(g, [root]);
  }

  lemma ReachableChild(g: Graph, root: Err, e: Err, child: Err)
    requires Closed(g) && e in g && Reachable(g, root, e) && Wraps(g[e], child)
    ensures Reachable(g, root, child)
  {
    var path :| IsPath(g, path) && path[0] == root && path[|path| - 1] == e;
    assert IsPath(g, path + [child]);
    assert (path + [child])[|path|] == child;
  }

  lemma {:induction false} ExploredCoversPath(g: Graph, root: Err, visited: set<Err>, searchStrings: seq<string>,
                                              path: seq<Err>, n: nat)
    requires Explored(g, root, visited, [], searchStrings)
    requires IsPath(g, path) && path[0] == root && n < |path|
    ensures path[n] in visited
  {
    if n > 0 {
      ExploredCoversPath(g, root, visited, searchStrings, path, n - 1);
      assert Wraps(g[path[n - 1]], path[n]);
    }
  }

  lemma ExploredAll(g: Graph, root: Err, visited: set<Err>, searchStrings: seq<string>)
    requires Explored(g, root, visited, [], searchStrings)
    ensures !SomeReachableMatches(g, Some(root), searchStrings)
  {
    forall e | e in g && Reachable(g, root, e)
      ensures !Matches(g[e].message, searchStrings)
    {
      var path :| IsPath(g, path) && path[0] == root && path[|path| - 1] == e;
      ExploredCoversPath(g, root, visited, searchStrings, path, |path| - 1);
    }
  }

  // Taking an unvisited, non-matching error off the queue keeps the walk's invariant.
  lemma VisitKeeps(g: Graph, root: Err, visited: set<Err>, queue: seq<Err>, searchStrings: seq<string>)
    requires Closed(g) && queue != [] && Explored(g, root, visited, queue, searchStrings)
    requires !Matches(g[queue[0]].message, searchStrings)
    ensures Explored(g, root, visited + {queue[0]}, queue[1..] + Children(g[queue[0]]), searchStrings)
  {
    var current, rest, children := queue[0], queue[1..], Children(g[queue[0]]);
    forall i | 0 <= i < |children|
      ensures children[i] in g && Reachable(g, root, children[i])
    {
      ReachableChild(g, root, current, children[i]);
    }
    forall x | x in queue
      ensures x in visited + {current} || x in rest + children
    {
    }
  }

  lemma SkipKeeps(g: Graph, root: Err, visited: set<Err>, queue: seq<Err>, searchStrings: seq<string>)
    requires queue != [] && queue[0] in visited && Explored(g, root, visited, queue, searchStrings)
    ensures Explored(g, root, visited, queue[1..], searchStrings)
  {
    forall x | x in queue
      ensures x in visited || x in queue[1..]
    {
    }
  }

  method ContainsAny(g: Graph, err: Option<Err>, searchStrings: seq<string>) returns (r: bool)
    requires Closed(g) && (err.Some? ==> err.value in g)
    ensures r <==> SomeReachableMatches(g, err, searchStrings)
  {
    if err.None? || |searchStrings| == 0 {
      return false;
    }
    var visited: set<Err> := {};
    var queue := [err.value];
    ReachableRoot(g, err.value);
    while |queue| > 0
      invariant Explored(g, err.value, visited, queue, searchStrings)
      decreases g.Keys - visited, |queue|
    {
      var current := queue[0];
      if current in visited {
        SkipKeeps(g, err.value, visited, queue, searchStrings);
        queue := queue[1..];
        continue;
      }
      var errMsg := g[current].message;
      for k := 0 to |searchStrings|
        invariant forall j :: 0 <= j < k ==> !Contains(errMsg, searchStrings[j])
      {
        if Contains(errMsg, searchStrings[k]) {
          return true;
        }
      }
      VisitKeeps(g, err.value, visited, queue, searchStrings);
      ghost var next := queue[1..] + Children(g[current]);
      visited, queue := visited + {current}, queue[1..];
      if g[current].unwrap.Some? {
        queue := queue + [g[current].unwrap.value];
      }
      queue := queue + g[current].joined;
      assert queue == next;
    }
    ExploredAll(g, err.value, visited, searchStrings);
    return false;
  }

  method ContainsNone(g: Graph, err: Option<Err>, searchStrings: seq<string>) returns (r: bool)
    requires Closed(g) && (err.Some? ==> err.value in g)
    ensures r <==> !SomeReachableMatches(g, err, searchStrings)
  {
    if err.None? || |searchStrings| == 0 {
      return true;
    }
    var visited: set<Err> := {};
    var queue := [err.value];
    ReachableRoot(g, err.value);
    while |queue| > 0
      invariant Explored(g, err.value, visited, queue, searchStrings)
      decreases g.Keys - visited, |queue|
    {
      var current := queue[0];
      if current in visited {
        SkipKeeps(g, err.value, visited, queue, searchStrings);
        queue := queue[1..];
        continue;
      }
      var errMsg := g[current].message;
      for k := 0 to |searchStrings|
        invariant forall j :: 0 <= j < k ==> !Contains(errMsg, searchStrings[j])
      {
        if Contains(errMsg, searchStrings[k]) {
          return false;
        }
      }
      VisitKeeps(g, err.value, visited, queue, searchStrings);
      ghost var next := queue[1..] + Children(g[current]);
      visited, queue := visited + {current}, queue[1..];
      if g[current].unwrap.Some? {
        queue := queue + [g[current].unwrap.value];
      }
      queue := queue + g[current].joined;
      assert queue == next;
    }
    ExploredAll(g, err.value, visited, searchStrings);
    return true;
  }
}
