/** Focusing a node without path ids: the queue search for its component, and the edges it lights up. */
module FocusSearch {

  /** A rendered link: its endpoint ids, '' when missing. */
  type Edge = (string, string)

  predicate Usable(e: Edge) {
    e.0 != "" && e.1 != ""
  }

  ghost predicate Adjacent(links: seq<Edge>, a: string, b: string) {
    exists e :: e in links && Usable(e) && (e == (a, b) || e == (b, a))
  }

  ghost predicate IsChain(links: seq<Edge>, p: seq<string>) {
    p != [] && forall i | 0 < i < |p| :: Adjacent(links, p[i - 1], p[i])
  }

  /** Joined by links, ignoring their direction. */
  ghost predicate Connected(links: seq<Edge>, a: string, b: string) {
    exists p :: IsChain(links, p) && p[0] == a && p[|p| - 1] == b
  }

  lemma ConnectedToItself(links: seq<Edge>, a: string)
    ensures Connected(links, a, a)
  {
    assert IsChain(links, [a]);
  }

  lemma ConnectedStep(links: seq<Edge>, a: string, b: string, c: string)
    requires Connected(links, a, b) && Adjacent(links, b, c)
    ensures Connected(links, a, c)
  {
    var p :| IsChain(links, p) && p[0] == a && p[|p| - 1] == b;
    var q := p + [c];
    forall i | 0 < i < |q| ensures Adjacent(links, q[i - 1], q[i]) {
      assert i < |p| ==> Adjacent(links, p[i - 1], p[i]);
    }
    assert IsChain(links, q);
  }

  ghost predicate Closed(links: seq<Edge>, s: set<string>) {
    forall a, b | a in s && Adjacent(links, a, b) :: b in s
  }

  lemma {:induction false} ChainStaysInside(links: seq<Edge>, s: set<string>, p: seq<string>)
    requires Closed(links, s) && IsChain(links, p) && p[0] in s
    ensures p[|p| - 1] in s
  {
    var n := |p| - 1;
    if n > 0 {
      forall i | 0 < i < n ensures Adjacent(links, p[..n][i - 1], p[..n][i]) {
        assert Adjacent(links, p[i - 1], p[i]);
      }
      ChainStaysInside(links, s, p[..n]);
      assert Adjacent(links, p[n - 1], p[n]);
    }
  }

  type Adjacency = map<string, set<string>>

  function Neighbours(adj: Adjacency, a: string): set<string> {
    if a in adj then adj[a] else {}
  }

  function Joined(adj: Adjacency, a: string, b: string): Adjacency {
    adj[a := Neighbours(adj, a) + {b}]
  }

  ghost predicate Describes(adj: Adjacency, links: seq<Edge>) {
    forall a, b :: b in Neighbours(adj, a) <==> Adjacent(links, a, b)
  }

  method BuildAdjacency(links: seq<Edge>) returns (adj: Adjacency)
    ensures Describes(adj, links)
  {
    adj := map[];
    for i := 0 to |links|
      invariant Describes(adj, links[..i])
    {
      var e := links[i];
      ghost var before := adj;
      if Usable(e) {
        adj := Joined(Joined(adj, e.0, e.1), e.1, e.0);
      }
      forall a, b ensures b in Neighbours(adj, a) <==> Adjacent(links[..i + 1], a, b) {
        assert links[..i + 1] == links[..i] + [e];
        assert Adjacent(links[..i + 1], a, b) <==>
               Adjacent(links[..i], a, b) || (Usable(e) && (e == (a, b) || e == (b, a)));
      }
    }
    assert links[..|links|] == links;
  }

  function Ends(links: seq<Edge>): set<string> {
    (set e | e in links :: e.0) + (set e | e in links :: e.1)
  }

  function Members(queue: seq<string>): set<string> {
    set x | x in queue
  }

  ghost predicate AllConnected(links: seq<Edge>, focus: string, s: set<string>) {
    forall x | x in s :: Connected(links, focus, x)
  }

  /** Visits the neighbours of one queue entry. */
  method Visit(links: seq<Edge>, focus: string, current: string, next: set<string>, queue: seq<string>)
    returns (queue': seq<string>)
    requires AllConnected(links, focus, Members(queue)) && current in queue
    requires forall b | b in next :: Adjacent(links, current, b)
    ensures Members(queue') == Members(queue) + next && queue <= queue'
    ensures AllConnected(links, focus, Members(queue'))
    ensures next <= Members(queue) ==> queue' == queue
  {
    queue' := queue;
    var rest := next;
    while rest != {}
      invariant rest <= next && queue <= queue'
      invariant next - rest <= Members(queue') <= Members(queue) + next
      invariant AllConnected(links, focus, Members(queue'))
      invariant next <= Members(queue) ==> queue' == queue
      decreases |rest|
    {
      var b :| b in rest;
      if b !in queue' {
        Push(links, focus, queue', current, b);
        queue' := queue' + [b];
      }
      rest := rest - {b};
    }
    assert Members(queue) <= Members(queue');
  }

  lemma Push(links: seq<Edge>, focus: string, queue: seq<string>, current: string, b: string)
    requires AllConnected(links, focus, Members(queue)) && current in queue && Adjacent(links, current, b)
    ensures Members(queue + [b]) == Members(queue) + {b} && AllConnected(links, focus, Members(queue + [b]))
  {
    assert current in Members(queue);
    ConnectedStep(links, focus, current, b);
  }

  /** Every entry before position `i` has its neighbours queued. */
  ghost predicate Expanded(adj: Adjacency, queue: seq<string>, i: nat) {
    forall j | 0 <= j < i && j < |queue| :: Neighbours(adj, queue[j]) <= Members(queue)
  }

  /** The queue search: it stops, with exactly the nodes connected to the focus. */
  method Component(links: seq<Edge>, focus: string) returns (seen: set<string>)
    ensures forall x :: x in seen <==> Connected(links, focus, x)
  {
    var adj := BuildAdjacency(links);
    var queue := [focus];
    ConnectedToItself(links, focus);
    ghost var universe := Ends(links) + {focus};
    var i := 0;
    while i < |queue|
      invariant 0 <= i <= |queue| && [focus] <= queue
      invariant AllConnected(links, focus, Members(queue))
      invariant Expanded(adj, queue, i)
      invariant Members(queue) <= universe
      decreases |universe - Members(queue)|, |queue| - i
    {
      var current := queue[i];
      var next := Neighbours(adj, current);
      ghost var before := queue;
      NeighboursAreEnds(adj, links, current);
      queue := Visit(links, focus, current, next, queue);
      Shrinks(universe, Members(before), Members(queue));
      StillExpanded(adj, before, queue, i);
      i := i + 1;
    }
    seen := Members(queue);
    QueueIsComplete(adj, links, queue, focus);
  }

  lemma StillExpanded(adj: Adjacency, before: seq<string>, after: seq<string>, i: nat)
    requires i < |before| && before <= after && Expanded(adj, before, i)
    requires Neighbours(adj, before[i]) <= Members(after)
    ensures Expanded(adj, after, i + 1)
  {
    assert Members(before) <= Members(after);
  }

  lemma NeighboursAreEnds(adj: Adjacency, links: seq<Edge>, a: string)
    requires Describes(adj, links)
    ensures Neighbours(adj, a) <= Ends(links)
    ensures forall b | b in Neighbours(adj, a) :: Adjacent(links, a, b)
  {
    forall b | b in Neighbours(adj, a) ensures b in Ends(links) {
      assert Adjacent(links, a, b);
    }
  }

  lemma QueueIsComplete(adj: Adjacency, links: seq<Edge>, queue: seq<string>, focus: string)
    requires Describes(adj, links) && Expanded(adj, queue, |queue|) && focus in queue
    ensures forall x | Connected(links, focus, x) :: x in Members(queue)
  {
    forall a, b | a in Members(queue) && Adjacent(links, a, b) ensures b in Members(queue) {
      var j :| 0 <= j < |queue| && queue[j] == a;
      assert b in Neighbours(adj, a);
    }
    ClosedIsComplete(links, focus, Members(queue));
  }

  lemma ClosedIsComplete(links: seq<Edge>, focus: string, s: set<string>)
    requires focus in s && Closed(links, s)
    ensures forall x | Connected(links, focus, x) :: x in s
  {
    forall x | Connected(links, focus, x) ensures x in s {
      var p :| IsChain(links, p) && p[0] == focus && p[|p| - 1] == x;
      ChainStaysInside(links, s, p);
    }
  }

  lemma Shrinks(u: set<string>, before: set<string>, after: set<string>)
    requires before <= after <= u
    ensures before != after ==> |u - after| < |u - before|
    ensures before == after ==> |u - after| == |u - before|
  {
    if b :| b in after && b !in before {
      assert u - after <= (u - before) - {b};
      SubsetSize(u - after, (u - before) - {b});
    }
  }

  lemma SubsetSize(s: set<string>, t: set<string>)
    requires s <= t
    ensures |s| <= |t|
  {
    assert t == s + (t - s);
  }

  /**
   The edge pass over the finished component: it adds no node, and it selects exactly the
   links with both ends known that touch the component.
   */
  method FocusEdges(links: seq<Edge>, focus: string, component: set<string>)
    returns (nodes: set<string>, keys: set<Edge>)
    requires forall x :: x in component <==> Connected(links, focus, x)
    ensures nodes == component
    ensures forall e :: e in keys <==> e in links && Usable(e) && (e.0 in component || e.1 in component)
  {
    nodes, keys := component, {};
    for i := 0 to |links|
      invariant nodes == component
      invariant forall e :: e in keys <==>
        e in links[..i] && Usable(e) && (e.0 in component || e.1 in component)
    {
      var e := links[i];
      assert links[..i + 1] == links[..i] + [e];
      if Usable(e) {
        TouchedIsInside(links, focus, component, e);
      }
      if e.0 != "" && e.1 != "" && e.0 in nodes && e.1 in nodes {
        keys := keys + {e};
        nodes := nodes + {e.0} + {e.1};
      }
    }
    assert links[..|links|] == links;
  }

  lemma TouchedIsInside(links: seq<Edge>, focus: string, component: set<string>, e: Edge)
    requires e in links && Usable(e) && forall x :: x in component <==> Connected(links, focus, x)
    ensures e.0 in component <==> e.1 in component
  {
    assert Adjacent(links, e.0, e.1) && Adjacent(links, e.1, e.0);
    if e.0 in component { ConnectedStep(links, focus, e.0, e.1); }
    if e.1 in component { ConnectedStep(links, focus, e.1, e.0); }
  }
}
