/**
 * Paths in a directed graph given as a successor table. The friendship
 * searches of TechnionTunes and of the hamburger network walk such a
 * graph breadth-first; their results are stated as reachability here.
 */
module Graphs {

  /** Each node's successors. */
  type Graph = map<int, set<int>>

  /** Every successor is itself a node. */
  ghost predicate Closed(g: Graph)
  {
    forall x :: x in g ==> g[x] <= g.Keys
  }

  /** `p` is a walk along the edges of `g`. */
  ghost predicate IsPath(g: Graph, p: seq<int>)
  {
    && |p| >= 1
    && (forall i :: 0 <= i < |p| ==> p[i] in g)
    && (forall i :: 1 <= i < |p| ==> p[i] in g[p[i - 1]])
  }

  /** Some walk leads from `a` to `b` (a node reaches itself). */
  ghost predicate Reaches(g: Graph, a: int, b: int)
  {
    exists p :: IsPath(g, p) && p[0] == a && p[|p| - 1] == b
  }

  lemma ReachesSelf(g: Graph, a: int)
    requires a in g
    ensures Reaches(g, a, a)
  {
    assert IsPath(g, [a]);
  }

  /** A walk to `x` followed by an edge out of `x` is a walk. */
  lemma ReachesStep(g: Graph, a: int, x: int, y: int)
    requires Closed(g)
    requires Reaches(g, a, x) && x in g && y in g[x]
    ensures Reaches(g, a, y)
  {
    var p :| IsPath(g, p) && p[0] == a && p[|p| - 1] == x;
    var q := p + [y];
    assert q[|q| - 1] == y && q[|q| - 2] == x;
    assert IsPath(g, q);
  }

  /**
   * A set `v` that holds every successor of its members other than `b`,
   * none of which has an edge into `b`, cannot be left by a walk that starts
   * in it away from `b`.
   */
  lemma {:induction false} NoEscape(g: Graph, v: set<int>, b: int, p: seq<int>)
    requires IsPath(g, p) && p[0] in v && p[0] != b
    requires forall x :: x in v && x != b && x in g ==> b !in g[x] && g[x] <= v
    ensures p[|p| - 1] in v && p[|p| - 1] != b
    decreases |p|
  {
    if |p| > 1 {
      var q := p[..|p| - 1];
      assert IsPath(g, q);
      NoEscape(g, v, b, q);
      assert p[|p| - 1] in g[q[|q| - 1]];
    }
  }

  /** Consequently `b` is not reachable from any member of `v` other than `b`. */
  lemma Unreachable(g: Graph, v: set<int>, a: int, b: int)
    requires a in v && a != b
    requires forall x :: x in v && x != b && x in g ==> b !in g[x] && g[x] <= v
    ensures !Reaches(g, a, b)
  {
    if Reaches(g, a, b) {
      var p :| IsPath(g, p) && p[0] == a && p[|p| - 1] == b;
      NoEscape(g, v, b, p);
    }
  }

  /** The number of entries of a queue that lie in `v`. */
  function CountIn(q: seq<int>, v: set<int>): (n: nat)
    ensures n <= |q|
  {
    if q == [] then 0
    else (if q[0] in v then 1 else 0) + CountIn(q[1..], v)
  }

  /** Appending an entry outside `v` keeps the count. */
  lemma {:induction false} CountInAppend(q: seq<int>, v: set<int>, x: int)
    requires x !in v
    ensures CountIn(q + [x], v) == CountIn(q, v)
  {
    if q == [] {
      assert CountIn([x], v) == 0 + CountIn([], v);
    } else {
      assert (q + [x])[1..] == q[1..] + [x];
      CountInAppend(q[1..], v, x);
    }
  }

  /** Taking the head off a queue drops the count by one when the head lies in `v`. */
  lemma CountInTail(q: seq<int>, v: set<int>)
    requires q != [] && q[0] in v
    ensures CountIn(q[1..], v) < CountIn(q, v)
  {
  }

  /** Marking a node not yet marked leaves fewer unmarked nodes. */
  lemma MarkShrinks(all: set<int>, v: set<int>, x: int)
    requires x in all && x !in v
    ensures |all - (v + {x})| < |all - v|
  {
    assert all - v == (all - (v + {x})) + {x};
  }

  /**
   * The invariant of a breadth-first search from `a` for `b` that marks `b`
   * visited from the start and marks a node when it leaves the queue: every
   * queued node is reachable from `a`; `a` is marked or queued; no marked
   * node other than `b` has an edge into `b`, and every successor of such a
   * node is marked or queued.
   */
  ghost predicate Frontier(g: Graph, a: int, b: int, visited: set<int>, queue: seq<int>)
  {
    && b in visited && visited <= g.Keys
    && (forall x :: x in queue ==> x in g && Reaches(g, a, x))
    && (a in visited || a in queue)
    && (forall x :: x in visited && x != b ==> b !in g[x])
    && (forall x, y :: x in visited && x != b && y in g[x] ==> y in visited || y in queue)
  }

  lemma FrontierStart(g: Graph, a: int, b: int)
    requires a in g && b in g
    ensures Frontier(g, a, b, {b}, [a])
  {
    ReachesSelf(g, a);
  }

  /**
   * Taking the head off the queue, marking it, and queuing its successors
   * that are not marked keeps the invariant, provided the head has no edge
   * into `b`.
   */
  lemma FrontierStep(g: Graph, a: int, b: int, visited: set<int>, queue: seq<int>, q: seq<int>)
    requires Frontier(g, a, b, visited, queue) && queue != []
    requires queue[0] != b && b !in g[queue[0]]
    requires forall x :: x in q ==> x in g && Reaches(g, a, x)
    requires forall x :: x in queue[1..] ==> x in q
    requires forall y :: y in g[queue[0]] ==> y in visited + {queue[0]} || y in q
    ensures Frontier(g, a, b, visited + {queue[0]}, q)
  {
    var v := visited + {queue[0]};
    forall x, y | x in v && x != b && y in g[x] ensures y in v || y in q {
      if x != queue[0] {
        assert y in visited || y in queue;
        if y in queue && y != queue[0] {
          assert y in queue[1..];
        }
      }
    }
    if a !in visited && a != queue[0] {
      assert a in queue[1..];
    }
  }

  /**
   * What queuing the successors of `current` leaves behind: every entry of
   * the new queue `q` is reachable from `a`, the old queue is kept, each
   * successor of `current` is marked in `v` or queued, and the count of
   * marked entries is unchanged.
   */
  ghost predicate Enqueued(g: Graph, a: int, current: int, v: set<int>, queue: seq<int>, q: seq<int>)
    requires current in g
  {
    && (forall x :: x in q ==> x in g && Reaches(g, a, x))
    && (forall x :: x in queue ==> x in q)
    && (forall y :: y in g[current] ==> y in v || y in q)
    && CountIn(q, v) == CountIn(queue, v)
  }

  /**
   * One round of the search: the step keeps the invariant and either marks
   * a new node or, when the head was marked already, shortens the queue's
   * count of marked entries.
   */
  lemma FrontierAdvance(g: Graph, a: int, b: int, visited: set<int>, queue: seq<int>, q: seq<int>)
    requires Frontier(g, a, b, visited, queue) && queue != []
    requires queue[0] != b && b !in g[queue[0]]
    requires Enqueued(g, a, queue[0], visited + {queue[0]}, queue[1..], q)
    ensures Frontier(g, a, b, visited + {queue[0]}, q)
    ensures || |g.Keys - (visited + {queue[0]})| < |g.Keys - visited|
            || (&& |g.Keys - (visited + {queue[0]})| == |g.Keys - visited|
                && CountIn(q, visited + {queue[0]}) < CountIn(queue, visited))
  {
    FrontierStep(g, a, b, visited, queue, q);
    if queue[0] in visited {
      assert visited + {queue[0]} == visited;
      CountInTail(queue, visited);
    } else {
      assert queue[0] in queue;
      MarkShrinks(g.Keys, visited, queue[0]);
    }
  }

  /** When the queue runs empty, `b` is not reachable from `a`. */
  lemma FrontierDone(g: Graph, a: int, b: int, visited: set<int>)
    requires Frontier(g, a, b, visited, []) && a != b
    ensures !Reaches(g, a, b)
  {
    forall x | x in visited && x != b && x in g ensures g[x] <= visited {
      forall y | y in g[x] ensures y in visited {
        assert y !in [];
      }
    }
    assert a !in [];
    Unreachable(g, visited, a, b);
  }

  /** The successors of a set of nodes. */
  ghost function Step(g: Graph, xs: set<int>): set<int>
  {
    set x, y | x in xs && x in g && y in g[x] :: y
  }

  /** The nodes at most `n` edges away from `a`. */
  ghost function Ball(g: Graph, a: int, n: nat): set<int>
  {
    if n == 0 then {a} else Ball(g, a, n - 1) + Step(g, Ball(g, a, n - 1))
  }

  /** The nodes fewer than `n` edges away from `a`. */
  ghost function Inner(g: Graph, a: int, n: nat): set<int>
  {
    if n == 0 then {} else Ball(g, a, n - 1)
  }

  /** The nodes exactly `n` edges away from `a`: one level of a breadth-first search. */
  ghost function Layer(g: Graph, a: int, n: nat): set<int>
  {
    Ball(g, a, n) - Inner(g, a, n)
  }

  /** Some walk of at most `n` edges leads from `a` to `b`. */
  ghost predicate WithinHops(g: Graph, a: int, b: int, n: nat)
  {
    exists p :: IsPath(g, p) && p[0] == a && p[|p| - 1] == b && |p| <= n + 1
  }

  lemma {:induction false} BallGrows(g: Graph, a: int, m: nat, n: nat)
    requires m <= n
    ensures Ball(g, a, m) <= Ball(g, a, n)
    decreases n
  {
    if m < n {
      BallGrows(g, a, m, n - 1);
    }
  }

  lemma {:induction false} BallInGraph(g: Graph, a: int, n: nat)
    requires Closed(g) && a in g
    ensures Ball(g, a, n) <= g.Keys
  {
    if n > 0 {
      BallInGraph(g, a, n - 1);
    }
  }

  /** The next ball adds the successors of the current layer only: the inner nodes' successors are already inside. */
  lemma BallNext(g: Graph, a: int, n: nat)
    ensures Ball(g, a, n + 1) == Ball(g, a, n) + Step(g, Layer(g, a, n))
  {
    var b := Ball(g, a, n);
    forall y | y in Step(g, b) ensures y in b + Step(g, Layer(g, a, n)) {
      var x :| x in b && x in g && y in g[x];
      if x !in Layer(g, a, n) {
        assert n > 0 && x in Ball(g, a, n - 1);
      }
    }
  }

  /** Once a layer is empty the balls stop growing. */
  lemma {:induction false} BallSettles(g: Graph, a: int, n: nat, m: nat)
    requires n > 0 && Layer(g, a, n) == {} && n - 1 <= m
    ensures Ball(g, a, m) == Ball(g, a, n - 1)
    decreases m
  {
    if m == n - 1 {
    } else {
      BallSettles(g, a, n, m - 1);
      BallGrows(g, a, n - 1, n);
      assert Inner(g, a, n) == Ball(g, a, n - 1);
      forall x | x in Ball(g, a, n) ensures x in Ball(g, a, n - 1) {
        assert x !in Layer(g, a, n);
      }
      assert Ball(g, a, n) == Ball(g, a, n - 1);
    }
  }

  /** The balls are exactly the sets of nodes reachable by short walks. */
  lemma BallIsWithinHops(g: Graph, a: int, b: int, n: nat)
    requires Closed(g) && a in g
    ensures b in Ball(g, a, n) <==> WithinHops(g, a, b, n)
  {
    if b in Ball(g, a, n) {
      BallWithinHops(g, a, b, n);
    }
    if WithinHops(g, a, b, n) {
      HopsWithinBall(g, a, b, n);
    }
  }

  /** A ball meets a set of nodes exactly when some node of the set is within that many edges. */
  lemma BallMeetsGoal(g: Graph, goal: set<int>, a: int, t: nat)
    requires Closed(g) && a in g
    ensures (exists x :: x in Ball(g, a, t) && x in goal) <==> (exists k :: k in goal && WithinHops(g, a, k, t))
  {
    if x :| x in Ball(g, a, t) && x in goal {
      BallWithinHops(g, a, x, t);
    }
    if k :| k in goal && WithinHops(g, a, k, t) {
      HopsWithinBall(g, a, k, t);
    }
  }

  /** Every node of the `n`-th ball ends a walk of at most `n` edges from `a`. */
  lemma {:induction false} BallWithinHops(g: Graph, a: int, b: int, n: nat)
    requires Closed(g) && a in g && b in Ball(g, a, n)
    ensures WithinHops(g, a, b, n)
    decreases n
  {
    if n == 0 {
      assert IsPath(g, [a]);
    } else if b in Ball(g, a, n - 1) {
      BallWithinHops(g, a, b, n - 1);
      var p :| IsPath(g, p) && p[0] == a && p[|p| - 1] == b && |p| <= n;
    } else {
      var x :| x in Ball(g, a, n - 1) && x in g && b in g[x];
      BallWithinHops(g, a, x, n - 1);
      var p :| IsPath(g, p) && p[0] == a && p[|p| - 1] == x && |p| <= n;
      var q := p + [b];
      assert q[|q| - 2] == x;
      assert IsPath(g, q);
    }
  }

  /** The last node of a walk of at most `n` edges from `a` lies in the `n`-th ball. */
  lemma {:induction false} HopsWithinBall(g: Graph, a: int, b: int, n: nat)
    requires Closed(g) && a in g && WithinHops(g, a, b, n)
    ensures b in Ball(g, a, n)
    decreases n
  {
    var p :| IsPath(g, p) && p[0] == a && p[|p| - 1] == b && |p| <= n + 1;
    if |p| == 1 {
      BallGrows(g, a, 0, n);
    } else {
      var q := p[..|p| - 1];
      var x := q[|q| - 1];
      assert IsPath(g, q);
      assert WithinHops(g, a, x, n - 1);
      HopsWithinBall(g, a, x, n - 1);
      assert b in g[x];
    }
  }

  /** Every edge has its reverse: a graph of mutual relations. */
  ghost predicate Symmetric(g: Graph)
  {
    forall x, y :: x in g && y in g[x] ==> y in g && x in g[y]
  }

  function Reversed(p: seq<int>): (r: seq<int>)
    ensures |r| == |p|
    ensures forall i :: 0 <= i < |p| ==> r[i] == p[|p| - 1 - i]
  {
    seq(|p|, i requires 0 <= i < |p| => p[|p| - 1 - i])
  }

  /** In a symmetric graph a walk can be taken backwards, with as many edges. */
  lemma WithinHopsMutual(g: Graph, a: int, b: int, n: nat)
    requires Symmetric(g)
    requires WithinHops(g, a, b, n)
    ensures WithinHops(g, b, a, n)
  {
    var p :| IsPath(g, p) && p[0] == a && p[|p| - 1] == b && |p| <= n + 1;
    var r := Reversed(p);
    forall i | 1 <= i < |r| ensures r[i] in g[r[i - 1]] {
      var j := |p| - i;
      assert p[j] in g[p[j - 1]];
    }
    assert IsPath(g, r);
  }
}
