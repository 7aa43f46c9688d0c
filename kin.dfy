/**
 * The relatives computed by `setFocus` in client/src/store/useStore.js: the
 * focused node, then everything reached by walking only upward (edge target to
 * edge source), then everything reached by walking only downward, with one
 * `visited` set shared by both walks.
 */
module Kin {
  import opened Flow

  datatype Direction = Up | Down

  /** The end of `e` a walk in direction `dir` stands on before crossing it. */
  function Near(e: FlowEdge, dir: Direction): string {
    if dir == Up then e.target else e.source
  }

  /** The end of `e` a walk in direction `dir` arrives at after crossing it. */
  function Far(e: FlowEdge, dir: Direction): string {
    if dir == Up then e.source else e.target
  }

  ghost predicate Step(edges: seq<FlowEdge>, dir: Direction, u: string, v: string) {
    exists i :: 0 <= i < |edges| && Near(edges[i], dir) == u && Far(edges[i], dir) == v
  }

  /** Every id some edge names. */
  ghost function Ends(edges: seq<FlowEdge>): set<string> {
    (set i | 0 <= i < |edges| :: edges[i].source) + (set i | 0 <= i < |edges| :: edges[i].target)
  }

  /** A step over a non-empty edge list crosses its first edge or one of the rest. */
  lemma StepTail(edges: seq<FlowEdge>, dir: Direction, u: string, v: string)
    requires edges != []
    ensures Step(edges, dir, u, v) <==>
      (Near(edges[0], dir) == u && Far(edges[0], dir) == v) || Step(edges[1..], dir, u, v)
  {
    if Step(edges, dir, u, v) {
      var i :| 0 <= i < |edges| && Near(edges[i], dir) == u && Far(edges[i], dir) == v;
      if i > 0 { assert edges[1..][i - 1] == edges[i]; }
    }
    if Step(edges[1..], dir, u, v) {
      var i :| 0 <= i < |edges[1..]| && Near(edges[1..][i], dir) == u && Far(edges[1..][i], dir) == v;
      assert edges[i + 1] == edges[1..][i];
    }
  }

  lemma EndsTail(edges: seq<FlowEdge>)
    requires edges != []
    ensures Ends(edges) == {edges[0].source, edges[0].target} + Ends(edges[1..])
  {
    var tail := edges[1..];
    forall y | y in Ends(tail) ensures y in Ends(edges) {
      var i :| 0 <= i < |tail| && (tail[i].source == y || tail[i].target == y);
      assert edges[i + 1] == tail[i];
    }
    forall y | y in Ends(edges) ensures y in {edges[0].source, edges[0].target} + Ends(tail) {
      var i :| 0 <= i < |edges| && (edges[i].source == y || edges[i].target == y);
      if i > 0 { assert tail[i - 1] == edges[i]; }
    }
  }

  /**
   * `edges.filter(e => e.target === u).map(e => e.source)` for `Up`, and the
   * same with source and target swapped for `Down`: the ids one step away.
   */
  function Next(edges: seq<FlowEdge>, dir: Direction, u: string): (vs: seq<string>)
    ensures forall v :: v in vs <==> Step(edges, dir, u, v)
    ensures forall v :: v in vs ==> v in Ends(edges)
  {
    if edges == [] then []
    else
      var rest := Next(edges[1..], dir, u);
      assert forall v :: Step(edges, dir, u, v) <==>
        (Near(edges[0], dir) == u && Far(edges[0], dir) == v) || Step(edges[1..], dir, u, v) by {
        forall v ensures Step(edges, dir, u, v) <==>
          (Near(edges[0], dir) == u && Far(edges[0], dir) == v) || Step(edges[1..], dir, u, v) {
          StepTail(edges, dir, u, v);
        }
      }
      EndsTail(edges);
      (if Near(edges[0], dir) == u then [Far(edges[0], dir)] else []) + rest
  }

  /** A walk: a non-empty sequence of ids, each one step from the one before. */
  ghost predicate IsWalk(edges: seq<FlowEdge>, dir: Direction, p: seq<string>) {
    |p| >= 1 && forall i :: 0 <= i < |p| - 1 ==> Step(edges, dir, p[i], p[i + 1])
  }

  ghost predicate Avoids(p: seq<string>, visited: set<string>) {
    forall i :: 0 <= i < |p| ==> p[i] !in visited
  }

  /** `y` is the end of a walk that starts at one of `start` and never enters `visited`. */
  ghost predicate Reaches(edges: seq<FlowEdge>, dir: Direction, start: seq<string>, visited: set<string>, y: string) {
    exists p :: IsWalk(edges, dir, p) && p[0] in start && p[|p| - 1] == y && Avoids(p, visited)
  }

  lemma ReachesWitness(edges: seq<FlowEdge>, dir: Direction, start: seq<string>, visited: set<string>, p: seq<string>)
    requires IsWalk(edges, dir, p) && p[0] in start && Avoids(p, visited)
    ensures Reaches(edges, dir, start, visited, p[|p| - 1])
  {
  }

  lemma ReachesStart(edges: seq<FlowEdge>, dir: Direction, start: seq<string>, visited: set<string>, w: string)
    requires w in start && w !in visited
    ensures Reaches(edges, dir, start, visited, w)
  {
    var p := [w];
    assert IsWalk(edges, dir, p) && p[0] in start && p[|p| - 1] == w && Avoids(p, visited);
  }

  lemma ReachesExtend(edges: seq<FlowEdge>, dir: Direction, start: seq<string>, visited: set<string>, u: string, v: string)
    requires Reaches(edges, dir, start, visited, u) && Step(edges, dir, u, v) && v !in visited
    ensures Reaches(edges, dir, start, visited, v)
  {
    var p :| IsWalk(edges, dir, p) && p[0] in start && p[|p| - 1] == u && Avoids(p, visited);
    var q := p + [v];
    assert forall i :: 0 <= i < |q| - 1 ==> Step(edges, dir, q[i], q[i + 1]) by {
      forall i | 0 <= i < |q| - 1 ensures Step(edges, dir, q[i], q[i + 1]) {
        if i < |p| - 1 { assert q[i] == p[i] && q[i + 1] == p[i + 1]; }
      }
    }
    assert IsWalk(edges, dir, q) && q[0] in start && q[|q| - 1] == v && Avoids(q, visited);
  }

  /** What a walk reaches is named by an edge, unless it is where the walk started. */
  lemma ReachedIsEnd(edges: seq<FlowEdge>, dir: Direction, start: seq<string>, visited: set<string>, y: string)
    requires Reaches(edges, dir, start, visited, y)
    ensures y in start || y in Ends(edges)
  {
    var p :| IsWalk(edges, dir, p) && p[0] in start && p[|p| - 1] == y && Avoids(p, visited);
    if |p| > 1 {
      assert Step(edges, dir, p[|p| - 2], p[|p| - 1]);
      var i :| 0 <= i < |edges| && Near(edges[i], dir) == p[|p| - 2] && Far(edges[i], dir) == y;
      assert y == edges[i].source || y == edges[i].target;
    }
  }

  /** A set that holds the start and is closed under steps out of its new members holds every avoiding walk's end. */
  lemma {:induction false} ClosedHoldsWalk(edges: seq<FlowEdge>, dir: Direction, start: seq<string>, visited0: set<string>,
                                           visited: set<string>, p: seq<string>)
    requires forall w :: w in start ==> w in visited
    requires forall u, v :: u in visited && u !in visited0 && Step(edges, dir, u, v) ==> v in visited
    requires IsWalk(edges, dir, p) && p[0] in start && Avoids(p, visited0)
    ensures p[|p| - 1] in visited
    decreases |p|
  {
    if |p| > 1 {
      var q := p[..|p| - 1];
      assert forall i :: 0 <= i < |q| - 1 ==> Step(edges, dir, q[i], q[i + 1]) by {
        forall i | 0 <= i < |q| - 1 ensures Step(edges, dir, q[i], q[i + 1]) {
          assert q[i] == p[i] && q[i + 1] == p[i + 1];
        }
      }
      assert Avoids(q, visited0) by {
        forall i | 0 <= i < |q| ensures q[i] !in visited0 { assert q[i] == p[i]; }
      }
      ClosedHoldsWalk(edges, dir, start, visited0, visited, q);
      assert Step(edges, dir, p[|p| - 2], p[|p| - 1]);
      assert p[|p| - 2] !in visited0;
    }
  }

  /**
   * The worklist state of one walk: everything visited or queued is reachable,
   * every start id is visited or queued, and each step out of a newly visited
   * id lands on a visited or queued one.
   */
  ghost predicate Frontier(edges: seq<FlowEdge>, dir: Direction, start: seq<string>, visited0: set<string>,
                           visited: set<string>, todo: seq<string>) {
    && (forall y :: y in visited ==> y in visited0 || Reaches(edges, dir, start, visited0, y))
    && (forall y :: y in todo ==> y in visited0 || Reaches(edges, dir, start, visited0, y))
    && (forall w :: w in start ==> w in visited || w in todo)
    && (forall u, v :: u in visited && u !in visited0 && Step(edges, dir, u, v) ==> v in visited || v in todo)
  }

  lemma FrontierStart(edges: seq<FlowEdge>, dir: Direction, start: seq<string>, visited0: set<string>)
    ensures Frontier(edges, dir, start, visited0, visited0, start)
  {
    forall w | w in start && w !in visited0 ensures Reaches(edges, dir, start, visited0, w) {
      ReachesStart(edges, dir, start, visited0, w);
    }
  }

  lemma FrontierSkip(edges: seq<FlowEdge>, dir: Direction, start: seq<string>, visited0: set<string>,
                     visited: set<string>, todo: seq<string>)
    requires Frontier(edges, dir, start, visited0, visited, todo) && todo != [] && todo[0] in visited
    ensures Frontier(edges, dir, start, visited0, visited, todo[1..])
  {
    assert forall w :: w in todo ==> w == todo[0] || w in todo[1..];
  }

  lemma FrontierVisit(edges: seq<FlowEdge>, dir: Direction, start: seq<string>, visited0: set<string>,
                      visited: set<string>, todo: seq<string>)
    requires Frontier(edges, dir, start, visited0, visited, todo) && todo != [] && todo[0] !in visited
    requires visited0 <= visited
    ensures Frontier(edges, dir, start, visited0, visited + {todo[0]}, Next(edges, dir, todo[0]) + todo[1..])
  {
    var u := todo[0];
    var next := Next(edges, dir, u);
    var todo' := next + todo[1..];
    assert forall w :: w in todo ==> w == u || w in todo[1..];
    forall v | v in next && v !in visited0 ensures Reaches(edges, dir, start, visited0, v) {
      ReachesExtend(edges, dir, start, visited0, u, v);
    }
    forall y | y in todo' ensures y in visited0 || Reaches(edges, dir, start, visited0, y) {
      if y !in next { assert y in todo[1..]; }
    }
  }

  lemma FrontierDone(edges: seq<FlowEdge>, dir: Direction, start: seq<string>, visited0: set<string>, visited: set<string>)
    requires Frontier(edges, dir, start, visited0, visited, []) && visited0 <= visited
    ensures forall y :: y in visited <==> y in visited0 || Reaches(edges, dir, start, visited0, y)
  {
    forall y | Reaches(edges, dir, start, visited0, y) ensures y in visited {
      var p :| IsWalk(edges, dir, p) && p[0] in start && p[|p| - 1] == y && Avoids(p, visited0);
      ClosedHoldsWalk(edges, dir, start, visited0, visited, p);
    }
  }

  /**
   * One walk of `traverse` in direction `dir`: starting from the ids in `start`,
   * with `visited0` already visited, every id not yet visited is added and
   * its neighbours in `dir` are walked next. Terminates on any edge list,
   * cycles included, because each id is added at most once.
   */
  method Explore(edges: seq<FlowEdge>, dir: Direction, visited0: set<string>, start: seq<string>)
    returns (visited: set<string>)
    ensures forall y :: y in visited <==> y in visited0 || Reaches(edges, dir, start, visited0, y)
  {
    visited := visited0;
    var todo := start;
    FrontierStart(edges, dir, start, visited0);
    ghost var universe := visited0 + Ends(edges) + (set w | w in start);
    while todo != []
      invariant visited0 <= visited <= universe
      invariant forall w :: w in todo ==> w in universe
      invariant Frontier(edges, dir, start, visited0, visited, todo)
      decreases |universe - visited|, |todo|
    {
      var u := todo[0];
      if u in visited {
        FrontierSkip(edges, dir, start, visited0, visited, todo);
        todo := todo[1..];
      } else {
        assert universe - (visited + {u}) < universe - visited;
        FrontierVisit(edges, dir, start, visited0, visited, todo);
        var next := Next(edges, dir, u);
        visited := visited + {u};
        todo := next + todo[1..];
      }
    }
    FrontierDone(edges, dir, start, visited0, visited);
  }

  /** The ids the upward walk from `x` visits: `x` and all it reaches upward without coming back to it. */
  ghost function UpPhase(edges: seq<FlowEdge>, x: string): set<string> {
    set y | y in {x} + Ends(edges) && (y == x || Reaches(edges, Up, Next(edges, Up, x), {x}, y))
  }

  /** The `relatives` set after `traverse(x, 'both')`. */
  ghost function RelativeSet(edges: seq<FlowEdge>, x: string): set<string> {
    var up := UpPhase(edges, x);
    up + set y | y in Ends(edges) && Reaches(edges, Down, Next(edges, Down, x), up, y)
  }

  lemma UpPhaseMember(edges: seq<FlowEdge>, x: string, y: string)
    requires Reaches(edges, Up, Next(edges, Up, x), {x}, y)
    ensures y in UpPhase(edges, x)
  {
    ReachedIsEnd(edges, Up, Next(edges, Up, x), {x}, y);
  }

  lemma DownPhaseMember(edges: seq<FlowEdge>, x: string, y: string)
    requires Reaches(edges, Down, Next(edges, Down, x), UpPhase(edges, x), y)
    ensures y in RelativeSet(edges, x)
  {
    ReachedIsEnd(edges, Down, Next(edges, Down, x), UpPhase(edges, x), y);
  }

  /** `traverse(x, 'both')`: visit `x`, walk up from its parents, then down from its children. */
  method CollectRelatives(edges: seq<FlowEdge>, x: string) returns (relatives: set<string>)
    ensures relatives == RelativeSet(edges, x)
  {
    var up := Explore(edges, Up, {x}, Next(edges, Up, x));
    forall y | y in up ensures y in UpPhase(edges, x) {
      if y != x { ReachedIsEnd(edges, Up, Next(edges, Up, x), {x}, y); }
    }
    assert up == UpPhase(edges, x);
    relatives := Explore(edges, Down, up, Next(edges, Down, x));
    forall y | y in relatives ensures y in RelativeSet(edges, x) {
      if y !in up { ReachedIsEnd(edges, Down, Next(edges, Down, x), up, y); }
    }
  }
}
