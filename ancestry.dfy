/**
 * What the relatives of a focused node are, stated independently of the walk
 * order: the node itself, its ancestors and its descendants.
 */
module Ancestry {
  import opened Wrappers
  import opened Flow
  import opened Kin

  ghost predicate Ancestor(edges: seq<FlowEdge>, x: string, y: string) {
    exists p :: IsWalk(edges, Up, p) && |p| >= 2 && p[0] == x && p[|p| - 1] == y
  }

  ghost predicate Descendant(edges: seq<FlowEdge>, x: string, y: string) {
    exists p :: IsWalk(edges, Down, p) && |p| >= 2 && p[0] == x && p[|p| - 1] == y
  }

  /** No id is its own descendant. */
  ghost predicate Acyclic(edges: seq<FlowEdge>) {
    forall p :: IsWalk(edges, Down, p) && |p| >= 2 ==> p[0] != p[|p| - 1]
  }

  function Reverse(p: seq<string>): (r: seq<string>)
    ensures |r| == |p| && forall i :: 0 <= i < |p| ==> r[i] == p[|p| - 1 - i]
  {
    seq(|p|, i requires 0 <= i < |p| => p[|p| - 1 - i])
  }

  lemma StepFlips(edges: seq<FlowEdge>, u: string, v: string)
    ensures Step(edges, Up, u, v) <==> Step(edges, Down, v, u)
  {
    if Step(edges, Up, u, v) {
      var i :| 0 <= i < |edges| && Near(edges[i], Up) == u && Far(edges[i], Up) == v;
      assert Near(edges[i], Down) == v && Far(edges[i], Down) == u;
    }
    if Step(edges, Down, v, u) {
      var i :| 0 <= i < |edges| && Near(edges[i], Down) == v && Far(edges[i], Down) == u;
      assert Near(edges[i], Up) == u && Far(edges[i], Up) == v;
    }
  }

  /** Read backwards, an upward walk is a downward one. */
  lemma ReverseWalk(edges: seq<FlowEdge>, p: seq<string>)
    requires IsWalk(edges, Up, p)
    ensures IsWalk(edges, Down, Reverse(p))
  {
    var r := Reverse(p);
    forall i | 0 <= i < |r| - 1 ensures Step(edges, Down, r[i], r[i + 1]) {
      var k := |p| - 2 - i;
      assert Step(edges, Up, p[k], p[k + 1]);
      StepFlips(edges, p[k], p[k + 1]);
    }
  }

  lemma JoinWalks(edges: seq<FlowEdge>, dir: Direction, p: seq<string>, q: seq<string>)
    requires IsWalk(edges, dir, p) && IsWalk(edges, dir, q) && p[|p| - 1] == q[0]
    ensures IsWalk(edges, dir, p + q[1..])
  {
    var r := p + q[1..];
    forall i | 0 <= i < |r| - 1 ensures Step(edges, dir, r[i], r[i + 1]) {
      if i < |p| - 1 {
        assert r[i] == p[i] && r[i + 1] == p[i + 1];
      } else {
        var k := i - (|p| - 1);
        assert r[i] == q[k] && r[i + 1] == q[k + 1];
      }
    }
  }

  lemma SuffixWalk(edges: seq<FlowEdge>, dir: Direction, p: seq<string>, i: nat)
    requires IsWalk(edges, dir, p) && i < |p|
    ensures IsWalk(edges, dir, p[i..])
  {
    var q := p[i..];
    forall k | 0 <= k < |q| - 1 ensures Step(edges, dir, q[k], q[k + 1]) {
      assert q[k] == p[i + k] && q[k + 1] == p[i + k + 1];
    }
  }

  lemma PrefixWalk(edges: seq<FlowEdge>, dir: Direction, p: seq<string>, n: nat)
    requires IsWalk(edges, dir, p) && 1 <= n <= |p|
    ensures IsWalk(edges, dir, p[..n])
  {
    var q := p[..n];
    forall k | 0 <= k < |q| - 1 ensures Step(edges, dir, q[k], q[k + 1]) {
      assert q[k] == p[k] && q[k + 1] == p[k + 1];
    }
  }

  /** A walk that starts at `x` and ends elsewhere leaves `x` for the last time at some point. */
  lemma {:induction false} LastVisit(p: seq<string>, x: string) returns (i: nat)
    requires |p| >= 1 && p[0] == x && p[|p| - 1] != x
    ensures i < |p| - 1 && p[i] == x
    ensures forall j :: i < j < |p| ==> p[j] != x
    decreases |p|
  {
    if p[|p| - 2] == x {
      i := |p| - 2;
    } else {
      i := LastVisit(p[..|p| - 1], x);
    }
  }

  lemma PrependStep(edges: seq<FlowEdge>, dir: Direction, x: string, p: seq<string>)
    requires IsWalk(edges, dir, p) && Step(edges, dir, x, p[0])
    ensures IsWalk(edges, dir, [x] + p)
  {
    var q := [x] + p;
    forall i | 0 <= i < |q| - 1 ensures Step(edges, dir, q[i], q[i + 1]) {
      if i > 0 { assert q[i] == p[i - 1] && q[i + 1] == p[i]; }
    }
  }

  /** Whatever the upward walk visits is the focused node or one of its ancestors. */
  lemma UpPhaseIsAncestry(edges: seq<FlowEdge>, x: string, y: string)
    ensures y in UpPhase(edges, x) ==> y == x || Ancestor(edges, x, y)
  {
    if y in UpPhase(edges, x) && y != x {
      assert Reaches(edges, Up, Next(edges, Up, x), {x}, y);
      var p :| IsWalk(edges, Up, p) && p[0] in Next(edges, Up, x) && p[|p| - 1] == y && Avoids(p, {x});
      PrependStep(edges, Up, x, p);
      var q := [x] + p;
      assert IsWalk(edges, Up, q) && |q| >= 2 && q[0] == x && q[|q| - 1] == y;
    }
  }

  /** Whatever the downward walk visits is a descendant of the focused node. */
  lemma DownPhaseIsDescent(edges: seq<FlowEdge>, x: string, visited: set<string>, y: string)
    requires Reaches(edges, Down, Next(edges, Down, x), visited, y)
    ensures Descendant(edges, x, y)
  {
    var p :| IsWalk(edges, Down, p) && p[0] in Next(edges, Down, x) && p[|p| - 1] == y && Avoids(p, visited);
    assert Step(edges, Down, x, p[0]);
    PrependStep(edges, Down, x, p);
    var q := [x] + p;
    assert q[0] == x && q[|q| - 1] == y;
  }

  /** Every relative is the focused node, an ancestor or a descendant, on any edge list. */
  lemma RelativesAreKin(edges: seq<FlowEdge>, x: string, y: string)
    requires y in RelativeSet(edges, x)
    ensures y == x || Ancestor(edges, x, y) || Descendant(edges, x, y)
  {
    var up := UpPhase(edges, x);
    UpPhaseIsAncestry(edges, x, y);
    if y !in up {
      DownPhaseIsDescent(edges, x, up, y);
    }
  }

  /** The focused node and all its ancestors are relatives, whatever cycles the edges hold. */
  lemma AncestorsAreRelatives(edges: seq<FlowEdge>, x: string, y: string)
    requires y == x || Ancestor(edges, x, y)
    ensures y in RelativeSet(edges, x)
  {
    if y != x {
      var p :| IsWalk(edges, Up, p) && |p| >= 2 && p[0] == x && p[|p| - 1] == y;
      var i := LastVisit(p, x);
      var q := p[i + 1..];
      SuffixWalk(edges, Up, p, i + 1);
      assert Step(edges, Up, p[i], p[i + 1]);
      assert Avoids(q, {x}) by {
        forall k | 0 <= k < |q| ensures q[k] !in {x} { assert q[k] == p[i + 1 + k]; }
      }
      assert q[0] in Next(edges, Up, x) && q[|q| - 1] == y;
      ReachesWitness(edges, Up, Next(edges, Up, x), {x}, q);
      UpPhaseMember(edges, x, y);
    }
  }

  /** On acyclic edges a downward walk never comes back to where it started. */
  lemma DescentNeverReturns(edges: seq<FlowEdge>, p: seq<string>, j: nat)
    requires Acyclic(edges) && IsWalk(edges, Down, p) && 1 <= j < |p|
    ensures p[j] != p[0]
  {
    PrefixWalk(edges, Down, p, j + 1);
    var prefix := p[..j + 1];
    assert prefix[0] != prefix[|prefix| - 1];
  }

  /** On acyclic edges a downward walk never meets an ancestor of where it started. */
  lemma DescentAvoidsAncestors(edges: seq<FlowEdge>, p: seq<string>, j: nat)
    requires Acyclic(edges) && IsWalk(edges, Down, p) && 1 <= j < |p|
    ensures !Ancestor(edges, p[0], p[j])
  {
    if Ancestor(edges, p[0], p[j]) {
      var r :| IsWalk(edges, Up, r) && |r| >= 2 && r[0] == p[0] && r[|r| - 1] == p[j];
      PrefixWalk(edges, Down, p, j + 1);
      ReverseWalk(edges, r);
      JoinWalks(edges, Down, p[..j + 1], Reverse(r));
    }
  }

  /** On acyclic edges a downward walk from `x` never meets what the upward walk from `x` visited. */
  lemma DescentAvoidsUpPhase(edges: seq<FlowEdge>, p: seq<string>, j: nat)
    requires Acyclic(edges) && IsWalk(edges, Down, p) && 1 <= j < |p|
    ensures p[j] !in UpPhase(edges, p[0])
  {
    DescentNeverReturns(edges, p, j);
    DescentAvoidsAncestors(edges, p, j);
    UpPhaseIsAncestry(edges, p[0], p[j]);
  }

  /** On acyclic edges a downward walk, after its first id, stays clear of the upward walk's ids. */
  lemma DescentTailAvoids(edges: seq<FlowEdge>, p: seq<string>)
    requires Acyclic(edges) && IsWalk(edges, Down, p) && |p| >= 2
    ensures Avoids(p[1..], UpPhase(edges, p[0]))
  {
    var q := p[1..];
    forall k | 0 <= k < |q| ensures q[k] !in UpPhase(edges, p[0]) {
      assert q[k] == p[k + 1];
      DescentAvoidsUpPhase(edges, p, k + 1);
    }
  }

  /** On acyclic edges every descendant is a relative. */
  lemma DescendantsAreRelatives(edges: seq<FlowEdge>, x: string, y: string)
    requires Acyclic(edges) && Descendant(edges, x, y)
    ensures y in RelativeSet(edges, x)
  {
    var p :| IsWalk(edges, Down, p) && |p| >= 2 && p[0] == x && p[|p| - 1] == y;
    var q := p[1..];
    SuffixWalk(edges, Down, p, 1);
    DescentTailAvoids(edges, p);
    assert Step(edges, Down, p[0], p[1]);
    assert q[0] in Next(edges, Down, x) && q[|q| - 1] == y;
    ReachesWitness(edges, Down, Next(edges, Down, x), UpPhase(edges, x), q);
    DownPhaseMember(edges, x, y);
  }

  /** On acyclic edges the relatives are exactly the focused node, its ancestors and its descendants. */
  lemma RelativesOfAcyclic(edges: seq<FlowEdge>, x: string, y: string)
    requires Acyclic(edges)
    ensures y in RelativeSet(edges, x) <==> y == x || Ancestor(edges, x, y) || Descendant(edges, x, y)
  {
    if y in RelativeSet(edges, x) {
      RelativesAreKin(edges, x, y);
    } else if Descendant(edges, x, y) {
      DescendantsAreRelatives(edges, x, y);
    } else if y == x || Ancestor(edges, x, y) {
      AncestorsAreRelatives(edges, x, y);
    }
  }

  /** A plain `source -> target` edge, for the examples below. */
  function Link(source: string, target: string): FlowEdge {
    FlowEdge("e" + source + "-" + target, source, target, "smoothstep", true, None, NO_EDGE_STYLE)
  }

  /** The three edges `1 -> 2`, `2 -> 1`, `2 -> 3`. */
  function CycleEdges(): seq<FlowEdge> {
    [Link("1", "2"), Link("2", "1"), Link("2", "3")]
  }

  lemma CycleNeighbours()
    ensures Next(CycleEdges(), Up, "1") == ["2"] && Next(CycleEdges(), Down, "1") == ["2"]
    ensures forall v :: Step(CycleEdges(), Up, "2", v) ==> v == "1"
  {
    var edges := CycleEdges();
    forall v | Step(edges, Up, "2", v) ensures v == "1" {
      var i :| 0 <= i < |edges| && Near(edges[i], Up) == "2" && Far(edges[i], Up) == v;
    }
  }

  lemma CycleUpPhase()
    ensures "2" in UpPhase(CycleEdges(), "1") && "3" !in UpPhase(CycleEdges(), "1")
  {
    var edges := CycleEdges();
    CycleNeighbours();
    ReachesStart(edges, Up, ["2"], {"1"}, "2");
    UpPhaseMember(edges, "1", "2");
    forall p | IsWalk(edges, Up, p) && p[0] in ["2"] && Avoids(p, {"1"})
      ensures p[|p| - 1] != "3"
    {
      ClosedHoldsWalk(edges, Up, ["2"], {"1"}, {"1", "2"}, p);
    }
  }

  lemma CycleDescendant()
    ensures Descendant(CycleEdges(), "1", "3")
  {
    var edges := CycleEdges();
    var walk := ["1", "2", "3"];
    assert Near(edges[0], Down) == "1" && Far(edges[0], Down) == "2";
    assert Near(edges[2], Down) == "2" && Far(edges[2], Down) == "3";
    assert IsWalk(edges, Down, walk);
  }

  /**
   * With a cycle the shared `visited` set cuts a walk short: for `1 -> 2`,
   * `2 -> 1`, `2 -> 3`, focusing `1` visits `2` on the way up, so the downward
   * walk stops at `2` and the descendant `3` is not a relative.
   */
  lemma CycleHidesDescendant()
    ensures Descendant(CycleEdges(), "1", "3") && "3" !in RelativeSet(CycleEdges(), "1")
  {
    var edges := CycleEdges();
    CycleDescendant();
    CycleNeighbours();
    CycleUpPhase();
    var up := UpPhase(edges, "1");
    forall p | IsWalk(edges, Down, p) && p[0] in ["2"] ensures !Avoids(p, up) {
      assert p[0] in up;
    }
  }

  /** The edges `1 -> 2` and `1 -> 3`: a parent with two children. */
  function FamilyEdges(): seq<FlowEdge> {
    [Link("1", "2"), Link("1", "3")]
  }

  lemma FamilyNeighbours()
    ensures Next(FamilyEdges(), Up, "2") == ["1"] && Next(FamilyEdges(), Down, "2") == []
    ensures forall v :: !Step(FamilyEdges(), Up, "1", v)
  {
    var edges := FamilyEdges();
    forall v ensures !Step(edges, Up, "1", v) {
      assert forall i :: 0 <= i < |edges| ==> Near(edges[i], Up) != "1";
    }
  }

  lemma FamilyUpPhase(y: string)
    ensures "1" in UpPhase(FamilyEdges(), "2")
    ensures y in UpPhase(FamilyEdges(), "2") ==> y == "1" || y == "2"
  {
    var edges := FamilyEdges();
    FamilyNeighbours();
    ReachesStart(edges, Up, ["1"], {"2"}, "1");
    UpPhaseMember(edges, "2", "1");
    forall p | IsWalk(edges, Up, p) && p[0] in ["1"] && Avoids(p, {"2"})
      ensures p[|p| - 1] == "1" || p[|p| - 1] == "2"
    {
      ClosedHoldsWalk(edges, Up, ["1"], {"2"}, {"1", "2"}, p);
    }
  }

  /**
   * For a parent `1` with children `2` and `3`, focusing `2` makes `1` and `2`
   * the relatives and leaves the sibling `3` out.
   */
  lemma SiblingIsNotRelative()
    ensures RelativeSet(FamilyEdges(), "2") == {"1", "2"}
  {
    var edges := FamilyEdges();
    FamilyNeighbours();
    forall y ensures y in RelativeSet(edges, "2") <==> y == "1" || y == "2" {
      FamilyUpPhase(y);
    }
  }
}
