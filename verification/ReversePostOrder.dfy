/** The order in which a graph's blocks are listed: reversed depth-first post-order. */
module ReversePostOrder {
  import opened Wrappers
  import opened Machine

  // ----- paths -----

  /** Every edge leads to a block of the graph. */
  predicate Closed(g: seq<Block>) {
    forall i, s :: 0 <= i < |g| && s in g[i].succs ==> s < |g|
  }

  ghost predicate IsPath(g: seq<Block>, p: seq<nat>) {
    && p != []
    && (forall i :: 0 <= i < |p| ==> p[i] < |g|)
    && (forall i :: 0 <= i < |p| - 1 ==> p[i + 1] in g[p[i]].succs)
  }

  ghost predicate Reaches(g: seq<Block>, a: nat, b: nat) {
    exists p :: IsPath(g, p) && p[0] == a && p[|p| - 1] == b
  }

  lemma ReachesItself(g: seq<Block>, a: nat)
    requires a < |g|
    ensures Reaches(g, a, a)
  {
    assert IsPath(g, [a]);
  }

  lemma ReachesThrough(g: seq<Block>, a: nat, b: nat, c: nat)
    requires Closed(g) && Reaches(g, a, b) && c in g[b].succs
    ensures Reaches(g, a, c)
  {
    var p :| IsPath(g, p) && p[0] == a && p[|p| - 1] == b;
    assert IsPath(g, p + [c]);
  }

  /** A set of blocks that every edge stays inside holds every block on a path from one of its members. */
  lemma {:induction false} StaysInside(g: seq<Block>, inside: set<nat>, p: seq<nat>, i: nat)
    requires IsPath(g, p) && p[0] in inside && i < |p|
    requires forall b, s :: b in inside && b < |g| && s in g[b].succs ==> s in inside
    ensures p[i] in inside
  {
    if i > 0 {
      StaysInside(g, inside, p, i - 1);
      assert p[i - 1 + 1] in g[p[i - 1]].succs;
    }
  }

  /** The blocks of a graph of `n` blocks. */
  ghost function All(n: nat): (all: set<nat>)
    ensures forall b :: b in all <==> 0 <= b < n
  {
    if n == 0 then {} else All(n - 1) + {n - 1}
  }

  // ----- the traversal -----

  predicate Distinct(s: seq<nat>) {
    forall i, j :: 0 <= i < j < |s| ==> s[i] != s[j]
  }

  /** Where a successor of a finished block stands: it was finished earlier, or leads back to the block. */
  ghost predicate Settled(g: seq<Block>, post: seq<nat>) {
    forall k, s :: 0 <= k < |post| && post[k] < |g| && s in g[post[k]].succs ==>
      s in post[..k] || Reaches(g, s, post[k])
  }

  /** Visited blocks are finished or on the current path; the successors of finished ones are visited. */
  ghost predicate Consistent(g: seq<Block>, visited: set<nat>, post: seq<nat>, path: set<nat>) {
    && Distinct(post)
    && (forall x :: x in visited <==> x in post || x in path)
    && (forall x :: x in post ==> x !in path)
    && (forall x :: x in visited ==> x < |g|)
    && (forall b, s :: b in post && b < |g| && s in g[b].succs ==> s in visited)
    && Settled(g, post)
  }

  class Traversal {
    var visited: set<nat>
    var postOrder: seq<nat>

    constructor ()
      ensures visited == {} && postOrder == []
    {
      visited, postOrder := {}, [];
    }

    method Dfs(g: seq<Block>, b: nat, ghost path: set<nat>)
      requires Closed(g) && b < |g| && Consistent(g, visited, postOrder, path)
      requires forall x :: x in path ==> Reaches(g, x, b)
      modifies this
      ensures Consistent(g, visited, postOrder, path)
      ensures old(visited) <= visited && b in visited
      ensures old(postOrder) <= postOrder
      ensures forall k :: |old(postOrder)| <= k < |postOrder| ==> Reaches(g, b, postOrder[k])
      ensures b !in old(visited) ==> |postOrder| > 0 && postOrder[|postOrder| - 1] == b
      decreases All(|g|) - visited
    {
      if b in visited {
        return;
      }
      ghost var before := visited;
      visited := visited + {b};
      ReachesItself(g, b);
      var i := 0;
      while i < |g[b].succs|
        invariant 0 <= i <= |g[b].succs|
        invariant Consistent(g, visited, postOrder, path + {b})
        invariant before + {b} <= visited
        invariant old(postOrder) <= postOrder
        invariant forall j :: 0 <= j < i ==> g[b].succs[j] in visited
        invariant forall k :: |old(postOrder)| <= k < |postOrder| ==> Reaches(g, b, postOrder[k])
      {
        var s := g[b].succs[i];
        forall x | x in path + {b}
          ensures Reaches(g, x, s)
        {
          ReachesThrough(g, x, b, s);
        }
        ghost var n := |postOrder|;
        ghost var p := postOrder;
        Dfs(g, s, path + {b});
        forall k | n <= k < |postOrder|
          ensures Reaches(g, b, postOrder[k])
        {
          ReachesAcross(g, b, s, postOrder[k]);
        }
        i := i + 1;
      }
      Finish(g, visited, postOrder, path, b);
      postOrder := postOrder + [b];
    }
  }

  lemma ReachesAcross(g: seq<Block>, a: nat, b: nat, c: nat)
    requires Closed(g) && a < |g| && b in g[a].succs && Reaches(g, b, c)
    ensures Reaches(g, a, c)
  {
    var p :| IsPath(g, p) && p[0] == b && p[|p| - 1] == c;
    var q := [a] + p;
    assert forall i :: 0 <= i < |q| - 1 ==> q[i + 1] in g[q[i]].succs;
    assert IsPath(g, q);
  }

  /** A block all of whose successors have been visited may be finished. */
  lemma Finish(g: seq<Block>, visited: set<nat>, post: seq<nat>, path: set<nat>, b: nat)
    requires Consistent(g, visited, post, path + {b}) && b < |g| && b !in path
    requires forall s :: s in g[b].succs ==> s in visited
    requires forall x :: x in path + {b} ==> Reaches(g, x, b)
    ensures Consistent(g, visited, post + [b], path)
  {
    var r := post + [b];
    assert b in path + {b};
    assert Distinct(r);
    hide Reaches, Distinct;
    assert forall x :: x in r <==> x in post || x == b;
    forall k, s | 0 <= k < |r| && r[k] < |g| && s in g[r[k]].succs
      ensures s in r[..k] || Reaches(g, s, r[k])
    {
      if k < |post| {
        assert r[..k] == post[..k];
      } else {
        assert r[..k] == post;
      }
    }
  }

  /** The blocks of a graph in reverse post-order from its entry. */
  method BlocksInRpo(g: seq<Block>, entry: Option<nat>) returns (rpo: seq<nat>)
    requires Closed(g) && (entry.Some? ==> entry.value < |g|)
    ensures Distinct(rpo)
    ensures entry.None? ==> rpo == []
    ensures entry.Some? ==> rpo != [] && rpo[0] == entry.value
    ensures entry.Some? ==> forall b :: b in rpo <==> Reaches(g, entry.value, b)
    ensures CyclesBack(g, rpo)
    ensures Acyclic(g) ==> Topological(g, rpo)
  {
    var t := new Traversal();
    if entry.Some? {
      t.Dfs(g, entry.value, {});
      AllReachable(g, entry.value, t.visited, t.postOrder);
    }
    var post := t.postOrder;
    assert Distinct(post) && Settled(g, post);
    rpo := [];
    var i := |post|;
    while i > 0
      invariant 0 <= i <= |post| && |rpo| == |post| - i
      invariant forall k :: 0 <= k < |rpo| ==> rpo[k] == post[|post| - 1 - k]
    {
      i := i - 1;
      rpo := rpo + [post[i]];
    }
    assert forall b :: b in rpo <==> b in post by {
      forall k | 0 <= k < |post|
        ensures post[k] in rpo
      {
        assert rpo[|post| - 1 - k] == post[k];
      }
    }
    forall i, j | 0 <= i < j < |rpo| && rpo[j] < |g| && rpo[i] in g[rpo[j]].succs
      ensures Reaches(g, rpo[i], rpo[j])
    {
      var k := |post| - 1 - j;
      assert rpo[i] !in post[..k];
    }
    if Acyclic(g) {
      AcyclicIsTopological(g, rpo);
    }
  }

  lemma AllReachable(g: seq<Block>, entry: nat, visited: set<nat>, post: seq<nat>)
    requires Consistent(g, visited, post, {}) && entry in visited
    requires forall k :: 0 <= k < |post| ==> Reaches(g, entry, post[k])
    ensures forall b :: b in post <==> Reaches(g, entry, b)
  {
    forall b | Reaches(g, entry, b)
      ensures b in post
    {
      var p :| IsPath(g, p) && p[0] == entry && p[|p| - 1] == b;
      forall i, s | i in visited && i < |g| && s in g[i].succs
        ensures s in visited
      {
        var k :| 0 <= k < |post| && post[k] == i;
      }
      StaysInside(g, visited, p, |p| - 1);
    }
  }

  /** An edge against the listing order lies on a cycle. */
  ghost predicate CyclesBack(g: seq<Block>, rpo: seq<nat>) {
    forall i, j :: 0 <= i < j < |rpo| && rpo[j] < |g| && rpo[i] in g[rpo[j]].succs ==> Reaches(g, rpo[i], rpo[j])
  }

  /** No edge lies on a cycle. */
  ghost predicate Acyclic(g: seq<Block>) {
    forall x, y :: 0 <= x < |g| && y in g[x].succs ==> !Reaches(g, y, x)
  }

  /** Every edge between listed blocks leads forward. */
  ghost predicate Topological(g: seq<Block>, rpo: seq<nat>) {
    forall i, j :: 0 <= i < |rpo| && 0 <= j < |rpo| && rpo[i] < |g| && rpo[j] in g[rpo[i]].succs ==> i < j
  }

  /** What the listing order gives in a graph without cycles. */
  lemma AcyclicIsTopological(g: seq<Block>, rpo: seq<nat>)
    requires Closed(g) && Distinct(rpo) && Acyclic(g) && CyclesBack(g, rpo)
    ensures Topological(g, rpo)
  {
    forall i, j | 0 <= i < |rpo| && 0 <= j < |rpo| && rpo[i] < |g| && rpo[j] in g[rpo[i]].succs
      ensures i < j
    {
      assert !Reaches(g, rpo[j], rpo[i]);
      if i == j {
        ReachesItself(g, rpo[i]);
      }
    }
  }
}
