/**
 * The directed graph node of graph.c: a colour bit mask, a name and the list
 * of nodes it has edges to.
 */
module Graphs {
  import opened CursorLists

  /**
   * A colour mask (`unsigned long`) as the set of its bit positions: the mask
   * 0 is `{}`, `a | b` is `a + b`, and `(c | m) != c` says `m` has a bit `c`
   * lacks, `!(m <= c)`.  The program only ever uses the masks 1 (`{0}`) and
   * 0x80000000 (`{31}`).
   */
  type Colour = set<nat>

  class GraphNode {
    var color: Colour
    const name: string
    const con: CursorList<GraphNode>

    /** The node's own footprint: its edge list and the list's elements. */
    ghost predicate Valid()
      reads this, con, con.Repr
    {
      con.Valid()
    }

    /** newGraph: colour 0 (no bit), the given name, no edges, list cursor on the sentinel. */
    constructor (name: string)
      ensures Valid() && fresh(con) && fresh(con.Repr)
      ensures color == {} && this.name == name
      ensures con.Contents == [] && con.cursor == 0
    {
      color := {};
      this.name := name;
      con := new CursorList();
    }

    /**
     * graphConnect: scans the edge list for `dest` (by identity) and appends
     * it only when it is not there yet.  The scan leaves the cursor on the
     * last element, so listAdd appends at the end.
     */
    method Connect(dest: GraphNode)
      requires Valid()
      modifies con, con.Repr
      ensures Valid() && fresh(con.Repr - old(con.Repr)) && old(con.Repr) <= con.Repr
      ensures con.Contents == Connected(old(con.Contents), dest)
    {
      con.Start();
      ghost var edges := con.Contents;
      var more := con.Next();
      while more
        invariant con.Valid() && con.Contents == edges && con.Repr == old(con.Repr)
        invariant con.cursor <= |edges| && con.OnNode()
        invariant more ==> 1 <= con.cursor
        invariant !more ==> con.cursor == |edges|
        invariant dest !in edges[..if more then con.cursor - 1 else con.cursor]
        decreases |edges| - con.cursor, more
      {
        var d := con.Get();
        if d == dest {
          return;
        }
        more := con.Next();
      }
      assert edges[..con.cursor] == edges && edges[con.cursor..] == [];
      con.Add(dest);
    }

    /** graphColorNode: replaces the colour and touches nothing else. */
    method ColorNode(c: Colour)
      modifies this`color
      ensures color == c
    {
      color := c;
    }

    /** graphGetColorNode. */
    method GetColor() returns (c: Colour)
      ensures c == color
    {
      c := color;
    }

    /** graphGetNameNode. */
    method GetName() returns (n: string)
      ensures n == name
    {
      n := name;
    }

    /** graphGetConnections: the node's own edge list, not a copy. */
    method GetConnections() returns (l: CursorList<GraphNode>)
      ensures l == con
    {
      l := con;
    }
  }

  /** The edge list graphConnect leaves behind: `dest` appended unless present. */
  function Connected<N(==)>(edges: seq<N>, dest: N): (r: seq<N>)
    ensures |r| == if dest in edges then |edges| else |edges| + 1
    ensures dest in r && r[..|edges|] == edges
  {
    if dest in edges then edges else edges + [dest]
  }

  /** No element occurs twice (an edge list, a list of printed lines). */
  predicate NoDuplicates<N(==)>(s: seq<N>)
  {
    forall i, j :: 0 <= i < j < |s| ==> s[i] != s[j]
  }

  /** Connecting the same pair twice is the same as connecting it once. */
  lemma ConnectIdempotent<N>(edges: seq<N>, dest: N)
    ensures Connected(Connected(edges, dest), dest) == Connected(edges, dest)
  {
  }

  /** graphConnect never creates a duplicate edge. */
  lemma ConnectKeepsNoDuplicates<N>(edges: seq<N>, dest: N)
    requires NoDuplicates(edges)
    ensures NoDuplicates(Connected(edges, dest))
  {
  }

  /** Successive graphConnect calls, one per target in `dests`, in order. */
  function ConnectAll<N(==)>(edges: seq<N>, dests: seq<N>): (r: seq<N>)
    ensures |edges| <= |r|
    decreases |dests|
  {
    if dests == [] then edges else ConnectAll(Connected(edges, dests[0]), dests[1..])
  }

  /**
   * After any run of graphConnect calls the edge list holds each old edge and
   * each requested target, keeps the old edges as its prefix, and has no
   * duplicates if it had none.
   */
  lemma {:induction false} ConnectAllSpec<N>(edges: seq<N>, dests: seq<N>)
    ensures var r := ConnectAll(edges, dests);
      && r[..|edges|] == edges
      && (forall x :: x in dests ==> x in r)
      && (forall x :: x in r ==> x in edges || x in dests)
      && (NoDuplicates(edges) ==> NoDuplicates(r))
    decreases |dests|
  {
    if dests != [] {
      var e1 := Connected(edges, dests[0]);
      ConnectAllSpec(e1, dests[1..]);
      var r := ConnectAll(e1, dests[1..]);
      assert r[..|edges|] == r[..|e1|][..|edges|];
      forall x | x in dests
        ensures x in r
      {
        if x != dests[0] {
          assert x in dests[1..];
        }
      }
    }
  }
}
