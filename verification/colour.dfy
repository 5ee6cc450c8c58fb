/**
 * The reachability marking of objectFile.c (colorizeGraph).  A node that does
 * not yet carry every bit of `color` gets them OR-ed in, and the marking then
 * recurses into each node of its edge list in order; a node that already
 * carries them all ends the recursion there.
 *
 * The graph is taken as two snapshots: `succ` maps each node to its edge list
 * and `col` maps each node to its colour.  Paths, closure and reachability are
 * stated on those values, and the recursive method below, which keeps the
 * source's loop over the edge list, is proved against them.
 */
module Colouring {
  import opened Graphs

  /** A path along the edges of `succ`. */
  ghost predicate Path<N>(succ: map<N, seq<N>>, p: seq<N>)
  {
    && |p| >= 1
    && forall i :: 0 <= i < |p| - 1 ==> p[i] in succ && p[i + 1] in succ[p[i]]
  }

  /** `p` leads from `a` to `b` along the edges of `succ`. */
  ghost predicate PathFrom<N>(succ: map<N, seq<N>>, p: seq<N>, a: N, b: N)
  {
    Path(succ, p) && p[0] == a && p[|p| - 1] == b
  }

  /** No edge leaves `s`. */
  ghost predicate SuccClosed<N>(succ: map<N, seq<N>>, s: set<N>)
  {
    forall n, m :: n in s && n in succ && m in succ[n] ==> m in s
  }

  /** An edge followed by a path is a path. */
  lemma PathStep<N>(succ: map<N, seq<N>>, a: N, p: seq<N>, b: N, c: N)
    requires a in succ && b in succ[a] && PathFrom(succ, p, b, c)
    ensures PathFrom(succ, [a] + p, a, c)
  {
  }

  /** A path that starts inside a closed set never leaves it. */
  lemma {:induction false} ClosedPath<N>(succ: map<N, seq<N>>, s: set<N>, p: seq<N>)
    requires SuccClosed(succ, s) && Path(succ, p) && p[0] in s
    ensures p[|p| - 1] in s
    decreases |p|
  {
    if |p| > 1 {
      var q := p[1..];
      assert Path(succ, q);
      ClosedPath(succ, s, q);
    }
  }

  /** Everything reachable from inside a closed set is inside it. */
  lemma ClosedReaches<N>(succ: map<N, seq<N>>, s: set<N>, a: N)
    requires SuccClosed(succ, s) && a in s
    ensures forall p :: Path(succ, p) && p[0] == a ==> p[|p| - 1] in s
  {
    forall p | Path(succ, p) && p[0] == a
      ensures p[|p| - 1] in s
    {
      ClosedPath(succ, s, p);
    }
  }

  /**
   * A closed set grown only by nodes in `changed`, all of whose successors are
   * in the grown set, is still closed.
   */
  lemma ClosedGrows<N>(succ: map<N, seq<N>>, before: set<N>, after: set<N>, changed: set<N>)
    requires SuccClosed(succ, before) && before <= after && after - before <= changed
    requires forall n, m :: n in changed && n in succ && m in succ[n] ==> m in after
    ensures SuccClosed(succ, after)
  {
  }

  /**
   * `y` is `x`, or `x` with every bit of `color` added: what the marking may
   * do to one node's colour.
   */
  predicate Grows(x: Colour, y: Colour, color: Colour)
  {
    y == x || y == x + color
  }

  /** The nodes that carry every bit of `color`. */
  ghost function FullOf<N>(col: map<N, Colour>, color: Colour): set<N>
  {
    set n | n in col && color <= col[n]
  }

  /** Each colour of `after` is its colour in `before`, possibly grown by `color`. */
  ghost predicate Grown<N>(before: map<N, Colour>, after: map<N, Colour>, color: Colour)
  {
    before.Keys == after.Keys && forall n :: n in before ==> Grows(before[n], after[n], color)
  }

  lemma GrownFull<N>(before: map<N, Colour>, after: map<N, Colour>, color: Colour)
    requires Grown(before, after, color)
    ensures FullOf(before, color) <= FullOf(after, color)
  {
  }

  /** Every node outside `except` whose colour changed has all its successors in `full`. */
  ghost predicate ChangedLeadInto<N>(succ: map<N, seq<N>>, before: map<N, Colour>, after: map<N, Colour>,
                                     full: set<N>, except: set<N>)
  {
    forall n, m :: n in before && n in after && n !in except && after[n] != before[n] && n in succ && m in succ[n] ==> m in full
  }

  /** Every node whose colour changed has in `paths` a path to it from `seed`. */
  ghost predicate ChangedReached<N>(succ: map<N, seq<N>>, before: map<N, Colour>, after: map<N, Colour>,
                                    paths: map<N, seq<N>>, seed: N)
  {
    forall n :: n in before && n in after && after[n] != before[n] ==> n in paths && PathFrom(succ, paths[n], seed, n)
  }

  /**
   * What one colouring from `seed` leaves behind: colours only grow by
   * `color`, the seed carries all of it, every node that changed has all its
   * successors full and is reachable from the seed along `paths`.
   */
  ghost predicate Marked<N>(succ: map<N, seq<N>>, before: map<N, Colour>, after: map<N, Colour>,
                            paths: map<N, seq<N>>, seed: N, color: Colour)
  {
    && Grown(before, after, color)
    && seed in after && color <= after[seed]
    && ChangedLeadInto(succ, before, after, FullOf(after, color), {})
    && ChangedReached(succ, before, after, paths, seed)
  }

  /** The colouring from `seed` after the recursion into its first `done` successors. */
  ghost predicate Partial<N>(succ: map<N, seq<N>>, before: map<N, Colour>, now: map<N, Colour>,
                             paths: map<N, seq<N>>, seed: N, color: Colour, done: nat)
  {
    && seed in succ && done <= |succ[seed]|
    && Grown(before, now, color)
    && seed in now && color <= now[seed]
    && (forall j :: 0 <= j < done ==> succ[seed][j] in FullOf(now, color))
    && ChangedLeadInto(succ, before, now, FullOf(now, color), {seed})
    && ChangedReached(succ, before, now, paths, seed)
  }

  /** The paths once one more successor of `seed` was coloured, with paths `sub` from it. */
  ghost function Extended<N>(before: map<N, Colour>, mid: map<N, Colour>, now: map<N, Colour>,
                             paths: map<N, seq<N>>, sub: map<N, seq<N>>, seed: N): map<N, seq<N>>
  {
    map n | n in before && n in now && n in mid && now[n] != before[n] && (now[n] != mid[n] ==> n in sub) && (now[n] == mid[n] ==> n in paths) ::
      if now[n] != mid[n] then [seed] + sub[n] else paths[n]
  }

  /** The recursion into the next successor keeps the partial colouring. */
  lemma PartialStep<N>(succ: map<N, seq<N>>, before: map<N, Colour>, mid: map<N, Colour>, now: map<N, Colour>,
                       paths: map<N, seq<N>>, sub: map<N, seq<N>>, seed: N, color: Colour, done: nat)
    requires Partial(succ, before, mid, paths, seed, color, done) && done < |succ[seed]|
    requires Marked(succ, mid, now, sub, succ[seed][done], color)
    ensures Partial(succ, before, now, Extended(before, mid, now, paths, sub, seed), seed, color, done + 1)
  {
    var d := succ[seed][done];
    GrownFull(mid, now, color);
    GrownFull(before, mid, color);
    var ext := Extended(before, mid, now, paths, sub, seed);
    forall n | n in before && n in now && now[n] != before[n]
      ensures n in ext && PathFrom(succ, ext[n], seed, n)
    {
      if now[n] != mid[n] {
        PathStep(succ, seed, sub[n], d, n);
      }
    }
  }

  /**
   * If the nodes carrying all of `color` were closed under edges before a
   * marking from `seed`, they still are, and every node reachable from the
   * seed carries all of `color` afterwards.
   */
  lemma MarkedCloses<N>(succ: map<N, seq<N>>, before: map<N, Colour>, after: map<N, Colour>,
                        paths: map<N, seq<N>>, seed: N, color: Colour)
    requires Marked(succ, before, after, paths, seed, color)
    requires SuccClosed(succ, FullOf(before, color))
    ensures SuccClosed(succ, FullOf(after, color))
    ensures forall p :: Path(succ, p) && p[0] == seed ==> p[|p| - 1] in FullOf(after, color)
  {
    var changed := set n | n in before && n in after && after[n] != before[n];
    ClosedGrows(succ, FullOf(before, color), FullOf(after, color), changed);
    ClosedReaches(succ, FullOf(after, color), seed);
  }

  /** There is a path from `a` to `b` along the edges of `succ`. */
  ghost predicate Reaches<N(!new)>(succ: map<N, seq<N>>, a: N, b: N)
  {
    exists p :: PathFrom(succ, p, a, b)
  }

  /**
   * Under the same closure, a marking from `seed` makes full exactly the
   * nodes that were full already or are reachable from the seed.
   */
  lemma MarkedExactly<N(!new)>(succ: map<N, seq<N>>, before: map<N, Colour>, after: map<N, Colour>,
                         paths: map<N, seq<N>>, seed: N, color: Colour)
    requires Marked(succ, before, after, paths, seed, color)
    requires SuccClosed(succ, FullOf(before, color))
    ensures SuccClosed(succ, FullOf(after, color))
    ensures forall n :: n in FullOf(after, color) <==> n in FullOf(before, color) || Reaches(succ, seed, n)
  {
    MarkedCloses(succ, before, after, paths, seed, color);
    forall n
      ensures n in FullOf(after, color) <==> n in FullOf(before, color) || Reaches(succ, seed, n)
    {
      if n in FullOf(after, color) && n !in FullOf(before, color) {
        assert PathFrom(succ, paths[n], seed, n);
      }
      if Reaches(succ, seed, n) {
        var p :| PathFrom(succ, p, seed, n);
        assert Path(succ, p) && p[0] == seed;
      }
    }
  }

  /** Every node has an edge list, and every edge leads to a node. */
  ghost predicate Graph<N>(succ: map<N, seq<N>>, col: map<N, Colour>)
  {
    && succ.Keys == col.Keys
    && forall n, m :: n in succ && m in succ[n] ==> m in col
  }

  /** The nodes that still lack some bit of `color`: the recursion's measure. */
  ghost function Pending<N>(col: map<N, Colour>, color: Colour): set<N>
  {
    col.Keys - FullOf(col, color)
  }

  /** Colouring the seed itself starts the partial colouring. */
  lemma PartialStart<N>(succ: map<N, seq<N>>, col: map<N, Colour>, seed: N, color: Colour)
    requires seed in col && seed in succ && !(color <= col[seed])
    ensures Partial(succ, col, col[seed := col[seed] + color], map[seed := [seed]], seed, color, 0)
  {
    var res := col[seed := col[seed] + color];
    assert PathFrom(succ, [seed], seed, seed);
  }

  /** A seed that is already full is marked without any change. */
  lemma MarkedFull<N>(succ: map<N, seq<N>>, col: map<N, Colour>, seed: N, color: Colour)
    requires seed in col && color <= col[seed]
    ensures Marked(succ, col, col, map[], seed, color)
  {
  }

  /** Once the seed is full, fewer nodes are pending than at the start. */
  lemma PendingShrinks<N>(col: map<N, Colour>, now: map<N, Colour>, seed: N, color: Colour)
    requires Grown(col, now, color) && seed in col && !(color <= col[seed]) && color <= now[seed]
    ensures Pending(now, color) < Pending(col, color)
  {
    GrownFull(col, now, color);
    assert seed in Pending(col, color) - Pending(now, color);
  }

  /**
   * colorizeGraph: returns the colours after the marking from `seed`, and, as
   * a witness, a path from `seed` to every node whose colour it changed.
   */
  method ColorizeGraph<N>(succ: map<N, seq<N>>, col: map<N, Colour>, seed: N, color: Colour)
    returns (res: map<N, Colour>, ghost paths: map<N, seq<N>>)
    requires Graph(succ, col) && seed in col
    ensures Marked(succ, col, res, paths, seed, color)
    decreases Pending(col, color)
  {
    var c := col[seed];
    if c + color != c {
      res := col[seed := c + color];
      paths := map[seed := [seed]];
      PartialStart(succ, col, seed, color);
      var depends := succ[seed];
      var i := 0;
      while i < |depends|
        invariant i <= |depends|
        invariant Partial(succ, col, res, paths, seed, color, i)
      {
        PendingShrinks(col, res, seed, color);
        var now;
        ghost var sub;
        now, sub := ColorizeGraph(succ, res, depends[i], color);
        PartialStep(succ, col, res, now, paths, sub, seed, color, i);
        paths := Extended(col, res, now, paths, sub, seed);
        res := now;
        i := i + 1;
      }
    } else {
      res := col;
      paths := map[];
      MarkedFull(succ, col, seed, color);
    }
  }
}
