/**
 * The converter tographviz.py: reads the <MAP> dump written by the
 * `--dmap` option and prints a Graphviz `digraph` with one edge per
 * dependency and a shape line per distinct text and data symbol.
 *
 * The parsed document is the sequence of its FILE/SECTION elements, each
 * with its `name` attribute and the texts of its child elements; the printed
 * output is the sequence of its lines.
 */
module Graphviz {
  import opened Wrappers
  import Graphs

  const TextTag := ".text$"
  const DataTag := ".data$"
  const Header := "digraph {"
  const Footer := "}"

  /** A FILE/SECTION element: its name and the texts of its children, in document order. */
  datatype Section = Section(name: string, children: seq<string>)

  // ---------------------------------------------------------------- str.replace and `in`

  /** `pat` occurs in `s` (Python's `pat in s`), scanning from the left. */
  predicate Occurs(s: string, pat: string)
    decreases |s|
  {
    |s| >= |pat| && (s[..|pat|] == pat || (s != [] && Occurs(s[1..], pat)))
  }

  /** `pat` occurs in `s` at position `i`. */
  predicate At(s: string, pat: string, i: nat)
  {
    i + |pat| <= |s| && s[i..i + |pat|] == pat
  }

  /** The scan finds `pat` exactly when it occurs at some position. */
  lemma {:induction false} OccursAt(s: string, pat: string)
    ensures Occurs(s, pat) <==> exists i :: At(s, pat, i)
    decreases |s|
  {
    if |s| >= |pat| && s[..|pat|] == pat {
      assert At(s, pat, 0);
    } else if |s| >= |pat| && s != [] {
      OccursAt(s[1..], pat);
      if Occurs(s[1..], pat) {
        var i: nat :| At(s[1..], pat, i);
        assert s[1..][i..i + |pat|] == s[i + 1..i + 1 + |pat|];
        assert At(s, pat, i + 1);
      }
      if exists i :: At(s, pat, i) {
        var i: nat :| At(s, pat, i);
        assert i != 0;
        assert s[1..][i - 1..i - 1 + |pat|] == s[i..i + |pat|];
        assert At(s[1..], pat, i - 1);
      }
    }
  }

  /**
   * `s.replace(pat, '')`: every occurrence of `pat` found scanning from the
   * left is removed, and the scan goes on after it.
   */
  function RemoveAll(s: string, pat: string): string
    requires pat != []
    decreases |s|
  {
    if |s| < |pat| then s
    else if s[..|pat|] == pat then RemoveAll(s[|pat|..], pat)
    else [s[0]] + RemoveAll(s[1..], pat)
  }

  /** The text changes exactly when the tag occurs in it, and then it gets shorter. */
  lemma {:induction false} RemoveAllChanges(s: string, pat: string)
    requires pat != []
    ensures RemoveAll(s, pat) == s <==> !Occurs(s, pat)
    ensures |RemoveAll(s, pat)| <= |s|
    ensures Occurs(s, pat) ==> |RemoveAll(s, pat)| <= |s| - |pat|
    decreases |s|
  {
    if |s| >= |pat| {
      if s[..|pat|] == pat {
        RemoveAllChanges(s[|pat|..], pat);
      } else {
        RemoveAllChanges(s[1..], pat);
        if RemoveAll(s, pat) == s {
          assert RemoveAll(s[1..], pat) == s[1..];
        }
      }
    }
  }

  /** Line 11: the section's symbol, every ".text$" and then every ".data$" removed. */
  function Symbol(name: string): string
  {
    RemoveAll(RemoveAll(name, TextTag), DataTag)
  }

  /** A name without either tag is its own symbol. */
  lemma SymbolOfUntagged(name: string)
    requires !Occurs(name, TextTag) && !Occurs(name, DataTag)
    ensures Symbol(name) == name
  {
    RemoveAllChanges(name, TextTag);
    RemoveAllChanges(name, DataTag);
  }

  // ---------------------------------------------------------------- the edge loop

  datatype Edge = Edge(source: string, target: string)

  function EdgeLine(e: Edge): string
  {
    "  " + e.source + " -> " + e.target + ";"
  }

  function EdgeLines(edges: seq<Edge>): (r: seq<string>)
    ensures |r| == |edges|
    ensures forall k :: 0 <= k < |edges| ==> r[k] == EdgeLine(edges[k])
  {
    seq(|edges|, k requires 0 <= k < |edges| => EdgeLine(edges[k]))
  }

  lemma EdgeLinesAppend(edges: seq<Edge>, e: Edge)
    ensures EdgeLines(edges + [e]) == EdgeLines(edges) + [EdgeLine(e)]
  {
  }

  /**
   * The script's state in the edge loop: the edges printed, `depsym` (None
   * while unbound), the lists `textsym` and `datasym`, and whether it is
   * still running (a child without either tag before any `depsym` was bound
   * raises NameError).
   */
  datatype Walk = Walk(edges: seq<Edge>, depsym: Option<string>, textsym: seq<string>, datasym: seq<string>, ok: bool)

  const Begin := Walk([], None, [], [], true)

  /** Every child, as (symbol of its section, its text), in document order. */
  function Pairs(sections: seq<Section>): (r: seq<(string, string)>)
  {
    if sections == [] then []
    else Pairs(sections[..|sections| - 1]) + SectionPairs(sections[|sections| - 1])
  }

  function SectionPairs(s: Section): (r: seq<(string, string)>)
    ensures |r| == |s.children|
    ensures forall k :: 0 <= k < |r| ==> r[k] == (Symbol(s.name), s.children[k])
  {
    seq(|s.children|, k requires 0 <= k < |s.children| => (Symbol(s.name), s.children[k]))
  }

  /** The children of the first sections come first. */
  lemma {:induction false} PairsPrefix(sections: seq<Section>, i: nat)
    requires i <= |sections|
    ensures Pairs(sections[..i]) <= Pairs(sections)
    decreases |sections|
  {
    if i < |sections| {
      var init := sections[..|sections| - 1];
      PairsPrefix(init, i);
      assert init[..i] == sections[..i];
    } else {
      assert sections[..i] == sections;
    }
  }

  /** Lines 13-20 for one child: classify its text, then print the edge. */
  function Visit(w: Walk, p: (string, string)): Walk
  {
    var text := p.1;
    var w := if Occurs(text, TextTag) then
      var d := RemoveAll(text, TextTag); w.(depsym := Some(d), textsym := w.textsym + [d]) else w;
    var w := if Occurs(text, DataTag) then
      var d := RemoveAll(text, DataTag); w.(depsym := Some(d), datasym := w.datasym + [d]) else w;
    if w.depsym.None? then w.(ok := false) else w.(edges := w.edges + [Edge(p.0, w.depsym.value)])
  }

  /** The loop over the children `pairs`, stopping at the first error. */
  function Walked(pairs: seq<(string, string)>): Walk
  {
    if pairs == [] then Begin
    else
      var w := Walked(pairs[..|pairs| - 1]);
      if w.ok then Visit(w, pairs[|pairs| - 1]) else w
  }

  /** After an error nothing more happens. */
  lemma {:induction false} WalkedStops(pre: seq<(string, string)>, pairs: seq<(string, string)>)
    requires pre <= pairs && !Walked(pre).ok
    ensures Walked(pairs) == Walked(pre)
    decreases |pairs|
  {
    if |pre| < |pairs| {
      var init := pairs[..|pairs| - 1];
      assert pre <= init;
      WalkedStops(pre, init);
    } else {
      assert pre == pairs;
    }
  }

  /** What a child's text makes `depsym`: its ".data$"-stripped form, else its ".text$"-stripped form, else unchanged. */
  function Target(text: string, prev: Option<string>): Option<string>
  {
    if Occurs(text, DataTag) then Some(RemoveAll(text, DataTag))
    else if Occurs(text, TextTag) then Some(RemoveAll(text, TextTag))
    else prev
  }

  predicate Tagged(text: string)
  {
    Occurs(text, TextTag) || Occurs(text, DataTag)
  }

  /** One child: `depsym` becomes its Target, the edge goes to it, and each tag adds the stripped text to its list. */
  lemma VisitTarget(w: Walk, p: (string, string))
    requires w.ok
    ensures var v := Visit(w, p); var d := Target(p.1, w.depsym);
      && (v.ok <==> d.Some?)
      && (v.ok ==> v.depsym == d && v.edges == w.edges + [Edge(p.0, d.value)])
      && (!v.ok ==> v.edges == w.edges)
      && v.textsym == w.textsym + (if Occurs(p.1, TextTag) then [RemoveAll(p.1, TextTag)] else [])
      && v.datasym == w.datasym + (if Occurs(p.1, DataTag) then [RemoveAll(p.1, DataTag)] else [])
  {
  }

  /**
   * Up to the first error there is one edge per child; the error happens
   * exactly when the first child has neither tag, before any edge; and
   * `depsym` is the target of the last edge.
   */
  lemma {:induction false} WalkedCount(pairs: seq<(string, string)>)
    ensures var w := Walked(pairs);
      && (w.ok <==> pairs == [] || Tagged(pairs[0].1))
      && (w.ok ==> |w.edges| == |pairs| && w.depsym == (if pairs == [] then None else Some(w.edges[|pairs| - 1].target)))
      && (!w.ok ==> w.edges == [])
    decreases |pairs|
  {
    if pairs != [] {
      var init := pairs[..|pairs| - 1];
      WalkedCount(init);
      var w0 := Walked(init);
      if w0.ok {
        VisitTarget(w0, pairs[|pairs| - 1]);
        if init != [] {
          assert init[0] == pairs[0];
        }
      }
    }
  }

  /** Each edge starts at the symbol of its child's section, in document order. */
  lemma {:induction false} WalkedSources(pairs: seq<(string, string)>)
    ensures var w := Walked(pairs);
      forall k :: 0 <= k < |w.edges| ==> k < |pairs| && w.edges[k].source == pairs[k].0
    decreases |pairs|
  {
    if pairs != [] {
      var init := pairs[..|pairs| - 1];
      WalkedSources(init);
      WalkedCount(init);
      var w0 := Walked(init);
      if w0.ok {
        VisitTarget(w0, pairs[|pairs| - 1]);
      }
      forall k | 0 <= k < |init|
        ensures init[k] == pairs[k]
      {
      }
    }
  }

  /** `depsym` before the child of edge `k`: the previous edge's target, unbound before the first. */
  function Previous(edges: seq<Edge>, k: nat): Option<string>
    requires k <= |edges|
  {
    if k == 0 then None else Some(edges[k - 1].target)
  }

  /**
   * Each edge goes to the target its child's text selects: the stripped text
   * if it has a tag, otherwise the previous edge's target.
   */
  lemma {:induction false} WalkedTargets(pairs: seq<(string, string)>, k: nat)
    requires k < |Walked(pairs).edges|
    ensures k < |pairs|
    ensures var w := Walked(pairs);
      Some(w.edges[k].target) == Target(pairs[k].1, Previous(w.edges, k))
    decreases |pairs|
  {
    assert pairs != [];
    var init := pairs[..|pairs| - 1];
    var last := pairs[|pairs| - 1];
    var w0 := Walked(init);
    var w := Walked(pairs);
    WalkedCount(pairs);
    WalkedCount(init);
    assert w0.ok;
    VisitTarget(w0, last);
    var n := |init|;
    assert w.edges[..n] == w0.edges;
    if k < n {
      WalkedTargets(init, k);
      assert init[k] == pairs[k];
      assert w.edges[k] == w0.edges[k];
      assert k > 0 ==> w.edges[k - 1] == w0.edges[k - 1];
    } else {
      assert n > 0 ==> w.edges[n - 1] == w0.edges[n - 1];
    }
  }

  /** The text symbols collected are the ".text$"-stripped forms of the tagged children, and likewise for data. */
  lemma {:induction false} WalkedSymbols(pairs: seq<(string, string)>, x: string)
    requires Walked(pairs).ok
    ensures x in Walked(pairs).textsym <==>
      exists k :: 0 <= k < |pairs| && Occurs(pairs[k].1, TextTag) && x == RemoveAll(pairs[k].1, TextTag)
    ensures x in Walked(pairs).datasym <==>
      exists k :: 0 <= k < |pairs| && Occurs(pairs[k].1, DataTag) && x == RemoveAll(pairs[k].1, DataTag)
    decreases |pairs|
  {
    if pairs != [] {
      var init := pairs[..|pairs| - 1];
      assert Walked(init).ok;
      VisitTarget(Walked(init), pairs[|pairs| - 1]);
      WalkedSymbols(init, x);
      forall k | 0 <= k < |init|
        ensures init[k] == pairs[k]
      {
      }
    }
  }

  /** An error ends the walk of all the children that follow. */
  lemma ErrorIsFinal(sections: seq<Section>, i: nat)
    requires i <= |sections| && !Walked(Pairs(sections[..i])).ok
    ensures Walked(Pairs(sections)) == Walked(Pairs(sections[..i]))
  {
    PairsPrefix(sections, i);
    WalkedStops(Pairs(sections[..i]), Pairs(sections));
  }

  // ---------------------------------------------------------------- the shape lines

  function ShapeLine(x: string, shape: string): string
  {
    " \"" + x + "\" [shape=" + shape + "];"
  }

  /** Different symbols give different shape lines. */
  lemma ShapeLineInjective(x: string, y: string, shape: string)
    requires ShapeLine(x, shape) == ShapeLine(y, shape)
    ensures x == y
  {
    var l := ShapeLine(x, shape);
    var n := |"\" [shape=" + shape + "];"|;
    assert l[2..|l| - n] == x;
    assert ShapeLine(y, shape)[2..|l| - n] == y;
  }

  /** The distinct symbols of a list (Python's `set()`). */
  function Distinct(syms: seq<string>): set<string>
  {
    set x | x in syms
  }

  /** `order` lists each element of `syms` exactly once. */
  ghost predicate Enumeration(order: seq<string>, syms: set<string>)
  {
    Graphs.NoDuplicates(order) && (forall x :: x in order <==> x in syms)
  }

  function Rendered(order: seq<string>, shape: string): (r: seq<string>)
    ensures |r| == |order|
    ensures forall k :: 0 <= k < |order| ==> r[k] == ShapeLine(order[k], shape)
  {
    seq(|order|, k requires 0 <= k < |order| => ShapeLine(order[k], shape))
  }

  /** Each distinct symbol gets exactly one shape line. */
  lemma RenderedOnce(order: seq<string>, syms: set<string>, shape: string)
    requires Enumeration(order, syms)
    ensures var lines := Rendered(order, shape);
      && Graphs.NoDuplicates(lines)
      && (forall x :: ShapeLine(x, shape) in lines <==> x in syms)
  {
    var lines := Rendered(order, shape);
    forall i, j | 0 <= i < j < |lines|
      ensures lines[i] != lines[j]
    {
      if lines[i] == lines[j] {
        ShapeLineInjective(order[i], order[j], shape);
      }
    }
    forall x | ShapeLine(x, shape) in lines
      ensures x in syms
    {
      var k :| 0 <= k < |lines| && lines[k] == ShapeLine(x, shape);
      ShapeLineInjective(x, order[k], shape);
    }
    forall x | x in syms
      ensures ShapeLine(x, shape) in lines
    {
      var k :| 0 <= k < |order| && order[k] == x;
      assert lines[k] == ShapeLine(x, shape);
    }
  }

  /** Lines 22-26: one shape line per distinct symbol, in the set's iteration order (here: any order). */
  method ShapeLines(syms: seq<string>, shape: string) returns (lines: seq<string>, ghost order: seq<string>)
    ensures Enumeration(order, Distinct(syms)) && lines == Rendered(order, shape)
  {
    var rest := Distinct(syms);
    lines, order := [], [];
    while rest != {}
      invariant Graphs.NoDuplicates(order) && lines == Rendered(order, shape)
      invariant rest <= Distinct(syms)
      invariant forall x :: x in order ==> x !in rest && x in Distinct(syms)
      invariant forall x :: x in Distinct(syms) ==> x in rest || x in order
      decreases |rest|
    {
      var x :| x in rest;
      order := order + [x];
      lines := lines + [ShapeLine(x, shape)];
      rest := rest - {x};
    }
  }

  // ---------------------------------------------------------------- the script

  /** The walk over one more child of `section`. */
  lemma WalkedNext(before: seq<(string, string)>, section: Section, j: nat)
    requires j < |section.children|
    ensures var prev := Walked(before + SectionPairs(section)[..j]);
      Walked(before + SectionPairs(section)[..j + 1]) ==
        if prev.ok then Visit(prev, (Symbol(section.name), section.children[j])) else prev
  {
    var seen := before + SectionPairs(section)[..j + 1];
    assert seen[..|seen| - 1] == before + SectionPairs(section)[..j];
    assert seen[|seen| - 1] == (Symbol(section.name), section.children[j]);
  }

  /** A failure at a child of `section` is the outcome of the walk over the whole section. */
  lemma WalkedAfterError(before: seq<(string, string)>, section: Section, j: nat)
    requires j < |section.children| && !Walked(before + SectionPairs(section)[..j + 1]).ok
    ensures Walked(before + SectionPairs(section)) == Walked(before + SectionPairs(section)[..j + 1])
  {
    var all := before + SectionPairs(section);
    var seen := before + SectionPairs(section)[..j + 1];
    assert seen <= all;
    WalkedStops(seen, all);
  }

  /**
   * Lines 12-20: the loop over the children of one section, whose symbol is
   * `symbol`, carrying on the walk of the children `before` it.  `ok` is false
   * when it stopped with NameError.
   */
  method VisitChildren(section: Section, symbol: string, ghost before: seq<(string, string)>,
                       edges: seq<Edge>, depsym: Option<string>, textsym: seq<string>, datasym: seq<string>, out: seq<string>)
    returns (redges: seq<Edge>, rdepsym: Option<string>, rtextsym: seq<string>, rdatasym: seq<string>, rout: seq<string>, ok: bool)
    requires symbol == Symbol(section.name)
    requires Walked(before) == Walk(edges, depsym, textsym, datasym, true) && out == [Header] + EdgeLines(edges)
    ensures Walked(before + SectionPairs(section)) == Walk(redges, rdepsym, rtextsym, rdatasym, ok)
    ensures rout == [Header] + EdgeLines(redges)
  {
    redges, rdepsym, rtextsym, rdatasym, rout := edges, depsym, textsym, datasym, out;
    assert before + SectionPairs(section)[..0] == before;
    var j := 0;
    while j < |section.children|
      invariant j <= |section.children|
      invariant Walked(before + SectionPairs(section)[..j]) == Walk(redges, rdepsym, rtextsym, rdatasym, true)
      invariant rout == [Header] + EdgeLines(redges)
    {
      var text := section.children[j];
      ghost var w := Walk(redges, rdepsym, rtextsym, rdatasym, true);
      WalkedNext(before, section, j);
      VisitTarget(w, (symbol, text));
      if Occurs(text, TextTag) {
        rdepsym := Some(RemoveAll(text, TextTag));
        rtextsym := rtextsym + [rdepsym.value];
      }
      if Occurs(text, DataTag) {
        rdepsym := Some(RemoveAll(text, DataTag));
        rdatasym := rdatasym + [rdepsym.value];
      }
      if rdepsym.None? {
        // NameError: the script stops here
        WalkedAfterError(before, section, j);
        ok := false;
        return;
      }
      EdgeLinesAppend(redges, Edge(symbol, rdepsym.value));
      redges := redges + [Edge(symbol, rdepsym.value)];
      rout := rout + [EdgeLine(Edge(symbol, rdepsym.value))];
      j := j + 1;
    }
    assert SectionPairs(section)[..j] == SectionPairs(section);
    ok := true;
  }

  /**
   * The whole script: the header, the edges, then (unless a child without
   * either tag came before any tagged one) the box lines of the distinct text
   * symbols, the circle lines of the distinct data symbols and the footer.
   * `ok` is false when the script stops with NameError; `out` is then what it
   * had printed.
   */
  method ToGraphviz(sections: seq<Section>)
    returns (out: seq<string>, ok: bool, boxes: seq<string>, circles: seq<string>, ghost boxOrder: seq<string>, ghost circleOrder: seq<string>)
    ensures var w := Walked(Pairs(sections));
      && ok == w.ok
      && (!ok ==> out == [Header] + EdgeLines(w.edges))
      && (ok ==> out == [Header] + EdgeLines(w.edges) + boxes + circles + [Footer])
      && (ok ==> Enumeration(boxOrder, Distinct(w.textsym)) && boxes == Rendered(boxOrder, "box"))
      && (ok ==> Enumeration(circleOrder, Distinct(w.datasym)) && circles == Rendered(circleOrder, "circle"))
  {
    out := [Header];
    var edges: seq<Edge> := [];
    var depsym: Option<string> := None;
    var textsym: seq<string> := [];
    var datasym: seq<string> := [];
    var i := 0;
    while i < |sections|
      invariant i <= |sections|
      invariant Walked(Pairs(sections[..i])) == Walk(edges, depsym, textsym, datasym, true)
      invariant out == [Header] + EdgeLines(edges)
    {
      var section := sections[i];
      var symbol := Symbol(section.name);
      assert sections[..i + 1][..i] == sections[..i];
      assert Pairs(sections[..i + 1]) == Pairs(sections[..i]) + SectionPairs(section);
      edges, depsym, textsym, datasym, out, ok := VisitChildren(section, symbol, Pairs(sections[..i]), edges, depsym, textsym, datasym, out);
      i := i + 1;
      if !ok {
        ErrorIsFinal(sections, i);
        boxes, circles, boxOrder, circleOrder := [], [], [], [];
        return;
      }
    }
    assert sections[..i] == sections;
    boxes, boxOrder := ShapeLines(textsym, "box");
    circles, circleOrder := ShapeLines(datasym, "circle");
    out := out + boxes + circles + [Footer];
    ok := true;
  }
}
