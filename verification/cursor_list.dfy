/**
 * The singly linked list of list.c: a sentinel element `top` that is always
 * one element before the first datum, and a movable cursor `curr`.
 *
 * The ghost sequence `nodes` lists the elements from the sentinel onwards, and
 * `cursor` is the index of `curr` in it: 0 is the sentinel, k >= 1 is the k-th
 * datum, and |nodes| stands for a NULL cursor (the state listRemove leaves when
 * it removes the last element).  `Contents` holds the data in list order and
 * `Repr` every element the list has ever linked (a removed element is freed in
 * C; here it merely stays in the footprint).
 */
module CursorLists {
  import opened Wrappers

  class Element<T> {
    var data: Option<T>   // None is the NULL datum of the calloc'ed sentinel
    var next: Element?<T>

    constructor (data: Option<T>, next: Element?<T>)
      ensures this.data == data && this.next == next
    {
      this.data := data;
      this.next := next;
    }
  }

  class CursorList<T> {
    const top: Element<T>
    var curr: Element?<T>

    ghost var nodes: seq<Element<T>>
    ghost var cursor: nat
    ghost var Contents: seq<T>
    ghost var Repr: set<Element<T>>

    /** The links are well formed; says nothing about where the cursor is. */
    ghost predicate Linked()
      reads this`nodes, this`Contents, this`Repr, Repr
    {
      Chain(nodes, Contents, Repr) && nodes[0] == top
    }

    ghost predicate Valid()
      reads this, Repr
    {
      && Linked()
      && cursor <= |nodes|
      && curr == (if cursor < |nodes| then nodes[cursor] else null)
    }

    /** The cursor is on the sentinel or on a datum (not NULL). */
    ghost predicate OnNode()
      reads this
    {
      cursor < |nodes|
    }

    /** The cursor is on a datum: the precondition of listGet and listSet. */
    ghost predicate OnDatum()
      reads this
    {
      1 <= cursor < |nodes|
    }

    /** newList: an empty list whose cursor sits on the sentinel. */
    constructor ()
      ensures Valid() && fresh(Repr)
      ensures Contents == [] && cursor == 0 && OnNode()
    {
      var sentinel := new Element(None, null);
      top := sentinel;
      curr := sentinel;
      nodes := [sentinel];
      cursor := 0;
      Contents := [];
      Repr := {sentinel};
      ChainIff([sentinel], [], {sentinel});
    }

    /**
     * listAdd: links a new element holding `x` in right after the cursor and
     * moves the cursor onto it.
     */
    method Add(x: T)
      requires Valid() && OnNode()
      modifies this, Repr
      ensures Valid() && fresh(Repr - old(Repr)) && old(Repr) <= Repr
      ensures Contents == old(Contents[..cursor]) + [x] + old(Contents[cursor..])
      ensures cursor == old(cursor) + 1 && OnDatum()
    {
      ChainIff(nodes, Contents, Repr);
      var e := new Element(Some(x), curr.next);
      ghost var c, ns, cs := cursor, nodes, Contents;
      curr.next := e;
      forall i | 0 <= i < |ns| - 1 && i != c
        ensures ns[i].next == ns[i + 1]
      {
        assert ns[i] != ns[c];
      }
      assert c != |ns| - 1 ==> ns[|ns| - 1] != ns[c];
      ghost var nns, ncs := ns[..c + 1] + [e] + ns[c + 1..], cs[..c] + [x] + cs[c..];
      Inserted(ns, cs, Repr, c, e, x);
      ChainIff(nns, ncs, Repr + {e});
      curr := e;
      nodes := nns;
      cursor := c + 1;
      Contents := cs[..c] + [x] + cs[c..];
      Repr := Repr + {e};
    }

    /**
     * listRemove, restricted to the two cursor positions at which it really
     * unlinks something: the sentinel and the first datum.  In both it removes
     * the first datum and leaves the cursor on the element after it, which is
     * the new first datum or NULL when the list became empty.
     */
    method Remove()
      requires Valid() && cursor <= 1 && |Contents| >= 1
      modifies this, Repr
      ensures Valid() && Repr == old(Repr)
      ensures Contents == old(Contents[1..])
      ensures cursor == 1
      ensures OnNode() <==> Contents != []
    {
      ChainIff(nodes, Contents, Repr);
      var tmp := curr;
      if top == tmp {
        tmp := tmp.next;
      }
      ghost var ns := nodes;
      assert tmp == ns[1] && ns[1] != ns[0];
      assert tmp.next == if |ns| > 2 then ns[2] else null;
      if top.next == tmp {
        top.next := tmp.next;
      }
      curr := tmp.next;
      nodes := [top] + ns[2..];
      cursor := 1;
      Contents := Contents[1..];
      forall i | 0 <= i < |nodes|
        ensures nodes[i] in Repr
      {
        if i > 0 {
          assert nodes[i] == ns[i + 1];
        }
      }
      forall i, j | 0 <= i < j < |nodes|
        ensures nodes[i] != nodes[j]
      {
        assert nodes[j] == ns[j + 1];
        if i > 0 {
          assert nodes[i] == ns[i + 1];
        }
      }
      forall i | 0 <= i < |nodes| - 1
        ensures nodes[i].next == nodes[i + 1]
      {
        if i > 0 {
          assert nodes[i] == ns[i + 1] && nodes[i + 1] == ns[i + 2] && ns[i + 1] != ns[0];
        }
      }
      assert |nodes| > 1 ==> nodes[|nodes| - 1] == ns[|ns| - 1] && ns[|ns| - 1] != ns[0];
      forall i | 0 <= i < |Contents|
        ensures nodes[i + 1].data == Some(Contents[i])
      {
        assert nodes[i + 1] == ns[i + 2];
      }
      ChainIff(nodes, Contents, Repr);
    }

    /** listSet: replaces the datum under the cursor and nothing else. */
    method Set(x: T)
      requires Valid() && OnDatum()
      modifies this, Repr
      ensures Valid() && Repr == old(Repr) && nodes == old(nodes) && cursor == old(cursor)
      ensures Contents == old(Contents[cursor - 1 := x])
    {
      ChainIff(nodes, Contents, Repr);
      curr.data := Some(x);
      Contents := Contents[cursor - 1 := x];
      forall i | 0 <= i < |Contents|
        ensures nodes[i + 1].data == Some(Contents[i])
      {
        if i != cursor - 1 {
          assert nodes[i + 1] != nodes[cursor];
        }
      }
      ChainIff(nodes, Contents, Repr);
    }

    /** listGet: the datum under the cursor. */
    method Get() returns (x: T)
      requires Valid() && OnDatum()
      ensures x == Contents[cursor - 1]
    {
      ChainIff(nodes, Contents, Repr);
      assert nodes[cursor].data == Some(Contents[cursor - 1]);
      x := curr.data.value;
    }

    /**
     * listNext: advances the cursor and answers true when there is an element
     * after it; at the last element it answers false and stays put.
     */
    method Next() returns (moved: bool)
      requires Valid() && OnNode()
      modifies this`curr, this`cursor
      ensures Valid() && OnNode()
      ensures moved <==> old(cursor) < |Contents|
      ensures cursor == if moved then old(cursor) + 1 else old(cursor)
    {
      ChainIff(nodes, Contents, Repr);
      assert cursor < |nodes| - 1 ==> nodes[cursor].next == nodes[cursor + 1];
      if curr.next != null {
        curr := curr.next;
        cursor := cursor + 1;
        moved := true;
      } else {
        moved := false;
      }
    }

    /** listStart: puts the cursor back on the sentinel, wherever it was. */
    method Start()
      requires Linked()
      modifies this`curr, this`cursor
      ensures Valid() && cursor == 0 && OnNode()
    {
      curr := top;
      cursor := 0;
    }

    /** listCount: walks the links from the sentinel to the end. */
    method Count() returns (n: nat)
      requires Valid()
      ensures n == |Contents|
    {
      ChainIff(nodes, Contents, Repr);
      var tmp := top;
      n := 0;
      while tmp.next != null
        invariant n < |nodes| && tmp == nodes[n]
        invariant tmp.next == if n + 1 < |nodes| then nodes[n + 1] else null
        decreases |nodes| - n
      {
        tmp := tmp.next;
        n := n + 1;
      }
    }

    /** listIsEmpty: true exactly when the list holds no datum. */
    method IsEmpty() returns (empty: bool)
      requires Valid()
      ensures empty <==> |Contents| == 0
    {
      ChainIff(nodes, Contents, Repr);
      assert |nodes| > 1 ==> nodes[0].next == nodes[1];
      empty := top.next == null;
    }
  }

  /**
   * `ns` is a NULL-terminated chain of distinct elements inside `repr`, headed
   * by a sentinel with a NULL datum, whose other elements hold `data` in order.
   * It is stated element by element, so that a client who only carries it
   * along does not unfold the whole list; ChainIff gives the same facts as
   * quantified statements.
   */
  ghost predicate Chain<T>(ns: seq<Element<T>>, data: seq<T>, repr: set<Element<T>>)
    reads repr
  {
    1 <= |ns| && ns[0] in repr && ns[0].data == None && Links(ns, data, repr, 0)
  }

  /**
   * From position `i` on, `ns` is linked in order up to a NULL, each element
   * after `i` holds the matching datum, and no element recurs.
   */
  ghost predicate Links<T>(ns: seq<Element<T>>, data: seq<T>, repr: set<Element<T>>, i: nat)
    reads repr
    decreases |ns| - i
  {
    && i < |ns| && ns[i] in repr && |data| == |ns| - 1 && ns[i] !in ns[i + 1..]
    && if i == |ns| - 1 then ns[i].next == null
       else ns[i + 1] in repr && ns[i].next == ns[i + 1] && ns[i + 1].data == Some(data[i]) && Links(ns, data, repr, i + 1)
  }

  /** Chain, as quantified statements. */
  ghost predicate ChainFacts<T>(ns: seq<Element<T>>, data: seq<T>, repr: set<Element<T>>)
    reads repr
  {
    && 1 <= |ns|
    && (forall i :: 0 <= i < |ns| ==> ns[i] in repr)
    && (forall i, j :: 0 <= i < j < |ns| ==> ns[i] != ns[j])
    && (forall i :: 0 <= i < |ns| - 1 ==> ns[i].next == ns[i + 1])
    && ns[|ns| - 1].next == null
    && ns[0].data == None
    && |data| == |ns| - 1
    && (forall i :: 0 <= i < |data| ==> ns[i + 1].data == Some(data[i]))
  }

  /** Links from position `i`, as quantified statements. */
  ghost predicate LinksFacts<T>(ns: seq<Element<T>>, data: seq<T>, repr: set<Element<T>>, i: nat)
    reads repr
  {
    && i < |ns|
    && (forall k :: i <= k < |ns| ==> ns[k] in repr)
    && (forall k, l :: i <= k < l < |ns| ==> ns[k] != ns[l])
    && (forall k :: i <= k < |ns| - 1 ==> ns[k].next == ns[k + 1])
    && ns[|ns| - 1].next == null
    && |data| == |ns| - 1
    && (forall k :: i <= k < |data| ==> ns[k + 1].data == Some(data[k]))
  }

  lemma ChainIff<T>(ns: seq<Element<T>>, data: seq<T>, repr: set<Element<T>>)
    ensures Chain(ns, data, repr) <==> ChainFacts(ns, data, repr)
  {
    LinksIff(ns, data, repr, 0);
  }

  lemma {:induction false} LinksIff<T>(ns: seq<Element<T>>, data: seq<T>, repr: set<Element<T>>, i: nat)
    ensures Links(ns, data, repr, i) <==> LinksFacts(ns, data, repr, i)
    decreases |ns| - i
  {
    if i + 1 < |ns| {
      LinksIff(ns, data, repr, i + 1);
      if LinksFacts(ns, data, repr, i) {
        var ts := ns[i + 1..];
        assert ns[i] !in ts by {
          forall k | 0 <= k < |ts|
            ensures ts[k] != ns[i]
          {
            assert ts[k] == ns[i + 1 + k];
          }
        }
      }
      if Links(ns, data, repr, i) {
        forall k, l | i <= k < l < |ns|
          ensures ns[k] != ns[l]
        {
          if k == i {
            assert ns[l] == ns[i + 1..][l - i - 1];
          }
        }
      }
    } else if i + 1 == |ns| {
      assert ns[i + 1..] == [];
    }
  }

  /**
   * The proof step of listAdd: after the element at index `c` has been linked
   * to the new element `e`, which is linked to the old successor, the elements
   * form a chain holding `x` at data position `c`.
   */
  lemma Inserted<T>(ns: seq<Element<T>>, cs: seq<T>, repr: set<Element<T>>, c: nat, e: Element<T>, x: T)
    requires c < |ns| && |cs| == |ns| - 1 && e !in repr
    requires forall i :: 0 <= i < |ns| ==> ns[i] in repr
    requires forall i, j :: 0 <= i < j < |ns| ==> ns[i] != ns[j]
    requires forall i :: 0 <= i < |ns| - 1 && i != c ==> ns[i].next == ns[i + 1]
    requires c != |ns| - 1 ==> ns[|ns| - 1].next == null
    requires ns[c].next == e && e.next == (if c + 1 < |ns| then ns[c + 1] else null) && e.data == Some(x)
    requires ns[0].data == None && forall i :: 0 <= i < |cs| ==> ns[i + 1].data == Some(cs[i])
    ensures ChainFacts(ns[..c + 1] + [e] + ns[c + 1..], cs[..c] + [x] + cs[c..], repr + {e})
  {
  }

}
