/**
 * The section analysis of objectFile.c (objectFileCompute and the functions
 * that read its result): the map from section key to graph node and the list
 * of sections referenced from outside any known section.
 *
 * The hashmap `sectionMap` is modelled by three maps over the keys: the name
 * each node was created with, its edge list (as keys) and its colour.
 */
module Sections {
  import opened Wrappers
  import opened SectionNames
  import opened ObjectFiles
  import opened Graphs
  import opened Colouring

  /** The colour objectFileCompute gives everything an unknown section references (0x80000000). */
  const Dead: Colour := {31}

  // ---------------------------------------------------------------- registration

  /** Every section name of the given files, file by file, in list order. */
  function AllSects(files: seq<ObjectFile>): seq<string>
  {
    if files == [] then [] else AllSects(files[..|files| - 1]) + files[|files| - 1].sects
  }

  /** Each section name paired with the key it is filed under: its name without prefix. */
  function Filed(names: seq<string>): (r: seq<(string, string)>)
    ensures |r| == |names|
  {
    if names == [] then []
    else Filed(names[..|names| - 1]) + [(StripPrefix(names[|names| - 1]), names[|names| - 1])]
  }

  /**
   * The map once each (key, value) entry was inserted in turn by the test
   * `if (!hashmapGet(map, key)) hashmapSet(map, value, key)`: a key already
   * present keeps its value.
   */
  function Registered<K, V>(m: map<K, V>, entries: seq<(K, V)>): map<K, V>
  {
    if entries == [] then m
    else
      var r := Registered(m, entries[..|entries| - 1]);
      var e := entries[|entries| - 1];
      if e.0 in r then r else r[e.0 := e.1]
  }

  /** The keys after registration are the old keys and the keys of the entries. */
  lemma {:induction false} RegisteredKeys<K, V>(m: map<K, V>, entries: seq<(K, V)>, k: K)
    ensures k in Registered(m, entries) <==> k in m || exists i :: 0 <= i < |entries| && entries[i].0 == k
    decreases |entries|
  {
    if entries != [] {
      var init := entries[..|entries| - 1];
      RegisteredKeys(m, init, k);
      if exists i :: 0 <= i < |entries| && entries[i].0 == k {
        var i :| 0 <= i < |entries| && entries[i].0 == k;
        if i < |entries| - 1 {
          assert init[i] == entries[i];
        }
      }
    }
  }

  /** A key that was present keeps its value. */
  lemma {:induction false} RegisteredKeeps<K, V>(m: map<K, V>, entries: seq<(K, V)>, k: K)
    requires k in m
    ensures k in Registered(m, entries) && Registered(m, entries)[k] == m[k]
    decreases |entries|
  {
    if entries != [] {
      RegisteredKeeps(m, entries[..|entries| - 1], k);
    }
  }

  /** A new key gets the value of the first entry filed under it; later ones are ignored. */
  lemma {:induction false} RegisteredFirst<K, V>(m: map<K, V>, entries: seq<(K, V)>, i: nat)
    requires i < |entries| && entries[i].0 !in m
    requires forall j :: 0 <= j < i ==> entries[j].0 != entries[i].0
    ensures entries[i].0 in Registered(m, entries) && Registered(m, entries)[entries[i].0] == entries[i].1
    decreases |entries|
  {
    var init := entries[..|entries| - 1];
    var key := entries[i].0;
    if i < |entries| - 1 {
      assert init[i] == entries[i];
      forall j | 0 <= j < i
        ensures init[j].0 != key
      {
        assert init[j] == entries[j];
      }
      RegisteredFirst(m, init, i);
    } else {
      RegisteredKeys(m, init, key);
      forall j | 0 <= j < |init|
        ensures init[j].0 != key
      {
        assert init[j] == entries[j];
      }
    }
  }

  /** Registering two runs of entries is registering the first, then the second. */
  lemma {:induction false} RegisteredAppend<K, V>(m: map<K, V>, a: seq<(K, V)>, b: seq<(K, V)>)
    ensures Registered(m, a + b) == Registered(Registered(m, a), b)
    decreases |b|
  {
    if b == [] {
      assert a + b == a;
    } else {
      assert (a + b)[..|a + b| - 1] == a + b[..|b| - 1];
      RegisteredAppend(m, a, b[..|b| - 1]);
    }
  }

  lemma {:induction false} FiledAppend(a: seq<string>, b: seq<string>)
    ensures Filed(a + b) == Filed(a) + Filed(b)
    decreases |b|
  {
    if b == [] {
      assert a + b == a;
    } else {
      assert (a + b)[..|a + b| - 1] == a + b[..|b| - 1];
      FiledAppend(a, b[..|b| - 1]);
    }
  }

  /** A section list rewritten to keys, as objectFileCompute rewrites it in place. */
  function Keys(sects: seq<string>): (r: seq<string>)
    ensures |r| == |sects|
  {
    if sects == [] then [] else Keys(sects[..|sects| - 1]) + [StripPrefix(sects[|sects| - 1])]
  }

  /** Each file of `files` with its sections rewritten to keys. */
  function Keyed(files: seq<ObjectFile>): (r: seq<ObjectFile>)
    ensures |r| == |files|
  {
    if files == [] then []
    else Keyed(files[..|files| - 1]) + [files[|files| - 1].(sects := Keys(files[|files| - 1].sects))]
  }

  /** Registering one more section name. */
  lemma RegisteredNext(m: map<string, string>, sects: seq<string>, j: nat)
    requires j < |sects|
    ensures var r := Registered(m, Filed(sects[..j]));
      var key := StripPrefix(sects[j]);
      Registered(m, Filed(sects[..j + 1])) == if key in r then r else r[key := sects[j]]
  {
    assert sects[..j + 1][..j] == sects[..j];
  }

  lemma {:induction false} FiledAt(names: seq<string>, i: nat)
    requires i < |names|
    ensures Filed(names)[i] == (StripPrefix(names[i]), names[i])
    decreases |names|
  {
    if i < |names| - 1 {
      FiledAt(names[..|names| - 1], i);
    }
  }

  lemma {:induction false} KeysAt(sects: seq<string>, i: nat)
    requires i < |sects|
    ensures Keys(sects)[i] == StripPrefix(sects[i])
    decreases |sects|
  {
    if i < |sects| - 1 {
      KeysAt(sects[..|sects| - 1], i);
    }
  }

  /**
   * Registering section names from an empty map: the keys are exactly the
   * names without prefix, and each key's node is named after the first
   * section filed under it.
   */
  lemma RegisteredNames(names: seq<string>)
    ensures forall k :: k in Registered(map[], Filed(names)) <==> exists i :: 0 <= i < |names| && StripPrefix(names[i]) == k
    ensures forall i :: 0 <= i < |names| && (forall j :: 0 <= j < i ==> StripPrefix(names[j]) != StripPrefix(names[i])) ==>
      Registered(map[], Filed(names))[StripPrefix(names[i])] == names[i]
  {
    var entries := Filed(names);
    forall i | 0 <= i < |names|
      ensures entries[i] == (StripPrefix(names[i]), names[i])
    {
      FiledAt(names, i);
    }
    forall k
      ensures k in Registered(map[], entries) <==> exists i :: 0 <= i < |names| && StripPrefix(names[i]) == k
    {
      RegisteredKeys(map[], entries, k);
    }
    forall i | 0 <= i < |names| && (forall j :: 0 <= j < i ==> StripPrefix(names[j]) != StripPrefix(names[i]))
      ensures Registered(map[], entries)[StripPrefix(names[i])] == names[i]
    {
      RegisteredFirst(map[], entries, i);
    }
  }

  /** Every section of a file is among the sections of all files. */
  lemma {:induction false} AllSectsHas(files: seq<ObjectFile>, f: nat, s: string)
    requires f < |files| && s in files[f].sects
    ensures s in AllSects(files)
    decreases |files|
  {
    if f < |files| - 1 {
      AllSectsHas(files[..|files| - 1], f, s);
    }
  }

  lemma {:induction false} KeyedAt(files: seq<ObjectFile>, f: nat)
    requires f < |files|
    ensures Keyed(files)[f] == files[f].(sects := Keys(files[f].sects))
    decreases |files|
  {
    if f < |files| - 1 {
      KeyedAt(files[..|files| - 1], f);
    }
  }

  /** Every section of every rewritten file is a key of the registered map. */
  lemma KeyedRegistered(files: seq<ObjectFile>)
    ensures forall f, k :: 0 <= f < |files| && k in Keyed(files)[f].sects ==> k in Registered(map[], Filed(AllSects(files)))
  {
    var all := AllSects(files);
    RegisteredNames(all);
    forall f, k | 0 <= f < |files| && k in Keyed(files)[f].sects
      ensures k in Registered(map[], Filed(all))
    {
      KeyedAt(files, f);
      var sects := files[f].sects;
      var i :| 0 <= i < |sects| && Keys(sects)[i] == k;
      KeysAt(sects, i);
      AllSectsHas(files, f, sects[i]);
      var j :| 0 <= j < |all| && all[j] == sects[i];
    }
  }

  /**
   * From `succ0`/`col0` to `succ`/`col` nodes were only added, each with
   * colour 0 and no edges.
   */
  ghost predicate Added(succ0: map<string, seq<string>>, col0: map<string, Colour>,
                        succ: map<string, seq<string>>, col: map<string, Colour>)
  {
    && (forall k :: k in col0 && k in succ0 ==> k in col && col[k] == col0[k] && k in succ && succ[k] == succ0[k])
    && (forall k :: k in col && k !in col0 ==> col[k] == {} && k in succ && succ[k] == [])
  }

  /** Adding a node with colour 0 and no edges keeps the graph a graph and only adds. */
  lemma AddedNode(succ0: map<string, seq<string>>, col0: map<string, Colour>,
                  succ: map<string, seq<string>>, col: map<string, Colour>, key: string)
    requires Graph(succ, col) && Added(succ0, col0, succ, col) && key !in col
    ensures Graph(succ[key := []], col[key := {}]) && Added(succ0, col0, succ[key := []], col[key := {}])
  {
  }

  lemma AddedTrans(succ0: map<string, seq<string>>, col0: map<string, Colour>,
                   succ1: map<string, seq<string>>, col1: map<string, Colour>,
                   succ: map<string, seq<string>>, col: map<string, Colour>)
    requires Added(succ0, col0, succ1, col1) && Added(succ1, col1, succ, col) && succ1.Keys == col1.Keys
    ensures Added(succ0, col0, succ, col)
  {
  }

  // ---------------------------------------------------------- relocation listing

  /** The caption of a relocation table starts with this keyword. */
  const Relocation := "RELOCATION"

  /**
   * The key a relocation table caption names.  The first 11 characters (the
   * keyword and the character after it) are skipped, then everything up to
   * and including the first '['; the rest, with its prefix removed, is cut at
   * the first ']'.  None when nothing follows the '[' or nothing precedes
   * the ']' (the two "invalid format" errors).
   */
  function RelocSection(caption: string): Option<string>
  {
    var rest := if |caption| >= |Relocation| + 1 then caption[|Relocation| + 1..] else [];
    var open := RunLength(rest, {'['});
    var name := if open < |rest| then rest[open + 1..] else [];
    if name == [] then None else NthToken(StripPrefix(name), {']'}, 0)
  }

  /** The caption objdump writes above the relocation table of a section. */
  const TableCaption := "RELOCATION RECORDS FOR ["

  /** A caption whose bracketed part is filed under `n` names the key `n`. */
  lemma RelocSectionOfKey(u: string, n: string)
    requires StripPrefix(u + "]") == n + "]"
    requires n != [] && ']' !in n
    ensures RelocSection(TableCaption + u + "]") == Some(n)
  {
    var caption := TableCaption + u + "]";
    var rest := caption[|Relocation| + 1..];
    assert rest == "RECORDS FOR [" + u + "]";
    RunLengthOf(rest, 12, {'['});
    assert rest[13..] == u + "]";
    RunLengthOf(n + "]", |n|, {']'});
    assert (n + "]")[..|n|] == n && (n + "]")[|n|..] == "]";
    assert Tokens("]", {']'}) == [];
  }

  /** The caption of a prefixed section's table names the section's key. */
  lemma RelocSectionOfPrefixed(k: nat, n: string)
    requires k < |Prefixes| && n != [] && ']' !in n
    ensures RelocSection(TableCaption + (Prefixes[k] + n) + "]") == Some(n)
  {
    assert (Prefixes[k] + n) + "]" == Prefixes[k] + (n + "]");
    StripPrefixOf(k, n + "]");
    RelocSectionOfKey(Prefixes[k] + n, n);
  }

  /** The caption of an unprefixed section's table names the section itself. */
  lemma RelocSectionOfPlain(n: string)
    requires n != [] && ']' !in n
    requires forall k :: 0 <= k < |Prefixes| ==> !StartsWith(n, Prefixes[k])
    ensures RelocSection(TableCaption + n + "]") == Some(n)
  {
    var u := n + "]";
    forall k | 0 <= k < |Prefixes|
      ensures !StartsWith(u, Prefixes[k])
    {
      var p := Prefixes[k];
      assert p[|p| - 1] == '$';
      if |p| <= |n| {
        assert u[..|p|] == n[..|p|];
      } else if |p| == |u| {
        assert u[|p| - 1] == ']';
      }
    }
    StripPrefixSpec(u);
    RelocSectionOfKey(n, n);
  }

  /**
   * The key the VALUE field (third space-separated field) of a relocation
   * entry refers to, once normalised; None when the entry has no such field
   * or the FASTCALL name is empty.
   */
  function Reference(line: string): Option<string>
  {
    match NthToken(Trim(line), {' '}, 2)
    case Some(v) => NormaliseSymbol(v)
    case None => None
  }

  /** Whether a non-blank line is a relocation table caption and, if so, the key it names. */
  function Header(line: string): Option<Option<string>>
  {
    if Trim(line) == [] then None
    else
      match Caption(line)
      case Some(c) => if StartsWith(c, Relocation) then Some(RelocSection(c)) else None
      case None => None
  }

  /** What the relocation parser reads off one line. */
  datatype RelocLine = RelocLine(blank: bool, header: Option<Option<string>>, target: Option<string>)

  function ReadReloc(line: string): (v: RelocLine)
    ensures v.blank <==> Trim(line) == []
    ensures v.header == Header(line) && v.target == Reference(line)
  {
    RelocLine(Trim(line) == [], Header(line), Reference(line))
  }

  function RelocViews(lines: seq<string>): (r: seq<RelocLine>)
    ensures |r| == |lines|
    ensures forall k :: 0 <= k < |lines| ==> r[k] == ReadReloc(lines[k])
  {
    seq(|lines|, k requires 0 <= k < |lines| => ReadReloc(lines[k]))
  }

  /**
   * A dependency found in a relocation table: an edge between two known
   * sections, or a known section referenced from a table whose own section
   * is unknown.
   */
  datatype Link = Edge(from: string, to: string) | Unknown(to: string)

  function LinkOf(src: Option<string>, d: string): Link
  {
    if src.Some? then Edge(src.value, d) else Unknown(d)
  }

  /** The links of one table and the line after it. */
  datatype Table = Table(links: seq<Link>, next: nat)

  /**
   * The links of the table that starts at line `j` for the section `src`:
   * one per entry whose reference is a known key, up to the first blank line
   * (which is consumed) or the end of the listing.
   */
  function TableLinks(keys: set<string>, views: seq<RelocLine>, j: nat, src: Option<string>): (r: Table)
    requires j <= |views|
    ensures j <= r.next <= |views| && (j < |views| ==> j < r.next)
    decreases |views| - j
  {
    if j == |views| then Table([], j)
    else if views[j].blank then Table([], j + 1)
    else
      var rest := TableLinks(keys, views, j + 1, src);
      var target := views[j].target;
      if target.Some? && target.value in keys then Table([LinkOf(src, target.value)] + rest.links, rest.next)
      else rest
  }

  /** The links of a listing and whether it was well formed. */
  datatype Parsed = Parsed(links: seq<Link>, ok: bool)

  /** Where the table under the caption at line `i` starts: the line after its column header. */
  function TableFrom(views: seq<RelocLine>, i: nat): nat
  {
    if i + 2 <= |views| then i + 2 else |views|
  }

  /**
   * The links of the relocation listing from line `i` on.  A caption of a
   * known section, or of an unknown one that is not weak, is followed by a
   * column header and the table; the caption of an unknown weak section is
   * passed over; a malformed caption ends the listing with an error.
   */
  function Relocations(keys: set<string>, views: seq<RelocLine>, i: nat): Parsed
    requires i <= |views|
    decreases |views| - i
  {
    if i == |views| then Parsed([], true)
    else
      match views[i].header
      case None => Relocations(keys, views, i + 1)
      case Some(section) =>
        if section.None? then Parsed([], false)
        else if section.value !in keys && section.value in Weak then Relocations(keys, views, i + 1)
        else
          var table := TableLinks(keys, views, TableFrom(views, i), if section.value in keys then section else None);
          var rest := Relocations(keys, views, table.next);
          Parsed(table.links + rest.links, rest.ok)
  }

  /** A table parsed under a caption is followed by the rest of the listing. */
  lemma RelocationsTable(keys: set<string>, views: seq<RelocLine>, i: nat,
                         succ: map<string, seq<string>>, unk: seq<string>)
    requires i < |views| && views[i].header.Some? && views[i].header.value.Some?
    requires var key := views[i].header.value.value; key in keys || key !in Weak
    ensures var key := views[i].header.value.value;
      var table := TableLinks(keys, views, TableFrom(views, i), if key in keys then Some(key) else None);
      var parsed := Relocations(keys, views, i);
      var rest := Relocations(keys, views, table.next);
      && parsed.ok == rest.ok
      && Apply(succ, parsed.links) == Apply(Apply(succ, table.links), rest.links)
      && unk + Unknowns(parsed.links) == (unk + Unknowns(table.links)) + Unknowns(rest.links)
  {
    var key := views[i].header.value.value;
    var table := TableLinks(keys, views, TableFrom(views, i), if key in keys then Some(key) else None);
    var rest := Relocations(keys, views, table.next).links;
    ApplyAppend(succ, table.links, rest);
    UnknownsAppend(table.links, rest);
  }

  /** One graphConnect: `to` appended to the edge list of `from` unless present. */
  function Step(succ: map<string, seq<string>>, link: Link): map<string, seq<string>>
  {
    if link.Edge? && link.from in succ then succ[link.from := Connected(succ[link.from], link.to)] else succ
  }

  /** The edge lists once every edge link was connected, in order. */
  function Apply(succ: map<string, seq<string>>, links: seq<Link>): map<string, seq<string>>
    decreases |links|
  {
    if links == [] then succ else Apply(Step(succ, links[0]), links[1..])
  }

  /** The targets of the unknown-section links, in order: what is appended to unknownSection. */
  function Unknowns(links: seq<Link>): seq<string>
  {
    if links == [] then []
    else (if links[0].Unknown? then [links[0].to] else []) + Unknowns(links[1..])
  }

  /** The targets of the edge links leaving `a`, in order. */
  function Targets(links: seq<Link>, a: string): seq<string>
  {
    if links == [] then []
    else (if links[0].Edge? && links[0].from == a then [links[0].to] else []) + Targets(links[1..], a)
  }

  lemma {:induction false} ApplyAppend(succ: map<string, seq<string>>, a: seq<Link>, b: seq<Link>)
    ensures Apply(succ, a + b) == Apply(Apply(succ, a), b)
    decreases |a|
  {
    if a == [] {
      assert a + b == b;
    } else {
      assert (a + b)[1..] == a[1..] + b;
      ApplyAppend(Step(succ, a[0]), a[1..], b);
    }
  }

  lemma {:induction false} UnknownsAppend(a: seq<Link>, b: seq<Link>)
    ensures Unknowns(a + b) == Unknowns(a) + Unknowns(b)
    decreases |a|
  {
    if a == [] {
      assert a + b == b;
    } else {
      assert (a + b)[1..] == a[1..] + b;
      UnknownsAppend(a[1..], b);
    }
  }

  /**
   * Connecting the links leaves every node with its old edges followed by
   * the targets of its own edge links, each connected once: the edge list
   * successive graphConnect calls build.
   */
  lemma {:induction false} ApplyEdges(succ: map<string, seq<string>>, links: seq<Link>, a: string)
    requires a in succ
    ensures a in Apply(succ, links) && Apply(succ, links)[a] == ConnectAll(succ[a], Targets(links, a))
    decreases |links|
  {
    if links != [] {
      var l := links[0];
      ApplyEdges(Step(succ, l), links[1..], a);
      if l.Edge? && l.from == a {
        assert Targets(links, a) == [l.to] + Targets(links[1..], a);
        assert ([l.to] + Targets(links[1..], a))[1..] == Targets(links[1..], a);
      } else {
        assert Targets(links, a) == Targets(links[1..], a);
      }
    }
  }

  /** Connecting the links adds no node. */
  lemma {:induction false} ApplyKeys(succ: map<string, seq<string>>, links: seq<Link>)
    ensures Apply(succ, links).Keys == succ.Keys
    decreases |links|
  {
    if links != [] {
      ApplyKeys(Step(succ, links[0]), links[1..]);
    }
  }

  /** Every link of a parse leads to a known key, and every edge leaves one. */
  ghost predicate Known(keys: set<string>, links: seq<Link>)
  {
    forall l :: l in links ==> l.to in keys && (l.Edge? ==> l.from in keys)
  }

  /** Connecting links between known nodes keeps every edge leading to a node. */
  lemma {:induction false} ApplyGraph(succ: map<string, seq<string>>, col: map<string, Colour>, links: seq<Link>)
    requires Graph(succ, col) && Known(col.Keys, links)
    ensures Graph(Apply(succ, links), col)
    decreases |links|
  {
    if links != [] {
      var l := links[0];
      assert l in links;
      assert Known(col.Keys, links[1..]) by {
        forall x | x in links[1..]
          ensures x in links
        {
        }
      }
      ApplyGraph(Step(succ, l), col, links[1..]);
    }
  }

  /** The links of a table lead to known keys, and leave the table's section. */
  lemma {:induction false} TableKnown(keys: set<string>, views: seq<RelocLine>, j: nat, src: Option<string>)
    requires j <= |views| && (src.Some? ==> src.value in keys)
    ensures Known(keys, TableLinks(keys, views, j, src).links)
    ensures forall l :: l in TableLinks(keys, views, j, src).links ==> l == LinkOf(src, l.to)
    decreases |views| - j
  {
    if j < |views| && !views[j].blank {
      TableKnown(keys, views, j + 1, src);
    }
  }

  /** Every link of a listing leads to a known key, and every edge leaves one. */
  lemma {:induction false} RelocationsKnown(keys: set<string>, views: seq<RelocLine>, i: nat)
    requires i <= |views|
    ensures Known(keys, Relocations(keys, views, i).links)
    decreases |views| - i
  {
    if i < |views| && views[i].header.Some? && views[i].header.value.Some? {
      var section := views[i].header.value;
      if section.value !in keys && section.value in Weak {
        RelocationsKnown(keys, views, i + 1);
      } else {
        var src := if section.value in keys then section else None;
        var table := TableLinks(keys, views, TableFrom(views, i), src);
        TableKnown(keys, views, TableFrom(views, i), src);
        RelocationsKnown(keys, views, table.next);
        var rest := Relocations(keys, views, table.next);
        assert forall l :: l in table.links + rest.links ==> l in table.links || l in rest.links;
      }
    } else if i < |views| && views[i].header.None? {
      RelocationsKnown(keys, views, i + 1);
    }
  }

  /** The unknown targets of known links are known. */
  lemma {:induction false} UnknownsKnown(keys: set<string>, links: seq<Link>)
    requires Known(keys, links)
    ensures forall x :: x in Unknowns(links) ==> x in keys
    decreases |links|
  {
    if links != [] {
      assert links[0] in links;
      assert Known(keys, links[1..]) by {
        forall l | l in links[1..]
          ensures l in links
        {
        }
      }
      UnknownsKnown(keys, links[1..]);
    }
  }

  /**
   * The read loop of parseRelocSection from line `j` on, with edge lists
   * `edges` and unknown list `unk`: the edge lists, the unknown list and the
   * line after the table when it stops.
   */
  ghost function TableScan(keys: set<string>, views: seq<RelocLine>, j: nat, src: Option<string>,
                           edges: map<string, seq<string>>, unk: seq<string>): (map<string, seq<string>>, seq<string>, nat)
    requires j <= |views|
    decreases |views| - j
  {
    if j == |views| then (edges, unk, j)
    else if views[j].blank then (edges, unk, j + 1)
    else
      var t := views[j].target;
      if t.Some? && t.value in keys then
        if src.Some? then
          var edges' := if src.value in edges then edges[src.value := Connected(edges[src.value], t.value)] else edges;
          TableScan(keys, views, j + 1, src, edges', unk)
        else TableScan(keys, views, j + 1, src, edges, unk + [t.value])
      else TableScan(keys, views, j + 1, src, edges, unk)
  }

  /** The read loop connects the table's links and appends its unknown targets. */
  lemma {:induction false} TableScanLinks(keys: set<string>, views: seq<RelocLine>, j: nat, src: Option<string>,
                                          edges: map<string, seq<string>>, unk: seq<string>)
    requires j <= |views|
    ensures var table := TableLinks(keys, views, j, src);
      TableScan(keys, views, j, src, edges, unk) == (Apply(edges, table.links), unk + Unknowns(table.links), table.next)
    decreases |views| - j
  {
    if j < |views| && !views[j].blank {
      var t := views[j].target;
      var rest := TableLinks(keys, views, j + 1, src).links;
      if t.Some? && t.value in keys {
        var l := LinkOf(src, t.value);
        assert ([l] + rest)[0] == l && ([l] + rest)[1..] == rest;
        if src.Some? {
          TableScanLinks(keys, views, j + 1, src, Step(edges, l), unk);
          assert Apply(edges, [l] + rest) == Apply(Step(edges, l), rest);
          assert Unknowns([l] + rest) == Unknowns(rest);
        } else {
          TableScanLinks(keys, views, j + 1, src, edges, unk + [t.value]);
          assert Unknowns([l] + rest) == [t.value] + Unknowns(rest);
          assert unk + ([t.value] + Unknowns(rest)) == (unk + [t.value]) + Unknowns(rest);
        }
      } else {
        TableScanLinks(keys, views, j + 1, src, edges, unk);
      }
    } else {
      assert unk + [] == unk;
    }
  }

  // ---------------------------------------------------------- colouring

  /** Some node of `seeds` reaches `n`. */
  ghost predicate ReachedFrom(succ: map<string, seq<string>>, seeds: seq<string>, n: string)
  {
    exists u :: u in seeds && Reaches(succ, u, n)
  }

  /**
   * After colouring from each of `seeds` with `Dead`, starting from all
   * colours 0: exactly the nodes reachable from some seed carry `Dead`, the
   * others still have colour 0, and no edge leaves the dead nodes.
   */
  ghost predicate DeadFrom(succ: map<string, seq<string>>, col: map<string, Colour>, seeds: seq<string>)
  {
    && SuccClosed(succ, FullOf(col, Dead))
    && forall n :: n in col ==> col[n] == if ReachedFrom(succ, seeds, n) then Dead else {}
  }

  /** With every colour 0 nothing is dead yet. */
  lemma DeadFromNone(succ: map<string, seq<string>>, col: map<string, Colour>)
    requires forall n :: n in col ==> col[n] == {}
    ensures DeadFrom(succ, col, [])
  {
    forall n | n in col
      ensures !(Dead <= col[n])
    {
      assert 31 in Dead;
    }
    assert FullOf(col, Dead) == {};
  }

  /** One more seed reaches what the earlier ones reach and what it reaches itself. */
  lemma ReachedFromNext(succ: map<string, seq<string>>, seeds: seq<string>, k: nat, n: string)
    requires k < |seeds|
    ensures ReachedFrom(succ, seeds[..k + 1], n) <==> ReachedFrom(succ, seeds[..k], n) || Reaches(succ, seeds[k], n)
  {
    assert seeds[..k + 1] == seeds[..k] + [seeds[k]];
    if ReachedFrom(succ, seeds[..k + 1], n) {
      var u :| u in seeds[..k + 1] && Reaches(succ, u, n);
      if u != seeds[k] {
        assert u in seeds[..k];
      }
    }
    if ReachedFrom(succ, seeds[..k], n) {
      var u :| u in seeds[..k] && Reaches(succ, u, n);
      assert u in seeds[..k + 1];
    }
    if Reaches(succ, seeds[k], n) {
      assert seeds[k] in seeds[..k + 1];
    }
  }

  /** Colouring from the next unknown section marks what it reaches and nothing else. */
  lemma DeadStep(succ: map<string, seq<string>>, col: map<string, Colour>, after: map<string, Colour>,
                 paths: map<string, seq<string>>, seeds: seq<string>, k: nat)
    requires k < |seeds| && DeadFrom(succ, col, seeds[..k]) && Marked(succ, col, after, paths, seeds[k], Dead)
    ensures DeadFrom(succ, after, seeds[..k + 1])
  {
    MarkedExactly(succ, col, after, paths, seeds[k], Dead);
    forall n | n in after
      ensures after[n] == if ReachedFrom(succ, seeds[..k + 1], n) then Dead else {}
    {
      ReachedFromNext(succ, seeds, k, n);
      assert n in FullOf(after, Dead) <==> n in FullOf(col, Dead) || Reaches(succ, seeds[k], n);
      assert Grows(col[n], after[n], Dead);
    }
  }

  // ---------------------------------------------------------- results

  /** The node names of the sections `sects`, in order. */
  function NamesOf(names: map<string, string>, sects: seq<string>): (r: seq<string>)
    requires forall k :: k in sects ==> k in names
    ensures |r| == |sects|
  {
    if sects == [] then [] else NamesOf(names, sects[..|sects| - 1]) + [names[sects[|sects| - 1]]]
  }

  /**
   * The node names of those sections of `sects` whose colour is nonzero
   * (`used`) or zero (not `used`), in order.
   */
  function Select(names: map<string, string>, col: map<string, Colour>, sects: seq<string>, used: bool): (r: seq<string>)
    requires forall k :: k in sects ==> k in names && k in col
    ensures |r| <= |sects|
  {
    if sects == [] then []
    else
      var last := sects[|sects| - 1];
      Select(names, col, sects[..|sects| - 1], used) + if (col[last] != {}) == used then [names[last]] else []
  }

  /** Adding one name to either side of a split adds it to the whole. */
  lemma SplitGrows(t: seq<string>, f: seq<string>, all: seq<string>, n: string)
    requires multiset(t) + multiset(f) == multiset(all)
    ensures multiset(t + [n]) + multiset(f) == multiset(all + [n])
    ensures multiset(t) + multiset(f + [n]) == multiset(all + [n])
  {
  }

  /** The selections and the names of all sections, one section shorter. */
  lemma SelectLast(names: map<string, string>, col: map<string, Colour>, sects: seq<string>)
    requires sects != [] && forall k :: k in sects ==> k in names && k in col
    ensures var init := sects[..|sects| - 1];
      var last := sects[|sects| - 1];
      && (forall k :: k in init ==> k in names && k in col)
      && NamesOf(names, sects) == NamesOf(names, init) + [names[last]]
      && Select(names, col, sects, true) == Select(names, col, init, true) + (if col[last] != {} then [names[last]] else [])
      && Select(names, col, sects, false) == Select(names, col, init, false) + (if col[last] == {} then [names[last]] else [])
  {
    var init := sects[..|sects| - 1];
    assert forall k :: k in init ==> k in sects;
  }

  /** Every section's name lands in exactly one of the two selections. */
  lemma {:induction false} SelectPartition(names: map<string, string>, col: map<string, Colour>, sects: seq<string>)
    requires forall k :: k in sects ==> k in names && k in col
    ensures multiset(Select(names, col, sects, true)) + multiset(Select(names, col, sects, false)) == multiset(NamesOf(names, sects))
    ensures |Select(names, col, sects, true)| + |Select(names, col, sects, false)| == |sects|
  {
    if sects != [] {
      var init := sects[..|sects| - 1];
      var last := sects[|sects| - 1];
      SelectLast(names, col, sects);
      SelectPartition(names, col, init);
      SplitGrows(Select(names, col, init, true), Select(names, col, init, false), NamesOf(names, init), names[last]);
    }
  }

  /** A name is selected exactly when some section with that name has the selected kind of colour. */
  lemma {:induction false} SelectMembers(names: map<string, string>, col: map<string, Colour>, sects: seq<string>, used: bool, x: string)
    requires forall k :: k in sects ==> k in names && k in col
    ensures x in Select(names, col, sects, used) <==>
      exists j :: 0 <= j < |sects| && (col[sects[j]] != {}) == used && names[sects[j]] == x
  {
    if sects != [] {
      var init := sects[..|sects| - 1];
      var last := sects[|sects| - 1];
      assert forall k :: k in init ==> k in sects;
      SelectMembers(names, col, init, used, x);
      if exists j :: 0 <= j < |sects| && (col[sects[j]] != {}) == used && names[sects[j]] == x {
        var j :| 0 <= j < |sects| && (col[sects[j]] != {}) == used && names[sects[j]] == x;
        if j < |init| {
          assert init[j] == sects[j];
        }
      }
      if exists j :: 0 <= j < |init| && (col[init[j]] != {}) == used && names[init[j]] == x {
        var j :| 0 <= j < |init| && (col[init[j]] != {}) == used && names[init[j]] == x;
        assert sects[j] == init[j];
      }
    }
  }

  /**
   * The analysis state objectFile.c keeps in its two globals: for each key,
   * the node's name, its edge list and its colour, plus the list of nodes
   * referenced from sections that are not in the map.
   */
  class Analysis {
    var nodeName: map<string, string>
    var succ: map<string, seq<string>>
    var col: map<string, Colour>
    var unknown: seq<string>

    /**
     * One node per key; edges and unknown references lead to nodes.
     */
    ghost predicate Valid()
      reads this
    {
      && Graph(succ, col)
      && nodeName.Keys == col.Keys
      && (forall u :: u in unknown ==> u in col)
    }

    /** An empty map and an empty unknown list. */
    constructor ()
      ensures Valid()
      ensures nodeName == map[] && succ == map[] && col == map[] && unknown == []
    {
      nodeName, succ, col, unknown := map[], map[], map[], [];
    }

    /** Registering the files up to `f` and then file `f` is registering the files up to `f + 1`. */
    static lemma RegisterNext(m: map<string, string>, files: seq<ObjectFile>, f: nat)
      requires f < |files|
      ensures Registered(m, Filed(AllSects(files[..f + 1]))) == Registered(Registered(m, Filed(AllSects(files[..f]))), Filed(files[f].sects))
      ensures Keyed(files[..f + 1]) == Keyed(files[..f]) + [files[f].(sects := Keys(files[f].sects))]
    {
      assert files[..f + 1][..f] == files[..f];
      FiledAppend(AllSects(files[..f]), files[f].sects);
      RegisteredAppend(m, Filed(AllSects(files[..f])), Filed(files[f].sects));
    }

    /**
     * The registration loop of objectFileCompute: every section of every file
     * gets a node under its key unless the key has one already; a new node
     * has colour 0 and no edges.  The files come back with their sections
     * rewritten to keys.
     */
    method Register(files: seq<ObjectFile>) returns (keyed: seq<ObjectFile>)
      requires Valid()
      modifies this`nodeName, this`succ, this`col
      ensures Valid() && Added(old(succ), old(col), succ, col)
      ensures nodeName == Registered(old(nodeName), Filed(AllSects(files)))
      ensures keyed == Keyed(files)
    {
      ghost var names0, succ0, col0 := nodeName, succ, col;
      keyed := [];
      var f := 0;
      while f < |files|
        invariant f <= |files|
        invariant Valid() && Added(succ0, col0, succ, col)
        invariant nodeName == Registered(names0, Filed(AllSects(files[..f])))
        invariant keyed == Keyed(files[..f])
      {
        RegisterNext(names0, files, f);
        ghost var succ1, col1 := succ, col;
        var file := RegisterFile(files[f]);
        AddedTrans(succ0, col0, succ1, col1, succ, col);
        keyed := keyed + [file];
        f := f + 1;
      }
      assert files[..f] == files;
    }

    /** One file of the registration: its sections unless its section list is empty. */
    method RegisterFile(file: ObjectFile) returns (keyed: ObjectFile)
      requires Valid()
      modifies this`nodeName, this`succ, this`col
      ensures Valid() && Added(old(succ), old(col), succ, col)
      ensures nodeName == Registered(old(nodeName), Filed(file.sects))
      ensures keyed == file.(sects := Keys(file.sects))
    {
      keyed := file;
      if |file.sects| > 0 {
        var rewritten := RegisterSects(file.sects);
        keyed := file.(sects := rewritten);
      }
    }

    /** The inner loop of the registration: the sections of one file. */
    method RegisterSects(sects: seq<string>) returns (rewritten: seq<string>)
      requires Valid()
      modifies this`nodeName, this`succ, this`col
      ensures Valid() && Added(old(succ), old(col), succ, col)
      ensures nodeName == Registered(old(nodeName), Filed(sects))
      ensures rewritten == Keys(sects)
    {
      var names, edges, colours := nodeName, succ, col;
      ghost var names0, edges0, colours0 := names, edges, colours;
      rewritten := [];
      var j := 0;
      while j < |sects|
        invariant j <= |sects|
        invariant Graph(edges, colours) && names.Keys == colours.Keys && Added(edges0, colours0, edges, colours)
        invariant names == Registered(names0, Filed(sects[..j]))
        invariant rewritten == Keys(sects[..j])
      {
        var token := sects[j];
        var key := StripPrefix(token);
        rewritten := rewritten + [key];
        RegisteredNext(names0, sects, j);
        assert sects[..j + 1][..j] == sects[..j];
        if key !in names {
          AddedNode(edges0, colours0, edges, colours, key);
          names := names[key := token];
          edges := edges[key := []];
          colours := colours[key := {}];
        }
        j := j + 1;
      }
      assert sects[..j] == sects;
      nodeName, succ, col := names, edges, colours;
    }

    /**
     * parseRelocSection: reads the entries of one relocation table from line
     * `start` of the listing `views` up to a blank line (consumed) or the end
     * of the listing.  Each entry whose reference is a known key is connected
     * from `src` or, when the table's section is unknown, appended to the
     * unknown list.
     */
    method ParseRelocSection(src: Option<string>, views: seq<RelocLine>, start: nat) returns (next: nat)
      requires Valid() && start <= |views| && (src.Some? ==> src.value in col)
      modifies this`succ, this`unknown
      ensures Valid()
      ensures var table := TableLinks(col.Keys, views, start, src);
        && next == table.next
        && succ == Apply(old(succ), table.links)
        && unknown == old(unknown) + Unknowns(table.links)
    {
      ghost var keys := col.Keys;
      var edges, unk := succ, unknown;
      next := start;
      // the loop stops on a blank line, which is then consumed
      while next < |views| && !views[next].blank
        invariant start <= next <= |views| && edges.Keys == old(succ).Keys
        invariant TableScan(keys, views, next, src, edges, unk) == TableScan(keys, views, start, src, old(succ), old(unknown))
        decreases |views| - next
      {
        var dest := views[next].target;
        next := next + 1;
        if dest.Some? && dest.value in col {
          if src.Some? {
            edges := edges[src.value := Connected(edges[src.value], dest.value)];
          } else {
            unk := unk + [dest.value];
          }
        }
      }
      if next < |views| {
        next := next + 1;
      }
      succ, unknown := edges, unk;
      ghost var links := TableLinks(keys, views, start, src).links;
      TableScanLinks(keys, views, start, src, old(succ), old(unknown));
      TableKnown(keys, views, start, src);
      ApplyGraph(old(succ), col, links);
      UnknownsKnown(keys, links);
      forall u | u in unknown
        ensures u in col
      {
        if u !in old(unknown) {
          assert u in Unknowns(links);
        }
      }
    }

    /**
     * The parse loop of objectFileCompute over the relocation listing
     * `views`: each table caption of a known section, or of an unknown one
     * that is not weak, has its table parsed from two lines below it; a
     * malformed caption stops the parse with `ok` false.
     */
    method ParseRelocations(views: seq<RelocLine>) returns (ok: bool)
      requires Valid()
      modifies this`succ, this`unknown
      ensures Valid()
      ensures var parsed := Relocations(col.Keys, views, 0);
        && ok == parsed.ok
        && succ == Apply(old(succ), parsed.links)
        && unknown == old(unknown) + Unknowns(parsed.links)
    {
      ghost var keys := col.Keys;
      var i := 0;
      while i < |views|
        invariant i <= |views| && Valid() && col.Keys == keys
        invariant Relocations(keys, views, i).ok == Relocations(keys, views, 0).ok
        invariant Apply(succ, Relocations(keys, views, i).links) == Apply(old(succ), Relocations(keys, views, 0).links)
        invariant unknown + Unknowns(Relocations(keys, views, i).links) == old(unknown) + Unknowns(Relocations(keys, views, 0).links)
        decreases |views| - i
      {
        var header := views[i].header;
        if header.Some? {
          var section := header.value;
          if section.None? {
            assert unknown + Unknowns([]) == unknown;
            return false;
          }
          var key := section.value;
          if key !in col && key in Weak {
            i := i + 1;
          } else {
            var src := if key in col then section else None;
            RelocationsTable(keys, views, i, succ, unknown);
            i := ParseRelocSection(src, views, TableFrom(views, i));
          }
        } else {
          i := i + 1;
        }
      }
      assert unknown + Unknowns([]) == unknown;
      ok := true;
    }

    /**
     * objectFileColorize: when `seed` is a key, colours from its node; other
     * names are ignored.  Every node whose colour changed is reachable from
     * the seed; if no edge left the nodes carrying `color` before, exactly
     * the nodes reachable from the seed are added to them.
     */
    method Colorize(seed: string, color: Colour)
      requires Valid()
      modifies this`col
      ensures Valid() && Grown(old(col), col, color)
      ensures seed !in col ==> col == old(col)
      ensures seed in col ==> color <= col[seed]
      ensures forall n :: n in col && col[n] != old(col)[n] ==> Reaches(succ, seed, n)
      ensures seed in col && SuccClosed(succ, FullOf(old(col), color)) ==>
        && SuccClosed(succ, FullOf(col, color))
        && forall n :: n in FullOf(col, color) <==> n in FullOf(old(col), color) || Reaches(succ, seed, n)
    {
      if seed in col {
        ghost var paths;
        col, paths := ColorizeGraph(succ, col, seed, color);
        forall n | n in col && col[n] != old(col)[n]
          ensures Reaches(succ, seed, n)
        {
          assert PathFrom(succ, paths[n], seed, n);
        }
        if SuccClosed(succ, FullOf(old(col), color)) {
          MarkedExactly(succ, old(col), col, paths, seed, color);
        }
      } else {
        forall n | n in col
          ensures Grows(col[n], col[n], color)
        {
        }
      }
    }

    /**
     * The last loop of objectFileCompute: colours from each unknown section
     * with bit 31, starting from all colours 0.  Afterwards exactly the nodes
     * reachable from an unknown section are dead.
     */
    method ColourUnknown()
      requires Valid() && forall n :: n in col ==> col[n] == {}
      modifies this`col
      ensures Valid() && col.Keys == old(col).Keys
      ensures forall n :: n in col ==> col[n] == if ReachedFrom(succ, unknown, n) then Dead else {}
    {
      var edges, seeds, colours := succ, unknown, col;
      DeadFromNone(edges, colours);
      var k := 0;
      while k < |seeds|
        invariant k <= |seeds| && Graph(edges, colours) && colours.Keys == col.Keys
        invariant DeadFrom(edges, colours, seeds[..k])
      {
        ghost var paths;
        ghost var before := colours;
        colours, paths := ColorizeGraph(edges, colours, seeds[k], Dead);
        DeadStep(edges, before, colours, paths, seeds, k);
        k := k + 1;
      }
      assert seeds[..k] == seeds;
      col := colours;
    }

    /**
     * objectFileCompute: starts from an empty map and unknown list,
     * registers the sections of `files`, reads the relocation listing
     * `lines` and, unless a caption was malformed, colours what the unknown
     * sections reach with bit 31.  Each node ends with the targets of its
     * section's relocations as edges, each once and in order of appearance.
     */
    method Compute(files: seq<ObjectFile>, lines: seq<string>) returns (keyed: seq<ObjectFile>, ok: bool)
      modifies this
      ensures Valid()
      ensures keyed == Keyed(files)
      ensures nodeName == Registered(map[], Filed(AllSects(files)))
      ensures var parsed := Relocations(col.Keys, RelocViews(lines), 0);
        && ok == parsed.ok
        && unknown == Unknowns(parsed.links)
        && (forall n :: n in succ ==> succ[n] == ConnectAll([], Targets(parsed.links, n)))
      ensures forall n :: n in col ==> col[n] == if ok && ReachedFrom(succ, unknown, n) then Dead else {}
    {
      nodeName, succ, col, unknown := map[], map[], map[], [];
      keyed := Register(files);
      ghost var edges := succ;
      var views := RelocViews(lines);
      ok := ParseRelocations(views);
      forall n | n in edges
        ensures n in succ && succ[n] == ConnectAll([], Targets(Relocations(col.Keys, views, 0).links, n))
      {
        ApplyEdges(edges, Relocations(col.Keys, views, 0).links, n);
      }
      if ok {
        ColourUnknown();
      }
    }

    /** objectFileGetUsed: the node names of the file's sections with a nonzero colour. */
    method GetUsed(file: ObjectFile) returns (res: seq<string>)
      requires Valid() && forall k :: k in file.sects ==> k in col
      ensures res == Select(nodeName, col, file.sects, true)
    {
      res := Selection(file.sects, true);
    }

    /** objectFileGetUnused: the node names of the file's sections with colour 0. */
    method GetUnused(file: ObjectFile) returns (res: seq<string>)
      requires Valid() && forall k :: k in file.sects ==> k in col
      ensures res == Select(nodeName, col, file.sects, false)
    {
      res := Selection(file.sects, false);
    }

    /** The loop GetUsed and GetUnused share: one lookup per section, in order. */
    method Selection(sects: seq<string>, used: bool) returns (res: seq<string>)
      requires Valid() && forall k :: k in sects ==> k in col
      ensures res == Select(nodeName, col, sects, used)
    {
      var names, colours := nodeName, col;
      res := [];
      var j := 0;
      while j < |sects|
        invariant j <= |sects|
        invariant forall k :: k in sects[..j + (if j < |sects| then 1 else 0)] ==> k in names && k in colours
        invariant res == Select(names, colours, sects[..j], used)
      {
        var name := sects[j];
        if (colours[name] != {}) == used {
          res := res + [names[name]];
        }
        assert sects[..j + 1][..j] == sects[..j];
        j := j + 1;
      }
      assert sects[..j] == sects;
    }
  }
}
