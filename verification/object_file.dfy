/**
 * The object-file analysis of objectFile.c: collecting an object's section
 * names from the `objdump -h` listing (objectFileCollect).
 *
 * The listing is the sequence of its lines, each with the trailing "\n" that
 * fgets keeps; strtok is the pure tokenizer of SectionNames.
 */
module ObjectFiles {
  import opened Wrappers
  import opened SectionNames

  /** objectFile: the file's name and its section list. */
  datatype ObjectFile = ObjectFile(name: string, sects: seq<string>)

  /** objectFileCreate: the given name and no sections. */
  function Create(name: string): (f: ObjectFile)
    ensures f.name == name && |f.sects| == 0
  {
    ObjectFile(name, [])
  }

  /** The `progress` values of objectFileCollect. */
  const Searching: nat := 0
  const FoundName: nat := 1
  const FoundSection: nat := 2

  /** The text before the first ':' of a line, leading space trimmed. */
  function Caption(line: string): Option<string>
  {
    NthToken(Trim(line), {':'}, 0)
  }

  /** The second space-separated field of a section table row, if it is a prefixed section name. */
  function Entry(line: string): (r: Option<string>)
    ensures r.Some? ==> HasPrefix(r.value) && r.value != [] && ' ' !in r.value
  {
    match NthToken(Trim(line), {' '}, 1)
    case Some(t) => if HasPrefix(t) then Some(t) else None
    case None => None
  }

  /**
   * What objectFileCollect reads off one line of the listing: whether it is
   * blank once trimmed, its caption, whether that caption is "sections" in
   * any case, and its section-table entry.
   */
  datatype Line = Line(blank: bool, caption: Option<string>, sections: bool, entry: Option<string>)

  function Read(line: string): (v: Line)
    ensures v.blank <==> Trim(line) == []
    ensures v.caption == Caption(line) && v.entry == Entry(line)
    ensures v.sections <==> v.caption.Some? && Upper(v.caption.value) == "SECTIONS"
    ensures v.blank ==> v.caption == None && v.entry == None && !v.sections
  {
    var caption := Caption(line);
    Line(Trim(line) == [], caption, caption.Some? && Upper(caption.value) == "SECTIONS", Entry(line))
  }

  /** Each line of the listing as read. */
  function Views(lines: seq<string>): (r: seq<Line>)
    ensures |r| == |lines|
    ensures forall k :: 0 <= k < |lines| ==> r[k] == Read(lines[k])
  {
    seq(|lines|, k requires 0 <= k < |lines| => Read(lines[k]))
  }

  /** The lines objectFileCollect looks for. */
  datatype Landmark = NameLine(name: string) | SectionsLine | BlankLine

  predicate IsLandmark(m: Landmark, v: Line)
  {
    match m
    case NameLine(name) => v.caption == Some(name)
    case SectionsLine => v.sections
    case BlankLine => v.blank
  }

  /** The first line at or after `i` that is the landmark `m`, or `|views|`. */
  function First(views: seq<Line>, m: Landmark, i: nat): (r: nat)
    requires i <= |views|
    ensures i <= r <= |views|
    ensures forall k :: i <= k < r ==> !IsLandmark(m, views[k])
    ensures r < |views| ==> IsLandmark(m, views[r])
    decreases |views| - i
  {
    if i == |views| || IsLandmark(m, views[i]) then i else First(views, m, i + 1)
  }

  /** The section names that rows `s` up to `e` of the listing contribute, in order. */
  function Entries(views: seq<Line>, s: nat, e: nat): (r: seq<string>)
    requires s <= e <= |views|
    ensures |r| <= e - s
    decreases e - s
  {
    if s == e then []
    else (if views[s].entry.Some? then [views[s].entry.value] else []) + Entries(views, s + 1, e)
  }

  /** Where the section table of a listing starts: two lines after its caption line `b`. */
  function TableStart(views: seq<Line>, b: nat): nat
  {
    if b + 2 <= |views| then b + 2 else |views|
  }

  /**
   * The line after a section table starting at `s`: just past the blank line
   * that ends it, or the end of the listing when no blank line follows.
   */
  function TableEnd(views: seq<Line>, s: nat): (e: nat)
    requires s <= |views|
    ensures s <= e <= |views|
    ensures e == |views| || (0 < e && views[e - 1].blank)
  {
    var b := First(views, BlankLine, s);
    if b == |views| then b else b + 1
  }

  /**
   * What objectFileCollect does for the object `name` when the stream stands
   * at line `i` of the listing read as `views`: the section names it gathers
   * and the line the stream stands at afterwards. The first line from `i` on
   * captioned `name` starts the object's part of the listing; the first line
   * after it captioned "sections" in any case, and the header row after that,
   * open the section table; the table runs up to the next blank line, which
   * is consumed, or the end of the listing. When either caption is missing
   * the whole rest of the listing is consumed and nothing is gathered.
   */
  function CollectedFrom(name: string, views: seq<Line>, i: nat): (r: (seq<string>, nat))
    requires i <= |views|
    ensures i <= r.1 <= |views|
  {
    var a := First(views, NameLine(name), i);
    if a == |views| then ([], |views|)
    else
      var b := First(views, SectionsLine, a + 1);
      if b == |views| then ([], |views|)
      else
        var s := TableStart(views, b);
        (Entries(views, s, First(views, BlankLine, s)), TableEnd(views, s))
  }

  /** What objectFileCollect gathers for the object `name` from line `i` of the listing `lines`, and where it stops. */
  function Collected(name: string, lines: seq<string>, i: nat): (r: (seq<string>, nat))
    requires i <= |lines|
    ensures i <= r.1 <= |lines|
  {
    CollectedFrom(name, Views(lines), i)
  }

  /**
   * The read loop of objectFileCollect from line `i` on, in state `progress`,
   * having gathered `found`: what it has gathered when it returns, and the
   * line the stream then stands at.
   */
  ghost function Scan(name: string, views: seq<Line>, i: nat, progress: nat, found: seq<string>): (seq<string>, nat)
    requires i <= |views|
    decreases |views| - i
  {
    if i == |views| then (found, i)
    else if views[i].blank then
      if progress == FoundSection then (found, i + 1) else Scan(name, views, i + 1, progress, found)
    else if progress == Searching then
      Scan(name, views, i + 1, if views[i].caption == Some(name) then FoundName else Searching, found)
    else if progress == FoundName then
      if views[i].sections then Scan(name, views, TableStart(views, i), FoundSection, found)
      else Scan(name, views, i + 1, FoundName, found)
    else
      var entry := views[i].entry;
      Scan(name, views, i + 1, progress, if entry.Some? then found + [entry.value] else found)
  }

  /**
   * In the section table the loop gathers the entries up to the next blank
   * line and returns just past it.
   */
  lemma {:induction false} ScanTable(name: string, views: seq<Line>, i: nat, found: seq<string>)
    requires i <= |views|
    ensures Scan(name, views, i, FoundSection, found) ==
      (found + Entries(views, i, First(views, BlankLine, i)), TableEnd(views, i))
    decreases |views| - i
  {
    if i < |views| && !views[i].blank {
      var entry := views[i].entry;
      var e := First(views, BlankLine, i + 1);
      assert First(views, BlankLine, i) == e;
      if entry.Some? {
        ScanTable(name, views, i + 1, found + [entry.value]);
        assert Entries(views, i, e) == [entry.value] + Entries(views, i + 1, e);
        assert (found + [entry.value]) + Entries(views, i + 1, e) == found + ([entry.value] + Entries(views, i + 1, e));
      } else {
        ScanTable(name, views, i + 1, found);
        assert Entries(views, i, e) == Entries(views, i + 1, e);
      }
    } else {
      assert found + Entries(views, i, i) == found;
    }
  }

  /** After the object's name the loop looks for the "sections" caption. */
  lemma {:induction false} ScanFoundName(name: string, views: seq<Line>, i: nat)
    requires i <= |views|
    requires forall k :: 0 <= k < |views| && views[k].blank ==> !views[k].sections
    ensures var b := First(views, SectionsLine, i);
      Scan(name, views, i, FoundName, []) ==
        if b == |views| then ([], |views|)
        else (Entries(views, TableStart(views, b), First(views, BlankLine, TableStart(views, b))), TableEnd(views, TableStart(views, b)))
    decreases |views| - i
  {
    if i < |views| {
      if !views[i].sections {
        ScanFoundName(name, views, i + 1);
      } else {
        var t := TableStart(views, i);
        ScanTable(name, views, t, []);
        assert [] + Entries(views, t, First(views, BlankLine, t)) == Entries(views, t, First(views, BlankLine, t));
      }
    }
  }

  /** Before the object's name the loop looks for its caption line. */
  lemma {:induction false} ScanSearching(name: string, views: seq<Line>, i: nat)
    requires i <= |views|
    requires forall k :: 0 <= k < |views| && views[k].blank ==> views[k].caption == None
    ensures var a := First(views, NameLine(name), i);
      Scan(name, views, i, Searching, []) == if a == |views| then ([], |views|) else Scan(name, views, a + 1, FoundName, [])
    decreases |views| - i
  {
    if i < |views| && views[i].caption != Some(name) {
      ScanSearching(name, views, i + 1);
    }
  }

  /** The read loop, started at any line of the listing, gathers and stops exactly as `CollectedFrom` describes. */
  lemma ScanCollectsFrom(name: string, views: seq<Line>, i: nat)
    requires i <= |views|
    requires forall k :: 0 <= k < |views| && views[k].blank ==> views[k].caption == None && !views[k].sections
    ensures Scan(name, views, i, Searching, []) == CollectedFrom(name, views, i)
  {
    ScanSearching(name, views, i);
    var a := First(views, NameLine(name), i);
    if a < |views| {
      ScanFoundName(name, views, a + 1);
    }
  }

  lemma ScanCollects(name: string, lines: seq<string>, i: nat)
    requires i <= |lines|
    ensures Scan(name, Views(lines), i, Searching, []) == Collected(name, lines, i)
  {
    ScanCollectsFrom(name, Views(lines), i);
  }

  /**
   * One round of the read loop of objectFileCollect: the line at `i` read in
   * state `progress`; `done` when it was the blank line closing the table.
   */
  method ReadLine(name: string, lines: seq<string>, ghost views: seq<Line>, i: nat, progress: nat, found: seq<string>)
    returns (next: nat, progress': nat, found': seq<string>, done: bool)
    requires views == Views(lines) && i < |lines|
    ensures i < next <= |lines|
    ensures done ==> Scan(name, views, i, progress, found) == (found', next)
    ensures !done ==> Scan(name, views, i, progress, found) == Scan(name, views, next, progress', found')
  {
    assert views[i] == Read(lines[i]);
    next, progress', found', done := i + 1, progress, found, false;
    if Trim(lines[i]) != [] {
      if progress == Searching {
        var token := Caption(lines[i]);
        if token == Some(name) {
          progress' := FoundName;
        }
      } else if progress == FoundName {
        var token := Caption(lines[i]);
        if token.Some? && Upper(token.value) == "SECTIONS" {
          // the table's header row is read and dropped
          if next < |lines| {
            next := next + 1;
          }
          progress' := FoundSection;
        }
      } else {
        var entry := Entry(lines[i]);
        if entry.Some? {
          found' := found + [entry.value];
        }
      }
    } else if progress == FoundSection {
      done := true;
    }
  }

  /** The read loop of objectFileCollect, from line `start` on: it runs exactly as `Scan` does. */
  method ReadListing(name: string, lines: seq<string>, start: nat) returns (found: seq<string>, next: nat)
    requires start <= |lines|
    ensures (found, next) == Scan(name, Views(lines), start, Searching, [])
  {
    ghost var views := Views(lines);
    var progress: nat := Searching;
    found := [];
    next := start;
    while next < |lines|
      invariant start <= next <= |lines|
      invariant Scan(name, views, next, progress, found) == Scan(name, views, start, Searching, [])
    {
      var done;
      next, progress, found, done := ReadLine(name, lines, views, next, progress, found);
      if done {
        return;
      }
    }
  }

  /**
   * objectFileCollect: the three-state scan of the listing from the line the
   * stream stands at (`start`), appending each prefixed section name of the
   * object's table to its section list; `next` is where the stream stands
   * when it returns.
   */
  method Collect(file: ObjectFile, lines: seq<string>, start: nat) returns (r: ObjectFile, next: nat)
    requires start <= |lines|
    ensures r == file.(sects := file.sects + Collected(file.name, lines, start).0)
    ensures next == Collected(file.name, lines, start).1
  {
    var found;
    found, next := ReadListing(file.name, lines, start);
    ScanCollects(file.name, lines, start);
    r := file.(sects := file.sects + found);
  }

  /**
   * The collection loop of main: each object in turn is read from the one
   * dump stream, which is not rewound in between, so each read starts where
   * the previous one stopped.
   */
  function CollectedAll(files: seq<ObjectFile>, lines: seq<string>, i: nat): (r: seq<ObjectFile>)
    requires i <= |lines|
    ensures |r| == |files|
    decreases |files|
  {
    if files == [] then []
    else
      var c := Collected(files[0].name, lines, i);
      [files[0].(sects := files[0].sects + c.0)] + CollectedAll(files[1..], lines, c.1)
  }

  /** Each object keeps its name and its earlier sections, and gains only names the listing holds. */
  lemma {:induction false} CollectedAllKeeps(files: seq<ObjectFile>, lines: seq<string>, i: nat, k: nat)
    requires i <= |lines| && k < |files|
    ensures CollectedAll(files, lines, i)[k].name == files[k].name
    ensures files[k].sects <= CollectedAll(files, lines, i)[k].sects
    decreases |files|
  {
    if k > 0 {
      var c := Collected(files[0].name, lines, i);
      CollectedAllKeeps(files[1..], lines, c.1, k - 1);
    }
  }

  /** Once the stream is at the end of the listing, no object gains a section. */
  lemma {:induction false} CollectedAllAtEnd(files: seq<ObjectFile>, lines: seq<string>)
    ensures CollectedAll(files, lines, |lines|) == files
    decreases |files|
  {
    if files != [] {
      CollectedAllAtEnd(files[1..], lines);
      assert files[0].(sects := files[0].sects + []) == files[0];
      assert [files[0]] + files[1..] == files;
    }
  }

  /**
   * An object whose name never appears as a caption from the stream's
   * position on (an archive, which objdump announces as "In archive NAME:")
   * consumes the rest of the listing, so no later object gains a section.
   */
  lemma NameMissingStarvesRest(files: seq<ObjectFile>, lines: seq<string>, i: nat)
    requires i <= |lines| && files != []
    requires First(Views(lines), NameLine(files[0].name), i) == |lines|
    ensures CollectedAll(files, lines, i) == [files[0]] + files[1..]
  {
    CollectedAllAtEnd(files[1..], lines);
    assert files[0].(sects := files[0].sects + []) == files[0];
  }

  /**
   * The object loop of main (listStart/listNext over lObject, calling
   * objectFileCollect on the shared stream).
   */
  method CollectAll(files: seq<ObjectFile>, lines: seq<string>) returns (r: seq<ObjectFile>)
    ensures r == CollectedAll(files, lines, 0)
  {
    r := [];
    var pos: nat := 0;
    var k := 0;
    while k < |files|
      invariant k <= |files| && pos <= |lines|
      invariant r + CollectedAll(files[k..], lines, pos) == CollectedAll(files, lines, 0)
    {
      var f, next := Collect(files[k], lines, pos);
      assert files[k..][0] == files[k] && files[k..][1..] == files[k + 1..];
      assert CollectedAll(files[k..], lines, pos) == [f] + CollectedAll(files[k + 1..], lines, next);
      r := r + [f];
      pos := next;
      k := k + 1;
    }
    assert files[k..] == [];
  }
}
