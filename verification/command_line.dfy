/**
 * The driver of main.c: the loop over `argv` that sets the option bits,
 * switches object collection on and off, gathers the seeds, the linker and
 * the arguments handed on to it, and keeps the two counters `llen` and `olen`
 * that size the linker and objdump command buffers; the step that drops the
 * executable from the object list; and the building of the two commands.
 *
 * `args` is `argv` without the program name.  The option bits of `flags` are
 * modelled as the set of their positions, as the colours are.
 */
module CommandLine {
  import opened Wrappers
  import opened CursorLists
  import opened ObjectFiles

  /** Bit positions of the `flags` word. */
  const DumpCmdLn: nat := 0
  const DumpDiscarded: nat := 1
  const DumpUsed: nat := 2
  const Objects: nat := 3
  const Help: nat := 4
  const DumpMap: nat := 5
  const NoRemove: nat := 6
  const Collecting: nat := 7

  const DefaultLinker := "ld"
  const Dumper := "objdump -rh"
  const Pipe := ">"
  const DumpFile := ".-"
  const OutputOption := "-o"

  /** What the scanner makes of an argument. */
  datatype Kind = Save | SetLinker | Flag(bit: nat) | Plain

  /** The long options the loop compares an argument with, and what each one means. */
  const LongOptions: map<string, Kind> := map[
    "--save" := Save, "--help" := Flag(Help), "--dcmd" := Flag(DumpCmdLn), "--ddis" := Flag(DumpDiscarded),
    "--duse" := Flag(DumpUsed), "--dmap" := Flag(DumpMap), "--linker" := SetLinker, "--dnrm" := Flag(NoRemove)]

  /**
   * The comparisons of the loop: an argument that is one of the long options
   * means that option; anything else is Plain.  (main.c compares only
   * arguments that start with "--", and all the long options do.)
   */
  function KindOf(a: string): (k: Kind)
    ensures k.Flag? ==> k.bit in {DumpCmdLn, DumpDiscarded, DumpUsed, Help, DumpMap, NoRemove}
    ensures !k.Plain? ==> |a| >= 2 && a[..2] == "--"
  {
    if a in LongOptions then LongOptions[a] else Plain
  }

  /** The argument starts with a dash. */
  predicate Dash(a: string)
  {
    |a| > 0 && a[0] == '-'
  }

  /** The argument starts with "-o": it switches collection on. */
  predicate Output(a: string)
  {
    |a| >= 2 && a[0] == '-' && a[1] == 'o'
  }

  /** The argument is "-o" itself, with the executable in the next argument. */
  predicate BareOutput(a: string)
  {
    Output(a) && |a| == |OutputOption|
  }

  /** The option takes the next argument as its value. */
  predicate TakesValue(a: string)
  {
    KindOf(a).Save? || KindOf(a).SetLinker?
  }

  /** Where the scan goes on after the argument at `i`: past its value, if it takes one. */
  function Next(args: seq<string>, i: nat): (j: nat)
    requires i < |args|
    ensures i < j <= |args|
  {
    if TakesValue(args[i]) && i + 1 < |args| then i + 2 else i + 1
  }

  /** The positions the scan looks at from `i` on. */
  ghost function TokensFrom(args: seq<string>, i: nat): (r: set<nat>)
    requires i <= |args|
    ensures forall j :: j in r ==> i <= j < |args|
    decreases |args| - i
  {
    if i == |args| then {} else {i} + TokensFrom(args, Next(args, i))
  }

  // ---------------------------------------------------------------- what the scan gathers

  /** The arguments handed to the linker, in order. */
  function ForwardedFrom(args: seq<string>, i: nat): (r: seq<string>)
    requires i <= |args|
    ensures |r| <= |args| - i
    decreases |args| - i
  {
    if i == |args| then []
    else (if KindOf(args[i]).Plain? then [args[i]] else []) + ForwardedFrom(args, Next(args, i))
  }

  /** The values of `--save`, in order. */
  function SavedFrom(args: seq<string>, i: nat): seq<string>
    requires i <= |args|
    decreases |args| - i
  {
    if i == |args| then []
    else (if KindOf(args[i]).Save? && i + 1 < |args| then [args[i + 1]] else []) + SavedFrom(args, Next(args, i))
  }

  /** The linker after the arguments from `i` on, starting from `linker`. */
  function LinkerFrom(args: seq<string>, i: nat, linker: string): string
    requires i <= |args|
    decreases |args| - i
  {
    if i == |args| then linker
    else LinkerFrom(args, Next(args, i), if KindOf(args[i]).SetLinker? && i + 1 < |args| then args[i + 1] else linker)
  }

  /** The option bits the arguments from `i` on set (collection mode aside). */
  function FlagsFrom(args: seq<string>, i: nat): (r: set<nat>)
    requires i <= |args|
    ensures Collecting !in r
    decreases |args| - i
  {
    if i == |args| then {}
    else
      var a := args[i];
      (if KindOf(a).Flag? then {KindOf(a).bit} else {}) + (if KindOf(a).Plain? && Output(a) then {Objects} else {})
        + FlagsFrom(args, Next(args, i))
  }

  /**
   * Collection mode after the argument `a` when it was `collecting` before:
   * a dash argument switches it off and an "-o" argument then on again.
   */
  function Mode(a: string, collecting: bool): bool
  {
    (KindOf(a).Plain? && Output(a)) || (collecting && !Dash(a))
  }

  /**
   * The object files created from the arguments from `i` on, in collection
   * mode `collecting`: every forwarded argument other than "-o" itself that
   * is read in collection mode.
   */
  function ObjectsFrom(args: seq<string>, i: nat, collecting: bool): seq<ObjectFile>
    requires i <= |args|
    decreases |args| - i
  {
    if i == |args| then []
    else
      var a := args[i];
      var mode := Mode(a, collecting);
      (if KindOf(a).Plain? && !BareOutput(a) && mode then [Create(a)] else []) + ObjectsFrom(args, Next(args, i), mode)
  }

  // ---------------------------------------------------------------- command strings

  /** The names of the object files, in order. */
  function FileNames(files: seq<ObjectFile>): (r: seq<string>)
    ensures |r| == |files|
    ensures forall k :: 0 <= k < |files| ==> r[k] == files[k].name
  {
    if files == [] then [] else FileNames(files[..|files| - 1]) + [files[|files| - 1].name]
  }

  /** The words, each followed by a space. */
  function Joined(words: seq<string>): string
  {
    if words == [] then [] else Joined(words[..|words| - 1]) + words[|words| - 1] + " "
  }

  /** What the counters add up: the length of each word plus one. */
  function Spaced(words: seq<string>): nat
  {
    if words == [] then 0 else Spaced(words[..|words| - 1]) + |words[|words| - 1]| + 1
  }

  /** The linker command main.c builds: the linker, a space, each argument followed by a space. */
  function LinkerCommand(linker: string, largs: seq<string>): string
  {
    linker + " " + Joined(largs)
  }

  /** The objdump command main.c builds: the dumper, a space, each object followed by a space, the redirection. */
  function DumpCommand(names: seq<string>): string
  {
    Dumper + " " + Joined(names) + Pipe + DumpFile
  }

  /** The initial `olen`: sizeof(dumper) + sizeof(">" ".-"), both terminators counted. */
  const DumpBase: nat := |Dumper| + 1 + |Pipe + DumpFile| + 1

  /** The joined words are as long as the counters say. */
  lemma {:induction false} JoinedLength(words: seq<string>)
    ensures |Joined(words)| == Spaced(words)
    decreases |words|
  {
    if words != [] {
      JoinedLength(words[..|words| - 1]);
    }
  }

  /** `llen`'s bookkeeping is the length of the linker command plus its terminator. */
  lemma LinkerCommandLength(linker: string, largs: seq<string>)
    ensures |LinkerCommand(linker, largs)| + 1 == |linker| + 2 + Spaced(largs)
  {
    JoinedLength(largs);
  }

  /** `olen`'s bookkeeping is the length of the objdump command plus its terminator. */
  lemma DumpCommandLength(names: seq<string>)
    ensures |DumpCommand(names)| + 1 == DumpBase + Spaced(names)
  {
    JoinedLength(names);
  }

  lemma SpacedAppend(words: seq<string>, w: string)
    ensures Spaced(words + [w]) == Spaced(words) + |w| + 1
  {
  }

  lemma JoinedAppend(words: seq<string>, w: string)
    ensures Joined(words + [w]) == Joined(words) + w + " "
  {
  }

  /** One more word on a command being built. */
  lemma JoinedStep(head: string, words: seq<string>, n: nat)
    requires n < |words|
    ensures head + Joined(words[..n]) + words[n] + " " == head + Joined(words[..n + 1])
  {
    assert words[..n + 1] == words[..n] + [words[n]];
    JoinedAppend(words[..n], words[n]);
  }

  lemma FileNamesAppend(files: seq<ObjectFile>, f: ObjectFile)
    ensures FileNames(files + [f]) == FileNames(files) + [f.name]
  {
  }

  /** Taking the first word off: the counters drop its length plus one. */
  lemma {:induction false} SpacedFront(words: seq<string>)
    requires words != []
    ensures Spaced(words) == |words[0]| + 1 + Spaced(words[1..])
    decreases |words|
  {
    if |words| > 1 {
      var init := words[..|words| - 1];
      SpacedFront(init);
      assert init[1..] == words[1..][..|words| - 2];
    }
  }

  /** Taking the first file off takes its name off the front. */
  lemma {:induction false} FileNamesFront(files: seq<ObjectFile>)
    requires files != []
    ensures FileNames(files) == [files[0].name] + FileNames(files[1..])
    decreases |files|
  {
    if |files| > 1 {
      var init := files[..|files| - 1];
      FileNamesFront(init);
      assert init[1..] == files[1..][..|files| - 2];
    }
  }

  /** The linker arguments as the array holds them: a non-NULL pointer to each. */
  function Wrapped(words: seq<string>): (r: seq<Option<string>>)
    ensures |r| == |words|
    ensures forall j :: 0 <= j < |words| ==> r[j] == Some(words[j])
  {
    if words == [] then [] else Wrapped(words[..|words| - 1]) + [Some(words[|words| - 1])]
  }

  lemma WrappedAppend(words: seq<string>, w: string)
    ensures Wrapped(words + [w]) == Wrapped(words) + [Some(w)]
  {
  }

  // ---------------------------------------------------------------- the extraction loop

  /** What the extraction loop has gathered so far. */
  datatype ScanState = ScanState(flags: set<nat>, linker: string, largs: seq<string>,
                                 objects: seq<ObjectFile>, seeds: seq<string>, llen: int, olen: int)

  /** The state before the first argument: the default linker, "main" as the only seed. */
  const Start := ScanState({}, DefaultLinker, [], [], ["main"], |DefaultLinker| + 2, DumpBase)

  /** What the loop does with the argument at `k` (and the value after it, for `--save` and `--linker`). */
  function Step(args: seq<string>, k: nat, s: ScanState): ScanState
    requires k < |args|
  {
    var a := args[k];
    var flags := if Dash(a) then s.flags - {Collecting} else s.flags;
    match KindOf(a)
    case Save =>
      if k + 1 < |args| then s.(flags := flags, seeds := s.seeds + [args[k + 1]]) else s.(flags := flags)
    case SetLinker =>
      if k + 1 < |args| then s.(flags := flags, linker := args[k + 1], llen := s.llen + |args[k + 1]| - |s.linker|)
      else s.(flags := flags)
    case Flag(b) => s.(flags := flags + {b})
    case Plain => Forward(a, s.(flags := flags))
  }

  /**
   * What the loop does with an argument no long option claims: one starting
   * with "-o" switches collection on; then the argument goes to the linker,
   * and unless it is "-o" itself, in collection mode also to the objects.
   */
  function Forward(a: string, s: ScanState): ScanState
  {
    var flags := if Output(a) then s.flags + {Collecting, Objects} else s.flags;
    if BareOutput(a) then s.(flags := flags, largs := s.largs + [a], llen := s.llen + |OutputOption| + 1)
    else if Collecting in flags then
      s.(flags := flags, largs := s.largs + [a], objects := s.objects + [Create(a)],
         llen := s.llen + |a| + 1, olen := s.olen + |a| + 1)
    else s.(flags := flags, largs := s.largs + [a], llen := s.llen + |a| + 1)
  }

  /** The loop run from the argument at `k` on, in state `s`: the state it ends in. */
  ghost function Run(args: seq<string>, k: nat, s: ScanState): ScanState
    requires k <= |args|
    decreases |args| - k
  {
    if k == |args| then s else Run(args, Next(args, k), Step(args, k, s))
  }

  /** The run gathers the option bits FlagsFrom describes. */
  lemma {:induction false} RunFlags(args: seq<string>, k: nat, s: ScanState)
    requires k <= |args|
    ensures Run(args, k, s).flags - {Collecting} == (s.flags - {Collecting}) + FlagsFrom(args, k)
    decreases |args| - k
  {
    if k < |args| {
      RunFlags(args, Next(args, k), Step(args, k, s));
    }
  }

  /** The run ends with the linker LinkerFrom describes. */
  lemma {:induction false} RunLinker(args: seq<string>, k: nat, s: ScanState)
    requires k <= |args|
    ensures Run(args, k, s).linker == LinkerFrom(args, k, s.linker)
    decreases |args| - k
  {
    if k < |args| {
      RunLinker(args, Next(args, k), Step(args, k, s));
    }
  }

  /** The run hands on the arguments ForwardedFrom describes. */
  lemma {:induction false} RunForwarded(args: seq<string>, k: nat, s: ScanState)
    requires k <= |args|
    ensures Run(args, k, s).largs == s.largs + ForwardedFrom(args, k)
    decreases |args| - k
  {
    if k < |args| {
      var s' := Step(args, k, s);
      RunForwarded(args, Next(args, k), s');
      assert s'.largs == s.largs + if KindOf(args[k]).Plain? then [args[k]] else [];
    }
  }

  /** The run collects the seeds SavedFrom describes. */
  lemma {:induction false} RunSeeds(args: seq<string>, k: nat, s: ScanState)
    requires k <= |args|
    ensures Run(args, k, s).seeds == s.seeds + SavedFrom(args, k)
    decreases |args| - k
  {
    if k < |args| {
      var s' := Step(args, k, s);
      RunSeeds(args, Next(args, k), s');
      assert s'.seeds == s.seeds + if KindOf(args[k]).Save? && k + 1 < |args| then [args[k + 1]] else [];
    }
  }

  /** The run collects the object files ObjectsFrom describes. */
  lemma {:induction false} RunObjects(args: seq<string>, k: nat, s: ScanState)
    requires k <= |args|
    ensures Run(args, k, s).objects == s.objects + ObjectsFrom(args, k, Collecting in s.flags)
    decreases |args| - k
  {
    if k < |args| {
      var a := args[k];
      var s' := Step(args, k, s);
      RunObjects(args, Next(args, k), s');
      assert Collecting in s'.flags <==> Mode(a, Collecting in s.flags);
      assert s'.objects == s.objects + if KindOf(a).Plain? && !BareOutput(a) && Collecting in s'.flags then [Create(a)] else [];
    }
  }

  /** The counters' bookkeeping: each is the sum of the lengths it sizes. */
  predicate Counted(s: ScanState)
  {
    && s.llen == |s.linker| + 2 + Spaced(s.largs)
    && s.olen == DumpBase + Spaced(FileNames(s.objects))
  }

  /** Every step keeps the counters exact. */
  lemma StepCounted(args: seq<string>, k: nat, s: ScanState)
    requires k < |args| && Counted(s)
    ensures Counted(Step(args, k, s))
  {
    var r := Step(args, k, s);
    match KindOf(args[k])
    case Save =>
      assert r.largs == s.largs && r.objects == s.objects && r.llen == s.llen && r.olen == s.olen;
    case SetLinker =>
      assert r.largs == s.largs && r.objects == s.objects && r.olen == s.olen;
      assert r.llen == |r.linker| + 2 + Spaced(r.largs);
    case Flag(_) =>
      assert r.largs == s.largs && r.objects == s.objects && r.llen == s.llen && r.olen == s.olen;
    case Plain =>
      PlainCounted(args, k, s);
  }

  /** An argument handed to the linker adds its length plus one to `llen`, and to `olen` if it is an object. */
  lemma ForwardCounted(a: string, s: ScanState)
    requires Counted(s)
    ensures Counted(Forward(a, s))
  {
    var r := Forward(a, s);
    ForwardFields(a, s);
    SpacedAppend(s.largs, a);
    if r.objects != s.objects {
      FileNamesAppend(s.objects, Create(a));
      SpacedAppend(FileNames(s.objects), a);
    }
  }

  /** What the common path does to the linker arguments, the objects and the counters. */
  lemma ForwardFields(a: string, s: ScanState)
    ensures var r := Forward(a, s);
      && r.linker == s.linker && r.largs == s.largs + [a] && r.llen == s.llen + |a| + 1
      && ((r.objects == s.objects + [Create(a)] && r.olen == s.olen + |a| + 1) || (r.objects == s.objects && r.olen == s.olen))
  {
  }

  lemma PlainCounted(args: seq<string>, k: nat, s: ScanState)
    requires k < |args| && Counted(s) && KindOf(args[k]).Plain?
    ensures Counted(Step(args, k, s))
  {
    var a := args[k];
    var flags := if Dash(a) then s.flags - {Collecting} else s.flags;
    assert Step(args, k, s) == Forward(a, s.(flags := flags));
    ForwardCounted(a, s.(flags := flags));
  }

  /** So the whole run does. */
  lemma {:induction false} RunCounted(args: seq<string>, k: nat, s: ScanState)
    requires k <= |args| && Counted(s)
    ensures Counted(Run(args, k, s))
    decreases |args| - k
  {
    if k < |args| {
      StepCounted(args, k, s);
      RunCounted(args, Next(args, k), Step(args, k, s));
    }
  }

  /** The whole run from the start state: what it gathers, and the counters' final values. */
  lemma RunFromStart(args: seq<string>)
    ensures var r := Run(args, 0, Start);
      && r.flags - {Collecting} == FlagsFrom(args, 0)
      && r.seeds == ["main"] + SavedFrom(args, 0)
      && r.linker == LinkerFrom(args, 0, DefaultLinker)
      && r.objects == ObjectsFrom(args, 0, false)
      && r.largs == ForwardedFrom(args, 0)
      && r.llen == |LinkerCommand(r.linker, r.largs)| + 1
      && r.olen == |DumpCommand(FileNames(r.objects))| + 1
  {
    RunFlags(args, 0, Start);
    RunLinker(args, 0, Start);
    RunForwarded(args, 0, Start);
    RunSeeds(args, 0, Start);
    RunObjects(args, 0, Start);
    RunCounted(args, 0, Start);
    var r := Run(args, 0, Start);
    LinkerCommandLength(r.linker, r.largs);
    DumpCommandLength(FileNames(r.objects));
  }

  /** main's scalar locals in the loop: the option bits, the linker and the two counters. */
  datatype Settings = Settings(flags: set<nat>, linker: string, llen: int, olen: int)

  function StateOf(o: Settings, largs: seq<string>, objects: seq<ObjectFile>, seeds: seq<string>): ScanState
  {
    ScanState(o.flags, o.linker, largs, objects, seeds, o.llen, o.olen)
  }

  /**
   * The body of the extraction loop: takes the argument at `k`, and the value
   * after it for `--save` and `--linker`, and updates main's locals as Step
   * says, the linker arguments in `largs[..li]` included.
   */
  method TakeArgument(args: seq<string>, k: nat, o: Settings, largs: array<Option<string>>, li: nat,
                      objects: seq<ObjectFile>, seeds: seq<string>, ghost fwd: seq<string>)
    returns (next: nat, r: Settings, ri: nat, robjects: seq<ObjectFile>, rseeds: seq<string>, ghost rfwd: seq<string>)
    requires k < |args|
    requires largs.Length == |args| + 1 && li == |fwd| <= k && largs[..li] == Wrapped(fwd)
    modifies largs
    ensures next == Next(args, k) && ri == |rfwd| <= next && largs[..ri] == Wrapped(rfwd)
    ensures StateOf(r, rfwd, robjects, rseeds) == Step(args, k, StateOf(o, fwd, objects, seeds))
  {
    var a := args[k];
    ghost var s := StateOf(o, fwd, objects, seeds);
    next := k + 1;
    r, ri, robjects, rseeds, rfwd := o, li, objects, seeds, fwd;
    if Dash(a) {
      r := r.(flags := r.flags - {Collecting});
    }
    match KindOf(a)
    case Save =>
      if next < |args| {
        rseeds := rseeds + [args[next]];
        next := next + 1;
      }
      assert StateOf(r, rfwd, robjects, rseeds) == Step(args, k, s);
    case SetLinker =>
      if next < |args| {
        r := r.(llen := r.llen + |args[next]| - |r.linker|, linker := args[next]);
        next := next + 1;
      }
      assert StateOf(r, rfwd, robjects, rseeds) == Step(args, k, s);
    case Flag(b) =>
      r := r.(flags := r.flags + {b});
      assert StateOf(r, rfwd, robjects, rseeds) == Step(args, k, s);
    case Plain =>
      r, ri, robjects, rfwd := ForwardArgument(a, r, largs, ri, robjects, rseeds, rfwd);
      assert StateOf(r, rfwd, robjects, rseeds) == Step(args, k, s);
  }

  /** The part of the loop body that Forward describes, `largs[li]` included. */
  method ForwardArgument(a: string, o: Settings, largs: array<Option<string>>, li: nat,
                         objects: seq<ObjectFile>, seeds: seq<string>, ghost fwd: seq<string>)
    returns (r: Settings, ri: nat, robjects: seq<ObjectFile>, ghost rfwd: seq<string>)
    requires li == |fwd| < largs.Length && largs[..li] == Wrapped(fwd)
    modifies largs
    ensures ri == |rfwd| == li + 1 && largs[..ri] == Wrapped(rfwd)
    ensures StateOf(r, rfwd, robjects, seeds) == Forward(a, StateOf(o, fwd, objects, seeds))
  {
    r, robjects := o, objects;
    if Output(a) {
      r := r.(flags := r.flags + {Collecting, Objects});
    }
    if BareOutput(a) {
      // "-o" itself goes to the linker, but is no object file
      r := r.(llen := r.llen + |OutputOption| + 1);
    } else {
      var len := |a| + 1;
      if Collecting in r.flags {
        robjects := robjects + [Create(a)];
        r := r.(olen := r.olen + len);
      }
      r := r.(llen := r.llen + len);
    }
    largs[li] := Some(a);
    WrappedAppend(fwd, a);
    ri := li + 1;
    rfwd := fwd + [a];
  }

  /**
   * The extraction loop of main.c.  Besides the option bits, the seeds
   * (always "main" first), the linker, the linker arguments (the array
   * `largs` of `argc` entries, filled up to `li` and NULL-terminated) and
   * the object files, it leaves the counters `llen` and `olen` at exactly
   * the sizes of the linker and objdump commands, terminator included.
   */
  method ScanArguments(args: seq<string>)
    returns (flags: set<nat>, linker: string, largs: array<Option<string>>, li: nat, llen: int, olen: int,
             objects: seq<ObjectFile>, seeds: seq<string>)
    ensures fresh(largs)
    ensures flags - {Collecting} == FlagsFrom(args, 0)
    ensures seeds == ["main"] + SavedFrom(args, 0)
    ensures linker == LinkerFrom(args, 0, DefaultLinker)
    ensures objects == ObjectsFrom(args, 0, false)
    ensures largs.Length == |args| + 1 && li == |ForwardedFrom(args, 0)|
    ensures largs[..li] == Wrapped(ForwardedFrom(args, 0)) && largs[li] == None
    ensures llen == |LinkerCommand(linker, ForwardedFrom(args, 0))| + 1
    ensures olen == |DumpCommand(FileNames(objects))| + 1
  {
    largs := new Option<string>[|args| + 1](_ => None);
    li := 0;
    var o := Settings({}, DefaultLinker, |DefaultLinker| + 2, DumpBase);
    objects, seeds := [], ["main"];
    ghost var fwd: seq<string> := [];
    var k := 0;
    while k < |args|
      invariant k <= |args| && li == |fwd| <= k
      invariant largs.Length == |args| + 1 && largs[..li] == Wrapped(fwd)
      invariant Run(args, k, StateOf(o, fwd, objects, seeds)) == Run(args, 0, Start)
      decreases |args| - k
    {
      k, o, li, objects, seeds, fwd := TakeArgument(args, k, o, largs, li, objects, seeds, fwd);
    }
    largs[li] := None;
    flags, linker, llen, olen := o.flags, o.linker, o.llen, o.olen;
    RunFromStart(args);
  }

  // ---------------------------------------------------------------- what the gathered values mean

  /** Every argument is either looked at by the scan or taken as the value of the option before it. */
  lemma {:induction false} TokensCover(args: seq<string>, i: nat, j: nat)
    requires i <= j < |args|
    ensures j in TokensFrom(args, i) || (i < j && j - 1 in TokensFrom(args, i) && TakesValue(args[j - 1]) && Next(args, j - 1) == j + 1)
    decreases |args| - i
  {
    if j != i && Next(args, i) <= j {
      TokensCover(args, Next(args, i), j);
    }
  }

  /** An argument is handed to the linker exactly when the scan looks at it and does not recognise it. */
  lemma {:induction false} ForwardedMembers(args: seq<string>, i: nat, a: string)
    requires i <= |args|
    ensures a in ForwardedFrom(args, i) <==> exists j :: j in TokensFrom(args, i) && args[j] == a && KindOf(a).Plain?
    decreases |args| - i
  {
    if i < |args| {
      ForwardedMembers(args, Next(args, i), a);
    }
  }

  /** The seeds beyond "main" are exactly the values given to `--save`. */
  lemma {:induction false} SavedMembers(args: seq<string>, i: nat, a: string)
    requires i <= |args|
    ensures a in SavedFrom(args, i) <==>
      exists j :: j in TokensFrom(args, i) && KindOf(args[j]).Save? && j + 1 < |args| && args[j + 1] == a
    decreases |args| - i
  {
    if i < |args| {
      SavedMembers(args, Next(args, i), a);
    }
  }

  /** Which option arguments set a bit: its long option, and for the objects bit any argument starting with "-o". */
  predicate Sets(a: string, b: nat)
  {
    KindOf(a) == Flag(b) || (b == Objects && KindOf(a).Plain? && Output(a))
  }

  /** A bit is set exactly when an argument the scan looks at sets it. */
  lemma {:induction false} FlagsMembers(args: seq<string>, i: nat, b: nat)
    requires i <= |args|
    ensures b in FlagsFrom(args, i) <==> exists j :: j in TokensFrom(args, i) && Sets(args[j], b)
    decreases |args| - i
  {
    if i < |args| {
      FlagsMembers(args, Next(args, i), b);
    }
  }

  /** The linker is chosen by a `--linker` that has a value. */
  predicate ChoosesLinker(args: seq<string>, j: nat)
    requires j < |args|
  {
    KindOf(args[j]).SetLinker? && j + 1 < |args|
  }

  /** Without a `--linker` the linker stays the one given. */
  lemma {:induction false} LinkerDefault(args: seq<string>, i: nat, linker: string)
    requires i <= |args|
    requires forall j :: j in TokensFrom(args, i) ==> !ChoosesLinker(args, j)
    ensures LinkerFrom(args, i, linker) == linker
    decreases |args| - i
  {
    if i < |args| {
      assert i in TokensFrom(args, i);
      LinkerDefault(args, Next(args, i), linker);
    }
  }

  /** The last `--linker` wins. */
  lemma {:induction false} LinkerLastWins(args: seq<string>, i: nat, linker: string, j: nat)
    requires i <= j < |args| && j in TokensFrom(args, i) && ChoosesLinker(args, j)
    requires forall l :: l in TokensFrom(args, i) && l > j ==> !ChoosesLinker(args, l)
    ensures LinkerFrom(args, i, linker) == args[j + 1]
    decreases |args| - i
  {
    if i == j {
      LinkerDefault(args, Next(args, i), args[j + 1]);
    } else {
      LinkerLastWins(args, Next(args, i), if ChoosesLinker(args, i) then args[i + 1] else linker, j);
    }
  }

  /**
   * Every object file is a fresh one (no sections yet) named after an
   * argument handed to the linker, never "-o" itself; and objects are only
   * collected once an argument starting with "-o" has been seen.
   */
  lemma {:induction false} ObjectsForwarded(args: seq<string>, i: nat, collecting: bool)
    requires i <= |args|
    ensures forall f :: f in ObjectsFrom(args, i, collecting) ==>
      f.name in ForwardedFrom(args, i) && f.sects == [] && !BareOutput(f.name)
    ensures ObjectsFrom(args, i, collecting) != [] ==> collecting || Objects in FlagsFrom(args, i)
    decreases |args| - i
  {
    if i < |args| {
      ObjectsForwarded(args, Next(args, i), Mode(args[i], collecting));
    }
  }

  // ---------------------------------------------------------------- dropping the executable

  /** What happens to the object list once the scan is over. */
  datatype DropOutcome = Crash | NoObjects | Dropped(rest: seq<ObjectFile>, olen: int)

  /**
   * The trimming as main.c writes it: the first object is taken for the
   * executable and removed, and an empty remainder is an error.  On an empty
   * list the cursor stays on the sentinel, whose NULL datum then reaches
   * objectFileGetName.
   */
  function DropAsWritten(objects: seq<ObjectFile>, olen: int): DropOutcome
  {
    if objects == [] then Crash
    else if |objects| == 1 then NoObjects
    else Dropped(objects[1..], olen - (|objects[0].name| + 1))
  }

  /** The trimming as intended: an empty list is the same error as a list holding only the executable. */
  function Drop(objects: seq<ObjectFile>, olen: int): (r: DropOutcome)
    ensures !r.Crash?
    ensures r.NoObjects? <==> |objects| <= 1
    ensures r.Dropped? ==> r.rest == objects[1..] && r.rest != []
  {
    if |objects| <= 1 then NoObjects
    else Dropped(objects[1..], olen - (|objects[0].name| + 1))
  }

  /** The two agree wherever the written code does not crash. */
  lemma DropAgrees(objects: seq<ObjectFile>, olen: int)
    ensures DropAsWritten(objects, olen).Crash? <==> objects == []
    ensures objects != [] ==> DropAsWritten(objects, olen) == Drop(objects, olen)
  {
  }

  /** "-o" followed by another option collects no object at all, so the written code crashes. */
  lemma OutputWithoutObjectsCrashes()
    ensures var args := ["-o", "-lc"];
      && Objects in FlagsFrom(args, 0)
      && ObjectsFrom(args, 0, false) == []
      && DropAsWritten(ObjectsFrom(args, 0, false), DumpBase).Crash?
      && Drop(ObjectsFrom(args, 0, false), DumpBase) == NoObjects
  {
    var args := ["-o", "-lc"];
    assert KindOf(args[0]).Plain? && BareOutput(args[0]);
    assert KindOf(args[1]).Plain? && Dash(args[1]) && !Output(args[1]);
    assert Next(args, 0) == 1 && Next(args, 1) == 2;
  }

  /** Dropping the executable keeps `olen` the exact size of the objdump command over the rest. */
  lemma DropKeepsCount(objects: seq<ObjectFile>, olen: int)
    requires olen == |DumpCommand(FileNames(objects))| + 1
    ensures Drop(objects, olen).Dropped? ==>
      Drop(objects, olen).olen == |DumpCommand(FileNames(Drop(objects, olen).rest))| + 1
  {
    if |objects| > 1 {
      FileNamesFront(objects);
      SpacedFront(FileNames(objects));
      DumpCommandLength(FileNames(objects));
      DumpCommandLength(FileNames(objects[1..]));
      assert FileNames(objects)[1..] == FileNames(objects[1..]);
    }
  }

  /**
   * The trimming on the object list itself: listIsEmpty first (so an empty
   * list is reported, not dereferenced), then listStart, listNext, listGet
   * for the executable's name, listRemove, and listIsEmpty on the rest.
   */
  method DropExecutable(objects: CursorList<ObjectFile>, olen: int) returns (rolen: int, ok: bool)
    requires objects.Valid()
    modifies objects, objects.Repr
    ensures objects.Valid()
    ensures Drop(old(objects.Contents), olen) == if ok then Dropped(objects.Contents, rolen) else NoObjects
    ensures !ok ==> objects.Contents == []
  {
    var empty := objects.IsEmpty();
    if empty {
      return olen, false;
    }
    objects.Start();
    var _ := objects.Next();
    var exe := objects.Get();
    rolen := olen - (|exe.name| + 1);
    objects.Remove();
    empty := objects.IsEmpty();
    ok := !empty;
  }

  // ---------------------------------------------------------------- building the commands

  /** The objdump command, built by walking the object list from listStart with listNext. */
  method BuildDumpCommand(objects: CursorList<ObjectFile>) returns (cmd: string)
    requires objects.Valid()
    modifies objects`curr, objects`cursor
    ensures objects.Valid()
    ensures cmd == DumpCommand(FileNames(objects.Contents))
  {
    cmd := Dumper + " ";
    ghost var head := cmd;
    objects.Start();
    ghost var names := FileNames(objects.Contents);
    ghost var done := 0;
    var more := objects.Next();
    while more
      invariant objects.Valid() && objects.OnNode() && |names| == |objects.Contents|
      invariant forall k :: 0 <= k < |names| ==> names[k] == objects.Contents[k].name
      invariant done == (if more then objects.cursor - 1 else objects.cursor) <= |names|
      invariant more ==> objects.OnDatum()
      invariant !more ==> done == |names|
      invariant cmd == head + Joined(names[..done])
      decreases |names| - objects.cursor, more
    {
      var f := objects.Get();
      JoinedStep(head, names, done);
      cmd := cmd + f.name + " ";
      done := done + 1;
      more := objects.Next();
    }
    assert names[..done] == names;
    cmd := cmd + Pipe + DumpFile;
  }

  /** The linker command, built from the first `li` entries of `largs`. */
  method BuildLinkerCommand(linker: string, largs: array<Option<string>>, li: nat, ghost words: seq<string>)
    returns (cmd: string)
    requires li <= largs.Length && largs[..li] == Wrapped(words)
    ensures cmd == LinkerCommand(linker, words)
  {
    cmd := linker + " ";
    ghost var head := cmd;
    var i := 0;
    while i < li
      invariant i <= li && cmd == head + Joined(words[..i])
    {
      assert largs[i] == largs[..li][i] == Some(words[i]);
      JoinedStep(head, words, i);
      cmd := cmd + largs[i].value + " ";
      i := i + 1;
    }
    assert words[..li] == words;
  }
}
