/** Sorting an argument vector into options and other arguments (fuse/fuse_opt.c:44-84, 86-104, 136-159, 317-379). */
module OptParse {
  import opened OptString
  import opened Wrappers

  /** What the caller's function says of an argument: 1, 0 or -1. */
  datatype Decision = Keep | Discard | Fail

  /** FUSE_OPT_KEY_OPT and FUSE_OPT_KEY_NONOPT. */
  datatype Key = Opt | NonOpt

  type Proc = (string, Key) -> Decision

  /** The kept arguments, the kept options of option groups, and the number of arguments kept when "--" was seen,
      or 0. */
  datatype Sorted = Sorted(out: seq<string>, parts: seq<string>, nonopt: nat)

  predicate IsDash(arg: string) {
    arg != "" && arg[0] == '-'
  }

  predicate IsGroup(arg: string) {
    IsDash(arg) && |arg| > 1 && arg[1] == 'o'
  }

  function KeepArg(st: Sorted, arg: string, d: Decision): Option<Sorted> {
    match d
    case Keep => Some(st.(out := st.out + [arg]))
    case Discard => Some(st)
    case Fail => None
  }

  function Group(st: Sorted, ps: seq<string>, proc: Proc): Option<Sorted>
    decreases |ps|
  {
    if ps == [] then Some(st)
    else
      match proc(ps[0], Opt)
      case Keep => Group(st.(parts := st.parts + [ps[0]]), ps[1..], proc)
      case Discard => Group(st, ps[1..], proc)
      case Fail => None
  }

  /** One argument: the state after it, and how many arguments it took. */
  function One(st: Sorted, args: seq<string>, proc: Proc): Option<(Sorted, nat)>
    requires args != []
  {
    var arg := args[0];
    if st.nonopt > 0 || !IsDash(arg) then With(KeepArg(st, arg, proc(arg, NonOpt)), 1)
    else if IsGroup(arg) then
      if |arg| > 2 then With(Group(st, Split(arg[2..]), proc), 1)
      else if |args| < 2 then None
      else With(Group(st, Split(args[1]), proc), 2)
    else if arg == "--" then Some((st.(out := st.out + [arg], nonopt := |st.out| + 1), 1))
    else With(KeepArg(st, arg, proc(arg, Opt)), 1)
  }

  function With(st: Option<Sorted>, n: nat): Option<(Sorted, nat)> {
    if st == None then None else Some((st.value, n))
  }

  function Process(st: Sorted, args: seq<string>, proc: Proc): Option<Sorted>
    decreases |args|
  {
    if args == [] then Some(st)
    else
      match One(st, args, proc)
      case None => None
      case Some((next, n)) => if 0 < n <= |args| then Process(next, args[n..], proc) else None
  }

  /** All options together, as ctx->opts has them. */
  function OptsOf(parts: seq<string>): Option<string> {
    if parts == [] then None else Some(Join(parts))
  }

  function WithOpts(out: seq<string>, opts: Option<string>): seq<string>
    requires out != []
  {
    if opts == None then out else [out[0], "-o", opts.value] + out[1..]
  }

  /** A separator that has become the last argument goes; the count is not adjusted for the options in front. */
  function WithoutLastDashes(out: seq<string>, nonopt: nat): seq<string>
    requires out != []
  {
    if nonopt > 0 && nonopt == |out| && out[|out| - 1] == "--" then out[..|out| - 1] else out
  }

  function Finish(st: Sorted): seq<string>
    requires st.out != []
  {
    WithoutLastDashes(WithOpts(st.out, OptsOf(st.parts)), st.nonopt)
  }

  /** fuse_opt_parse, but for the memory; None when it fails. */
  function Parsed(argv: seq<string>, proc: Proc): Option<seq<string>> {
    if argv == [] then Some([])
    else
      var st := Process(Sorted([argv[0]], [], 0), argv[1..], proc);
      if st == None || st.value.out == [] then None else Some(Finish(st.value))
  }

  // ----- parsing twice

  /** Arguments that are kept where they are: after a "--" anything, before it no option groups. */
  ghost predicate Plain(args: seq<string>, nonopt: bool, proc: Proc) {
    args == [] ||
    (var arg := args[0];
     if nonopt || !IsDash(arg) then proc(arg, NonOpt) == Keep && Plain(args[1..], nonopt, proc)
     else if IsGroup(arg) then false
     else if arg == "--" then Plain(args[1..], true, proc)
     else proc(arg, Opt) == Keep && Plain(args[1..], false, proc))
  }

  /** The count when the first "--" of args, which come behind n arguments, has been kept. */
  function CountAt(args: seq<string>, n: nat): nat {
    if args == [] then 0 else if args[0] == "--" then n + 1 else CountAt(args[1..], n + 1)
  }

  /** Plain arguments are all kept, and nothing else happens. */
  lemma {:induction false} PlainKept(st: Sorted, args: seq<string>, proc: Proc)
    requires Plain(args, st.nonopt > 0, proc)
    ensures Process(st, args, proc) ==
            Some(Sorted(st.out + args, st.parts, if st.nonopt > 0 then st.nonopt else CountAt(args, |st.out|)))
    decreases |args|
  {
    if args == [] {
      assert st.out + args == st.out;
    } else {
      var next := One(st, args, proc).value.0;
      PlainKept(next, args[1..], proc);
      assert next.out + args[1..] == st.out + args;
    }
  }

  ghost predicate AllKept(parts: seq<string>, proc: Proc) {
    forall k :: 0 <= k < |parts| ==> proc(parts[k], Opt) == Keep
  }

  lemma {:induction false} GroupKeeps(st: Sorted, ps: seq<string>, proc: Proc)
    requires AllKept(st.parts, proc) && Group(st, ps, proc) != None
    ensures var r := Group(st, ps, proc).value; AllKept(r.parts, proc) && r.out == st.out && r.nonopt == st.nonopt
    decreases |ps|
  {
    if ps != [] {
      match proc(ps[0], Opt)
      case Keep => GroupKeeps(st.(parts := st.parts + [ps[0]]), ps[1..], proc);
      case Discard => GroupKeeps(st, ps[1..], proc);
    }
  }

  lemma {:induction false} KeptGroup(st: Sorted, ps: seq<string>, proc: Proc)
    requires AllKept(ps, proc)
    ensures Group(st, ps, proc) == Some(st.(parts := st.parts + ps))
    decreases |ps|
  {
    if ps == [] {
      assert st.parts + ps == st.parts;
    } else {
      assert AllKept(ps[1..], proc) by { assert forall k :: 0 <= k < |ps| - 1 ==> ps[1..][k] == ps[k + 1]; }
      KeptGroup(st.(parts := st.parts + [ps[0]]), ps[1..], proc);
      assert st.parts + [ps[0]] + ps[1..] == st.parts + ps;
    }
  }

  /** What processing keeps is plain, and counted right. */
  lemma {:induction false} KeptIsPlain(st: Sorted, args: seq<string>, proc: Proc) returns (kept: seq<string>)
    requires Process(st, args, proc) != None && AllKept(st.parts, proc)
    ensures var r := Process(st, args, proc).value;
            && r.out == st.out + kept && Plain(kept, st.nonopt > 0, proc) && AllKept(r.parts, proc)
            && r.nonopt == if st.nonopt > 0 then st.nonopt else CountAt(kept, |st.out|)
    decreases |args|
  {
    if args == [] {
      kept := [];
    } else {
      var next, n := One(st, args, proc).value.0, One(st, args, proc).value.1;
      if IsGroup(args[0]) && st.nonopt == 0 {
        GroupKeeps(st, if |args[0]| > 2 then Split(args[0][2..]) else Split(args[1]), proc);
      }
      var rest := KeptIsPlain(next, args[n..], proc);
      if next.out == st.out {
        kept := rest;
      } else {
        kept := [args[0]] + rest;
        assert kept[1..] == rest && st.out + kept == next.out + rest;
      }
    }
  }

  /** The count is that of a "--", and only the last argument's when it is as large as can be. */
  lemma {:induction false} CountRange(args: seq<string>, n: nat, nonopt: bool, proc: Proc)
    requires Plain(args, nonopt, proc)
    ensures CountAt(args, n) == 0 || n < CountAt(args, n) <= n + |args|
    ensures CountAt(args, n) == n + |args| > n ==>
      var front := args[..|args| - 1]; args[|args| - 1] == "--" && CountAt(front, n) == 0 && Plain(front, nonopt, proc)
    decreases |args|
  {
    if args != [] && args[0] != "--" {
      var rest := args[1..];
      CountRange(rest, n + 1, nonopt, proc);
      if CountAt(args, n) == n + |args| && rest != [] {
        assert args[..|args| - 1][1..] == rest[..|rest| - 1];
      }
    }
  }

  lemma CanonKept(parts: seq<string>, proc: Proc)
    requires parts != [] && AllKept(parts, proc)
    ensures AllKept(Canon(parts), proc)
  {}

  /** With a function that goes by the argument alone, parsing again changes nothing. */
  lemma ParseTwice(argv: seq<string>, proc: Proc)
    requires Parsed(argv, proc) != None
    ensures Parsed(Parsed(argv, proc).value, proc) == Parsed(argv, proc)
  {
    if argv != [] {
      var a0, st := argv[0], Sorted([argv[0]], [], 0);
      var fin := Process(st, argv[1..], proc).value;
      var kept := KeptIsPlain(st, argv[1..], proc);
      CountRange(kept, 1, false, proc);
      if fin.parts == [] {
        ParseTwicePlain(a0, kept, proc);
      } else {
        ParseTwiceGroup(a0, kept, fin.parts, proc);
        assert WithOpts(fin.out, OptsOf(fin.parts)) == [a0, "-o", Join(fin.parts)] + kept;
      }
    }
  }

  lemma ParseTwicePlain(a0: string, kept: seq<string>, proc: Proc)
    requires Plain(kept, false, proc)
    ensures var out := Finish(Sorted([a0] + kept, [], CountAt(kept, 1))); Parsed(out, proc) == Some(out)
  {
    CountRange(kept, 1, false, proc);
    var out := Finish(Sorted([a0] + kept, [], CountAt(kept, 1)));
    var last := CountAt(kept, 1) == 1 + |kept| > 1;
    var again := if last then kept[..|kept| - 1] else kept;
    assert out == [a0] + again;
    assert out[1..] == again;
    PlainKept(Sorted([a0], [], 0), again, proc);
  }

  lemma ParseTwiceGroup(a0: string, kept: seq<string>, parts: seq<string>, proc: Proc)
    requires Plain(kept, false, proc) && parts != [] && AllKept(parts, proc)
    ensures var out := [a0, "-o", Join(parts)] + kept; Parsed(out, proc) == Some(out)
    ensures Finish(Sorted([a0] + kept, parts, CountAt(kept, 1))) == [a0, "-o", Join(parts)] + kept
  {
    hide Plain, AllKept, Join, Canon, Split, CountAt, Group;
    CountRange(kept, 1, false, proc);
    var out, st := [a0, "-o", Join(parts)] + kept, Sorted([a0], [], 0);
    SplitOfJoin(parts);
    CanonKeeps(parts);
    CanonKept(parts, proc);
    KeptGroup(st, Canon(parts), proc);
    var args := out[1..];
    assert args[0] == "-o" && args[1] == Join(parts) && args[2..] == kept;
    var next := Sorted([a0], Canon(parts), 0);
    assert st.parts + Canon(parts) == Canon(parts);
    assert One(st, args, proc) == Some((next, 2));
    PlainKept(next, kept, proc);
    assert ([a0] + kept)[1..] == kept;
  }

  lemma {:induction false} GroupOut(st: Sorted, ps: seq<string>, proc: Proc)
    ensures Group(st, ps, proc) != None ==> Group(st, ps, proc).value.out == st.out
    decreases |ps|
  {
    if ps != [] {
      match proc(ps[0], Opt)
      case Keep => GroupOut(st.(parts := st.parts + [ps[0]]), ps[1..], proc);
      case Discard => GroupOut(st, ps[1..], proc);
      case Fail =>
    }
  }

  lemma OneOut(st: Sorted, args: seq<string>, proc: Proc)
    requires args != []
    ensures One(st, args, proc) != None ==>
      |One(st, args, proc).value.0.out| >= |st.out| && 0 < One(st, args, proc).value.1 <= |args|
  {
    if IsGroup(args[0]) && |args| > 1 { GroupOut(st, Split(args[1]), proc); }
    if |args[0]| > 2 { GroupOut(st, Split(args[0][2..]), proc); }
  }

  // ----- the forms of an argument

  /** Whole arguments in front of any separator: a -o that stands by itself is followed by its text. */
  predicate InFront(args: seq<string>) {
    args == [] ||
    if args[0] == "-o" then |args| > 1 && InFront(args[2..]) else args[0] != "--" && InFront(args[1..])
  }

  /** Nothing in front of a separator sets the count. */
  lemma NotCounted(st: Sorted, args: seq<string>, proc: Proc)
    requires args != [] && st.nonopt == 0 && args[0] != "--" && One(st, args, proc) != None
    ensures One(st, args, proc).value.0.nonopt == 0
    ensures One(st, args, proc).value.1 == if args[0] == "-o" then 2 else 1
  {
    if IsGroup(args[0]) { GroupCount(st, if |args[0]| > 2 then Split(args[0][2..]) else Split(args[1]), proc); }
    hide Split, Group;
  }

  lemma {:induction false} GroupCount(st: Sorted, ps: seq<string>, proc: Proc)
    ensures Group(st, ps, proc) != None ==> Group(st, ps, proc).value.nonopt == st.nonopt
    decreases |ps|
  {
    if ps != [] {
      match proc(ps[0], Opt)
      case Keep => GroupCount(st.(parts := st.parts + [ps[0]]), ps[1..], proc);
      case Discard => GroupCount(st, ps[1..], proc);
      case Fail =>
    }
  }

  /** What comes behind does not matter for whole arguments. */
  lemma OneOf(st: Sorted, args: seq<string>, more: seq<string>, proc: Proc)
    requires args != [] && (args[0] == "-o" ==> |args| > 1)
    ensures One(st, args + more, proc) == One(st, args, proc)
  {
    assert (args + more)[0] == args[0] && (|args| > 1 ==> (args + more)[1] == args[1]);
    hide Split, Group;
  }

  /** Processing goes on behind whole arguments where they leave off. */
  lemma {:induction false} ProcessOn(st: Sorted, args: seq<string>, more: seq<string>, proc: Proc)
    requires InFront(args) && st.nonopt == 0
    ensures Process(st, args + more, proc) ==
            match Process(st, args, proc) case None => None case Some(next) => Process(next, more, proc)
    ensures Process(st, args, proc) != None ==> Process(st, args, proc).value.nonopt == 0
    decreases |args|
  {
    hide One;
    if args == [] {
      assert args + more == more;
    } else {
      OneOf(st, args, more, proc);
      if One(st, args, proc) != None {
        NotCounted(st, args, proc);
        var n := if args[0] == "-o" then 2 else 1;
        assert (args + more)[n..] == args[n..] + more;
        ProcessOn(One(st, args, proc).value.0, args[n..], more, proc);
      }
    }
  }

  /** "-oX" is "-o" "X", for any text X and whatever the caller's function says. */
  lemma OneOrTwo(a0: string, before: seq<string>, text: string, after: seq<string>, proc: Proc)
    requires InFront(before) && text != ""
    ensures Parsed([a0] + before + ["-o" + text] + after, proc) == Parsed([a0] + before + ["-o", text] + after, proc)
  {
    var st := Sorted([a0], [], 0);
    var one, two := ["-o" + text] + after, ["-o", text] + after;
    assert ([a0] + before + ["-o" + text] + after)[1..] == before + one;
    assert ([a0] + before + ["-o", text] + after)[1..] == before + two;
    ProcessOn(st, before, one, proc);
    ProcessOn(st, before, two, proc);
    if Process(st, before, proc) != None { GroupForms(Process(st, before, proc).value, text, after, proc); }
    hide Process, Finish;
  }

  lemma GroupForms(st: Sorted, text: string, after: seq<string>, proc: Proc)
    requires st.nonopt == 0 && text != ""
    ensures Process(st, ["-o" + text] + after, proc) == Process(st, ["-o", text] + after, proc)
  {
    var one, two := ["-o" + text] + after, ["-o", text] + after;
    assert one[0][2..] == text && two[1] == text && one[1..] == after && two[2..] == after;
    hide Split, Group;
  }

  /** A group whose options are all kept comes back as it is: its options are those of the text. */
  lemma GroupComesBack(a0: string, opts: seq<string>, proc: Proc)
    requires opts != [] && opts[0] != "" && AllKept(opts, proc)
    ensures Parsed([a0, "-o" + Join(opts)], proc) == Some([a0, "-o", Join(opts)])
  {
    hide Join, Split, Group, AllKept;
    SplitUndoesJoin(opts);
    JoinHasText(opts);
    var st := Sorted([a0], [], 0);
    var args := ["-o" + Join(opts)];
    var next := Sorted([a0], opts, 0);
    assert args[0][2..] == Join(opts) && args[1..] == [] && [a0, args[0]][1..] == args;
    KeptGroup(st, opts, proc);
    assert st.parts + opts == opts;
    assert One(st, args, proc) == Some((next, 1));
    assert Process(next, [], proc) == Some(next) && Process(st, args, proc) == Some(next);
    assert [a0][1..] == [] && [a0, "-o", Join(opts)] + [] == [a0, "-o", Join(opts)];
    assert Finish(next) == [a0, "-o", Join(opts)];
  }

  lemma JoinHasText(opts: seq<string>)
    requires opts != [] && opts[0] != ""
    ensures Join(opts) != ""
  {
    SplitUndoesJoin(opts);
    assert Split("") == [""];
  }

  /** What the caller's function is asked about an argument by itself. */
  function KeyOf(arg: string): Key {
    if arg != "" && arg[0] == '-' then Opt else NonOpt
  }

  /** An argument that is discarded leaves no trace, and one that fails stops it all. */
  lemma DiscardedOrFailed(a0: string, before: seq<string>, arg: string, after: seq<string>, proc: Proc)
    requires InFront(before) && arg != "--" && !(|arg| > 1 && arg[0] == '-' && arg[1] == 'o')
    ensures proc(arg, KeyOf(arg)) == Discard ==>
              Parsed([a0] + before + [arg] + after, proc) == Parsed([a0] + before + after, proc)
    ensures proc(arg, KeyOf(arg)) == Fail ==> Parsed([a0] + before + [arg] + after, proc) == None
  {
    var st := Sorted([a0], [], 0);
    assert ([a0] + before + [arg] + after)[1..] == before + ([arg] + after);
    assert ([a0] + before + after)[1..] == before + after;
    ProcessOn(st, before, [arg] + after, proc);
    ProcessOn(st, before, after, proc);
    assert ([arg] + after)[1..] == after;
    if Process(st, before, proc) != None {
      var next := Process(st, before, proc).value;
      assert One(next, [arg] + after, proc) == With(KeepArg(next, arg, proc(arg, KeyOf(arg))), 1);
    }
    hide One, Finish;
  }

  /** A -o without a text behind it fails, whatever was in front. */
  lemma DanglingGroup(a0: string, before: seq<string>, proc: Proc)
    requires InFront(before)
    ensures Parsed([a0] + before + ["-o"], proc) == None
  {
    assert ([a0] + before + ["-o"])[1..] == before + ["-o"];
    ProcessOn(Sorted([a0], [], 0), before, ["-o"], proc);
    assert forall st: Sorted :: st.nonopt == 0 ==> One(st, ["-o"], proc) == None;
    hide One, Finish;
  }

  /** Behind a separator every argument is one for the caller's function, and the separator stays. */
  lemma BehindSeparator(a0: string, rest: seq<string>, proc: Proc)
    requires rest != [] && forall k :: 0 <= k < |rest| ==> proc(rest[k], NonOpt) == Keep
    ensures Parsed([a0, "--"] + rest, proc) == Some([a0, "--"] + rest)
  {
    AllPlain(rest, proc);
    var argv := [a0, "--"] + rest;
    assert argv[1..] == ["--"] + rest && (["--"] + rest)[1..] == rest;
    PlainKept(Sorted([a0], [], 0), ["--"] + rest, proc);
    assert [a0] + (["--"] + rest) == argv;
  }

  lemma {:induction false} AllPlain(rest: seq<string>, proc: Proc)
    requires forall k :: 0 <= k < |rest| ==> proc(rest[k], NonOpt) == Keep
    ensures Plain(rest, true, proc)
    decreases |rest|
  {
    if rest != [] {
      assert forall k :: 0 <= k < |rest| - 1 ==> rest[1..][k] == rest[k + 1];
      AllPlain(rest[1..], proc);
    }
  }

  /** A separator behind which nothing was kept goes if and only if no options were kept in groups. */
  lemma SeparatorGoes(argv: seq<string>, proc: Proc)
    requires |argv| > 0
    requires var st := Process(Sorted([argv[0]], [], 0), argv[1..], proc);
             st != None && st.value.nonopt == |st.value.out| > 1 && st.value.out[|st.value.out| - 1] == "--"
    ensures var st := Process(Sorted([argv[0]], [], 0), argv[1..], proc).value;
            && Parsed(argv, proc) != None
            && (Parsed(argv, proc).value == st.out[..|st.out| - 1] <==> st.parts == [])
            && (st.parts != [] ==> Parsed(argv, proc).value == [st.out[0], "-o", Join(st.parts)] + st.out[1..])
  {
    hide Process, Join;
  }

  /** A separator that is the last argument goes. */
  lemma LastSeparatorGoes(a0: string, kept: seq<string>, proc: Proc)
    requires Plain(kept, false, proc) && "--" !in kept
    ensures Parsed([a0] + kept + ["--"], proc) == Some([a0] + kept)
  {
    hide Plain, CountAt, Process;
    LastCounted(kept, 1, proc);
    var st, all := Sorted([a0], [], 0), kept + ["--"];
    PlainKept(st, all, proc);
    assert ([a0] + kept + ["--"])[1..] == all && [a0] + all == [a0] + kept + ["--"];
    assert ([a0] + all)[..|all|] == [a0] + kept;
  }

  /** But not when options were kept in a group: they go in front, and the count does not follow. */
  lemma LastSeparatorStays(a0: string, kept: seq<string>, opts: seq<string>, proc: Proc)
    requires Plain(kept, false, proc) && "--" !in kept && opts != [] && AllKept(opts, proc)
    ensures Parsed([a0, "-o", Join(opts)] + kept + ["--"], proc) == Some([a0, "-o", Join(opts)] + kept + ["--"])
  {
    hide Plain, AllKept, Join, CountAt, Parsed, Finish;
    LastCounted(kept, 1, proc);
    ParseTwiceGroup(a0, kept + ["--"], opts, proc);
    assert [a0, "-o", Join(opts)] + (kept + ["--"]) == [a0, "-o", Join(opts)] + kept + ["--"];
  }

  lemma {:induction false} LastCounted(kept: seq<string>, n: nat, proc: Proc)
    requires Plain(kept, false, proc) && "--" !in kept
    ensures Plain(kept + ["--"], false, proc) && CountAt(kept + ["--"], n) == n + |kept| + 1
    decreases |kept|
  {
    if kept == [] {
      assert kept + ["--"] == ["--"];
    } else {
      assert kept[0] != "--" && "--" !in kept[1..] && (kept + ["--"])[1..] == kept[1..] + ["--"];
      LastCounted(kept[1..], n + 1, proc);
    }
  }

  // ----- the parser

  class Context {
    const argv: seq<string>
    const proc: Proc
    var argctr: nat
    var outargs: seq<string>
    var opts: Option<string>
    var nonopt: nat
    ghost var parts: seq<string>      // the options that opts joins

    ghost predicate Valid()
      reads this
    {
      && opts == OptsOf(parts)
      && AllClean(argv) && AllClean(parts)
    }

    static ghost predicate AllClean(args: seq<string>) {
      forall k :: 0 <= k < |args| ==> CString(args[k])
    }

    ghost function State(): Sorted
      reads this
    {
      Sorted(outargs, parts, nonopt)
    }

    constructor (argv: seq<string>, proc: Proc)
      requires AllClean(argv)
      ensures Valid() && this.argv == argv && this.proc == proc && argctr == 0 && State() == Sorted([], [], 0)
    {
      this.argv, this.proc := argv, proc;
      argctr, outargs, opts, nonopt, parts := 0, [], None, 0, [];
    }

    /** fuse_opt_add_arg. */
    method AddArg(arg: string)
      modifies `outargs
      ensures outargs == old(outargs) + [arg]
    {
      outargs := outargs + [arg];
    }

    /** fuse_opt_insert_arg_common: add it at the end, and move the arguments behind pos. */
    method InsertArg(pos: nat, arg: string)
      requires pos <= |outargs|
      modifies `outargs
      ensures outargs == old(outargs)[..pos] + [arg] + old(outargs)[pos..]
    {
      AddArg(arg);
      var argc := |outargs|;
      if pos != argc - 1 {
        var newarg := outargs[argc - 1];
        outargs := outargs[..pos] + [newarg] + outargs[pos..argc - 1];
      }
    }

    method AddOpt(opt: string)
      requires Valid() && CString(opt)
      modifies `opts, `parts
      ensures Valid() && parts == old(parts) + [opt]
    {
      JoinClean(parts);
      var r := AddOptCommon(if opts == None then "" else opts.value, opt, true);
      assert (parts + [opt])[..|parts|] == parts;
      opts := Some(r);
      parts := parts + [opt];
    }

    /** call_proc. */
    method CallProc(arg: string, key: Key, iso: bool) returns (ok: bool)
      requires Valid() && CString(arg)
      modifies `opts, `parts, `outargs
      ensures Valid() && ok == (proc(arg, key) != Fail)
      ensures ok ==> State() == if proc(arg, key) == Discard then old(State())
                                else if iso then old(State()).(parts := old(parts) + [arg])
                                else old(State()).(out := old(outargs) + [arg])
    {
      var res := proc(arg, key);
      if res != Keep { return res == Discard; }
      if iso { AddOpt(arg); } else { AddArg(arg); }
      return true;
    }

    /** process_option_group, on a copy of the text. */
    method ProcessGroup(text: string) returns (ok: bool)
      requires Valid() && CString(text)
      modifies `opts, `parts, `outargs
      ensures Valid() && ok == (Group(old(State()), Split(text), proc) != None)
      ensures ok ==> State() == Group(old(State()), Split(text), proc).value
    {
      var copy := new char[|text| + 1](i requires 0 <= i => if i < |text| then text[i] else NUL);
      assert copy[..|text|] == text;
      var ps := SplitInPlace(copy);
      SplitClean(text, "");
      assert ps[0..] == ps;
      for k := 0 to |ps|
        invariant Valid()
        invariant Group(State(), ps[k..], proc) == Group(old(State()), ps, proc)
      {
        assert ps[k..][1..] == ps[k + 1..];
        ok := CallProc(ps[k], Opt, true);
        if !ok { return; }
      }
      return true;
    }

    /** next_arg. */
    method NextArg() returns (ok: bool)
      modifies `argctr
      ensures ok == (old(argctr) + 1 < |argv|) && argctr == old(argctr) + if ok then 1 else 0
    {
      if argctr + 1 >= |argv| { return false; }
      argctr := argctr + 1;
      return true;
    }

    /** process_one. */
    method ProcessOne(arg: string) returns (ok: bool)
      requires Valid() && argctr < |argv| && arg == argv[argctr]
      modifies this
      ensures Valid()
      ensures var r := old(One(State(), argv[argctr..], proc));
              ok == (r != None) && (ok ==> State() == r.value.0 && argctr + 1 == old(argctr) + r.value.1)
    {
      if nonopt > 0 || !(arg != "" && arg[0] == '-') {
        ok := CallProc(arg, NonOpt, false);
      } else if |arg| > 1 && arg[1] == 'o' {
        if |arg| > 2 {
          ok := ProcessGroup(arg[2..]);
        } else {
          ok := NextArg();
          if ok { ok := ProcessGroup(argv[argctr]); }
        }
      } else if arg == "--" {
        AddArg(arg);
        nonopt := |outargs|;
        ok := true;
      } else {
        ok := CallProc(arg, Opt, false);
      }
    }

    /** The end of opt_parse: the options go in front, and a last "--" goes. */
    method Close()
      requires Valid() && outargs != []
      modifies `outargs
      ensures outargs == Finish(old(State()))
    {
      ghost var out := outargs;
      if opts != None {
        InsertArg(1, "-o");
        InsertArg(2, opts.value);
        assert outargs == [out[0], "-o", opts.value] + out[1..];
      }
      var argc := |outargs|;
      if nonopt > 0 && nonopt == argc && outargs[argc - 1] == "--" {
        outargs := outargs[..argc - 1];
      }
    }

    /** opt_parse. */
    method Parse() returns (ok: bool)
      requires Valid() && argv != [] && argctr == 0 && State() == Sorted([], [], 0)
      modifies this
      ensures ok == (Parsed(argv, proc) != None)
      ensures ok ==> outargs == Parsed(argv, proc).value
    {
      hide One, Finish;
      AddArg(argv[0]);
      argctr := 1;
      assert State() == Sorted([argv[0]], [], 0);
      while argctr < |argv|
        invariant Valid() && 1 <= argctr <= |argv| && outargs != []
        invariant Process(State(), argv[argctr..], proc) == Process(Sorted([argv[0]], [], 0), argv[1..], proc)
        decreases |argv| - argctr
      {
        ghost var n := argctr;
        OneOut(State(), argv[n..], proc);
        ok := ProcessOne(argv[argctr]);
        if !ok { return; }
        argctr := argctr + 1;
        assert argv[n..][argctr - n..] == argv[argctr..];
      }
      Close();
      return true;
    }
  }
}
