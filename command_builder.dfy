/** `cmd_builder` of ctxflow/utils.py: renders a program name, positional
    arguments and a flag dictionary as one shell command line, without any
    quoting. */
module CommandBuilder {
  import opened Wrappers
  import opened Text

  /** A value of the flag dictionary, as the callers use it: nothing (`None`),
      a presence flag (`bool`), one scalar (`str`) or a repeated flag (`list`). */
  datatype FlagValue = Absent | Bool(b: bool) | Str(s: string) | List(items: seq<string>)

  /** The flag dictionary's items in insertion order (the order in which
      `dict.items()` yields them). */
  type Flags = seq<(string, FlagValue)>

  const PrintLogs: string := "--print-logs"

  /** Python truthiness of a flag value: `None`, `False`, `""` and `[]` are false. */
  predicate Truthy(v: FlagValue)
  {
    match v
    case Absent => false
    case Bool(b) => b
    case Str(s) => s != ""
    case List(items) => items != []
  }

  /** The words ` flag v` contributes once for each element `v` of a list. */
  function RepeatedWords(flag: string, items: seq<string>): seq<string>
  {
    if items == [] then [] else [flag, items[0]] + RepeatedWords(flag, items[1..])
  }

  /** The words one dictionary entry contributes to the command line. */
  function FlagWords(flag: string, v: FlagValue): seq<string>
  {
    if !Truthy(v) then []
    else match v
      case Bool(_) => [flag]
      case List(items) => RepeatedWords(flag, items)
      case Str(s) => [flag, s]
      case Absent => []
  }

  function FlagsWords(flags: Flags): seq<string>
  {
    if flags == [] then [] else FlagWords(flags[0].0, flags[0].1) + FlagsWords(flags[1..])
  }

  function Args(cmds: Option<seq<string>>): seq<string>
  {
    match cmds
    case None => []
    case Some(cs) => cs
  }

  function FlagItems(flags: Option<Flags>): Flags
  {
    match flags
    case None => []
    case Some(fs) => fs
  }

  /** The words of the command line: the program, the positional arguments,
      the rendered flags, and `--print-logs` unless excluded. */
  function Words(prog: string, cmds: Option<seq<string>>, flags: Option<Flags>, excludeLogs: bool): seq<string>
  {
    [prog] + Args(cmds) + FlagsWords(FlagItems(flags)) + (if excludeLogs then [] else [PrintLogs])
  }

  /** The command line: its words joined by single spaces. */
  function Command(prog: string, cmds: Option<seq<string>>, flags: Option<Flags>, excludeLogs: bool): string
  {
    Join(Words(prog, cmds, flags, excludeLogs), " ")
  }

  /** `cmd_builder(prog, cmds, flags, exclude_logs)`: grows the string one
      ` word` at a time, as the source does. */
  method CmdBuilder(prog: string, cmds: Option<seq<string>>, flags: Option<Flags>, excludeLogs: bool)
    returns (x: string)
    ensures x == Command(prog, cmds, flags, excludeLogs)
  {
    ghost var head := [prog] + Args(cmds);
    x := AppendArgs(prog, Args(cmds));
    if flags.Some? && flags.value != [] {
      x := AppendFlags(x, head, flags.value);
    } else {
      assert head + FlagsWords(FlagItems(flags)) == head;
    }
    ghost var done := head + FlagsWords(FlagItems(flags));
    if !excludeLogs {
      JoinSnoc(done, PrintLogs, " ");
      x := x + " " + PrintLogs;
    } else {
      assert done + [] == done;
    }
  }

  /** The loop over `flags.items()`: appends what each entry contributes, in
      insertion order. */
  method AppendFlags(x0: string, ghost head: seq<string>, fs: Flags) returns (x: string)
    requires |head| >= 1 && x0 == Join(head, " ")
    ensures x == Join(head + FlagsWords(fs), " ")
  {
    x := x0;
    assert head + FlagsWords(fs[..0]) == head;
    for j := 0 to |fs|
      invariant x == Join(head + FlagsWords(fs[..j]), " ")
    {
      x := AppendFlag(x, head + FlagsWords(fs[..j]), fs[j].0, fs[j].1);
      FlagsStep(head, fs, j);
    }
    assert fs[..|fs|] == fs;
  }

  lemma FlagsStep(head: seq<string>, fs: Flags, j: int)
    requires 0 <= j < |fs|
    ensures head + FlagsWords(fs[..j]) + FlagWords(fs[j].0, fs[j].1) == head + FlagsWords(fs[..j + 1])
  {
    FlagsWordsSnoc(fs[..j], fs[j]);
    assert fs[..j + 1] == fs[..j] + [fs[j]];
  }

  lemma FlagsWordsSnoc(a: Flags, f: (string, FlagValue))
    ensures FlagsWords(a + [f]) == FlagsWords(a) + FlagWords(f.0, f.1)
  {
    FlagsWordsAppend(a, [f]);
    assert FlagsWords([f]) == FlagWords(f.0, f.1) + FlagsWords([]);
  }

  /** The loop over the positional arguments: appends ` c` for each. */
  method AppendArgs(prog: string, cs: seq<string>) returns (x: string)
    ensures x == Join([prog] + cs, " ")
  {
    ghost var done: seq<string> := [prog];
    x := prog;
    for i := 0 to |cs|
      invariant done == [prog] + cs[..i]
      invariant x == Join(done, " ")
    {
      JoinSnoc(done, cs[i], " ");
      assert cs[..i + 1] == cs[..i] + [cs[i]];
      x := x + " " + cs[i];
      done := done + [cs[i]];
    }
    assert cs[..|cs|] == cs;
  }

  /** One step of the loop over `flags.items()`: appends what one entry
      contributes to the command being built. */
  method AppendFlag(x: string, ghost done: seq<string>, flag: string, val: FlagValue) returns (y: string)
    requires |done| >= 1 && x == Join(done, " ")
    ensures y == Join(done + FlagWords(flag, val), " ")
  {
    y := x;
    if Truthy(val) {
      match val {
        case Bool(_) =>
          JoinSnoc(done, flag, " ");
          y := y + " " + flag;
        case List(items) =>
          ghost var cur := done;
          for k := 0 to |items|
            invariant cur == done + RepeatedWords(flag, items[..k])
            invariant y == Join(cur, " ")
          {
            JoinSnoc(cur, flag, " ");
            JoinSnoc(cur + [flag], items[k], " ");
            RepeatedWordsSnoc(flag, items[..k], items[k]);
            assert items[..k + 1] == items[..k] + [items[k]];
            y := y + " " + flag + " " + items[k];
            cur := cur + [flag] + [items[k]];
          }
          assert items[..|items|] == items;
        case Str(s) =>
          JoinSnoc(done, flag, " ");
          JoinSnoc(done + [flag], s, " ");
          y := y + " " + flag + " " + s;
          assert done + [flag] + [s] == done + [flag, s];
      }
    } else {
      assert done + [] == done;
    }
  }

  lemma {:induction false} RepeatedWordsSnoc(flag: string, items: seq<string>, v: string)
    ensures RepeatedWords(flag, items + [v]) == RepeatedWords(flag, items) + [flag, v]
  {
    if items != [] {
      assert (items + [v])[1..] == items[1..] + [v];
      RepeatedWordsSnoc(flag, items[1..], v);
    }
  }

  /** Flags are rendered in insertion order: the words of two consecutive
      runs of dictionary entries are the words of each, one after the other. */
  lemma {:induction false} FlagsWordsAppend(a: Flags, b: Flags)
    ensures FlagsWords(a + b) == FlagsWords(a) + FlagsWords(b)
  {
    if a == [] {
      assert a + b == b;
    } else {
      assert (a + b)[0] == a[0];
      assert (a + b)[1..] == a[1..] + b;
      FlagsWordsAppend(a[1..], b);
    }
  }

  /** A list value of n elements renders ` flag v` exactly n times, in
      element order. */
  lemma {:induction false} ListFlagRepeats(flag: string, items: seq<string>)
    ensures |RepeatedWords(flag, items)| == 2 * |items|
    ensures forall i :: 0 <= i < |items| ==>
      RepeatedWords(flag, items)[2 * i] == flag && RepeatedWords(flag, items)[2 * i + 1] == items[i]
  {
    if items != [] {
      ListFlagRepeats(flag, items[1..]);
      var rest := RepeatedWords(flag, items[1..]);
      assert RepeatedWords(flag, items) == [flag, items[0]] + rest;
      forall i | 1 <= i < |items|
        ensures RepeatedWords(flag, items)[2 * i] == flag && RepeatedWords(flag, items)[2 * i + 1] == items[i]
      {
        assert rest[2 * (i - 1)] == flag && rest[2 * (i - 1) + 1] == items[1..][i - 1];
      }
    }
  }

  /** A falsy value contributes nothing, wherever it stands in the dictionary. */
  lemma FalsyFlagSilent(prog: string, cmds: Option<seq<string>>, before: Flags, flag: string, v: FlagValue,
                        after: Flags, excludeLogs: bool)
    requires !Truthy(v)
    ensures Command(prog, cmds, Some(before + [(flag, v)] + after), excludeLogs)
         == Command(prog, cmds, Some(before + after), excludeLogs)
  {
    FlagsWordsAppend(before + [(flag, v)], after);
    FlagsWordsAppend(before, [(flag, v)]);
    FlagsWordsAppend(before, after);
    assert FlagsWords([(flag, v)]) == [];
    assert FlagsWords(before + [(flag, v)]) == FlagsWords(before);
  }

  /** `--print-logs` is appended, as the last word, exactly when it is not
      excluded. */
  lemma PrintLogsLast(prog: string, cmds: Option<seq<string>>, flags: Option<Flags>)
    ensures Command(prog, cmds, flags, false) == Command(prog, cmds, flags, true) + " " + PrintLogs
  {
    var ws := Words(prog, cmds, flags, true);
    assert Words(prog, cmds, flags, false) == ws + [PrintLogs];
    JoinSnoc(ws, PrintLogs, " ");
  }

  lemma {:induction false} JoinAppend(a: seq<string>, b: seq<string>, sep: string)
    requires |a| >= 1
    ensures Join(a + b, sep) == if b == [] then Join(a, sep) else Join(a, sep) + sep + Join(b, sep)
    decreases |b|
  {
    if b == [] {
      assert a + b == a;
    } else {
      var c := b[..|b| - 1];
      assert a + b == (a + c) + [b[|b| - 1]];
      assert b == c + [b[|b| - 1]];
      JoinSnoc(a + c, b[|b| - 1], sep);
      JoinAppend(a, c, sep);
      if c != [] {
        JoinSnoc(c, b[|b| - 1], sep);
      }
    }
  }

  /** The command starts with the program followed by ` c` for each
      positional argument in order; no arguments (`None` or empty) add nothing. */
  lemma CommandStartsWithArgs(prog: string, cmds: Option<seq<string>>, flags: Option<Flags>, excludeLogs: bool)
    ensures Join([prog] + Args(cmds), " ") <= Command(prog, cmds, flags, excludeLogs)
    ensures (cmds.None? || cmds.value == []) ==> Join([prog] + Args(cmds), " ") == prog
  {
    var rest := FlagsWords(FlagItems(flags)) + (if excludeLogs then [] else [PrintLogs]);
    assert Words(prog, cmds, flags, excludeLogs) == ([prog] + Args(cmds)) + rest;
    JoinAppend([prog] + Args(cmds), rest, " ");
  }

  /** The rendering does no quoting. Splitting the command line on spaces
      gives back exactly its words only when no word contains a space. */
  lemma RenderSplitsIntoWords(prog: string, cmds: Option<seq<string>>, flags: Option<Flags>, excludeLogs: bool)
    requires forall i :: 0 <= i < |Words(prog, cmds, flags, excludeLogs)| ==> ' ' !in Words(prog, cmds, flags, excludeLogs)[i]
    ensures Split(Command(prog, cmds, flags, excludeLogs), " ") == Words(prog, cmds, flags, excludeLogs)
  {
    SplitJoin(Words(prog, cmds, flags, excludeLogs), ' ');
  }
}
