// The shell's handling of one line: parse each command, wire it to its neighbours with pipes, then wait and close.

module ShellPipes {
  import opened ShellParser

  datatype InFlag = StIn | PrevPipe
  datatype OutFlag = StOut | ToPipe

  datatype ShellCommand = ShellCommand(args: Command, inFlag: InFlag, outFlag: OutFlag, input: int, output: int)

  // ----- file descriptors -----

  function From(open: set<int>, from: int): set<int> {
    set x | x in open && from <= x
  }

  /** The lowest free descriptor from `from` on, as pipe() hands them out. */
  function LowestFree(open: set<int>, from: int): (fd: int)
    ensures from <= fd && fd !in open
    ensures forall x :: from <= x < fd ==> x in open
    decreases From(open, from)
  {
    if from !in open then from
    else
      assert from in From(open, from) && from !in From(open, from + 1);
      LowestFree(open, from + 1)
  }

  /** A pipe's read end and write end. */
  type Pipe = (int, int)

  /** The read ends of the pipes from r on and the write ends of those from w on. */
  function Ends(pipes: seq<Pipe>, r: nat, w: nat): set<int> {
    (set k | 0 <= k < |pipes| && r <= k :: pipes[k].0) + (set k | 0 <= k < |pipes| && w <= k :: pipes[k].1)
  }

  /** No descriptor is an end of two pipes, or both ends of one. */
  ghost predicate Distinct(pipes: seq<Pipe>) {
    forall k, l :: 0 <= k < |pipes| && 0 <= l < |pipes| ==>
      pipes[k].0 != pipes[l].1 && (k != l ==> pipes[k].0 != pipes[l].0 && pipes[k].1 != pipes[l].1)
  }

  /** Command i of a pipeline writes to pipe i and reads from pipe i - 1, where there are such pipes. */
  ghost predicate Wired(cmds: seq<ShellCommand>, pipes: seq<Pipe>, more: bool) {
    && |pipes| == |cmds| - (if more || cmds == [] then 0 else 1)
    && forall i :: 0 <= i < |cmds| ==>
         && (cmds[i].inFlag == PrevPipe <==> i > 0)
         && (i > 0 ==> cmds[i].input == pipes[i - 1].0)
         && (cmds[i].outFlag == ToPipe <==> i < |pipes|)
         && (i < |pipes| ==> cmds[i].output == pipes[i].1)
  }

  /** In a wired line a writer and a reader hold the two ends of one pipe exactly when the reader comes next. */
  lemma OnlyNeighboursShareAPipe(cmds: seq<ShellCommand>, pipes: seq<Pipe>, i: nat, j: nat)
    requires Wired(cmds, pipes, false) && Distinct(pipes)
    requires i < |cmds| && j < |cmds| && cmds[i].outFlag == ToPipe && cmds[j].inFlag == PrevPipe
    ensures (cmds[j].input, cmds[i].output) in pipes <==> j == i + 1
  {
    if (cmds[j].input, cmds[i].output) in pipes {
      var k :| 0 <= k < |pipes| && pipes[k] == (cmds[j].input, cmds[i].output);
      assert pipes[j - 1].0 == pipes[k].0 && pipes[i].1 == pipes[k].1;
    }
    if j == i + 1 {
      assert pipes[i] == (cmds[j].input, cmds[i].output);
    }
  }

  function ArgsOf(cmds: seq<ShellCommand>): (r: seq<Command>)
    ensures |r| == |cmds|
  {
    seq(|cmds|, i requires 0 <= i < |cmds| => cmds[i].args)
  }

  /** One turn of the parsing: the next command's arguments and the line from there on. */
  method NextCommand(line: string) returns (args: Command, more: bool, rest: string, ghost todo: seq<Command>)
    requires Parsable(line)
    ensures (args, more) == SeparateArgs(line)
    ensures more && args != [] ==> TotalLength(args) + |args| - 1 <= |line| && rest == TrimLine(line, args)
    ensures Parse(line) == [args] + todo
    ensures more ==> |rest| < |line| && Parsable(rest) && todo == Parse(rest)
    ensures !more ==> todo == []
  {
    args, more := SeparateArgsOf(line);
    rest, todo := line, [];
    // Without arguments the line is used up and the loop ends, wherever trim_line moves the pointer.
    if args != [] {
      ParseStep(line);
      rest := TrimLineFrom(line, args);
      if more {
        todo := Parse(rest);
      }
    }
  }

  /** Where the command loop stands: the arguments `done` are parsed, those of `todo` are in `rest` of the line. */
  ghost predicate StillToParse(line: string, done: seq<Command>, more: bool, rest: string, todo: seq<Command>)
    requires Parsable(line)
  {
    && Parse(line) == done + todo
    && if more then Parsable(rest) && todo == Parse(rest) else todo == [] && done != []
  }

  lemma Regroup(done: seq<Command>, args: Command, later: seq<Command>)
    ensures done + ([args] + later) == (done + [args]) + later
  {
  }

  lemma WiredGrows(cmds: seq<ShellCommand>, pipes: seq<Pipe>, c: ShellCommand, pipes': seq<Pipe>, more: bool)
    requires Wired(cmds, pipes, true)
    requires if more then |pipes'| == |pipes| + 1 && pipes'[..|pipes|] == pipes else pipes' == pipes
    requires c.inFlag == (if cmds == [] then StIn else PrevPipe) && c.outFlag == (if more then ToPipe else StOut)
    requires cmds != [] ==> c.input == pipes[|pipes| - 1].0
    requires more ==> c.output == pipes'[|pipes|].1
    ensures Wired(cmds + [c], pipes', more)
  {
    assert forall i :: 0 <= i < |pipes| ==> pipes'[i] == pipes'[..|pipes|][i];
  }

  lemma EndsGrow(pipes: seq<Pipe>, p: Pipe)
    requires Distinct(pipes) && p.0 != p.1 && {p.0, p.1} !! Ends(pipes, 0, 0)
    ensures Ends(pipes + [p], 0, 0) == Ends(pipes, 0, 0) + {p.0, p.1}
    ensures Distinct(pipes + [p])
  {
    assert forall k :: 0 <= k < |pipes| ==> pipes[k].0 in Ends(pipes, 0, 0) && pipes[k].1 in Ends(pipes, 0, 0);
    var e, e' := Ends(pipes, 0, 0), Ends(pipes + [p], 0, 0);
    forall x | x in e ensures x in e' {
      if k :| 0 <= k < |pipes| && x == pipes[k].0 {
        assert (pipes + [p])[k].0 == x;
      } else {
        var k :| 0 <= k < |pipes| && x == pipes[k].1;
        assert (pipes + [p])[k].1 == x;
      }
    }
    assert (pipes + [p])[|pipes|] == p;
  }

  // The ends command i's turn gives up: its write end i, then its read end i - 1.
  lemma EndsDrop(pipes: seq<Pipe>, r: nat, w: nat)
    ensures w < |pipes| && Distinct(pipes) ==>
              pipes[w].1 in Ends(pipes, r, w) && Ends(pipes, r, w) - {pipes[w].1} == Ends(pipes, r, w + 1)
    ensures w >= |pipes| ==> Ends(pipes, r, w) == Ends(pipes, r, w + 1)
  {
  }

  lemma EndsShrink(pipes: seq<Pipe>, r: nat, w: nat)
    ensures r < |pipes| && Distinct(pipes) ==>
              pipes[r].0 in Ends(pipes, r, w + 1) && Ends(pipes, r, w + 1) - {pipes[r].0} == Ends(pipes, r + 1, w + 1)
  {
  }

  // ----- what the children inherit -----

  /** Command i is forked with what was open before and with both ends of every pipe made so far. */
  ghost predicate Forked(forks: seq<set<int>>, pipes: seq<Pipe>, before: set<int>) {
    && |pipes| <= |forks| <= |pipes| + 1
    && forall i :: 0 <= i < |forks| ==> forks[i] == before + Ends(pipes[..if i < |pipes| then i + 1 else i], 0, 0)
  }

  lemma ForkedGrows(forks: seq<set<int>>, pipes: seq<Pipe>, before: set<int>, open: set<int>, pipes': seq<Pipe>)
    requires |forks| == |pipes| && Forked(forks, pipes, before)
    requires pipes' == pipes || (|pipes'| == |pipes| + 1 && pipes'[..|pipes|] == pipes)
    requires open == before + Ends(pipes', 0, 0)
    ensures Forked(forks + [open], pipes', before)
  {
    forall i | 0 <= i < |forks|
      ensures forks[i] == before + Ends(pipes'[..if i < |pipes'| then i + 1 else i], 0, 0)
    {
      assert pipes'[..i + 1] == pipes[..i + 1];
    }
    assert pipes'[..|pipes'|] == pipes';
  }

  /**
   * A child closes nothing, so these are the descriptors it keeps. The write end of pipe k is held by exactly the
   * commands from k on: by its writer, but by its reader and all later commands too. A command that reads its input to
   * the end therefore never gets there.
   */
  lemma WriteEndHolders(forks: seq<set<int>>, pipes: seq<Pipe>, before: set<int>, k: nat, i: nat)
    requires Forked(forks, pipes, before) && Distinct(pipes) && before !! Ends(pipes, 0, 0)
    requires k < |pipes| && i < |forks|
    ensures pipes[k].1 in forks[i] <==> k <= i
  {
    var made := pipes[..if i < |pipes| then i + 1 else i];
    assert pipes[k].1 in Ends(pipes, 0, 0);
    if k <= i {
      assert made[k].1 == pipes[k].1;
    }
  }

  class Shell {
    var open: set<int>
    var pipefd: Pipe
    var prevPipefd: Pipe

    constructor (descriptors: set<int>)
      ensures open == descriptors
    {
      open, pipefd, prevPipefd := descriptors, (-1, -1), (-1, -1);
    }

    /** The commands started so far are wired by `pipes`, whose ends are open besides the descriptors of `before`. */
    ghost predicate Wiring(cmds: seq<ShellCommand>, pipes: seq<Pipe>, more: bool, before: set<int>)
      reads this
    {
      && Wired(cmds, pipes, more) && Distinct(pipes)
      && (more && pipes != [] ==> prevPipefd == pipes[|pipes| - 1])
      && open == before + Ends(pipes, 0, 0) && before !! Ends(pipes, 0, 0)
    }

    // pipe(): two fresh descriptors, the lowest free ones.
    method MakePipe()
      modifies this`open, this`pipefd
      ensures pipefd.0 != pipefd.1 && pipefd.0 !in old(open) && pipefd.1 !in old(open)
      ensures open == old(open) + {pipefd.0, pipefd.1}
    {
      var r := LowestFree(open, 0);
      var w := LowestFree(open + {r}, 0);
      pipefd := (r, w);
      open := open + {r, w};
    }

    // close(): only ever of an open descriptor.
    method Close(fd: int)
      requires fd in open
      modifies this`open
      ensures open == old(open) - {fd}
    {
      open := open - {fd};
    }

    // set_pipes
    method SetPipes(c: ShellCommand) returns (c': ShellCommand)
      modifies this
      ensures c' == c.(input := if c.inFlag == PrevPipe then old(prevPipefd).0 else c.input,
                       output := if c.outFlag == ToPipe then pipefd.1 else c.output)
      ensures c.outFlag == StOut ==> open == old(open) && prevPipefd == old(prevPipefd)
      ensures c.outFlag == ToPipe ==>
                && prevPipefd == pipefd
                && pipefd.0 != pipefd.1 && pipefd.0 !in old(open) && pipefd.1 !in old(open)
                && open == old(open) + {pipefd.0, pipefd.1}
    {
      c' := c;
      if c.inFlag == PrevPipe {
        c' := c'.(input := prevPipefd.0);
      }
      if c.outFlag == ToPipe {
        MakePipe();
        c' := c'.(output := pipefd.1);
        prevPipefd := pipefd;
      }
    }

    // set_command_io_flags and set_pipes for the next command of the line.
    method AddCommand(cmds: seq<ShellCommand>, args: Command, more: bool,
                      ghost pipes: seq<Pipe>, ghost before: set<int>)
      returns (cmds': seq<ShellCommand>, ghost pipes': seq<Pipe>)
      requires Wiring(cmds, pipes, true, before)
      modifies this
      ensures Wiring(cmds', pipes', more, before)
      ensures ArgsOf(cmds') == ArgsOf(cmds) + [args]
      ensures if more then |pipes'| == |pipes| + 1 && pipes'[..|pipes|] == pipes else pipes' == pipes
    {
      var c := ShellCommand(args, if |cmds| == 0 then StIn else PrevPipe, if more then ToPipe else StOut, -1, -1);
      c := SetPipes(c);
      cmds' := cmds + [c];
      pipes' := if more then pipes + [pipefd] else pipes;
      WiredGrows(cmds, pipes, c, pipes', more);
      if more {
        EndsGrow(pipes, pipefd);
      }
      assert ArgsOf(cmds') == ArgsOf(cmds) + [args];
    }

    /** The command loop of shell_start: parse, wire and start every command of the line. */
    method StartCommands(line: string)
      returns (cmds: seq<ShellCommand>, ghost pipes: seq<Pipe>, ghost forks: seq<set<int>>)
      requires Startable(line)
      modifies this
      ensures cmds != [] && ArgsOf(cmds) == Parse(line)
      ensures Wiring(cmds, pipes, false, old(open))
      ensures |forks| == |cmds| && Forked(forks, pipes, old(open))
    {
      cmds, pipes, forks := [], [], [];
      var rest, more := line, true;
      ghost var todo := Parse(line);
      while more
        invariant Wiring(cmds, pipes, more, old(open))
        invariant |forks| == |cmds| && Forked(forks, pipes, old(open))
        invariant StillToParse(line, ArgsOf(cmds), more, rest, todo)
        decreases more, |rest|
      {
        var args;
        ghost var done, pipes0 := ArgsOf(cmds), pipes;
        args, more, rest, todo := NextCommand(rest);
        Regroup(done, args, todo);
        cmds, pipes := AddCommand(cmds, args, more, pipes, old(open));
        ForkedGrows(forks, pipes0, old(open), open, pipes);
        forks := forks + [open];
      }
    }

    /** The wait loop of shell_start: the parent closes the ends it kept for each command. */
    method WaitCommands(cmds: seq<ShellCommand>, ghost pipes: seq<Pipe>, ghost before: set<int>)
      requires cmds != [] && Wiring(cmds, pipes, false, before)
      modifies this`open
      ensures open == before
    {
      for i := 0 to |cmds|
        invariant open == before + Ends(pipes, if i == 0 then 0 else i - 1, i)
      {
        ghost var r := if i == 0 then 0 else i - 1;
        EndsDrop(pipes, r, i);
        EndsShrink(pipes, r, i);
        if cmds[i].outFlag == ToPipe {
          Close(cmds[i].output);
        }
        if cmds[i].inFlag == PrevPipe {
          Close(cmds[i].input);
        }
      }
    }

    /**
     * One line of the shell, of at most as many commands as the array has room for. `quit_shell` ends it. Otherwise
     * the commands are those the line spells; neighbours share one pipe each and nobody else does; every child keeps
     * what it was forked with; afterwards exactly the descriptors open before are open in the shell.
     */
    method RunLine(line: string)
      returns (quit: bool, cmds: seq<ShellCommand>, ghost pipes: seq<Pipe>, ghost forks: seq<set<int>>)
      requires Startable(line) && |Parse(line)| <= 10
      modifies this
      ensures quit <==> line == "quit_shell"
      ensures quit ==> cmds == [] && pipes == [] && forks == [] && unchanged(this)
      ensures !quit ==>
                && |cmds| == |Parse(line)| == |pipes| + 1
                && forall i :: 0 <= i < |cmds| ==>
                     && cmds[i].args == Parse(line)[i]
                     && (if i == 0 then cmds[i].inFlag == StIn
                         else cmds[i].inFlag == PrevPipe && cmds[i].input == pipes[i - 1].0)
                     && (if i == |cmds| - 1 then cmds[i].outFlag == StOut
                         else cmds[i].outFlag == ToPipe && cmds[i].output == pipes[i].1)
      ensures forall k, l :: 0 <= k < |pipes| && 0 <= l < |pipes| ==>
                pipes[k].0 != pipes[l].1 && (k != l ==> pipes[k].0 != pipes[l].0 && pipes[k].1 != pipes[l].1)
      ensures !quit ==> |forks| == |cmds| && Forked(forks, pipes, old(open))
      ensures Ends(pipes, 0, 0) !! old(open) && open == old(open)
    {
      quit := line == "quit_shell";
      if quit {
        cmds, pipes, forks := [], [], [];
      } else {
        cmds, pipes, forks := StartCommands(line);
        assert forall i :: 0 <= i < |cmds| ==> cmds[i].args == ArgsOf(cmds)[i];
        WaitCommands(cmds, pipes, old(open));
      }
    }
  }
}
