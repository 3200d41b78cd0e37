/** The process executor (src/executor.rs): how a script string becomes the
    argument vector of `sh -c`, and the operating system as an oracle.

    Spawning and waiting are not modelled as processes: a `Host` records every
    invocation it is asked for, in order, and answers each from its `oracle`,
    which may depend on everything spawned before. */
module Executor {
  import opened Wrappers
  import opened Seqs

  // ---------------------------------------------------------------------
  // Splitting and joining strings
  // ---------------------------------------------------------------------

  /** `s.split(sep)`: the pieces between separators, empty ones kept. */
  function Split(s: string, sep: char): (parts: seq<string>)
    ensures |parts| >= 1
    decreases |s|
  {
    if s == [] then [[]]
    else if s[0] == sep then [[]] + Split(s[1..], sep)
    else
      var rest := Split(s[1..], sep);
      [[s[0]] + rest[0]] + rest[1..]
  }

  /** `parts.join(sep)`. */
  function Join(parts: seq<string>, sep: string): string
    decreases |parts|
  {
    if parts == [] then []
    else if |parts| == 1 then parts[0]
    else parts[0] + sep + Join(parts[1..], sep)
  }

  /** There is one piece more than there are separators, and no piece holds
      a separator. */
  lemma {:induction false} SplitPieces(s: string, sep: char)
    ensures |Split(s, sep)| == Count(s, sep) + 1
    ensures forall k :: 0 <= k < |Split(s, sep)| ==> sep !in Split(s, sep)[k]
    decreases |s|
  {
    if s != [] {
      SplitPieces(s[1..], sep);
      if s[0] != sep {
        var rest := Split(s[1..], sep);
        assert sep !in [s[0]] + rest[0];
      }
    }
  }

  /** Joining the pieces with the separator gives the string back. */
  lemma {:induction false} JoinSplit(s: string, sep: char)
    ensures Join(Split(s, sep), [sep]) == s
    decreases |s|
  {
    if s != [] {
      var rest := Split(s[1..], sep);
      JoinSplit(s[1..], sep);
      if s[0] == sep {
        assert Split(s, sep) == [[]] + rest;
        assert ([[]] + rest)[1..] == rest;
        assert Join([[]] + rest, [sep]) == [] + [sep] + Join(rest, [sep]);
        assert s == [sep] + s[1..];
      } else {
        var parts := Split(s, sep);
        assert parts[0] == [s[0]] + rest[0] && parts[1..] == rest[1..];
        if |rest| == 1 {
          assert rest == [rest[0]];
          assert Join(rest, [sep]) == rest[0];
        } else {
          assert rest == [rest[0]] + rest[1..];
          assert Join(rest, [sep]) == rest[0] + [sep] + Join(rest[1..], [sep]);
        }
        assert s == [s[0]] + s[1..];
      }
    }
  }

  /** The other direction: pieces without separators split back out of
      their join. */
  lemma {:induction false} SplitJoin(parts: seq<string>, sep: char)
    requires |parts| >= 1
    requires forall k :: 0 <= k < |parts| ==> sep !in parts[k]
    ensures Split(Join(parts, [sep]), sep) == parts
    decreases |parts|, |parts[0]|
  {
    var p := parts[0];
    if p == [] {
      if |parts| == 1 {
      } else {
        var tail := Join(parts[1..], [sep]);
        assert Join(parts, [sep]) == [sep] + tail;
        assert ([sep] + tail)[1..] == tail;
        SplitJoin(parts[1..], sep);
        assert parts == [[]] + parts[1..];
      }
    } else {
      var shorter := [p[1..]] + parts[1..];
      assert sep !in p[1..] by {
        forall k | 0 <= k < |p[1..]| ensures p[1..][k] != sep { assert p[1..][k] == p[k + 1]; }
      }
      assert forall k :: 0 <= k < |shorter| ==> sep !in shorter[k] by {
        forall k | 0 <= k < |shorter| ensures sep !in shorter[k] {
          if k > 0 { assert shorter[k] == parts[k]; }
        }
      }
      SplitJoin(shorter, sep);
      var j := Join(parts, [sep]);
      var js := Join(shorter, [sep]);
      if |parts| == 1 {
        assert j == p && js == p[1..];
      } else {
        assert shorter[1..] == parts[1..];
        assert j == p + [sep] + Join(parts[1..], [sep]);
        assert js == p[1..] + [sep] + Join(parts[1..], [sep]);
      }
      assert j == [p[0]] + js;
      assert j[0] == p[0] && j[1..] == js;
      assert p == [p[0]] + p[1..] && parts == [p] + parts[1..];
      assert p[0] != sep;
      assert parts == [[p[0]] + shorter[0]] + shorter[1..];
    }
  }

  // ---------------------------------------------------------------------
  // The command line handed to the shell
  // ---------------------------------------------------------------------

  /** The text that `exec` passes after `-c`: the executable followed by the
      arguments, joined with single spaces. */
  function CommandLine(executable: string, args: seq<string>): string
  {
    Join([executable] + args, " ")
  }

  /** Each argument contributes a space and itself. */
  function Spaced(args: seq<string>): string
    decreases |args|
  {
    if args == [] then [] else " " + args[0] + Spaced(args[1..])
  }

  /** `new(exe, args)`'s command line is `exe`, then `" " + a` per argument. */
  lemma {:induction false} CommandLineSpaced(executable: string, args: seq<string>)
    ensures CommandLine(executable, args) == executable + Spaced(args)
    decreases |args|
  {
    if args == [] {
      assert [executable] + args == [executable];
    } else {
      CommandLineSpaced(args[0], args[1..]);
      assert ([executable] + args)[1..] == [args[0]] + args[1..];
      assert [args[0]] + args[1..] == args;
    }
  }

  /** A script run through `From`: the empty executable puts a space in
      front of the script, which otherwise comes back unchanged. */
  lemma ScriptCommandLine(script: string)
    ensures CommandLine("", Split(script, ' ')) == " " + script
  {
    var parts := Split(script, ' ');
    JoinSplit(script, ' ');
    assert ([""] + parts)[1..] == parts;
    assert CommandLine("", parts) == "" + " " + Join(parts, " ");
  }

  /** The repository's test: `new("ls", ["/"])` runs `ls /`. */
  lemma ListRootExample()
    ensures CommandLine("ls", ["/"]) == "ls /"
  {
    CommandLineSpaced("ls", ["/"]);
    assert Spaced(["/"]) == " " + "/" + Spaced([]);
  }

  // ---------------------------------------------------------------------
  // The operating system, as seen by the core
  // ---------------------------------------------------------------------

  /** One `Command` as spawned: program, arguments, working directory and
      whether standard output is piped. */
  datatype Invocation = Invocation(program: string, args: seq<string>, dir: string, stdoutPiped: bool)

  /** How spawning and then waiting for a process ended: the spawn failed,
      collecting the status failed, or the process exited with `code`
      (absent when a signal ended it). */
  datatype Outcome = SpawnFailed | WaitFailed | Exited(code: Option<int>)

  /** Unix `ExitStatus::success`. */
  predicate Succeeded(o: Outcome)
  {
    o == Exited(Some(0))
  }

  type Oracle = (seq<Invocation>, Invocation) -> Outcome

  /** The invocation `exec` spawns for a given command line. */
  function ShellInvocation(commandLine: string, dir: string): Invocation
  {
    Invocation("sh", ["-c", commandLine], dir, true)
  }

  /** The processes spawned so far, and how the next one will end. */
  class Host {
    const oracle: Oracle
    var trace: seq<Invocation>

    constructor (oracle: Oracle)
      ensures this.oracle == oracle && trace == []
    {
      this.oracle := oracle;
      trace := [];
    }

    /** Spawn `inv` and wait for it. */
    method Run(inv: Invocation) returns (o: Outcome)
      modifies this
      ensures trace == old(trace) + [inv]
      ensures o == oracle(old(trace), inv)
    {
      o := oracle(trace, inv);
      trace := trace + [inv];
    }
  }

  // ---------------------------------------------------------------------
  // Executor
  // ---------------------------------------------------------------------

  class Executor {
    var executable: string
    var args: seq<string>
    var currentDir: string

    /** `Executor::new`. */
    constructor New(executable: string, args: seq<string>)
      ensures this.executable == executable && this.args == args && currentDir == ""
    {
      this.executable := executable;
      this.args := args;
      currentDir := "";
    }

    /** `Executor::from`: the script split on every single space; the
        executable and the working directory stay empty. */
    constructor From(script: string)
      ensures executable == "" && args == Split(script, ' ') && currentDir == ""
    {
      executable := "";
      args := Split(script, ' ');
      currentDir := "";
    }

    /** `current_dir`: replaces the working directory and nothing else. */
    method SetCurrentDir(dir: string)
      modifies this
      ensures currentDir == dir
      ensures executable == old(executable) && args == old(args)
    {
      currentDir := dir;
    }

    /** The command `exec` builds: `sh` with exactly `-c` and the command
        line, in the working directory, with standard output piped. */
    method Command() returns (inv: Invocation)
      ensures inv.program == "sh" && inv.args == ["-c", CommandLine(executable, args)]
      ensures inv.dir == currentDir && inv.stdoutPiped
    {
      var argv := [executable];
      argv := argv + args;
      inv := Invocation("sh", ["-c", Join(argv, " ")], currentDir, true);
    }

    /** `exec` followed by the caller's `wait`. */
    method Exec(host: Host) returns (o: Outcome)
      modifies host
      ensures host.trace == old(host.trace) + [ShellInvocation(CommandLine(executable, args), currentDir)]
      ensures o == host.oracle(old(host.trace), ShellInvocation(CommandLine(executable, args), currentDir))
    {
      var inv := Command();
      o := host.Run(inv);
    }
  }
}
