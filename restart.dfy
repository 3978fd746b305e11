/**
 * `RestartUtils`: the command line that relaunches the server JVM. The JVM's
 * `java.home`, class path, `sun.java.command` property, input arguments and the
 * development-environment flag are parameters.
 */
module Restart {
  import opened Wrappers
  import opened Paths

  /** The failed `require(...)`: no main command, or an empty class path. */
  datatype RestartError = MainClassMissing | ClassPathEmpty

  /** A JVM argument that attaches an agent; such arguments are dropped in development. */
  predicate IsAgent(arg: string)
  {
    "-agentlib:" <= arg || "-javaagent:" <= arg
  }

  /** The arguments with every agent argument removed, the others in their order. */
  function Agentless(args: seq<string>): seq<string>
    decreases |args|
  {
    if args == [] then []
    else Agentless(args[..|args| - 1]) + (if IsAgent(args[|args| - 1]) then [] else [args[|args| - 1]])
  }

  /** An argument survives the removal exactly when it is not an agent argument. */
  lemma {:induction false} AgentlessMembers(args: seq<string>)
    ensures forall a :: a in Agentless(args) <==> a in args && !IsAgent(a)
    decreases |args|
  {
    if args != [] {
      var init := args[..|args| - 1];
      AgentlessMembers(init);
      assert args == init + [args[|args| - 1]];
    }
  }

  /** The removal works piecewise, so relative order is kept. */
  lemma {:induction false} AgentlessAppend(a: seq<string>, b: seq<string>)
    ensures Agentless(a + b) == Agentless(a) + Agentless(b)
    decreases |b|
  {
    if b != [] {
      var init := b[..|b| - 1];
      AgentlessAppend(a, init);
      var last := b[|b| - 1];
      var tail: seq<string> := if IsAgent(last) then [] else [last];
      assert (a + b)[..|a + b| - 1] == a + init;
      assert (a + b)[|a + b| - 1] == last;
      calc {
        Agentless(a + b);
        Agentless(a + init) + tail;
        (Agentless(a) + Agentless(init)) + tail;
        Agentless(a) + (Agentless(init) + tail);
        Agentless(a) + Agentless(b);
      }
    } else {
      assert a + b == a;
    }
  }

  /** Without agent arguments, nothing is removed. */
  lemma {:induction false} AgentlessNoAgents(args: seq<string>)
    requires forall i :: 0 <= i < |args| ==> !IsAgent(args[i])
    ensures Agentless(args) == args
    decreases |args|
  {
    if args != [] {
      AgentlessNoAgents(args[..|args| - 1]);
    }
  }

  /** `arguments.removeAll { it.startsWith("-agentlib:") || it.startsWith("-javaagent:") }`. */
  method RemoveAgents(args: seq<string>) returns (kept: seq<string>)
    ensures kept == Agentless(args)
  {
    kept := [];
    for i := 0 to |args|
      invariant kept == Agentless(args[..i])
    {
      assert args[..i + 1][..i] == args[..i];
      if !IsAgent(args[i]) {
        kept := kept + [args[i]];
      }
    }
    assert args[..|args|] == args;
  }

  /** The relaunch command: the JVM, its class path, the arguments, then the main command split on spaces. */
  function Command(jre: string, cp: string, args: seq<string>, mainClass: string): seq<string>
  {
    [jre, "-cp", cp] + args + Split(mainClass, ' ')
  }

  /** The command can be read back: the JVM, the class path, the arguments and the main command. */
  lemma CommandParts(jre: string, cp: string, args: seq<string>, mainClass: string)
    ensures var c := Command(jre, cp, args, mainClass);
      |c| > 3 + |args| && c[0] == jre && c[1] == "-cp" && c[2] == cp && c[3..3 + |args|] == args &&
      Join(c[3 + |args|..], ' ') == mainClass
  {
    var c := Command(jre, cp, args, mainClass);
    assert c[3 + |args|..] == Split(mainClass, ' ');
    assert c[3..3 + |args|] == args;
    SplitJoin(mainClass, ' ');
  }

  /**
   * The body shared by both generators: `require` a main command and a class path,
   * drop agent arguments in development, and build the list.
   */
  method Generate(jre: string, cp: string, mainClass: Option<string>, inputArgs: seq<string>, isDev: bool)
    returns (r: Result<seq<string>, RestartError>)
    ensures mainClass.None? || mainClass.value == [] <==> r == Failure(MainClassMissing)
    ensures mainClass.Some? && mainClass.value != [] && cp == [] <==> r == Failure(ClassPathEmpty)
    ensures r.Success? ==>
      r.value == Command(jre, cp, if isDev then Agentless(inputArgs) else inputArgs, mainClass.value)
  {
    if mainClass.None? || mainClass.value == [] {
      return Failure(MainClassMissing);
    }
    if cp == [] {
      return Failure(ClassPathEmpty);
    }
    var args := inputArgs;
    if isDev {
      args := RemoveAgents(args);
    }
    var command := [jre, "-cp", cp];
    command := command + args;
    command := command + Split(mainClass.value, ' ');
    r := Success(command);
  }

  /** `generateUnixRestartCommand`: the JVM is `java.home` + "/bin/java". */
  method UnixRestartCommand(javaHome: string, cp: string, mainClass: Option<string>, inputArgs: seq<string>, isDev: bool)
    returns (r: Result<seq<string>, RestartError>)
    ensures mainClass.None? || mainClass.value == [] <==> r == Failure(MainClassMissing)
    ensures mainClass.Some? && mainClass.value != [] && cp == [] <==> r == Failure(ClassPathEmpty)
    ensures r.Success? ==>
      r.value == Command(javaHome + "/bin/java", cp, if isDev then Agentless(inputArgs) else inputArgs, mainClass.value)
  {
    r := Generate(javaHome + "/bin/java", cp, mainClass, inputArgs, isDev);
  }

  /** `generateWindowsRestartCommand`: the JVM is `java.home` + "\bin\java.exe". */
  method WindowsRestartCommand(javaHome: string, cp: string, mainClass: Option<string>, inputArgs: seq<string>, isDev: bool)
    returns (r: Result<seq<string>, RestartError>)
    ensures mainClass.None? || mainClass.value == [] <==> r == Failure(MainClassMissing)
    ensures mainClass.Some? && mainClass.value != [] && cp == [] <==> r == Failure(ClassPathEmpty)
    ensures r.Success? ==>
      r.value == Command(javaHome + "\\bin\\java.exe", cp, if isDev then Agentless(inputArgs) else inputArgs, mainClass.value)
  {
    r := Generate(javaHome + "\\bin\\java.exe", cp, mainClass, inputArgs, isDev);
  }

  /** The two commands differ in their first word only. */
  lemma UnixWindowsDiffer(javaHome: string, cp: string, args: seq<string>, mainClass: string)
    ensures var u := Command(javaHome + "/bin/java", cp, args, mainClass);
      var w := Command(javaHome + "\\bin\\java.exe", cp, args, mainClass);
      |u| == |w| && u[1..] == w[1..] && u[0] != w[0]
  {
    var u := Command(javaHome + "/bin/java", cp, args, mainClass);
    var w := Command(javaHome + "\\bin\\java.exe", cp, args, mainClass);
    assert u[1..] == ["-cp", cp] + args + Split(mainClass, ' ') == w[1..];
    assert |u[0]| != |w[0]|;
  }
}
