/**
 * Project2/shell.c, main and exec: a line at the prompt, down to its processes.
 */
module CommandLine {
  import opened Basics
  import opened Tokenizer
  import opened History
  import opened Splitter
  import opened Wiring
  import opened Shell

  /** The size of the buffer that a quoted second token is copied through. */
  const QUOTE_BUFFER: nat := 500

  predicate IsBuiltIn(word: string) { word in {"history", "cd", "num_jobs", "setenv"} }

  /**
   * A second token that begins with the quote loses its first and its last
   * character. A lone quote makes the source write in front of its buffer, and
   * a long token behind it.
   */
  function Unquote(ws: seq<string>, quote: char): Option<seq<string>> {
    if |ws| > 1 && ws[1] != "" && ws[1][0] == quote then
      if 1 < |ws[1]| <= QUOTE_BUFFER then Some(ws[1 := ws[1][1..|ws[1]| - 1]]) else None
    else Some(ws)
  }

  /** First for double quotes, then for single ones. */
  function Unquoted(ws: seq<string>): Option<seq<string>> {
    match Unquote(ws, '"')
    case None => None
    case Some(once) => Unquote(once, '\'')
  }

  lemma UnquotedKeeps(ws: seq<string>)
    requires Unquoted(ws).Some?
    ensures var args := Unquoted(ws).value; |args| == |ws| && forall k :: 0 <= k < |ws| && k != 1 ==> args[k] == ws[k]
  {
  }

  /** The token array that exec gets: the tokens, their NULL, and what the uninitialised array held behind it. */
  function Slots(args: seq<string>, stack: seq<Option<string>>): seq<Option<string>>
    requires |args| < |stack|
  {
    seq(|args|, k requires 0 <= k < |args| => Some(args[k])) + [None] + stack[|args| + 1..]
  }

  lemma SlotsHold(args: seq<string>, stack: seq<Option<string>>)
    requires |args| < |stack|
    ensures UpToNull(Slots(args, stack)) == args && |Slots(args, stack)| == |stack|
  {
    UpToNullIs(Slots(args, stack), args);
  }

  /** The line that exec parses. */
  function ExecLine(args: seq<string>, stack: seq<Option<string>>, env: string -> Option<string>): seq<string>
    requires |args| < |stack|
  {
    SlotsHold(args, stack);
    SubstitutedLine(Slots(args, stack), env)
  }

  /** What main does with the words that a turn left; Nothing includes the built-in commands. */
  datatype Fate = Nothing | Exits | Crashes | Starts(line: seq<string>)

  /** A line that reaches the end of the token array without a NULL is read past it. */
  function FateOf(run: seq<string>, stack: seq<Option<string>>, env: string -> Option<string>): Fate
    requires |run| < |stack|
  {
    if run == [] then Nothing
    else if run[0] == "exit" then Exits
    else
      match Unquoted(run)
      case None => Crashes
      case Some(args) =>
        UnquotedKeeps(run);
        if IsBuiltIn(run[0]) then Nothing
        else if |ExecLine(args, stack, env)| < |stack| then Starts(ExecLine(args, stack, env))
        else Crashes
  }

  predicate NoPipeAtEnd(cs: seq<Command>) { cs != [] && !cs[|cs| - 1].pipe }

  lemma NoPipeAtEndCons(c: Command, cs: seq<Command>)
    requires NoPipeAtEnd(cs)
    ensures NoPipeAtEnd([c] + cs)
  {
    assert ([c] + cs)[|cs|] == cs[|cs| - 1];
  }

  /** The commands end with one that feeds no pipe. */
  lemma {:induction false} CommandsEnd(ts: seq<string>, stale: Option<string>)
    ensures NoPipeAtEnd(Commands(ts, stale))
    decreases |ts|
  {
    var e := NextOperator(ts, 0);
    if e < |ts| {
      CommandsEnd(ts[e + 1..], stale);
      NoPipeAtEndCons(CommandAt(ts, e, stale), Commands(ts[e + 1..], stale));
    }
  }

  // ----- exec -----

  /** The processes of the line ts, started by process pid: the first forked one becomes the last stage. */
  ghost predicate Started(before: map<nat, Stage>, after: map<nat, Stage>, child: nat, forked: nat,
                          stages: seq<Stage>)
  {
    && AreWired(after, child + 1, forked, child, stages)
    && (forall q :: q in before ==> q < child && q in after && after[q] == before[q])
    && (forall q :: q in after ==> q in before || child <= q <= child + forked)
  }

  /** exec, given the array of tokens: parse it, fork, and let the child build the pipeline. */
  method Exec(k: Kernel, pid: nat, tokens: array<Option<string>>, env: string -> Option<string>, stale: Option<string>,
              openOk: bool) returns (child: nat, ghost forked: nat)
    requires k.Valid() && pid in k.procs && k.procs[pid].program == None
    requires tokens.Length > 1 && 0 < |UpToNull(tokens[..])| < tokens.Length
    requires |SubstitutedLine(tokens[..], env)| < tokens.Length
    modifies k, tokens
    ensures k.Valid() && child == old(k.nextPid)
    ensures var ts := SubstitutedLine(old(tokens[..]), env);
            Started(old(k.procs), k.procs, child, forked,
                    WireWith(k.faults, old(k.procs)[pid].table, Commands(ts, stale), old(k.pipes), openOk))
  {
    var cmds := ParseTokens(tokens, env, stale);
    ghost var before := k.procs;
    child := k.Fork(pid);
    ghost var stages := WireWith(k.faults, before[pid].table, cmds, k.pipes, openOk);
    forked := k.ExecutePipeline(child, cmds, openOk);
    ForkedIsStarted(before, k.procs, pid, child, forked, stages);
  }

  /** A fork and the pipeline built by the child start the stages. */
  lemma ForkedIsStarted(before: map<nat, Stage>, after: map<nat, Stage>, pid: nat, child: nat, forked: nat,
                        stages: seq<Stage>)
    requires pid in before && forall q :: q in before ==> q < child
    requires AreWired(after, child + 1, forked, child, stages)
    requires OthersKept(before[child := before[pid]], after, child, child + 1)
    requires forall q :: q in after ==> q < child + 1 + forked
    ensures Started(before, after, child, forked, stages)
  {
  }

  /** The commands that execute_pipeline is given. */
  method ParseTokens(tokens: array<Option<string>>, env: string -> Option<string>, stale: Option<string>)
    returns (cs: seq<Command>)
    requires tokens.Length > 1 && 0 < |UpToNull(tokens[..])| < tokens.Length
    requires |SubstitutedLine(tokens[..], env)| < tokens.Length
    modifies tokens
    ensures cs == Commands(SubstitutedLine(old(tokens[..]), env), stale) != [] && !cs[|cs| - 1].pipe
  {
    CommandsEnd(SubstitutedLine(tokens[..], env), stale);
    var cmds := new Command[tokens.Length](_ => NO_COMMAND);
    var count := ParseLine(tokens, env, cmds, stale);
    cs := cmds[..count];
  }

  // ----- A line at the prompt -----

  /** Process pid of stage k, when child was forked first and the others after it. */
  function PidOf(child: nat, k: nat, n: nat): nat { if k + 1 < n then child + 1 + k else child }

  /** Every |-separated part of the line runs in its own process, wired to its neighbours. */
  ghost predicate LineRuns(procs: map<nat, Stage>, child: nat, ts: seq<string>, t: Table, n: nat, openOk: bool)
    requires STDIN in t && STDOUT in t
  {
    var parts, file := Split(ts[..FirstRedirect(ts)]), RedirectTarget(ts);
    forall k {:trigger PidOf(child, k, |parts|)} :: 0 <= k < |parts| ==>
      PartRuns(procs, PidOf(child, k, |parts|), parts, file, t, n, openOk, k)
  }

  /** Process p runs part k of the line. */
  ghost predicate PartRuns(procs: map<nat, Stage>, p: nat, parts: seq<seq<string>>, file: Option<string>, t: Table,
                           n: nat, openOk: bool, k: nat)
    requires STDIN in t && STDOUT in t && k < |parts|
  {
    && p in procs
    && procs[p].program == (if k == |parts| - 1 && file.Some? && !openOk then None else Some(parts[k]))
    && StageOk(procs[p].table, t, n, k, |parts| - 1, if file.Some? && openOk then File(file.value) else t[STDOUT])
  }

  lemma StartedRuns(before: map<nat, Stage>, after: map<nat, Stage>, child: nat, forked: nat, ts: seq<string>,
                    stale: Option<string>, t: Table, n: nat, openOk: bool)
    requires ExactLine(ts) && STDIN in t && STDOUT in t && forall fd :: fd in t ==> !PipeEnd(t[fd])
    requires Started(before, after, child, forked, Wire(t, Commands(ts, stale), n, openOk))
    ensures LineRuns(after, child, ts, t, n, openOk)
  {
    var stages, parts := Wire(t, Commands(ts, stale), n, openOk), Split(ts[..FirstRedirect(ts)]);
    forall k | 0 <= k < |parts|
      ensures PartRuns(after, PidOf(child, k, |parts|), parts, RedirectTarget(ts), t, n, openOk, k)
    {
      LineIsWired(ts, stale, t, n, openOk, k);
      assert k < forked ==> Runs(after, child + 1 + k, stages[k]);
    }
  }

  /** A turn leaves fewer words than the array has slots. */
  lemma TurnFits(words: string -> seq<string>, log: seq<string>, numCmds: int, line: string, garbage: string)
    requires Splits(words)
    ensures var r := Turn(words, log, numCmds, line, garbage); r.Prompt? ==> |r.run| < MAX_TOKENS
  {
  }

  /** What the line did to the processes. */
  ghost predicate Served(fate: Fate, faults: nat -> Fault, before: map<nat, Stage>, after: map<nat, Stage>, pid: nat,
                         child: nat, forked: nat, stale: Option<string>, n: nat, openOk: bool)
    requires pid in before
  {
    if fate.Starts? then
      Started(before, after, child, forked, WireWith(faults, before[pid].table, Commands(fate.line, stale), n, openOk))
    else after == before
  }

  /**
   * One line at the prompt of process pid: it is split, expanded and recorded,
   * stripped of quotes, substituted, parsed, and turned into processes. What
   * the uninitialised buffers, the environment and the kernel hold are
   * parameters.
   */
  method RunLine(bash: Bash, k: Kernel, pid: nat, line: string, garbage: string, stack: seq<Option<string>>,
                 env: string -> Option<string>, stale: Option<string>, openOk: bool)
    returns (fate: Fate, child: nat, ghost forked: nat)
    requires bash.Valid() && NUL !in line && NUL !in garbage && |stack| == MAX_TOKENS
    requires k.Valid() && pid in k.procs && k.procs[pid].program == None
    modifies bash, bash.ring, bash.ring.history, k
    ensures fate != Crashes ==> bash.Valid()
    ensures match Turn(Words, old(bash.ring.log), old(bash.numCmds), line, garbage)
            case Crash => fate == Crashes
            case Prompt(log, n, run) => |run| < MAX_TOKENS && fate == FateOf(run, stack, env)
                                        && bash.ring.log == log && bash.numCmds == n
    ensures k.Valid() && pid in k.procs && k.procs[pid] == old(k.procs)[pid]
    ensures Served(fate, k.faults, old(k.procs), k.procs, pid, child, forked, stale, old(k.pipes), openOk)
  {
    WordsSplit();
    TurnFits(Words, bash.ring.log, bash.numCmds, line, garbage);
    fate, child, forked := Crashes, 0, 0;
    var ok, run := bash.HandleLine(line, garbage);
    if ok {
      fate, child, forked := RunWords(k, pid, run, stack, env, stale, openOk);
    }
  }

  /** main, behind the history: built-in commands, quotes, exec. */
  method RunWords(k: Kernel, pid: nat, run: seq<string>, stack: seq<Option<string>>, env: string -> Option<string>,
                  stale: Option<string>, openOk: bool) returns (fate: Fate, child: nat, ghost forked: nat)
    requires |run| < |stack| && |stack| > 1 && k.Valid() && pid in k.procs && k.procs[pid].program == None
    modifies k
    ensures fate == FateOf(run, stack, env)
    ensures k.Valid() && pid in k.procs && k.procs[pid] == old(k.procs)[pid]
    ensures Served(fate, k.faults, old(k.procs), k.procs, pid, child, forked, stale, old(k.pipes), openOk)
  {
    fate, child, forked := FateOf(run, stack, env), 0, 0;
    if fate.Starts? {
      UnquotedKeeps(run);
      var args := Unquoted(run).value;
      SlotsHold(args, stack);
      var tokens := new Option<string>[|stack|](i requires 0 <= i < |stack| => Slots(args, stack)[i]);
      assert tokens[..] == Slots(args, stack);
      child, forked := Exec(k, pid, tokens, env, stale, openOk);
    }
  }

  /**
   * So, when spawning works, a line whose operators stand alone runs each of
   * its parts in a process of its own, wired to its neighbours.
   */
  lemma ServedRuns(ts: seq<string>, faults: nat -> Fault, before: map<nat, Stage>, after: map<nat, Stage>, pid: nat,
                   child: nat, forked: nat, stale: Option<string>, n: nat, openOk: bool)
    requires pid in before && Served(Starts(ts), faults, before, after, pid, child, forked, stale, n, openOk)
    requires ExactLine(ts) && forall m :: n <= m < n + |Commands(ts, stale)| ==> faults(m).Works?
    requires var t := before[pid].table; STDIN in t && STDOUT in t && forall fd :: fd in t ==> !PipeEnd(t[fd])
    ensures LineRuns(after, child, ts, before[pid].table, n, openOk)
  {
    WorkingWire(faults, before[pid].table, Commands(ts, stale), n, openOk);
    StartedRuns(before, after, child, forked, ts, stale, before[pid].table, n, openOk);
  }

  /** No process has an end of a pipe numbered n or higher. */
  ghost predicate PipesBelow(procs: map<nat, Stage>, n: nat) {
    forall q, m: nat :: q in procs && m >= n ==> !Holds(procs[q].table, WriteEnd(m))
  }

  /**
   * And of all processes there are, exactly the one of part i can write into
   * pipe i: the next part sees end-of-file once that process is gone.
   */
  lemma WriterAlone(ts: seq<string>, before: map<nat, Stage>, after: map<nat, Stage>, child: nat, forked: nat,
                    stale: Option<string>, t: Table, n: nat, openOk: bool, i: nat, q: nat)
    requires ExactLine(ts) && STDIN in t && STDOUT in t && forall fd :: fd in t ==> !PipeEnd(t[fd])
    requires Started(before, after, child, forked, Wire(t, Commands(ts, stale), n, openOk)) && PipesBelow(before, n)
    requires i + 1 < |Split(ts[..FirstRedirect(ts)])| && q in after
    ensures Holds(after[q].table, WriteEnd(n + i)) <==> q == PidOf(child, i, |Split(ts[..FirstRedirect(ts)])|)
  {
    var stages := Wire(t, Commands(ts, stale), n, openOk);
    LineIsWired(ts, stale, t, n, openOk, i);
    if q !in before {
      var k := if q == child then forked else q - child - 1;
      LineIsWired(ts, stale, t, n, openOk, k);
      assert k < forked ==> Runs(after, child + 1 + k, stages[k]);
    }
  }
}
