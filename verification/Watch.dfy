/** Watch mode: the loops of main and of run_session that obey the UI's commands. */
module Watch {
  import opened IpcServer

  /** How far a session is: its main loop runs, it has found the trigger file and may poll once
      more in the same round, or it polls no more. */
  datatype Phase = Active | LastRound | Over

  /** Where the main thread is. */
  datatype Site =
    | Top                        // while (g_running)
    | IdlePoll                   // poll, then test g_watch_enabled
    | Test
    | InSession(phase: Phase)    // run_session
    | RetryTest(round: nat)      // the wait before another session: test the flags,
    | RetryPoll(round: nat)      // poll
    | Left

  const RETRY_ROUNDS := 6

  datatype State = State(
    gRunning: bool,
    enabled: bool,               // g_watch_enabled
    site: Site,
    polls: seq<Command>,         // history: everything ipc_server_poll has returned
    started: seq<bool>)          // history: g_watch_enabled at the start of each session

  const INITIAL := State(true, false, Top, [], [])

  /** A step of the main thread, with what the environment answers, or an outside event. */
  datatype Action =
    | Go                         // the next test of a flag
    | Poll(cmd: Command)         // a poll, at whichever of the three sites
    | EndSession(again: bool)    // run_session returns 0 or 1
    | StopTrigger                // the trigger file is found during a session
    | Signal

  predicate Enabled(s: State, a: Action) {
    match a
    case Go => s.site == Top || s.site == Test || s.site.RetryTest?
    case Poll(_) => s.site == IdlePoll || (s.site.InSession? && s.site.phase != Over) || s.site.RetryPoll?
    case EndSession(_) => s.site.InSession?
    case StopTrigger => s.site == InSession(Active)
    case Signal => s.site != Left
  }

  /** What each of the three sites does with a command. A session's loop goes on only while both
      its own flag and g_running stand. */
  function OnPoll(s: State, cmd: Command): State {
    var enabled := if cmd == Enable then true else if cmd == Disable then false else s.enabled;
    var t := s.(polls := s.polls + [cmd], enabled := enabled);
    match s.site
    case InSession(phase) =>
      t.(site := InSession(if phase == Active && s.gRunning && cmd != Stop && cmd != Disable then Active else Over))
    case RetryPoll(i) => t.(site := RetryTest(i + 1))
    case _ => t.(site := Test)
  }

  function Next(s: State, a: Action): State {
    match a
    case Go =>
      (match s.site
       case Top => s.(site := if s.gRunning then IdlePoll else Left)
       case Test =>
         if s.enabled then s.(site := InSession(Active), started := s.started + [s.enabled]) else s.(site := Top)
       case RetryTest(i) => s.(site := if i < RETRY_ROUNDS && s.gRunning && s.enabled then RetryPoll(i) else Top)
       case _ => s)
    case Poll(cmd) => OnPoll(s, cmd)
    case EndSession(again) => s.(site := if again && s.gRunning then RetryTest(0) else Top)
    case StopTrigger => s.(gRunning := false, site := InSession(LastRound))
    case Signal => s.(gRunning := false)
  }

  predicate Possible(s: State, acts: seq<Action>) {
    acts == [] || (Possible(s, acts[..|acts| - 1]) && Enabled(Run(s, acts[..|acts| - 1]), acts[|acts| - 1]))
  }

  function Run(s: State, acts: seq<Action>): State {
    if acts == [] then s else Next(Run(s, acts[..|acts| - 1]), acts[|acts| - 1])
  }

  lemma RunSnoc(s: State, acts: seq<Action>, a: Action)
    ensures Possible(s, acts + [a]) <==> Possible(s, acts) && Enabled(Run(s, acts), a)
    ensures Run(s, acts + [a]) == Next(Run(s, acts), a)
  {
    hide Enabled, Next;
    assert (acts + [a])[..|acts|] == acts;
  }

  /** The commands that the polls of a run returned. */
  function Commands(acts: seq<Action>): seq<Command> {
    if acts == [] then []
    else
      var before, last := Commands(acts[..|acts| - 1]), acts[|acts| - 1];
      if last.Poll? then before + [last.cmd] else before
  }

  lemma CommandsSnoc(acts: seq<Action>, a: Action)
    ensures Commands(acts + [a]) == if a.Poll? then Commands(acts) + [a.cmd] else Commands(acts)
  {
    assert (acts + [a])[..|acts|] == acts;
  }

  // ---- What the UI asked for ----

  /** The last enable or disable among the commands; disabled if there was none. */
  function Wanted(polls: seq<Command>): bool {
    if polls == [] then false
    else
      match polls[|polls| - 1]
      case Enable => true
      case Disable => false
      case _ => Wanted(polls[..|polls| - 1])
  }

  lemma WantedSnoc(polls: seq<Command>, c: Command)
    ensures Wanted(polls + [c]) == if c == Enable then true else if c == Disable then false else Wanted(polls)
  {
    assert (polls + [c])[..|polls|] == polls;
  }

  predicate Obeys(s: State) {
    && s.enabled == Wanted(s.polls)
    && forall i :: 0 <= i < |s.started| ==> s.started[i]
  }

  /** In every state of every run, auto-connect is on exactly if the last enable or disable that a
      poll returned, at any of the three sites, was an enable; and every session was started with
      it on. */
  lemma {:induction false} ObeysCommands(acts: seq<Action>)
    requires Possible(INITIAL, acts)
    ensures Obeys(Run(INITIAL, acts))
  {
    if acts != [] {
      var n := |acts| - 1;
      ObeysCommands(acts[..n]);
      var s := Run(INITIAL, acts[..n]);
      if acts[n].Poll? {
        WantedSnoc(s.polls, acts[n].cmd);
      }
    }
  }

  /** g_running falls exactly if a signal arrives or the trigger file is found: no sequence of
      commands ends the daemon. */
  lemma {:induction false} OnlySignalsEndTheDaemon(acts: seq<Action>)
    requires Possible(INITIAL, acts)
    ensures !Run(INITIAL, acts).gRunning <==> Signal in acts || StopTrigger in acts
    ensures Run(INITIAL, acts).site == Left ==> Signal in acts || StopTrigger in acts
  {
    if acts != [] {
      var n := |acts| - 1;
      OnlySignalsEndTheDaemon(acts[..n]);
      assert acts == acts[..n] + [acts[n]];
    }
  }

  lemma {:induction false} PossiblePrefix(acts: seq<Action>, n: nat)
    requires Possible(INITIAL, acts) && n <= |acts|
    ensures Possible(INITIAL, acts[..n])
  {
    hide Enabled;
    if n < |acts| {
      PossiblePrefix(acts[..|acts| - 1], n);
      assert acts[..|acts| - 1][..n] == acts[..n];
    } else {
      assert acts[..n] == acts;
    }
  }

  /** The state in which the n-th step of a run is taken. */
  function Before(acts: seq<Action>, n: nat): State
    requires n <= |acts|
  {
    Run(INITIAL, acts[..n])
  }

  lemma StepAt(acts: seq<Action>, n: nat)
    requires Possible(INITIAL, acts) && n < |acts|
    ensures Enabled(Before(acts, n), acts[n]) && Before(acts, n + 1) == Next(Before(acts, n), acts[n])
  {
    hide Enabled, Next;
    PossiblePrefix(acts, n + 1);
    assert acts[..n + 1] == acts[..n] + [acts[n]];
    RunSnoc(INITIAL, acts[..n], acts[n]);
  }

  /** The i-th step is a poll in a session that returns stop or disable. */
  predicate Told(acts: seq<Action>, i: nat) {
    i < |acts| && Before(acts, i).site.InSession? && (acts[i] == Poll(Stop) || acts[i] == Poll(Disable))
  }

  lemma {:induction false} OverStays(acts: seq<Action>, i: nat, n: nat)
    requires Possible(INITIAL, acts) && Told(acts, i) && i < n <= |acts|
    requires forall j :: i < j < n ==> !acts[j].EndSession?
    ensures Before(acts, n).site == InSession(Over)
  {
    hide Before, Run, Possible;
    StepAt(acts, n - 1);
    if n - 1 > i {
      OverStays(acts, i, n - 1);
    }
  }

  /** In every run, a session that was told to stop or to disable polls no more: before the next
      poll the session has ended. */
  lemma NoPollUntilSessionEnds(acts: seq<Action>, i: nat, k: nat)
    requires Possible(INITIAL, acts) && Told(acts, i) && i < k < |acts| && acts[k].Poll?
    ensures exists j :: i < j < k && acts[j].EndSession?
  {
    hide Before, Run, Possible, Told;
    if forall j :: i < j < k ==> !acts[j].EndSession? {
      OverStays(acts, i, k);
      StepAt(acts, k);
    }
  }

  /** What each step of a run leads to. Whether auto-connect is on is said by the commands that the
      polls have returned. */
  lemma LoopShape(acts: seq<Action>, k: nat)
    requires Possible(INITIAL, acts) && k < |acts|
    ensures
      var s, t, wanted := Before(acts, k), Before(acts, k + 1), Wanted(Before(acts, k).polls);
      match acts[k]
      case Go =>
        (match s.site
         case Top => t.site == if s.gRunning then IdlePoll else Left
         case Test => t.site == if wanted then InSession(Active) else Top
         case RetryTest(i) => t.site == if i < 6 && s.gRunning && wanted then RetryPoll(i) else Top
         case _ => false)
      case Poll(cmd) =>
        && t.polls == s.polls + [cmd]
        && (match s.site
            case IdlePoll => t.site == Test
            case RetryPoll(i) => t.site == RetryTest(i + 1)
            case InSession(phase) =>
              var goesOn := phase == Active && s.gRunning && cmd != Stop && cmd != Disable;
              t.site == InSession(if goesOn then Active else Over)
            case _ => false)
      case EndSession(again) =>
        s.site.InSession? && t.site == if again && s.gRunning then RetryTest(0) else Top
      case StopTrigger => !t.gRunning && s.site == InSession(Active) && t.site == InSession(LastRound)
      case Signal => !t.gRunning && t.site == s.site
  {
    hide Before, Run, Possible, Wanted;
    StepAt(acts, k);
    EnabledIsWanted(acts, k);
  }

  lemma EnabledIsWanted(acts: seq<Action>, k: nat)
    requires Possible(INITIAL, acts) && k <= |acts|
    ensures Before(acts, k).enabled == Wanted(Before(acts, k).polls)
  {
    hide Run, Possible, Wanted;
    PossiblePrefix(acts, k);
    ObeysCommands(acts[..k]);
  }

  /** How many idle polls of a run were followed by a wish for auto-connect. */
  function SessionsDue(acts: seq<Action>): nat {
    if acts == [] then 0
    else
      var before, last := acts[..|acts| - 1], acts[|acts| - 1];
      SessionsDue(before)
      + if last.Poll? && Run(INITIAL, before).site == IdlePoll && Wanted(Run(INITIAL, acts).polls) then 1 else 0
  }

  /** The sessions started, and the one about to be. */
  function SessionsOf(s: State): nat {
    |s.started| + if s.site == Test && s.enabled then 1 else 0
  }

  lemma SessionStep(s: State, a: Action)
    requires Enabled(s, a)
    ensures SessionsOf(Next(s, a)) ==
            SessionsOf(s) + if a.Poll? && s.site == IdlePoll && Next(s, a).enabled then 1 else 0
  {
  }

  /** Exactly one session starts for each of them. */
  lemma {:induction false} SessionsStarted(acts: seq<Action>)
    requires Possible(INITIAL, acts)
    ensures
      var t := Run(INITIAL, acts);
      |t.started| + (if t.site == Test && t.enabled then 1 else 0) == SessionsDue(acts)
  {
    hide Next, Enabled, Wanted;
    if acts != [] {
      var before, last := acts[..|acts| - 1], acts[|acts| - 1];
      SessionsStarted(before);
      SessionStep(Run(INITIAL, before), last);
      ObeysCommands(acts);
    }
  }

  /** The globals of main, and the three poll sites as the code writes them. The ghost field
      follows the state of the model. */
  class Daemon {
    var gRunning: bool
    var watchEnabled: bool
    ghost var state: State

    ghost predicate Valid()
      reads this
    {
      state.gRunning == gRunning && state.enabled == watchEnabled
    }

    constructor ()
      ensures Valid() && state == INITIAL
    {
      gRunning, watchEnabled := true, false;
      state := INITIAL;
    }

    /** A signal may arrive between any two steps of the main thread. */
    method Interrupt(arrives: bool)
      requires Valid() && state.site != Left
      modifies this`gRunning, this`state
      ensures Valid() && state == if arrives then Next(old(state), Signal) else old(state)
    {
      if arrives {
        gRunning := false;
        state := Next(state, Signal);
      }
    }

    /** The idle loop. */
    method OnIdleCommand(cmd: Command)
      requires Valid() && state.site == IdlePoll
      modifies this`watchEnabled, this`state
      ensures Valid() && state == Next(old(state), Poll(cmd))
    {
      if cmd == Disable {
        watchEnabled := false;
      } else if cmd == Enable {
        watchEnabled := true;
      } else if cmd == Stop {
      }
      state := Next(state, Poll(cmd));
    }

    /** The trigger file is found in the main loop of a session. */
    method OnTrigger() returns (running: bool)
      requires Valid() && state.site == InSession(Active)
      modifies this`gRunning, this`state
      ensures Valid() && state == Next(old(state), StopTrigger) && !running
    {
      gRunning := false;
      running := false;
      state := Next(state, StopTrigger);
    }

    /** The commands of a session in watch mode, in the same round of its loop; the flag is the
        session's own. */
    method OnSessionCommand(cmd: Command, running: bool) returns (still: bool)
      requires Valid() && state.site == InSession(if running then Active else LastRound)
      modifies this`watchEnabled, this`state
      ensures Valid() && state == Next(old(state), Poll(cmd))
      ensures state.site == InSession(if still && gRunning then Active else Over)
    {
      still := running;
      if cmd == Stop || cmd == Disable {
        still := false;
        if cmd == Disable {
          watchEnabled := false;
        }
      } else if cmd == Enable {
        watchEnabled := true;
      }
      state := Next(state, Poll(cmd));
    }

    /** One round of the wait: the flags have just been tested. */
    method RetryRound(cmd: Command, beforePoll: bool, ghost s0: State, ghost acts0: seq<Action>)
        returns (ghost acts: seq<Action>)
      requires Valid() && state.site.RetryTest? && state.site.round < RETRY_ROUNDS && gRunning && watchEnabled
      requires Leads(s0, acts0, state)
      modifies this
      ensures Valid() && state.site == RetryTest(old(state.site.round) + 1)
      ensures Leads(s0, acts, state) && Commands(acts) == Commands(acts0) + [cmd]
    {
      hide Leads, Commands;
      acts := Extended(s0, acts0, state, true, Go);
      state := Next(state, Go);
      acts := Extended(s0, acts, state, beforePoll, Signal);
      Interrupt(beforePoll);
      acts := Extended(s0, acts, state, true, Poll(cmd));
      if cmd == Disable {
        watchEnabled := false;
      } else if cmd == Enable {
        watchEnabled := true;
      }
      state := Next(state, Poll(cmd));
    }

    /** The wait before another session: up to six rounds, unless a flag falls. Signals may arrive
        before each test of the flags, and between the test and the poll. The wait is a run of
        the machine whose polls return the commands of its rounds. */
    method WaitToRetry(cmds: seq<Command>, beforeTest: seq<bool>, beforePoll: seq<bool>)
        returns (rounds: nat, ghost acts: seq<Action>)
      requires Valid() && state.site == RetryTest(0)
      requires |cmds| == |beforePoll| == RETRY_ROUNDS && |beforeTest| == RETRY_ROUNDS + 1
      modifies this
      ensures Valid() && state.site == Top && rounds <= RETRY_ROUNDS
      ensures Leads(old(state), acts, state) && Commands(acts) == cmds[..rounds]
      ensures rounds == RETRY_ROUNDS || !gRunning || !watchEnabled
    {
      hide Leads, Commands;
      rounds, acts := 0, [];
      ghost var s0 := state;
      NoSteps(s0);
      assert cmds[..0] == [];
      acts := Extended(s0, acts, state, beforeTest[0], Signal);
      Interrupt(beforeTest[0]);
      while rounds < RETRY_ROUNDS && gRunning && watchEnabled
        invariant Valid() && rounds <= RETRY_ROUNDS && state.site == RetryTest(rounds)
        invariant Leads(s0, acts, state) && Commands(acts) == cmds[..rounds]
      {
        acts := RetryRound(cmds[rounds], beforePoll[rounds], s0, acts);
        rounds := rounds + 1;
        acts := Extended(s0, acts, state, beforeTest[rounds], Signal);
        Interrupt(beforeTest[rounds]);
      }
      acts := Extended(s0, acts, state, true, Go);
      state := Next(state, Go);
    }
  }

  /** The actions can be taken from s and lead to t. */
  predicate Leads(s: State, acts: seq<Action>, t: State) {
    Possible(s, acts) && Run(s, acts) == t
  }

  lemma NoSteps(s: State)
    ensures Leads(s, [], s) && Commands([]) == []
  {
  }

  /** A run with one more step, if it is taken. */
  ghost method Extended(s: State, acts: seq<Action>, t: State, taken: bool, a: Action) returns (more: seq<Action>)
    requires Leads(s, acts, t) && (taken ==> Enabled(t, a))
    ensures Leads(s, more, if taken then Next(t, a) else t)
    ensures Commands(more) == if taken && a.Poll? then Commands(acts) + [a.cmd] else Commands(acts)
  {
    hide Next, Enabled;
    RunSnoc(s, acts, a);
    CommandsSnoc(acts, a);
    more := if taken then acts + [a] else acts;
  }
}
