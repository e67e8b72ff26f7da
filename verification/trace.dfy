/**
 Finite traces of the events the daemon sees: broker callbacks and main-loop
 passes, interleaved as atomic steps. `Run` threads the control state through
 a trace and collects the effects in order.
 */
module Trace {
  import opened Registry
  import opened Control

  datatype Event =
    | Message(topic: string, payload: string)
    | Connected(rc: int)
    | Disconnected(rc: int)
    | Pass

  function Apply(s: State, e: Event): (r: Step)
  {
    match e
    case Message(t, p) => OnMessage(s, t, p)
    case Connected(rc) => OnConnect(s, rc)
    case Disconnected(rc) => OnDisconnect(s, rc)
    case Pass => Tick(s)
  }

  /** Threads a state through a trace with any step function, collecting effects in order. */
  function Fold(step: (State, Event) -> Step, s: State, evs: seq<Event>): (r: Step)
    decreases |evs|
  {
    if |evs| == 0 then Step(s, [])
    else
      var first := step(s, evs[0]);
      var rest := Fold(step, first.state, evs[1..]);
      Step(rest.state, first.effects + rest.effects)
  }

  /** The daemon's run over a trace: the fold of its own four steps. */
  function Run(s: State, evs: seq<Event>): (r: Step)
  {
    Fold(Apply, s, evs)
  }

  /** A command that starts a fresh mode entry: a known mode name on the mode topic. */
  predicate IsEntry(e: Event) {
    e.Message? && e.topic == ModeTopic && e.payload in Modes
  }

  predicate NoEntry(evs: seq<Event>) {
    forall i :: 0 <= i < |evs| ==> !IsEntry(evs[i])
  }

  /** Traces of connection changes and loop passes only: nothing selects a mode. */
  predicate NoMessage(evs: seq<Event>) {
    forall i :: 0 <= i < |evs| ==> !evs[i].Message?
  }

  /** Each name sent as a command on the mode topic and followed by one loop pass. */
  function CommandsWithPasses(names: seq<string>): (evs: seq<Event>)
    ensures |evs| == 2 * |names|
  {
    if |names| == 0 then []
    else [Message(ModeTopic, names[0]), Pass] + CommandsWithPasses(names[1..])
  }

  function Passes(n: nat): (evs: seq<Event>)
    ensures |evs| == n
    ensures forall i :: 0 <= i < n ==> evs[i] == Pass
  {
    if n == 0 then [] else [Pass] + Passes(n - 1)
  }

  // ----- Reference definitions, read from the END of a trace -----

  /** The connection flag as the last callback that decided it left it. */
  function ConnectivityAfter(c: bool, evs: seq<Event>): (connected: bool)
  {
    if |evs| == 0 then c
    else
      match evs[|evs| - 1]
      case Connected(rc) => rc == 0
      case Disconnected(rc) =>
        if rc != 0 then false else ConnectivityAfter(c, evs[..|evs| - 1])
      case _ => ConnectivityAfter(c, evs[..|evs| - 1])
  }

  /** The mode named by the last command on the mode topic, or the default for an unknown name. */
  function SelectedMode(m: int, evs: seq<Event>): (mode: int)
  {
    if |evs| == 0 then m
    else
      var e := evs[|evs| - 1];
      if e.Message? && e.topic == ModeTopic then
        match IndexOf(Modes, e.payload)
        case Some(i) => i
        case None => DefaultMode
      else SelectedMode(m, evs[..|evs| - 1])
  }

  /** Whether a mode entry is still waiting for its first loop pass. */
  function PendingEntry(f: bool, evs: seq<Event>): (pending: bool)
  {
    if |evs| == 0 then f
    else
      var e := evs[|evs| - 1];
      if e.Pass? then false
      else if IsEntry(e) then true
      else PendingEntry(f, evs[..|evs| - 1])
  }

  // ----- Effect observers distribute over concatenation -----

  lemma {:induction false} StatePayloadsAppend(a: seq<Effect>, b: seq<Effect>)
    ensures StatePayloads(a + b) == StatePayloads(a) + StatePayloads(b)
  {
    if |a| > 0 {
      assert (a + b)[1..] == a[1..] + b;
      StatePayloadsAppend(a[1..], b);
    } else {
      assert a + b == b;
    }
  }

  lemma {:induction false} RendersAppend(a: seq<Effect>, b: seq<Effect>)
    ensures Renders(a + b) == Renders(a) + Renders(b)
  {
    if |a| > 0 {
      assert (a + b)[1..] == a[1..] + b;
      RendersAppend(a[1..], b);
    } else {
      assert a + b == b;
    }
  }

  lemma {:induction false} ClearsAppend(a: seq<Effect>, b: seq<Effect>)
    ensures Clears(a + b) == Clears(a) + Clears(b)
  {
    if |a| > 0 {
      assert (a + b)[1..] == a[1..] + b;
      ClearsAppend(a[1..], b);
    } else {
      assert a + b == b;
    }
  }

  /** Folding over two traces back to back is folding over their concatenation. */
  lemma {:induction false} FoldAppend(step: (State, Event) -> Step, s: State, a: seq<Event>, b: seq<Event>)
    ensures Fold(step, s, a + b).state == Fold(step, Fold(step, s, a).state, b).state
    ensures Fold(step, s, a + b).effects == Fold(step, s, a).effects + Fold(step, Fold(step, s, a).state, b).effects
    decreases |a|
  {
    if |a| == 0 {
      assert a + b == b;
    } else {
      assert (a + b)[0] == a[0];
      assert (a + b)[1..] == a[1..] + b;
      FoldAppend(step, step(s, a[0]).state, a[1..], b);
    }
  }

  lemma RunAppend(s: State, a: seq<Event>, b: seq<Event>)
    ensures Run(s, a + b).state == Run(Run(s, a).state, b).state
    ensures Run(s, a + b).effects == Run(s, a).effects + Run(Run(s, a).state, b).effects
  {
    FoldAppend(Apply, s, a, b);
  }

  lemma RunOne(s: State, e: Event)
    ensures Run(s, [e]).state == Apply(s, e).state
    ensures Run(s, [e]).effects == Apply(s, e).effects
  {
    var first := Apply(s, e);
    assert [e][1..] == [];
    assert Fold(Apply, first.state, []) == Step(first.state, []);
    assert first.effects + [] == first.effects;
  }

  lemma RunSnoc(s: State, evs: seq<Event>, e: Event)
    ensures Run(s, evs + [e]).state == Apply(Run(s, evs).state, e).state
    ensures Run(s, evs + [e]).effects == Run(s, evs).effects + Apply(Run(s, evs).state, e).effects
  {
    RunAppend(s, evs, [e]);
    RunOne(Run(s, evs).state, e);
  }

  lemma RunTwo(s: State, e1: Event, e2: Event)
    ensures Run(s, [e1, e2]).state == Apply(Apply(s, e1).state, e2).state
    ensures Run(s, [e1, e2]).effects == Apply(s, e1).effects + Apply(Apply(s, e1).state, e2).effects
  {
    RunSnoc(s, [e1], e2);
    assert [e1] + [e2] == [e1, e2];
    RunOne(s, e1);
  }

  /** A non-empty sequence is its head followed by its tail. */
  lemma HeadTail<T>(xs: seq<T>)
    requires |xs| > 0
    ensures [xs[0]] + xs[1..] == xs
  {
  }

  /** Two leading elements can be split off one at a time. */
  lemma PairThen<T>(x: T, y: T, zs: seq<T>)
    ensures [x, y] + zs == [x] + ([y] + zs)
  {
  }

  // ----- Properties of traces -----

  /**
   Once the mode is a registered one, no sequence of callbacks and loop
   passes can take it out of the registry; in particular every state
   reachable from start-up has a valid mode.
   */
  lemma {:induction false} ModeStaysValid(s: State, evs: seq<Event>)
    requires ValidMode(s.mode)
    ensures ValidMode(Run(s, evs).state.mode)
    decreases |evs|
  {
    if |evs| > 0 {
      var e := evs[0];
      if e.Message? && e.topic == ModeTopic && e.payload !in Modes {
        DispatchCoversRegistry(DefaultMode);
      }
      ModeStaysValid(Apply(s, e).state, evs[1..]);
    }
  }

  lemma ReachableModesValid(evs: seq<Event>)
    ensures ValidMode(Run(Init, evs).state.mode)
  {
    DispatchCoversRegistry(DefaultMode);
    ModeStaysValid(Init, evs);
  }

  /**
   Between two mode entries the state topic carries at most one message,
   and none at all if the entry has already had its pass.
   */
  lemma {:induction false} AtMostOneStatePublishPerEntry(s: State, evs: seq<Event>)
    requires NoEntry(evs)
    ensures |StatePayloads(Run(s, evs).effects)| <= (if s.firstRun then 1 else 0)
    decreases |evs|
  {
    if |evs| > 0 {
      var first := Apply(s, evs[0]);
      assert !IsEntry(evs[0]);
      assert NoEntry(evs[1..]) by {
        forall i | 0 <= i < |evs[1..]|
          ensures !IsEntry(evs[1..][i])
        {
          assert evs[1..][i] == evs[i + 1];
        }
      }
      AtMostOneStatePublishPerEntry(first.state, evs[1..]);
      StatePayloadsAppend(first.effects, Run(first.state, evs[1..]).effects);
      assert |StatePayloads(first.effects)| + (if first.state.firstRun then 1 else 0)
          <= (if s.firstRun then 1 else 0);
    }
  }

  /**
   A pass that runs while disconnected ends the pending entry without a
   report, and nothing after it reports that entry, whatever reconnections
   follow, until a new mode is selected.
   */
  lemma PassWhileOffline(s: State, later: seq<Event>)
    requires ValidMode(s.mode)
    requires !s.connected
    requires NoEntry(later)
    ensures StatePayloads(Run(s, [Pass] + later).effects) == []
  {
    var passed := Tick(s);
    RunAppend(s, [Pass], later);
    RunOne(s, Pass);
    AtMostOneStatePublishPerEntry(passed.state, later);
    StatePayloadsAppend(passed.effects, Run(passed.state, later).effects);
  }

  /**
   The start-up entry is lost when the first loop pass runs before the broker
   accepts the connection: the default mode is never reported, however the
   connection goes later, until a mode is selected by command.
   */
  lemma StartupReportLost(later: seq<Event>)
    requires NoEntry(later)
    ensures StatePayloads(Run(Init, [Pass] + later).effects) == []
  {
    DispatchCoversRegistry(DefaultMode);
    PassWhileOffline(Init, later);
  }

  /**
   A mode selected while disconnected and given its first pass before any
   reconnection has its entry ended without a report, and no later
   reconnection reports it.
   */
  lemma MissedReportNeverRetried(s: State, name: string, later: seq<Event>)
    requires !s.connected
    requires name in Modes
    requires NoEntry(later)
    ensures StatePayloads(Run(s, [Message(ModeTopic, name), Pass] + later).effects) == []
  {
    var command := Message(ModeTopic, name);
    var entered := OnMessage(s, ModeTopic, name);
    var rest := Run(entered.state, [Pass] + later);
    PairThen(command, Pass, later);
    RunAppend(s, [command], [Pass] + later);
    RunOne(s, command);
    assert Apply(s, command) == entered;
    PassWhileOffline(entered.state, later);
    assert Run(s, [command] + ([Pass] + later)).effects == [] + rest.effects;
    assert [] + rest.effects == rest.effects;
  }

  /** One command and one pass while connected: exactly that name goes out on the state topic. */
  lemma CommandThenPass(s: State, name: string)
    requires s.connected
    requires name in Modes
    ensures StatePayloads(Run(s, [Message(ModeTopic, name), Pass]).effects) == [name]
    ensures Run(s, [Message(ModeTopic, name), Pass]).state.connected
  {
    var entered := OnMessage(s, ModeTopic, name);
    var passed := Tick(entered.state);
    RunTwo(s, Message(ModeTopic, name), Pass);
    assert Apply(entered.state, Pass) == passed;
    assert entered.effects + passed.effects == passed.effects;
  }

  /**
   A reconnection that lands between a command and its first pass still gets
   that entry reported: the decision is taken at the pass, not at the command.
   The three steps are the command, the successful reconnection and the pass,
   in that order; together they put exactly the commanded name on the state topic.
   */
  lemma ReconnectBeforePassReports(s: State, name: string)
    requires !s.connected
    requires name in Modes
    ensures
      var entered := OnMessage(s, ModeTopic, name);
      var online := OnConnect(entered.state, 0);
      StatePayloads(entered.effects + online.effects + Tick(online.state).effects) == [name]
  {
    var entered := OnMessage(s, ModeTopic, name);
    var online := OnConnect(entered.state, 0);
    StatePayloadsAppend(entered.effects, online.effects);
    StatePayloadsAppend(entered.effects + online.effects, Tick(online.state).effects);
  }

  /**
   An unknown name does not start an entry of its own, but while an earlier
   entry is still waiting for its pass, the pass reports the default mode,
   whatever mode was commanded.
   */
  lemma UnknownCommandReportsDefault(s: State, name: string, unknown: string)
    requires s.connected
    requires name in Modes
    requires unknown !in Modes
    ensures
      var entered := OnMessage(s, ModeTopic, name);
      var fallback := OnMessage(entered.state, ModeTopic, unknown);
      StatePayloads(Tick(fallback.state).effects) == [Modes[DefaultMode]]
  {
    DispatchCoversRegistry(DefaultMode);
  }

  /** Running a command list is running its first command and pass, then the rest. */
  lemma CommandsWithPassesStep(s: State, names: seq<string>)
    requires |names| > 0
    ensures Run(s, CommandsWithPasses(names)).state ==
      Run(Run(s, [Message(ModeTopic, names[0]), Pass]).state, CommandsWithPasses(names[1..])).state
    ensures Run(s, CommandsWithPasses(names)).effects ==
      Run(s, [Message(ModeTopic, names[0]), Pass]).effects
      + Run(Run(s, [Message(ModeTopic, names[0]), Pass]).state, CommandsWithPasses(names[1..])).effects
  {
    var head := [Message(ModeTopic, names[0]), Pass];
    assert CommandsWithPasses(names) == head + CommandsWithPasses(names[1..]);
    RunAppend(s, head, CommandsWithPasses(names[1..]));
  }

  /**
   The first command and its pass, split off a connected run: that command's
   name goes out first, then whatever the rest reports, and the connection stays up.
   */
  lemma FirstCommandReported(s: State, names: seq<string>)
    requires s.connected
    requires |names| > 0 && names[0] in Modes
    ensures
      var next := Run(s, [Message(ModeTopic, names[0]), Pass]).state;
      && next.connected
      && Run(s, CommandsWithPasses(names)).state == Run(next, CommandsWithPasses(names[1..])).state
      && StatePayloads(Run(s, CommandsWithPasses(names)).effects) ==
           [names[0]] + StatePayloads(Run(next, CommandsWithPasses(names[1..])).effects)
  {
    var head := Run(s, [Message(ModeTopic, names[0]), Pass]);
    CommandThenPass(s, names[0]);
    CommandsWithPassesStep(s, names);
    StatePayloadsAppend(head.effects, Run(head.state, CommandsWithPasses(names[1..])).effects);
  }

  /**
   While connected, every command followed by a loop pass is reported on the
   state topic exactly once, in order, including a repeat of the current mode.
   */
  lemma {:induction false} EveryCommandReported(s: State, names: seq<string>)
    requires s.connected
    requires forall i :: 0 <= i < |names| ==> names[i] in Modes
    ensures StatePayloads(Run(s, CommandsWithPasses(names)).effects) == names
    ensures Run(s, CommandsWithPasses(names)).state.connected
    decreases |names|
  {
    if |names| > 0 {
      var next := Run(s, [Message(ModeTopic, names[0]), Pass]).state;
      FirstCommandReported(s, names);
      EveryCommandReported(next, names[1..]);
      HeadTail(names);
    }
  }

  /**
   In the off mode, loop passes and connection changes never draw a panel
   and blank the display at most once, for the entry itself.
   */
  lemma {:induction false} OffStaysIdle(s: State, evs: seq<Event>)
    requires s.mode == OffMode
    requires NoMessage(evs)
    ensures Run(s, evs).state.mode == OffMode
    ensures Renders(Run(s, evs).effects) == []
    ensures Clears(Run(s, evs).effects) <= (if s.firstRun then 1 else 0)
    decreases |evs|
  {
    if |evs| > 0 {
      var first := Apply(s, evs[0]);
      assert !evs[0].Message?;
      assert NoMessage(evs[1..]) by {
        forall i | 0 <= i < |evs[1..]|
          ensures !evs[1..][i].Message?
        {
          assert evs[1..][i] == evs[i + 1];
        }
      }
      OffStaysIdle(first.state, evs[1..]);
      RendersAppend(first.effects, Run(first.state, evs[1..]).effects);
      ClearsAppend(first.effects, Run(first.state, evs[1..]).effects);
    }
  }

  /**
   Repeated loop passes in a content mode redraw the same panel on every
   pass, keep the mode, and report at most once.
   */
  lemma {:induction false} ContentModeRefreshes(s: State, n: nat)
    requires ContentMode(s.mode)
    ensures Renders(Run(s, Passes(n)).effects) == seq(n, _ => s.mode)
    ensures Run(s, Passes(n)).state.mode == s.mode
    ensures Run(s, Passes(n)).state.connected == s.connected
    ensures n > 0 ==> !Run(s, Passes(n)).state.firstRun
    ensures |StatePayloads(Run(s, Passes(n)).effects)| <= (if s.firstRun then 1 else 0)
    decreases n
  {
    if n > 0 {
      DispatchCoversRegistry(s.mode);
      var first := Tick(s);
      assert Passes(n)[0] == Pass;
      assert Passes(n)[1..] == Passes(n - 1);
      ContentModeRefreshes(first.state, n - 1);
      RendersAppend(first.effects, Run(first.state, Passes(n - 1)).effects);
      StatePayloadsAppend(first.effects, Run(first.state, Passes(n - 1)).effects);
      assert [s.mode] + seq(n - 1, _ => s.mode) == seq(n, _ => s.mode);
      if n - 1 > 0 {
        assert !Run(first.state, Passes(n - 1)).state.firstRun;
      } else {
        assert Run(first.state, Passes(0)).state == first.state;
      }
    }
  }

  /**
   A command naming a registered mode selects exactly that mode and starts
   a fresh entry, even when the mode is the current one.
   */
  lemma CommandSelectsNamedMode(s: State, i: int)
    requires ValidMode(i)
    ensures OnMessage(s, ModeTopic, Modes[i]).state == State(i, true, s.connected)
  {
    ModeNameRoundTrip(i);
  }

  /**
   From any state with a registered mode, the state after a trace is the one
   read off the trace backwards: the last command picks the mode, the last
   connection callback that decided fixes the flag, and an entry is pending
   exactly when no loop pass has followed it.
   */
  lemma {:induction false} RunMatchesReference(s: State, evs: seq<Event>)
    requires ValidMode(s.mode)
    ensures Run(s, evs).state ==
      State(SelectedMode(s.mode, evs), PendingEntry(s.firstRun, evs), ConnectivityAfter(s.connected, evs))
  {
    if |evs| > 0 {
      var prefix := evs[..|evs| - 1];
      var e := evs[|evs| - 1];
      assert evs == prefix + [e];
      RunMatchesReference(s, prefix);
      ModeStaysValid(s, prefix);
      RunSnoc(s, prefix, e);
      if e.Message? && e.topic == ModeTopic {
        match IndexOf(Modes, e.payload)
        case Some(i) =>
        case None =>
      }
    }
  }
}
