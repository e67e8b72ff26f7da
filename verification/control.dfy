/**
 The shared control state of the daemon (the globals `mode`, `first_run`
 and `mqtt_connection`) and the four steps that change it: the MQTT message,
 connect and disconnect callbacks, and one iteration of the main loop.
 Each step is a pure function from the old state to the new state plus the
 effects it performs, in the order it performs them.
 */
module Control {
  import opened Registry

  /**
   `mode` is a plain integer because nothing in the daemon stops it from
   leaving the registry; the main loop is what puts it back.
   `firstRun` marks a mode entry whose first pass has not run yet.
   */
  datatype State = State(mode: int, firstRun: bool, connected: bool)

  /** What a step does outside the state: MQTT traffic and display work. */
  datatype Effect =
    | Publish(topic: string, payload: string, qos: nat, retain: bool)
    | Subscribe(topic: string, qos: nat)
    | ClearDisplay
    | Render(modeId: int)

  /** The result of one step. */
  datatype Step = Step(state: State, effects: seq<Effect>)

  /** The globals as the daemon starts: default mode, fresh entry, not connected. */
  const Init: State := State(DefaultMode, true, false)

  /** Payloads published on the state topic, in order. */
  function StatePayloads(effects: seq<Effect>): (payloads: seq<string>)
  {
    if |effects| == 0 then []
    else
      var rest := StatePayloads(effects[1..]);
      match effects[0]
      case Publish(t, p, _, _) => if t == StateTopic then [p] + rest else rest
      case _ => rest
  }

  /** Mode ids rendered, in order. */
  function Renders(effects: seq<Effect>): (ids: seq<int>)
  {
    if |effects| == 0 then []
    else if effects[0].Render? then [effects[0].modeId] + Renders(effects[1..])
    else Renders(effects[1..])
  }

  /** Number of times the display is blanked. */
  function Clears(effects: seq<Effect>): (n: nat)
  {
    if |effects| == 0 then 0
    else (if effects[0].ClearDisplay? then 1 else 0) + Clears(effects[1..])
  }

  /**
   `on_message`: a command on the mode topic selects the named mode and
   marks a fresh entry, even when that mode is already current. An unknown
   name falls back to the default mode WITHOUT marking a fresh entry.
   Messages on any other topic are ignored.
   */
  function OnMessage(s: State, topic: string, payload: string): (r: Step)
    ensures r.effects == []
    ensures r.state.connected == s.connected
    ensures topic != ModeTopic ==> r.state == s
    ensures topic == ModeTopic && payload in Modes ==>
      ValidMode(r.state.mode) && Modes[r.state.mode] == payload && r.state.firstRun
    ensures topic == ModeTopic && payload !in Modes ==>
      r.state == s.(mode := DefaultMode)
  {
    if topic == ModeTopic then
      match IndexOf(Modes, payload)
      case Some(i) => Step(s.(mode := i, firstRun := true), [])
      case None => Step(s.(mode := DefaultMode), [])
    else
      Step(s, [])
  }

  /**
   `on_connect`: a successful connection (`rc == 0`) sets the connection
   flag, subscribes to the mode topic and announces presence on the
   last-will topic; a refused one clears the flag and does nothing else.
   */
  function OnConnect(s: State, rc: int): (r: Step)
    ensures r.state.mode == s.mode && r.state.firstRun == s.firstRun
    ensures r.state.connected <==> rc == 0
    ensures rc == 0 ==>
      r.effects == [Subscribe(ModeTopic, DefaultQos),
                    Publish(LastWillTopic, OnlinePayload, DefaultQos, false)]
    ensures rc != 0 ==> r.effects == []
    ensures StatePayloads(r.effects) == [] && Renders(r.effects) == [] && Clears(r.effects) == 0
  {
    if rc == 0 then
      var announce := Publish(LastWillTopic, OnlinePayload, DefaultQos, false);
      assert StatePayloads([announce]) == [] by { assert LastWillTopic != StateTopic; }
      assert Renders([announce]) == [] && Clears([announce]) == 0;
      assert [Subscribe(ModeTopic, DefaultQos), announce][1..] == [announce];
      Step(s.(connected := true), [Subscribe(ModeTopic, DefaultQos), announce])
    else
      Step(s.(connected := false), [])
  }

  /**
   `on_disconnect`: only an unexpected disconnect (`rc != 0`) clears the
   connection flag; a clean one leaves it as it was.
   */
  function OnDisconnect(s: State, rc: int): (r: Step)
    ensures r.effects == []
    ensures r.state.mode == s.mode && r.state.firstRun == s.firstRun
    ensures rc != 0 ==> !r.state.connected
    ensures rc == 0 ==> r.state == s
  {
    if rc != 0 then Step(s.(connected := false), []) else Step(s, [])
  }

  /** The state report for mode `m`: its name on the state topic, QoS 0, not retained. */
  function StateReport(m: int): (e: Effect)
    requires ValidMode(m)
  {
    Publish(StateTopic, Modes[m], DefaultQos, false)
  }

  /** The state-topic publish a pass makes for a fresh entry while connected. */
  function ReportEntry(s: State): (report: seq<Effect>)
    requires ValidMode(s.mode)
    ensures StatePayloads(report) == (if s.firstRun && s.connected then [Modes[s.mode]] else [])
    ensures Renders(report) == [] && Clears(report) == 0
    ensures forall e | e in report :: e.Publish? && !e.retain && e.qos == DefaultQos && e.topic == StateTopic
  {
    if s.firstRun && s.connected then [StateReport(s.mode)]
    else []
  }

  /**
   One iteration of the main loop. Off blanks the display and reports once
   per entry, then idles. Each content mode draws its panel on every pass,
   reports a fresh entry if connected, and ends the entry whether or not it
   reported. Any other id is replaced by the default mode and nothing else
   happens on that pass.
   */
  function Tick(s: State): (r: Step)
    ensures ValidMode(r.state.mode)
    ensures r.state.connected == s.connected
    ensures ValidMode(s.mode) ==> r.state.mode == s.mode && !r.state.firstRun
    ensures !ValidMode(s.mode) ==> r.state == s.(mode := DefaultMode) && r.effects == []
    ensures StatePayloads(r.effects) ==
      (if ValidMode(s.mode) && s.firstRun && s.connected then [Modes[s.mode]] else [])
    ensures s.mode == OffMode ==> Renders(r.effects) == [] && Clears(r.effects) == (if s.firstRun then 1 else 0)
    ensures s.mode == OffMode && !s.firstRun ==> r == Step(s, [])
    ensures ContentMode(s.mode) ==> Renders(r.effects) == [s.mode] && Clears(r.effects) == 0
  {
    if s.mode == OffMode then
      if s.firstRun then
        Step(s.(firstRun := false), [ClearDisplay] + ReportEntry(s))
      else
        Step(s, [])
    else if ContentMode(s.mode) then
      // Branches 1..7 of the loop differ only in the panel they draw.
      Step(s.(firstRun := false), [Render(s.mode)] + ReportEntry(s))
    else
      Step(s.(mode := DefaultMode), [])
  }

  /**
   What a loop pass may send and in which order: it never subscribes, its
   only publish is the non-retained QoS 0 report of the current mode on the
   state topic, and display work comes before that report.
   */
  lemma PassEffects(s: State)
    ensures forall e | e in Tick(s).effects ::
              !e.Subscribe? && (e.Publish? ==> ValidMode(s.mode) && e == StateReport(s.mode))
    ensures ContentMode(s.mode) ==> |Tick(s).effects| > 0 && Tick(s).effects[0] == Render(s.mode)
    ensures s.mode == OffMode && s.firstRun ==> |Tick(s).effects| > 0 && Tick(s).effects[0] == ClearDisplay
  {
  }
}
