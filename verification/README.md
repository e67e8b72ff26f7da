# OLED status daemon: mode-selection state machine

The daemon shows one of eight panels on a small monochrome display: off, Wi-Fi
address, Ethernet address, clock, load, disk usage, CPU temperature, or RAM.
An MQTT command on `oled/set` switches the panel. Each time a mode is entered,
the first pass of the main loop reports the new mode on `oled/state`, but only
while the broker connection is up.

This project models the part of `oled.py` that makes those decisions. The
state is three globals:

- `mode`: the current mode id.
- `first_run`: a mode entry that has not had its first pass yet.
- `mqtt_connection`: whether the broker connection is up.

Four steps change that state. Each is modelled as a pure function from the old
state to a new state plus a list of effects, in the order the daemon performs
them:

- `Control.OnMessage`: the MQTT message callback.
- `Control.OnConnect`: the connect callback.
- `Control.OnDisconnect`: the disconnect callback.
- `Control.Tick`: one iteration of the main `while True` loop.

The effects are:

- `Publish(topic, payload, qos, retain)`
- `Subscribe(topic, qos)`
- `ClearDisplay`
- `Render(modeId)`

The broker's network thread and the main loop are modelled as interleaved
atomic steps. A trace is a sequence of `Trace.Event` values, and `Trace.Run`
threads the state through it.

Files:

- `registry.dfy` (`module Registry`): the configuration constants. These are
  the mode list, the default mode, the topics and the QoS. It also holds
  `IndexOf`, Python's `list.index`.
- `control.dfy` (`module Control`): the state, the effects and the four steps.
- `trace.dfy` (`module Trace`): events, runs over traces, and the trace-level
  properties. It also gives reference definitions of the final state that are
  read backwards from the end of a trace.

Three behaviours of the code are worth noting:

- An unknown mode name falls back to the default mode but does NOT set
  `first_run` (oled.py:120-121), so it starts no entry of its own. The
  fallback is reported only when an earlier entry is still pending, and then
  the default's name goes out, whatever was commanded.
- A clean disconnect (`rc == 0`) leaves the connection flag unchanged
  (oled.py:106).
- A pass clears `first_run` even when disconnected (oled.py:186-189). A
  report missed while offline is therefore never made later
  (`Trace.PassWhileOffline`). The daemon really does this at start-up:
  `first_run` starts true and the flag false (oled.py:50-52), the connection
  is made asynchronously (oled.py:134-136) and the loop does not wait for it
  by default (oled.py:11, 138). A first pass before the broker accepts the
  connection loses the report of the default mode for good
  (`Trace.StartupReportLost`).

## Model

| member | source | states |
|---|---|---|
| Registry.IndexOf | oled.py:117-118 | A name is found exactly when it is in the list. The index returned is its FIRST occurrence, as Python's `list.index` gives it. |
| Registry.ModesDistinct | oled.py:31 | No two registered modes share a name. |
| Registry.IndexOfDistinct | oled.py:117-118 | In a list without repeats, looking up the element at position `i` gives `i`. |
| Registry.ModeNameRoundTrip | oled.py:117-118 | Looking up the name of mode `i` gives back `i`, so mode ids and names determine each other. |
| Registry.DispatchCoversRegistry | oled.py:155-320 | The main loop's literal cases 0 and 1..7 are exactly the registered ids. The default mode 3 is one of the content modes. |
| Control.OnMessage | oled.py:111-121 | A known name on the mode topic selects that mode and sets `first_run`, even if the mode is already current. An unknown name only resets the mode to the default and leaves `first_run` unchanged. Other topics change nothing. No effects, and the connection flag is never touched. |
| Control.OnConnect | oled.py:91-101 | On `rc == 0` the flag is set, and the callback subscribes to the mode topic and then publishes "1" non-retained on the last-will topic. On any other code the flag is cleared and nothing is emitted. Mode and `first_run` are untouched. Nothing goes to the state topic. |
| Control.OnDisconnect | oled.py:104-108 | A non-zero code clears the connection flag. Code 0 changes nothing. Mode and `first_run` are never touched. |
| Control.ReportEntry | oled.py:186-187 | A pass puts the current mode's name on the state topic exactly when `first_run` and the connection flag are both set. The report is a non-retained publish at QoS 0 on the state topic and nothing else. |
| Control.Tick | oled.py:155-320 | The mode is always valid after a pass, and the connection flag never changes. A valid mode keeps its id and ends its entry. An invalid mode becomes the default with no effect and `first_run` kept. A report goes out iff the mode is valid, the entry is fresh and the daemon is connected. Off blanks the display only on a fresh entry and never renders; an off pass with no fresh entry changes nothing. A content mode renders its own panel exactly once and never blanks. |
| Control.PassEffects | oled.py:155-320 | A pass never subscribes. Its only possible publish is the non-retained QoS 0 report of the current mode's name on the state topic, so it never publishes on the status topic. Display work comes before the report: a content pass starts with its render, and a fresh off pass starts by blanking. |
| Trace.ModeStaysValid | oled.py:116-121 | Starting from a valid mode, no trace of callbacks and passes leaves the registry. |
| Trace.ReachableModesValid | oled.py:49-52 | Every state reachable from start-up has a valid mode. |
| Trace.AtMostOneStatePublishPerEntry | oled.py:155-316 | Over any trace with no mode-selecting command, the state topic carries at most one message. It carries none if no entry was pending at the start. |
| Trace.MissedReportNeverRetried | oled.py:186-189 | A mode that is selected and given its first pass while disconnected is never reported on the state topic. This holds through any later reconnects, disconnects and passes that select no new mode. |
| Trace.PassWhileOffline | oled.py:186-189 | A pass while disconnected, in a registered mode, ends the pending entry with nothing on the state topic. Any later reconnects, disconnects and passes that select no new mode put nothing there either. |
| Trace.StartupReportLost | oled.py:50-52 | If the first loop pass after start-up runs before a successful connection, the default mode is never reported on the state topic. This holds through any later trace that selects no new mode, reconnections included (the decision at oled.py:186-189). |
| Trace.ReconnectBeforePassReports | oled.py:186-187 | A mode selected while disconnected IS reported if a successful reconnection arrives before its first pass. The command, the reconnection and the pass together put exactly that name on the state topic. |
| Trace.UnknownCommandReportsDefault | oled.py:116-121 | While connected, a known command followed by an unknown name and then a pass reports the default mode's name, whatever was commanded: the unknown name replaces the mode but leaves the pending entry in place. |
| Trace.CommandThenPass | oled.py:116-119 | While connected, one command followed by one pass publishes exactly that mode's name on the state topic. |
| Trace.EveryCommandReported | oled.py:116-119 | While connected, a sequence of commands, each followed by a pass, publishes exactly the commanded names in order. Repeats of the current mode are reported again. |
| Trace.OffStaysIdle | oled.py:157-165 | In the off mode, passes and connection changes keep the mode off and never render. They blank the display at most once, for a pending entry. |
| Trace.ContentModeRefreshes | oled.py:167-189 | In a content mode, `n` passes render that mode's panel exactly `n` times. They keep the mode and the connection flag, end the entry, and report at most once, and only if an entry was pending. |
| Trace.CommandSelectsNamedMode | oled.py:116-119 | The command naming mode `i` yields exactly mode `i` with a fresh entry, and the connection flag is kept. |
| Trace.RunMatchesReference | oled.py:91-320 | From a valid mode, the state after any trace can be read off the trace backwards. The last command on the mode topic picks the mode. The last deciding connection callback fixes the flag. An entry is pending exactly when no pass has followed the last known-name command. |

## Left out

- Display driver and drawing are reduced to the `ClearDisplay` and `Render` effects. This covers the SSD1306 driver, the PIL images and fonts, and pixel positions: they are hardware I/O and foreign libraries.
- The content of each panel is not modelled. This covers interface addresses, the clock, and the `top`/`df`/`vcgencmd`/`free` shell pipelines. They are external reads. `Render(m)` records only which panel was drawn.
- Failures in a pass are not modelled. The main loop catches no exceptions. If a shell pipeline fails in `subprocess.check_output` (oled.py:239, 261, 282, 303), or a display write fails (oled.py:160-161, 183-184, and the same lines of the other panels), the pass stops before its report and before `first_run = False`, and the daemon exits. In the model every pass completes.
- MQTT client set-up is not modelled: construction, credentials, the last-will registration, `connect_async` and `loop_start`. This is library plumbing. The last-will topic appears as a constant. The last-will payload `"0"` (oled.py:22, 132) is not modelled.
- `loop_stop()` on an unexpected disconnect (oled.py:107) is not modelled. It stops the library's network thread, which is what delivers every connect, message and disconnect callback. Nothing restarts that thread (`loop_start` runs once, oled.py:136). So after an unexpected disconnect the real daemon never reconnects and never changes mode again, and only loop passes follow. The model's traces still allow callbacks after `Disconnected(rc)` with `rc != 0`. They over-approximate what the daemon can see. Every trace lemma holds for all traces, so each one also holds for the traces the daemon can actually produce. In the daemon itself no command can arrive while the connection flag is false: commands need the subscription made on a successful connect (oled.py:96), and the flag is false only before the first successful connect or after an unexpected disconnect, which stops the network thread. So `Trace.MissedReportNeverRetried` and `Trace.ReconnectBeforePassReports` describe traces that only the model admits; they document what the state machine would do, not behaviour the daemon shows. The lost report the daemon can show is the start-up one, stated by `Trace.StartupReportLost`.
- The optional wait-for-connection screen and the `time.sleep` between passes are timing and polling, not state logic.
- Real concurrency between the network thread and the main loop is not modelled. Callbacks and passes are atomic, interleaved steps. This hides the races of a command that arrives in the middle of a pass, which the daemon allows because the pass reads the globals again at every test. `Trace.EveryCommandReported` holds only for commands that arrive between passes. The hidden races are:
  - A command that arrives after the report check (oled.py:186) but before `first_run = False` (oled.py:189) has its fresh entry cleared by that pass. It is never reported.
  - The `if`/`elif` chain tests the global `mode` afresh at each branch (oled.py:157, 168, 192, and on to 298). A command that lands after the branch for its new id has been tested, say "Ethernet" arriving while a pass in mode 5 is past the `mode == 4` test, makes every later test fail. The `else` at oled.py:318-320 then replaces the commanded mode with the default. `first_run` is still set, so the next pass, if connected, reports the default mode.
  - The report reads `mode` again at oled.py:187, after the check at 186. A command that lands between the two makes the report name a mode that this pass did not draw.
- Inbound payloads are modelled as strings and compared exactly, as Python 2 compares `str` values. No decoding is modelled.
