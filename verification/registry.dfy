/**
 The configuration block of the OLED status daemon: the ordered list of
 display modes (a mode's id is its position in the list), the default mode,
 and the MQTT topics and quality of service the daemon uses.
 */
module Registry {

  datatype Option<+T> = None | Some(value: T)

  /** The display modes; index 0 switches the panel off. */
  const Modes: seq<string> :=
    ["Turn off", "Wifi", "Ethernet", "Clock", "Load", "Disk usage", "CPU Temp", "RAM"]

  /** The off mode: the only mode that renders nothing. */
  const OffMode: int := 0

  /** The highest mode id the main loop dispatches on explicitly. */
  const LastContentMode: int := 7

  /** Mode selected at start-up and whenever a command or the loop finds no valid mode. */
  const DefaultMode: int := 3

  const DefaultQos: nat := 0
  const LastWillTopic: string := "oled/status"
  /** Payload published on the presence topic once the broker accepts the connection. */
  const OnlinePayload: string := "1"
  const ModeTopic: string := "oled/set"
  const StateTopic: string := "oled/state"

  predicate ValidMode(m: int) {
    0 <= m < |Modes|
  }

  /** The modes that draw a panel (everything except off). */
  predicate ContentMode(m: int) {
    OffMode < m <= LastContentMode
  }

  predicate Distinct(xs: seq<string>) {
    forall i, j :: 0 <= i < j < |xs| ==> xs[i] != xs[j]
  }

  /**
   Position of the first occurrence of `p` in `xs`, the way Python's
   `list.index` finds it, or None where `index` would raise.
   */
  function IndexOf(xs: seq<string>, p: string): (r: Option<nat>)
    ensures r.Some? <==> p in xs
    ensures r.Some? ==> r.value < |xs| && xs[r.value] == p
    ensures r.Some? ==> forall j :: 0 <= j < r.value ==> xs[j] != p
  {
    if |xs| == 0 then None
    else if xs[0] == p then Some(0)
    else
      match IndexOf(xs[1..], p)
      case None => None
      case Some(i) => Some(i + 1)
  }

  /** No two modes share a name, so a name identifies its mode. */
  lemma ModesDistinct()
    ensures Distinct(Modes)
  {
  }

  /** In a list without repeats, looking up the element at `i` finds `i`. */
  lemma IndexOfDistinct(xs: seq<string>, i: int)
    requires Distinct(xs)
    requires 0 <= i < |xs|
    ensures IndexOf(xs, xs[i]) == Some(i)
  {
    var r := IndexOf(xs, xs[i]);
    assert xs[i] in xs;
    assert r.value <= i;
  }

  /** The id of a mode and its name determine each other. */
  lemma ModeNameRoundTrip(i: int)
    requires ValidMode(i)
    ensures IndexOf(Modes, Modes[i]) == Some(i)
  {
    ModesDistinct();
    IndexOfDistinct(Modes, i);
  }

  /** The ids the main loop dispatches on are exactly the registered ones, and the default is one of them. */
  lemma DispatchCoversRegistry(m: int)
    ensures ValidMode(m) <==> m == OffMode || ContentMode(m)
    ensures ValidMode(DefaultMode) && ContentMode(DefaultMode)
  {
  }
}
