/** The state of a `plot_lib.Plotter` as a value, and what each of its
    operations makes of it. `ring.Ring` is not part of this model: a ring is
    its width, its length and the calls it has received, in order. The
    reader is part of the state as in `PlotterState`, and so is the clock:
    `clock` holds the readings of `time.time()` that the two timed loops of
    discovery see, in order. An exception
    that escapes an operation, and `sys.exit`, end the program (`halted`). */
module PlotLibState {
  import opened Base
  import opened Text
  import opened Records
  import opened Discovery

  /** `minThreshold` of `discoverLabels`: how often a label must be seen to be kept. */
  const MinThreshold: nat := 2

  /** The most values a record may carry to give the width of a ring. */
  const MaxLines: nat := 15

  /** The methods of `ring.Ring` the plotter calls. */
  datatype RingCall = Updated(values: seq<real>) | LooseTail | FixTail | Reset

  /** `Ring(nY, length)` with the calls made on it since it was created. */
  datatype Ring = Ring(nY: nat, length: nat, calls: seq<RingCall>)

  datatype State = State(
    labels: seq<string>,
    ringLength: nat,
    ringKeys: seq<string>,         // the key order of `rings`
    rings: map<string, Ring>,
    freezePlot: bool,
    receivingCommand: bool,
    command: string,
    feed: seq<Reading>,
    clock: seq<real>,
    sent: seq<string>,
    connected: bool,
    halted: bool)

  function Halt(st: State): (r: State)
    ensures r.halted
  {
    st.(halted := true)
  }

  /** One call of `time.time()`: the reading, and the readings left. A clock
      with no reading left answers 0.0. */
  function Tick(clock: seq<real>): (real, seq<real>) {
    if clock == [] then (0.0, []) else (clock[0], clock[1..])
  }

  /** One more call on a ring. */
  function Call(ring: Ring, call: RingCall): (r: Ring)
    ensures r.nY == ring.nY && r.length == ring.length
    ensures |r.calls| == |ring.calls| + 1 && r.calls[..|ring.calls|] == ring.calls
    ensures r.calls[|ring.calls|] == call
  {
    ring.(calls := ring.calls + [call])
  }

  /** `for ring in rings.values(): ring.<call>()`, from the `i`-th key on. */
  function CallFrom(rings: map<string, Ring>, keys: seq<string>, call: RingCall, i: nat): map<string, Ring>
    decreases |keys| - i
  {
    if i >= |keys| then rings
    else if keys[i] !in rings then CallFrom(rings, keys, call, i + 1)
    else CallFrom(rings[keys[i] := Call(rings[keys[i]], call)], keys, call, i + 1)
  }

  // ---------------------------------------------------------------- setUp

  /** `discoverLabels(reader)`: the labels of the numeric records read while
      the second lasts that are seen at least `MinThreshold` times, sorted. */
  function DiscoverLabels(st: State): (State, seq<string>) {
    var (start, ticks) := Tick(st.clock);
    var (res, feed, clock) := DiscoverTimed(st.feed, ticks, start, Counter([], map[]));
    match res
    case Err(_) => (Halt(st.(feed := feed, clock := clock)), [])
    case Ok(c) => (st.(feed := feed, clock := clock), Sort(Frequent(c.keys, c.counts, MinThreshold)))
  }

  /** `initializePlot(i, l)`: a new ring for `l`, as wide as the first record
      of `l` found while the second lasts; none found raises `MissingLabelError`. */
  function InitializePlot(st: State, l: string): State {
    var (start, ticks) := Tick(st.clock);
    var (w, feed, clock) := LinesTimed(st.feed, ticks, start, l);
    var st1 := st.(feed := feed, clock := clock);
    if w.Found? then st1.(rings := st.rings[l := Ring(w.width, st.ringLength, [])], ringKeys := AddKey(st.ringKeys, l))
    else Halt(st1)
  }

  /** The loop of `setUp` over the labels from the `i`-th on. */
  function PlotsFrom(st: State, labels: seq<string>, i: nat): State
    decreases |labels| - i
  {
    if st.halted || i >= |labels| then st
    else PlotsFrom(InitializePlot(st, labels[i]), labels, i + 1)
  }

  /** The state `setUp` starts the plots from. */
  function Fresh(st: State, labels: seq<string>): State {
    st.(labels := labels, freezePlot := false, rings := map[], ringKeys := [])
  }

  /** `setUp(discover)`: the labels are kept, or replaced by discovered ones;
      then every label gets a new ring. */
  function SetUp(st: State, discover: bool): State {
    if st.halted then st
    else
      var (st1, labels) := if discover then DiscoverLabels(st) else (st, st.labels);
      if st1.halted then st1
      else PlotsFrom(Fresh(st1, labels), labels, 0)
  }

  // ---------------------------------------------------------------- press

  /** `press(event)`: in command mode every key but enter is added to the
      command and enter sends it; otherwise `x` resets every ring, `p`
      freezes or thaws the plot, `r` sets up with discovered labels, enter
      starts a command and `q` closes the connection and exits. */
  function Press(st: State, key: string): State {
    if st.halted then st
    else if st.receivingCommand then
      if key == "enter" then st.(receivingCommand := false, sent := st.sent + [st.command + "\r\n"], command := "")
      else st.(command := st.command + key)
    else if key == "x" then st.(rings := CallFrom(st.rings, st.ringKeys, Reset, 0))
    else if key == "p" then st.(freezePlot := !st.freezePlot)
    else if key == "r" then SetUp(st, true)
    else if key == "enter" then st.(receivingCommand := true)
    else if key == "q" then Halt(st.(connected := false))
    else st
  }

  /** `press` for a key that arrives in the data stream. The `FakeKeyEvent`
      it comes in has no `canvas`, so outside command mode `q` raises
      AttributeError at `plt.close(event.canvas.figure)`, before the
      connection is closed; every other key acts as when it is pressed. */
  function PressStreamed(st: State, key: string): State {
    if !st.halted && !st.receivingCommand && key == "q" then Halt(st) else Press(st, key)
  }

  /** The keys pressed during `plt.pause`, in turn, from the `i`-th on. */
  function PressFrom(st: State, keys: seq<string>, i: nat): State
    decreases |keys| - i
  {
    if i >= |keys| then st else PressFrom(Press(st, keys[i]), keys, i + 1)
  }

  // -------------------------------------------------------------- getData

  /** `getData`: a numeric record of a label, as wide as its ring, updates
      the ring; a COMMAND record presses the key it carries; any other record
      is only printed. */
  function GetData(st: State): State {
    if st.halted then st
    else
      var st1 := st.(feed := Rest(st.feed));
      match Head(st.feed)
      case Err(_) => Halt(st1)
      case Ok(r) =>
        if r.Numeric? && r.name in st.labels && r.name !in st.rings then Halt(st1)
        else if r.Numeric? && r.name in st.labels && |r.values| == st.rings[r.name].nY then
          st1.(rings := st.rings[r.name := Call(st.rings[r.name], Updated(r.values))])
        else if IsCommand(r) then
          match CommandKey(r)
          case Err(_) => Halt(st1)
          case Ok(key) => PressStreamed(st1, key)
        else st1
  }

  // ------------------------------------------------------- updatePlotData

  /** `updatePlotData` when `keys` are pressed during `plt.pause`. A frozen
      plot only pauses. Otherwise every ring loosens its tail before the
      pause and every ring there is after it fixes its tail. */
  function UpdatePlotData(st: State, keys: seq<string>): State {
    if st.halted then st
    else if st.freezePlot then PressFrom(st, keys, 0)
    else
      var st1 := st.(rings := CallFrom(st.rings, st.ringKeys, LooseTail, 0));
      var st2 := PressFrom(st1, keys, 0);
      if st2.halted then st2
      else st2.(rings := CallFrom(st2.rings, st2.ringKeys, FixTail, 0))
  }

  // ------------------------------------------------------------ new state

  /** `Plotter(reader, ringLength, labels)`: set up with the labels given. */
  function Init(labels: seq<string>, ringLength: nat, feed: seq<Reading>, clock: seq<real>): State {
    var st := State(labels, ringLength, [], map[], false, false, "", feed, clock, [], true, false);
    var st1 := SetUp(st, false);
    if st1.halted then st1 else st1.(freezePlot := false, receivingCommand := false, command := "")
  }

  // ------------------------------------------------------------ invariant

  /** The rings are keyed once each, in `ringKeys` order; every label has a
      ring; every ring is as long as asked and between 1 and `MaxLines` wide. */
  predicate Valid(st: State) {
    && !st.halted
    && Distinct(st.ringKeys)
    && (forall s :: s in st.rings ==> s in st.ringKeys)
    && (forall s :: s in st.ringKeys ==> s in st.rings)
    && (forall s :: s in st.labels ==> s in st.rings)
    && (forall s :: s in st.rings ==> 1 <= st.rings[s].nY <= MaxLines && st.rings[s].length == st.ringLength)
  }

  /** Each ring, and no other, receives the call once. */
  predicate CalledOnce(before: map<string, Ring>, after: map<string, Ring>, call: RingCall) {
    && after.Keys == before.Keys
    && forall s :: s in before ==> after[s] == Call(before[s], call)
  }

  /** Calling a method on every ring, in key order, makes the call once on each. */
  lemma CallEach(rings: map<string, Ring>, keys: seq<string>, call: RingCall)
    requires Distinct(keys) && forall s :: s in rings <==> s in keys
    ensures CalledOnce(rings, CallFrom(rings, keys, call, 0), call)
  {
    CallFromRest(rings, keys, call, 0);
  }

  lemma {:induction false} CallFromRest(rings: map<string, Ring>, keys: seq<string>, call: RingCall, i: nat)
    requires i <= |keys| && Distinct(keys)
    ensures var r := CallFrom(rings, keys, call, i);
      && r.Keys == rings.Keys
      && forall s :: s in rings ==> r[s] == if s in keys[i..] then Call(rings[s], call) else rings[s]
    decreases |keys| - i
  {
    if i < |keys| {
      var k := keys[i];
      var next := if k in rings then rings[k := Call(rings[k], call)] else rings;
      CallFromRest(next, keys, call, i + 1);
      forall s | s in rings
        ensures CallFrom(rings, keys, call, i)[s] == if s in keys[i..] then Call(rings[s], call) else rings[s]
      {
        assert s in keys[i..] <==> s == k || s in keys[i + 1..];
        if s == k {
          assert k !in keys[i + 1..] by {
            forall j | i + 1 <= j < |keys| ensures keys[j] != k { }
          }
        }
      }
    }
  }

  /** A call on every ring keeps the rings valid. */
  lemma CallKeeps(st: State, call: RingCall)
    requires Valid(st)
    ensures var r := st.(rings := CallFrom(st.rings, st.ringKeys, call, 0));
      Valid(r) && CalledOnce(st.rings, r.rings, call)
  {
    CallEach(st.rings, st.ringKeys, call);
  }

  // ------------------------------------------------------------- set-up

  /** A search for a width that succeeds found a width between 1 and `MaxLines`. */
  lemma {:induction false} LinesTimedWidth(feed: seq<Reading>, ticks: seq<real>, start: real, name: string)
    ensures var w := LinesTimed(feed, ticks, start, name).0;
      w.Found? ==> 1 <= w.width <= MaxLines
  {
    if ticks != [] && ticks[0] - start < 1.0 && Head(feed).Ok? && !Fits(Head(feed).value, name) {
      LinesTimedWidth(Rest(feed), ticks[1..], start, name);
    }
  }

  /** The plots made so far: new rings, keyed once each, one for each label up to `i`. */
  predicate Built(st: State, labels: seq<string>, i: nat) {
    && i <= |labels|
    && !st.halted && st.labels == labels
    && Distinct(st.ringKeys)
    && (forall s :: s in st.rings ==> s in st.ringKeys)
    && (forall s :: s in st.ringKeys ==> s in st.rings)
    && (forall j :: 0 <= j < i ==> labels[j] in st.rings)
    && (forall s :: s in st.rings ==> 1 <= st.rings[s].nY <= MaxLines && st.rings[s].length == st.ringLength
                                      && st.rings[s].calls == [])
  }

  /** One more plot keeps what was built, unless the search for its width fails. */
  lemma InitializePlotBuilds(st: State, labels: seq<string>, i: nat)
    requires Built(st, labels, i) && i < |labels|
    ensures var r := InitializePlot(st, labels[i]);
      r.halted || (Built(r, labels, i + 1) && r.(feed := st.feed, clock := st.clock, rings := st.rings, ringKeys := st.ringKeys) == st)
  {
    var (start, ticks) := Tick(st.clock);
    LinesTimedWidth(st.feed, ticks, start, labels[i]);
    var r := InitializePlot(st, labels[i]);
    if !r.halted {
      var l := labels[i];
      forall s ensures s in r.rings <==> s in r.ringKeys {
        assert s in r.ringKeys <==> s in st.ringKeys || s == l;
      }
      if l !in st.ringKeys {
        forall j, k | 0 <= j < k < |r.ringKeys| ensures r.ringKeys[j] != r.ringKeys[k] {
          if k == |st.ringKeys| {
            assert r.ringKeys[j] in st.ringKeys;
          }
        }
      }
    }
  }

  lemma {:induction false} PlotsFromBuilds(st: State, labels: seq<string>, i: nat)
    requires Built(st, labels, i)
    ensures var r := PlotsFrom(st, labels, i);
      r.halted || (Built(r, labels, |labels|)
                   && r.(feed := st.feed, clock := st.clock, rings := st.rings, ringKeys := st.ringKeys) == st)
    decreases |labels| - i
  {
    if i < |labels| {
      InitializePlotBuilds(st, labels, i);
      var next := InitializePlot(st, labels[i]);
      if !next.halted {
        PlotsFromBuilds(next, labels, i + 1);
      }
    }
  }

  /** What `setUp` leaves when it ends normally: a valid plotter with the
      given labels, new rings and the plot running, with the command state,
      the lines sent and the connection as they were. */
  predicate StartedWith(st: State, r: State, labels: seq<string>) {
    && Valid(r) && r.labels == labels && !r.freezePlot
    && r.ringLength == st.ringLength
    && r.receivingCommand == st.receivingCommand && r.command == st.command
    && r.sent == st.sent && r.connected == st.connected
    && forall s :: s in r.rings ==> r.rings[s].calls == []
  }

  lemma PlotsFromStarts(st: State, labels: seq<string>)
    requires !st.halted
    ensures var r := PlotsFrom(Fresh(st, labels), labels, 0);
      r.halted || StartedWith(st, r, labels)
  {
    PlotsFromBuilds(Fresh(st, labels), labels, 0);
    var r := PlotsFrom(Fresh(st, labels), labels, 0);
    if !r.halted {
      forall s | s in r.labels ensures s in r.rings {
        var j :| 0 <= j < |labels| && labels[j] == s;
      }
    }
  }

  /** `setUp(False)` keeps the labels: unless a search for a width fails,
      every label gets a new ring. */
  lemma SetUpKeeps(st: State)
    requires !st.halted
    ensures SetUp(st, false).halted || StartedWith(st, SetUp(st, false), st.labels)
  {
    PlotsFromStarts(st, st.labels);
  }

  /** `setUp(True)`: an exception among the readings of the second of
      discovery ends the program; otherwise, unless a search for a width
      fails, the labels become those seen at least `MinThreshold` times in
      that second, in increasing order. */
  lemma SetUpDiscovers(st: State)
    requires !st.halted
    ensures var (start, ticks) := Tick(st.clock);
      var obs := Take(st.feed, Within(ticks, start));
      && (FirstErr(obs) < |obs| ==> SetUp(st, true).halted)
      && (!SetUp(st, true).halted ==> StartedWith(st, SetUp(st, true), Chosen(Recs(obs), MinThreshold)))
  {
    var (start, ticks) := Tick(st.clock);
    var k := Within(ticks, start);
    var obs := Take(st.feed, k);
    DiscoverTimedFrom(st.feed, ticks, start, Counter([], map[]));
    if FirstErr(obs) < k {
      DiscoverRaises(st.feed, k, Counter([], map[]));
    } else {
      DiscoverClean(st.feed, k, []);
      assert [] + Recs(obs) == Recs(obs);
      var (st1, labels) := DiscoverLabels(st);
      assert labels == Chosen(Recs(obs), MinThreshold);
      PlotsFromStarts(st1, labels);
    }
  }

  /** A new plotter is set up with the labels it is given, unless a search
      for a width fails. */
  lemma InitRuns(labels: seq<string>, ringLength: nat, feed: seq<Reading>, clock: seq<real>)
    ensures var r := Init(labels, ringLength, feed, clock);
      r.halted || (Valid(r) && r.labels == labels && r.ringLength == ringLength && !r.freezePlot
                   && !r.receivingCommand && r.command == "" && r.sent == [] && r.connected
                   && forall s :: s in r.rings ==> r.rings[s].calls == [])
  {
    var st := State(labels, ringLength, [], map[], false, false, "", feed, clock, [], true, false);
    SetUpKeeps(st);
  }

  // ------------------------------------------------------------- getData

  /** A numeric record of a plotted label, as wide as its ring, is handed to
      that ring and to no other. */
  lemma GetDataUpdates(st: State, s: string, vs: seq<real>)
    requires Valid(st) && Head(st.feed) == Ok(Numeric(s, vs)) && s in st.labels
    requires |vs| == st.rings[s].nY
    ensures GetData(st) == st.(feed := Rest(st.feed), rings := st.rings[s := Call(st.rings[s], Updated(vs))])
    ensures Valid(GetData(st))
  {
  }

  /** A record that is neither stored nor a command touches no ring: only the
      reading is consumed. */
  lemma GetDataPrints(st: State, r: Record)
    requires Valid(st) && Head(st.feed) == Ok(r) && !IsCommand(r)
    requires !(r.Numeric? && r.name in st.labels && |r.values| == st.rings[r.name].nY)
    ensures GetData(st) == st.(feed := Rest(st.feed))
  {
  }

  /** A `COMMAND` line with text after the label presses the key its first
      field spells once white space around it is dropped. A `q` outside
      command mode raises instead, since the event has no canvas: the program
      ends with the connection left open. */
  lemma GetDataCommand(st: State, fields: seq<string>)
    requires !st.halted && Head(st.feed) == Ok(NonNumeric("COMMAND", fields)) && |fields| > 0
    ensures var st1 := st.(feed := Rest(st.feed));
      if !st.receivingCommand && Strip(fields[0]) == "q" then
        GetData(st) == st1.(halted := true) && GetData(st).connected == st.connected
      else GetData(st) == Press(st1, Strip(fields[0]))
  {
  }

  /** An exception of the reader ends the program. */
  lemma GetDataRaises(st: State, e: PyError)
    requires !st.halted && Head(st.feed) == Err(e)
    ensures GetData(st) == Halt(st.(feed := Rest(st.feed)))
  {
  }

  /** Reading keeps the plotter valid, or ends the program. */
  lemma GetDataValid(st: State)
    requires Valid(st)
    ensures GetData(st).halted || Valid(GetData(st))
  {
    var st1 := st.(feed := Rest(st.feed));
    assert Valid(st1);
    match Head(st.feed)
    case Err(_) =>
    case Ok(r) =>
      if IsCommand(r) && !(r.Numeric? && r.name in st.labels && |r.values| == st.rings[r.name].nY) {
        if CommandKey(r).Ok? {
          PressValid(st1, CommandKey(r).value);
        }
      }
  }

  // --------------------------------------------------------------- press

  /** Every key keeps the plotter valid, or ends the program. */
  lemma PressValid(st: State, key: string)
    requires Valid(st)
    ensures Press(st, key).halted || Valid(Press(st, key))
  {
    if !st.receivingCommand {
      if key == "x" {
        CallKeeps(st, Reset);
      } else if key == "r" {
        SetUpDiscovers(st);
      }
    }
  }

  /** `x` resets every ring once and changes nothing else. */
  lemma PressResets(st: State)
    requires Valid(st) && !st.receivingCommand
    ensures Press(st, "x") == st.(rings := Press(st, "x").rings)
    ensures CalledOnce(st.rings, Press(st, "x").rings, Reset)
  {
    CallKeeps(st, Reset);
  }

  /** `p` freezes a running plot and thaws a frozen one; pressed twice it changes nothing. */
  lemma PressPauses(st: State)
    requires !st.halted && !st.receivingCommand
    ensures Press(st, "p") == st.(freezePlot := !st.freezePlot)
    ensures Press(Press(st, "p"), "p") == st
  {
  }

  /** `r` sets up again with discovered labels. */
  lemma PressRediscovers(st: State)
    requires !st.halted && !st.receivingCommand
    ensures Press(st, "r") == SetUp(st, true)
  {
  }

  /** `q` closes the connection and ends the program. */
  lemma PressQuits(st: State)
    requires !st.halted && !st.receivingCommand
    ensures Press(st, "q").halted && !Press(st, "q").connected
  {
  }

  /** After enter starts a command, the keys up to the next enter spell the
      line sent to the reader, which ends in a carriage return and a line feed. */
  lemma PressCommand(st: State, keys: seq<string>)
    requires !st.halted && !st.receivingCommand && "enter" !in keys
    ensures PressFrom(st, ["enter"] + keys + ["enter"], 0)
         == st.(sent := st.sent + [st.command + Concat(keys) + "\r\n"], command := "")
  {
    var ks := ["enter"] + keys + ["enter"];
    var typing := st.(receivingCommand := true);
    assert Press(st, "enter") == typing;
    assert ks[1..|ks| - 1] == keys;
    TypeThenSend(typing, ks, 1);
  }

  lemma {:induction false} TypeThenSend(st: State, ks: seq<string>, i: nat)
    requires !st.halted && st.receivingCommand
    requires i < |ks| && ks[|ks| - 1] == "enter"
    requires forall j :: i <= j < |ks| - 1 ==> ks[j] != "enter"
    ensures PressFrom(st, ks, i)
         == st.(receivingCommand := false, sent := st.sent + [st.command + Concat(ks[i..|ks| - 1]) + "\r\n"], command := "")
    decreases |ks| - i
  {
    if i == |ks| - 1 {
      assert ks[i..|ks| - 1] == [];
      assert st.command + "" == st.command;
    } else {
      var next := st.(command := st.command + ks[i]);
      assert Press(st, ks[i]) == next;
      TypeThenSend(next, ks, i + 1);
      var typed := ks[i..|ks| - 1];
      assert typed[0] == ks[i] && typed[1..] == ks[i + 1..|ks| - 1];
      assert st.command + ks[i] + Concat(typed[1..]) == st.command + Concat(typed);
    }
  }

  lemma {:induction false} PressFromValid(st: State, keys: seq<string>, i: nat)
    requires Valid(st)
    ensures PressFrom(st, keys, i).halted || Valid(PressFrom(st, keys, i))
    decreases |keys| - i
  {
    if i < |keys| {
      PressValid(st, keys[i]);
      var next := Press(st, keys[i]);
      if next.halted {
        HaltedStays(next, keys, i + 1);
      } else {
        PressFromValid(next, keys, i + 1);
      }
    }
  }

  /** Once the program has ended, no key changes anything. */
  lemma {:induction false} HaltedStays(st: State, keys: seq<string>, i: nat)
    requires st.halted
    ensures PressFrom(st, keys, i) == st
    decreases |keys| - i
  {
    if i < |keys| {
      HaltedStays(st, keys, i + 1);
    }
  }

  // ------------------------------------------------------ updatePlotData

  /** With no key pressed during the pause, every ring loosens its tail and
      then fixes it, once each, and nothing else changes. */
  lemma UpdateTails(st: State)
    requires Valid(st) && !st.freezePlot
    ensures var r := UpdatePlotData(st, []);
      && r == st.(rings := r.rings)
      && r.rings.Keys == st.rings.Keys
      && forall s :: s in st.rings ==> r.rings[s] == Call(Call(st.rings[s], LooseTail), FixTail)
  {
    var st1 := st.(rings := CallFrom(st.rings, st.ringKeys, LooseTail, 0));
    CallKeeps(st, LooseTail);
    CallKeeps(st1, FixTail);
  }

  /** A frozen plot is not drawn: only the keys pressed during the pause act. */
  lemma UpdateFrozen(st: State, keys: seq<string>)
    requires !st.halted && st.freezePlot
    ensures UpdatePlotData(st, keys) == PressFrom(st, keys, 0)
    ensures UpdatePlotData(st, []) == st
  {
  }

  /** Drawing keeps the plotter valid, whatever keys are pressed during the
      pause, or the program ends. */
  lemma UpdateValid(st: State, keys: seq<string>)
    requires Valid(st)
    ensures UpdatePlotData(st, keys).halted || Valid(UpdatePlotData(st, keys))
  {
    if st.freezePlot {
      PressFromValid(st, keys, 0);
    } else {
      var st1 := st.(rings := CallFrom(st.rings, st.ringKeys, LooseTail, 0));
      CallKeeps(st, LooseTail);
      PressFromValid(st1, keys, 0);
      var st2 := PressFrom(st1, keys, 0);
      if !st2.halted {
        CallKeeps(st2, FixTail);
      }
    }
  }
}
