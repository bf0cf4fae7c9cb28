/** `plot_lib.Plotter` as an object whose methods update its attributes in
    place, each proved to leave the state the matching function of
    `PlotLibState` gives. The reader and the clock are folded into the
    object: `feed` is what the reader's calls will return, `clock` what
    `time.time()` will, `sent` what `write` was given. `discoverLabels` and
    `getLinesPerType`, module functions taking the reader, are methods here. */
module PlotLib {
  import opened Base
  import opened Records
  import opened Discovery
  import opened Text
  import opened PlotLibState

  class Plotter {
    var labels: seq<string>
    const ringLength: nat
    var ringKeys: seq<string>
    var rings: map<string, Ring>
    var freezePlot: bool
    var receivingCommand: bool
    var command: string
    var feed: seq<Reading>
    var clock: seq<real>
    var sent: seq<string>
    var connected: bool
    var halted: bool

    /** The attributes as a value. */
    function View(): State
      reads this
    {
      State(labels, ringLength, ringKeys, rings, freezePlot, receivingCommand, command,
            feed, clock, sent, connected, halted)
    }

    constructor(feed: seq<Reading>, ringLength: nat, labels: seq<string>, clock: seq<real>)
      ensures View() == Init(labels, ringLength, feed, clock)
    {
      this.labels := labels;
      this.ringLength := ringLength;
      ringKeys, rings := [], map[];
      freezePlot, receivingCommand, command := false, false, "";
      this.feed, this.clock := feed, clock;
      sent, connected, halted := [], true, false;
      new;
      SetUp(false);
      if halted {
        return;
      }
      freezePlot, receivingCommand, command := false, false, "";
    }

    /** One call `self.reader()`. */
    method Read() returns (r: Reading)
      modifies this
      ensures r == Head(old(feed))
      ensures View() == old(View()).(feed := Rest(old(feed)))
    {
      r := Head(feed);
      feed := Rest(feed);
    }

    /** One call `time.time()`. */
    method Now() returns (t: real)
      modifies this
      ensures (t, clock) == Tick(old(clock))
      ensures View() == old(View()).(clock := clock)
    {
      t, clock := Tick(clock).0, Tick(clock).1;
    }

    /** The condition of the loops of `discoverLabels` and `getLinesPerType`:
        `time.time() - timeAtStart < discoverDuration`, with a duration of one
        second. A clock with no reading left has run out of time. */
    method Ongoing(start: real) returns (ongoing: bool)
      modifies this
      ensures ongoing == (old(clock) != [] && old(clock)[0] - start < 1.0)
      ensures clock == Later(old(clock))
      ensures View() == old(View()).(clock := clock)
    {
      ongoing := clock != [] && clock[0] - start < 1.0;
      clock := Later(clock);
    }

    /** An exception escapes, or `sys.exit` is called: the program ends. */
    method Fail()
      modifies this
      ensures View() == Halt(old(View()))
    {
      halted := true;
    }

    method DiscoverLabels() returns (found: seq<string>)
      modifies this
      ensures (View(), found) == PlotLibState.DiscoverLabels(old(View()))
    {
      var seen := Counter([], map[]);
      var start := Now();
      ghost var st0 := View();
      while true
        invariant View() == st0.(feed := feed, clock := clock)
        invariant DiscoverTimed(feed, clock, start, seen) == DiscoverTimed(st0.feed, st0.clock, start, Counter([], map[]))
        decreases |clock|
      {
        var ongoing := Ongoing(start);
        if !ongoing {
          break;
        }
        var r := Read();
        if r.Err? {
          Fail();
          return [];
        }
        seen := Note(seen, r.value, true);
      }
      found := Sort(Frequent(seen.keys, seen.counts, MinThreshold));
    }

    method GetLinesPerType(name: string) returns (w: Width)
      modifies this
      ensures var (start, ticks) := Tick(old(clock));
        (w, feed, clock) == LinesTimed(old(feed), ticks, start, name)
      ensures View() == old(View()).(feed := feed, clock := clock)
    {
      var start := Now();
      ghost var st0 := View();
      while true
        invariant View() == st0.(feed := feed, clock := clock)
        invariant LinesTimed(feed, clock, start, name) == LinesTimed(st0.feed, st0.clock, start, name)
        decreases |clock|
      {
        var ongoing := Ongoing(start);
        if !ongoing {
          break;
        }
        var r := Read();
        if r.Err? {
          return Broke(r.error);
        }
        if Fits(r.value, name) {
          return Found(|r.value.values|);
        }
      }
      return Missing;
    }

    method InitializePlot(l: string)
      modifies this
      ensures View() == PlotLibState.InitializePlot(old(View()), l)
    {
      var packageLength := GetLinesPerType(l);
      if !packageLength.Found? {
        Fail();
        return;
      }
      rings, ringKeys := rings[l := Ring(packageLength.width, ringLength, [])], AddKey(ringKeys, l);
    }

    /** The first assignments of `setUp`. */
    method Start(names: seq<string>)
      modifies this
      ensures View() == PlotLibState.Fresh(old(View()), names)
    {
      labels, freezePlot, rings, ringKeys := names, false, map[], [];
    }

    /** The loop of `setUp` over the labels. */
    method InitializePlots()
      modifies this
      ensures View() == PlotsFrom(old(View()), old(labels), 0)
    {
      var i := 0;
      while i < |labels|
        invariant 0 <= i <= |labels| && labels == old(labels)
        invariant PlotsFrom(View(), labels, i) == PlotsFrom(old(View()), labels, 0)
      {
        if halted {
          return;
        }
        InitializePlot(labels[i]);
        i := i + 1;
      }
    }

    method SetUp(discover: bool)
      modifies this
      ensures View() == PlotLibState.SetUp(old(View()), discover)
    {
      if halted {
        return;
      }
      var names := labels;
      if discover {
        names := DiscoverLabels();
        if halted {
          return;
        }
      }
      Start(names);
      InitializePlots();
    }

    /** `for ring in self.rings.values(): ring.<call>()`. */
    method CallEach(call: RingCall)
      modifies this
      ensures View() == old(View()).(rings := CallFrom(old(rings), old(ringKeys), call, 0))
    {
      var i := 0;
      while i < |ringKeys|
        invariant 0 <= i <= |ringKeys|
        invariant View() == old(View()).(rings := rings)
        invariant CallFrom(rings, ringKeys, call, i) == CallFrom(old(rings), ringKeys, call, 0)
      {
        var s := ringKeys[i];
        if s in rings {
          rings := rings[s := Call(rings[s], call)];
        }
        i := i + 1;
      }
    }

    method Press(key: string)
      modifies this
      ensures View() == PlotLibState.Press(old(View()), key)
    {
      if halted {
        return;
      }
      if receivingCommand {
        if key == "enter" {
          receivingCommand, sent, command := false, sent + [command + "\r\n"], "";
        } else {
          command := command + key;
        }
        return;
      }
      if key == "x" {
        CallEach(Reset);
      } else if key == "p" {
        freezePlot := !freezePlot;
      } else if key == "r" {
        SetUp(true);
      } else if key == "enter" {
        receivingCommand := true;
      } else if key == "q" {
        connected := false;
        Fail();
      }
    }

    /** The keys pressed during `plt.pause`, handled in turn. */
    method PressKeys(keys: seq<string>)
      modifies this
      ensures View() == PressFrom(old(View()), keys, 0)
    {
      var k := 0;
      while k < |keys|
        invariant 0 <= k <= |keys|
        invariant PressFrom(View(), keys, k) == PressFrom(old(View()), keys, 0)
      {
        Press(keys[k]);
        k := k + 1;
      }
    }

    method GetData()
      modifies this
      ensures View() == PlotLibState.GetData(old(View()))
    {
      if halted {
        return;
      }
      var reading := Read();
      if reading.Err? {
        Fail();
        return;
      }
      var r := reading.value;
      if r.Numeric? && r.name in labels && r.name !in rings {
        Fail();
        return;
      }
      if r.Numeric? && r.name in labels && |r.values| == rings[r.name].nY {
        rings := rings[r.name := Call(rings[r.name], Updated(r.values))];
      } else if IsCommand(r) {
        var key := CommandKey(r);
        if key.Err? || (!receivingCommand && key.value == "q") {
          Fail();
          return;
        }
        Press(key.value);
      }
    }

    method UpdatePlotData(keys: seq<string>)
      modifies this
      ensures View() == PlotLibState.UpdatePlotData(old(View()), keys)
    {
      if halted {
        return;
      }
      if freezePlot {
        PressKeys(keys);
        return;
      }
      CallEach(LooseTail);
      PressKeys(keys);
      if halted {
        return;
      }
      CallEach(FixTail);
    }
  }
}
