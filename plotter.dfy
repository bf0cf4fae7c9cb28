/** `plotter.Plotter` as an object: its attributes are fields the methods
    update in place, and each method is proved to leave the state that the
    matching function of `PlotterState` gives. The reader is folded into the
    object: `feed` is what its calls will return, `sent` what `write` was
    given, `connected` whether `closeConnection` is still to come. */
module PlotterObject {
  import opened Base
  import opened Records
  import opened Rows
  import opened Discovery
  import opened Text
  import opened PlotterState

  class Plotter {
    var labels: seq<string>
    const n: nat
    var ls: map<string, nat>
    var ringKeys: seq<string>
    var rings: map<string, Grid>
    var xs: map<string, seq<int>>
    var indexes: map<string, int>
    var lo: map<string, Bound>
    var hi: map<string, Bound>
    var head: int
    var freezePlot: bool
    var receivingCommand: bool
    var command: string
    var feed: seq<Reading>
    var sent: seq<string>
    var connected: bool
    var halted: bool

    /** The attributes as a value. */
    function View(): State
      reads this
    {
      State(labels, n, ls, ringKeys, rings, xs, indexes, lo, hi, head,
            freezePlot, receivingCommand, command, feed, sent, connected, halted)
    }

    constructor(labels: seq<string>, n: nat, feed: seq<Reading>)
      ensures View() == Init(labels, n, feed)
    {
      this.labels := labels;
      this.n := n;
      ls, ringKeys, rings, xs, indexes, lo, hi, head := map[], [], map[], map[], map[], map[], map[], 0;
      freezePlot, receivingCommand, command := false, false, "";
      this.feed := feed;
      sent, connected, halted := [], true, false;
      new;
      if labels != [] {
        SetUp(labels);
        if halted {
          return;
        }
      }
      Ready();
    }

    /** The last assignments of the constructor: the plot runs, and no command is typed. */
    method Ready()
      modifies this
      ensures View() == old(View()).(freezePlot := false, receivingCommand := false, command := "")
    {
      ReadyFields();
    }

    /** The stores of `Ready`, attribute by attribute. */
    method ReadyFields()
      modifies this`freezePlot, this`receivingCommand, this`command
      ensures !freezePlot && !receivingCommand && command == ""
    {
      freezePlot, receivingCommand, command := false, false, "";
    }

    /** One call `self.reader()`. */
    method Read() returns (r: Reading)
      modifies this
      ensures r == Head(old(feed))
      ensures View() == old(View()).(feed := Rest(old(feed)))
    {
      r := Head(feed);
      feed := Rest(feed);
    }

    /** An exception escapes, or `sys.exit` is called: the program ends. */
    method Fail()
      modifies this
      ensures View() == Halt(old(View()))
    {
      halted := true;
    }

    /** The body of the loop of `reset` for the label `s`. */
    method ResetLabel(s: string)
      modifies this
      ensures View() == ResetOne(old(View()), s)
    {
      if s !in ls {
        Fail();
        return;
      }
      var ring: Grid;
      if ringKeys == labels {
        if s !in rings || n == 0 {
          Fail();
          return;
        }
        var g := rings[s];
        var k := (head - 1) % n;
        if k >= |g| {
          Fail();
          return;
        }
        var copied := Broadcast(n, ls[s], g[k]);
        if copied.None? {
          Fail();
          return;
        }
        ring := copied.value;
      } else {
        ring := ZeroGrid(n, ls[s]);
      }
      Restart(s, ring);
    }

    /** The assignments of the loop body of `reset` once the new ring of `s` is known. */
    method Restart(s: string, ring: Grid)
      modifies this
      ensures View() == Cleared(old(View()).(rings := old(rings)[s := ring], ringKeys := AddKey(old(ringKeys), s)), s)
    {
      RestartFields(s, ring);
    }

    /** The stores of `Restart`, attribute by attribute: the ring, and
        positions, count and limits that start over. */
    method RestartFields(s: string, ring: Grid)
      modifies this`rings, this`ringKeys, this`xs, this`indexes, this`lo, this`hi
      ensures rings == old(rings)[s := ring] && ringKeys == AddKey(old(ringKeys), s)
      ensures xs == old(xs)[s := ZeroXs(n)] && indexes == old(indexes)[s := 0]
      ensures lo == old(lo)[s := PosInf] && hi == old(hi)[s := NegInf]
    {
      rings, ringKeys := rings[s := ring], AddKey(ringKeys, s);
      xs, indexes, lo, hi := xs[s := ZeroXs(n)], indexes[s := 0], lo[s := PosInf], hi[s := NegInf];
    }

    method Reset()
      modifies this
      ensures View() == PlotterState.Reset(old(View()))
    {
      if halted {
        return;
      }
      var i := 0;
      while i < |labels|
        invariant 0 <= i <= |labels| && labels == old(labels) && !halted
        invariant ResetFrom(View(), labels, i) == ResetFrom(old(View()), labels, 0)
      {
        ResetLabel(labels[i]);
        if halted {
          return;
        }
        i := i + 1;
      }
    }

    method DiscoverLabels() returns (found: seq<string>)
      modifies this
      ensures (View(), found) == PlotterState.DiscoverLabels(old(View()))
    {
      var seen := Counter([], map[]);
      var i := 0;
      while i < MaxTries
        invariant 0 <= i <= MaxTries
        invariant View() == old(View()).(feed := feed)
        invariant DiscoverFrom(feed, MaxTries - i, seen) == DiscoverFrom(old(feed), MaxTries, Counter([], map[]))
      {
        var r := Read();
        if r.Err? {
          Fail();
          return [];
        }
        seen := Note(seen, r.value, true);
        i := i + 1;
      }
      found := Sort(Frequent(seen.keys, seen.counts, Threshold));
    }

    method GetLinesPerType(name: string) returns (w: Width)
      modifies this
      ensures (w, feed) == LinesFrom(old(feed), MaxTries, name)
      ensures View() == old(View()).(feed := feed)
    {
      var i := 0;
      while i < MaxTries
        invariant 0 <= i <= MaxTries
        invariant View() == old(View()).(feed := feed)
        invariant LinesFrom(feed, MaxTries - i, name) == LinesFrom(old(feed), MaxTries, name)
      {
        var r := Read();
        if r.Err? {
          return Broke(r.error);
        }
        if Fits(r.value, name) {
          return Found(|r.value.values|);
        }
        i := i + 1;
      }
      return Missing;
    }

    /** The first assignments of `setUp`: the labels, and every dictionary emptied. */
    method Start(names: seq<string>)
      modifies this
      ensures View() == Fresh(old(View()), names)
    {
      StartFields(names);
    }

    /** The stores of `Start`, attribute by attribute. */
    method StartFields(names: seq<string>)
      modifies this`labels, this`freezePlot, this`head, this`ls, this`ringKeys, this`rings,
               this`xs, this`indexes, this`lo, this`hi
      ensures labels == names && !freezePlot && head == 0 && ls == map[] && ringKeys == []
      ensures rings == map[] && xs == map[] && indexes == map[] && lo == map[] && hi == map[]
    {
      labels, freezePlot, head := names, false, 0;
      ls, ringKeys, rings, xs, indexes, lo, hi := map[], [], map[], map[], map[], map[], map[];
    }

    method SetUp(given: seq<string>)
      modifies this
      ensures View() == PlotterState.SetUp(old(View()), given)
    {
      if halted {
        return;
      }
      var names := given;
      if given == [] {
        names := DiscoverLabels();
        if halted {
          return;
        }
      }
      Start(names);
      ghost var started := View();
      var i := 0;
      while i < |names|
        invariant 0 <= i <= |names| && !halted
        invariant WidthsFrom(View(), names, i) == WidthsFrom(started, names, 0)
      {
        var w := GetLinesPerType(names[i]);
        if !w.Found? {
          Fail();
          return;
        }
        ls := ls[names[i] := w.width];
        i := i + 1;
      }
      Reset();
    }

    method Press(key: string)
      modifies this
      ensures View() == PlotterState.Press(old(View()), key)
    {
      if halted {
        return;
      }
      if receivingCommand {
        if key == "enter" {
          Send();
        } else {
          command := command + key;
        }
        return;
      }
      if key == "x" {
        Reset();
      } else if key == "p" {
        freezePlot := !freezePlot;
      } else if key == "r" {
        SetUp([]);
      } else if key == "enter" {
        receivingCommand := true;
      } else if key == "q" {
        connected := false;
        Fail();
      }
    }

    /** Enter while a command is typed: the command goes to the reader, and command mode ends. */
    method Send()
      modifies this
      ensures View() == old(View()).(receivingCommand := false, sent := old(sent) + [old(command) + "\r\n"], command := "")
    {
      SendFields();
    }

    /** The stores of `Send`, attribute by attribute. */
    method SendFields()
      modifies this`receivingCommand, this`sent, this`command
      ensures !receivingCommand && sent == old(sent) + [old(command) + "\r\n"] && command == ""
    {
      receivingCommand, sent, command := false, sent + [command + "\r\n"], "";
    }

    /** The first branch of `getData`: the values of a record of label `s`
        go to the row its count selects. */
    method StoreRecord(s: string, vs: seq<real>)
      modifies this
      ensures View() == Store(old(View()), s, vs)
    {
      if s !in indexes || s !in rings || s !in xs || n == 0 {
        Fail();
        return;
      }
      var i := indexes[s];
      var at := i % n;
      var g := SetRow(rings[s], at, Cells(vs));
      if g.None? {
        head := at;
        Fail();
        return;
      }
      if at >= |xs[s]| {
        head, rings := at, rings[s := g.value];
        Fail();
        return;
      }
      Put(s, at, g.value, i);
    }

    /** The assignments of a record stored as row `at` of its ring, stamped with its count `i`. */
    method Put(s: string, at: int, g: Grid, i: int)
      requires s in xs && 0 <= at < |xs[s]|
      modifies this
      ensures View() == old(View()).(head := at, rings := old(rings)[s := g],
                                     xs := old(xs)[s := old(xs)[s][at := i]], indexes := old(indexes)[s := i + 1])
    {
      PutFields(s, at, g, i);
    }

    /** The stores of `Put`, attribute by attribute. */
    method PutFields(s: string, at: int, g: Grid, i: int)
      requires s in xs && 0 <= at < |xs[s]|
      modifies this`head, this`rings, this`xs, this`indexes
      ensures head == at && rings == old(rings)[s := g]
      ensures xs == old(xs)[s := old(xs)[s][at := i]] && indexes == old(indexes)[s := i + 1]
    {
      head, rings := at, rings[s := g];
      xs, indexes := xs[s := xs[s][at := i]], indexes[s := i + 1];
    }

    method GetData()
      modifies this
      ensures View() == PlotterState.GetData(old(View()))
    {
      if halted {
        return;
      }
      var reading := Read();
      if reading.Err? {
        Fail();
        return;
      }
      var r := reading.value;
      if r.Numeric? && r.name in labels && r.name !in ls {
        Fail();
        return;
      }
      if r.Numeric? && r.name in labels && |r.values| == ls[r.name] {
        StoreRecord(r.name, r.values);
      } else if IsCommand(r) {
        var key := CommandKey(r);
        if key.Err? || (!receivingCommand && key.value == "q") {
          Fail();
          return;
        }
        Press(key.value);
      }
    }

    /** One label of the loop of `updatePlotData` before `plt.pause`: its
        limits widen to the values of its ring, and its head row is saved and
        blanked. Only the rings, the limits and `halted` change. */
    method LoosenLabel(s: string, tails: map<string, Row>, tailKeys: seq<string>)
      returns (tails': map<string, Row>, tailKeys': seq<string>)
      requires !halted
      modifies this`rings, this`lo, this`hi, this`halted
      ensures var c := LoosenOne(old(View()), Canvas(old(rings), old(lo), old(hi), tails, tailKeys, false), s);
        rings == c.rings && lo == c.lo && hi == c.hi && halted == c.failed
        && tails' == c.tails && tailKeys' == c.tailKeys
    {
      tails', tailKeys' := tails, tailKeys;
      if s !in ls || s !in xs || s !in indexes || s !in rings || s !in lo || s !in hi {
        halted := true;
        return;
      }
      var g := rings[s];
      var cells := Flat(g);
      if cells == [] {
        halted := true;
        return;
      }
      var low, high := Lower(lo[s], Least(cells)), Raise(hi[s], Greatest(cells));
      if !(0 <= head < |g|) {
        lo, hi, halted := lo[s := low], hi[s := high], true;
        return;
      }
      tails', tailKeys' := tails[s := g[head]], AddKey(tailKeys, s);
      rings, lo, hi := rings[s := g[head := Blank(|g[head]|)]], lo[s := low], hi[s := high];
    }

    /** The loop of `updatePlotData` before `plt.pause`, over every label. */
    method Loosen() returns (tails: map<string, Row>, tailKeys: seq<string>)
      requires !halted
      modifies this
      ensures var c := LoosenFrom(old(View()), Canvas(old(rings), old(lo), old(hi), map[], [], false), old(labels), 0);
        View() == old(View()).(rings := c.rings, lo := c.lo, hi := c.hi, halted := c.failed)
        && tails == c.tails && tailKeys == c.tailKeys
    {
      tails, tailKeys := LoosenLabels();
    }

    /** The loop of `Loosen`, over the rings, the limits and `halted` alone. */
    method LoosenLabels() returns (tails: map<string, Row>, tailKeys: seq<string>)
      requires !halted
      modifies this`rings, this`lo, this`hi, this`halted
      ensures var c := LoosenFrom(old(View()), Canvas(old(rings), old(lo), old(hi), map[], [], false), old(labels), 0);
        rings == c.rings && lo == c.lo && hi == c.hi && halted == c.failed
        && tails == c.tails && tailKeys == c.tailKeys
    {
      ghost var st0 := View();
      tails, tailKeys := map[], [];
      var i := 0;
      while i < |labels|
        invariant 0 <= i <= |labels| && !halted
        invariant LoosenFrom(st0, Canvas(rings, lo, hi, tails, tailKeys, false), st0.labels, i)
               == LoosenFrom(st0, Canvas(st0.rings, st0.lo, st0.hi, map[], [], false), st0.labels, 0)
      {
        ghost var here := View();
        ghost var c := Canvas(rings, lo, hi, tails, tailKeys, false);
        tails, tailKeys := LoosenLabel(labels[i], tails, tailKeys);
        LoosenOneReads(here, st0, c, st0.labels[i]);
        if halted {
          return;
        }
        i := i + 1;
      }
    }

    /** The keys pressed during `plt.pause`, handled in turn. */
    method PressKeys(keys: seq<string>)
      modifies this
      ensures View() == PressFrom(old(View()), keys, 0)
    {
      var k := 0;
      while k < |keys|
        invariant 0 <= k <= |keys|
        invariant PressFrom(View(), keys, k) == PressFrom(old(View()), keys, 0)
      {
        Press(keys[k]);
        k := k + 1;
      }
    }

    /** The saved rows go back to the head of their rings. */
    method Restore(tails: map<string, Row>, tailKeys: seq<string>)
      requires !halted
      modifies this
      ensures var (restored, ok) := RestoreRings(old(rings), old(head), tails, tailKeys, 0);
        View() == old(View()).(rings := restored, halted := !ok)
    {
      RestoreRows(tails, tailKeys);
    }

    /** The loop of `Restore`, over the rings and `halted` alone. */
    method RestoreRows(tails: map<string, Row>, tailKeys: seq<string>)
      requires !halted
      modifies this`rings, this`halted
      ensures var (restored, ok) := RestoreRings(old(rings), head, tails, tailKeys, 0);
        rings == restored && halted == !ok
    {
      var j := 0;
      while j < |tailKeys|
        invariant 0 <= j <= |tailKeys| && !halted
        invariant RestoreRings(rings, head, tails, tailKeys, j) == RestoreRings(old(rings), head, tails, tailKeys, 0)
      {
        var s := tailKeys[j];
        if s !in rings || s !in tails {
          halted := true;
          return;
        }
        var g := SetRow(rings[s], head, tails[s]);
        if g.None? {
          halted := true;
          return;
        }
        rings := rings[s := g.value];
        j := j + 1;
      }
    }

    method UpdatePlotData(keys: seq<string>)
      modifies this
      ensures View() == PlotterState.UpdatePlotData(old(View()), keys)
    {
      if halted || freezePlot {
        return;
      }
      var tails, tailKeys := Loosen();
      if halted {
        return;
      }
      PressKeys(keys);
      if halted {
        return;
      }
      if tailKeys == labels {
        Restore(tails, tailKeys);
      } else {
        Reset();
      }
    }
  }
}
