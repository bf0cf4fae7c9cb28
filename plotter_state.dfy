/** The state of a `plotter.Plotter` as a value, and what each of its
    operations makes of it. The reader the plotter reads from is part of the
    state: the readings it will give (`feed`), the lines written to it
    (`sent`) and whether its connection is still open. An exception that
    escapes an operation, and `sys.exit`, end the program: the state is then
    `halted` and no operation changes it any more. */
module PlotterState {
  import opened Base
  import opened Text
  import opened Records
  import opened Rows
  import opened Discovery

  /** `maxTries` of `discoverLabels` and `getLinesPerType`. */
  const MaxTries: nat := 100

  /** `maxTries / maxExpectedLabels`: how often a label must be seen to be kept. */
  const Threshold: nat := 10

  /** The most values a record may carry to give the number of lines of a label. */
  const MaxLines: nat := 15

  datatype State = State(
    labels: seq<string>,
    n: nat,                        // length of each ring
    ls: map<string, nat>,          // lines per label
    ringKeys: seq<string>,         // the key order of `rings`
    rings: map<string, Grid>,
    xs: map<string, seq<int>>,     // the index stored with each row
    indexes: map<string, int>,     // records stored per label since the last reset
    lo: map<string, Bound>,        // `min_`
    hi: map<string, Bound>,        // `max_`
    head: int,                     // `N`: the row written last
    freezePlot: bool,
    receivingCommand: bool,
    command: string,
    feed: seq<Reading>,
    sent: seq<string>,
    connected: bool,
    halted: bool)

  function Halt(st: State): (r: State)
    ensures r.halted
  {
    st.(halted := true)
  }

  // ---------------------------------------------------------------- reset

  /** What `reset` does to the arrays of one label. While the ring keys are the
      labels, every row becomes a copy of the row before the head, since the
      head itself may be the blank row of a drawing; otherwise the ring
      becomes zeros. */
  function ResetOne(st: State, s: string): State {
    if s !in st.ls then Halt(st)
    else if st.ringKeys == st.labels then
      if s !in st.rings || st.n == 0 then Halt(st)
      else
        var g := st.rings[s];
        var k := (st.head - 1) % st.n;
        if k >= |g| then Halt(st)
        else match Broadcast(st.n, st.ls[s], g[k])
          case None => Halt(st)
          case Some(ng) => Cleared(st.(rings := st.rings[s := ng], ringKeys := AddKey(st.ringKeys, s)), s)
    else
      Cleared(st.(rings := st.rings[s := ZeroGrid(st.n, st.ls[s])], ringKeys := AddKey(st.ringKeys, s)), s)
  }

  /** The positions, count and limits of a label start over. */
  function Cleared(st: State, s: string): State {
    st.(xs := st.xs[s := ZeroXs(st.n)], indexes := st.indexes[s := 0],
        lo := st.lo[s := PosInf], hi := st.hi[s := NegInf])
  }

  /** The loop of `reset` from the `i`-th label on. */
  function ResetFrom(st: State, labels: seq<string>, i: nat): State
    decreases |labels| - i
  {
    if st.halted || i >= |labels| then st
    else ResetFrom(ResetOne(st, labels[i]), labels, i + 1)
  }

  function Reset(st: State): State {
    ResetFrom(st, st.labels, 0)
  }

  // ---------------------------------------------------------------- setUp

  /** `discoverLabels`: among the next `MaxTries` readings, of any kind, the
      labels seen as a numeric record at least `Threshold` times, sorted; an
      exception of the reader ends the program. */
  function DiscoverLabels(st: State): (State, seq<string>) {
    var (res, rest) := DiscoverFrom(st.feed, MaxTries, Counter([], map[]));
    match res
    case Err(_) => (Halt(st.(feed := rest)), [])
    case Ok(c) => (st.(feed := rest), Sort(Frequent(c.keys, c.counts, Threshold)))
  }

  /** `getLinesPerType` for the `i`-th label on: the number of lines of each
      label, or the end of the program when the search fails. The `maxTries`
      loop of `setUp` around it makes one pass, since the search either gives
      a number or raises. */
  function WidthsFrom(st: State, labels: seq<string>, i: nat): State
    decreases |labels| - i
  {
    if st.halted || i >= |labels| then st
    else
      var (w, rest) := LinesFrom(st.feed, MaxTries, labels[i]);
      if w.Found? then WidthsFrom(st.(feed := rest, ls := st.ls[labels[i] := w.width]), labels, i + 1)
      else Halt(st.(feed := rest))
  }

  /** The state `setUp` starts the labels from, before any width is known. */
  function Fresh(st: State, labels: seq<string>): State {
    st.(labels := labels, freezePlot := false, head := 0, ls := map[], ringKeys := [],
        rings := map[], xs := map[], indexes := map[], lo := map[], hi := map[])
  }

  /** `setUp(labels)`: discovery when no label is given, then the widths, then a reset. */
  function SetUp(st: State, given: seq<string>): State {
    if st.halted then st
    else
      var (st1, labels) := if given == [] then DiscoverLabels(st) else (st, given);
      if st1.halted then st1
      else Reset(WidthsFrom(Fresh(st1, labels), labels, 0))
  }

  // ---------------------------------------------------------------- press

  /** `press(event)` for a key. In command mode every key but enter is added to
      the command and enter sends it; otherwise `x` resets, `p` freezes or
      thaws the plot, `r` sets up anew with discovered labels, enter starts a
      command and `q` closes the connection and exits. `g` only saves a
      picture, and other keys do nothing. */
  function Press(st: State, key: string): State {
    if st.halted then st
    else if st.receivingCommand then
      if key == "enter" then st.(receivingCommand := false, sent := st.sent + [st.command + "\r\n"], command := "")
      else st.(command := st.command + key)
    else if key == "x" then Reset(st)
    else if key == "p" then st.(freezePlot := !st.freezePlot)
    else if key == "r" then SetUp(st, [])
    else if key == "enter" then st.(receivingCommand := true)
    else if key == "q" then Halt(st.(connected := false))
    else st
  }

  /** `press` for a key that arrives in the data stream. The `FakeKeyEvent`
      it comes in has no `canvas`, so outside command mode `q` raises
      AttributeError at `plt.close(event.canvas.figure)`, before the
      connection is closed; every other key acts as when it is pressed. */
  function PressStreamed(st: State, key: string): State {
    if !st.halted && !st.receivingCommand && key == "q" then Halt(st) else Press(st, key)
  }

  /** The keys pressed while the plot is drawn, in turn, from the `i`-th on. */
  function PressFrom(st: State, keys: seq<string>, i: nat): State
    decreases |keys| - i
  {
    if i >= |keys| then st else PressFrom(Press(st, keys[i]), keys, i + 1)
  }

  // -------------------------------------------------------------- getData

  /** Stores the values of a record of label `s` in the row its count selects
      and stamps the row with the count. */
  function Store(st: State, s: string, vs: seq<real>): State {
    if s !in st.indexes || s !in st.rings || s !in st.xs || st.n == 0 then Halt(st)
    else
      var i := st.indexes[s];
      var at := i % st.n;
      match SetRow(st.rings[s], at, Cells(vs))
      case None => Halt(st.(head := at))
      case Some(g) =>
        if at >= |st.xs[s]| then Halt(st.(head := at, rings := st.rings[s := g]))
        else st.(head := at, rings := st.rings[s := g], xs := st.xs[s := st.xs[s][at := i]],
                 indexes := st.indexes[s := i + 1])
  }

  /** A record is stored when it is numeric, of a plotted label, and has as
      many values as that label has lines. */
  predicate Stores(st: State, r: Record) {
    r.Numeric? && r.name in st.labels && r.name in st.ls && |r.values| == st.ls[r.name]
  }

  /** `getData`: one reading. A record of a plotted label is stored, a
      COMMAND record presses the key it carries, any other record is only
      printed; an exception ends the program. */
  function GetData(st: State): State {
    if st.halted then st
    else
      var st1 := st.(feed := Rest(st.feed));
      match Head(st.feed)
      case Err(_) => Halt(st1)
      case Ok(r) =>
        if r.Numeric? && r.name in st.labels && r.name !in st.ls then Halt(st1)
        else if Stores(st, r) then Store(st1, r.name, r.values)
        else if IsCommand(r) then
          match CommandKey(r)
          case Err(_) => Halt(st1)
          case Ok(key) => PressStreamed(st1, key)
        else st1
  }

  // ------------------------------------------------------- updatePlotData

  /** What a drawing changes: the rings and limits, the head rows saved so
      far with their keys in insertion order, and whether an exception ended
      the drawing. */
  datatype Canvas = Canvas(rings: map<string, Grid>, lo: map<string, Bound>, hi: map<string, Bound>,
                           tails: map<string, Row>, tailKeys: seq<string>, failed: bool)

  /** One label of the drawing: its limits widen to the values of its ring,
      and its head row is saved and blanked. */
  function LoosenOne(st: State, c: Canvas, s: string): Canvas {
    if s !in st.ls || s !in st.xs || s !in st.indexes || s !in c.rings || s !in c.lo || s !in c.hi then
      c.(failed := true)
    else
      var g := c.rings[s];
      var cells := Flat(g);
      if cells == [] then c.(failed := true)
      else
        var lo := c.lo[s := Lower(c.lo[s], Least(cells))];
        var hi := c.hi[s := Raise(c.hi[s], Greatest(cells))];
        if !(0 <= st.head < |g|) then c.(lo := lo, hi := hi, failed := true)
        else
          var row := g[st.head];
          Canvas(c.rings[s := g[st.head := Blank(|row|)]], lo, hi, c.tails[s := row], AddKey(c.tailKeys, s), false)
  }

  /** A label of the drawing depends on the state only through the lines,
      positions and counts of the labels and the head. */
  lemma LoosenOneReads(a: State, b: State, c: Canvas, s: string)
    requires a.ls == b.ls && a.xs == b.xs && a.indexes == b.indexes && a.head == b.head
    ensures LoosenOne(a, c, s) == LoosenOne(b, c, s)
  {
  }

  function LoosenFrom(st: State, c: Canvas, labels: seq<string>, i: nat): Canvas
    decreases |labels| - i
  {
    if c.failed || i >= |labels| then c
    else LoosenFrom(st, LoosenOne(st, c, labels[i]), labels, i + 1)
  }

  /** Puts the saved rows back at the head, label by label: the rings, and
      whether every row went back. */
  function RestoreRings(rings: map<string, Grid>, head: int, tails: map<string, Row>, keys: seq<string>, i: nat)
    : (map<string, Grid>, bool)
    decreases |keys| - i
  {
    if i >= |keys| then (rings, true)
    else
      var s := keys[i];
      if s !in rings || s !in tails then (rings, false)
      else match SetRow(rings[s], head, tails[s])
        case None => (rings, false)
        case Some(g) => RestoreRings(rings[s := g], head, tails, keys, i + 1)
  }

  /** `updatePlotData` when `keys` are pressed during `plt.pause`. Nothing
      happens while the plot is frozen. Otherwise the limits widen and the
      head rows are blanked, the keys are handled, and the head rows are put
      back when the labels are still the ones drawn; else the rings reset. */
  function UpdatePlotData(st: State, keys: seq<string>): State {
    if st.halted || st.freezePlot then st
    else
      var c := LoosenFrom(st, Canvas(st.rings, st.lo, st.hi, map[], [], false), st.labels, 0);
      var drawn := st.(rings := c.rings, lo := c.lo, hi := c.hi);
      if c.failed then Halt(drawn)
      else
        var st2 := PressFrom(drawn, keys, 0);
        if st2.halted then st2
        else if c.tailKeys == st2.labels then
          var (rings, ok) := RestoreRings(st2.rings, st2.head, c.tails, c.tailKeys, 0);
          if ok then st2.(rings := rings) else Halt(st2.(rings := rings))
        else Reset(st2)
  }

  // ------------------------------------------------------------ new state

  /** `Plotter(labels, reader, n, plotParams)`: set up at once when labels are
      given; otherwise the labels stay empty until a key `r` sets up. */
  function Init(labels: seq<string>, n: nat, feed: seq<Reading>): State {
    var st := State(labels, n, map[], [], map[], map[], map[], map[], map[], 0,
                    false, false, "", feed, [], true, false);
    var st1 := if labels != [] then SetUp(st, labels) else st;
    if st1.halted then st1 else st1.(freezePlot := false, receivingCommand := false, command := "")
  }

  // ------------------------------------------------------------ invariant

  /** Every cell of the grid holds a number. */
  predicate Numbers(g: Grid) {
    forall k, j :: 0 <= k < |g| && 0 <= j < |g[k]| ==> g[k][j].Some?
  }

  /** The arrays of label `s` exist with the shapes `setUp` gives them. */
  predicate Healthy(st: State, s: string) {
    && s in st.ls && 1 <= st.ls[s] <= MaxLines
    && s in st.rings && Shaped(st.rings[s], st.n, st.ls[s]) && Numbers(st.rings[s])
    && s in st.xs && |st.xs[s]| == st.n
    && s in st.indexes && st.indexes[s] >= 0
    && s in st.lo && s in st.hi
  }

  /** A plotter that is set up and running: each label once, the rings keyed
      by the labels in their order, and the head a row of every ring. */
  predicate Valid(st: State) {
    && !st.halted && st.n >= 1 && 0 <= st.head < st.n
    && Distinct(st.labels) && st.ringKeys == st.labels
    && forall s :: s in st.labels ==> Healthy(st, s)
  }

  /** The two states differ at most in the arrays kept per label. */
  predicate SameButArrays(a: State, b: State) {
    a.(rings := b.rings, xs := b.xs, indexes := b.indexes, lo := b.lo, hi := b.hi) == b
  }

  /** The ring `reset` makes for a label of a running plotter: the row before
      the head, `n` times. */
  function Copied(st: State, s: string): (g: Grid)
    requires Valid(st) && s in st.labels
    ensures Shaped(g, st.n, st.ls[s]) && Numbers(g)
  {
    var row := st.rings[s][(st.head - 1) % st.n];
    seq(st.n, _ => row)
  }

  /** The arrays of `s` as `reset` leaves them, with the ring `g`. */
  predicate Restarted(st: State, s: string, g: Grid) {
    && s in st.rings && st.rings[s] == g
    && s in st.xs && st.xs[s] == ZeroXs(st.n)
    && s in st.indexes && st.indexes[s] == 0
    && s in st.lo && st.lo[s] == PosInf
    && s in st.hi && st.hi[s] == NegInf
  }

  /** `reset` on a running plotter: every ring holds the row before the head in
      each of its rows, the positions and counts are zero, the limits are
      infinite, and nothing else changes. */
  lemma ResetKeeps(st: State)
    requires Valid(st)
    ensures SameButArrays(Reset(st), st)
    ensures forall s :: s in st.labels ==> Restarted(Reset(st), s, Copied(st, s))
    ensures Valid(Reset(st))
  {
    forall j | 0 <= j < |st.labels| ensures st.labels[j] in st.rings {
      assert Healthy(st, st.labels[j]);
    }
    ResetFromCopies(st, st, 0);
    var r := Reset(st);
    forall s | s in r.labels ensures Healthy(r, s) {
      assert Restarted(r, s, Copied(st, s));
    }
  }

  lemma {:induction false} ResetFromCopies(st0: State, st: State, i: nat)
    requires Valid(st0) && i <= |st0.labels|
    requires SameButArrays(st, st0)
    requires forall j :: 0 <= j < i ==> Restarted(st, st0.labels[j], Copied(st0, st0.labels[j]))
    requires forall j :: i <= j < |st0.labels| ==>
               st0.labels[j] in st.rings && st0.labels[j] in st0.rings && st.rings[st0.labels[j]] == st0.rings[st0.labels[j]]
    ensures SameButArrays(ResetFrom(st, st0.labels, i), st0)
    ensures forall s :: s in st0.labels ==> Restarted(ResetFrom(st, st0.labels, i), s, Copied(st0, s))
    decreases |st0.labels| - i
  {
    var labels := st0.labels;
    if i < |labels| {
      var s := labels[i];
      var next := ResetOne(st, s);
      ResetOneCopies(st0, st, s);
      assert next == Cleared(st.(rings := st.rings[s := Copied(st0, s)]), s);
      forall j | 0 <= j <= i ensures Restarted(next, labels[j], Copied(st0, labels[j])) {
        if j < i {
          assert labels[j] != s;
        }
      }
      forall j | i + 1 <= j < |labels|
        ensures labels[j] in next.rings && labels[j] in st0.rings && next.rings[labels[j]] == st0.rings[labels[j]]
      {
        assert labels[j] != s;
      }
      ResetFromCopies(st0, next, i + 1);
    } else {
      forall s | s in labels ensures Restarted(st, s, Copied(st0, s)) {
        var j :| 0 <= j < |labels| && labels[j] == s;
      }
    }
  }

  lemma ResetOneCopies(st0: State, st: State, s: string)
    requires Valid(st0) && s in st0.labels && SameButArrays(st, st0)
    requires s in st.rings && st.rings[s] == st0.rings[s]
    ensures ResetOne(st, s) == Cleared(st.(rings := st.rings[s := Copied(st0, s)]), s)
  {
    var g := st.rings[s];
    var k := (st.head - 1) % st.n;
    assert Healthy(st0, s);
    assert |g[k]| == st.ls[s];
    assert AddKey(st.ringKeys, s) == st.ringKeys;
  }

  // ------------------------------------------------------------- setting up

  /** What `setUp` leaves of a plotter: these labels, each with a ring of
      zeros, the head at row 0, the plot thawed, and the command, the lines
      sent and the connection as they were. */
  predicate Restored(st: State, r: State, labels: seq<string>) {
    && r.labels == labels && r.head == 0 && !r.freezePlot
    && r.n == st.n && r.receivingCommand == st.receivingCommand && r.command == st.command
    && r.sent == st.sent && r.connected == st.connected
    && forall s :: s in labels ==> s in r.ls && Restarted(r, s, ZeroGrid(r.n, r.ls[s]))
  }

  /** `setUp` with labels each given once: the plotter runs with them. */
  predicate StartedWith(st: State, r: State, labels: seq<string>) {
    Valid(r) && Restored(st, r, labels)
  }

  /** `setUp` with a label given twice: the plotter runs, but the ring keys,
      kept once each, can never match the labels. */
  predicate StartedRepeating(st: State, r: State, labels: seq<string>) {
    Repeating(r) && Restored(st, r, labels)
  }

  /** `setUp` with labels given: either a search for the number of lines of a
      label fails and the program ends, or the plotter runs with exactly those
      labels. */
  lemma SetUpGiven(st: State, given: seq<string>)
    requires !st.halted && st.n >= 1 && given != []
    ensures var r := SetUp(st, given);
      r.halted || if Distinct(given) then StartedWith(st, r, given) else StartedRepeating(st, r, given)
  {
    SetUpFrom(st, given);
  }

  /** `setUp` with no label: an exception among the first `MaxTries` readings
      ends the program; otherwise, unless a search for the number of lines
      fails, the plotter runs with the labels seen at least `Threshold` times
      among those readings, in increasing order. */
  lemma SetUpDiscovers(st: State)
    requires !st.halted && st.n >= 1
    ensures FirstErr(Take(st.feed, MaxTries)) < MaxTries ==> SetUp(st, []).halted
    ensures !SetUp(st, []).halted ==>
              StartedWith(st, SetUp(st, []), Chosen(Recs(Take(st.feed, MaxTries)), Threshold))
  {
    var obs := Take(st.feed, MaxTries);
    DiscoverLabelsReads(st);
    if FirstErr(obs) == MaxTries {
      var labels := Chosen(Recs(obs), Threshold);
      ChosenLabels(Recs(obs), Threshold);
      IncreasingDistinct(labels);
      SetUpFrom(DiscoverLabels(st).0, labels);
    }
  }

  /** Discovery ends the program at an exception among the first `MaxTries`
      readings, and otherwise chooses among the records of those readings. */
  lemma DiscoverLabelsReads(st: State)
    ensures var obs := Take(st.feed, MaxTries);
      && (FirstErr(obs) < MaxTries ==> DiscoverLabels(st).0.halted)
      && (FirstErr(obs) == MaxTries ==>
            DiscoverLabels(st) == (st.(feed := Drop(st.feed, MaxTries)), Chosen(Recs(obs), Threshold)))
  {
    var obs := Take(st.feed, MaxTries);
    if FirstErr(obs) < MaxTries {
      DiscoverRaises(st.feed, MaxTries, Counter([], map[]));
    } else {
      DiscoverClean(st.feed, MaxTries, []);
      assert [] + Recs(obs) == Recs(obs);
    }
  }

  lemma SetUpFrom(st: State, labels: seq<string>)
    requires !st.halted && st.n >= 1
    ensures var r := Reset(WidthsFrom(Fresh(st, labels), labels, 0));
      r.halted || if Distinct(labels) then StartedWith(st, r, labels) else StartedRepeating(st, r, labels)
  {
    var w := WidthsFrom(Fresh(st, labels), labels, 0);
    WidthsFromFound(Fresh(st, labels), labels, 0);
    if !w.halted && Distinct(labels) {
      SetUpFromDistinct(st, w, labels);
    } else if !w.halted {
      SetUpFromRepeated(st, w, labels);
    }
  }

  lemma SetUpFromDistinct(st: State, w: State, labels: seq<string>)
    requires !st.halted && st.n >= 1 && Distinct(labels) && !w.halted
    requires w.(feed := Fresh(st, labels).feed, ls := Fresh(st, labels).ls) == Fresh(st, labels)
    requires forall s :: s in labels ==> s in w.ls && 1 <= w.ls[s] <= MaxLines
    ensures StartedWith(st, Reset(w), labels)
  {
    FreshResetZeros(w, w, 0);
    var r := Reset(w);
    forall s | s in labels ensures Healthy(r, s) {
      assert s in r.ls && Restarted(r, s, ZeroGrid(r.n, r.ls[s]));
    }
  }

  lemma SetUpFromRepeated(st: State, w: State, labels: seq<string>)
    requires !st.halted && st.n >= 1 && !Distinct(labels) && !w.halted
    requires w.(feed := Fresh(st, labels).feed, ls := Fresh(st, labels).ls) == Fresh(st, labels)
    requires forall s :: s in labels ==> s in w.ls && 1 <= w.ls[s] <= MaxLines
    ensures StartedRepeating(st, Reset(w), labels)
  {
    ResetFromZeros(w, 0);
    var r := Reset(w);
    forall s | s in labels ensures Healthy(r, s) {
      assert s in r.ls && Restarted(r, s, ZeroGrid(r.n, r.ls[s]));
    }
  }

  lemma {:induction false} WidthsFromFound(st: State, labels: seq<string>, i: nat)
    requires i <= |labels|
    requires forall j :: 0 <= j < i ==> labels[j] in st.ls && 1 <= st.ls[labels[j]] <= MaxLines
    ensures var r := WidthsFrom(st, labels, i);
      r.halted || (r.(feed := st.feed, ls := st.ls) == st
                   && forall s :: s in labels ==> s in r.ls && 1 <= r.ls[s] <= MaxLines)
    decreases |labels| - i
  {
    if !st.halted && i < |labels| {
      LinesFromFirst(st.feed, MaxTries, labels[i]);
      var (w, rest) := LinesFrom(st.feed, MaxTries, labels[i]);
      if w.Found? {
        WidthsFromFound(st.(feed := rest, ls := st.ls[labels[i] := w.width]), labels, i + 1);
      }
    } else if !st.halted {
      forall s | s in labels ensures s in st.ls && 1 <= st.ls[s] <= MaxLines {
        var j :| 0 <= j < |labels| && labels[j] == s;
      }
    }
  }

  lemma {:induction false} FreshResetZeros(st0: State, st: State, i: nat)
    requires !st0.halted && st0.n >= 1 && Distinct(st0.labels) && st0.ringKeys == []
    requires forall s :: s in st0.labels ==> s in st0.ls && 1 <= st0.ls[s] <= MaxLines
    requires i <= |st0.labels|
    requires SameButArrays(st.(ringKeys := []), st0) && st.ringKeys == st0.labels[..i]
    requires forall j :: 0 <= j < i ==> Restarted(st, st0.labels[j], ZeroGrid(st0.n, st0.ls[st0.labels[j]]))
    ensures var r := ResetFrom(st, st0.labels, i);
      && SameButArrays(r.(ringKeys := []), st0) && r.ringKeys == st0.labels
      && forall s :: s in st0.labels ==> Restarted(r, s, ZeroGrid(st0.n, st0.ls[s]))
    decreases |st0.labels| - i
  {
    var labels := st0.labels;
    if i < |labels| {
      var s := labels[i];
      var next := ResetOne(st, s);
      ResetOneZeros(st0, st, i);
      RestartedKept(st, next, labels, i, st0.n, st0.ls);
      FreshResetZeros(st0, next, i + 1);
    } else {
      assert labels[..i] == labels;
      forall s | s in labels ensures Restarted(st, s, ZeroGrid(st0.n, st0.ls[s])) {
        var j :| 0 <= j < |labels| && labels[j] == s;
      }
    }
  }

  lemma ResetOneZeros(st0: State, st: State, i: nat)
    requires Distinct(st0.labels) && i < |st0.labels| && st.labels == st0.labels
    requires st0.labels[i] in st.ls
    requires st.ringKeys == st0.labels[..i]
    ensures var s := st0.labels[i];
      ResetOne(st, s) == Cleared(st.(rings := st.rings[s := ZeroGrid(st.n, st.ls[s])], ringKeys := st0.labels[..i + 1]), s)
  {
    var labels := st0.labels;
    var s := labels[i];
    assert st.ringKeys != labels by {
      assert |st.ringKeys| == i;
    }
    assert s !in labels[..i];
    assert AddKey(labels[..i], s) == labels[..i + 1];
  }

  /** Clearing the `i`-th label to zeros keeps the labels before it cleared. */
  lemma RestartedKept(st: State, next: State, labels: seq<string>, i: nat, n: nat, ls: map<string, nat>)
    requires Distinct(labels) && i < |labels| && labels[i] in ls && st.n == n
    requires forall j :: 0 <= j < i ==> labels[j] in ls && Restarted(st, labels[j], ZeroGrid(n, ls[labels[j]]))
    requires next == Cleared(st.(rings := st.rings[labels[i] := ZeroGrid(n, ls[labels[i]])], ringKeys := labels[..i + 1]), labels[i])
    ensures forall j :: 0 <= j <= i ==> labels[j] in ls && Restarted(next, labels[j], ZeroGrid(n, ls[labels[j]]))
  {
    forall j | 0 <= j <= i ensures labels[j] in ls && Restarted(next, labels[j], ZeroGrid(n, ls[labels[j]])) {
      if j < i {
        assert labels[j] != labels[i];
      }
    }
  }

  // ------------------------------------------------------- reading data

  /** A record of a plotted label with one value per line goes to the row its
      count selects, the count modulo the ring length: that row of that ring,
      and nothing else of the rings, now holds the values; the row is stamped
      with the count, the count goes up by one and the head moves to the row.
      The plotter keeps running. */
  lemma GetDataStores(st: State, s: string, vs: seq<real>)
    requires Valid(st) && Head(st.feed) == Ok(Numeric(s, vs))
    requires s in st.labels && s in st.ls && |vs| == st.ls[s]
    ensures var i := st.indexes[s];
      var at := i % st.n;
      && 0 <= at < |st.rings[s]| && at < |st.xs[s]|
      && GetData(st) == st.(feed := Rest(st.feed), head := at,
                            rings := st.rings[s := st.rings[s][at := Cells(vs)]],
                            xs := st.xs[s := st.xs[s][at := i]],
                            indexes := st.indexes[s := i + 1])
    ensures Valid(GetData(st))
  {
    assert Healthy(st, s);
    var st1 := st.(feed := Rest(st.feed));
    StoreAt(st1, s, vs);
    ValidStored(st1, s, vs);
  }

  lemma StoreAt(st: State, s: string, vs: seq<real>)
    requires !st.halted && st.n >= 1 && Healthy(st, s) && |vs| == st.ls[s]
    ensures var i := st.indexes[s];
      var at := i % st.n;
      && 0 <= at < |st.rings[s]| && at < |st.xs[s]|
      && Store(st, s, vs) == st.(head := at, rings := st.rings[s := st.rings[s][at := Cells(vs)]],
                                 xs := st.xs[s := st.xs[s][at := i]], indexes := st.indexes[s := i + 1])
  {
  }

  lemma ValidStored(st: State, s: string, vs: seq<real>)
    requires Valid(st) && s in st.labels && Healthy(st, s) && |vs| == st.ls[s]
    ensures Valid(Store(st, s, vs))
  {
    StoreAt(st, s, vs);
    var r := Store(st, s, vs);
    forall t | t in r.labels ensures Healthy(r, t) {
      assert Healthy(st, t);
    }
  }

  /** A record that is neither stored nor a command is only printed: the
      reading is consumed and the rings, positions and counts stay as they
      were. */
  lemma GetDataPrints(st: State, r: Record)
    requires Valid(st) && Head(st.feed) == Ok(r) && !Stores(st, r) && !IsCommand(r)
    ensures GetData(st) == st.(feed := Rest(st.feed))
    ensures Valid(GetData(st))
  {
    if r.Numeric? && r.name in st.labels {
      assert Healthy(st, r.name);
    }
    ValidKept(st, st.(feed := Rest(st.feed)));
  }

  /** A reading that raises ends the program. */
  lemma GetDataRaises(st: State, e: PyError)
    requires !st.halted && Head(st.feed) == Err(e)
    ensures GetData(st) == Halt(st.(feed := Rest(st.feed)))
  {
  }

  /** A `COMMAND` line with text after the label presses the key its first
      field spells once white space around it is dropped. A `q` outside
      command mode raises instead, since the event has no canvas: the program
      ends with the connection left open. */
  lemma GetDataCommand(st: State, fields: seq<string>)
    requires !st.halted && Head(st.feed) == Ok(NonNumeric("COMMAND", fields)) && |fields| > 0
    ensures var st1 := st.(feed := Rest(st.feed));
      if !st.receivingCommand && Strip(fields[0]) == "q" then
        GetData(st) == st1.(halted := true) && GetData(st).connected == st.connected
      else GetData(st) == Press(st1, Strip(fields[0]))
  {
  }

  /** One reading keeps a running plotter running, or ends the program. */
  lemma GetDataValid(st: State)
    requires Valid(st)
    ensures GetData(st).halted || Valid(GetData(st))
  {
    var st1 := st.(feed := Rest(st.feed));
    assert Valid(st1) by {
      forall t | t in st1.labels ensures Healthy(st1, t) {
        assert Healthy(st, t);
      }
    }
    match Head(st.feed)
    case Err(_) =>
    case Ok(r) =>
      if Stores(st, r) {
        GetDataStores(st, r.name, r.values);
      } else if IsCommand(r) && CommandKey(r).Ok? {
        PressValid(st1, CommandKey(r).value);
      }
  }

  // ------------------------------------------------------------- keys

  /** A key keeps a running plotter running, or ends the program. */
  lemma PressValid(st: State, key: string)
    requires Valid(st)
    ensures Press(st, key).halted || Valid(Press(st, key))
  {
    if st.receivingCommand && key == "enter" {
      PressSends(st);
    } else if st.receivingCommand {
      PressTypes(st, key);
    } else if key == "x" {
      assert Press(st, key) == Reset(st);
      ResetKeeps(st);
    } else if key == "r" {
      assert Press(st, key) == SetUp(st, []);
      SetUpDiscovers(st);
    } else if key == "p" {
      PressPauses(st);
    } else if key == "enter" {
      PressStartsCommand(st);
    } else if key != "q" {
      PressIgnores(st, key);
    }
  }

  /** In command mode enter sends the command with a carriage return and a
      line feed to the reader, empties it and leaves command mode. */
  lemma PressSends(st: State)
    requires !st.halted && st.receivingCommand
    ensures Press(st, "enter") == st.(receivingCommand := false, sent := st.sent + [st.command + "\r\n"], command := "")
    ensures Valid(st) ==> Valid(Press(st, "enter"))
  {
    if Valid(st) {
      ValidKept(st, Press(st, "enter"));
    }
  }

  /** In command mode any other key is added to the command. */
  lemma PressTypes(st: State, key: string)
    requires !st.halted && st.receivingCommand && key != "enter"
    ensures Press(st, key) == st.(command := st.command + key)
    ensures Valid(st) ==> Valid(Press(st, key))
  {
    if Valid(st) {
      ValidKept(st, Press(st, key));
    }
  }

  /** `x` resets a running plotter: every ring is refilled with the row
      before the head, the positions, counts and limits start over, and
      nothing else changes. */
  lemma PressResets(st: State)
    requires Valid(st) && !st.receivingCommand
    ensures Press(st, "x") == Reset(st)
    ensures SameButArrays(Press(st, "x"), st)
    ensures forall s :: s in st.labels ==> Restarted(Press(st, "x"), s, Copied(st, s))
    ensures Valid(Press(st, "x"))
  {
    ResetKeeps(st);
  }

  /** `p` freezes a moving plot and thaws a frozen one. */
  lemma PressPauses(st: State)
    requires !st.halted && !st.receivingCommand
    ensures Press(st, "p") == st.(freezePlot := !st.freezePlot)
    ensures Press(Press(st, "p"), "p") == st
    ensures Valid(st) ==> Valid(Press(st, "p"))
  {
    if Valid(st) {
      ValidKept(st, Press(st, "p"));
    }
  }

  /** Enter starts a command. */
  lemma PressStartsCommand(st: State)
    requires !st.halted && !st.receivingCommand
    ensures Press(st, "enter") == st.(receivingCommand := true)
    ensures Valid(st) ==> Valid(Press(st, "enter"))
  {
    if Valid(st) {
      ValidKept(st, Press(st, "enter"));
    }
  }

  /** `q` closes the connection and ends the program; `g` and the keys
      without a meaning change nothing that is modelled. */
  lemma PressIgnores(st: State, key: string)
    requires !st.halted && !st.receivingCommand && key !in {"x", "p", "r", "enter", "q"}
    ensures Press(st, key) == st
    ensures Press(st, "q") == st.(connected := false, halted := true)
  {
  }

  /** A state with the labels and arrays of a running plotter is running too. */
  lemma ValidKept(st: State, r: State)
    requires Valid(st) && !r.halted
    requires r.labels == st.labels && r.n == st.n && r.head == st.head && r.ringKeys == st.ringKeys
    requires r.ls == st.ls && r.rings == st.rings && r.xs == st.xs && r.indexes == st.indexes
    requires r.lo == st.lo && r.hi == st.hi
    ensures Valid(r)
  {
    forall t | t in r.labels ensures Healthy(r, t) {
      assert Healthy(st, t);
    }
  }

  /** After enter starts a command, the keys up to the next enter spell the
      line sent to the reader, which ends in a carriage return and a line
      feed; the command is then empty again and keys act on the plot. */
  lemma PressCommand(st: State, keys: seq<string>)
    requires !st.halted && !st.receivingCommand && "enter" !in keys
    ensures PressFrom(st, ["enter"] + keys + ["enter"], 0)
         == st.(sent := st.sent + [st.command + Concat(keys) + "\r\n"], command := "")
  {
    var ks := ["enter"] + keys + ["enter"];
    var typing := st.(receivingCommand := true);
    assert Press(st, "enter") == typing;
    assert ks[1..|ks| - 1] == keys;
    TypeThenSend(typing, ks, 1);
  }

  lemma {:induction false} TypeThenSend(st: State, ks: seq<string>, i: nat)
    requires !st.halted && st.receivingCommand
    requires i < |ks| && ks[|ks| - 1] == "enter"
    requires forall j :: i <= j < |ks| - 1 ==> ks[j] != "enter"
    ensures PressFrom(st, ks, i)
         == st.(receivingCommand := false, sent := st.sent + [st.command + Concat(ks[i..|ks| - 1]) + "\r\n"], command := "")
    decreases |ks| - i
  {
    if i == |ks| - 1 {
      assert ks[i..|ks| - 1] == [];
      assert st.command + "" == st.command;
    } else {
      var next := st.(command := st.command + ks[i]);
      assert Press(st, ks[i]) == next;
      TypeThenSend(next, ks, i + 1);
      var typed := ks[i..|ks| - 1];
      assert typed[0] == ks[i] && typed[1..] == ks[i + 1..|ks| - 1];
      assert st.command + ks[i] + Concat(typed[1..]) == st.command + Concat(typed);
    }
  }

  // -------------------------------------------------------------- drawing

  /** Label `s` once the drawing is past it: its head row saved and blanked,
      its limits widened to its ring. */
  predicate Loosened(st: State, c: Canvas, s: string) {
    && s in st.rings && s in st.lo && s in st.hi
    && var g := st.rings[s];
    && 0 <= st.head < |g| && |Flat(g)| > 0
    && s in c.tails && c.tails[s] == g[st.head]
    && s in c.rings && c.rings[s] == g[st.head := Blank(|g[st.head]|)]
    && s in c.lo && c.lo[s] == Lower(st.lo[s], Least(Flat(g)))
    && s in c.hi && c.hi[s] == Raise(st.hi[s], Greatest(Flat(g)))
  }

  /** The canvas after the first `i` labels. */
  predicate LoosenedUpTo(st: State, c: Canvas, i: nat) {
    LoosenFrame(st, c, i) && LoosenDone(st, c, i) && LoosenTodo(st, c, i)
  }

  /** The rows saved are keyed by the labels done, and the rings and limits
      keep their keys. */
  predicate LoosenFrame(st: State, c: Canvas, i: nat) {
    && i <= |st.labels| && !c.failed
    && c.tailKeys == st.labels[..i]
    && c.rings.Keys == st.rings.Keys && c.lo.Keys == st.lo.Keys && c.hi.Keys == st.hi.Keys
  }

  predicate LoosenDone(st: State, c: Canvas, i: nat) {
    forall j :: 0 <= j < i && j < |st.labels| ==> Loosened(st, c, st.labels[j])
  }

  /** The labels not yet done, and any other key, are as they were. */
  predicate LoosenTodo(st: State, c: Canvas, i: nat) {
    && i <= |st.labels|
    && (forall k :: k in st.rings && k in c.rings && k !in st.labels[..i] ==> c.rings[k] == st.rings[k])
    && (forall k :: k in st.lo && k in c.lo && k !in st.labels[..i] ==> c.lo[k] == st.lo[k])
    && (forall k :: k in st.hi && k in c.hi && k !in st.labels[..i] ==> c.hi[k] == st.hi[k])
  }

  /** The canvas once label `s`, with ring `g` and limits `lo` and `hi`, is done. */
  function Widened(c: Canvas, s: string, g: Grid, head: nat, lo: Bound, hi: Bound): Canvas
    requires head < |g| && |Flat(g)| > 0
  {
    Canvas(c.rings[s := g[head := Blank(|g[head]|)]],
           c.lo[s := Lower(lo, Least(Flat(g)))],
           c.hi[s := Raise(hi, Greatest(Flat(g)))],
           c.tails[s := g[head]], AddKey(c.tailKeys, s), false)
  }

  lemma {:induction false} LoosenAll(st: State, c: Canvas, i: nat)
    requires Valid(st) && LoosenedUpTo(st, c, i)
    ensures LoosenedUpTo(st, LoosenFrom(st, c, st.labels, i), |st.labels|)
    decreases |st.labels| - i
  {
    if i < |st.labels| {
      var s := st.labels[i];
      assert Healthy(st, s);
      var g := st.rings[s];
      FlatNonEmpty(g, st.n, st.ls[s]);
      TodoAt(st, c, i);
      LoosenOneIs(st, c, s, g, st.lo[s], st.hi[s]);
      var e := Widened(c, s, g, st.head, st.lo[s], st.hi[s]);
      LoosenFrameStep(st, c, e, i);
      LoosenDoneStep(st, c, e, i);
      LoosenTodoStep(st, c, e, i);
      LoosenAll(st, e, i + 1);
    }
  }

  lemma LoosenOneIs(st: State, c: Canvas, s: string, g: Grid, lo: Bound, hi: Bound)
    requires s in st.ls && s in st.xs && s in st.indexes && !c.failed
    requires s in c.rings && c.rings[s] == g && s in c.lo && c.lo[s] == lo && s in c.hi && c.hi[s] == hi
    requires 0 <= st.head < |g| && |Flat(g)| > 0
    ensures LoosenOne(st, c, s) == Widened(c, s, g, st.head, lo, hi)
  {
  }

  /** A label not yet done still has its ring and limits. */
  lemma TodoAt(st: State, c: Canvas, i: nat)
    requires i < |st.labels| && Distinct(st.labels) && LoosenFrame(st, c, i) && LoosenTodo(st, c, i)
    requires var s := st.labels[i]; s in st.rings && s in st.lo && s in st.hi
    ensures var s := st.labels[i];
      && s in c.rings && c.rings[s] == st.rings[s]
      && s in c.lo && c.lo[s] == st.lo[s]
      && s in c.hi && c.hi[s] == st.hi[s]
  {
    assert st.labels[i] !in st.labels[..i];
  }

  lemma LoosenFrameStep(st: State, c: Canvas, e: Canvas, i: nat)
    requires i < |st.labels| && Healthy(st, st.labels[i]) && 0 <= st.head < st.n
    requires LoosenFrame(st, c, i) && Distinct(st.labels) && |Flat(st.rings[st.labels[i]])| > 0
    requires var s := st.labels[i];
      e == Widened(c, s, st.rings[s], st.head, st.lo[s], st.hi[s])
    ensures LoosenFrame(st, e, i + 1)
  {
    var s := st.labels[i];
    assert s !in st.labels[..i];
    assert st.labels[..i + 1] == st.labels[..i] + [s];
  }

  lemma LoosenDoneStep(st: State, c: Canvas, e: Canvas, i: nat)
    requires i < |st.labels| && Healthy(st, st.labels[i]) && 0 <= st.head < st.n
    requires LoosenDone(st, c, i) && Distinct(st.labels) && |Flat(st.rings[st.labels[i]])| > 0
    requires var s := st.labels[i];
      e == Widened(c, s, st.rings[s], st.head, st.lo[s], st.hi[s])
    ensures LoosenDone(st, e, i + 1)
  {
    var s := st.labels[i];
    forall j | 0 <= j < i + 1 ensures Loosened(st, e, st.labels[j]) {
      if j < i {
        assert st.labels[j] != s;
        assert Loosened(st, c, st.labels[j]);
      }
    }
  }

  lemma LoosenTodoStep(st: State, c: Canvas, e: Canvas, i: nat)
    requires i < |st.labels| && Healthy(st, st.labels[i]) && 0 <= st.head < st.n
    requires LoosenTodo(st, c, i) && |Flat(st.rings[st.labels[i]])| > 0
    requires var s := st.labels[i];
      e == Widened(c, s, st.rings[s], st.head, st.lo[s], st.hi[s])
    ensures LoosenTodo(st, e, i + 1)
  {
    assert st.labels[..i + 1] == st.labels[..i] + [st.labels[i]];
  }

  /** The rings while the saved rows go back: the first `i` labels restored. */
  predicate RestoredUpTo(st: State, c: Canvas, rings: map<string, Grid>, i: nat) {
    && i <= |st.labels|
    && rings.Keys == st.rings.Keys
    && (forall j :: 0 <= j < i ==> st.labels[j] in st.rings && rings[st.labels[j]] == st.rings[st.labels[j]])
    && (forall k :: k in st.rings && k !in st.labels[..i] ==> k in c.rings && rings[k] == c.rings[k])
  }

  lemma {:induction false} RestoreAll(st: State, c: Canvas, rings: map<string, Grid>, i: nat)
    requires Distinct(st.labels) && LoosenedUpTo(st, c, |st.labels|) && RestoredUpTo(st, c, rings, i)
    ensures var (r, ok) := RestoreRings(rings, st.head, c.tails, st.labels, i);
      ok && RestoredUpTo(st, c, r, |st.labels|)
    decreases |st.labels| - i
  {
    if i < |st.labels| {
      var s := st.labels[i];
      assert Loosened(st, c, s);
      var g := st.rings[s];
      var h := st.head;
      RestoreTodoAt(st, c, rings, i);
      BlankBack(g, h);
      RestoreRingsStep(rings, h, c.tails, st.labels, i, g);
      RestoredStep(st, c, rings, i);
      RestoreAll(st, c, rings[s := g], i + 1);
    }
  }

  /** A label not yet restored still has its blanked ring. */
  lemma RestoreTodoAt(st: State, c: Canvas, rings: map<string, Grid>, i: nat)
    requires i < |st.labels| && Distinct(st.labels) && RestoredUpTo(st, c, rings, i)
    requires st.labels[i] in st.rings && st.labels[i] in c.rings
    ensures st.labels[i] in rings && rings[st.labels[i]] == c.rings[st.labels[i]]
  {
    assert st.labels[i] !in st.labels[..i];
  }

  /** Writing the saved head row back over its blank gives the ring back. */
  lemma BlankBack(g: Grid, h: int)
    requires 0 <= h < |g|
    ensures SetRow(g[h := Blank(|g[h]|)], h, g[h]) == Some(g)
  {
    assert g[h := Blank(|g[h]|)][h := g[h]] == g;
  }

  lemma RestoreRingsStep(rings: map<string, Grid>, head: int, tails: map<string, Row>, keys: seq<string>, i: nat, g: Grid)
    requires i < |keys| && keys[i] in rings && keys[i] in tails
    requires SetRow(rings[keys[i]], head, tails[keys[i]]) == Some(g)
    ensures RestoreRings(rings, head, tails, keys, i) == RestoreRings(rings[keys[i] := g], head, tails, keys, i + 1)
  {
  }

  lemma RestoredStep(st: State, c: Canvas, rings: map<string, Grid>, i: nat)
    requires i < |st.labels| && Distinct(st.labels) && RestoredUpTo(st, c, rings, i)
    requires st.labels[i] in st.rings
    ensures RestoredUpTo(st, c, rings[st.labels[i] := st.rings[st.labels[i]]], i + 1)
  {
    RestoredDoneStep(st.labels, st.rings, rings, i);
    RestoredTodoStep(st.labels, st.rings, c.rings, rings, i);
  }

  /** Putting back the ring of the `i`-th label keeps the ones before it put back. */
  lemma RestoredDoneStep(labels: seq<string>, orig: map<string, Grid>, rings: map<string, Grid>, i: nat)
    requires i < |labels| && Distinct(labels) && labels[i] in orig && rings.Keys == orig.Keys
    requires forall j :: 0 <= j < i ==> labels[j] in orig && rings[labels[j]] == orig[labels[j]]
    ensures forall j :: 0 <= j < i + 1 ==>
      labels[j] in orig && rings[labels[i] := orig[labels[i]]][labels[j]] == orig[labels[j]]
  {
    forall j | 0 <= j < i + 1
      ensures labels[j] in orig && rings[labels[i] := orig[labels[i]]][labels[j]] == orig[labels[j]]
    {
      if j < i {
        assert labels[j] != labels[i];
      }
    }
  }

  /** Putting back the ring of the `i`-th label leaves the labels after it blanked. */
  lemma RestoredTodoStep(labels: seq<string>, orig: map<string, Grid>, drawn: map<string, Grid>,
                         rings: map<string, Grid>, i: nat)
    requires i < |labels| && labels[i] in orig && rings.Keys == orig.Keys
    requires forall k :: k in orig && k !in labels[..i] ==> k in drawn && rings[k] == drawn[k]
    ensures forall k :: k in orig && k !in labels[..i + 1] ==>
      k in drawn && rings[labels[i] := orig[labels[i]]][k] == drawn[k]
  {
    assert labels[..i + 1] == labels[..i] + [labels[i]];
  }

  /** Drawing a running plotter when no key is pressed: the plotter keeps
      running, the rings come back as they were, every lower limit is the
      same or lower and every upper limit the same or higher, each ring lies
      between its limits, and nothing else changes. */
  lemma UpdateRestores(st: State)
    requires Valid(st) && !st.freezePlot
    ensures var r := UpdatePlotData(st, []);
      && r == st.(lo := r.lo, hi := r.hi)
      && Valid(r)
      && forall s :: s in st.labels ==>
           s in r.lo && s in r.hi && NoHigher(r.lo[s], st.lo[s]) && NoLower(r.hi[s], st.hi[s])
           && Covered(r.lo[s], r.hi[s], st.rings[s])
  {
    DrawnBack(st);
    var c := LoosenFrom(st, Canvas(st.rings, st.lo, st.hi, map[], [], false), st.labels, 0);
    UpdateWithoutKeys(st, c);
    UpdateLimits(st, c, st.(lo := c.lo, hi := c.hi));
  }

  /** Drawing a running plotter visits every label, and the saved rows put
      back give the rings as they were. */
  lemma DrawnBack(st: State)
    requires Valid(st)
    ensures var c := LoosenFrom(st, Canvas(st.rings, st.lo, st.hi, map[], [], false), st.labels, 0);
      && LoosenedUpTo(st, c, |st.labels|) && c.tailKeys == st.labels
      && RestoreRings(c.rings, st.head, c.tails, st.labels, 0) == (st.rings, true)
  {
    var labels := st.labels;
    var c0 := Canvas(st.rings, st.lo, st.hi, map[], [], false);
    assert labels[..0] == [];
    assert LoosenedUpTo(st, c0, 0);
    LoosenAll(st, c0, 0);
    var c := LoosenFrom(st, c0, labels, 0);
    assert labels[..|labels|] == labels;
    assert RestoredUpTo(st, c, c.rings, 0);
    RestoreAll(st, c, c.rings, 0);
    var (rings, ok) := RestoreRings(c.rings, st.head, c.tails, labels, 0);
    RingsBack(st, c, rings);
  }

  lemma UpdateWithoutKeys(st: State, c: Canvas)
    requires !st.halted && !st.freezePlot
    requires c == LoosenFrom(st, Canvas(st.rings, st.lo, st.hi, map[], [], false), st.labels, 0)
    requires !c.failed && c.tailKeys == st.labels
    requires RestoreRings(c.rings, st.head, c.tails, st.labels, 0) == (st.rings, true)
    ensures UpdatePlotData(st, []) == st.(lo := c.lo, hi := c.hi)
  {
    var drawn := st.(rings := c.rings, lo := c.lo, hi := c.hi);
    assert PressFrom(drawn, [], 0) == drawn;
  }

  lemma RingsBack(st: State, c: Canvas, rings: map<string, Grid>)
    requires LoosenedUpTo(st, c, |st.labels|) && RestoredUpTo(st, c, rings, |st.labels|)
    ensures rings == st.rings
  {
    var labels := st.labels;
    assert labels[..|labels|] == labels;
    forall k | k in st.rings ensures rings[k] == st.rings[k] {
      if k in labels {
        var j :| 0 <= j < |labels| && labels[j] == k;
      }
    }
  }

  lemma UpdateLimits(st: State, c: Canvas, r: State)
    requires Valid(st) && LoosenedUpTo(st, c, |st.labels|)
    requires r == st.(lo := c.lo, hi := c.hi)
    ensures Valid(r)
    ensures forall s :: s in st.labels ==>
           s in r.lo && s in r.hi && NoHigher(r.lo[s], st.lo[s]) && NoLower(r.hi[s], st.hi[s])
           && Covered(r.lo[s], r.hi[s], st.rings[s])
  {
    forall s | s in st.labels
      ensures Healthy(r, s) && NoHigher(r.lo[s], st.lo[s]) && NoLower(r.hi[s], st.hi[s])
      ensures Covered(r.lo[s], r.hi[s], st.rings[s])
    {
      assert Healthy(st, s);
      var j :| 0 <= j < |st.labels| && st.labels[j] == s;
      assert Loosened(st, c, s);
      var g := st.rings[s];
      LimitsNeverNarrow(st.lo[s], st.hi[s], Least(Flat(g)), Greatest(Flat(g)));
      LimitsCover(st.lo[s], st.hi[s], g);
    }
  }

  /** A frozen plot is not drawn, and no key reaches it while it is frozen. */
  lemma UpdateFrozen(st: State, keys: seq<string>)
    requires st.freezePlot
    ensures UpdatePlotData(st, keys) == st
  {
  }

  /** A new plotter runs: with no label it waits for a key `r`; with labels
      each given once it is set up with them, unless a search for the number
      of lines of one fails. */
  lemma InitRuns(labels: seq<string>, n: nat, feed: seq<Reading>)
    requires n >= 1
    ensures labels == [] ==> Valid(Init(labels, n, feed)) && Init(labels, n, feed).labels == []
    ensures var r := Init(labels, n, feed);
      r.halted || (r.labels == labels && !r.receivingCommand && r.command == "" && r.sent == []
                   && if Distinct(labels) then Valid(r) else Repeating(r))
  {
    var st := State(labels, n, map[], [], map[], map[], map[], map[], map[], 0,
                    false, false, "", feed, [], true, false);
    if labels != [] {
      SetUpGiven(st, labels);
      var r := SetUp(st, labels);
      var r' := r.(freezePlot := false, receivingCommand := false, command := "");
      if !r.halted && Distinct(labels) {
        ValidKept(r, r');
      } else if !r.halted {
        forall t | t in r'.labels ensures Healthy(r', t) {
          assert Healthy(r, t);
        }
      }
    }
  }

  // -------------------------------------------------------- repeated labels

  /** Adding a key to a dict keeps its keys once each. */
  lemma AddKeyDistinct(keys: seq<string>, k: string)
    requires Distinct(keys)
    ensures Distinct(AddKey(keys, k)) && k in AddKey(keys, k)
  {
  }

  /** A plotter whose labels repeat one: it runs, with every label's arrays
      in shape, but its ring keys, a dict's keys and so each once, differ
      from its labels. */
  predicate Repeating(st: State) {
    && !st.halted && st.n >= 1 && 0 <= st.head < st.n
    && !Distinct(st.labels) && Distinct(st.ringKeys)
    && forall s :: s in st.labels ==> Healthy(st, s)
  }

  /** `reset` when a label repeats: the ring keys never equal the labels, so
      every ring becomes zeros, whatever it held, and the positions, counts
      and limits start over. */
  lemma ResetRepeated(st: State)
    requires !st.halted && Distinct(st.ringKeys) && !Distinct(st.labels)
    requires forall s :: s in st.labels ==> s in st.ls
    ensures !Reset(st).halted && Distinct(Reset(st).ringKeys)
    ensures SameButArrays(Reset(st).(ringKeys := st.ringKeys), st)
    ensures forall s :: s in st.labels ==> Restarted(Reset(st), s, ZeroGrid(st.n, st.ls[s]))
  {
    ResetFromZeros(st, 0);
  }

  lemma {:induction false} ResetFromZeros(st: State, i: nat)
    requires !st.halted && Distinct(st.ringKeys) && !Distinct(st.labels) && i <= |st.labels|
    requires forall s :: s in st.labels ==> s in st.ls
    requires forall j :: 0 <= j < i ==> Restarted(st, st.labels[j], ZeroGrid(st.n, st.ls[st.labels[j]]))
    ensures var r := ResetFrom(st, st.labels, i);
      && !r.halted && Distinct(r.ringKeys) && SameButArrays(r.(ringKeys := st.ringKeys), st)
      && forall s :: s in st.labels ==> Restarted(r, s, ZeroGrid(st.n, st.ls[s]))
    decreases |st.labels| - i
  {
    var labels := st.labels;
    if i < |labels| {
      var s := labels[i];
      assert st.ringKeys != labels;
      AddKeyDistinct(st.ringKeys, s);
      var next := ResetOne(st, s);
      assert next == Cleared(st.(rings := st.rings[s := ZeroGrid(st.n, st.ls[s])], ringKeys := AddKey(st.ringKeys, s)), s);
      forall j | 0 <= j <= i ensures Restarted(next, labels[j], ZeroGrid(st.n, st.ls[labels[j]])) {
      }
      ResetFromZeros(next, i + 1);
    } else {
      forall s | s in labels ensures Restarted(st, s, ZeroGrid(st.n, st.ls[s])) {
        var j :| 0 <= j < |labels| && labels[j] == s;
      }
    }
  }

  /** A plotter whose labels repeat one, drawn with no key pressed, keeps
      running, and every ring is zeros again: the saved head rows are keyed
      once each, never as the labels are, so the drawing always ends in a
      reset. */
  lemma UpdateRepeated(st: State)
    requires Repeating(st) && !st.freezePlot
    ensures var r := UpdatePlotData(st, []);
      && Repeating(r) && r.labels == st.labels && r.ls == st.ls && r.head == st.head
      && forall s :: s in st.labels ==> Restarted(r, s, ZeroGrid(st.n, st.ls[s]))
  {
    var c0 := Canvas(st.rings, st.lo, st.hi, map[], [], false);
    forall s | s in st.labels
      ensures s in c0.rings && Shaped(c0.rings[s], st.n, st.ls[s]) && s in c0.lo && s in c0.hi
    {
      assert Healthy(st, s);
    }
    LoosenRepeated(st, c0, 0);
    var c := LoosenFrom(st, c0, st.labels, 0);
    var drawn := st.(rings := c.rings, lo := c.lo, hi := c.hi);
    assert PressFrom(drawn, [], 0) == drawn;
    assert c.tailKeys != drawn.labels;
    forall s | s in drawn.labels ensures s in drawn.ls {
      assert Healthy(st, s);
    }
    ResetRepeated(drawn);
    var r := Reset(drawn);
    assert UpdatePlotData(st, []) == r;
    forall s | s in r.labels ensures Healthy(r, s) {
      assert Healthy(st, s);
      assert Restarted(r, s, ZeroGrid(st.n, st.ls[s]));
    }
  }

  /** The drawing of a plotter whose labels repeat one: no label fails, and
      the saved head rows are keyed once each. */
  lemma {:induction false} LoosenRepeated(st: State, c: Canvas, i: nat)
    requires Repeating(st) && i <= |st.labels| && !c.failed && Distinct(c.tailKeys)
    requires forall s :: s in st.labels ==>
               s in c.rings && Shaped(c.rings[s], st.n, st.ls[s]) && s in c.lo && s in c.hi
    ensures !LoosenFrom(st, c, st.labels, i).failed && Distinct(LoosenFrom(st, c, st.labels, i).tailKeys)
    decreases |st.labels| - i
  {
    if i < |st.labels| {
      var s := st.labels[i];
      assert Healthy(st, s);
      FlatNonEmpty(c.rings[s], st.n, st.ls[s]);
      AddKeyDistinct(c.tailKeys, s);
      var d := LoosenOne(st, c, s);
      assert !d.failed;
      forall t | t in st.labels
        ensures t in d.rings && Shaped(d.rings[t], st.n, st.ls[t]) && t in d.lo && t in d.hi
      {
        assert Healthy(st, t);
      }
      LoosenRepeated(st, d, i + 1);
    }
  }
}
