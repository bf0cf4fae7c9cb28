/** What a plotter reads from its reader, and the two searches both plotters run
    over what they read: `discoverLabels`, which counts the labels of numeric
    records and keeps the frequent ones, and `getLinesPerType`, which looks for
    the first numeric record of a label with 1 to 15 values. */
module Discovery {
  import opened Base
  import opened Text
  import opened Records

  /** One call `reader()`: the record it returns, or the exception it raises. */
  type Reading = Result<Record, PyError>

  /** What a reader answers once the modelled input is used up: the
      `('', [], False)` of a socket that stays silent. */
  const Idle: Reading := Ok(NonNumeric("", []))

  function Head(feed: seq<Reading>): Reading {
    if feed == [] then Idle else feed[0]
  }

  function Rest(feed: seq<Reading>): seq<Reading> {
    if feed == [] then [] else feed[1..]
  }

  /** The next `k` readings. */
  function Take(feed: seq<Reading>, k: nat): (obs: seq<Reading>)
    ensures |obs| == k
  {
    if k == 0 then [] else [Head(feed)] + Take(Rest(feed), k - 1)
  }

  /** The feed once `k` readings are taken. */
  function Drop(feed: seq<Reading>, k: nat): seq<Reading> {
    if k == 0 then feed else Drop(Rest(feed), k - 1)
  }

  /** Position of the first exception among the readings, or their number. */
  function FirstErr(obs: seq<Reading>): (u: nat)
    ensures u <= |obs|
    ensures forall i :: 0 <= i < u ==> obs[i].Ok?
    ensures u < |obs| ==> obs[u].Err?
  {
    if obs == [] || obs[0].Err? then 0 else 1 + FirstErr(obs[1..])
  }

  /** The records of readings that raised nothing. */
  function Recs(obs: seq<Reading>): (recs: seq<Record>)
    requires forall i :: 0 <= i < |obs| ==> obs[i].Ok?
    ensures |recs| == |obs| && forall i :: 0 <= i < |obs| ==> recs[i] == obs[i].value
  {
    seq(|obs|, i requires 0 <= i < |obs| => obs[i].value)
  }

  /** `isCommand(s)`: only the label `COMMAND`; the bytes an undecodable serial
      line gives never equal it. */
  predicate IsCommand(r: Record) {
    !r.Undecoded? && r.name == "COMMAND"
  }

  /** `FakeKeyEvent(data[0].strip())`: the key a COMMAND record carries. A
      number has no `strip` (AttributeError) and an empty list no first element
      (IndexError). */
  function CommandKey(r: Record): (k: Result<string, PyError>)
    ensures k.Ok? <==> r.NonNumeric? && |r.fields| > 0
    ensures k.Ok? ==> k.value == Strip(r.fields[0])
    ensures r.Numeric? && |r.values| > 0 ==> k == Err(AttributeError)
    ensures k.Err? && !(r.Numeric? && |r.values| > 0) ==> k == Err(IndexError)
  {
    match r
    case Numeric(_, vs) => if vs == [] then Err(IndexError) else Err(AttributeError)
    case NonNumeric(_, fs) => if fs == [] then Err(IndexError) else Ok(Strip(fs[0]))
    case Undecoded(_) => Err(IndexError)
  }

  // ------------------------------------------------------------ counting

  /** Whether the counter counts a record: `discoverLabels` counts numeric
      records with a non-empty label (`skipEmpty`), `getLinesPerType` every
      numeric record. */
  predicate Counted(r: Record, skipEmpty: bool) {
    r.Numeric? && !(skipEmpty && r.name == "")
  }

  /** How many records the counter counts for the label `s`. */
  function Count(recs: seq<Record>, s: string, skipEmpty: bool): nat {
    if recs == [] then 0
    else
      var last := recs[|recs| - 1];
      Count(recs[..|recs| - 1], s, skipEmpty) + if Counted(last, skipEmpty) && last.name == s then 1 else 0
  }

  /** `collections.defaultdict(int)` keyed by label, with its keys in insertion order. */
  datatype Counter = Counter(keys: seq<string>, counts: map<string, nat>)

  /** `seen[s] += 1` for a record the counter counts. */
  function Note(c: Counter, r: Record, skipEmpty: bool): Counter {
    if !Counted(r, skipEmpty) then c
    else if r.name in c.counts then c.(counts := c.counts[r.name := c.counts[r.name] + 1])
    else Counter(c.keys + [r.name], c.counts[r.name := 1])
  }

  /** The counter once every record is noted. */
  function Tally(recs: seq<Record>, skipEmpty: bool): Counter {
    if recs == [] then Counter([], map[])
    else Note(Tally(recs[..|recs| - 1], skipEmpty), recs[|recs| - 1], skipEmpty)
  }

  /** The counter holds each counted label once in its keys, with the number of
      records counted for it, and no other label. */
  lemma {:induction false} TallyCounts(recs: seq<Record>, skipEmpty: bool)
    ensures var c := Tally(recs, skipEmpty);
      && Distinct(c.keys)
      && (forall x :: x in c.counts <==> x in c.keys)
      && (forall x :: x in c.counts <==> Count(recs, x, skipEmpty) > 0)
      && (forall x :: x in c.counts ==> c.counts[x] == Count(recs, x, skipEmpty))
  {
    if recs != [] {
      TallyCounts(recs[..|recs| - 1], skipEmpty);
    }
  }

  /** `[l for l, s in seen.items() if s >= threshold]`. */
  function Frequent(keys: seq<string>, counts: map<string, nat>, t: nat): (r: seq<string>)
    ensures forall x :: x in r <==> x in keys && x in counts && counts[x] >= t
    ensures Distinct(keys) ==> Distinct(r)
  {
    if keys == [] then []
    else
      var rest := Frequent(keys[1..], counts, t);
      assert forall x :: x in keys[1..] ==> x in keys;
      if keys[0] in counts && counts[keys[0]] >= t then [keys[0]] + rest else rest
  }

  /** `sorted(possibleLabels)` for the records seen and the threshold `t`. */
  function Chosen(recs: seq<Record>, t: nat): seq<string> {
    var c := Tally(recs, true);
    Sort(Frequent(c.keys, c.counts, t))
  }

  /** Skipping the empty label changes only the count of the empty label. */
  lemma {:induction false} CountSkip(recs: seq<Record>, s: string)
    ensures Count(recs, s, true) == if s == "" then 0 else Count(recs, s, false)
  {
    if recs != [] {
      CountSkip(recs[..|recs| - 1], s);
    }
  }

  /** Discovery gives the labels in increasing order, each once, and exactly the
      non-empty labels of at least `t` numeric records. */
  lemma ChosenLabels(recs: seq<Record>, t: nat)
    requires t >= 1
    ensures Increasing(Chosen(recs, t))
    ensures forall x :: x in Chosen(recs, t) <==> x != "" && Count(recs, x, false) >= t
  {
    var c := Tally(recs, true);
    TallyCounts(recs, true);
    var f := Frequent(c.keys, c.counts, t);
    SortKeepsDistinct(f);
    SortedDistinctIncreasing(Sort(f));
    forall x ensures x in Sort(f) <==> x != "" && Count(recs, x, false) >= t {
      assert x in Sort(f) <==> x in multiset(Sort(f));
      assert x in f <==> x in multiset(f);
      CountSkip(recs, x);
    }
  }

  /** The reading loop of `discoverLabels` over `k` readings, counting into `c`:
      the counter, or the first exception, and the feed left. */
  function DiscoverFrom(feed: seq<Reading>, k: nat, c: Counter): (Result<Counter, PyError>, seq<Reading>) {
    if k == 0 then (Ok(c), feed)
    else match Head(feed)
      case Err(e) => (Err(e), Rest(feed))
      case Ok(r) => DiscoverFrom(Rest(feed), k - 1, Note(c, r, true))
  }

  /** The loop counts the records of the next `k` readings when none of them
      raises. */
  lemma {:induction false} DiscoverClean(feed: seq<Reading>, k: nat, pre: seq<Record>)
    requires FirstErr(Take(feed, k)) == k
    ensures DiscoverFrom(feed, k, Tally(pre, true)) == (Ok(Tally(pre + Recs(Take(feed, k)), true)), Drop(feed, k))
  {
    if k == 0 {
      assert pre + Recs([]) == pre;
    } else {
      var x := Head(feed);
      var more := Take(Rest(feed), k - 1);
      assert Take(feed, k) == [x] + more;
      FirstErrCons(x, more);
      TallySnoc(pre, x.value);
      DiscoverClean(Rest(feed), k - 1, pre + [x.value]);
      AppendRecs(pre, x, more);
    }
  }

  lemma AppendRecs(pre: seq<Record>, x: Reading, more: seq<Reading>)
    requires x.Ok? && forall i :: 0 <= i < |more| ==> more[i].Ok?
    ensures pre + Recs([x] + more) == (pre + [x.value]) + Recs(more)
  {
    RecsCons(x, more);
  }

  /** The loop stops at the first reading that raises, and passes the exception on. */
  lemma {:induction false} DiscoverRaises(feed: seq<Reading>, k: nat, c: Counter)
    requires FirstErr(Take(feed, k)) < k
    ensures var u := FirstErr(Take(feed, k));
      DiscoverFrom(feed, k, c) == (Err(Take(feed, k)[u].error), Drop(feed, u + 1))
  {
    var x := Head(feed);
    var more := Take(Rest(feed), k - 1);
    assert Take(feed, k) == [x] + more;
    if x.Ok? {
      FirstErrCons(x, more);
      DiscoverRaises(Rest(feed), k - 1, Note(c, x.value, true));
    }
  }

  lemma TallySnoc(pre: seq<Record>, r: Record)
    ensures Tally(pre + [r], true) == Note(Tally(pre, true), r, true)
  {
    assert (pre + [r])[..|pre|] == pre;
  }

  lemma FirstErrCons(x: Reading, more: seq<Reading>)
    requires x.Ok?
    ensures FirstErr([x] + more) == 1 + FirstErr(more)
    ensures FirstErr(more) < |more| ==> ([x] + more)[1 + FirstErr(more)] == more[FirstErr(more)]
  {
    assert ([x] + more)[1..] == more;
  }

  lemma RecsCons(x: Reading, more: seq<Reading>)
    requires x.Ok? && forall i :: 0 <= i < |more| ==> more[i].Ok?
    ensures Recs([x] + more) == [x.value] + Recs(more)
  {
  }

  // -------------------------------------------------------------- widths

  /** A numeric record of the label with 1 to 15 values. */
  predicate Fits(r: Record, name: string) {
    r.Numeric? && r.name == name && 0 < |r.values| <= 15
  }

  /** What `getLinesPerType` ends with: the number of values, MissingLabelError,
      or an exception of the reader. */
  datatype Width = Found(width: nat) | Missing | Broke(error: PyError)

  /** The reading loop of `getLinesPerType` over `k` readings: the outcome and the feed left. */
  function LinesFrom(feed: seq<Reading>, k: nat, name: string): (Width, seq<Reading>) {
    if k == 0 then (Missing, feed)
    else match Head(feed)
      case Err(e) => (Broke(e), Rest(feed))
      case Ok(r) =>
        if Fits(r, name) then (Found(|r.values|), Rest(feed))
        else LinesFrom(Rest(feed), k - 1, name)
  }

  /** Position of the first reading that raises or fits, or their number. */
  function FirstStop(obs: seq<Reading>, name: string): (u: nat)
    ensures u <= |obs|
    ensures forall i :: 0 <= i < u ==> obs[i].Ok? && !Fits(obs[i].value, name)
    ensures u < |obs| ==> obs[u].Err? || Fits(obs[u].value, name)
  {
    if obs == [] || obs[0].Err? || Fits(obs[0].value, name) then 0
    else 1 + FirstStop(obs[1..], name)
  }

  /** What the search ends with, read off the readings: the length of the first
      fitting record, MissingLabelError when none of the `k` readings fits, or
      an exception of the reader that comes first. */
  function Searched(feed: seq<Reading>, k: nat, name: string): (Width, seq<Reading>) {
    var obs := Take(feed, k);
    var u := FirstStop(obs, name);
    if u == k then (Missing, Drop(feed, k))
    else if obs[u].Err? then (Broke(obs[u].error), Drop(feed, u + 1))
    else (Found(|obs[u].value.values|), Drop(feed, u + 1))
  }

  /** The search loop ends as the readings say, and a width it finds is 1 to 15. */
  lemma {:induction false} LinesFromFirst(feed: seq<Reading>, k: nat, name: string)
    ensures LinesFrom(feed, k, name) == Searched(feed, k, name)
    ensures LinesFrom(feed, k, name).0.Found? ==> 1 <= LinesFrom(feed, k, name).0.width <= 15
  {
    if k > 0 {
      var x := Head(feed);
      var more := Take(Rest(feed), k - 1);
      assert Take(feed, k) == [x] + more;
      if x.Ok? && !Fits(x.value, name) {
        FirstStopCons(x, more, name);
        LinesFromFirst(Rest(feed), k - 1, name);
        var u := FirstStop(more, name);
        assert Drop(feed, u + 2) == Drop(Rest(feed), u + 1);
        assert Drop(feed, k) == Drop(Rest(feed), k - 1);
      } else {
        assert FirstStop([x] + more, name) == 0;
        assert Drop(feed, 1) == Rest(feed);
      }
    }
  }

  lemma FirstStopCons(x: Reading, more: seq<Reading>, name: string)
    requires x.Ok? && !Fits(x.value, name)
    ensures FirstStop([x] + more, name) == 1 + FirstStop(more, name)
    ensures FirstStop(more, name) < |more| ==> ([x] + more)[1 + FirstStop(more, name)] == more[FirstStop(more, name)]
  {
    assert ([x] + more)[1..] == more;
  }

  // --------------------------------------------------------- time budget

  /** How many passes `while time.time() - start < 1` makes when `time.time()`
      gives `ticks` in turn; with no reading left the second is over. */
  function Within(ticks: seq<real>, start: real): nat {
    if ticks == [] || !(ticks[0] - start < 1.0) then 0 else 1 + Within(ticks[1..], start)
  }

  /** `discoverLabels` of plot_lib.py: counting while the second lasts. */
  function DiscoverTimed(feed: seq<Reading>, ticks: seq<real>, start: real, c: Counter)
    : (Result<Counter, PyError>, seq<Reading>, seq<real>)
  {
    if ticks == [] || !(ticks[0] - start < 1.0) then (Ok(c), feed, Later(ticks))
    else match Head(feed)
      case Err(e) => (Err(e), Rest(feed), ticks[1..])
      case Ok(r) => DiscoverTimed(Rest(feed), ticks[1..], start, Note(c, r, true))
  }

  function Later(ticks: seq<real>): seq<real> {
    if ticks == [] then [] else ticks[1..]
  }

  /** Counting while the second lasts is counting over as many readings as the
      loop makes passes. */
  lemma {:induction false} DiscoverTimedFrom(feed: seq<Reading>, ticks: seq<real>, start: real, c: Counter)
    ensures DiscoverTimed(feed, ticks, start, c).0 == DiscoverFrom(feed, Within(ticks, start), c).0
    ensures DiscoverTimed(feed, ticks, start, c).1 == DiscoverFrom(feed, Within(ticks, start), c).1
  {
    if ticks != [] && ticks[0] - start < 1.0 && Head(feed).Ok? {
      DiscoverTimedFrom(Rest(feed), ticks[1..], start, Note(c, Head(feed).value, true));
    }
  }

  /** `getLinesPerType` of plot_lib.py: searching while the second lasts. */
  function LinesTimed(feed: seq<Reading>, ticks: seq<real>, start: real, name: string)
    : (Width, seq<Reading>, seq<real>)
  {
    if ticks == [] || !(ticks[0] - start < 1.0) then (Missing, feed, Later(ticks))
    else match Head(feed)
      case Err(e) => (Broke(e), Rest(feed), ticks[1..])
      case Ok(r) =>
        if Fits(r, name) then (Found(|r.values|), Rest(feed), ticks[1..])
        else LinesTimed(Rest(feed), ticks[1..], start, name)
  }

  /** Searching while the second lasts is searching over as many readings as
      the loop makes passes. */
  lemma {:induction false} LinesTimedFrom(feed: seq<Reading>, ticks: seq<real>, start: real, name: string)
    ensures LinesTimed(feed, ticks, start, name).0 == LinesFrom(feed, Within(ticks, start), name).0
    ensures LinesTimed(feed, ticks, start, name).1 == LinesFrom(feed, Within(ticks, start), name).1
  {
    if ticks != [] && ticks[0] - start < 1.0 && Head(feed).Ok? && !Fits(Head(feed).value, name) {
      LinesTimedFrom(Rest(feed), ticks[1..], start, name);
    }
  }
}
