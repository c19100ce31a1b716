/** The statistics page: bounded per-counter history, and charted counters apart from the others. */
module StatsConsole {
  import opened Basics

  datatype Direction = Uplink | Downlink {
    function Label(): string {
      if Uplink? then "uplink" else "downlink"
    }
  }

  datatype Category = Inbound | Outbound {
    function Prefix(): string {
      if Inbound? then "inbound" else "outbound"
    }
  }

  datatype Counter = Counter(name: string, value: int)

  datatype Sample = Sample(at: int, value: int)

  type History = map<string, seq<Sample>>

  const HISTORY_CAP: nat := 120

  function CounterName(category: Category, tag: string, direction: Direction): string {
    category.Prefix() + ">>>" + tag + ">>>traffic>>>" + direction.Label()
  }

  // ---------------------------------------------------------------------
  // Counter names

  lemma NameShape(category: Category, tag: string, direction: Direction)
    ensures var s := CounterName(category, tag, direction);
            var k, e := |category.Prefix()| + 3, 13 + |direction.Label()|;
            && |s| == k + |tag| + e
            && s[0] == (if category.Inbound? then 'i' else 'o')
            && s[|s| - 6] == (if direction.Uplink? then 'u' else 'w')
            && s[k..|s| - e] == tag
  {
    var s, end := CounterName(category, tag, direction), direction.Label();
    assert s[0] == category.Prefix()[0];
    assert s[|s| - 6] == end[|end| - 6];
  }

  /** Whatever characters the tags contain, ">>>" included, no two counters share a name. */
  lemma CounterNameInjective(c: Category, tag: string, d: Direction, c': Category, tag': string, d': Direction)
    requires CounterName(c, tag, d) == CounterName(c', tag', d')
    ensures c == c' && tag == tag' && d == d'
  {
    NameShape(c, tag, d);
    NameShape(c', tag', d');
  }

  // ---------------------------------------------------------------------
  // History

  function Series(h: History, name: string): seq<Sample> {
    if name in h then h[name] else []
  }

  function Push(h: History, c: Counter, now: int): History {
    h[c.name := LastN(Series(h, c.name) + [Sample(now, c.value)], HISTORY_CAP)]
  }

  /** One sample per counter of a response, in order. */
  function Record(h: History, counters: seq<Counter>, now: int): History {
    if counters == [] then h
    else Push(Record(h, counters[..|counters| - 1], now), counters[|counters| - 1], now)
  }

  datatype Batch = Batch(counters: seq<Counter>, now: int)

  function RecordAll(h: History, batches: seq<Batch>): History {
    if batches == [] then h
    else
      var n := |batches| - 1;
      Record(RecordAll(h, batches[..n]), batches[n].counters, batches[n].now)
  }

  /** What a response says about one counter, repetitions included. */
  function SamplesIn(counters: seq<Counter>, now: int, name: string): seq<Sample> {
    if counters == [] then []
    else
      var n := |counters| - 1;
      SamplesIn(counters[..n], now, name)
      + (if counters[n].name == name then [Sample(now, counters[n].value)] else [])
  }

  function AllSamples(batches: seq<Batch>, name: string): seq<Sample> {
    if batches == [] then []
    else
      var n := |batches| - 1;
      AllSamples(batches[..n], name) + SamplesIn(batches[n].counters, batches[n].now, name)
  }

  /** `h'` is `h` with `more` recorded under `name`. */
  predicate Extends(h: History, h': History, name: string, more: seq<Sample>) {
    if more == [] then Entry(h', name) == Entry(h, name)
    else Entry(h', name) == Some(LastN(Series(h, name) + more, 120))
  }

  function Entry(h: History, name: string): Option<seq<Sample>> {
    if name in h then Some(h[name]) else None
  }

  lemma ExtendsTwice(h: History, h1: History, h2: History, name: string, more: seq<Sample>, then_: seq<Sample>)
    requires Extends(h, h1, name, more) && Extends(h1, h2, name, then_)
    ensures Extends(h, h2, name, more + then_)
  {
    if more == [] {
      assert more + then_ == then_;
    } else if then_ == [] {
      assert more + then_ == more;
    } else {
      LastNAfterAppend(Series(h, name) + more, then_, HISTORY_CAP);
      assert Series(h, name) + more + then_ == Series(h, name) + (more + then_);
    }
  }

  lemma {:induction false} RecordExtends(h: History, counters: seq<Counter>, now: int, name: string)
    ensures Extends(h, Record(h, counters, now), name, SamplesIn(counters, now, name))
  {
    if counters != [] {
      var n := |counters| - 1;
      RecordExtends(h, counters[..n], now, name);
      var h1 := Record(h, counters[..n], now);
      var last := if counters[n].name == name then [Sample(now, counters[n].value)] else [];
      ExtendsTwice(h, h1, Push(h1, counters[n], now), name, SamplesIn(counters[..n], now, name), last);
    }
  }

  /**
   After any responses, with names repeated or not: the last 120 samples ever
   recorded under a name, in order, and no entry for a name never seen.
   */
  lemma {:induction false} HistoryContents(h: History, batches: seq<Batch>, name: string)
    ensures Extends(h, RecordAll(h, batches), name, AllSamples(batches, name))
  {
    if batches != [] {
      var n := |batches| - 1;
      HistoryContents(h, batches[..n], name);
      var h1 := RecordAll(h, batches[..n]);
      RecordExtends(h1, batches[n].counters, batches[n].now, name);
      ExtendsTwice(h, h1, RecordAll(h, batches), name, AllSamples(batches[..n], name),
                   SamplesIn(batches[n].counters, batches[n].now, name));
    }
  }

  // ---------------------------------------------------------------------
  // The page

  datatype Row = Row(category: Category, tag: string, direction: Direction, points: seq<int>) {
    function Name(): string {
      CounterName(category, tag, direction)
    }
  }

  function Values(samples: seq<Sample>): seq<int> {
    seq(|samples|, i requires 0 <= i < |samples| => samples[i].value)
  }

  function TrafficRow(category: Category, tag: string, direction: Direction, h: History): Row {
    Row(category, tag, direction, Values(Series(h, CounterName(category, tag, direction))))
  }

  /** Two rows per tag. */
  function RowsOf(category: Category, tags: seq<string>, h: History): seq<Row> {
    if tags == [] then []
    else
      var n := |tags| - 1;
      RowsOf(category, tags[..n], h)
      + [TrafficRow(category, tags[n], Uplink, h), TrafficRow(category, tags[n], Downlink, h)]
  }

  function Rows(inbounds: seq<string>, outbounds: seq<string>, h: History): seq<Row> {
    RowsOf(Inbound, inbounds, h) + RowsOf(Outbound, outbounds, h)
  }

  predicate Charted(rows: seq<Row>, name: string) {
    exists r | r in rows :: r.Name() == name
  }

  /** The counter, unless some row shows it. */
  function Unshown(counter: Counter, rows: seq<Row>): Option<Counter> {
    if Charted(rows, counter.name) then None else Some(counter)
  }

  function Unshowing(rows: seq<Row>): Counter -> Option<Counter> {
    (counter: Counter) => Unshown(counter, rows)
  }

  function AllUnshown(counters: seq<Counter>, rows: seq<Row>): seq<Option<Counter>> {
    Mapped(Unshowing(rows), counters)
  }

  /** The counters no row shows. */
  function OtherCounters(counters: seq<Counter>, rows: seq<Row>): seq<Counter> {
    Somes(AllUnshown(counters, rows))
  }

  function SideTags(c: Category, inbounds: seq<string>, outbounds: seq<string>): seq<string> {
    if c.Inbound? then inbounds else outbounds
  }

  predicate Owned(c: Category, tags: seq<string>, name: string) {
    exists tag | tag in tags :: name == CounterName(c, tag, Uplink) || name == CounterName(c, tag, Downlink)
  }

  /** Some configured tag of the right side owns the name. */
  predicate Configured(inbounds: seq<string>, outbounds: seq<string>, name: string) {
    Owned(Inbound, inbounds, name) || Owned(Outbound, outbounds, name)
  }

  lemma {:induction false} RowsOfExactly(category: Category, tags: seq<string>, h: History, r: Row)
    ensures r in RowsOf(category, tags, h)
            <==> r.tag in tags && r == TrafficRow(category, r.tag, r.direction, h)
  {
    if tags != [] {
      RowsOfExactly(category, tags[..|tags| - 1], h, r);
    }
  }

  /** The rows are exactly those of the configured tags. */
  lemma RowsExactly(inbounds: seq<string>, outbounds: seq<string>, h: History, r: Row)
    ensures r in Rows(inbounds, outbounds, h)
            <==> r.tag in SideTags(r.category, inbounds, outbounds)
                 && r == TrafficRow(r.category, r.tag, r.direction, h)
  {
    RowsOfExactly(Inbound, inbounds, h, r);
    RowsOfExactly(Outbound, outbounds, h, r);
  }

  lemma OwnedCharted(inbounds: seq<string>, outbounds: seq<string>, h: History, c: Category, name: string)
    requires Owned(c, SideTags(c, inbounds, outbounds), name)
    ensures Charted(Rows(inbounds, outbounds, h), name)
  {
    var tags := SideTags(c, inbounds, outbounds);
    var tag :| tag in tags && (name == CounterName(c, tag, Uplink) || name == CounterName(c, tag, Downlink));
    var r := TrafficRow(c, tag, if name == CounterName(c, tag, Uplink) then Uplink else Downlink, h);
    RowsExactly(inbounds, outbounds, h, r);
    assert r.Name() == name;
  }

  lemma RowOwned(inbounds: seq<string>, outbounds: seq<string>, h: History, r: Row)
    requires r in Rows(inbounds, outbounds, h)
    ensures Owned(r.category, SideTags(r.category, inbounds, outbounds), r.Name())
  {
    RowsExactly(inbounds, outbounds, h, r);
    assert r.direction == Uplink || r.direction == Downlink;
  }

  /** A name is charted exactly when a configured tag owns it. */
  lemma ChartedIffConfigured(inbounds: seq<string>, outbounds: seq<string>, h: History, name: string)
    ensures Charted(Rows(inbounds, outbounds, h), name) <==> Configured(inbounds, outbounds, name)
  {
    if Charted(Rows(inbounds, outbounds, h), name) {
      var r :| r in Rows(inbounds, outbounds, h) && r.Name() == name;
      RowOwned(inbounds, outbounds, h, r);
    }
    if Owned(Inbound, inbounds, name) {
      OwnedCharted(inbounds, outbounds, h, Inbound, name);
    }
    if Owned(Outbound, outbounds, name) {
      OwnedCharted(inbounds, outbounds, h, Outbound, name);
    }
  }

  lemma OthersExactly(counters: seq<Counter>, rows: seq<Row>, c: Counter)
    ensures c in OtherCounters(counters, rows) <==> c in counters && !Charted(rows, c.name)
  {
    var shown := AllUnshown(counters, rows);
    InSomes(shown, c);
    if c in counters && !Charted(rows, c.name) {
      var i :| 0 <= i < |counters| && counters[i] == c;
      assert shown[i] == Some(c);
    }
    if Some(c) in shown {
      var i :| 0 <= i < |shown| && shown[i] == Some(c);
      assert shown[i] == Unshown(counters[i], rows);
    }
  }

  /** The value the response gives last for a name. */
  function LastValue(counters: seq<Counter>, name: string): Option<int> {
    if counters == [] then None
    else
      var n := |counters| - 1;
      if counters[n].name == name then Some(counters[n].value) else LastValue(counters[..n], name)
  }

  lemma {:induction false} LastSample(counters: seq<Counter>, now: int, name: string)
    ensures var samples := SamplesIn(counters, now, name);
            LastValue(counters, name)
              == if samples == [] then None else Some(samples[|samples| - 1].value)
  {
    if counters != [] {
      LastSample(counters[..|counters| - 1], now, name);
    }
  }

  lemma {:induction false} InSamples(counters: seq<Counter>, now: int, c: Counter)
    requires c in counters
    ensures SamplesIn(counters, now, c.name) != []
  {
    var n := |counters| - 1;
    if counters[n] != c {
      InSamples(counters[..n], now, c);
    }
  }

  /**
   Nothing hidden: every counter of a response is either charted or listed with
   the others, never both; charted exactly when a configured tag owns its name.
   */
  lemma NothingHidden(counters: seq<Counter>, inbounds: seq<string>, outbounds: seq<string>, h: History, c: Counter)
    requires c in counters
    ensures var rows := Rows(inbounds, outbounds, h);
            && (Charted(rows, c.name) <==> c !in OtherCounters(counters, rows))
            && (Charted(rows, c.name) <==> Configured(inbounds, outbounds, c.name))
  {
    OthersExactly(counters, Rows(inbounds, outbounds, h), c);
    ChartedIffConfigured(inbounds, outbounds, h, c.name);
  }

  /** Rows with one name are one row: that of the name's own side, tag and direction. */
  lemma RowDetermined(inbounds: seq<string>, outbounds: seq<string>, h: History, r: Row, other: Row)
    requires r in Rows(inbounds, outbounds, h) && other in Rows(inbounds, outbounds, h) && r.Name() == other.Name()
    ensures r == other && r.points == Values(Series(h, r.Name()))
  {
    RowsExactly(inbounds, outbounds, h, r);
    RowsExactly(inbounds, outbounds, h, other);
    CounterNameInjective(r.category, r.tag, r.direction, other.category, other.tag, other.direction);
  }

  lemma SeriesEnd(h: History, counters: seq<Counter>, now: int, c: Counter)
    requires c in counters
    ensures var series := Series(Record(h, counters, now), c.name);
            && 0 < |series| <= HISTORY_CAP
            && LastValue(counters, c.name) == Some(series[|series| - 1].value)
  {
    RecordExtends(h, counters, now, c.name);
    InSamples(counters, now, c);
    LastSample(counters, now, c.name);
  }

  /** Built right after recording a response, a row ends in the value the response gave last for its counter. */
  lemma RowShowsLatest(h: History, counters: seq<Counter>, now: int, inbounds: seq<string>, outbounds: seq<string>,
                       c: Counter, r: Row)
    requires c in counters && r in Rows(inbounds, outbounds, Record(h, counters, now)) && r.Name() == c.name
    ensures r.points != [] && |r.points| <= HISTORY_CAP
    ensures LastValue(counters, c.name) == Some(r.points[|r.points| - 1])
  {
    RowDetermined(inbounds, outbounds, Record(h, counters, now), r, r);
    SeriesEnd(h, counters, now, c);
  }

  lemma RowsOfMore(category: Category, tags: seq<string>, tag: string, h: History)
    ensures RowsOf(category, tags + [tag], h)
            == RowsOf(category, tags, h)
               + [TrafficRow(category, tag, Uplink, h), TrafficRow(category, tag, Downlink, h)]
  {
    assert (tags + [tag])[..|tags|] == tags;
  }

  lemma {:induction false} RowsOfAt(category: Category, tags: seq<string>, h: History, i: nat)
    requires i < |tags|
    ensures |RowsOf(category, tags, h)| == 2 * |tags|
    ensures RowsOf(category, tags, h)[2 * i] == TrafficRow(category, tags[i], Uplink, h)
    ensures RowsOf(category, tags, h)[2 * i + 1] == TrafficRow(category, tags[i], Downlink, h)
  {
    var init, last := tags[..|tags| - 1], tags[|tags| - 1];
    RowsOfLength(category, init, h);
    RowsOfMore(category, init, last, h);
    assert init + [last] == tags;
    if i < |init| {
      RowsOfAt(category, init, h, i);
    }
  }

  lemma {:induction false} RowsOfLength(category: Category, tags: seq<string>, h: History)
    ensures |RowsOf(category, tags, h)| == 2 * |tags|
  {
    if tags != [] {
      RowsOfLength(category, tags[..|tags| - 1], h);
    }
  }

  /** Inbound tags first, then outbound ones; for each tag uplink before downlink. */
  lemma RowsInOrder(inbounds: seq<string>, outbounds: seq<string>, h: History, i: nat)
    ensures var rows := Rows(inbounds, outbounds, h);
            && |rows| == 2 * |inbounds| + 2 * |outbounds|
            && (i < |inbounds| ==>
                  && rows[2 * i] == TrafficRow(Inbound, inbounds[i], Uplink, h)
                  && rows[2 * i + 1] == TrafficRow(Inbound, inbounds[i], Downlink, h))
            && (i < |outbounds| ==>
                  && rows[2 * |inbounds| + 2 * i] == TrafficRow(Outbound, outbounds[i], Uplink, h)
                  && rows[2 * |inbounds| + 2 * i + 1] == TrafficRow(Outbound, outbounds[i], Downlink, h))
  {
    RowsOfLength(Inbound, inbounds, h);
    RowsOfLength(Outbound, outbounds, h);
    if i < |inbounds| {
      RowsOfAt(Inbound, inbounds, h, i);
    }
    if i < |outbounds| {
      RowsOfAt(Outbound, outbounds, h, i);
    }
  }

  /** The other counters are listed in their order, each as often as the response has it. */
  lemma OthersInOrder(a: seq<Counter>, b: seq<Counter>, rows: seq<Row>)
    ensures OtherCounters(a + b, rows) == OtherCounters(a, rows) + OtherCounters(b, rows)
  {
    MappedConcat(Unshowing(rows), a, b);
    SomesConcat(AllUnshown(a, rows), AllUnshown(b, rows));
  }

  lemma OneOther(counter: Counter, rows: seq<Row>)
    ensures OtherCounters([counter], rows) == if Charted(rows, counter.name) then [] else [counter]
  {
    assert AllUnshown([counter], rows) == [Unshown(counter, rows)];
    assert Somes([Unshown(counter, rows)][..0]) == [];
  }

  // ---------------------------------------------------------------------
  // The console as an object

  class Console {
    var history: History

    constructor ()
      ensures history == map[]
    {
      history := map[];
    }

    /** Appends one sample per counter, trimming each series from the front. */
    method RecordSample(counters: seq<Counter>, now: int)
      modifies this
      ensures history == Record(old(history), counters, now)
      ensures forall name: string :: Extends(old(history), history, name, SamplesIn(counters, now, name))
    {
      for i := 0 to |counters|
        invariant history == Record(old(history), counters[..i], now)
      {
        var counter := counters[i];
        assert counters[..i + 1][..i] == counters[..i];
        var series := (if counter.name in history then history[counter.name] else []) + [Sample(now, counter.value)];
        ghost var full := series;
        while |series| > HISTORY_CAP
          invariant LastN(series, HISTORY_CAP) == LastN(full, HISTORY_CAP)
        {
          series := series[1..];
        }
        history := history[counter.name := series];
      }
      assert counters[..|counters|] == counters;
      forall name: string ensures Extends(old(history), history, name, SamplesIn(counters, now, name)) {
        RecordExtends(old(history), counters, now, name);
      }
    }

    /** The charted rows, and the counters of the last response that no row shows. */
    method BuildPage(inbounds: seq<string>, outbounds: seq<string>, counters: seq<Counter>)
      returns (traffic: seq<Row>, others: seq<Counter>)
      ensures traffic == Rows(inbounds, outbounds, history)
      ensures others == OtherCounters(counters, traffic)
    {
      var inboundRows, inboundNames := BuildSide(Inbound, inbounds);
      var outboundRows, outboundNames := BuildSide(Outbound, outbounds);
      traffic := inboundRows + outboundRows;
      var known := inboundNames + outboundNames;
      NamesOfBoth(inboundNames, inboundRows, outboundNames, outboundRows);
      others := [];
      ghost var shown := AllUnshown(counters, traffic);
      for i := 0 to |counters|
        invariant others == Somes(shown[..i])
      {
        assert shown[..i + 1][..i] == shown[..i];
        if counters[i].name !in known {
          others := others + [counters[i]];
        }
      }
      assert shown[..|counters|] == shown;
    }

    method BuildSide(category: Category, tags: seq<string>) returns (rows: seq<Row>, names: set<string>)
      ensures rows == RowsOf(category, tags, history)
      ensures NamesOf(names, rows)
    {
      rows, names := [], {};
      for i := 0 to |tags|
        invariant rows == RowsOf(category, tags[..i], history)
        invariant NamesOf(names, rows)
      {
        assert tags[..i + 1][..i] == tags[..i];
        var up := TrafficRow(category, tags[i], Uplink, history);
        var down := TrafficRow(category, tags[i], Downlink, history);
        TwoMoreNames(names, rows, up, down);
        rows := rows + [up, down];
        names := names + {up.Name(), down.Name()};
      }
      assert tags[..|tags|] == tags;
    }
  }

  ghost predicate NamesOf(names: set<string>, rows: seq<Row>) {
    forall name: string :: name in names <==> Charted(rows, name)
  }

  lemma TwoMoreNames(names: set<string>, rows: seq<Row>, up: Row, down: Row)
    requires NamesOf(names, rows)
    ensures NamesOf(names + {up.Name(), down.Name()}, rows + [up, down])
  {
    forall name: string
      ensures Charted(rows + [up, down], name) <==> Charted(rows, name) || name == up.Name() || name == down.Name()
    {
      assert up in rows + [up, down] && down in rows + [up, down];
      assert forall r :: r in rows ==> r in rows + [up, down];
    }
  }

  lemma NamesOfBoth(names: set<string>, rows: seq<Row>, more: set<string>, moreRows: seq<Row>)
    requires NamesOf(names, rows) && NamesOf(more, moreRows)
    ensures NamesOf(names + more, rows + moreRows)
  {
  }
}
