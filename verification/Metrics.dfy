/**
 The metrics of src/metrics.rs: the label text that names a series, and the
 series of one metric kept under it. The label text is proved to tell series
 apart, whatever the values contain, and so each series counts its own.
 */
module Metrics {
  import opened Bytes

  datatype Label = Label(key: string, value: string)

  // ----- the label text ------------------------------------------------------------------

  function EscapeChar(c: char): string {
    if c == '\\' then ['\\', '\\'] else if c == '"' then ['\\', '"'] else if c == '\n' then ['\\', 'n'] else [c]
  }

  function Escape(v: string): string {
    if |v| == 0 then "" else EscapeChar(v[0]) + Escape(v[1..])
  }

  function Item(l: Label): string {
    l.key + ['=', '"'] + Escape(l.value) + ['"']
  }

  function Body(ls: seq<Label>): string {
    if |ls| == 0 then "" else if |ls| == 1 then Item(ls[0]) else Item(ls[0]) + [','] + Body(ls[1..])
  }

  function Labels(ls: seq<Label>): string {
    if |ls| == 0 then "" else ['{'] + Body(ls) + ['}']
  }

  lemma {:induction false} EscapeConcat(a: string, b: string)
    ensures Escape(a + b) == Escape(a) + Escape(b)
  {
    if |a| == 0 {
      assert a + b == b;
    } else {
      assert (a + b)[1..] == a[1..] + b;
      EscapeConcat(a[1..], b);
    }
  }

  lemma EscapeOne(c: char)
    ensures Escape([c]) == EscapeChar(c)
  {
    assert [c][1..] == "";
  }

  /** What stands between these labels and one more. */
  function Comma(ls: seq<Label>): string {
    if |ls| == 0 then "" else [',']
  }

  lemma {:induction false} BodyNext(ls: seq<Label>, l: Label)
    ensures Body(ls + [l]) == Body(ls) + Comma(ls) + Item(l)
  {
    if |ls| == 0 {
      assert ls + [l] == [l];
    } else {
      assert (ls + [l])[1..] == ls[1..] + [l];
      BodyNext(ls[1..], l);
      assert |ls| == 1 ==> ls[1..] + [l] == [l] && ls == [ls[0]];
    }
  }

  /** The source's loop over a value. */
  method PrintValue(s: string, v: string) returns (t: string)
    ensures t == s + Escape(v)
  {
    t := s;
    for j := 0 to |v|
      invariant t == s + Escape(v[..j])
    {
      var c := v[j];
      EscapeConcat(v[..j], [c]);
      EscapeOne(c);
      assert v[..j + 1] == v[..j] + [c];
      match c {
        case '\\' => t := t + ['\\', '\\'];
        case '"' => t := t + ['\\', '"'];
        case '\n' => t := t + ['\\', 'n'];
        case _ => t := t + [c];
      }
    }
    assert v[..|v|] == v;
  }

  method PrintItem(s: string, l: Label) returns (t: string)
    ensures t == s + Item(l)
  {
    t := s + l.key;
    t := t + ['=', '"'];
    t := PrintValue(t, l.value);
    t := t + ['"'];
  }

  lemma Appended(brace: string, body: string, comma: string, item: string)
    ensures brace + body + comma + item == brace + (body + comma + item)
  {
  }

  method PrintLabels(ls: seq<Label>) returns (s: string)
    ensures s == Labels(ls)
  {
    if |ls| == 0 {
      return "";
    }
    s := ['{'];
    for i := 0 to |ls|
      invariant s == ['{'] + Body(ls[..i])
    {
      BodyNext(ls[..i], ls[i]);
      Appended(['{'], Body(ls[..i]), Comma(ls[..i]), Item(ls[i]));
      assert ls[..i + 1] == ls[..i] + [ls[i]];
      if i > 0 {
        s := s + [','];
      }
      assert s == ['{'] + Body(ls[..i]) + Comma(ls[..i]);
      s := PrintItem(s, ls[i]);
    }
    assert ls[..|ls|] == ls;
    s := s + ['}'];
  }

  // ----- reading it back ------------------------------------------------------------------

  /** A value and what follows its closing quote. */
  datatype Quoted = Quoted(value: string, rest: string)

  /** The text format's reader: up to the first quote that no backslash escapes. */
  function ReadValue(s: string): Option<Quoted> {
    if |s| == 0 then None
    else if s[0] == '"' then Some(Quoted("", s[1..]))
    else if s[0] == '\\' then
      if |s| < 2 then None
      else
        var c := if s[1] == 'n' then '\n' else s[1];
        Preceded(c, ReadValue(s[2..]))
    else Preceded(s[0], ReadValue(s[1..]))
  }

  function Preceded(c: char, q: Option<Quoted>): Option<Quoted> {
    match q
    case None => None
    case Some(r) => Some(Quoted([c] + r.value, r.rest))
  }

  lemma {:induction false} ReadEscaped(v: string, rest: string)
    ensures ReadValue(Escape(v) + ['"'] + rest) == Some(Quoted(v, rest))
  {
    var s := Escape(v) + ['"'] + rest;
    if |v| == 0 {
      assert s == ['"'] + rest;
      assert s[1..] == rest;
    } else {
      ReadEscaped(v[1..], rest);
      EscapeFirst(v, rest);
      ReadChar(v[0], Escape(v[1..]) + ['"'] + rest);
      assert [v[0]] + v[1..] == v;
    }
  }

  lemma EscapeFirst(v: string, rest: string)
    requires |v| > 0
    ensures Escape(v) + ['"'] + rest == EscapeChar(v[0]) + (Escape(v[1..]) + ['"'] + rest)
  {
    var first, later := EscapeChar(v[0]), Escape(v[1..]);
    Regroup(first, later, ['"']);
    Regroup(first, later + ['"'], rest);
  }

  lemma ReadChar(c: char, later: string)
    ensures ReadValue(EscapeChar(c) + later) == Preceded(c, ReadValue(later))
  {
    assert (EscapeChar(c) + later)[|EscapeChar(c)|..] == later;
  }

  /** The value of an item with this key, and what follows it. */
  function ReadItem(s: string, key: string): Option<Quoted> {
    var open := key + ['=', '"'];
    if open <= s then ReadValue(s[|open|..]) else None
  }

  /** The values of labels with these keys, if the text is such labels. */
  function ReadItems(s: string, keys: seq<string>): Option<seq<string>>
    decreases |keys|
  {
    if |keys| == 0 then None
    else match ReadItem(s, keys[0])
      case None => None
      case Some(q) =>
        if |keys| == 1 then if q.rest == ['}'] then Some([q.value]) else None
        else if |q.rest| == 0 || q.rest[0] != ',' then None
        else match ReadItems(q.rest[1..], keys[1..])
          case None => None
          case Some(vs) => Some([q.value] + vs)
  }

  lemma ItemRead(key: string, value: string, rest: string)
    ensures ReadItem(Item(Label(key, value)) + rest, key) == Some(Quoted(value, rest))
  {
    var open := key + ['=', '"'];
    var s, later := Item(Label(key, value)) + rest, Escape(value) + ['"'] + rest;
    assert s == open + later;
    assert s[|open|..] == later;
    ReadEscaped(value, rest);
  }

  function ReadLabels(s: string, keys: seq<string>): Option<seq<string>> {
    if |keys| == 0 then if s == "" then Some([]) else None
    else if |s| == 0 || s[0] != '{' then None
    else ReadItems(s[1..], keys)
  }

  function Zip(keys: seq<string>, values: seq<string>): (ls: seq<Label>)
    requires |keys| == |values|
    ensures |ls| == |keys|
    ensures forall i :: 0 <= i < |ls| ==> ls[i] == Label(keys[i], values[i])
  {
    if |keys| == 0 then [] else [Label(keys[0], values[0])] + Zip(keys[1..], values[1..])
  }

  lemma {:induction false} ItemsRead(keys: seq<string>, values: seq<string>)
    requires |keys| == |values| > 0
    ensures ReadItems(Body(Zip(keys, values)) + ['}'], keys) == Some(values)
  {
    var ls := Zip(keys, values);
    if |keys| == 1 {
      ItemRead(keys[0], values[0], ['}']);
      assert values == [values[0]];
    } else {
      var later := Body(ls[1..]) + ['}'];
      assert ls[1..] == Zip(keys[1..], values[1..]);
      assert Body(ls) + ['}'] == Item(ls[0]) + ([','] + later);
      ItemRead(keys[0], values[0], [','] + later);
      assert ([','] + later)[1..] == later;
      ItemsRead(keys[1..], values[1..]);
      assert [values[0]] + values[1..] == values;
    }
  }

  /** The label text is undone by reading, whatever the values contain. */
  lemma LabelsRead(keys: seq<string>, values: seq<string>)
    requires |keys| == |values|
    ensures ReadLabels(Labels(Zip(keys, values)), keys) == Some(values)
  {
    if |keys| > 0 {
      ItemsRead(keys, values);
      var s := Labels(Zip(keys, values));
      assert s == ['{'] + (Body(Zip(keys, values)) + ['}']);
      assert s[1..] == Body(Zip(keys, values)) + ['}'];
    }
  }

  /** So different values never share a series. */
  lemma LabelsInjective(keys: seq<string>, a: seq<string>, b: seq<string>)
    requires |keys| == |a| == |b|
    ensures Labels(Zip(keys, a)) == Labels(Zip(keys, b)) <==> a == b
  {
    LabelsRead(keys, a);
    LabelsRead(keys, b);
  }

  /** A label text is one line. */
  lemma {:induction false} NoNewline(ls: seq<Label>)
    requires forall l :: l in ls ==> '\n' !in l.key
    ensures '\n' !in Labels(ls)
  {
    BodyNoNewline(ls);
  }

  lemma {:induction false} BodyNoNewline(ls: seq<Label>)
    requires forall l :: l in ls ==> '\n' !in l.key
    ensures '\n' !in Body(ls)
  {
    if |ls| > 0 {
      EscapeNoNewline(ls[0].value);
      BodyNoNewline(ls[1..]);
    }
  }

  lemma {:induction false} EscapeNoNewline(v: string)
    ensures '\n' !in Escape(v)
  {
    if |v| > 0 {
      EscapeNoNewline(v[1..]);
    }
  }

  // ----- the `le` label ---------------------------------------------------------------------

  /** The labels of a histogram's bucket: `le` spliced in before the closing brace. */
  function WithLe(labels: string, le: string): string {
    if |labels| == 0 then ['{', 'l', 'e', '=', '"'] + le + ['"', '}']
    else labels[..|labels| - 1] + [',', 'l', 'e', '=', '"'] + le + ['"', '}']
  }

  predicate Plain(le: string) {
    forall c :: c in le ==> c != '\\' && c != '"' && c != '\n'
  }

  lemma {:induction false} PlainEscape(v: string)
    requires Plain(v)
    ensures Escape(v) == v
  {
    if |v| > 0 {
      assert v[0] in v && forall c :: c in v[1..] ==> c in v;
      PlainEscape(v[1..]);
    }
  }

  /** The splice gives what printing one more label would have given. */
  lemma SpliceIsLabel(ls: seq<Label>, le: string)
    requires Plain(le)
    ensures WithLe(Labels(ls), le) == Labels(ls + [Label(['l', 'e'], le)])
  {
    var l := Label(['l', 'e'], le);
    PlainEscape(le);
    BodyNext(ls, l);
    LeItem(le);
    if |ls| > 0 {
      Spliced(Body(ls), Item(l), WithLe(Labels(ls), le), le);
    } else {
      assert [] + [l] == [l];
      OnlyLe(Item(l), le);
    }
  }

  lemma LeItem(le: string)
    requires Escape(le) == le
    ensures Item(Label(['l', 'e'], le)) == ['l', 'e', '=', '"'] + le + ['"']
  {
  }

  lemma OnlyLe(item: string, le: string)
    requires item == ['l', 'e', '=', '"'] + le + ['"']
    ensures WithLe("", le) == ['{'] + item + ['}']
  {
  }

  lemma Spliced(body: string, item: string, text: string, le: string)
    requires text == WithLe(['{'] + body + ['}'], le) && item == ['l', 'e', '=', '"'] + le + ['"']
    ensures text == ['{'] + (body + [','] + item) + ['}']
  {
    var labels := ['{'] + body + ['}'];
    assert labels[..|labels| - 1] == ['{'] + body;
  }

  // ----- the series of one metric --------------------------------------------------------------

  /** The buckets' upper bounds, in microseconds. */
  const BOUNDS: seq<nat> :=
    [5_000, 10_000, 25_000, 50_000, 100_000, 250_000, 500_000, 1_000_000, 2_500_000, 5_000_000, 10_000_000]

  datatype Hist = Hist(buckets: seq<nat>, count: nat)

  /** A duration recorded under label values. */
  datatype Sample = Sample(values: seq<string>, micros: nat)

  /** How many samples of a series are at most `bound`. */
  function CountAtMost(samples: seq<Sample>, values: seq<string>, bound: nat): nat {
    if |samples| == 0 then 0
    else
      var s := samples[|samples| - 1];
      CountAtMost(samples[..|samples| - 1], values, bound) + if s.values == values && s.micros <= bound then 1 else 0
  }

  function CountOf(samples: seq<Sample>, values: seq<string>): nat {
    if |samples| == 0 then 0
    else CountOf(samples[..|samples| - 1], values) + if samples[|samples| - 1].values == values then 1 else 0
  }

  lemma {:induction false} Cumulative(samples: seq<Sample>, values: seq<string>, low: nat, high: nat)
    requires low <= high
    ensures CountAtMost(samples, values, low) <= CountAtMost(samples, values, high) <= CountOf(samples, values)
  {
    if |samples| > 0 {
      Cumulative(samples[..|samples| - 1], values, low, high);
    }
  }

  function GaugeAt(keys: seq<string>, gauges: map<string, int>, values: seq<string>): int
    requires |values| == |keys|
  {
    var text := Labels(Zip(keys, values));
    if text in gauges then gauges[text] else 0
  }

  function HistAt(keys: seq<string>, hists: map<string, Hist>, values: seq<string>): Hist
    requires |values| == |keys|
  {
    var text := Labels(Zip(keys, values));
    if text in hists then hists[text] else NewHist()
  }

  /** Every gauge is the number of its own guards. */
  ghost predicate GaugesRight(keys: seq<string>, gauges: map<string, int>, live: multiset<seq<string>>) {
    forall values: seq<string> :: |values| == |keys| ==> GaugeAt(keys, gauges, values) == live[values]
  }

  /** Every bucket counts its own samples. */
  ghost predicate HistsRight(keys: seq<string>, hists: map<string, Hist>, samples: seq<Sample>) {
    forall values: seq<string> :: |values| == |keys| ==> IsHistOf(HistAt(keys, hists, values), samples, values)
  }

  /** A new value for one gauge, its guards more or fewer by as much. */
  lemma GaugeMoved(keys: seq<string>, gauges: map<string, int>, live: multiset<seq<string>>, values: seq<string>,
                   n: int, live': multiset<seq<string>>)
    requires GaugesRight(keys, gauges, live) && |values| == |keys|
    requires n == live'[values] && forall other :: other != values ==> live'[other] == live[other]
    ensures GaugesRight(keys, gauges[Labels(Zip(keys, values)) := n], live')
  {
    forall other: seq<string> | |other| == |keys|
      ensures GaugeAt(keys, gauges[Labels(Zip(keys, values)) := n], other) == live'[other]
    {
      LabelsInjective(keys, values, other);
      assert other != values ==> GaugeAt(keys, gauges, other) == live[other];
    }
  }

  /** A new histogram for one series, that of one more sample. */
  lemma HistMoved(keys: seq<string>, hists: map<string, Hist>, samples: seq<Sample>, s: Sample, h: Hist)
    requires HistsRight(keys, hists, samples) && |s.values| == |keys| && IsHistOf(h, samples + [s], s.values)
    ensures HistsRight(keys, hists[Labels(Zip(keys, s.values)) := h], samples + [s])
  {
    forall other: seq<string> | |other| == |keys|
      ensures IsHistOf(HistAt(keys, hists[Labels(Zip(keys, s.values)) := h], other), samples + [s], other)
    {
      assert IsHistOf(HistAt(keys, hists, other), samples, other);
      HistAtMoved(keys, hists, s.values, h, other);
      OneMoreSample(HistAt(keys, hists, other), HistAt(keys, hists[Labels(Zip(keys, s.values)) := h], other), h, samples, s, other);
    }
  }

  /** The histogram of a series after one more sample, be it its own or another's. */
  lemma OneMoreSample(was: Hist, now: Hist, h: Hist, samples: seq<Sample>, s: Sample, values: seq<string>)
    requires IsHistOf(was, samples, values) && IsHistOf(h, samples + [s], s.values)
    requires now == if values == s.values then h else was
    ensures IsHistOf(now, samples + [s], values)
  {
    if values != s.values {
      OtherSample(was, samples, values, s);
    }
  }

  /** Only the series' own histogram is another one. */
  lemma HistAtMoved(keys: seq<string>, hists: map<string, Hist>, values: seq<string>, h: Hist, other: seq<string>)
    requires |values| == |keys| == |other|
    ensures HistAt(keys, hists[Labels(Zip(keys, values)) := h], other) == if other == values then h else HistAt(keys, hists, other)
  {
    if other != values {
      LabelsInjective(keys, values, other);
    }
  }

  lemma NothingYet(keys: seq<string>)
    ensures GaugesRight(keys, map[], multiset{}) && HistsRight(keys, map[], [])
  {
    forall values: seq<string>
      ensures IsHistOf(NewHist(), [], values)
    {
    }
  }

  /** The gauges and histograms of one metric, by label text. */
  class Family {
    const keys: seq<string>
    var gauges: map<string, int>
    var hists: map<string, Hist>
    /** The label values of the guards that live, and everything observed. */
    ghost var live: multiset<seq<string>>
    ghost var samples: seq<Sample>

    ghost predicate Valid()
      reads this
    {
      GaugesRight(keys, gauges, live) && HistsRight(keys, hists, samples)
    }

    constructor (keys: seq<string>)
      ensures Valid() && this.keys == keys && live == multiset{} && samples == []
    {
      this.keys := keys;
      gauges, hists, live, samples := map[], map[], multiset{}, [];
      NothingYet(keys);
    }

    /** A guard is the label text that its end will look up. */
    method Active(values: seq<string>) returns (guard: string)
      requires Valid() && |values| == |keys|
      modifies this`gauges, this`live
      ensures Valid() && live == old(live) + multiset{values} && guard == Labels(Zip(keys, values))
    {
      guard := PrintLabels(Zip(keys, values));
      var n := (if guard in gauges then gauges[guard] else 0) + 1;
      assert n == GaugeAt(keys, gauges, values) + 1;
      GaugeMoved(keys, gauges, live, values, n, live + multiset{values});
      gauges := gauges[guard := n];
      live := live + multiset{values};
    }

    /** A guard's end; `values` are those it was made with. */
    method Drop(guard: string, ghost values: seq<string>)
      requires Valid() && |values| == |keys| && guard == Labels(Zip(keys, values)) && values in live
      modifies this`gauges, this`live
      ensures Valid() && live == old(live) - multiset{values}
    {
      assert GaugeAt(keys, gauges, values) == live[values] > 0;
      if guard in gauges {
        GaugeMoved(keys, gauges, live, values, gauges[guard] - 1, live - multiset{values});
        gauges := gauges[guard := gauges[guard] - 1];
      }
      live := live - multiset{values};
    }

    method Observe(values: seq<string>, micros: nat)
      requires Valid() && |values| == |keys|
      modifies this`hists, this`samples
      ensures Valid() && samples == old(samples) + [Sample(values, micros)]
    {
      var text := PrintLabels(Zip(keys, values));
      var h := if text in hists then hists[text] else NewHist();
      assert h == HistAt(keys, hists, values);
      var h' := Recorded(h, micros);
      RecordedRight(h, h', samples, values, micros);
      HistMoved(keys, hists, samples, Sample(values, micros), h');
      hists := hists[text := h'];
      samples := samples + [Sample(values, micros)];
    }
  }

  function NewHist(): Hist {
    Hist(seq(|BOUNDS|, i => 0), 0)
  }

  /** The histogram is that of the series' samples. */
  ghost predicate IsHistOf(h: Hist, samples: seq<Sample>, values: seq<string>) {
    h.count == CountOf(samples, values) && BucketsRight(h.buckets, samples, values)
  }

  ghost predicate BucketsRight(buckets: seq<nat>, samples: seq<Sample>, values: seq<string>) {
    && |buckets| == |BOUNDS|
    && forall i :: 0 <= i < |BOUNDS| ==> buckets[i] == CountAtMost(samples, values, BOUNDS[i])
  }

  method Recorded(h: Hist, micros: nat) returns (h': Hist)
    requires |h.buckets| == |BOUNDS|
    ensures |h'.buckets| == |BOUNDS| && h'.count == h.count + 1
    ensures forall i :: 0 <= i < |BOUNDS| ==> h'.buckets[i] == h.buckets[i] + if micros <= BOUNDS[i] then 1 else 0
  {
    var buckets := h.buckets;
    for i := 0 to |BOUNDS|
      invariant |buckets| == |BOUNDS|
      invariant forall k :: 0 <= k < i ==> buckets[k] == h.buckets[k] + if micros <= BOUNDS[k] then 1 else 0
      invariant forall k :: i <= k < |BOUNDS| ==> buckets[k] == h.buckets[k]
    {
      if micros <= BOUNDS[i] {
        buckets := buckets[i := buckets[i] + 1];
      }
    }
    h' := Hist(buckets, h.count + 1);
  }

  lemma RecordedRight(h: Hist, h': Hist, samples: seq<Sample>, values: seq<string>, micros: nat)
    requires IsHistOf(h, samples, values) && |h'.buckets| == |BOUNDS| && h'.count == h.count + 1
    requires forall i :: 0 <= i < |BOUNDS| ==> h'.buckets[i] == h.buckets[i] + if micros <= BOUNDS[i] then 1 else 0
    ensures IsHistOf(h', samples + [Sample(values, micros)], values)
  {
    var more := samples + [Sample(values, micros)];
    assert more[..|more| - 1] == samples;
  }

  lemma OtherSample(h: Hist, samples: seq<Sample>, values: seq<string>, s: Sample)
    requires IsHistOf(h, samples, values) && s.values != values
    ensures IsHistOf(h, samples + [s], values)
  {
    var more := samples + [s];
    assert more[..|more| - 1] == samples;
  }

  /** The exposed buckets never fall, and the last, `+Inf`, is the count. */
  lemma BucketsRise(h: Hist, samples: seq<Sample>, values: seq<string>, i: nat, j: nat)
    requires IsHistOf(h, samples, values) && i <= j < |BOUNDS|
    ensures h.buckets[i] <= h.buckets[j] <= h.count
  {
    BoundsRise(i, j);
    Cumulative(samples, values, BOUNDS[i], BOUNDS[j]);
  }

  /** The bounds go from 5 ms to 10 s, each twice or two and a half times the one before. */
  lemma BoundsSteps(i: nat)
    requires i < |BOUNDS| - 1
    ensures |BOUNDS| == 11 && BOUNDS[0] == 5_000 && BOUNDS[10] == 10_000_000
    ensures if i % 3 == 1 then 2 * BOUNDS[i + 1] == 5 * BOUNDS[i] else BOUNDS[i + 1] == 2 * BOUNDS[i]
  {
  }

  lemma BoundsRise(i: nat, j: nat)
    requires i <= j < |BOUNDS|
    ensures BOUNDS[i] <= BOUNDS[j]
  {
  }
}
