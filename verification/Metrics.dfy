/**
 The HTTP metrics: what is recorded for each response, and the text in which a
 collector reads it.
 */
module Metrics {
  import opened Wrappers
  import opened OrderedDict
  import opened Counters
  import opened LabelEscape
  import opened Numerals

  datatype Key = Key(verb: string, endpoint: string, status: string)

  /** Requests are counted; durations are added up, in thousandths of a millisecond. */
  datatype Recorded = Recorded(requests: Counter<Key>, durations: Counter<Key>)

  /** A response: its key, and its duration when its start is known. */
  datatype Response = Response(key: Key, duration: Option<nat>)

  // ------------------------------------------------- what is recorded

  function Add(c: Counter<Key>, key: Key, amount: nat): Counter<Key> {
    Put(c, key, Count(c, key) + amount)
  }

  function Record(m: Recorded, r: Response): Recorded {
    Recorded(Add(m.requests, r.key, 1),
             if r.duration.Some? then Add(m.durations, r.key, r.duration.value) else m.durations)
  }

  function RecordAll(responses: seq<Response>): Recorded {
    if responses == [] then Recorded([], [])
    else
      var n := |responses| - 1;
      Record(RecordAll(responses[..n]), responses[n])
  }

  function KeysOf(responses: seq<Response>): (r: seq<Key>)
    ensures |r| == |responses|
  {
    if responses == [] then []
    else
      var n := |responses| - 1;
      KeysOf(responses[..n]) + [responses[n].key]
  }

  /** The durations of a key, added up. */
  function DurationOf(responses: seq<Response>, key: Key): nat {
    if responses == [] then 0
    else
      var n := |responses| - 1;
      var r := responses[n];
      DurationOf(responses[..n], key) + (if r.key == key && r.duration.Some? then r.duration.value else 0)
  }

  /** The duration of some response of this key is known. */
  predicate Timed(responses: seq<Response>, key: Key) {
    responses != [] &&
    var n := |responses| - 1;
    Timed(responses[..n], key) || (responses[n].key == key && responses[n].duration.Some?)
  }

  function DurationsOf(responses: seq<Response>): nat {
    if responses == [] then 0
    else
      var n := |responses| - 1;
      DurationsOf(responses[..n]) + (if responses[n].duration.Some? then responses[n].duration.value else 0)
  }

  /** Each key has the number of its responses, and the sum of their durations. */
  lemma {:induction false} RecordedPerKey(responses: seq<Response>, key: Key)
    ensures Count(RecordAll(responses).requests, key) == Occurrences(KeysOf(responses), key)
    ensures Get(RecordAll(responses).durations, key) ==
            if Timed(responses, key) then Some(DurationOf(responses, key)) else None
  {
    RequestsAreTallied(responses);
    TallyCounts(KeysOf(responses), key);
    DurationsAreAdded(responses, key);
  }

  lemma {:induction false} RequestsAreTallied(responses: seq<Response>)
    ensures RecordAll(responses).requests == Tally(KeysOf(responses))
  {
    if responses != [] {
      var n := |responses| - 1;
      RequestsAreTallied(responses[..n]);
      assert KeysOf(responses)[..n] == KeysOf(responses[..n]);
    }
  }

  lemma {:induction false} DurationsAreDistinct(responses: seq<Response>)
    ensures Distinct(RecordAll(responses).durations)
  {
    if responses != [] {
      var n := |responses| - 1;
      var r, before := responses[n], RecordAll(responses[..n]);
      DurationsAreDistinct(responses[..n]);
      if r.duration.Some? {
        PutKeys(before.durations, r.key, Count(before.durations, r.key) + r.duration.value);
      }
    }
  }

  lemma {:induction false} DurationsAreAdded(responses: seq<Response>, key: Key)
    ensures Get(RecordAll(responses).durations, key) ==
            if Timed(responses, key) then Some(DurationOf(responses, key)) else None
    ensures !Timed(responses, key) ==> DurationOf(responses, key) == 0
  {
    if responses != [] {
      var n := |responses| - 1;
      var r, before := responses[n], RecordAll(responses[..n]);
      DurationsAreAdded(responses[..n], key);
      if r.duration.Some? {
        PutGet(before.durations, r.key, Count(before.durations, r.key) + r.duration.value, key);
      }
    }
  }

  /** Nothing that was recorded is lost or counted twice. */
  lemma {:induction false} RecordingConserves(responses: seq<Response>)
    ensures Total(RecordAll(responses).requests) == |responses|
    ensures Total(RecordAll(responses).durations) == DurationsOf(responses)
  {
    if responses != [] {
      var n := |responses| - 1;
      var r, before := responses[n], RecordAll(responses[..n]);
      RecordingConserves(responses[..n]);
      TotalOfPut(before.requests, r.key, Count(before.requests, r.key) + 1);
      if r.duration.Some? {
        TotalOfPut(before.durations, r.key, Count(before.durations, r.key) + r.duration.value);
      }
    }
  }

  ghost predicate NonNegative(c: Counter<Key>) {
    forall i | 0 <= i < |c| :: 0 <= c[i].1
  }

  ghost predicate NeverNegative(m: Recorded) {
    NonNegative(m.requests) && NonNegative(m.durations)
  }

  lemma {:induction false} AddKeepsNonNegative(c: Counter<Key>, key: Key, amount: nat)
    requires NonNegative(c)
    ensures NonNegative(Add(c, key, amount))
  {
    CountIsNonNegative(c, key);
    PutKeepsNonNegative(c, key, Count(c, key) + amount);
  }

  lemma {:induction false} CountIsNonNegative(c: Counter<Key>, key: Key)
    requires NonNegative(c)
    ensures 0 <= Count(c, key)
  {
    if c != [] {
      CountIsNonNegative(c[1..], key);
    }
  }

  lemma {:induction false} PutKeepsNonNegative(c: Counter<Key>, key: Key, value: int)
    requires NonNegative(c) && 0 <= value
    ensures NonNegative(Put(c, key, value))
  {
    if c != [] && c[0].0 != key {
      PutKeepsNonNegative(c[1..], key, value);
    }
  }

  lemma {:induction false} RecordKeepsNonNegative(m: Recorded, r: Response)
    requires NeverNegative(m)
    ensures NeverNegative(Record(m, r))
  {
    AddKeepsNonNegative(m.requests, r.key, 1);
    if r.duration.Some? {
      AddKeepsNonNegative(m.durations, r.key, r.duration.value);
    }
  }

  lemma {:induction false} RecordedIsNeverNegative(responses: seq<Response>)
    ensures NeverNegative(RecordAll(responses))
  {
    if responses != [] {
      var n := |responses| - 1;
      RecordedIsNeverNegative(responses[..n]);
      RecordKeepsNonNegative(RecordAll(responses[..n]), responses[n]);
    }
  }

  // ------------------------------------------------- labels

  type Label = (string, string)

  /** Whether one name sorts before another, character by character. */
  predicate Before(a: string, b: string) {
    b != "" && (a == "" || a[0] < b[0] || (a[0] == b[0] && Before(a[1..], b[1..])))
  }

  function InsertLabel(sorted: seq<Label>, l: Label): seq<Label> {
    if sorted == [] || !Before(sorted[0].0, l.0) then [l] + sorted else [sorted[0]] + InsertLabel(sorted[1..], l)
  }

  function SortLabels(labels: seq<Label>): seq<Label> {
    if labels == [] then [] else InsertLabel(SortLabels(labels[1..]), labels[0])
  }

  function Quoted(l: Label): string {
    l.0 + "=\"" + EscapeLabel(l.1) + "\""
  }

  function Joined(labels: seq<Label>): string {
    if labels == [] then ""
    else if |labels| == 1 then Quoted(labels[0])
    else Quoted(labels[0]) + "," + Joined(labels[1..])
  }

  function FormatLabels(labels: seq<Label>): string {
    "{" + Joined(SortLabels(labels)) + "}"
  }

  function LabelsOf(key: Key): seq<Label> {
    [("method", key.verb), ("endpoint", key.endpoint), ("status", key.status)]
  }

  function SortedLabelsOf(key: Key): seq<Label> {
    [("endpoint", key.endpoint), ("method", key.verb), ("status", key.status)]
  }

  lemma {:induction false} LabelsAreSorted(key: Key)
    ensures SortLabels(LabelsOf(key)) == SortedLabelsOf(key)
  {
    var e, m, s := ("endpoint", key.endpoint), ("method", key.verb), ("status", key.status);
    assert [m, e, s][1..] == [e, s] && [e, s][1..] == [s] && [s][1..] == [];
    assert SortLabels([s]) == [s];
    assert Before("endpoint", "method") && !Before("status", "endpoint") && !Before("status", "method");
    assert InsertLabel([s], e) == [e, s];
    assert InsertLabel([s], m) == [m, s];
    assert InsertLabel([e, s], m) == [e] + InsertLabel([s], m);
  }

  // ------------------------------------------------- the text

  const REQUESTS := "apitaxi_http_requests_total"
  const DURATION_SUM := "apitaxi_http_request_duration_ms_sum"
  const DURATION_COUNT := "apitaxi_http_request_duration_ms_count"

  const REQUESTS_HELP := " HTTP requests served by Rezo Taxi Core."
  const SUM_HELP := " Total HTTP request duration in milliseconds."
  const COUNT_HELP := " Count of HTTP request durations."

  /** The two comments before the samples of a name. */
  function Head(name: string, help: string): seq<string> {
    ["# HELP " + name + help, "# TYPE " + name + " counter"]
  }

  /** A line of the text: a name, a key and a number as it is printed. */
  datatype Sample = Sample(name: string, key: Key, number: string)

  function Line(s: Sample): string {
    s.name + FormatLabels(LabelsOf(s.key)) + " " + s.number
  }

  /** The printed counts of a counter under a name. */
  function Counts(name: string, c: Counter<Key>): (r: seq<Sample>)
    requires NonNegative(c)
    ensures |r| == |c|
  {
    seq(|c|, i requires 0 <= i < |c| => Sample(name, c[i].0, Decimal(c[i].1)))
  }

  function Sums(name: string, c: Counter<Key>): (r: seq<Sample>)
    requires NonNegative(c)
    ensures |r| == |c|
  {
    seq(|c|, i requires 0 <= i < |c| => Sample(name, c[i].0, Fixed(c[i].1)))
  }

  function Lines(samples: seq<Sample>): (r: seq<string>)
    ensures |r| == |samples|
  {
    seq(|samples|, i requires 0 <= i < |samples| => Line(samples[i]))
  }

  /** The names under which the samples appear, with what is said about each. */
  datatype Names = Names(requests: string, requestsHelp: string, sum: string, sumHelp: string,
                         count: string, countHelp: string)

  const NAMES := Names(REQUESTS, REQUESTS_HELP, DURATION_SUM, SUM_HELP, DURATION_COUNT, COUNT_HELP)

  function AllLines(m: Recorded, n: Names): seq<string>
    requires NeverNegative(m)
  {
    (Head(n.requests, n.requestsHelp) + Lines(Counts(n.requests, m.requests)))
    + (Head(n.sum, n.sumHelp) + Lines(Sums(n.sum, m.durations)))
    + (Head(n.count, n.countHelp) + Lines(Counts(n.count, m.requests)))
  }

  /** Lines with newlines between them. */
  function JoinedLines(lines: seq<string>): string {
    if lines == [] then "" else if |lines| == 1 then lines[0] else lines[0] + "\n" + JoinedLines(lines[1..])
  }

  function Rendered(m: Recorded): string
    requires NeverNegative(m)
  {
    JoinedLines(AllLines(m, NAMES)) + "\n"
  }

  // ------------------------------------------------- the program

  class HttpMetrics {
    var requests: Counter<Key>
    var durations: Counter<Key>

    ghost function Held(): Recorded
      reads this
    {
      Recorded(requests, durations)
    }

    constructor ()
      ensures Held() == RecordAll([])
    {
      requests, durations := [], [];
    }

    /** Records a response, unless the metrics are switched off. */
    method RecordHttpMetrics(enabled: bool, r: Response)
      requires NeverNegative(Held())
      modifies this
      ensures Held() == if enabled then Record(old(Held()), r) else old(Held())
      ensures NeverNegative(Held())
    {
      RecordKeepsNonNegative(Held(), r);
      if !enabled {
        return;
      }
      requests := Put(requests, r.key, Count(requests, r.key) + 1);
      if r.duration.Some? {
        durations := Put(durations, r.key, Count(durations, r.key) + r.duration.value);
      }
    }

    method RenderMetrics() returns (text: string)
      requires NeverNegative(Held())
      ensures text == Rendered(Held())
    {
      var requestItems, durationItems := requests, durations;
      var lines := Head(REQUESTS, REQUESTS_HELP);
      lines := AppendCounts(lines, REQUESTS, requestItems);
      ghost var a := lines;
      lines := lines + Head(DURATION_SUM, SUM_HELP);
      lines := AppendSums(lines, DURATION_SUM, durationItems);
      ghost var b := Head(DURATION_SUM, SUM_HELP) + Lines(Sums(DURATION_SUM, durationItems));
      assert lines == a + b;
      lines := lines + Head(DURATION_COUNT, COUNT_HELP);
      lines := AppendCounts(lines, DURATION_COUNT, requestItems);
      assert lines == a + b + (Head(DURATION_COUNT, COUNT_HELP) + Lines(Counts(DURATION_COUNT, requestItems)));
      text := JoinedLines(lines) + "\n";
    }
  }

  /** A line for each key with its count. */
  method AppendCounts(before: seq<string>, name: string, items: Counter<Key>) returns (lines: seq<string>)
    requires NonNegative(items)
    ensures lines == before + Lines(Counts(name, items))
  {
    lines := before;
    for i := 0 to |items|
      invariant lines == before + Lines(Counts(name, items))[..i]
    {
      var (key, count) := items[i];
      lines := lines + [name + FormatLabels(LabelsOf(key)) + " " + Decimal(count)];
    }
  }

  /** A line for each key with its sum. */
  method AppendSums(before: seq<string>, name: string, items: Counter<Key>) returns (lines: seq<string>)
    requires NonNegative(items)
    ensures lines == before + Lines(Sums(name, items))
  {
    lines := before;
    for i := 0 to |items|
      invariant lines == before + Lines(Sums(name, items))[..i]
    {
      var (key, sum) := items[i];
      lines := lines + [name + FormatLabels(LabelsOf(key)) + " " + Fixed(sum)];
    }
  }
}
