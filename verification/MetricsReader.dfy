/** A collector's reading of the metrics, and the proof that it finds all that was recorded. */
module MetricsReader {
  import opened Wrappers
  import opened OrderedDict
  import opened Counters
  import opened LabelEscape
  import opened Numerals
  import opened Metrics

  // ------------------------------------------------- the reader

  /** Reads up to a character: what comes before it, and what follows it. */
  function ReadUntil(s: string, c: char): (r: Option<(string, string)>)
    ensures r.Some? ==> |r.value.1| < |s|
  {
    if s == "" then None
    else if s[0] == c then Some(("", s[1..]))
    else Prepend(s[0], ReadUntil(s[1..], c))
  }

  /** One name and its quoted value. */
  function ReadLabel(s: string): (r: Option<(Label, string)>)
    ensures r.Some? ==> |r.value.1| < |s|
  {
    var name := ReadUntil(s, '=');
    if name.None? || name.value.1 == "" || name.value.1[0] != '"' then None
    else
      var value := ReadQuoted(name.value.1[1..]);
      if value.None? then None else Some(((name.value.0, value.value.0), value.value.1))
  }

  /** Names and values up to the closing brace. */
  function ReadLabels(s: string): Option<(seq<Label>, string)>
    decreases |s|
  {
    var first := ReadLabel(s);
    if first.None? || first.value.1 == "" then None
    else
      var (l, rest) := first.value;
      if rest[0] == '}' then Some(([l], rest[1..]))
      else if rest[0] != ',' then None
      else
        var more := ReadLabels(rest[1..]);
        if more.None? then None else Some(([l] + more.value.0, more.value.1))
  }

  function ValueOfLabel(labels: seq<Label>, name: string): Option<string> {
    if labels == [] then None
    else if labels[0].0 == name then Some(labels[0].1)
    else ValueOfLabel(labels[1..], name)
  }

  function KeyFrom(labels: seq<Label>): Option<Key> {
    var verb, endpoint := ValueOfLabel(labels, "method"), ValueOfLabel(labels, "endpoint");
    var status := ValueOfLabel(labels, "status");
    if verb.None? || endpoint.None? || status.None? then None
    else Some(Key(verb.value, endpoint.value, status.value))
  }

  function ReadLine(s: string): Option<Sample> {
    var name := ReadUntil(s, '{');
    if name.None? then None
    else
      var labels := ReadLabels(name.value.1);
      if labels.None? || labels.value.1 == "" || labels.value.1[0] != ' ' then None
      else
        var key := KeyFrom(labels.value.0);
        if key.None? then None else Some(Sample(name.value.0, key.value, labels.value.1[1..]))
  }

  function SplitLines(text: string): seq<string>
    decreases |text|
  {
    if text == "" then []
    else
      var line := ReadUntil(text, '\n');
      if line.None? then [text] else [line.value.0] + SplitLines(line.value.1)
  }

  /** Reads every line that is not a comment. */
  function ReadLines(lines: seq<string>): Option<seq<Sample>> {
    if lines == [] then Some([])
    else
      var n := |lines| - 1;
      var before := ReadLines(lines[..n]);
      if before.None? then None
      else if lines[n] != "" && lines[n][0] == '#' then before
      else
        var sample := ReadLine(lines[n]);
        if sample.None? then None else Some(before.value + [sample.value])
  }

  function Read(text: string): Option<seq<Sample>> {
    ReadLines(SplitLines(text))
  }

  // ------------------------------------------------- lines

  lemma {:induction false} UntilIsReadBack(a: string, c: char, rest: string)
    requires c !in a
    ensures ReadUntil(a + [c] + rest, c) == Some((a, rest))
  {
    var text := a + [c] + rest;
    if a == "" {
      assert text == [c] + rest && text[1..] == rest;
    } else {
      assert text[1..] == a[1..] + [c] + rest;
      UntilIsReadBack(a[1..], c, rest);
      assert [a[0]] + a[1..] == a;
    }
  }

  lemma {:induction false} LabelIsReadBack(l: Label, rest: string)
    requires '=' !in l.0
    ensures ReadLabel(Quoted(l) + rest) == Some((l, rest))
  {
    var value := EscapeLabel(l.1) + "\"" + rest;
    assert Quoted(l) + rest == l.0 + "=" + ("\"" + value);
    UntilIsReadBack(l.0, '=', "\"" + value);
    ThreePassesAreOne(l.1);
    QuotedIsReadBack(l.1, rest);
    assert ("\"" + value)[1..] == value;
  }

  lemma {:induction false} LastLabelIsRead(text: string, l: Label, rest: string)
    requires ReadLabel(text) == Some((l, "}" + rest))
    ensures ReadLabels(text) == Some(([l], rest))
  {
    assert ("}" + rest)[1..] == rest;
  }

  lemma {:induction false} NextLabelIsRead(text: string, l: Label, tail: string, more: seq<Label>, rest: string)
    requires ReadLabel(text) == Some((l, "," + tail)) && ReadLabels(tail) == Some((more, rest))
    ensures ReadLabels(text) == Some(([l] + more, rest))
  {
    assert ("," + tail)[1..] == tail;
  }

  /** The text of several labels begins with the first and a comma. */
  lemma {:induction false} FirstOfJoined(labels: seq<Label>, rest: string)
    requires |labels| > 1
    ensures Joined(labels) + "}" + rest == Quoted(labels[0]) + ("," + (Joined(labels[1..]) + "}" + rest))
  {
    var first, others := Quoted(labels[0]), Joined(labels[1..]);
    assert Joined(labels) == first + "," + others;
    assert first + "," + others + "}" + rest == first + ("," + (others + "}" + rest));
  }

  lemma {:induction false} LabelsAreReadBack(labels: seq<Label>, rest: string)
    requires labels != [] && forall i | 0 <= i < |labels| :: '=' !in labels[i].0
    ensures ReadLabels(Joined(labels) + "}" + rest) == Some((labels, rest))
    decreases |labels|
  {
    var text, l := Joined(labels) + "}" + rest, labels[0];
    if |labels| == 1 {
      assert text == Quoted(l) + ("}" + rest);
      LabelIsReadBack(l, "}" + rest);
      LastLabelIsRead(text, l, rest);
      assert labels == [l];
    } else {
      var tail := Joined(labels[1..]) + "}" + rest;
      FirstOfJoined(labels, rest);
      LabelIsReadBack(l, "," + tail);
      LabelsAreReadBack(labels[1..], rest);
      NextLabelIsRead(text, l, tail, labels[1..], rest);
      assert labels == [l] + labels[1..];
    }
  }

  lemma {:induction false} KeyIsReadBack(key: Key)
    ensures KeyFrom(SortedLabelsOf(key)) == Some(key)
  {
    var labels := SortedLabelsOf(key);
    assert labels[1..] == [("method", key.verb), ("status", key.status)];
    assert labels[1..][1..] == [("status", key.status)];
    assert labels[0].0[0] == 'e' && labels[1].0[0] == 'm' && labels[2].0[0] == 's';
    assert "method"[0] == 'm' && "status"[0] == 's' && "endpoint"[0] == 'e';
    assert ValueOfLabel(labels, "endpoint") == Some(key.endpoint);
    assert ValueOfLabel(labels[1..], "method") == Some(key.verb);
    assert ValueOfLabel(labels[1..][1..], "status") == Some(key.status);
    assert ValueOfLabel(labels[1..], "status") == Some(key.status);
  }

  lemma {:induction false} LabelNamesArePlain(key: Key)
    ensures forall i | 0 <= i < 3 :: '=' !in SortedLabelsOf(key)[i].0
  {
  }

  lemma {:induction false} LineIsReadBack(s: Sample)
    requires '{' !in s.name
    ensures ReadLine(Line(s)) == Some(s)
  {
    var labels := SortedLabelsOf(s.key);
    LabelsAreSorted(s.key);
    var inner := Joined(labels) + "}" + (" " + s.number);
    assert Line(s) == s.name + "{" + inner;
    UntilIsReadBack(s.name, '{', inner);
    LabelNamesArePlain(s.key);
    LabelsAreReadBack(labels, " " + s.number);
    KeyIsReadBack(s.key);
    assert (" " + s.number)[1..] == s.number;
  }

  lemma {:induction false} QuotedHasNoNewline(l: Label)
    requires '\n' !in l.0
    ensures '\n' !in Quoted(l)
  {
    ThreePassesAreOne(l.1);
    EscapedIsClean(l.1);
  }

  lemma {:induction false} LineHasNoNewline(s: Sample)
    requires '\n' !in s.name && '\n' !in s.number
    ensures '\n' !in Line(s)
  {
    var e, m, t := ("endpoint", s.key.endpoint), ("method", s.key.verb), ("status", s.key.status);
    LabelsAreSorted(s.key);
    QuotedHasNoNewline(e);
    QuotedHasNoNewline(m);
    QuotedHasNoNewline(t);
    assert [e, m, t][1..] == [m, t] && [m, t][1..] == [t];
    assert Joined([t]) == Quoted(t);
    assert Joined([m, t]) == Quoted(m) + "," + Joined([t]);
    assert Joined([e, m, t]) == Quoted(e) + "," + Joined([m, t]);
  }

  // ------------------------------------------------- the text

  lemma {:induction false} LinesAreReadBack(lines: seq<string>)
    requires lines != [] && NoNewlines(lines)
    ensures SplitLines(JoinedLines(lines) + "\n") == lines
    decreases |lines|
  {
    var text := JoinedLines(lines) + "\n";
    if |lines| == 1 {
      assert text == lines[0] + "\n" + "";
      UntilIsReadBack(lines[0], '\n', "");
      assert SplitLines("") == [];
      assert lines == [lines[0]];
    } else {
      var tail := JoinedLines(lines[1..]) + "\n";
      assert text == lines[0] + "\n" + tail;
      UntilIsReadBack(lines[0], '\n', tail);
      LinesAreReadBack(lines[1..]);
      assert lines == [lines[0]] + lines[1..];
    }
  }

  lemma {:induction false} ReadLinesOfSum(a: seq<string>, b: seq<string>)
    requires ReadLines(a).Some? && ReadLines(b).Some?
    ensures ReadLines(a + b) == Some(ReadLines(a).value + ReadLines(b).value)
  {
    if b == [] {
      assert a + b == a && ReadLines(a).value + [] == ReadLines(a).value;
    } else {
      var n := |b| - 1;
      assert (a + b)[..|a| + n] == a + b[..n];
      ReadLinesOfSum(a, b[..n]);
      assert (a + b)[|a| + n] == b[n];
      var before, more := ReadLines(a).value, ReadLines(b[..n]).value;
      assert ReadLines((a + b)[..|a| + n]) == Some(before + more);
      if !(b[n] != "" && b[n][0] == '#') {
        var x := ReadLine(b[n]).value;
        assert (before + more) + [x] == before + (more + [x]);
      }
    }
  }

  lemma {:induction false} CommentsAreSkipped(a: string, b: string)
    requires a != "" && a[0] == '#' && b != "" && b[0] == '#'
    ensures ReadLines([a, b]) == Some([])
  {
    assert [a, b][..1] == [a] && [a][..0] == [];
    assert ReadLines([a]) == ReadLines([]);
  }

  lemma {:induction false} SamplesAreRead(samples: seq<Sample>)
    requires forall i | 0 <= i < |samples| :: GoodName(samples[i].name)
    ensures ReadLines(Lines(samples)) == Some(samples)
  {
    if samples != [] {
      var n := |samples| - 1;
      SamplesAreRead(samples[..n]);
      assert Lines(samples)[..n] == Lines(samples[..n]);
      LineIsReadBack(samples[n]);
      assert Line(samples[n])[0] == samples[n].name[0];
      assert samples == samples[..n] + [samples[n]];
    }
  }

  /** All samples of the text, in its order. */
  function SamplesOf(m: Recorded, n: Names): seq<Sample>
    requires NeverNegative(m)
  {
    Counts(n.requests, m.requests) + Sums(n.sum, m.durations) + Counts(n.count, m.requests)
  }

  predicate GoodName(name: string) {
    name != "" && name[0] != '#' && '{' !in name && '\n' !in name
  }

  predicate IsComment(line: string) {
    line != "" && line[0] == '#' && '\n' !in line
  }

  lemma {:induction false} NamesAreGood()
    ensures GoodName(REQUESTS) && GoodName(DURATION_SUM) && GoodName(DURATION_COUNT)
  {
  }

  lemma {:induction false} RequestsHelpIsPlain()
    ensures '\n' !in REQUESTS_HELP
  {
  }

  lemma {:induction false} SumHelpIsPlain()
    ensures '\n' !in SUM_HELP
  {
    var first, second := " Total HTTP request duration", " in milliseconds.";
    assert '\n' !in first && '\n' !in second;
    assert SUM_HELP == first + second;
  }

  lemma {:induction false} CountHelpIsPlain()
    ensures '\n' !in COUNT_HELP
  {
  }

  lemma {:induction false} HeadIsComment(name: string, help: string)
    requires GoodName(name) && '\n' !in help
    ensures IsComment(Head(name, help)[0]) && IsComment(Head(name, help)[1])
  {
  }

  ghost predicate NoNewlines(lines: seq<string>) {
    forall i | 0 <= i < |lines| :: '\n' !in lines[i]
  }

  /** The part of the text under one name. */
  lemma {:induction false} PartIsRead(name: string, help: string, samples: seq<Sample>)
    requires GoodName(name) && '\n' !in help
    requires forall i | 0 <= i < |samples| :: samples[i].name == name && '\n' !in samples[i].number
    ensures ReadLines(Head(name, help) + Lines(samples)) == Some(samples)
    ensures NoNewlines(Head(name, help) + Lines(samples))
  {
    var head := Head(name, help);
    HeadIsComment(name, help);
    CommentsAreSkipped(head[0], head[1]);
    assert head == [head[0], head[1]];
    SamplesAreRead(samples);
    ReadLinesOfSum(head, Lines(samples));
    assert [] + samples == samples;
    forall i | 0 <= i < |samples|
      ensures '\n' !in Lines(samples)[i]
    {
      LineHasNoNewline(samples[i]);
    }
  }

  lemma {:induction false} CountPartIsRead(name: string, help: string, c: Counter<Key>)
    requires GoodName(name) && '\n' !in help && NonNegative(c)
    ensures ReadLines(Head(name, help) + Lines(Counts(name, c))) == Some(Counts(name, c))
    ensures NoNewlines(Head(name, help) + Lines(Counts(name, c)))
  {
    forall i | 0 <= i < |c|
      ensures '\n' !in Decimal(c[i].1)
    {
      NumeralsHaveNoNewline(c[i].1);
    }
    PartIsRead(name, help, Counts(name, c));
  }

  lemma {:induction false} SumPartIsRead(name: string, help: string, c: Counter<Key>)
    requires GoodName(name) && '\n' !in help && NonNegative(c)
    ensures ReadLines(Head(name, help) + Lines(Sums(name, c))) == Some(Sums(name, c))
    ensures NoNewlines(Head(name, help) + Lines(Sums(name, c)))
  {
    forall i | 0 <= i < |c|
      ensures '\n' !in Fixed(c[i].1)
    {
      NumeralsHaveNoNewline(c[i].1);
    }
    PartIsRead(name, help, Sums(name, c));
  }

  lemma {:induction false} PartsAreRead(a: seq<string>, b: seq<string>, c: seq<string>)
    requires ReadLines(a).Some? && ReadLines(b).Some? && ReadLines(c).Some?
    requires a != [] && NoNewlines(a) && NoNewlines(b) && NoNewlines(c)
    ensures Read(JoinedLines(a + b + c) + "\n") ==
            Some(ReadLines(a).value + ReadLines(b).value + ReadLines(c).value)
  {
    ReadLinesOfSum(a, b);
    ReadLinesOfSum(a + b, c);
    LinesAreReadBack(a + b + c);
  }

  lemma {:induction false} TextIsReadBackUnder(m: Recorded, n: Names)
    requires NeverNegative(m) && GoodName(n.requests) && GoodName(n.sum) && GoodName(n.count)
    requires '\n' !in n.requestsHelp && '\n' !in n.sumHelp && '\n' !in n.countHelp
    ensures Read(JoinedLines(AllLines(m, n)) + "\n") == Some(SamplesOf(m, n))
  {
    var a := Head(n.requests, n.requestsHelp) + Lines(Counts(n.requests, m.requests));
    var b := Head(n.sum, n.sumHelp) + Lines(Sums(n.sum, m.durations));
    var c := Head(n.count, n.countHelp) + Lines(Counts(n.count, m.requests));
    CountPartIsRead(n.requests, n.requestsHelp, m.requests);
    SumPartIsRead(n.sum, n.sumHelp, m.durations);
    CountPartIsRead(n.count, n.countHelp, m.requests);
    PartsAreRead(a, b, c);
  }

  /** Whatever methods, endpoints and statuses contain, the text gives every sample back. */
  lemma {:induction false} TextIsReadBack(m: Recorded)
    requires NeverNegative(m)
    ensures Read(Rendered(m)) == Some(SamplesOf(m, NAMES))
  {
    NamesAreGood();
    RequestsHelpIsPlain();
    SumHelpIsPlain();
    CountHelpIsPlain();
    TextIsReadBackUnder(m, NAMES);
  }

  lemma {:induction false} PartsHaveLines(m: Recorded, n: Names)
    requires NeverNegative(m) && GoodName(n.requests) && GoodName(n.sum) && GoodName(n.count)
    requires '\n' !in n.requestsHelp && '\n' !in n.sumHelp && '\n' !in n.countHelp
    ensures SplitLines(JoinedLines(AllLines(m, n)) + "\n") == AllLines(m, n)
  {
    CountPartIsRead(n.requests, n.requestsHelp, m.requests);
    SumPartIsRead(n.sum, n.sumHelp, m.durations);
    CountPartIsRead(n.count, n.countHelp, m.requests);
    LinesAreReadBack(AllLines(m, n));
  }

  /** The text has the lines of the samples and, before those of each name, what it is and that it counts. */
  lemma {:induction false} CommentsComeFirst(m: Recorded)
    requires NeverNegative(m)
    ensures
      var lines, sums := SplitLines(Rendered(m)), 2 + |m.requests|;
      var counts := sums + 2 + |m.durations|;
      && |lines| == counts + 2 + |m.requests|
      && lines[0] == "# HELP " + REQUESTS + REQUESTS_HELP && lines[1] == "# TYPE " + REQUESTS + " counter"
      && lines[sums] == "# HELP " + DURATION_SUM + SUM_HELP && lines[sums + 1] == "# TYPE " + DURATION_SUM + " counter"
      && lines[counts] == "# HELP " + DURATION_COUNT + COUNT_HELP
      && lines[counts + 1] == "# TYPE " + DURATION_COUNT + " counter"
  {
    NamesAreGood();
    RequestsHelpIsPlain();
    SumHelpIsPlain();
    CountHelpIsPlain();
    PartsHaveLines(m, NAMES);
  }

  // ------------------------------------------------- what the collector learns

  /** The text has a sample of this name and key with this count. */
  ghost predicate TellsCount(text: string, name: string, key: Key, count: int) {
    Read(text).Some? &&
    exists s | s in Read(text).value :: s.name == name && s.key == key && ParseDecimal(s.number) == count
  }

  /** The text has a sample of this name and key with these thousandths. */
  ghost predicate TellsSum(text: string, name: string, key: Key, thousandths: int) {
    Read(text).Some? &&
    exists s | s in Read(text).value ::
      s.name == name && s.key == key && |s.number| >= 4 && ParseFixed(s.number) == thousandths
  }

  lemma {:induction false} CountsTell(name: string, c: Counter<Key>, key: Key, count: int)
    requires Distinct(c) && NonNegative(c)
    ensures (exists s | s in Counts(name, c) :: s.key == key && ParseDecimal(s.number) == count) <==>
            Get(c, key) == Some(count)
  {
    GetIsMember(c, key);
    forall i | 0 <= i < |c|
      ensures ParseDecimal(Counts(name, c)[i].number) == c[i].1
    {
      DecimalIsReadBack(c[i].1);
    }
    if Get(c, key) == Some(count) {
      var i :| 0 <= i < |c| && c[i] == (key, count);
      assert Counts(name, c)[i] in Counts(name, c);
    }
    if s :| s in Counts(name, c) && s.key == key && ParseDecimal(s.number) == count {
      var i :| 0 <= i < |c| && Counts(name, c)[i] == s;
      assert c[i] == (key, count) && c[i] in c;
    }
  }

  lemma {:induction false} SumsTell(name: string, c: Counter<Key>, key: Key, thousandths: int)
    requires Distinct(c) && NonNegative(c)
    ensures (exists s | s in Sums(name, c) ::
               s.key == key && |s.number| >= 4 && ParseFixed(s.number) == thousandths) <==>
            Get(c, key) == Some(thousandths)
  {
    GetIsMember(c, key);
    forall i | 0 <= i < |c|
      ensures |Sums(name, c)[i].number| >= 4 && ParseFixed(Sums(name, c)[i].number) == c[i].1
    {
      FixedIsReadBack(c[i].1);
    }
    if Get(c, key) == Some(thousandths) {
      var i :| 0 <= i < |c| && c[i] == (key, thousandths);
      assert Sums(name, c)[i] in Sums(name, c);
    }
    if s :| s in Sums(name, c) && s.key == key && |s.number| >= 4 && ParseFixed(s.number) == thousandths {
      var i :| 0 <= i < |c| && Sums(name, c)[i] == s;
      assert c[i] == (key, thousandths) && c[i] in c;
    }
  }

  /** Each name has its own samples. */
  lemma {:induction false} NamesDiffer(m: Recorded)
    requires NeverNegative(m)
    ensures forall s :: s in SamplesOf(m, NAMES) && s.name == REQUESTS <==> s in Counts(REQUESTS, m.requests)
    ensures forall s :: s in SamplesOf(m, NAMES) && s.name == DURATION_SUM <==> s in Sums(DURATION_SUM, m.durations)
    ensures forall s ::
              s in SamplesOf(m, NAMES) && s.name == DURATION_COUNT <==> s in Counts(DURATION_COUNT, m.requests)
  {
  }

  /**
   After any responses, the text gives each key the number of its responses,
   and no other number, and mentions no other key.
   */
  lemma {:induction false} CollectorCountsEveryResponse(responses: seq<Response>, key: Key, count: int)
    ensures NeverNegative(RecordAll(responses))
    ensures TellsCount(Rendered(RecordAll(responses)), REQUESTS, key, count) <==>
            count == Occurrences(KeysOf(responses), key) > 0
  {
    var m := RecordAll(responses);
    RecordedIsNeverNegative(responses);
    TextIsReadBack(m);
    RequestsAreTallied(responses);
    TallyIsDistinct(KeysOf(responses));
    TallyCounts(KeysOf(responses), key);
    CountsTell(REQUESTS, m.requests, key, count);
    NamesDiffer(m);
  }

  /** The same for durations: the text gives each key with a known duration the sum of its durations. */
  lemma {:induction false} CollectorAddsEveryDuration(responses: seq<Response>, key: Key, thousandths: int)
    ensures NeverNegative(RecordAll(responses))
    ensures TellsSum(Rendered(RecordAll(responses)), DURATION_SUM, key, thousandths) <==>
            Timed(responses, key) && thousandths == DurationOf(responses, key)
  {
    var m := RecordAll(responses);
    RecordedIsNeverNegative(responses);
    TextIsReadBack(m);
    DurationsAreDistinct(responses);
    DurationsAreAdded(responses, key);
    SumsTell(DURATION_SUM, m.durations, key, thousandths);
    NamesDiffer(m);
  }

  // ------------------------------------------------- the count of durations

  lemma {:induction false} DurationCountIsRequests(responses: seq<Response>, key: Key, count: int)
    ensures NeverNegative(RecordAll(responses))
    ensures TellsCount(Rendered(RecordAll(responses)), DURATION_COUNT, key, count) <==>
            count == Occurrences(KeysOf(responses), key) > 0
  {
    var m := RecordAll(responses);
    RecordedIsNeverNegative(responses);
    TextIsReadBack(m);
    RequestsAreTallied(responses);
    TallyIsDistinct(KeysOf(responses));
    TallyCounts(KeysOf(responses), key);
    CountsTell(DURATION_COUNT, m.requests, key, count);
    NamesDiffer(m);
  }

  /** The responses of a key whose duration is known. */
  function TimedResponses(responses: seq<Response>, key: Key): nat {
    if responses == [] then 0
    else
      var n := |responses| - 1;
      TimedResponses(responses[..n], key)
      + (if responses[n].key == key && responses[n].duration.Some? then 1 else 0)
  }

  ghost predicate AllTimed(responses: seq<Response>, key: Key) {
    forall i | 0 <= i < |responses| && responses[i].key == key :: responses[i].duration.Some?
  }

  lemma {:induction false} TimedAreResponses(responses: seq<Response>, key: Key)
    ensures TimedResponses(responses, key) <= Occurrences(KeysOf(responses), key)
    ensures TimedResponses(responses, key) == Occurrences(KeysOf(responses), key) <==> AllTimed(responses, key)
  {
    if responses != [] {
      var n := |responses| - 1;
      TimedAreResponses(responses[..n], key);
      assert KeysOf(responses)[..n] == KeysOf(responses[..n]);
      assert forall i | 0 <= i < n :: responses[..n][i] == responses[i];
    }
  }

  /**
   What the text calls the count of a key's durations is the number of its
   responses: it is the number of those whose duration is known exactly when that
   is known of every response of the key, and there is one.
   */
  lemma {:induction false} DurationsAreCountedExactly(responses: seq<Response>, key: Key)
    ensures NeverNegative(RecordAll(responses))
    ensures TellsCount(Rendered(RecordAll(responses)), DURATION_COUNT, key, TimedResponses(responses, key)) <==>
            AllTimed(responses, key) && TimedResponses(responses, key) > 0
  {
    DurationCountIsRequests(responses, key, TimedResponses(responses, key));
    TimedAreResponses(responses, key);
  }

  /** One response whose duration is not known: the text counts a duration that its sum does not have. */
  lemma {:induction false} UntimedResponseIsCounted(key: Key)
    ensures
      var responses := [Response(key, None)];
      && NeverNegative(RecordAll(responses)) && TimedResponses(responses, key) == 0
      && TellsCount(Rendered(RecordAll(responses)), DURATION_COUNT, key, 1)
      && forall thousandths :: !TellsSum(Rendered(RecordAll(responses)), DURATION_SUM, key, thousandths)
  {
    var responses := [Response(key, None)];
    assert responses[..0] == [] && KeysOf(responses)[..0] == [];
    assert Occurrences(KeysOf(responses), key) == 1;
    DurationCountIsRequests(responses, key, 1);
    forall thousandths
      ensures !TellsSum(Rendered(RecordAll(responses)), DURATION_SUM, key, thousandths)
    {
      CollectorAddsEveryDuration(responses, key, thousandths);
    }
  }
}
