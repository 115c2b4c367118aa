/** Clients of `WordCounter` that replay the scenarios of the repository's
    unit tests (unit_tests.cxx) with the terminator "end", for any validator
    that judges the items as `isASCIIWord` does in each test; `AllScenarios`
    calls them with `isASCIIWord` itself on the tests' own strings. Each
    outcome follows from the contracts alone. */
module UnitTests {
  import opened Words
  import opened FrequencyTable
  import opened Challenge

  /** A fresh counter over items whose first k words are accepted and are
      followed by the terminator (or by the end of the items): `readInput`
      returns normally and has counted exactly those k words. */
  method ReadToTerminator(items: seq<string>, v: Option<string -> bool>, k: nat)
      returns (counter: WordCounter, outcome: Outcome)
    requires k <= |items| && (k < |items| ==> items[k] == "end")
    requires forall j :: 0 <= j < k ==> Accepts(v, items[j]) && items[j] != "end"
    requires Accepts(v, "end")
    ensures fresh(counter) && outcome == Returned
    ensures counter.Idle() && counter.items == items && counter.terminator == "end"
    ensures counter.validator == v && counter.cursor == (if k < |items| then k + 1 else k)
    ensures counter.counted == items[..k] && counter.totalFound == 0
  {
    counter := new WordCounter(items, "end", v);
    ReadCountsWords(items, 0, "end", v, k, map[]);
    outcome := counter.ReadInput();
    assert items[0..k] == items[..k];
  }

  /** A fresh counter over items whose first k words are accepted and whose
      next item is rejected: `readInput` fails there, keeping those k words
      counted. */
  method ReadToRejection(items: seq<string>, v: Option<string -> bool>, k: nat)
      returns (counter: WordCounter, outcome: Outcome)
    requires k < |items| && !Accepts(v, items[k])
    requires forall j :: 0 <= j < k ==> Accepts(v, items[j]) && items[j] != "end"
    ensures fresh(counter) && outcome == UnexpectedInput
    ensures counter.Idle() && counter.items == items && counter.cursor == k + 1
    ensures counter.counted == items[..k] && counter.totalFound == 0
  {
    counter := new WordCounter(items, "end", v);
    ReadRejects(items, 0, "end", v, k, map[]);
    outcome := counter.ReadInput();
    assert items[0..k] == items[..k];
  }

  /** A fresh counter has an empty table and no successful lookups. */
  method InitialState(items: seq<string>, v: Option<string -> bool>) {
    var counter := new WordCounter(items, "end", v);
    assert counter.storage == map[] && counter.totalFound == 0;
  }

  /** The table for [w, w]: one entry, holding two. */
  lemma TwoOfOne(w: string)
    ensures CountOf(BumpAll(map[], [w, w]), w) == 2 && BumpAll(map[], [w, w]).Keys == {w}
    ensures multiset([w, w])[w] == 2
    ensures |BumpAll(map[], [w, w])| == 1
  {
    Histogram([w, w]);
    assert (set u | u in [w, w]) == {w};
  }

  /** The table for two different words: two entries, holding one each. */
  lemma OneEachOfTwo(a: string, b: string)
    requires a != b
    ensures CountOf(BumpAll(map[], [a, b]), a) == 1 && CountOf(BumpAll(map[], [a, b]), b) == 1
    ensures BumpAll(map[], [a, b]).Keys == {a, b}
    ensures multiset([a, b])[a] == 1 && multiset([a, b])[b] == 1
    ensures |BumpAll(map[], [a, b])| == 2
  {
    Histogram([a, b]);
    assert (set u | u in [a, b]) == {a, b};
  }

  /** [w, w]: one entry, counted twice, and "end" is not counted. */
  method DuplicateWord(v: Option<string -> bool>, w: string)
    requires Accepts(v, w) && Accepts(v, "end") && w != "end"
  {
    var counter, outcome := ReadToTerminator([w, w], v, 2);
    assert counter.counted == [w, w];
    TwoOfOne(w);
    assert |counter.storage| == 1;
    var n := counter.Lookup(w);
    assert n == 2;
    var e := counter.Lookup("end");
    assert e == 0;
  }

  /** [lower, upper] for two different words (as "test" and "TEST" are):
      two entries of one each, and both lookups succeed. */
  method CaseSensitiveStorage(v: Option<string -> bool>, lower: string, upper: string)
    requires Accepts(v, lower) && Accepts(v, upper) && Accepts(v, "end")
    requires lower != upper && lower != "end" && upper != "end"
  {
    var counter, outcome := ReadToTerminator([lower, upper], v, 2);
    assert counter.counted == [lower, upper];
    OneEachOfTwo(lower, upper);
    assert |counter.storage| == 2;
    var u := counter.Lookup(upper);
    assert u == 1 && counter.totalFound == 1;
    var l := counter.Lookup(lower);
    assert l == 1 && counter.totalFound == 2;
  }

  /** [lower] alone: looking up a different string (as "TEST" is for
      "test") misses, and lower itself is found once. */
  method CaseSensitiveLookup(v: Option<string -> bool>, lower: string, upper: string)
    requires Accepts(v, lower) && Accepts(v, "end")
    requires lower != upper && lower != "end"
  {
    var counter, outcome := ReadToTerminator([lower], v, 1);
    assert counter.counted == [lower];
    var u := counter.Lookup(upper);
    assert u == 0;
    var l := counter.Lookup(lower);
    assert l == 1;
  }

  /** [w, bad] for a rejected bad (as "entire sentence" is): the read fails
      on bad, and w stays counted. */
  method KeepsContentOnInvalidInput(v: Option<string -> bool>, w: string, bad: string)
    requires Accepts(v, w) && w != "end" && !Accepts(v, bad)
  {
    var counter, outcome := ReadToRejection([w, bad], v, 1);
    assert counter.counted == [w];
    Histogram([w]);
    assert (set u | u in [w]) == {w};
    assert |counter.storage| == 1;
    var n := counter.Lookup(w);
    assert n == 1;
  }

  /** [bad] for a rejected bad (as "", "entire sentence" and ".,[]%$" are):
      the read fails and nothing is counted. */
  method RejectsInvalidWord(v: Option<string -> bool>, bad: string)
    requires !Accepts(v, bad)
  {
    var counter, outcome := ReadToRejection([bad], v, 0);
    assert counter.counted == [];
    assert counter.storage == map[];
  }

  /** [w] read twice: the second call resumes at the exhausted producer,
      meets the terminator at once and returns normally, leaving the count
      at one. */
  method ResumesWithoutReset(v: Option<string -> bool>, w: string)
    requires Accepts(v, w) && Accepts(v, "end") && w != "end"
  {
    var counter, first := ReadToTerminator([w], v, 1);
    assert counter.counted == [w];
    ReadCountsWords([w], 1, "end", v, 1, counter.storage);
    var second := counter.ReadInput();
    assert second == Returned;
    assert [w][1..1] == [];
    assert counter.counted == [w];
    var n := counter.Lookup(w);
    assert n == 1;
  }

  /** A miss leaves `totalFound` alone, on a counter that never read. */
  method UnsuccessfulLookup(items: seq<string>, v: Option<string -> bool>, w: string) {
    var counter := new WordCounter(items, "end", v);
    var n := counter.Lookup(w);
    assert n == 0 && counter.totalFound == 0;
  }

  /** The scenarios with `isASCIIWord` as validator, on the tests' strings. */
  method AllScenarios() {
    var v := Some(IsASCIIWord);
    AcceptedExamples();
    RejectedExamples();
    InitialState(["one"], v);
    DuplicateWord(v, "one");
    CaseSensitiveStorage(v, "test", "TEST");
    CaseSensitiveLookup(v, "test", "TEST");
    KeepsContentOnInvalidInput(v, "one", "entire sentence");
    RejectsInvalidWord(v, "");
    RejectsInvalidWord(v, "entire sentence");
    RejectsInvalidWord(v, ".,[]%$");
    ResumesWithoutReset(v, "hello24");
    ResumesWithoutReset(v, "tEsT");
    UnsuccessfulLookup(["one"], v, "two");
  }
}
