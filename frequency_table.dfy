/** The frequency table `m_storage`: an ordered map from word to count, only
    ever changed by `++m_storage[word]`. */
module FrequencyTable {

  type Table = map<string, nat>

  /** The count the table holds for w; a missing key reads as zero, the value
      `std::map::operator[]` default-initialises before incrementing. */
  function CountOf(m: Table, w: string): nat {
    if w in m then m[w] else 0
  }

  /** Every stored count is at least one. */
  ghost predicate Positive(m: Table) {
    forall u :: u in m ==> m[u] >= 1
  }

  /** `++m_storage[w]`: w gains one occurrence (and a key if it had none),
      every other word keeps its count. */
  function Bump(m: Table, w: string): (r: Table)
    ensures r.Keys == m.Keys + {w}
    ensures CountOf(r, w) == CountOf(m, w) + 1
    ensures forall u :: u != w ==> CountOf(r, u) == CountOf(m, u)
    ensures Positive(m) ==> Positive(r)
  {
    m[w := CountOf(m, w) + 1]
  }

  /** The table after bumping each word of ws, first to last. */
  function BumpAll(m: Table, ws: seq<string>): Table
    decreases |ws|
  {
    if ws == [] then m else BumpAll(Bump(m, ws[0]), ws[1..])
  }

  /** Bumping a sequence adds, for each word, its number of occurrences in the
      sequence. */
  lemma {:induction false} BumpAllCounts(m: Table, ws: seq<string>)
    ensures forall u :: CountOf(BumpAll(m, ws), u) == CountOf(m, u) + multiset(ws)[u]
    decreases |ws|
  {
    if ws != [] {
      BumpAllCounts(Bump(m, ws[0]), ws[1..]);
      assert ws == [ws[0]] + ws[1..];
      assert multiset(ws) == multiset{ws[0]} + multiset(ws[1..]);
    }
  }

  /** Bumping a sequence adds its words as keys and no others. */
  lemma {:induction false} BumpAllKeys(m: Table, ws: seq<string>)
    ensures BumpAll(m, ws).Keys == m.Keys + set u | u in ws
    decreases |ws|
  {
    if ws != [] {
      BumpAllKeys(Bump(m, ws[0]), ws[1..]);
      assert ws == [ws[0]] + ws[1..];
      assert (set u | u in ws) == {ws[0]} + set u | u in ws[1..];
    }
  }

  /** Bumping a concatenation is bumping its parts one after the other. */
  lemma {:induction false} BumpAllAppend(m: Table, a: seq<string>, b: seq<string>)
    ensures BumpAll(m, a + b) == BumpAll(BumpAll(m, a), b)
    decreases |a|
  {
    if a == [] {
      assert a + b == b;
    } else {
      assert (a + b)[0] == a[0];
      assert (a + b)[1..] == a[1..] + b;
      BumpAllAppend(Bump(m, a[0]), a[1..], b);
    }
  }

  /** Counting from an empty table yields the histogram of the words: each
      count is the word's number of occurrences, the keys are the distinct
      words, and so the table's size is the number of distinct words. */
  lemma Histogram(ws: seq<string>)
    ensures forall u :: CountOf(BumpAll(map[], ws), u) == multiset(ws)[u]
    ensures BumpAll(map[], ws).Keys == set u | u in ws
    ensures |BumpAll(map[], ws)| == |set u | u in ws|
    ensures Positive(BumpAll(map[], ws))
  {
    BumpAllCounts(map[], ws);
    BumpAllKeys(map[], ws);
    var t := BumpAll(map[], ws);
    forall u | u in t
      ensures t[u] >= 1
    {
      assert u in ws;
      assert CountOf(t, u) == multiset(ws)[u];
    }
  }
}
