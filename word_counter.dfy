/** `challenge::WordCounter`: a reader loop that pulls words from a producer,
    validates them, stops at a terminator, and hands each accepted word through
    a one-slot mailbox to a worker that counts it.

    The reader and the worker run on two threads in the C++ program, but the
    reader waits for the slot to be processed before every write, and joins the
    worker after asking it to stop, so every observable state is the one of the
    serial schedule modelled here: the worker runs when the reader waits for it. */
module Challenge {
  import opened FrequencyTable

  datatype Option<T> = None | Some(value: T)

  /** How `readInput` ends: it returns normally, or throws `UnexpectedInput`. */
  datatype Outcome = Returned | UnexpectedInput

  /** An absent validator accepts everything. */
  predicate Accepts(validator: Option<string -> bool>, w: string) {
    validator.None? || validator.value(w)
  }

  /** The item the producer yields with its cursor at c: the next of its
      items, or the terminator once they have run out. */
  function ItemAt(items: seq<string>, terminator: string, c: nat): string {
    if c < |items| then items[c] else terminator
  }

  /** What one call of `readInput` does, started with the producer's cursor
      at some position: the words it hands to the worker (in order), how many
      items it takes from the producer, and how it ends. */
  datatype ReadResult = ReadResult(words: seq<string>, consumed: nat, outcome: Outcome)

  /** The reader loop from cursor c: produce an item, consult the validator
      first, then test for the terminator, and only then hand the word on. An
      exhausted producer yields the terminator without advancing. */
  function Read(items: seq<string>, c: nat, terminator: string, validator: Option<string -> bool>): ReadResult
    decreases |items| - c
  {
    var w := ItemAt(items, terminator, c);
    var taken := if c < |items| then 1 else 0;
    if !Accepts(validator, w) then
      ReadResult([], taken, UnexpectedInput)
    else if w == terminator then
      ReadResult([], taken, Returned)
    else
      var r := Read(items, c + 1, terminator, validator);
      ReadResult([w] + r.words, r.consumed + 1, r.outcome)
  }

  /** k is the position where a read from cursor c stops: every item from c
      up to k is accepted and is not the terminator, and the item at k (the
      terminator itself when the producer is exhausted) is rejected or is the
      terminator. */
  ghost predicate IsStop(items: seq<string>, c: nat, terminator: string, validator: Option<string -> bool>, k: nat) {
    c <= k <= |items|
    && (forall j :: c <= j < k ==> Accepts(validator, items[j]) && items[j] != terminator)
    && (k < |items| ==> !Accepts(validator, items[k]) || items[k] == terminator)
  }

  /** Every read from a cursor within the items has a stopping position. */
  lemma {:induction false} StopExists(items: seq<string>, c: nat, terminator: string, validator: Option<string -> bool>)
    requires c <= |items|
    ensures exists k: nat :: IsStop(items, c, terminator, validator, k)
    decreases |items| - c
  {
    if c == |items| || !Accepts(validator, items[c]) || items[c] == terminator {
      assert IsStop(items, c, terminator, validator, c);
    } else {
      StopExists(items, c + 1, terminator, validator);
      var k: nat :| IsStop(items, c + 1, terminator, validator, k);
      assert IsStop(items, c, terminator, validator, k);
    }
  }

  /** Reading hands on exactly the items before the stopping position, takes
      the stopping item from the producer too (unless the producer was
      exhausted), and fails exactly when the stopping item is rejected. */
  lemma {:induction false} ReadStopsAt(items: seq<string>, c: nat, terminator: string, validator: Option<string -> bool>, k: nat)
    requires IsStop(items, c, terminator, validator, k)
    ensures Read(items, c, terminator, validator).words == items[c..k]
    ensures Read(items, c, terminator, validator).consumed == (if k < |items| then k + 1 else k) - c
    ensures Read(items, c, terminator, validator).outcome
         == if Accepts(validator, ItemAt(items, terminator, k)) then Returned else UnexpectedInput
    decreases |items| - c
  {
    if c < k {
      assert IsStop(items, c + 1, terminator, validator, k);
      ReadStopsAt(items, c + 1, terminator, validator, k);
      assert items[c..k] == [items[c]] + items[c + 1..k];
    }
  }

  /** What every read hands on: the items right after the cursor, none of
      them the terminator and all of them accepted; it takes one item more from
      the producer than it hands on, unless the producer ran dry. */
  lemma ReadShape(items: seq<string>, c: nat, terminator: string, validator: Option<string -> bool>)
    requires c <= |items|
    ensures var r := Read(items, c, terminator, validator);
            c + r.consumed <= |items|
            && c + |r.words| <= |items| && r.words == items[c..c + |r.words|]
            && r.consumed == (if c + |r.words| < |items| then |r.words| + 1 else |r.words|)
            && forall i :: 0 <= i < |r.words| ==> r.words[i] != terminator && Accepts(validator, r.words[i])
  {
    StopExists(items, c, terminator, validator);
    var k: nat :| IsStop(items, c, terminator, validator, k);
    ReadStopsAt(items, c, terminator, validator, k);
  }

  /** No read ever counts the terminator. */
  lemma ReadSkipsTerminator(items: seq<string>, c: nat, terminator: string, validator: Option<string -> bool>, m: Table)
    requires c <= |items|
    ensures CountOf(BumpAll(m, Read(items, c, terminator, validator).words), terminator) == CountOf(m, terminator)
  {
    ReadShape(items, c, terminator, validator);
    var ws := Read(items, c, terminator, validator).words;
    BumpAllCounts(m, ws);
    assert terminator !in multiset(ws);
  }

  /** Valid words up to the terminator (or to the end of the items): reading
      returns normally, adds each word's number of occurrences to its count
      and leaves every other count alone. */
  lemma ReadCountsWords(items: seq<string>, c: nat, terminator: string, validator: Option<string -> bool>, k: nat, m: Table)
    requires c <= k <= |items| && (k < |items| ==> items[k] == terminator)
    requires forall j :: c <= j < k ==> Accepts(validator, items[j]) && items[j] != terminator
    requires Accepts(validator, terminator)
    ensures Read(items, c, terminator, validator).outcome == Returned
    ensures Read(items, c, terminator, validator).consumed == (if k < |items| then k + 1 else k) - c
    ensures Read(items, c, terminator, validator).words == items[c..k]
    ensures forall u :: CountOf(BumpAll(m, Read(items, c, terminator, validator).words), u)
                        == CountOf(m, u) + multiset(items[c..k])[u]
  {
    assert IsStop(items, c, terminator, validator, k);
    ReadStopsAt(items, c, terminator, validator, k);
    BumpAllCounts(m, items[c..k]);
  }

  /** From an empty table, a clean read leaves exactly the histogram of the
      words before the terminator: one key per distinct word (case matters:
      keys are compared as exact strings). */
  lemma ReadFromEmpty(items: seq<string>, c: nat, terminator: string, validator: Option<string -> bool>, k: nat)
    requires c <= k <= |items| && (k < |items| ==> items[k] == terminator)
    requires forall j :: c <= j < k ==> Accepts(validator, items[j]) && items[j] != terminator
    requires Accepts(validator, terminator)
    ensures var t := BumpAll(map[], Read(items, c, terminator, validator).words);
            (forall u :: CountOf(t, u) == multiset(items[c..k])[u])
            && t.Keys == (set u | u in items[c..k])
            && |t| == |set u | u in items[c..k]|
  {
    ReadCountsWords(items, c, terminator, validator, k, map[]);
    Histogram(items[c..k]);
  }

  /** A rejected item before any terminator: reading fails with
      `UnexpectedInput` right there, having taken it from the producer but
      counting only the words before it. */
  lemma ReadRejects(items: seq<string>, c: nat, terminator: string, validator: Option<string -> bool>, k: nat, m: Table)
    requires c <= k < |items| && !Accepts(validator, items[k])
    requires forall j :: c <= j < k ==> Accepts(validator, items[j]) && items[j] != terminator
    ensures Read(items, c, terminator, validator).outcome == UnexpectedInput
    ensures Read(items, c, terminator, validator).consumed == k + 1 - c
    ensures Read(items, c, terminator, validator).words == items[c..k]
    ensures forall u :: CountOf(BumpAll(m, Read(items, c, terminator, validator).words), u)
                        == CountOf(m, u) + multiset(items[c..k])[u]
  {
    assert IsStop(items, c, terminator, validator, k);
    ReadStopsAt(items, c, terminator, validator, k);
    BumpAllCounts(m, items[c..k]);
  }

  /** A validator that rejects the terminator makes every read fail: it never
      gets to the terminator test. */
  lemma ReadRejectedTerminator(items: seq<string>, c: nat, terminator: string, validator: Option<string -> bool>)
    requires c <= |items| && !Accepts(validator, terminator)
    ensures Read(items, c, terminator, validator).outcome == UnexpectedInput
  {
    StopExists(items, c, terminator, validator);
    var k: nat :| IsStop(items, c, terminator, validator, k);
    ReadStopsAt(items, c, terminator, validator, k);
  }

  /** `a + []` is `a`; stated separately so that `ReadInput`'s proof does not
      have to search for it among its many sequence facts. */
  lemma AppendEmpty(a: seq<string>)
    ensures a + [] == a
  {
  }

  /** Regrouping a concatenation around one word, for the same reason. */
  lemma Regroup(a: seq<string>, w: string, b: seq<string>)
    ensures (a + [w]) + b == a + ([w] + b)
  {
  }

  /** The word counter. The producer is the item sequence `items` with its
      cursor; the mailbox is `data` with the flags `available` and
      `processed`; `stopRequested` is the worker's stop token. */
  class WordCounter {
    const items: seq<string>
    const terminator: string
    const validator: Option<string -> bool>
    var cursor: nat

    var data: string
    var available: bool
    var processed: bool
    var stopRequested: bool

    var storage: Table
    var totalFound: nat

    /** Every word the worker has taken from the mailbox, in order. */
    ghost var counted: seq<string>

    /** The mailbox holds an unconsumed item exactly when it is not processed,
        and the table is the histogram of what the worker has counted. */
    ghost predicate Valid()
      reads this
    {
      cursor <= |items|
      && available == !processed
      && storage == BumpAll(map[], counted)
    }

    /** Between calls of `ReadInput`: the worker has drained the mailbox. */
    ghost predicate Idle()
      reads this
    {
      Valid() && processed
    }

    /** The item put in the mailbox and not yet taken, if any. */
    ghost function Pending(): seq<string>
      reads this
    {
      if available then [data] else []
    }

    /** A fresh counter: empty table, no successful lookups, an empty
        processed mailbox, and the producer at its first item. */
    constructor (items: seq<string>, terminator: string, validator: Option<string -> bool>)
      ensures Idle()
      ensures this.items == items && this.terminator == terminator && this.validator == validator
      ensures cursor == 0 && storage == map[] && totalFound == 0 && counted == []
      ensures !available && processed && !stopRequested
    {
      this.items := items;
      this.terminator := terminator;
      this.validator := validator;
      cursor := 0;
      data := "";
      available := false;
      processed := true;
      stopRequested := false;
      storage := map[];
      totalFound := 0;
      counted := [];
    }

    /** The producer: the next item, or the terminator once exhausted. */
    method Produce() returns (w: string)
      requires cursor <= |items|
      modifies this`cursor
      ensures w == ItemAt(items, terminator, old(cursor))
      ensures cursor == if old(cursor) < |items| then old(cursor) + 1 else old(cursor)
    {
      if cursor < |items| {
        w := items[cursor];
        cursor := cursor + 1;
      } else {
        w := terminator;
      }
    }

    /** The reader's write: only into a processed slot, which becomes
        available and unprocessed. */
    method Put(w: string)
      requires Valid() && processed
      modifies this`data, this`available, this`processed
      ensures Valid() && data == w && available && !processed
      ensures Pending() == [w]
    {
      data := w;
      available := true;
      processed := false;
    }

    /** The worker's take: the slot becomes processed and unavailable, then
        the taken word's count goes up by one. */
    method Take() returns (w: string)
      requires Valid() && available
      modifies this`available, this`processed, this`storage, this`counted
      ensures Valid() && !available && processed
      ensures w == old(data) && old(Pending()) == [w]
      ensures storage == Bump(old(storage), w) && counted == old(counted) + [w]
    {
      w := data;
      available := false;
      processed := true;
      BumpAllAppend(map[], counted, [w]);
      storage := Bump(storage, w);
      counted := counted + [w];
    }

    /** The worker may leave its loop only when stop was requested and the
        slot is processed, so an item that was put is never dropped. */
    predicate WorkerMayExit()
      reads this
    {
      stopRequested && processed
    }

    /** One turn of the worker loop, once its wait is over (an item is
        available or stop was requested): it exits, or it takes and counts. */
    method WorkerStep() returns (exited: bool)
      requires Valid() && (available || stopRequested)
      modifies this`available, this`processed, this`storage, this`counted
      ensures Valid() && processed
      ensures exited == old(WorkerMayExit())
      ensures exited ==> storage == old(storage) && counted == old(counted)
      ensures !exited ==> exists w :: old(Pending()) == [w] && storage == Bump(old(storage), w)
                                       && counted == old(counted) + [w]
    {
      if stopRequested && processed {
        exited := true;
      } else {
        var w := Take();
        exited := false;
      }
    }

    /** After stop was requested, the worker runs until it may exit, and the
        reader joins it: whatever is pending gets counted first. */
    method JoinWorker()
      requires Valid() && stopRequested
      modifies this`available, this`processed, this`storage, this`counted
      ensures Idle() && !available
      ensures counted == old(counted) + old(Pending())
      ensures storage == BumpAll(old(storage), old(Pending()))
    {
      ghost var pending := Pending();
      ghost var counted0 := counted;
      var exited := false;
      while !exited
        invariant Valid() && stopRequested
        invariant exited ==> processed
        invariant counted + Pending() == counted0 + pending
        decreases !exited, if processed then 0 else 1
      {
        exited := WorkerStep();
      }
      BumpAllAppend(map[], counted0, pending);
    }

    /** The reader's wait for a processed slot (the worker takes and counts
        what is pending), then its write of w. */
    method HandOn(w: string)
      requires Valid()
      modifies this`data, this`available, this`processed, this`storage, this`counted
      ensures Valid() && available && data == w
      ensures counted + Pending() == old(counted + Pending()) + [w]
    {
      if !processed {
        var taken := Take();
      }
      Put(w);
    }

    /** `request_stop` followed by the join at the end of `readInput` (or
        during unwinding when it throws): the pending item is counted. */
    method StopWorker()
      requires Valid()
      modifies this`available, this`processed, this`stopRequested, this`storage, this`counted
      ensures Idle() && !available && stopRequested
      ensures counted == old(counted) + old(Pending())
    {
      stopRequested := true;
      JoinWorker();
    }

    /** One turn of the `readInput` loop: take the next item from the producer,
        consult the validator, then test for the terminator; on either, stop
        and join the worker (`done`: the read ends here); otherwise hand the
        item on, and the read goes on from the producer's new cursor. */
    method ReadTurn() returns (done: bool, outcome: Outcome)
      requires Valid() && !stopRequested
      modifies this`cursor, this`data, this`available, this`processed, this`stopRequested,
               this`storage, this`counted
      ensures Valid()
      ensures var r := Read(items, old(cursor), terminator, validator);
              if done then
                Idle() && !available && outcome == r.outcome && r.words == []
                && cursor == old(cursor) + r.consumed && counted == old(counted) + old(Pending())
              else
                var r' := Read(items, cursor, terminator, validator);
                !stopRequested && cursor == old(cursor) + 1
                && r == ReadResult([data] + r'.words, r'.consumed + 1, r'.outcome)
                && counted + Pending() == old(counted) + old(Pending()) + [data]
    {
      var w := Produce();
      if !Accepts(validator, w) || w == terminator {
        StopWorker();
        done := true;
        outcome := if Accepts(validator, w) then Returned else UnexpectedInput;
      } else {
        HandOn(w);
        done, outcome := false, Returned;
      }
    }

    /** `readInput`: turn after turn until the terminator or a rejected item;
        counts accumulate across calls and the producer is never rewound. */
    method ReadInput() returns (outcome: Outcome)
      requires Idle()
      modifies this`cursor, this`data, this`available, this`processed, this`stopRequested,
               this`storage, this`counted
      ensures Idle() && !available
      ensures var r := Read(items, old(cursor), terminator, validator);
              outcome == r.outcome
              && cursor == old(cursor) + r.consumed
              && counted == old(counted) + r.words
              && storage == BumpAll(old(storage), r.words)
    {
      ghost var cursor0, counted0 := cursor, counted;
      ghost var r0 := Read(items, cursor, terminator, validator);
      ghost var handed := counted;
      stopRequested := false;
      while true
        invariant Valid() && !stopRequested
        invariant cursor0 <= cursor <= |items|
        invariant handed == counted + Pending()
        invariant Read(items, cursor, terminator, validator).outcome == r0.outcome
        invariant cursor + Read(items, cursor, terminator, validator).consumed == cursor0 + r0.consumed
        invariant handed + Read(items, cursor, terminator, validator).words == counted0 + r0.words
        decreases |items| - cursor
      {
        var done;
        done, outcome := ReadTurn();
        if done {
          AppendEmpty(handed);
          BumpAllAppend(map[], counted0, r0.words);
          return;
        }
        Regroup(handed, data, Read(items, cursor, terminator, validator).words);
        handed := handed + [data];
      }
    }

    /** `lookup`: the word's count (zero when absent), which is its number of
        occurrences among the counted words; a hit bumps `totalFound` by one,
        a miss leaves it alone, and the table never changes. */
    method Lookup(word: string) returns (count: nat)
      requires Valid()
      modifies this`totalFound
      ensures Valid()
      ensures count == CountOf(storage, word) && count == multiset(counted)[word]
      ensures word in storage ==> count >= 1 && totalFound == old(totalFound) + 1
      ensures word !in storage ==> count == 0 && totalFound == old(totalFound)
    {
      Histogram(counted);
      if word in storage {
        totalFound := totalFound + 1;
        count := storage[word];
      } else {
        count := 0;
      }
    }
  }
}
