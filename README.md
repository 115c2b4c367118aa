# Word counter

A model of `challenge::WordCounter` and `challenge::isASCIIWord` from
word_counter.hpp.

`readInput` pulls strings from a producer one at a time. It checks each one
with an optional validator and stops at a terminator string. It hands every
accepted word to a worker thread through a one-slot mailbox: `m_data`, plus
the flags `m_data_available` and `m_data_processed`. The worker increments
the word's entry in an ordered frequency table (`++m_storage[tmp]`).
`lookup` reads that table and counts successful lookups in `m_totalFound`.

The reader waits for the slot to be processed before every write. It also
joins the worker after asking it to stop, both on normal return and when it
throws. Every observable state of the two threads is therefore the state of
one serial schedule, and that schedule is what the model follows:

- the worker takes a pending word whenever the reader waits for the slot;
- the worker drains the slot when the reader joins it.

Modules:

- `Words` models `isASCIIWord`, the anchored match of `\w+`. It is written
  as a recursive matcher and proved equal to "non-empty, every character is
  an ASCII letter, a digit or `_`".
- `FrequencyTable` models the table as `map<string, nat>`, changed only by
  `Bump` (`++m_storage[w]`). Bumping a sequence of words from the empty
  table gives its histogram. Each count is the word's multiset
  multiplicity, and the keys are the distinct words.
- `Challenge` holds the `WordCounter` class:
  - fields for the mailbox, the stop token, the table and `totalFound`;
  - the producer, a fixed sequence of items with a cursor that persists
    across calls;
  - the spec function `Read`, which says what one call of `readInput` does
    from a cursor: the words it hands on, the items it consumes, and
    whether it returns or throws `UnexpectedInput`;
  - the imperative members `Produce`, `Put`, `Take`, `WorkerStep`,
    `JoinWorker`, `HandOn`, `StopWorker`, `ReadTurn`, `ReadInput` and
    `Lookup`, each proved against `Read` or the table functions.

  A ghost field `counted` records every word the worker has taken. The
  class invariant `Valid()` says two things: `available == !processed`, and
  the table is exactly the histogram of `counted`.
- `UnitTests` replays the scenarios of unit_tests.cxx as client methods.
  They are stated for any validator that treats each test's strings as
  `isASCIIWord` does, and they are instantiated with `isASCIIWord` itself.

The producer's behaviour once its items run out is taken from the tests'
producer (unit_tests.cxx:14-22): it keeps yielding the terminator.

A rejected item does not undo the words accepted earlier in the same call.
Those words were already handed to the worker, and the join counts them
before the exception propagates (unit_tests.cxx:161-169): see
`ReadRejects`. The table is unchanged only when the rejected item is the
first one read.

## Model

| member | source | states |
|---|---|---|
| Words.IsASCIIWordIff | word_counter.hpp:23-27 | `^\w+$` matches exactly the non-empty strings whose characters are all ASCII letters, digits or `_` (both directions) |
| Words.NotWordAt | word_counter.hpp:23-27 | a single non-word character anywhere makes the string no word |
| Words.RejectedExamples | unit_tests.cxx:135-159 | `""`, `"entire sentence"` and `".,[]%$"` are rejected |
| Words.AcceptedExamples | unit_tests.cxx:107-133 | `"hello24"`, `"tEsT"`, `"test"`, `"TEST"`, `"one"` and the terminator `"end"` are accepted |
| FrequencyTable.Bump | word_counter.hpp:133 | `++m_storage[w]` adds w as a key if it is missing and raises its count by one; every other count stays the same; positive counts stay positive |
| FrequencyTable.BumpAllCounts | word_counter.hpp:133 | after counting a sequence of words, each word's count has grown by its number of occurrences in the sequence |
| FrequencyTable.BumpAllKeys | word_counter.hpp:133 | counting a sequence adds its distinct words as keys, and no other keys |
| FrequencyTable.BumpAllAppend | word_counter.hpp:133 | counting a concatenation is the same as counting its parts one after the other |
| FrequencyTable.Histogram | word_counter.hpp:133 | counting from the empty table gives each word its multiplicity as its count; the table's size is the number of distinct words; every stored count is at least 1 |
| Challenge.StopExists | word_counter.hpp:53-70 | every read from a cursor within the items stops somewhere |
| Challenge.ReadStopsAt | word_counter.hpp:53-84 | a read hands on exactly the items before its stopping position. It consumes the stopping item as well, unless the producer was exhausted. It throws exactly when the stopping item is rejected |
| Challenge.ReadShape | word_counter.hpp:53-84 | what a read hands on is the items right after the cursor. All of them are accepted and none is the terminator. It consumes one item more than it hands on, unless the producer ran out |
| Challenge.ReadSkipsTerminator | word_counter.hpp:66-70 | the terminator's count never changes during a read |
| Challenge.ReadCountsWords | word_counter.hpp:53-84 | valid words followed by the terminator (or by the end of the items): the read returns normally and consumes the terminator too. Each word's count rises by its number of occurrences, and every other count stays the same |
| Challenge.ReadFromEmpty | word_counter.hpp:53-84 | from an empty table, a clean read leaves the exact histogram of the words before the terminator. There is one key per distinct string, so case matters |
| Challenge.ReadRejects | word_counter.hpp:57-64 | a rejected item before any terminator makes the read throw `UnexpectedInput` right there. That item is consumed but not counted. The words before it stay counted, and no other entry changes |
| Challenge.ReadRejectedTerminator | word_counter.hpp:57-66 | the validator is consulted before the terminator test, so a validator that rejects the terminator makes every read throw |
| Challenge.WordCounter.constructor | word_counter.hpp:141-146 | a fresh counter has an empty table, `totalFound == 0`, and an empty slot that is not available and is processed |
| Challenge.WordCounter.Produce | unit_tests.cxx:14-22 | the producer yields the next item and advances, or yields the terminator once exhausted |
| Challenge.WordCounter.Put | word_counter.hpp:77-82 | the reader writes only into a processed slot. The slot then holds w, is available and is not processed. The invariant is kept |
| Challenge.WordCounter.Take | word_counter.hpp:125-133 | the worker takes the pending word. The slot becomes unavailable and processed, and the word's count rises by one. The invariant is kept |
| Challenge.WordCounter.WorkerStep | word_counter.hpp:113-134 | one worker turn exits exactly when stop was requested and the slot is processed; otherwise it counts the pending item |
| Challenge.WordCounter.JoinWorker | word_counter.hpp:109-135 | joining a stopped worker drains the slot: the pending word (if any) is counted before the worker exits |
| Challenge.WordCounter.HandOn | word_counter.hpp:72-83 | the reader's wait, then its write. A pending word is counted first, then w becomes the pending item |
| Challenge.WordCounter.StopWorker | word_counter.hpp:61-68 | `request_stop` followed by the join, on normal exit and when throwing: the slot ends empty and its word counted |
| Challenge.WordCounter.ReadTurn | word_counter.hpp:55-83 | one turn of the reader loop is the first step of `Read`. It either ends the read with `Read`'s outcome, having drained the slot, or it hands on `Read`'s first word and leaves the rest of `Read` to the next cursor |
| Challenge.WordCounter.ReadInput | word_counter.hpp:49-85 | `readInput` ends with `Read`'s outcome, advances the cursor by `Read`'s consumed items, and adds `Read`'s words to the counts already present. The producer is never rewound and the table is never reset. On return the slot is drained |
| Challenge.WordCounter.Lookup | word_counter.hpp:87-96 | returns the word's count, which is its multiplicity among all counted words and 0 when the word is absent. A hit has count at least 1 and bumps `totalFound` by exactly one. A miss leaves `totalFound` alone. The table is never changed |
| UnitTests.ReadToTerminator | unit_tests.cxx:56-81 | a fresh counter over valid words followed by `"end"` returns normally and has counted exactly those words |
| UnitTests.ReadToRejection | unit_tests.cxx:135-169 | a fresh counter whose next item after valid words is rejected throws there, keeping those words counted |
| UnitTests.TwoOfOne | unit_tests.cxx:56-72 | counting `{"one", "one"}` from the empty table gives the single key `"one"`, with count 2 |
| UnitTests.OneEachOfTwo | unit_tests.cxx:74-81 | counting two different strings such as `"test"` and `"TEST"` from the empty table gives exactly those two keys, with count 1 each |

## Left out

- Threads, the mutex, the condition variable and `std::jthread` (word_counter.hpp:51, 73-74, 116-117) are not modelled as concurrency. The handoff is serialized as explained above. `stopRequested` is a field standing for the stop token, and for the point where `jthread`'s destructor joins.
- `std::regex` is a foreign library. `isASCIIWord` is modelled as the ASCII character class of `\w` in the classic locale. Non-ASCII or locale-dependent word characters are not modelled.
- `CompileTimeString` and the template parameters are compile-time configuration. The producer, the terminator and the optional validator are constructor parameters instead.
- Producer: the model's producer is a fixed sequence of items that yields the terminator once they run out. That is what the tests' producer does. A producer that never yields the terminator, which would make `readInput` loop forever, is not modelled.
- The text of `UnexpectedInput::what()` is left out; the exception is the `UnexpectedInput` outcome.
- Counts are unbounded naturals, so C++ `int` overflow of `m_storage` values and of `m_totalFound` is not modelled.
- Challenge.WordCounter.Take: after the worker moves the string out of `m_data`, the slot's contents are unspecified in C++. The model keeps the old string there; it doesn't matter, since the slot is never read while unavailable.
- The key order of `std::map<std::string, int, std::less<>>` is lost, because `storage` is an unordered Dafny `map`. Only main.cxx's `printWords` iterates over it. Words are also sequences of Unicode characters, while C++ strings are byte strings that may hold arbitrary bytes; `isASCIIWord` rejects every non-ASCII character either way.
- `storage()` and `totalFound()` are plain accessors, so they are modelled as the public fields `storage` and `totalFound`.
- main.cxx, which is console I/O, and fuzz_tests.cxx, a fuzzing harness, are not part of this model.
- unit_tests.cxx:83-96 looks up three words. The client `CaseSensitiveStorage` shows `totalFound` going from 1 to 2 over two hits; the general rule is `Lookup`'s contract.
