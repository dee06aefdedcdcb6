# crawler-classifier: the sequential core, in Dafny

The original program is a pthreads exercise. Three crawler threads generate
text articles and push them into a shared ring buffer of 12 slots. One
classifier thread pops each article, labels it with one of 13 categories by
its first ASCII letter, and counts it. Once every category has at least 5
articles, the classifier sets a quit latch. It keeps classifying until the
buffer is empty.

This project models the parts of `main.cpp` that run without any thread
coordination:

- `ring.dfy` (module `Ring`) models `class Buffer` as a Dafny class. It keeps
  the source's fixed array, its `front`/`rear` cursors and its `size` counter.
  A ghost sequence `Contents` is the abstract view. `EnqueueSpec` and
  `DequeueSpec` give the effect of one call on that sequence. `Run` replays a
  trace of calls, as the mutex serialises them. The FIFO, occupancy and bound
  lemmas are proved on that trace.
- `classify.dfy` (module `Classify`) models the letter scan, the label rule
  `(letter - base) % 13 + 1`, the tally update, and `enough()`.
- `consumer.dfy` (module `Consumer`) models the classifier's globals
  (`buffer`, `categories`, `articlesCount`, `quitSignal`) as class `Shared`.
  It has `classifyAndWrite` and one pass of the `classifier_routine` loop
  body. The pure function `ConsumerStep` describes the same pass, and
  `ConsumerRun` chains passes; the latch lemmas are stated over those.
- `wrappers.dfy` holds `Option`, which stands for the NULL that `dequeue`
  returns on an empty buffer.

Item handles (`char*`) are a type parameter of the buffer. The classifier
instantiates it with strings (`seq<char>`).

The classification rule is the concrete one in `classifyAndWrite`
(main.cpp:95-97).

## Model

| member | source | states |
|---|---|---|
| Ring.Buffer.constructor | main.cpp:26-32 | a new buffer is valid and empty, with capacity 12, `size` 0, `front` 0 and `rear` -1 |
| Ring.Buffer.Full | main.cpp:33 | `full()` holds iff the buffer holds exactly 12 items |
| Ring.Buffer.Empty | main.cpp:34 | `empty()` holds iff the buffer holds no item |
| Ring.Buffer.Enqueue | main.cpp:35-40 | a non-full buffer gets the item appended at the tail: `rear` advances modulo capacity, that slot holds the item, `size` grows by 1, no other slot changes. A full buffer is left entirely unchanged. The ring invariant is kept |
| Ring.Buffer.Dequeue | main.cpp:41-47 | a non-empty buffer returns its head item, advances `front` modulo capacity and shrinks `size` by 1, and no slot is written. An empty buffer returns NULL (`None`) and is unchanged. The ring invariant is kept |
| Ring.EnqueueSpec | main.cpp:35-40 | the abstract effect of `enqueue`: the contents are left as they are iff the buffer is full, otherwise the item is appended at the tail; capacity is never exceeded |
| Ring.DequeueSpec | main.cpp:41-47 | the abstract effect of `dequeue`: NULL iff the buffer is empty (contents unchanged), otherwise the head item, and the head followed by the rest gives back the old contents |
| Ring.Run | main.cpp:35-47 | replaying a trace of calls yields at most one item per dequeue, and the final contents stay within capacity when they start within it |
| Ring.RunKeepsBound | main.cpp:35-47 | whatever calls are made, the number of items never exceeds the capacity |
| Ring.FifoOrder | main.cpp:35-47 | on a trace that never enqueues into a full buffer or dequeues from an empty one, the items dequeued followed by those left equal the initial contents followed by the items enqueued, in order. So items leave in arrival order, and none is lost or duplicated |
| Ring.Occupancy | main.cpp:35-47 | on such a trace every dequeue returns an item, and the final count is the initial count plus the enqueues minus the dequeues |
| Classify.FirstLetterIndex | main.cpp:95 | the position the scan stops at holds a letter, and no letter comes before it |
| Classify.ScanToLetter | main.cpp:95 | the while-loop stops at the first ASCII letter of an article that contains one |
| Classify.AlphabetIndex | main.cpp:96-97 | a letter's offset from its case's base is in 0..25, and it is the same for a lower-case letter and its upper-case partner |
| Classify.Label | main.cpp:96-97 | a letter's label is in 1..13, and the label minus one is the alphabet index modulo 13 |
| Classify.ArticleLabel | main.cpp:95-97 | an article's label, taken from its first letter, is in 1..13 |
| Classify.LabelIgnoresCase | main.cpp:96-97 | a lower-case letter and its upper-case partner get the same label |
| Classify.SameLabel | main.cpp:97 | two letters share a label iff they are the same letter ignoring case or 13 positions apart in the alphabet |
| Classify.LabelExamples | main.cpp:97 | 'a', 'A', 'n' and 'N' give label 1, and 'm', 'z' and 'Z' give 13 |
| Classify.LeadingLowerA | main.cpp:95-97 | an article starting with 'a' is labelled 1 |
| Classify.EnoughFrom | main.cpp:66-71 | the loop with early return yields true iff every category from the given index on has at least 5 articles |
| Classify.Enough | main.cpp:65-72 | `enough()` holds iff all 13 categories have at least 5 articles |
| Classify.Bump | main.cpp:100 | classifying raises exactly the chosen category by one and leaves the other 12 unchanged |
| Classify.SumBump | main.cpp:99-100 | one classification raises the total of the tallies by exactly one, in step with `articlesCount++` |
| Classify.SumAtLeast | main.cpp:66-71 | tallies that are all at least m add up to at least m times their number |
| Classify.EnoughMeansSixtyFive | main.cpp:65-72 | when `enough()` holds, at least 13 * 5 = 65 articles have been counted |
| Classify.EnoughStays | main.cpp:100 | once the goal holds, classifying another article keeps it |
| Consumer.Initial | main.cpp:55-57 | the program starts with zero tallies, a zero counter equal to their total, and the latch clear |
| Consumer.ConsumerStep | main.cpp:99-160 | one classifier pass as a value: the counter grows by one, the latch ends set iff it was set or `enough()` now holds, and the goal line fires iff the latch goes from clear to set in this pass |
| Consumer.ConsumerRun | main.cpp:143-163 | a run of passes over the given articles: the counter grows by the number of articles and a set latch stays set |
| Consumer.StepKeepsGood | main.cpp:99-100 | one classifier pass raises `articlesCount` by exactly one, keeps it equal to the total of the tallies, and sets the latch only when the goal holds |
| Consumer.LatchFiresAtMostOnce | main.cpp:157-160 | over any run of passes, the "-enough" transition fires at most once. It fires iff the latch goes from clear to set, and a set latch never reverts |
| Consumer.LatchMeansGoal | main.cpp:157-160 | after one or more passes, the latch is set iff it was set before or the goal now holds. The counter grows by the number of articles |
| Consumer.Shared.constructor | main.cpp:54-57 | the globals start as an empty buffer, zero tallies, a zero counter and a clear latch |
| Consumer.Shared.ClassifyAndWrite | main.cpp:88-102 | the label is that of the article's first letter, the counter grows by one and is the record key, and only `categories[label - 1]` grows, by one |
| Consumer.Shared.ClassifierStep | main.cpp:143-163 | one loop pass removes the head of the buffer and classifies it. It sets the latch iff the latch was set or `enough()` now holds, and reports the goal line iff it set the latch now. It is done iff the latch is set and the buffer is empty. The whole state is that of ConsumerStep |

## Left out

- Threads, the mutex and the two semaphores (main.cpp:51-52, 128-133, 144-152, 169-221) are not modelled, because they only coordinate threads. Liveness, deadlock freedom and "no enqueue after shutdown" depend on interleavings, which a sequential model cannot express. The `Ring.Run` traces stand for the calls as the mutex serialises them.
- Consumer.Shared.ClassifierStep: requires a non-empty buffer. In the source, `sem_wait(&notEmpty)` makes this true, and a NULL article would make `classifyAndWrite` fail.
- The crawler loop `crawler_routine` (main.cpp:104-136) and its advisory `sem_getvalue` read and trace (main.cpp:111-121) are not modelled. The loop is thread coordination only; the buffer call it makes is `Ring.Buffer.Enqueue`.
- `usleep` pacing (main.cpp:93, 125) and `atoi` argument parsing (main.cpp:173-174) are not modelled, because they are timing and C-library calls.
- `writeToCorpus` (main.cpp:74-86) and `display`/`cout` tracing are not modelled, because they are file and console output. `ClassifyAndWrite` returns the record key and label instead of writing them, and `ClassifierStep` returns a flag for the "-enough" line.
- `str_generator()` comes from generator.cpp, which is not part of this model. Articles are arbitrary strings.
- Raw `char*` ownership and the uninitialised array slots (main.cpp:27) are not modelled. Item handles are a type parameter with a default value.
- Classify.ScanToLetter: requires the article to contain an ASCII letter. Without one, the source's loop reads past the end of the string.
- Integer width: `articlesCount` and `categories` are unbounded integers. The source's 32-bit `int` would only overflow after 2^31 articles. The cursor arithmetic `(rear + 1) % capacity` and `(front + 1) % capacity` only sees non-negative operands, so C's truncating `%` and Dafny's `%` agree.
- The quit latch's visibility to crawler threads (a plain `bool` in the source) is a concurrency matter and is not modelled.
