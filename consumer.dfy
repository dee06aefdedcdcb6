/**
 * The classifier side of main.cpp, run single-threaded: the shared state
 * the classifier works on (the buffer, the category tallies, the article
 * counter and the quit latch), `classifyAndWrite`, and one pass of the
 * `classifier_routine` loop after its wait for an item has returned.
 * A pure model of the same step (ConsumerStep) carries the lemmas about
 * the quit latch over any number of passes.
 */
module Consumer {
  import opened Wrappers
  import opened Ring
  import opened Classify

  /** What the classifier's bookkeeping amounts to: tallies, article counter, quit latch. */
  datatype ConsumerState = ConsumerState(tally: seq<int>, count: int, quit: bool)

  /** The state at program start: zero tallies, no article, latch clear. */
  function Initial(): (s: ConsumerState)
    ensures |s.tally| == NumCategories && Sum(s.tally) == s.count == 0 && !s.quit
  {
    var s := ConsumerState(seq(NumCategories, _ => 0), 0, false);
    SumZeros(s.tally);
    s
  }

  lemma {:induction false} SumZeros(t: seq<int>)
    requires forall j :: 0 <= j < |t| ==> t[j] == 0
    ensures Sum(t) == 0
  {
    if t != [] { SumZeros(t[1..]); }
  }

  /** The invariant the classifier keeps: the counter is the total of the tallies, and the latch is only set once the goal holds. */
  predicate Good(s: ConsumerState)
  {
    && |s.tally| == NumCategories
    && s.count == Sum(s.tally)
    && (s.quit ==> Enough(s.tally))
  }

  /**
   * One pass of the classifier loop on a dequeued article: classify it,
   * bump the counter and its category, then set the latch if the goal
   * holds and the latch is clear. `fired` says the latch was set by this
   * pass (the "-enough" trace line).
   */
  function ConsumerStep(s: ConsumerState, article: seq<char>): (r: (ConsumerState, bool))
    requires |s.tally| == NumCategories && HasLetter(article)
    ensures |r.0.tally| == NumCategories && r.0.count == s.count + 1
    ensures r.0.quit <==> s.quit || Enough(r.0.tally)
    ensures r.1 <==> !s.quit && r.0.quit
  {
    var tally := Bump(s.tally, ArticleLabel(article));
    var fired := Enough(tally) && !s.quit;
    (ConsumerState(tally, s.count + 1, s.quit || fired), fired)
  }

  /** Every pass keeps the invariant and moves the counter by exactly one. */
  lemma StepKeepsGood(s: ConsumerState, article: seq<char>)
    requires Good(s) && HasLetter(article)
    ensures Good(ConsumerStep(s, article).0)
    ensures ConsumerStep(s, article).0.count == s.count + 1
  {
    SumBump(s.tally, ArticleLabel(article) - 1);
    if s.quit { EnoughStays(s.tally, ArticleLabel(article)); }
  }

  /** Articles that the classification loop can handle. */
  predicate AllHaveLetters(articles: seq<seq<char>>)
  {
    forall i :: 0 <= i < |articles| ==> HasLetter(articles[i])
  }

  /** Passes of the classifier loop over the given articles, in order; also counts the latch firings. */
  function ConsumerRun(s: ConsumerState, articles: seq<seq<char>>): (r: (ConsumerState, nat))
    requires |s.tally| == NumCategories && AllHaveLetters(articles)
    ensures |r.0.tally| == NumCategories && r.0.count == s.count + |articles|
    ensures s.quit ==> r.0.quit
    decreases |articles|
  {
    if articles == [] then (s, 0)
    else
      var (s', fired) := ConsumerStep(s, articles[0]);
      var (fin, n) := ConsumerRun(s', articles[1..]);
      (fin, n + if fired then 1 else 0)
  }

  /**
   * The latch: it fires at most once over any run, it fires exactly when it
   * goes from clear to set, and once set it never reverts.
   */
  lemma {:induction false} LatchFiresAtMostOnce(s: ConsumerState, articles: seq<seq<char>>)
    requires |s.tally| == NumCategories && AllHaveLetters(articles)
    ensures ConsumerRun(s, articles).1 <= 1
    ensures ConsumerRun(s, articles).1 == 1 <==> !s.quit && ConsumerRun(s, articles).0.quit
    ensures s.quit ==> ConsumerRun(s, articles).0.quit
    decreases |articles|
  {
    if articles != [] {
      LatchFiresAtMostOnce(ConsumerStep(s, articles[0]).0, articles[1..]);
    }
  }

  /**
   * After at least one pass the latch is set exactly when it was set
   * before or the goal holds now; and the invariant and the counter
   * (one per article) are kept.
   */
  lemma {:induction false} LatchMeansGoal(s: ConsumerState, articles: seq<seq<char>>)
    requires Good(s) && AllHaveLetters(articles)
    ensures Good(ConsumerRun(s, articles).0)
    ensures ConsumerRun(s, articles).0.count == s.count + |articles|
    ensures articles != [] ==>
      (ConsumerRun(s, articles).0.quit <==> s.quit || Enough(ConsumerRun(s, articles).0.tally))
    decreases |articles|
  {
    if articles != [] {
      var s' := ConsumerStep(s, articles[0]).0;
      StepKeepsGood(s, articles[0]);
      LatchMeansGoal(s', articles[1..]);
    }
  }

  /**
   * The globals of main.cpp the classifier touches: `buffer`,
   * `categories`, `articlesCount` and `quitSignal`.
   */
  class Shared {
    var buffer: Buffer<seq<char>>
    var categories: array<int>
    var articlesCount: int
    var quitSignal: bool

    ghost predicate Valid()
      reads this, buffer, buffer.articles, categories
    {
      && buffer.Valid()
      && categories.Length == NumCategories
      && Good(State())
    }

    /** The classifier's bookkeeping as a value. */
    function State(): ConsumerState
      reads this, categories
    {
      ConsumerState(categories[..], articlesCount, quitSignal)
    }

    /** Program start: an empty buffer, zeroed globals, latch clear. */
    constructor ()
      ensures Valid() && fresh(buffer) && fresh(buffer.articles) && fresh(categories)
      ensures buffer.Contents == [] && State() == Initial()
    {
      buffer := new Buffer();
      categories := new int[NumCategories](_ => 0);
      articlesCount := 0;
      quitSignal := false;
      new;
      assert categories[..] == Initial().tally;
    }

    /**
     * `classifyAndWrite`: find the first letter, derive the label, bump the
     * counter and that one category. Returns the record key and label that
     * the source appends to the corpus file.
     */
    method ClassifyAndWrite(article: seq<char>) returns (key: int, classLabel: int)
      requires Valid() && HasLetter(article)
      modifies this`articlesCount, categories
      ensures Valid()
      ensures classLabel == ArticleLabel(article) && 1 <= classLabel <= NumCategories
      ensures articlesCount == old(articlesCount) + 1 && key == articlesCount
      ensures categories[..] == Bump(old(categories[..]), classLabel)
    {
      ghost var s := State();
      var i := ScanToLetter(article);
      var upper := IsUpper(article[i]);
      classLabel := (article[i] as int - (if upper then 'A' else 'a') as int) % NumCategories + 1;
      assert i == FirstLetterIndex(article);
      assert classLabel == ArticleLabel(article);
      StepKeepsGood(s, article);
      articlesCount := articlesCount + 1;
      categories[classLabel - 1] := categories[classLabel - 1] + 1;
      key := articlesCount;
      assert State().tally == ConsumerStep(s, article).0.tally;
    }

    /**
     * One pass of the `classifier_routine` loop once `sem_wait(&notEmpty)`
     * has returned: dequeue, classify, set the latch the first time the
     * goal holds (`goalReached` is the "-enough" trace line), and finish
     * only when the latch is set and the buffer is empty.
     */
    method ClassifierStep() returns (goalReached: bool, done: bool)
      requires Valid()
      requires buffer.Contents != [] && HasLetter(buffer.Contents[0])
      modifies this`articlesCount, this`quitSignal, categories, buffer
      ensures Valid()
      ensures buffer == old(buffer) && buffer.Contents == old(buffer.Contents)[1..]
      ensures (State(), goalReached) == ConsumerStep(old(State()), old(buffer.Contents)[0])
      ensures quitSignal <==> old(quitSignal) || Enough(categories[..])
      ensures done <==> quitSignal && buffer.Contents == []
    {
      ghost var s := State();
      ghost var head := buffer.Contents[0];
      var article := buffer.Dequeue();
      assert article == Some(head) && State() == s && Valid();
      var _, _ := ClassifyAndWrite(article.value);
      assert categories[..] == ConsumerStep(s, head).0.tally;
      goalReached := false;
      if Enough(categories[..]) && !quitSignal {
        goalReached := true;
        quitSignal := true;
      }
      done := quitSignal && buffer.Empty();
    }
  }
}
