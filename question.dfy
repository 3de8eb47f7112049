/**
 * Question.jsx: the answer buttons are the incorrect answers followed by the
 * correct one, reordered in place by a sort whose comparator is random, and
 * a click reports whether the clicked answer is the correct one.
 *
 * The random comparator is not modelled. A comparison sort rearranges its
 * array by exchanging elements, so its outcome is given here as the list of
 * exchanges it performed, each an arbitrary pair of positions.
 */
module QuestionView {
  import opened Trivia

  /** `[...incorrect_answers, correct_answer]`. */
  function AnswerPool(data: QuestionRecord): seq<string> {
    data.incorrectAnswers + [data.correctAnswer]
  }

  datatype Exchange = Exchange(i: nat, j: nat)

  predicate ExchangesInRange(swaps: seq<Exchange>, n: nat) {
    forall k :: 0 <= k < |swaps| ==> swaps[k].i < n && swaps[k].j < n
  }

  function Exchanged(s: seq<string>, x: Exchange): seq<string>
    requires x.i < |s| && x.j < |s|
  {
    s[x.i := s[x.j]][x.j := s[x.i]]
  }

  /** The order left by performing the exchanges one after another. */
  function ApplyExchanges(s: seq<string>, swaps: seq<Exchange>): seq<string>
    requires ExchangesInRange(swaps, |s|)
    decreases |swaps|
  {
    if swaps == [] then s else ApplyExchanges(Exchanged(s, swaps[0]), swaps[1..])
  }

  /** Exchanging elements never adds, drops or duplicates an answer. */
  lemma {:induction false} ExchangesPermute(s: seq<string>, swaps: seq<Exchange>)
    requires ExchangesInRange(swaps, |s|)
    ensures |ApplyExchanges(s, swaps)| == |s|
    ensures multiset(ApplyExchanges(s, swaps)) == multiset(s)
    decreases |swaps|
  {
    if swaps != [] {
      var t := Exchanged(s, swaps[0]);
      assert multiset(t) == multiset(s);
      ExchangesPermute(t, swaps[1..]);
    }
  }

  /** `answers.sort(...)`: the exchanges performed on the array in place. */
  method SortInPlace(a: array<string>, swaps: seq<Exchange>)
    requires ExchangesInRange(swaps, a.Length)
    modifies a
    ensures a[..] == ApplyExchanges(old(a[..]), swaps)
  {
    var k := 0;
    while k < |swaps|
      invariant 0 <= k <= |swaps|
      invariant ExchangesInRange(swaps[k..], a.Length)
      invariant ApplyExchanges(a[..], swaps[k..]) == ApplyExchanges(old(a[..]), swaps)
    {
      var x := swaps[k];
      assert swaps[k..][0] == x && swaps[k..][1..] == swaps[k + 1..];
      ghost var before := a[..];
      a[x.i], a[x.j] := a[x.j], a[x.i];
      assert a[..] == Exchanged(before, x);
      k := k + 1;
    }
  }

  /**
   * The shuffle effect: build the answer array and reorder it. The buttons
   * show every answer of the record exactly as often as it occurs there, the
   * correct answer among them.
   */
  method ShuffledAnswers(data: QuestionRecord, swaps: seq<Exchange>) returns (shown: seq<string>)
    requires ExchangesInRange(swaps, |data.incorrectAnswers| + 1)
    ensures multiset(shown) == multiset(data.incorrectAnswers) + multiset{data.correctAnswer}
    ensures |shown| == |data.incorrectAnswers| + 1
    ensures data.correctAnswer in shown
  {
    var pool := AnswerPool(data);
    var answers := new string[|pool|](i requires 0 <= i < |pool| => pool[i]);
    assert answers[..] == pool;
    SortInPlace(answers, swaps);
    shown := answers[..];
    ExchangesPermute(pool, swaps);
    assert multiset(pool) == multiset(data.incorrectAnswers) + multiset{data.correctAnswer};
    assert data.correctAnswer in multiset(shown);
  }

  /** `handleAnswer`: what a click on the button showing `answer` reports. */
  function HandleAnswer(data: QuestionRecord, answer: string): bool {
    answer == data.correctAnswer
  }

  /** The number of buttons among `shown` whose click reports a correct answer. */
  function CorrectButtons(data: QuestionRecord, shown: seq<string>): nat
    decreases |shown|
  {
    if shown == [] then 0
    else (if HandleAnswer(data, shown[0]) then 1 else 0) + CorrectButtons(data, shown[1..])
  }

  lemma {:induction false} CorrectButtonsCountsCorrectAnswer(data: QuestionRecord, shown: seq<string>)
    ensures CorrectButtons(data, shown) == multiset(shown)[data.correctAnswer]
    decreases |shown|
  {
    if shown != [] {
      CorrectButtonsCountsCorrectAnswer(data, shown[1..]);
      assert shown == [shown[0]] + shown[1..];
      assert multiset(shown) == multiset{shown[0]} + multiset(shown[1..]);
    }
  }

  /**
   * Whatever the order, the buttons that report a correct answer are those
   * showing the correct answer: one for the correct answer itself, plus one
   * for each incorrect answer that happens to be the same string. So at
   * least one button reports a correct answer.
   */
  lemma CorrectButtonCount(data: QuestionRecord, shown: seq<string>)
    requires multiset(shown) == multiset(data.incorrectAnswers) + multiset{data.correctAnswer}
    ensures CorrectButtons(data, shown) == multiset(data.incorrectAnswers)[data.correctAnswer] + 1
    ensures CorrectButtons(data, shown) >= 1
  {
    CorrectButtonsCountsCorrectAnswer(data, shown);
  }

  /** Whatever the order, some button reports a correct answer. */
  lemma SomeButtonIsCorrect(data: QuestionRecord, shown: seq<string>)
    requires multiset(shown) == multiset(data.incorrectAnswers) + multiset{data.correctAnswer}
    ensures exists k :: 0 <= k < |shown| && HandleAnswer(data, shown[k])
  {
    assert data.correctAnswer in multiset(shown);
    var k :| 0 <= k < |shown| && shown[k] == data.correctAnswer;
  }

  /**
   * The mounted Question component for the question currently passed as
   * `data`, with the order currently shown.
   */
  class QuestionPanel {
    var data: QuestionRecord
    var shuffledAnswers: seq<string>

    /** The buttons always show a reordering of the current record's answers. */
    ghost predicate Valid()
      reads this
    {
      multiset(shuffledAnswers) == multiset(AnswerPool(data))
    }

    /** Mounting: the effect runs once and shuffles the first record's answers. */
    constructor (data: QuestionRecord, swaps: seq<Exchange>)
      requires ExchangesInRange(swaps, |data.incorrectAnswers| + 1)
      ensures Valid() && this.data == data
    {
      this.data := data;
      var shown := ShuffledAnswers(data, swaps);
      shuffledAnswers := shown;
    }

    /**
     * A re-render with `newData`: the effect depends on `data` only, so the
     * order is recomputed when the record changes and kept otherwise.
     */
    method Render(newData: QuestionRecord, swaps: seq<Exchange>)
      requires Valid()
      requires ExchangesInRange(swaps, |newData.incorrectAnswers| + 1)
      modifies this
      ensures Valid() && data == newData
      ensures newData == old(data) ==> shuffledAnswers == old(shuffledAnswers)
    {
      if newData != data {
        data := newData;
        var shown := ShuffledAnswers(newData, swaps);
        shuffledAnswers := shown;
      }
    }
  }
}
