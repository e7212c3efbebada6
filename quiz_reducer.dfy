/**
 * `quizReducer` (src/contexts/QuizContext.jsx): the pure transition function
 * over the quiz record. Every action that touches "the current question"
 * rewrites only the question at `currentQuestionIndex` (none, when that index
 * is out of range) and leaves every other question and every top-level field
 * as it was.
 */
module QuizReducer {
  import opened Js
  import opened QuizHelpers

  datatype Quiz = Quiz(
    id: string,
    username: string,
    name: string,
    createdAt: string,
    questions: seq<Question>,
    currentQuestionIndex: int,
    viewMode: string,
    isPlaceholder: bool)

  /** The payload of UPDATE_TIMER_MODE: the fields to overwrite (object spread). */
  datatype TimerPatch = TimerPatch(
    enabled: Option<bool>, interval: Option<int>, isRunning: Option<bool>, currentSquare: Option<int>)

  /** The `data` of UPDATE_QUESTION: the question fields to overwrite (object spread). */
  datatype QuestionPatch = QuestionPatch(
    id: Option<string>,
    mediaType: Option<string>,
    imageUrl: Option<string>,
    videoUrl: Option<string>,
    startTime: Option<int>,
    revealedSquares: Option<seq<int>>,
    revealHistory: Option<seq<int>>,
    revealSequence: Option<Option<seq<int>>>,
    currentSequenceIndex: Option<int>,
    timerMode: Option<TimerMode>)

  /**
   * The dispatched actions. `Unhandled` stands for any type without a case of
   * its own, such as UNDO_LAST_REVEAL and REVEAL_ALL_SQUARES.
   */
  datatype Action =
    | LoadQuiz(quiz: Quiz)
    | SetViewMode(mode: string)
    | SetCurrentQuestion(index: int)
    | RevealSquare(square: int)
    | SetRevealSequence(sequence: Option<seq<int>>)
    | ResetCurrentQuestion
    | ResetAllQuestions
    | UpdateTimerMode(timer: TimerPatch)
    | AddQuestion(question: Question)
    | UpdateQuestion(index: int, data: QuestionPatch)
    | RemoveQuestion(index: int)
    | Unhandled(actionType: string)

  // ---------------------------------------------------------------------------
  // Building blocks

  /** The position of the first occurrence of `x` in `s`. */
  function FirstIndex(s: seq<int>, x: int): (i: nat)
    requires x in s
    ensures i < |s| && s[i] == x && x !in s[..i]
  {
    if s[0] == x then 0
    else
      var i := 1 + FirstIndex(s[1..], x);
      assert s[..i] == [s[0]] + s[1..][..i - 1];
      i
  }

  /** Appending to `s` does not move the first occurrence of anything already in `s`. */
  lemma {:induction false} FirstIndexOfPrefix(s: seq<int>, last: int, x: int)
    requires x in s
    ensures x in s + [last] && FirstIndex(s + [last], x) == FirstIndex(s, x)
  {
    if s[0] != x {
      assert x in s[1..];
      assert (s + [last])[1..] == s[1..] + [last];
      FirstIndexOfPrefix(s[1..], last, x);
    }
  }

  /** `[...new Set(s)]`: the distinct elements of `s` in order of first occurrence. */
  function Dedup(s: seq<int>): (r: seq<int>)
    ensures DedupOf(s, r)
  {
    if s == [] then []
    else
      var init := s[..|s| - 1];
      var last := s[|s| - 1];
      assert s == init + [last];
      var d := Dedup(init);
      DedupStep(init, last, d);
      if last in d then d else d + [last]
  }

  /**
   * `r` is what `[...new Set(s)]` yields: the same members, no duplicates,
   * in the order of their first occurrence in `s`, and `s` itself when `s` has
   * no duplicates.
   */
  ghost predicate DedupOf(s: seq<int>, r: seq<int>)
  {
    && (forall x :: x in r <==> x in s)
    && NoDuplicates(r)
    && (forall i, j :: 0 <= i < j < |r| ==> FirstIndex(s, r[i]) < FirstIndex(s, r[j]))
    && (NoDuplicates(s) ==> r == s)
  }

  /** One step of `Dedup`: the last element is appended when it is new. */
  lemma DedupStep(init: seq<int>, last: int, d: seq<int>)
    requires DedupOf(init, d)
    ensures DedupOf(init + [last], if last in d then d else d + [last])
  {
    DedupStepMembers(init, last, d);
    DedupStepOrder(init, last, d);
    DedupStepIdentity(init, last, d);
  }

  lemma DedupStepMembers(init: seq<int>, last: int, d: seq<int>)
    requires forall x :: x in d <==> x in init
    requires NoDuplicates(d)
    ensures var r := if last in d then d else d + [last];
            (forall x :: x in r <==> x in init + [last]) && NoDuplicates(r)
  {
  }

  lemma DedupStepIdentity(init: seq<int>, last: int, d: seq<int>)
    requires forall x :: x in d <==> x in init
    requires NoDuplicates(init) ==> d == init
    ensures NoDuplicates(init + [last]) ==> (if last in d then d else d + [last]) == init + [last]
  {
    if NoDuplicates(init + [last]) {
      assert (init + [last])[..|init|] == init;
      assert forall i :: 0 <= i < |init| ==> (init + [last])[i] == init[i];
      assert NoDuplicates(init);
      assert (init + [last])[|init|] == last;
      assert last !in init;
    }
  }

  /** Appending an element keeps the first-occurrence order. */
  lemma DedupStepOrder(init: seq<int>, last: int, d: seq<int>)
    requires forall x :: x in d <==> x in init
    requires forall i, j :: 0 <= i < j < |d| ==> FirstIndex(init, d[i]) < FirstIndex(init, d[j])
    ensures var r := if last in d then d else d + [last];
            forall i, j :: 0 <= i < j < |r| ==> FirstIndex(init + [last], r[i]) < FirstIndex(init + [last], r[j])
  {
    var r := if last in d then d else d + [last];
    forall i, j | 0 <= i < j < |r| ensures FirstIndex(init + [last], r[i]) < FirstIndex(init + [last], r[j]) {
      assert r[i] == d[i] && d[i] in init;
      if j < |d| {
        assert r[j] == d[j] && d[j] in init;
        OrderPair(init, last, d[i], d[j]);
      } else {
        assert r[j] == last && last !in init;
        OrderPair(init, last, d[i], last);
      }
    }
  }

  /** Two elements keep their order of first occurrence when something is appended; a new last element comes after all. */
  lemma OrderPair(init: seq<int>, last: int, a: int, b: int)
    requires a in init
    requires (b in init && FirstIndex(init, a) < FirstIndex(init, b)) || (b == last && last !in init)
    ensures FirstIndex(init + [last], a) < FirstIndex(init + [last], b)
  {
    FirstIndexOfPrefix(init, last, a);
    if b in init {
      FirstIndexOfPrefix(init, last, b);
    } else {
      FirstIndexOfNew(init, last);
    }
  }

  lemma {:induction false} FirstIndexOfNew(s: seq<int>, last: int)
    requires last !in s
    ensures FirstIndex(s + [last], last) == |s|
  {
    if s != [] {
      assert (s + [last])[1..] == s[1..] + [last];
      FirstIndexOfNew(s[1..], last);
    }
  }

  /**
   * `sequence.findIndex(sq => !revealed.has(sq))`, with -1 read as the length:
   * the position of the first element not yet revealed, or the length when
   * every element is revealed.
   */
  function FirstUnrevealedIndex(sequence: seq<int>, revealed: seq<int>): (i: nat)
    ensures i <= |sequence|
    ensures forall j :: 0 <= j < i ==> sequence[j] in revealed
    ensures i < |sequence| ==> sequence[i] !in revealed
  {
    if sequence == [] || sequence[0] !in revealed then 0
    else 1 + FirstUnrevealedIndex(sequence[1..], revealed)
  }

  /** The reducer's `currentSequenceIndex`: 0 without a (non-empty) sequence. */
  function SequenceIndex(sequence: Option<seq<int>>, revealed: seq<int>): int
  {
    if sequence.Some? && |sequence.value| > 0 then FirstUnrevealedIndex(sequence.value, revealed) else 0
  }

  /** `questions.map((q, idx) => idx === index ? f(q) : q)`. */
  function MapAt(questions: seq<Question>, index: int, f: Question -> Question): (r: seq<Question>)
    ensures |r| == |questions|
    ensures forall i :: 0 <= i < |r| ==> r[i] == if i == index then f(questions[i]) else questions[i]
  {
    seq(|questions|, i requires 0 <= i < |questions| => if i == index then f(questions[i]) else questions[i])
  }

  /** `questions.filter((_, idx) => idx !== index)`. */
  function RemoveAt(questions: seq<Question>, index: int): seq<Question>
  {
    if questions == [] then []
    else (if index == 0 then [] else [questions[0]]) + RemoveAt(questions[1..], index - 1)
  }

  function Reveal(q: Question, square: int): Question
  {
    var revealed := Dedup(q.revealedSquares + [square]);
    q.(revealedSquares := revealed, currentSequenceIndex := SequenceIndex(q.revealSequence, revealed))
  }

  function WithSequence(q: Question, sequence: Option<seq<int>>): Question
  {
    if sequence.None? || |sequence.value| == 0 then q.(revealSequence := None, currentSequenceIndex := 0)
    else q.(revealSequence := sequence, currentSequenceIndex := FirstUnrevealedIndex(sequence.value, q.revealedSquares))
  }

  function Reset(q: Question): Question
  {
    q.(revealedSquares := [], currentSequenceIndex := 0,
       timerMode := q.timerMode.(isRunning := false, currentSquare := 0))
  }

  function PatchTimer(t: TimerMode, p: TimerPatch): TimerMode
  {
    TimerMode(
      if p.enabled.Some? then p.enabled.value else t.enabled,
      if p.interval.Some? then p.interval.value else t.interval,
      if p.isRunning.Some? then p.isRunning.value else t.isRunning,
      if p.currentSquare.Some? then p.currentSquare.value else t.currentSquare)
  }

  function PatchQuestion(q: Question, p: QuestionPatch): Question
  {
    Question(
      if p.id.Some? then p.id.value else q.id,
      if p.mediaType.Some? then p.mediaType.value else q.mediaType,
      if p.imageUrl.Some? then p.imageUrl.value else q.imageUrl,
      if p.videoUrl.Some? then p.videoUrl.value else q.videoUrl,
      if p.startTime.Some? then p.startTime.value else q.startTime,
      if p.revealedSquares.Some? then p.revealedSquares.value else q.revealedSquares,
      if p.revealHistory.Some? then p.revealHistory.value else q.revealHistory,
      if p.revealSequence.Some? then p.revealSequence.value else q.revealSequence,
      if p.currentSequenceIndex.Some? then p.currentSequenceIndex.value else q.currentSequenceIndex,
      if p.timerMode.Some? then p.timerMode.value else q.timerMode)
  }

  // ---------------------------------------------------------------------------
  // The reducer

  function Reduce(state: Quiz, action: Action): Quiz
  {
    var current := state.currentQuestionIndex;
    match action
    case LoadQuiz(quiz) => quiz
    case SetViewMode(mode) => state.(viewMode := mode)
    case SetCurrentQuestion(index) => state.(currentQuestionIndex := index)
    case RevealSquare(square) => state.(questions := MapAt(state.questions, current, (q: Question) => Reveal(q, square)))
    case SetRevealSequence(sequence) =>
      state.(questions := MapAt(state.questions, current, (q: Question) => WithSequence(q, sequence)))
    case ResetCurrentQuestion => state.(questions := MapAt(state.questions, current, Reset))
    case ResetAllQuestions =>
      state.(currentQuestionIndex := 0, questions := seq(|state.questions|, i requires 0 <= i < |state.questions| => Reset(state.questions[i])))
    case UpdateTimerMode(timer) =>
      state.(questions := MapAt(state.questions, current, (q: Question) => q.(timerMode := PatchTimer(q.timerMode, timer))))
    case AddQuestion(question) => state.(questions := state.questions + [question])
    case UpdateQuestion(index, data) => state.(questions := MapAt(state.questions, index, (q: Question) => PatchQuestion(q, data)))
    case RemoveQuestion(index) =>
      state.(questions := RemoveAt(state.questions, index),
             currentQuestionIndex := Min(current, |state.questions| - 2))
    case Unhandled(_) => state
  }

  function Min(a: int, b: int): int
  {
    if a <= b then a else b
  }

  /** The question an action addressed to the current question rewrites, when the index is in range. */
  predicate HasCurrent(state: Quiz)
  {
    0 <= state.currentQuestionIndex < |state.questions|
  }

  /** Only the question at `index` may differ; everything else about the quiz is as before. */
  predicate OnlyQuestionChanged(before: Quiz, after: Quiz, index: int)
  {
    && after.(questions := before.questions) == before
    && |after.questions| == |before.questions|
    && forall i :: 0 <= i < |before.questions| && i != index ==> after.questions[i] == before.questions[i]
  }

  /** A question's index agrees with its revealed squares and sequence. */
  predicate IndexConsistent(q: Question)
  {
    q.currentSequenceIndex == SequenceIndex(q.revealSequence, q.revealedSquares)
  }

  predicate AllIndicesConsistent(state: Quiz)
  {
    forall i :: 0 <= i < |state.questions| ==> IndexConsistent(state.questions[i])
  }

  // ---------------------------------------------------------------------------
  // Properties

  /**
   * REVEAL_SQUARE touches only the current question. Its revealed squares
   * become the old ones plus the payload, without duplicates and in the old
   * order (the payload appended when new), and its sequence index points at
   * the first element of the sequence still hidden.
   */
  lemma RevealSquareSpec(state: Quiz, square: int)
    ensures OnlyQuestionChanged(state, Reduce(state, RevealSquare(square)), state.currentQuestionIndex)
    ensures HasCurrent(state) ==>
              var before := state.questions[state.currentQuestionIndex];
              var after := Reduce(state, RevealSquare(square)).questions[state.currentQuestionIndex];
              && after.(revealedSquares := before.revealedSquares, currentSequenceIndex := before.currentSequenceIndex) == before
              && NoDuplicates(after.revealedSquares)
              && (forall x :: x in after.revealedSquares <==> x in before.revealedSquares || x == square)
              && (NoDuplicates(before.revealedSquares) ==>
                    after.revealedSquares == if square in before.revealedSquares then before.revealedSquares
                                             else before.revealedSquares + [square])
              && IndexConsistent(after)
  {
    if HasCurrent(state) {
      var before := state.questions[state.currentQuestionIndex];
      var s := before.revealedSquares + [square];
      assert s[..|s| - 1] == before.revealedSquares;
    }
  }

  /**
   * SET_REVEAL_SEQUENCE touches only the current question: a missing or empty
   * sequence is stored as null with index 0; otherwise the sequence is stored
   * and the index is that of its first element not yet revealed (its length
   * when all are revealed).
   */
  lemma SetRevealSequenceSpec(state: Quiz, sequence: Option<seq<int>>)
    ensures OnlyQuestionChanged(state, Reduce(state, SetRevealSequence(sequence)), state.currentQuestionIndex)
    ensures HasCurrent(state) ==>
              var before := state.questions[state.currentQuestionIndex];
              var after := Reduce(state, SetRevealSequence(sequence)).questions[state.currentQuestionIndex];
              && after.(revealSequence := before.revealSequence, currentSequenceIndex := before.currentSequenceIndex) == before
              && (sequence.None? || sequence.value == [] ==> after.revealSequence.None? && after.currentSequenceIndex == 0)
              && (sequence.Some? && sequence.value != [] ==>
                    && after.revealSequence == sequence
                    && 0 <= after.currentSequenceIndex <= |sequence.value|
                    && (forall j :: 0 <= j < after.currentSequenceIndex ==> sequence.value[j] in before.revealedSquares)
                    && (after.currentSequenceIndex < |sequence.value| ==>
                          sequence.value[after.currentSequenceIndex] !in before.revealedSquares))
              && IndexConsistent(after)
  {
  }

  /**
   * RESET_CURRENT_QUESTION clears the current question's reveals and stops
   * its timer, keeping the timer's `enabled` and `interval` and the sequence.
   */
  lemma ResetCurrentSpec(state: Quiz)
    ensures OnlyQuestionChanged(state, Reduce(state, ResetCurrentQuestion), state.currentQuestionIndex)
    ensures HasCurrent(state) ==>
              var before := state.questions[state.currentQuestionIndex];
              var after := Reduce(state, ResetCurrentQuestion).questions[state.currentQuestionIndex];
              && after.revealedSquares == [] && after.currentSequenceIndex == 0
              && after.timerMode == TimerMode(before.timerMode.enabled, before.timerMode.interval, false, 0)
              && after.revealSequence == before.revealSequence
              && after.(revealedSquares := before.revealedSquares, currentSequenceIndex := before.currentSequenceIndex,
                        timerMode := before.timerMode) == before
              && IndexConsistent(after)
  {
    if HasCurrent(state) {
      var after := Reduce(state, ResetCurrentQuestion).questions[state.currentQuestionIndex];
      ResetIsConsistent(state.questions[state.currentQuestionIndex]);
    }
  }

  /** RESET_ALL_QUESTIONS resets every question the same way and returns to the first question. */
  lemma ResetAllSpec(state: Quiz)
    ensures var after := Reduce(state, ResetAllQuestions);
            && after.currentQuestionIndex == 0
            && after.(questions := state.questions, currentQuestionIndex := state.currentQuestionIndex) == state
            && |after.questions| == |state.questions|
            && forall i :: 0 <= i < |state.questions| ==>
                 && after.questions[i].revealedSquares == [] && after.questions[i].currentSequenceIndex == 0
                 && after.questions[i].timerMode ==
                      TimerMode(state.questions[i].timerMode.enabled, state.questions[i].timerMode.interval, false, 0)
                 && after.questions[i].revealSequence == state.questions[i].revealSequence
                 && after.questions[i].(revealedSquares := state.questions[i].revealedSquares,
                                        currentSequenceIndex := state.questions[i].currentSequenceIndex,
                                        timerMode := state.questions[i].timerMode) == state.questions[i]
  {
  }

  lemma ResetIsConsistent(q: Question)
    ensures IndexConsistent(Reset(q))
  {
  }

  /** The filter removes exactly the element at `index`, and nothing when `index` is out of range. */
  lemma {:induction false} RemoveAtSpec(questions: seq<Question>, index: int)
    ensures 0 <= index < |questions| ==> RemoveAt(questions, index) == questions[..index] + questions[index + 1..]
    ensures !(0 <= index < |questions|) ==> RemoveAt(questions, index) == questions
  {
    if questions != [] {
      RemoveAtSpec(questions[1..], index - 1);
      if index == 0 {
        assert questions[1..] == questions[..0] + questions[1..];
      } else if 0 < index < |questions| {
        assert questions[..index] == [questions[0]] + questions[1..][..index - 1];
        assert questions[index + 1..] == questions[1..][index..];
      } else {
        assert questions == [questions[0]] + questions[1..];
      }
    }
  }

  /**
   * REMOVE_QUESTION drops exactly the question at the payload index and moves
   * the current index to `min(old, oldLength - 2)`, which is -1 once the last
   * question is gone.
   */
  lemma RemoveQuestionSpec(state: Quiz, index: int)
    ensures var after := Reduce(state, RemoveQuestion(index));
            && (0 <= index < |state.questions| ==>
                  after.questions == state.questions[..index] + state.questions[index + 1..])
            && (!(0 <= index < |state.questions|) ==> after.questions == state.questions)
            && after.currentQuestionIndex == Min(state.currentQuestionIndex, |state.questions| - 2)
            && (|state.questions| == 1 && state.currentQuestionIndex >= 0 ==> after.currentQuestionIndex == -1)
            && after.(questions := state.questions, currentQuestionIndex := state.currentQuestionIndex) == state
  {
    RemoveAtSpec(state.questions, index);
  }

  /** LOAD_QUIZ replaces the whole state; SET_VIEW_MODE and SET_CURRENT_QUESTION overwrite one field and keep the rest. */
  lemma TopLevelActionsSpec(state: Quiz, quiz: Quiz, mode: string, index: int)
    ensures Reduce(state, LoadQuiz(quiz)) == quiz
    ensures var after := Reduce(state, SetViewMode(mode));
            after.viewMode == mode && after.(viewMode := state.viewMode) == state
    ensures var after := Reduce(state, SetCurrentQuestion(index));
            after.currentQuestionIndex == index && after.(currentQuestionIndex := state.currentQuestionIndex) == state
  {
  }

  /**
   * UPDATE_TIMER_MODE merges the payload into the current question's timer:
   * each field the payload carries wins, every other timer field and every
   * other part of the question is kept.
   */
  lemma UpdateTimerModeSpec(state: Quiz, timer: TimerPatch)
    ensures OnlyQuestionChanged(state, Reduce(state, UpdateTimerMode(timer)), state.currentQuestionIndex)
    ensures HasCurrent(state) ==>
              var before := state.questions[state.currentQuestionIndex];
              var after := Reduce(state, UpdateTimerMode(timer)).questions[state.currentQuestionIndex];
              && after.(timerMode := before.timerMode) == before
              && after.timerMode.enabled == (if timer.enabled.Some? then timer.enabled.value else before.timerMode.enabled)
              && after.timerMode.interval == (if timer.interval.Some? then timer.interval.value else before.timerMode.interval)
              && after.timerMode.isRunning == (if timer.isRunning.Some? then timer.isRunning.value else before.timerMode.isRunning)
              && after.timerMode.currentSquare ==
                   (if timer.currentSquare.Some? then timer.currentSquare.value else before.timerMode.currentSquare)
  {
  }

  /** ADD_QUESTION appends the payload and changes nothing else. */
  lemma AddQuestionSpec(state: Quiz, question: Question)
    ensures var after := Reduce(state, AddQuestion(question));
            after.questions == state.questions + [question] && after.(questions := state.questions) == state
  {
  }

  /**
   * UPDATE_QUESTION merges `data` into the question at the payload index (no
   * question when the index is out of range), leaving the current index and
   * every other question unchanged; an empty patch leaves the question as it was.
   */
  lemma UpdateQuestionSpec(state: Quiz, index: int, data: QuestionPatch)
    ensures OnlyQuestionChanged(state, Reduce(state, UpdateQuestion(index, data)), index)
    ensures 0 <= index < |state.questions| ==>
              var before := state.questions[index];
              var after := Reduce(state, UpdateQuestion(index, data)).questions[index];
              && (data.id.Some? ==> after.id == data.id.value)
              && (data.id.None? ==> after.id == before.id)
              && (data.mediaType.Some? ==> after.mediaType == data.mediaType.value)
              && (data.mediaType.None? ==> after.mediaType == before.mediaType)
              && (data.imageUrl.Some? ==> after.imageUrl == data.imageUrl.value)
              && (data.imageUrl.None? ==> after.imageUrl == before.imageUrl)
              && (data.videoUrl.Some? ==> after.videoUrl == data.videoUrl.value)
              && (data.videoUrl.None? ==> after.videoUrl == before.videoUrl)
              && (data.startTime.Some? ==> after.startTime == data.startTime.value)
              && (data.startTime.None? ==> after.startTime == before.startTime)
              && (data.revealHistory.Some? ==> after.revealHistory == data.revealHistory.value)
              && (data.revealHistory.None? ==> after.revealHistory == before.revealHistory)
              && (data.revealedSquares.Some? ==> after.revealedSquares == data.revealedSquares.value)
              && (data.revealedSquares.None? ==> after.revealedSquares == before.revealedSquares)
              && (data.revealSequence.Some? ==> after.revealSequence == data.revealSequence.value)
              && (data.revealSequence.None? ==> after.revealSequence == before.revealSequence)
              && (data.currentSequenceIndex.Some? ==> after.currentSequenceIndex == data.currentSequenceIndex.value)
              && (data.currentSequenceIndex.None? ==> after.currentSequenceIndex == before.currentSequenceIndex)
              && (data.timerMode.Some? ==> after.timerMode == data.timerMode.value)
              && (data.timerMode.None? ==> after.timerMode == before.timerMode)
              && (data == QuestionPatch(None, None, None, None, None, None, None, None, None, None) ==> after == before)
  {
  }

  /** Action types without a case, such as UNDO_LAST_REVEAL and REVEAL_ALL_SQUARES, change nothing. */
  lemma UnhandledIsIdentity(state: Quiz, actionType: string)
    ensures Reduce(state, Unhandled(actionType)) == state
  {
  }

  /**
   * The reveal, sequence, reset, removal and timer actions keep every
   * question's sequence index consistent with its revealed squares.
   */
  lemma ConsistencyPreserved(state: Quiz, action: Action)
    requires AllIndicesConsistent(state)
    requires action.RevealSquare? || action.SetRevealSequence? || action.ResetCurrentQuestion? ||
             action.ResetAllQuestions? || action.UpdateTimerMode? || action.SetViewMode? ||
             action.SetCurrentQuestion? || action.RemoveQuestion? || action.Unhandled?
    ensures AllIndicesConsistent(Reduce(state, action))
  {
    var after := Reduce(state, action);
    forall i | 0 <= i < |after.questions| ensures IndexConsistent(after.questions[i]) {
      match action {
        case RevealSquare(square) =>
          if i == state.currentQuestionIndex { RevealSquareSpec(state, square); }
        case SetRevealSequence(sequence) =>
          if i == state.currentQuestionIndex { SetRevealSequenceSpec(state, sequence); }
        case ResetCurrentQuestion =>
          if i == state.currentQuestionIndex { ResetIsConsistent(state.questions[i]); }
        case ResetAllQuestions =>
          ResetIsConsistent(state.questions[i]);
        case RemoveQuestion(index) =>
          RemoveAtSpec(state.questions, index);
        case _ =>
      }
    }
  }

  /**
   * The reducer's index and `getNextSequenceSquare` agree: for a non-empty
   * sequence, the helper's square is the element at the index the reducer
   * computes, and the helper returns null exactly when that index is the
   * sequence length.
   */
  lemma {:induction false} FirstHiddenAtIndex(sequence: seq<int>, revealed: seq<int>)
    ensures var i := FirstUnrevealedIndex(sequence, revealed);
            FirstHidden(sequence, revealed) == if i < |sequence| then Some(sequence[i]) else None
  {
    if sequence != [] && sequence[0] in revealed {
      FirstHiddenAtIndex(sequence[1..], revealed);
    }
  }

  lemma NextSquareMatchesIndex(q: Question)
    requires IndexConsistent(q)
    requires q.revealSequence.Some? && q.revealSequence.value != []
    ensures 0 <= q.currentSequenceIndex <= |q.revealSequence.value|
    ensures NextSequenceSquare(q).Some? <==> q.currentSequenceIndex < |q.revealSequence.value|
    ensures NextSequenceSquare(q).Some? ==>
              NextSequenceSquare(q).value == q.revealSequence.value[q.currentSequenceIndex]
  {
    FirstHiddenAtIndex(q.revealSequence.value, q.revealedSquares);
  }
}
