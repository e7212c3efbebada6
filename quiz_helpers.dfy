/**
 * The question record and the helpers over the 3×3 grid of squares 1..9
 * (src/utils/quizHelpers.js): which squares are still hidden, a random hidden
 * square, the next square of a reveal sequence, and a fresh question.
 */
module QuizHelpers {
  import opened Js
  import opened Counting

  const GridSquares: seq<int> := [1, 2, 3, 4, 5, 6, 7, 8, 9]
  const DefaultTimerInterval: int := 5000

  datatype TimerMode = TimerMode(enabled: bool, interval: int, isRunning: bool, currentSquare: int)

  /** A question; `mediaType` is the source's `type` field ('image' or 'video'). */
  datatype Question = Question(
    id: string,
    mediaType: string,
    imageUrl: string,
    videoUrl: string,
    startTime: int,
    revealedSquares: seq<int>,
    revealHistory: seq<int>,
    revealSequence: Option<seq<int>>,
    currentSequenceIndex: int,
    timerMode: TimerMode)

  predicate NoDuplicates<T(==)>(s: seq<T>)
  {
    forall i, j :: 0 <= i < j < |s| ==> s[i] != s[j]
  }

  predicate StrictlyIncreasing(s: seq<int>)
  {
    forall i, j :: 0 <= i < j < |s| ==> s[i] < s[j]
  }

  predicate OnGrid(x: int)
  {
    1 <= x <= 9
  }

  /** The number a string of decimal digits denotes, most significant digit first. */
  function DigitsValue(s: string): int
  {
    if s == [] then 0 else 10 * DigitsValue(s[..|s| - 1]) + (s[|s| - 1] as int - '0' as int)
  }

  /**
   * Decimal digits of a natural number, as a template literal renders it: the
   * digits denote `n`, and there is no leading zero.
   */
  function Decimal(n: nat): (r: string)
    ensures |r| > 0
    ensures forall i :: 0 <= i < |r| ==> '0' <= r[i] <= '9'
    ensures DigitsValue(r) == n
    ensures |r| > 1 ==> r[0] != '0'
  {
    if n < 10 then
      var r := [('0' as int + n) as char];
      assert r[..0] == [];
      r
    else
      var d := Decimal(n / 10);
      var r := d + [('0' as int + n % 10) as char];
      assert r[..|r| - 1] == d;
      r
  }

  /**
   * `createEmptyQuestion`. The id's time stamp and random suffix are the
   * parameters `now` and `randomSuffix`; `startTime` is what
   * `parseInt(startTime, 10)` returned (`None` for NaN).
   */
  function CreateEmptyQuestion(now: nat, randomSuffix: string, imageUrl: string := "",
                               mediaType: string := "image", videoUrl: string := "",
                               startTime: Option<int> := Some(0)): (q: Question)
    ensures q.revealedSquares == [] && q.revealHistory == []
    ensures q.revealSequence == None && q.currentSequenceIndex == 0
    ensures q.timerMode == TimerMode(false, DefaultTimerInterval, false, 0)
    ensures q.startTime == (if startTime.Some? then startTime.value else 0)
    ensures q.imageUrl == imageUrl && q.videoUrl == videoUrl && q.mediaType == mediaType
    ensures q.id == "q_" + Decimal(now) + "_" + randomSuffix
    ensures |q.id| > |randomSuffix| + 2
    ensures q.id[..2] == "q_" && q.id[|q.id| - |randomSuffix|..] == randomSuffix
  {
    var parsed := match startTime case Some(n) => n case None => 0;
    Question("q_" + Decimal(now) + "_" + randomSuffix, mediaType, imageUrl, videoUrl,
             if parsed != 0 then parsed else 0,
             [], [], None, 0, TimerMode(false, DefaultTimerInterval, false, 0))
  }

  /**
   * `squares.filter(sq => !revealed.includes(sq))`: the squares not revealed,
   * in their original order.
   */
  function Hidden(squares: seq<int>, revealed: seq<int>): (r: seq<int>)
    ensures forall x :: x in r <==> x in squares && x !in revealed
    ensures |r| <= |squares|
    ensures StrictlyIncreasing(squares) ==> StrictlyIncreasing(r)
  {
    if squares == [] then []
    else
      var rest := Hidden(squares[1..], revealed);
      assert StrictlyIncreasing(squares) ==> forall k :: 0 <= k < |rest| ==> squares[0] < rest[k] by {
        if StrictlyIncreasing(squares) {
          forall k | 0 <= k < |rest| ensures squares[0] < rest[k] {
            assert rest[k] in squares[1..];
          }
        }
      }
      (if squares[0] in revealed then [] else [squares[0]]) + rest
  }

  /**
   * `getUnrevealedSquares`: exactly the grid squares not in `revealedSquares`,
   * ascending and hence without duplicates.
   */
  function UnrevealedSquares(q: Question): (r: seq<int>)
    ensures forall x :: x in r <==> OnGrid(x) && x !in q.revealedSquares
    ensures StrictlyIncreasing(r) && NoDuplicates(r)
  {
    assert StrictlyIncreasing(GridSquares);
    assert forall x :: x in GridSquares <==> OnGrid(x);
    Hidden(GridSquares, q.revealedSquares)
  }

  /**
   * `getRandomUnrevealedSquare`, with `Math.random()` as the parameter
   * `random` in [0, 1): null exactly when every square is revealed, otherwise
   * a hidden square.
   */
  function RandomUnrevealedSquare(q: Question, random: real): (r: Option<int>)
    requires 0.0 <= random < 1.0
    ensures r.None? <==> UnrevealedSquares(q) == []
    ensures r.Some? ==> r.value in UnrevealedSquares(q)
    ensures r.Some? ==> OnGrid(r.value) && r.value !in q.revealedSquares
  {
    var unrevealed := UnrevealedSquares(q);
    if |unrevealed| == 0 then None
    else
      var n := |unrevealed| as real;
      assert random * n < n;
      var i := (random * n).Floor;
      Some(unrevealed[i])
  }

  /** `sequence.find(sq => !revealed.includes(sq))`: the first element not revealed, if any. */
  function FirstHidden(sequence: seq<int>, revealed: seq<int>): (r: Option<int>)
    ensures r.Some? ==> r.value in sequence && r.value !in revealed
    ensures r.Some? ==> exists k :: 0 <= k < |sequence| && sequence[k] == r.value &&
                                    forall j :: 0 <= j < k ==> sequence[j] in revealed
    ensures r.None? <==> forall i :: 0 <= i < |sequence| ==> sequence[i] in revealed
  {
    if sequence == [] then None
    else if sequence[0] !in revealed then
      Some(sequence[0])
    else
      assert forall i :: 0 < i < |sequence| ==> sequence[i] == sequence[1..][i - 1];
      var r := FirstHidden(sequence[1..], revealed);
      assert r.Some? ==> exists k :: 0 <= k < |sequence| && sequence[k] == r.value &&
                                     forall j :: 0 <= j < k ==> sequence[j] in revealed by {
        if r.Some? {
          var k :| 0 <= k < |sequence[1..]| && sequence[1..][k] == r.value &&
                   forall j :: 0 <= j < k ==> sequence[1..][j] in revealed;
          assert sequence[k + 1] == r.value;
          assert forall j :: 0 <= j < k + 1 ==> sequence[j] in revealed by {
            forall j | 0 <= j < k + 1 ensures sequence[j] in revealed {
              if j > 0 { assert sequence[j] == sequence[1..][j - 1]; }
            }
          }
        }
      }
      r
  }

  /**
   * `getNextSequenceSquare`: null for a missing or empty sequence, otherwise
   * the first element of the sequence still hidden (null when there is none).
   * A square it returns is never already revealed.
   */
  function NextSequenceSquare(q: Question): (r: Option<int>)
    ensures q.revealSequence.None? || q.revealSequence.value == [] ==> r.None?
    ensures r.Some? ==> r.value in q.revealSequence.value && r.value !in q.revealedSquares
    ensures r.Some? ==> exists k :: 0 <= k < |q.revealSequence.value| && q.revealSequence.value[k] == r.value &&
                                    forall j :: 0 <= j < k ==> q.revealSequence.value[j] in q.revealedSquares
    ensures q.revealSequence.Some? && q.revealSequence.value != [] ==>
              (r.None? <==> forall i :: 0 <= i < |q.revealSequence.value| ==>
                                     q.revealSequence.value[i] in q.revealedSquares)
  {
    match q.revealSequence
    case None => None
    case Some(sequence) => if |sequence| == 0 then None else FirstHidden(sequence, q.revealedSquares)
  }

  /** `isSquareRevealed`. */
  predicate IsSquareRevealed(q: Question, square: int)
  {
    square in q.revealedSquares
  }

  /** `areAllSquaresRevealed`: compares the length only. */
  predicate AreAllSquaresRevealed(q: Question)
  {
    |q.revealedSquares| == 9
  }

  /** A grid square is revealed exactly when `getUnrevealedSquares` leaves it out. */
  lemma RevealedAgreesWithHidden(q: Question, square: int)
    requires OnGrid(square)
    ensures IsSquareRevealed(q, square) <==> square !in UnrevealedSquares(q)
  {
  }

  /**
   * For a duplicate-free list of grid squares, the length test of
   * `areAllSquaresRevealed` agrees with there being no hidden square.
   */
  lemma AllRevealedIffNoneHidden(q: Question)
    requires NoDuplicates(q.revealedSquares)
    requires forall x :: x in q.revealedSquares ==> OnGrid(x)
    ensures AreAllSquaresRevealed(q) <==> UnrevealedSquares(q) == []
  {
    var revealed := set x | x in q.revealedSquares;
    var grid := GridSet();
    DistinctCard(q.revealedSquares);
    assert revealed <= grid;
    if UnrevealedSquares(q) != [] {
      var x := UnrevealedSquares(q)[0];
      assert x in grid && x !in revealed;
      SubsetSize(revealed, grid - {x});
    } else {
      forall x | x in grid ensures x in revealed {
        assert x !in UnrevealedSquares(q);
      }
      assert revealed == grid;
    }
  }

  /** The grid squares as a set. */
  function GridSet(): (g: set<int>)
    ensures |g| == 9
    ensures forall x :: x in g <==> OnGrid(x)
  {
    {1, 2, 3, 4, 5, 6, 7, 8, 9}
  }

  /** A duplicate-free sequence has as many distinct elements as it has elements. */
  lemma {:induction false} DistinctCard<T>(s: seq<T>)
    requires NoDuplicates(s)
    ensures |set x | x in s| == |s|
  {
    if s != [] {
      DistinctCard(s[1..]);
      assert (set x | x in s) == (set x | x in s[1..]) + {s[0]};
      assert s[0] !in s[1..];
    }
  }
}
