/**
  The word index of the `RotatingText` component
  (src/components/ui/rolltext.jsx).

  The component shows one word of a fixed list at a time. Its state is the
  index of that word and a direction flag. On every timer tick the index
  moves one step in the current direction; at either end of the list the
  tick keeps the index and turns the direction round, so the words are
  visited back and forth. The timer periods are not modelled: one tick is
  one call of the `setIndex` updater that is active for the direction.
 */
module RotatingText {

  const Words: seq<string> := [
    "Machine Learning.",
    "Data Science.",
    "Deep Learning.",
    "Artificial Intelligence."
  ]

  const Last := |Words| - 1

  /** `index` and `isReversing` of the component. */
  datatype State = State(index: int, reversing: bool)

  /** `useState(0)` and `useState(false)`. */
  const Init := State(0, false)

  /** The index names a word of the list. */
  predicate Valid(s: State) {
    0 <= s.index < |Words|
  }

  /** JavaScript's `%`: the remainder takes the sign of the dividend. */
  function JsRem(a: int, b: int): (r: int)
    requires b > 0
    ensures a >= 0 ==> 0 <= r < b
    ensures a <= 0 ==> -b < r <= 0
    ensures exists q :: a == q * b + r
  {
    if a >= 0 then
      assert a == (a / b) * b + a % b;
      a % b
    else
      var r := -((-a) % b);
      assert a == -((-a) / b) * b + r;
      r
  }

  /** One tick of the updater for the current direction. */
  function Tick(s: State): (t: State)
    ensures Valid(s) ==> Valid(t)
    ensures Valid(s) ==> -1 <= t.index - s.index <= 1
    ensures t.reversing != s.reversing ==> t.index == s.index
    ensures t.reversing != s.reversing ==> s.index == 0 || s.index == Last
    ensures Valid(s) && !s.reversing && s.index < Last ==> t == State(s.index + 1, false)
    ensures !s.reversing && s.index == Last ==> t == State(Last, true)
    ensures s.reversing && s.index > 0 ==> t == State(s.index - 1, true)
    ensures s.reversing && s.index == 0 ==> t == State(0, false)
  {
    if s.reversing then
      if s.index == 0 then State(s.index, false)
      else State(s.index - 1, true)
    else
      if s.index == |Words| - 1 then State(s.index, true)
      else State(JsRem(s.index + 1, |Words|), false)
  }

  /** The word on screen. */
  function Displayed(s: State): string
    requires Valid(s)
  {
    Words[s.index]
  }

  /** The state after `n` ticks. */
  function Ticks(s: State, n: nat): (t: State)
    ensures Valid(s) ==> Valid(t)
    decreases n
  {
    if n == 0 then s else Ticks(Tick(s), n - 1)
  }

  /** Every state reachable from the initial one names a word. */
  lemma ReachableStatesAreValid(n: nat)
    ensures Valid(Ticks(Init, n))
    ensures Displayed(Ticks(Init, n)) in Words
  {
  }

  /** The walk 0, 1, 2, 3, 3, 2, 1, 0, 0, … repeats every eight ticks:
      each end is shown for two ticks, once in each direction. */
  lemma PeriodEight(s: State)
    requires Valid(s)
    ensures Ticks(s, 8) == s
  {
  }

  /** Starting from the initial state, every word is shown within the
      first four ticks. */
  lemma EveryWordShown(k: int)
    requires 0 <= k < |Words|
    ensures Ticks(Init, k) == State(k, false)
  {
  }
}
