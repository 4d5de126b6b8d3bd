/** The creativity stepper of the ice-breaker command.
    Creativity levels are the host's `AI.Creativity` strings. The command keeps
    them in a fixed, ordered list and moves along that list by position: it looks
    the current level up with `indexOf`, reads the neighbouring entry, and keeps
    the current level when that read yields nothing (JavaScript `undefined`).
    So the stepper clamps at both ends and never wraps. */
module Creativity {

  /** The outcome of reading a JavaScript array at an index: `undefined` when out of range. */
  datatype Option<T> = None | Some(value: T)

  /** The ordered scale, least creative first. */
  const Continuum: seq<string> := ["low", "medium", "high", "maximum"]

  /** The level a fresh session starts at. */
  const DefaultLevel: string := "high"

  /** `Array.prototype.indexOf` with strict equality: the first position holding `x`, or -1. */
  function IndexOf(xs: seq<string>, x: string): (r: int)
    ensures -1 <= r < |xs|
    ensures r == -1 <==> x !in xs
    ensures 0 <= r ==> xs[r] == x && forall j :: 0 <= j < r ==> xs[j] != x
  {
    if xs == [] then -1
    else if xs[0] == x then 0
    else
      var k := IndexOf(xs[1..], x);
      if k == -1 then -1 else k + 1
  }

  /** Reading `xs[i]` in JavaScript: any index outside the array gives `undefined`. */
  function At(xs: seq<string>, i: int): (r: Option<string>)
    ensures r.Some? <==> 0 <= i < |xs|
    ensures r.Some? ==> r.value == xs[i]
  {
    if 0 <= i < |xs| then Some(xs[i]) else None
  }

  /** JavaScript truthiness of a value that is a string or `undefined`. */
  predicate Truthy(v: Option<string>) {
    v.Some? && v.value != ""
  }

  /** `increaseCreativityLevel`: the entry after the current one, if there is one that is truthy. */
  function Increase(level: string): string {
    var next := At(Continuum, IndexOf(Continuum, level) + 1);
    if Truthy(next) then next.value else level
  }

  /** `lowerCreativityLevel`: the entry before the current one, if there is one that is truthy. */
  function Lower(level: string): string {
    var next := At(Continuum, IndexOf(Continuum, level) - 1);
    if Truthy(next) then next.value else level
  }

  /** Position of a level on the scale (-1 when it is not on it). */
  function Rank(level: string): (r: int)
    ensures level in Continuum ==> 0 <= r < |Continuum| && Continuum[r] == level
  {
    IndexOf(Continuum, level)
  }

  /** The four entries are pairwise different, so each level has exactly one position. */
  lemma ContinuumDistinct()
    ensures forall i, j :: 0 <= i < j < |Continuum| ==> Continuum[i] != Continuum[j]
  {
    assert Continuum[0][0] == 'l' && Continuum[1][0] == 'm' && Continuum[2][0] == 'h';
    assert Continuum[3][0] == 'm' && Continuum[1][1] == 'e' && Continuum[3][1] == 'a';
  }

  /** Looking a level up finds its own position. */
  lemma RankOf(i: int)
    requires 0 <= i < |Continuum|
    ensures Rank(Continuum[i]) == i
  {
    ContinuumDistinct();
  }

  /** More creative: one step up the scale, and no change at "maximum" (no wrap, no error). */
  lemma IncreaseSteps(i: int)
    requires 0 <= i < |Continuum|
    ensures i + 1 < |Continuum| ==> Increase(Continuum[i]) == Continuum[i + 1]
    ensures i + 1 == |Continuum| ==> Increase(Continuum[i]) == Continuum[i]
  {
    RankOf(i);
  }

  /** Less creative: one step down the scale, and no change at "low". */
  lemma LowerSteps(i: int)
    requires 0 <= i < |Continuum|
    ensures 0 < i ==> Lower(Continuum[i]) == Continuum[i - 1]
    ensures i == 0 ==> Lower(Continuum[i]) == Continuum[i]
  {
    RankOf(i);
  }

  /** The two boundaries are fixed points of the step towards them. */
  lemma BoundariesClamp()
    ensures Increase("maximum") == "maximum"
    ensures Lower("low") == "low"
  {
    IncreaseSteps(3);
    LowerSteps(0);
  }

  /** Stepping never leaves the scale. */
  lemma StepsStayOnScale(level: string)
    requires level in Continuum
    ensures Increase(level) in Continuum && Lower(level) in Continuum
  {
    var i := Rank(level);
    IncreaseSteps(i);
    LowerSteps(i);
  }

  /** Rank moves by one, saturating at the ends of the scale. */
  lemma StepsMoveRankByOne(level: string)
    requires level in Continuum
    ensures Rank(Increase(level)) == if Rank(level) + 1 < |Continuum| then Rank(level) + 1 else Rank(level)
    ensures Rank(Lower(level)) == if Rank(level) > 0 then Rank(level) - 1 else 0
  {
    var i := Rank(level);
    IncreaseSteps(i);
    LowerSteps(i);
    if i + 1 < |Continuum| { RankOf(i + 1); } else { RankOf(i); }
    if i > 0 { RankOf(i - 1); } else { RankOf(i); }
  }

  /** The two steps undo each other away from the boundary they clamp at. */
  lemma StepsRoundTrip(level: string)
    requires level in Continuum
    ensures level != "maximum" ==> Lower(Increase(level)) == level
    ensures level != "low" ==> Increase(Lower(level)) == level
  {
    var i := Rank(level);
    IncreaseSteps(i);
    LowerSteps(i);
    if i + 1 < |Continuum| { LowerSteps(i + 1); }
    if i > 0 { IncreaseSteps(i - 1); }
  }

  /** As written, a level that is not on the scale (indexOf gives -1) steps up to "low"
      and cannot step down. The session only ever holds levels on the scale. */
  lemma StepsOffScale(level: string)
    requires level !in Continuum
    ensures Increase(level) == "low"
    ensures Lower(level) == level
  {
  }
}
