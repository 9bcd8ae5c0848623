/** `find_difference`: the words of one counter whose key the reference counter lacks. */
module Difference {
  import opened Counters

  /** The counter `find_difference` builds: presence in the reference is all that matters. */
  function Difference(objectCounter: Counter, refCounter: Counter): (diff: Counter)
    ensures forall w :: w in diff <==> w in objectCounter && w !in refCounter
    ensures forall w :: w in diff ==> diff[w] == objectCounter[w]
  {
    map w | w in objectCounter && w !in refCounter :: objectCounter[w]
  }

  /**
   * `find_difference`: walks the entries of `objectCounter` and copies into a
   * fresh counter every entry whose word is not a key of `refCounter`.
   */
  method FindDifference(objectCounter: Counter, refCounter: Counter) returns (diff: Counter)
    ensures forall w :: w in diff <==> w in objectCounter && w !in refCounter
    ensures forall w :: w in diff ==> diff[w] == objectCounter[w]
    ensures diff == Difference(objectCounter, refCounter)
  {
    diff := map[];
    var remaining := objectCounter.Keys;
    while remaining != {}
      invariant remaining <= objectCounter.Keys
      invariant forall w :: w in diff <==> w in objectCounter && w !in remaining && w !in refCounter
      invariant forall w :: w in diff ==> diff[w] == objectCounter[w]
      decreases remaining
    {
      var word :| word in remaining;
      if word !in refCounter {
        diff := diff[word := objectCounter[word]];
      }
      remaining := remaining - {word};
    }
  }

  /** Against an empty reference every entry survives unchanged. */
  lemma DifferenceWithEmptyReference(objectCounter: Counter)
    ensures Difference(objectCounter, map[]) == objectCounter
  {
  }

  /** A counter compared with itself leaves nothing. */
  lemma DifferenceWithItself(objectCounter: Counter)
    ensures Difference(objectCounter, objectCounter) == map[]
  {
  }

  /** No word of the result is a word of the reference. */
  lemma DifferenceDisjointFromReference(objectCounter: Counter, refCounter: Counter)
    ensures Difference(objectCounter, refCounter).Keys !! refCounter.Keys
  {
  }

  /** Only the reference's keys matter, never its counts. */
  lemma DifferenceIgnoresReferenceCounts(objectCounter: Counter, ref1: Counter, ref2: Counter)
    requires ref1.Keys == ref2.Keys
    ensures Difference(objectCounter, ref1) == Difference(objectCounter, ref2)
  {
  }

  /** The result is a sub-counter of the object counter: same counts, fewer keys. */
  lemma DifferenceIsSubCounter(objectCounter: Counter, refCounter: Counter)
    ensures Difference(objectCounter, refCounter).Keys <= objectCounter.Keys
    ensures |Difference(objectCounter, refCounter)| <= |objectCounter|
  {
    var diff := Difference(objectCounter, refCounter);
    assert diff.Keys <= objectCounter.Keys;
    SubsetSize(diff.Keys, objectCounter.Keys);
  }

  lemma {:induction false} SubsetSize(a: set<string>, b: set<string>)
    requires a <= b
    ensures |a| <= |b|
    decreases |b|
  {
    if a != {} {
      var x :| x in a;
      SubsetSize(a - {x}, b - {x});
    }
  }
}
