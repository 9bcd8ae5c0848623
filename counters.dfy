/**
 * `collections.Counter` over a list of words, as a map from word to count.
 * Its iteration order (first-seen order of the words) is not represented.
 */
module Counters {

  type Counter = map<string, nat>

  /** The number of times `w` occurs in `words`. */
  function Occurrences(words: seq<string>, w: string): (n: nat)
    ensures n <= |words|
    ensures n > 0 <==> w in words
  {
    if words == [] then 0
    else
      var init := words[..|words| - 1];
      assert words == init + [words[|words| - 1]];
      Occurrences(init, w) + (if words[|words| - 1] == w then 1 else 0)
  }

  /** `Counter(words)`: one key per distinct word, mapped to how often it occurs. */
  function Tally(words: seq<string>): (c: Counter)
    ensures forall w :: w in c <==> w in words
    ensures forall w :: w in c ==> 1 <= c[w] <= |words|
  {
    map w | w in words :: Occurrences(words, w)
  }

  /** `Counter(words)`: one pass over the words, adding one to the count of each. */
  method CountWords(words: seq<string>) returns (counter: Counter)
    ensures forall w :: w in counter <==> w in words
    ensures forall w :: w in counter ==> counter[w] == Occurrences(words, w)
  {
    counter := map[];
    for j := 0 to |words|
      invariant counter == Tally(words[..j])
    {
      assert words[..j + 1] == words[..j] + [words[j]];
      TallyAppend(words[..j], words[j]);
      counter := counter[words[j] := (if words[j] in counter then counter[words[j]] else 0) + 1];
    }
    assert words[..|words|] == words;
  }

  /** `sum(counter.values())`. */
  ghost function Total(c: Counter): nat
    decreases |c|
  {
    if c == map[] then 0
    else
      assert exists w :: w in c.Keys;
      var w :| w in c;
      c[w] + Total(c - {w})
  }

  /** Counting one more `x` raises the count of `x` by one and leaves every other count alone. */
  lemma TallyAppend(words: seq<string>, x: string)
    ensures var c := Tally(words);
      Tally(words + [x]) == c[x := (if x in c then c[x] else 0) + 1]
  {
    assert (words + [x])[..|words|] == words;
  }

  /** The total does not depend on which key `Total` happens to take out first. */
  lemma {:induction false} TotalRemove(c: Counter, k: string)
    requires k in c
    ensures Total(c) == c[k] + Total(c - {k})
    decreases |c|
  {
    assert exists w :: w in c.Keys;
    var w :| w in c && Total(c) == c[w] + Total(c - {w});
    if w != k {
      TotalRemove(c - {w}, k);
      TotalRemove(c - {k}, w);
      assert c - {w} - {k} == c - {k} - {w};
    }
  }

  /** The counts of `Counter(words)` add up to the number of words. */
  lemma {:induction false} TallyTotal(words: seq<string>)
    ensures Total(Tally(words)) == |words|
  {
    if words != [] {
      var init, x := words[..|words| - 1], words[|words| - 1];
      assert words == init + [x];
      TallyTotal(init);
      TallyAppend(init, x);
      var c := Tally(init);
      var v := (if x in c then c[x] else 0) + 1;
      TotalRemove(c[x := v], x);
      assert c[x := v] - {x} == c - {x};
      if x in c {
        TotalRemove(c, x);
      } else {
        assert c - {x} == c;
      }
    }
  }
}
