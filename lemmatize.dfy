/**
 * `extract_lemmas`: the token filter and the frequency count. The tokenizer
 * and lemmatizer are outside the model; their output is a sequence of
 * `Token` records whose flags are taken as given.
 */
module Lemmatize {
  import opened Wrappers
  import opened Text
  import opened Counters

  /** The token attributes the filter reads: `text`, `is_punct`, `is_space`, `like_num`, `lemma_` (here `lemmaForm`). */
  datatype Token = Token(text: string, isPunct: bool, isSpace: bool, likeNum: bool, lemmaForm: string)

  /**
   * The filter applied to one token: `Some` of the word to count, or `None`
   * when one of the guards drops the token. The guards are tried in order.
   */
  function Keep(t: Token): (r: Option<string>)
    ensures t.isPunct || t.isSpace ==> r == None
    ensures t.likeNum || IsDigits(t.text) ==> r == None
    ensures r.Some? ==> r.value == Lower(t.lemmaForm) && r.value != [] && HasAlnum(r.value)
    ensures r.None? ==> t.isPunct || t.isSpace || t.likeNum || IsDigits(t.text) || !HasAlnum(t.lemmaForm)
  {
    if t.isPunct || t.isSpace then None
    else if t.likeNum || IsDigits(t.text) then None
    else
      var word := Lower(t.lemmaForm);
      LowerKeepsAlnum(t.lemmaForm);
      if |word| == 0 || !HasAlnum(word) then None
      else Some(word)
  }

  /** The list `words` after the loop over the first `|tokens|` tokens. */
  function Words(tokens: seq<Token>): (words: seq<string>)
    ensures |words| <= |tokens|
    ensures forall i :: 0 <= i < |words| ==> words[i] != [] && HasAlnum(words[i]) && IsLowerCase(words[i])
  {
    if tokens == [] then []
    else
      Words(tokens[..|tokens| - 1]) + Emitted(tokens[|tokens| - 1])
  }

  /** What one token appends to `words`: its lower-cased lemma, or nothing. */
  function Emitted(t: Token): (words: seq<string>)
    ensures |words| <= 1
    ensures |words| == 1 <==> Keep(t).Some?
    ensures forall i :: 0 <= i < |words| ==> words[i] == Lower(t.lemmaForm)
    ensures forall i :: 0 <= i < |words| ==> words[i] != [] && HasAlnum(words[i]) && IsLowerCase(words[i])
  {
    match Keep(t)
    case Some(word) => [word]
    case None => []
  }

  /** What `extract_lemmas` returns for a token sequence. */
  function LemmaCounts(tokens: seq<Token>): Counter {
    Tally(Words(tokens))
  }

  /** The number of tokens that pass every guard and whose lower-cased lemma is `w`. */
  function PassCount(tokens: seq<Token>, w: string): nat {
    if tokens == [] then 0
    else (if Keep(tokens[0]) == Some(w) then 1 else 0) + PassCount(tokens[1..], w)
  }

  /** The number of tokens that pass every guard. */
  function Passed(tokens: seq<Token>): nat {
    if tokens == [] then 0
    else (if Keep(tokens[0]).Some? then 1 else 0) + Passed(tokens[1..])
  }

  /**
   * `extract_lemmas`: walks the tokens, appends the lower-cased lemma of each
   * surviving token to `words`, then counts `words`.
   */
  method ExtractLemmas(tokens: seq<Token>) returns (counter: Counter)
    ensures forall w :: w in counter <==> PassCount(tokens, w) > 0
    ensures forall w :: w in counter ==> counter[w] == PassCount(tokens, w)
    ensures counter == LemmaCounts(tokens)
  {
    var words: seq<string> := [];
    for i := 0 to |tokens|
      invariant words == Words(tokens[..i])
    {
      assert tokens[..i + 1][..i] == tokens[..i];
      var token := tokens[i];
      if token.isPunct || token.isSpace {
        continue;
      }
      if token.likeNum || IsDigits(token.text) {
        continue;
      }
      var word := Lower(token.lemmaForm);
      if |word| == 0 || !HasAlnum(word) {
        continue;
      }
      words := words + [word];
    }
    assert tokens[..|tokens|] == tokens;

    counter := CountWords(words);
    forall w ensures w in counter <==> PassCount(tokens, w) > 0
      ensures w in counter ==> counter[w] == PassCount(tokens, w)
    {
      CountIsPassingTokens(tokens, w);
    }
  }

  /** Filtering a concatenation filters each part. */
  lemma {:induction false} WordsAppend(a: seq<Token>, b: seq<Token>)
    ensures Words(a + b) == Words(a) + Words(b)
    decreases |b|
  {
    if b != [] {
      var b', t := b[..|b| - 1], b[|b| - 1];
      assert (a + b)[..|a + b| - 1] == a + b';
      assert (a + b)[|a + b| - 1] == t;
      calc {
        Words(a + b);
        Words(a + b') + Emitted(t);
        { WordsAppend(a, b'); }
        Words(a) + Words(b') + Emitted(t);
        Words(a) + Words(b);
      }
    } else {
      assert a + b == a;
    }
  }

  /** The words of `tokens` are those of its first token followed by those of the rest. */
  lemma WordsCons(tokens: seq<Token>)
    requires tokens != []
    ensures Words(tokens) == Words([tokens[0]]) + Words(tokens[1..])
  {
    assert tokens == [tokens[0]] + tokens[1..];
    WordsAppend([tokens[0]], tokens[1..]);
  }

  /** A token the filter drops can be taken out of the input without changing the result. */
  lemma DroppedTokenIgnored(before: seq<Token>, t: Token, after: seq<Token>)
    requires Keep(t) == None
    ensures LemmaCounts(before + [t] + after) == LemmaCounts(before + after)
  {
    assert [t][..0] == [];
    calc {
      Words(before + [t] + after);
      { WordsAppend(before + [t], after); }
      Words(before + [t]) + Words(after);
      { WordsAppend(before, [t]); }
      Words(before) + Words([t]) + Words(after);
      Words(before) + Words(after);
      { WordsAppend(before, after); }
      Words(before + after);
    }
  }

  /** A punctuation or whitespace token never contributes to any count. */
  lemma PunctuationNeverCounted(before: seq<Token>, t: Token, after: seq<Token>)
    requires t.isPunct || t.isSpace
    ensures LemmaCounts(before + [t] + after) == LemmaCounts(before + after)
  {
    DroppedTokenIgnored(before, t, after);
  }

  /** A number-like or all-digit token never contributes to any count. */
  lemma NumberNeverCounted(before: seq<Token>, t: Token, after: seq<Token>)
    requires t.likeNum || IsDigits(t.text)
    ensures LemmaCounts(before + [t] + after) == LemmaCounts(before + after)
  {
    DroppedTokenIgnored(before, t, after);
  }

  /** Each word's occurrences in `words` are the tokens that produced it. */
  lemma {:induction false} OccurrencesArePassCount(tokens: seq<Token>, w: string)
    ensures Occurrences(Words(tokens), w) == PassCount(tokens, w)
  {
    if tokens != [] {
      WordsCons(tokens);
      OccurrencesAppend(Words([tokens[0]]), Words(tokens[1..]), w);
      OccurrencesArePassCount(tokens[1..], w);
      assert [tokens[0]][..0] == [];
    }
  }

  lemma {:induction false} OccurrencesAppend(a: seq<string>, b: seq<string>, w: string)
    ensures Occurrences(a + b, w) == Occurrences(a, w) + Occurrences(b, w)
    decreases |b|
  {
    if b != [] {
      var b', x := b[..|b| - 1], b[|b| - 1];
      assert (a + b)[..|a + b| - 1] == a + b';
      assert (a + b)[|a + b| - 1] == x;
      OccurrencesAppend(a, b', w);
    } else {
      assert a + b == a;
    }
  }

  /** One word per token that passes the filter. */
  lemma {:induction false} WordsArePassed(tokens: seq<Token>)
    ensures |Words(tokens)| == Passed(tokens)
  {
    if tokens != [] {
      WordsCons(tokens);
      WordsArePassed(tokens[1..]);
      assert [tokens[0]][..0] == [];
    }
  }

  /**
   * A word is a key of the counter exactly when some token passes the filter
   * with that lemma, and its count is the number of such tokens.
   */
  lemma CountIsPassingTokens(tokens: seq<Token>, w: string)
    ensures w in LemmaCounts(tokens) <==> PassCount(tokens, w) > 0
    ensures w in LemmaCounts(tokens) ==> LemmaCounts(tokens)[w] == PassCount(tokens, w)
  {
    OccurrencesArePassCount(tokens, w);
  }

  /** The counts add up to the number of tokens that pass the filter. */
  lemma TotalIsPassedTokens(tokens: seq<Token>)
    ensures Total(LemmaCounts(tokens)) == Passed(tokens)
  {
    TallyTotal(Words(tokens));
    WordsArePassed(tokens);
  }

  /**
   * Every key is the lower-cased lemma of some input token that is neither
   * punctuation, whitespace nor a number; it is non-empty, contains an
   * alphanumeric character, is in lower case, and is counted at least once.
   */
  lemma {:induction false} KeysAreLemmas(tokens: seq<Token>, w: string)
    requires w in LemmaCounts(tokens)
    ensures LemmaCounts(tokens)[w] >= 1
    ensures w != [] && HasAlnum(w) && IsLowerCase(w)
    ensures exists i :: 0 <= i < |tokens| && Keep(tokens[i]) == Some(w) && w == Lower(tokens[i].lemmaForm)
  {
    OccurrencesArePassCount(tokens, w);
    PassCountWitness(tokens, w);
  }

  lemma {:induction false} PassCountWitness(tokens: seq<Token>, w: string)
    requires PassCount(tokens, w) > 0
    ensures exists i :: 0 <= i < |tokens| && Keep(tokens[i]) == Some(w)
  {
    if Keep(tokens[0]) != Some(w) {
      PassCountWitness(tokens[1..], w);
      var i :| 0 <= i < |tokens[1..]| && Keep(tokens[1..][i]) == Some(w);
      assert Keep(tokens[i + 1]) == Some(w);
    }
  }
}
