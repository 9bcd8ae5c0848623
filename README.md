# lemmatize_comp in Dafny

This project models the logic of `main.py`, a tool that compares the lemmatized vocabulary of two
text files. It models three parts:

- `extract_lemmas` keeps a token only if it passes a fixed chain of guards. Punctuation and
  whitespace are dropped, then number-like and all-digit tokens. The lemma is then lower-cased and
  dropped if it is empty or has no alphanumeric character. The surviving lemmas are appended to a
  list, and the list is counted with `collections.Counter`.
- `find_difference` keeps the entries of the object counter whose word is not a key of the
  reference counter. Each kept word carries its object-side count.
- `save_to_csv` writes its rows in the order given by `Counter.most_common()`: the counter's
  (word, frequency) entries in non-increasing frequency.

The tokenizer and lemmatizer (spaCy) are outside the model. Their output is a sequence of
`Lemmatize.Token` records. Each record carries the five attributes the filter reads: `text`,
`is_punct`, `is_space`, `like_num` and `lemma_`, the last one named `lemmaForm` here because
`lemma` is a Dafny keyword. A counter is a `map<string, nat>` (`Counters.Counter`).

Modules:

- `Text`: the character tests (`isdigit`, `isalnum`, `lower`).
- `Counters`: `Counter(words)` and the sum of a counter's values.
- `Lemmatize`: `extract_lemmas`.
- `Difference`: `find_difference`.
- `Rows`: the row order of `save_to_csv`.

The loops of `extract_lemmas` and `find_difference` are methods with loop invariants. Each method is
proved against a specification function (`LemmaCounts`, `Difference`). The properties of the
tool are lemmas about those functions.

## Model

| member | source | states |
|---|---|---|
| `Lemmatize.Keep` | main.py:36-50 | A punctuation or whitespace token is dropped. A number-like or all-digit token is dropped. A kept token yields its lower-cased lemma, which is non-empty and has an alphanumeric character. A dropped token meets one of the guards. |
| `Lemmatize.Words` | main.py:32-50 | The list `words` has at most one entry per token. Every entry is non-empty, lower case and has an alphanumeric character. |
| `Lemmatize.ExtractLemmas` | main.py:22-52 | A word is a key exactly when some token passes every guard with that lower-cased lemma. Its count is the number of such tokens. The result equals `LemmaCounts(tokens)`. |
| `Lemmatize.PunctuationNeverCounted` | main.py:36-37 | Inserting a punctuation or whitespace token anywhere in the input leaves the whole counter unchanged. |
| `Lemmatize.NumberNeverCounted` | main.py:40-41 | Inserting a `like_num` or all-digit token anywhere in the input leaves the whole counter unchanged. |
| `Lemmatize.DroppedTokenIgnored` | main.py:34-48 | Inserting any token the guards drop leaves the whole counter unchanged. |
| `Lemmatize.KeysAreLemmas` | main.py:44-50 | Every key is the lower-cased lemma of some input token that passes the guards. Every key is non-empty, lower case and has an alphanumeric character. Every count is at least 1. |
| `Lemmatize.CountIsPassingTokens` | main.py:32-52 | A word is a key exactly when at least one token passes with that lemma. Its count equals the number of such tokens. |
| `Lemmatize.TotalIsPassedTokens` | main.py:32-52 | The counts add up to the number of tokens that pass every guard. |
| `Lemmatize.WordsAppend` | main.py:34-50 | The filter handles each token on its own: the words of a concatenation are the words of each part, in order. |
| `Text.LowerKeepsAlnum` | main.py:44-47 | Lower-casing a lemma neither adds nor removes alphanumeric characters. |
| `Text.IsDigits` | main.py:40 | `token.text.isdigit()`: false on the empty string; a digit-only text is non-empty, alphanumeric and has no upper-case letter. |
| `Text.HasAlnum` | main.py:47 | `any(c.isalnum() for c in lemma)`: false on the empty string, so the `not lemma` test adds nothing; true as soon as the first character is alphanumeric. |
| `Text.LowerChar` | main.py:44 | An upper-case ASCII letter becomes the same letter in lower case; any other character is unchanged; the result is never upper case and is alphanumeric exactly when the input is. |
| `Lemmatize.Emitted` | main.py:47-50 | One token adds one entry to `words` exactly when it passes every guard, and that entry is its lower-cased lemma: non-empty, lower case and with an alphanumeric character. |
| `Text.Lower` | main.py:44 | `str.lower` keeps the length, lower-cases each character, and leaves no upper-case letter. |
| `Counters.Tally` | main.py:52 | `Counter(words)` has one key per distinct word, and each count lies between 1 and the number of words. |
| `Counters.CountWords` | main.py:52 | Counting the words one at a time gives each distinct word, and only those, with its number of occurrences. |
| `Counters.TallyTotal` | main.py:52 | The counts of `Counter(words)` add up to the number of words. |
| `Difference.Difference` | main.py:69-75 | A word is in the result exactly when it is a key of the object counter and not of the reference counter. It carries the object counter's count. |
| `Difference.FindDifference` | main.py:69-75 | The loop over the object counter's entries builds exactly `Difference(objectCounter, refCounter)`: the same keys-iff and the object-side counts. |
| `Difference.DifferenceWithEmptyReference` | main.py:71-75 | Against an empty reference the object counter comes back unchanged. |
| `Difference.DifferenceWithItself` | main.py:71-75 | A counter compared with itself gives an empty counter. |
| `Difference.DifferenceDisjointFromReference` | main.py:72-74 | No key of the result is a key of the reference. |
| `Difference.DifferenceIgnoresReferenceCounts` | main.py:73-74 | Two references with the same keys give the same result, whatever their counts. |
| `Difference.DifferenceIsSubCounter` | main.py:71-75 | The result's keys are among the object counter's keys, so it has no more entries than the object counter. |
| `Rows.MostCommon` | main.py:59-60 | The rows are in non-increasing frequency. A row appears exactly when it is a (word, count) entry of the counter. No word appears twice, and there is one row per key. |

## Left out

- spaCy model loading, tokenization and lemmatization (main.py:13, main.py:31, main.py:104). This is a foreign library. Its output is the input sequence of `Token` records, with the flags taken as given.
- `load_text`, directory creation and CSV serialisation (main.py:16-19, main.py:57, main.py:62-66). These are file I/O. Only the row order of `save_to_csv` is modelled.
- The command line and the console summary in `main` (main.py:78-137). This is plumbing around the modelled functions.
- Text.IsDigits, Text.IsAlnum, Text.Lower: restricted to ASCII. Python's `str.isdigit`, `str.isalnum` and `str.lower` follow Unicode tables. A non-ASCII letter or digit counts as non-alphanumeric here and is left unchanged by lower-casing.
- Counter order: a map keeps no order. The first-seen key order of Python's `Counter` is not modelled. That order decides only how `most_common` orders rows of equal frequency.
- Rows.MostCommon: does not state the tie order among equal frequencies. It takes the entries in an arbitrary order. `Insert` keeps rows of equal frequency in insertion order, as Python's stable sort does.
- Difference.FindDifference: Dafny maps are values, so "the inputs are not modified" holds by construction. The aliasing of Python's mutable `Counter` objects is not modelled.
