/** The anchor dictionary: ten padding markers followed by 2048 data words. */
module Words {
  import opened Wrappers

  const BITS_PER_WORD: nat := 11
  const N_PADDING_WORDS: nat := BITS_PER_WORD - 1
  const N_DATA_WORDS: nat := 2048
  const DICT_SIZE: nat := N_PADDING_WORDS + N_DATA_WORDS

  type WordIndex = i: nat | i < DICT_SIZE

  predicate IsPaddingMarker(index: nat) {
    index < N_PADDING_WORDS
  }

  const ANCHOR_SEPARATOR: char := '\U{00A7}'

  /** What the word list on disk guarantees: the right size, no duplicates, and
      only non-empty words of letters, so no hyphens, separators or line breaks. */
  ghost predicate IsDictionary(words: seq<string>) {
    && |words| == DICT_SIZE
    && (forall i, j :: 0 <= i < j < |words| ==> words[i] != words[j])
    && (forall i :: 0 <= i < |words| ==> IsWord(words[i]))
  }

  ghost predicate IsWord(word: string) {
    word != "" && '-' !in word && ANCHOR_SEPARATOR !in word && '\n' !in word
  }

  function WordsOf(words: seq<string>, indices: seq<WordIndex>): (parts: seq<string>)
    requires IsDictionary(words)
    ensures |parts| == |indices|
    ensures forall i :: 0 <= i < |indices| ==> parts[i] == words[indices[i]]
  {
    seq(|indices|, i requires 0 <= i < |indices| => words[indices[i]])
  }

  /** Looks a word up in the list. */
  function IndexOf(words: seq<string>, w: string, from: nat := 0): (r: Option<nat>)
    requires from <= |words|
    ensures r.Some? ==> from <= r.value < |words| && words[r.value] == w
    ensures r.None? ==> w !in words[from..]
    decreases |words| - from
  {
    if from == |words| then None
    else if words[from] == w then Some(from)
    else IndexOf(words, w, from + 1)
  }
}
