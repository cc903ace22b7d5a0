/**
 * The passphrase validators of day04.py and its copy 17/day04.py: a phrase
 * is a list of words; `count_no_dups` counts the phrases whose words are all
 * different, `count_no_anagrams` those in which no two words are anagrams
 * (equal letter counts, `Counter(w1) == Counter(w2)`).
 */
module Passphrase {
  import opened PyLib

  /** `len(phrase) == len(set(phrase))`. */
  predicate NoDups(phrase: seq<string>) {
    |phrase| == |Elements(phrase)|
  }

  /** `Counter(w1) == Counter(w2)`: the same letters, each the same number of times. */
  predicate Anagrams(w1: string, w2: string) {
    multiset(w1) == multiset(w2)
  }

  /** Some pair of positions `i < j` holds two anagrams. */
  predicate HasAnagramPair(phrase: seq<string>) {
    exists i, j :: 0 <= i < j < |phrase| && Anagrams(phrase[i], phrase[j])
  }

  predicate NoAnagrams(phrase: seq<string>) {
    !HasAnagramPair(phrase)
  }

  /** `count_no_dups(phrases)`. */
  method CountNoDups(phrases: seq<seq<string>>) returns (valid: nat)
    ensures valid == CountIf(phrases, NoDups)
  {
    valid := 0;
    for t := 0 to |phrases|
      invariant valid == CountIf(phrases[..t], NoDups)
    {
      assert phrases[..t + 1][..t] == phrases[..t];
      var phrase := phrases[t];
      if |phrase| == |Elements(phrase)| {
        valid := valid + 1;
      }
    }
    assert phrases[..|phrases|] == phrases;
  }

  /** The inner loop of `count_no_anagrams`: walk `combinations(phrase, 2)` and stop at the first pair of anagrams. */
  method FindAnagramPair(phrase: seq<string>) returns (anagram: bool)
    ensures anagram <==> HasAnagramPair(phrase)
  {
    anagram := false;
    for i := 0 to |phrase|
      invariant forall a, b :: 0 <= a < i && a < b < |phrase| ==> !Anagrams(phrase[a], phrase[b])
    {
      for j := i + 1 to |phrase|
        invariant forall a, b :: 0 <= a < |phrase| && a < b < |phrase| && (a < i || (a == i && b < j)) ==> !Anagrams(phrase[a], phrase[b])
      {
        anagram := multiset(phrase[i]) == multiset(phrase[j]);
        if anagram {
          return;
        }
      }
    }
  }

  /** `count_no_anagrams(phrases)`. */
  method CountNoAnagrams(phrases: seq<seq<string>>) returns (valid: nat)
    ensures valid == CountIf(phrases, NoAnagrams)
  {
    valid := 0;
    for t := 0 to |phrases|
      invariant valid == CountIf(phrases[..t], NoAnagrams)
    {
      assert phrases[..t + 1][..t] == phrases[..t];
      var anagram := FindAnagramPair(phrases[t]);
      if !anagram {
        valid := valid + 1;
      }
    }
    assert phrases[..|phrases|] == phrases;
  }

  // ----------------------------------------------------------------
  // Properties

  /** `len(phrase) == len(set(phrase))` holds exactly when the words are pairwise different. */
  lemma NoDupsDistinct(phrase: seq<string>)
    ensures NoDups(phrase) <==> Distinct(phrase)
  {
    ElementsSize(phrase);
  }

  /** A phrase without anagram pairs has no repeated word, since a word is an anagram of itself. */
  lemma NoAnagramsNoDups(phrase: seq<string>)
    requires NoAnagrams(phrase)
    ensures NoDups(phrase)
  {
    NoDupsDistinct(phrase);
    forall i, j | 0 <= i < j < |phrase| ensures phrase[i] != phrase[j] {
      assert !Anagrams(phrase[i], phrase[j]);
    }
  }

  /** Phrases of no or one word pass both checks. */
  lemma ShortPhrasesValid(phrase: seq<string>)
    requires |phrase| <= 1
    ensures NoDups(phrase) && NoAnagrams(phrase)
  {
    NoDupsDistinct(phrase);
  }

  /** Two different words that are anagrams pass the first check but not the second. */
  lemma AnagramPairSplitsCounts(w1: string, w2: string)
    requires w1 != w2 && Anagrams(w1, w2)
    ensures NoDups([w1, w2]) && !NoAnagrams([w1, w2])
  {
    NoDupsDistinct([w1, w2]);
    assert Anagrams([w1, w2][0], [w1, w2][1]);
  }

  /** The anagram count never exceeds the duplicate count, which never exceeds the number of phrases. */
  lemma CountsOrdered(phrases: seq<seq<string>>)
    ensures CountIf(phrases, NoAnagrams) <= CountIf(phrases, NoDups) <= |phrases|
  {
    forall k | 0 <= k < |phrases| && NoAnagrams(phrases[k]) ensures NoDups(phrases[k]) {
      NoAnagramsNoDups(phrases[k]);
    }
    CountIfMono(phrases, NoAnagrams, NoDups);
  }
}
