/** `fuzzySearch(text, term)`: a term matches a text when it is a substring
    of it, or when each of its space-separated words is a substring of the
    text or is close, in edit distance, to one of the text's words. */
module Fuzzy {
  import opened Text
  import opened EditDistance

  /** How many edits a query word may be away from a word of the text:
      one fifth of its length, rounded down, and at least 1. */
  function Tolerance(word: string): (t: nat)
    ensures t >= 1
    ensures |word| < 10 <==> t == 1
    ensures |word| >= 10 ==> t * 5 <= |word| < (t + 1) * 5
  {
    if |word| / 5 > 1 then |word| / 5 else 1
  }

  /** One word of the query passes: it is a substring of the text, or some
      word of the text is within the word's tolerance of it. */
  function WordMatches(text: string, word: string): bool {
    Contains(text, word) ||
    exists textWord :: textWord in Split(text, ' ') && Dist(textWord, word) <= Tolerance(word)
  }

  /** Every word of the query passes. */
  function AllWordsMatch(text: string, term: string): bool {
    forall word :: word in Split(term, ' ') ==> WordMatches(text, word)
  }

  /** `fuzzySearch(text, term)`. */
  function FuzzySearch(text: string, term: string): bool {
    Contains(text, term) || AllWordsMatch(text, term)
  }

  /** The whole-term substring test is a shortcut only: a text matches a
      term exactly when every word of the term passes. */
  lemma MatchIffAllWordsMatch(text: string, term: string)
    ensures FuzzySearch(text, term) <==> AllWordsMatch(text, term)
  {
    if Contains(text, term) {
      ContainedTermPasses(text, term);
    }
  }

  /** Every word of a contained term is contained too. */
  lemma ContainedTermPasses(text: string, term: string)
    requires Contains(text, term)
    ensures AllWordsMatch(text, term)
  {
    forall word | word in Split(term, ' ') ensures WordMatches(text, word) {
      ContainsTransitive(text, term, word);
    }
  }

  /** Any text matches a term it contains; in particular every text matches
      the empty term. */
  lemma SubstringMatches(pre: string, term: string, post: string)
    ensures FuzzySearch(pre + term + post, term)
  {
    var text := pre + term + post;
    assert text[|pre|..|pre| + |term|] == term;
    assert OccursAt(text, term, |pre|);
  }

  /** A query that is one word (no space) matches exactly when that word
      passes. */
  lemma SingleWordQuery(text: string, word: string)
    requires ' ' !in word
    ensures FuzzySearch(text, word) <==> WordMatches(text, word)
  {
    SplitNoSeparator(word, ' ');
    MatchIffAllWordsMatch(text, word);
  }

  /** Joining two queries with a space matches exactly the texts that match
      both: each extra word narrows the results. */
  lemma ConjunctiveQuery(text: string, term1: string, term2: string)
    ensures FuzzySearch(text, term1 + " " + term2) <==> FuzzySearch(text, term1) && FuzzySearch(text, term2)
  {
    SplitConcat(term1, ' ', term2);
    MatchIffAllWordsMatch(text, term1 + " " + term2);
    MatchIffAllWordsMatch(text, term1);
    MatchIffAllWordsMatch(text, term2);
  }

  /** One failing word sinks the whole query. */
  lemma FailingWordFails(text: string, term: string, word: string)
    requires word in Split(term, ' ') && !WordMatches(text, word)
    ensures !FuzzySearch(text, term)
  {
    MatchIffAllWordsMatch(text, term);
  }

  /** Runs of spaces in the query are harmless: the empty words they
      produce always pass. A word of the text always passes as well. */
  lemma EmptyWordPasses(text: string, word: string)
    requires word == "" || word in Split(text, ' ')
    ensures WordMatches(text, word)
  {
    assert OccursAt(text, "", 0);
  }

  /** A query word that misspells a text word by leaving out one character
      still matches it. */
  lemma OneDeletionMatches(x: string, c: char, y: string)
    requires ' ' !in x + [c] + y
    ensures FuzzySearch(x + [c] + y, x + y)
  {
    var text, word := x + [c] + y, x + y;
    assert ' ' !in word by {
      assert forall k :: 0 <= k < |word| ==> word[k] in text;
    }
    SplitNoSeparator(text, ' ');
    DistDeleteOne(x, c, y);
    assert text in Split(text, ' ');
    SingleWordQuery(text, word);
  }

  /** "microsft" finds "microsoft". */
  lemma MisspelledExample()
    ensures FuzzySearch("microsoft", "microsft")
  {
    OneDeletionMatches("micros", 'o', "ft");
    assert "micros" + ['o'] + "ft" == "microsoft";
    assert "micros" + "ft" == "microsft";
  }

  /** Two space-free words joined by a space split back into the two. */
  lemma TwoWords(w1: string, w2: string)
    requires ' ' !in w1 && ' ' !in w2
    ensures Split(w1 + " " + w2, ' ') == [w1, w2]
  {
    SplitConcat(w1, ' ', w2);
    SplitNoSeparator(w1, ' ');
    SplitNoSeparator(w2, ' ');
  }

  /** The words of "acme xyz". */
  lemma ExampleWords()
    ensures Split("acme xyz", ' ') == ["acme", "xyz"]
  {
    TwoWords("acme", "xyz");
    assert "acme" + " " + "xyz" == "acme xyz";
  }

  /** A query word of two or more characters, none of which occurs in the
      text, never passes: it is no substring, and every word of the text is
      at least its length away from it, which exceeds its tolerance. */
  lemma ForeignWordFails(text: string, word: string)
    requires |word| >= 2
    requires forall k :: 0 <= k < |word| ==> word[k] !in text
    ensures !WordMatches(text, word)
  {
    ContainsChars(text, word);
    assert word[0] !in text;
    assert !Contains(text, word);
    forall textWord | textWord in Split(text, ' ')
      ensures Dist(textWord, word) > Tolerance(word)
    {
      ContainsChars(text, textWord);
      DistNoCommonChar(textWord, word);
    }
  }

  /** "xyz" passes neither as a substring of "acme corp" nor as a near
      miss of "acme" or "corp". */
  lemma UnmatchedWord()
    ensures !WordMatches("acme corp", "xyz")
  {
    assert forall k :: 0 <= k < |"xyz"| ==> "xyz"[k] !in "acme corp";
    ForeignWordFails("acme corp", "xyz");
  }

  /** "acme xyz" does not find "acme corp": its word "xyz" fails. */
  lemma UnmatchedWordExample()
    ensures !FuzzySearch("acme corp", "acme xyz")
  {
    ExampleWords();
    UnmatchedWord();
    FailingWordFails("acme corp", "acme xyz", "xyz");
  }

  /** A one-character query matches any text with a one-character word,
      since the two are at most one edit apart. A query that is a single
      space splits into two empty words, which always pass. */
  lemma OneCharWordMatches(text: string, c: char, q: char)
    requires [c] in Split(text, ' ')
    ensures FuzzySearch(text, [q])
  {
    if q == ' ' {
      SplitConcat([], ' ', []);
      assert [] + [' '] + [] == [q];
      SplitNoSeparator([], ' ');
      forall word | word in Split([q], ' ') ensures WordMatches(text, word) {
        EmptyWordPasses(text, word);
      }
      MatchIffAllWordsMatch(text, [q]);
    } else {
      DistBounds([c], [q]);
      SingleWordQuery(text, [q]);
    }
  }

  /** "s & p global" is found by the query "*", through its one-letter
      word "s". */
  lemma WildcardExample()
    ensures FuzzySearch("s & p global", "*")
  {
    var text := "s & p global";
    assert text == "s" + [' '] + "& p global";
    SplitConcat("s", ' ', "& p global");
    SplitNoSeparator("s", ' ');
    assert ['s'] in Split(text, ' ');
    OneCharWordMatches(text, 's', '*');
    assert ['*'] == "*";
  }

  /** "xyz" does not find "s & p global": none of its letters occurs
      there. */
  lemma ForeignQueryExample(text: string, term: string)
    requires text == "s & p global" && term == "xyz"
    ensures !FuzzySearch(text, term)
  {
    assert forall k :: 0 <= k < |term| ==> term[k] !in text;
    ForeignWordFails(text, term);
    SingleWordQuery(text, term);
  }
}
