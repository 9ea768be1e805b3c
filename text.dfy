/** The JavaScript string operations the directory's search relies on:
    `includes`, `split` on a one-character separator and `toLowerCase`. */
module Text {

  /** `pat` occurs in `s` starting at index `i`. */
  predicate OccursAt(s: string, pat: string, i: int) {
    0 <= i && i + |pat| <= |s| && s[i..i + |pat|] == pat
  }

  /** `s.includes(pat)`: true iff `pat` occurs somewhere in `s`; the empty
      pattern occurs in every string. */
  function Contains(s: string, pat: string): (r: bool)
    ensures r <==> exists i :: OccursAt(s, pat, i)
    decreases |s|
  {
    if pat <= s then
      assert OccursAt(s, pat, 0);
      true
    else if |s| == 0 then
      false
    else
      ContainsTail(s, pat);
      Contains(s[1..], pat)
  }

  /** Occurrences in `s` other than at index 0 are exactly the occurrences
      in `s[1..]`, shifted by one. */
  lemma ContainsTail(s: string, pat: string)
    requires |s| > 0 && !(pat <= s)
    ensures (exists i :: OccursAt(s, pat, i)) <==> (exists i :: OccursAt(s[1..], pat, i))
  {
    if i :| OccursAt(s, pat, i) {
      assert i != 0;
      assert s[1..][i - 1..i - 1 + |pat|] == s[i..i + |pat|];
      assert OccursAt(s[1..], pat, i - 1);
    }
    if i :| OccursAt(s[1..], pat, i) {
      assert s[1..][i..i + |pat|] == s[i + 1..i + 1 + |pat|];
      assert OccursAt(s, pat, i + 1);
    }
  }

  /** Containment is transitive: a substring of a substring of `s` is a
      substring of `s`. */
  lemma ContainsTransitive(s: string, mid: string, pat: string)
    requires Contains(s, mid) && Contains(mid, pat)
    ensures Contains(s, pat)
  {
    var i :| OccursAt(s, mid, i);
    var k :| OccursAt(mid, pat, k);
    forall n | 0 <= n < |pat| ensures s[i + k + n] == pat[n] {
      assert pat[n] == mid[k..k + |pat|][n] == mid[k + n];
      assert mid[k + n] == s[i..i + |mid|][k + n] == s[i + k + n];
    }
    assert s[i + k..i + k + |pat|] == pat;
    assert OccursAt(s, pat, i + k);
  }

  /** Every character of a substring of `s` is a character of `s`. */
  lemma ContainsChars(s: string, pat: string)
    ensures Contains(s, pat) ==> forall k :: 0 <= k < |pat| ==> pat[k] in s
  {
    if Contains(s, pat) {
      var i :| OccursAt(s, pat, i);
      forall k | 0 <= k < |pat| ensures pat[k] in s {
        assert pat[k] == s[i..i + |pat|][k] == s[i + k];
      }
    }
  }

  /** `s.split(sep)` for a one-character separator: the maximal runs of
      non-separator characters between separators, in order, including
      the empty runs that adjacent separators and separators at either end
      produce. The empty string splits into one empty word. */
  function Split(s: string, sep: char): (r: seq<string>)
    ensures |r| >= 1
    ensures r[0] <= s
    ensures forall w :: w in r ==> sep !in w
    ensures forall w :: w in r ==> Contains(s, w)
    ensures Join(r, sep) == s
  {
    if |s| == 0 then [""]
    else
      var rest := Split(s[1..], sep);
      if s[0] == sep then
        assert Join([""] + rest, sep) == [sep] + Join(rest, sep);
        assert s == [s[0]] + s[1..];
        [""] + rest
      else
        var r := [[s[0]] + rest[0]] + rest[1..];
        assert r[1..] == rest[1..];
        assert Join(r, sep) == [s[0]] + Join(rest, sep) by {
          if |rest| > 1 {
            assert Join(rest, sep) == rest[0] + [sep] + Join(rest[1..], sep);
          }
        }
        assert s == [s[0]] + s[1..];
        r
  }

  /** `words.join(sep)`: the words with one separator between neighbours. */
  function Join(words: seq<string>, sep: char): string {
    if |words| == 0 then ""
    else if |words| == 1 then words[0]
    else words[0] + [sep] + Join(words[1..], sep)
  }

  /** A string without the separator splits into itself alone. */
  lemma {:induction false} SplitNoSeparator(s: string, sep: char)
    requires sep !in s
    ensures Split(s, sep) == [s]
  {
    if |s| > 0 {
      assert sep !in s[1..];
      SplitNoSeparator(s[1..], sep);
      assert s == [s[0]] + s[1..];
    }
  }

  /** Splitting `t1 + sep + t2` splits the two sides independently. */
  lemma {:induction false} SplitConcat(t1: string, sep: char, t2: string)
    ensures Split(t1 + [sep] + t2, sep) == Split(t1, sep) + Split(t2, sep)
  {
    var s := t1 + [sep] + t2;
    if |t1| == 0 {
      assert s[1..] == t2;
    } else {
      assert s[1..] == t1[1..] + [sep] + t2;
      SplitConcat(t1[1..], sep, t2);
    }
  }

  /** Splitting inverts joining words that do not contain the separator. */
  lemma {:induction false} SplitJoin(words: seq<string>, sep: char)
    requires |words| >= 1
    requires forall w :: w in words ==> sep !in w
    ensures Split(Join(words, sep), sep) == words
  {
    if |words| == 1 {
      SplitNoSeparator(words[0], sep);
    } else {
      SplitJoin(words[1..], sep);
      SplitConcat(words[0], sep, Join(words[1..], sep));
      SplitNoSeparator(words[0], sep);
      assert words == [words[0]] + words[1..];
    }
  }

  /** ASCII lower-casing of one character. */
  function LowerChar(c: char): char {
    if 'A' <= c <= 'Z' then (c as int - 'A' as int + 'a' as int) as char else c
  }

  /** `s.toLowerCase()` on ASCII letters: same length, every upper-case
      letter replaced by its lower-case form and every other character kept. */
  function ToLower(s: string): (r: string)
    ensures |r| == |s|
    ensures forall k :: 0 <= k < |s| ==> !('A' <= r[k] <= 'Z')
    ensures forall k :: 0 <= k < |s| && 'A' <= s[k] <= 'Z' ==> r[k] == (s[k] as int + 32) as char
    ensures forall k :: 0 <= k < |s| && !('A' <= s[k] <= 'Z') ==> r[k] == s[k]
  {
    seq(|s|, k requires 0 <= k < |s| => LowerChar(s[k]))
  }
}
