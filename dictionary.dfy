/**
 * The word list: `load_dictionary_words` with the file read replaced by its
 * lines. Each line is stripped and lower-cased, blank lines are dropped, then
 * the length options and `str.isalpha()` select the words.
 */
module Dictionary {
  import opened Wrappers
  import opened Seqs
  import opened Text

  /** `[line.strip().lower() for line in f if line.strip()]`. */
  function Normalize(lines: seq<string>): (words: seq<string>)
    ensures |words| <= |lines|
  {
    if lines == [] then []
    else
      var t := Strip(lines[0]);
      var rest := Normalize(lines[1..]);
      if t != "" then [Lower(t)] + rest else rest
  }

  /** Every normalized line is non-empty, stripped and free of upper case. */
  lemma {:induction false} NormalizeIsClean(lines: seq<string>)
    ensures forall k :: 0 <= k < |Normalize(lines)| ==> IsCleanLine(Normalize(lines)[k])
  {
    if lines != [] {
      var head, tail := lines[0], lines[1..];
      NormalizeIsClean(tail);
      assert lines == [head] + tail;
      NormalizeCons(head, tail);
      var words, rest := Normalize(lines), Normalize(tail);
      if Strip(head) != "" {
        NormalizedLineClean(head);
        forall k | 0 <= k < |words|
          ensures IsCleanLine(words[k])
        {
          if k > 0 {
            assert words[k] == rest[k - 1];
          }
        }
      } else {
        assert words == rest;
      }
    }
  }

  /** A line that is not blank normalizes to a clean one. */
  lemma NormalizedLineClean(line: string)
    requires Strip(line) != ""
    ensures IsCleanLine(Lower(Strip(line)))
  {
    LowerKeepsStripped(Strip(line));
  }

  /** Proof helper: `Normalize` unfolded once on a list written as first line and rest. */
  lemma NormalizeCons(line: string, lines: seq<string>)
    ensures Normalize([line] + lines) == (if Strip(line) != "" then [Lower(Strip(line))] else []) + Normalize(lines)
  {
    assert ([line] + lines)[0] == line && ([line] + lines)[1..] == lines;
  }

  /** What a normalized line looks like: non-empty, stripped, no upper case. */
  predicate IsCleanLine(w: string) {
    w != "" && IsStripped(w) && NoUpper(w)
  }

  /** The length option in force: exact `length`, or else the `min_length` and
      `max_length` bounds that are given. */
  predicate LengthMatches(w: string, length: Option<int>, minLength: Option<int>, maxLength: Option<int>) {
    if length.Some? then |w| == length.value
    else (minLength.None? || |w| >= minLength.value) && (maxLength.None? || |w| <= maxLength.value)
  }

  /** What makes a normalized line one of the loaded words. */
  predicate Selected(w: string, length: Option<int>, minLength: Option<int>, maxLength: Option<int>) {
    LengthMatches(w, length, minLength, maxLength) && IsAlpha(w)
  }

  /** The length filters of `load_dictionary_words`: the exact length when it
      is given, otherwise the minimum and then the maximum, each when given. */
  function SizeFilter(words: seq<string>, length: Option<int>, minLength: Option<int>, maxLength: Option<int>): (kept: seq<string>)
    ensures |kept| <= |words|
  {
    if length.Some? then Filter(words, (w: string) => |w| == length.value)
    else
      var atLeast := if minLength.Some? then Filter(words, (w: string) => |w| >= minLength.value) else words;
      if maxLength.Some? then Filter(atLeast, (w: string) => |w| <= maxLength.value) else atLeast
  }

  /** The length filters together are one filter by `LengthMatches`. */
  lemma SizeFilterIsOneFilter(words: seq<string>, length: Option<int>, minLength: Option<int>, maxLength: Option<int>)
    ensures SizeFilter(words, length, minLength, maxLength)
         == Filter(words, (w: string) => LengthMatches(w, length, minLength, maxLength))
  {
    var matches := (w: string) => LengthMatches(w, length, minLength, maxLength);
    if length.Some? {
      FilterSame(words, (w: string) => |w| == length.value, matches);
    } else if minLength.Some? && maxLength.Some? {
      var lo := (w: string) => |w| >= minLength.value;
      var hi := (w: string) => |w| <= maxLength.value;
      FilterFusion(words, lo, hi, matches);
    } else if minLength.Some? {
      FilterSame(words, (w: string) => |w| >= minLength.value, matches);
    } else if maxLength.Some? {
      FilterSame(words, (w: string) => |w| <= maxLength.value, matches);
    } else {
      FilterAll(words, matches);
    }
  }

  /** The filter chain of `load_dictionary_words`: normalize, length filters, `isalpha`. */
  function LoadWords(lines: seq<string>, length: Option<int>, minLength: Option<int>, maxLength: Option<int>): (words: seq<string>)
    ensures words == Filter(Normalize(lines), (w: string) => Selected(w, length, minLength, maxLength))
    ensures forall k :: 0 <= k < |words| ==>
              words[k] in Normalize(lines) && Selected(words[k], length, minLength, maxLength)
    ensures forall k :: 0 <= k < |Normalize(lines)| && Selected(Normalize(lines)[k], length, minLength, maxLength) ==>
              Normalize(lines)[k] in words
    ensures forall k :: 0 <= k < |words| ==> IsLowerWord(words[k])
  {
    var normalized := Normalize(lines);
    var words := Filter(SizeFilter(normalized, length, minLength, maxLength), IsAlpha);
    var matches := (w: string) => LengthMatches(w, length, minLength, maxLength);
    SizeFilterIsOneFilter(normalized, length, minLength, maxLength);
    var selected := (w: string) => Selected(w, length, minLength, maxLength);
    FilterFusion(normalized, matches, IsAlpha, selected);
    FilterMembers(normalized, selected);
    NormalizeIsClean(lines);
    forall k | 0 <= k < |words|
      ensures IsLowerWord(words[k])
    {
      assert IsCleanLine(words[k]);
      AlphaWithoutUpper(words[k]);
    }
    words
  }

  /** The loaded words keep the order of the lines they come from. */
  lemma LoadWordsKeepsOrder(lines: seq<string>, length: Option<int>, minLength: Option<int>, maxLength: Option<int>)
    ensures IsSubsequence(LoadWords(lines, length, minLength, maxLength), Normalize(lines))
  {
    FilterIsSubsequence(Normalize(lines), (w: string) => Selected(w, length, minLength, maxLength));
  }

  /** A dictionary already made of lower-case words that meet the length
      option loads unchanged. */
  lemma {:induction false} CleanDictionaryLoadsUnchanged(lines: seq<string>, length: Option<int>, minLength: Option<int>, maxLength: Option<int>)
    requires forall k :: 0 <= k < |lines| ==> IsLowerWord(lines[k])
    requires forall k :: 0 <= k < |lines| ==> LengthMatches(lines[k], length, minLength, maxLength)
    ensures LoadWords(lines, length, minLength, maxLength) == lines
  {
    NormalizeClean(lines);
    FilterAll(lines, (w: string) => Selected(w, length, minLength, maxLength));
  }

  lemma {:induction false} NormalizeClean(lines: seq<string>)
    requires forall k :: 0 <= k < |lines| ==> IsLowerWord(lines[k])
    ensures Normalize(lines) == lines
  {
    if lines != [] {
      var w := lines[0];
      LowerWordFacts(w);
      StrippedIsFixpoint(w);
      LowerOfLower(w);
      NormalizeClean(lines[1..]);
    }
  }
}
