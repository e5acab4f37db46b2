/**
 * The string operations the program applies to its input: `str.strip()`,
 * `str.lower()`, `str.isalpha()`, `str.split(",")`, restricted to ASCII.
 */
module Text {

  /** The ASCII characters `str.strip()` removes: space, tab, line feed,
      vertical tab, form feed, carriage return and the separators 0x1C-0x1F. */
  predicate IsSpace(c: char)
    ensures IsSpace(c) ==> !IsLetter(c)
  {
    var k := c as int;
    k == 32 || 9 <= k <= 13 || 28 <= k <= 31
  }

  predicate IsUpper(c: char) { 'A' <= c <= 'Z' }

  predicate IsLower(c: char) { 'a' <= c <= 'z' }

  predicate IsLetter(c: char) { IsUpper(c) || IsLower(c) }

  /** The string has no removable whitespace at either end. */
  predicate IsStripped(s: string) {
    |s| == 0 || (!IsSpace(s[0]) && !IsSpace(s[|s| - 1]))
  }

  /** `str.lstrip()`: the suffix left after removing leading whitespace. */
  function StripLeft(s: string): (r: string)
    ensures |r| <= |s| && r == s[|s| - |r|..]
    ensures forall i :: 0 <= i < |s| - |r| ==> IsSpace(s[i])
    ensures |r| > 0 ==> !IsSpace(r[0])
  {
    if |s| > 0 && IsSpace(s[0]) then StripLeft(s[1..]) else s
  }

  /** `str.rstrip()`: the prefix left after removing trailing whitespace. */
  function StripRight(s: string): (r: string)
    ensures |r| <= |s| && r == s[..|r|]
    ensures forall i :: |r| <= i < |s| ==> IsSpace(s[i])
    ensures |r| > 0 ==> !IsSpace(r[|r| - 1])
  {
    if |s| > 0 && IsSpace(s[|s| - 1]) then StripRight(s[..|s| - 1]) else s
  }

  /** Where `str.strip()` starts cutting: the number of leading whitespace characters. */
  function Lead(s: string): (n: nat)
    ensures n <= |s|
  {
    |s| - |StripLeft(s)|
  }

  /** `str.strip()`. */
  function Strip(s: string): (r: string)
    ensures IsStripped(r) && |r| <= |s|
  {
    var l := StripLeft(s);
    var r := StripRight(l);
    if |r| == 0 then r
    else
      assert r[0] == l[0];
      r
  }

  /** Proof helper: the slice fact of `StripRemovesOnlySpace` on its own, which its proof
      and that of `StripKeepsOut` build on. */
  lemma StripIsSlice(s: string)
    ensures Lead(s) + |Strip(s)| <= |s| && Strip(s) == s[Lead(s)..Lead(s) + |Strip(s)|]
  {
  }

  /** Everything `str.strip()` cuts off is whitespace, and what it keeps is a
      contiguous piece of `s`. */
  lemma StripRemovesOnlySpace(s: string)
    ensures Lead(s) + |Strip(s)| <= |s| && Strip(s) == s[Lead(s)..Lead(s) + |Strip(s)|]
    ensures forall i :: 0 <= i < Lead(s) ==> IsSpace(s[i])
    ensures forall i :: Lead(s) + |Strip(s)| <= i < |s| ==> IsSpace(s[i])
  {
    StripIsSlice(s);
    var l := StripLeft(s);
    var r := StripRight(l);
    assert forall i :: |r| <= i < |l| ==> IsSpace(l[i]);
    assert forall i :: Lead(s) + |r| <= i < |s| ==> s[i] == l[i - Lead(s)];
  }

  /** Stripping adds no character. */
  lemma StripKeepsOut(c: char, s: string)
    requires c !in s
    ensures c !in Strip(s)
  {
    var r := Strip(s);
    StripIsSlice(s);
    forall i | 0 <= i < |r| ensures r[i] != c {
      assert r[i] == s[Lead(s) + i];
    }
  }

  /** Stripping removes nothing from a stripped string. */
  lemma StrippedIsFixpoint(s: string)
    requires IsStripped(s)
    ensures Strip(s) == s
  {
  }

  /** `str.strip()` is idempotent. */
  lemma StripIdempotent(s: string)
    ensures Strip(Strip(s)) == Strip(s)
  {
    StrippedIsFixpoint(Strip(s));
  }

  /** A string strips to "" exactly when it is all whitespace. */
  lemma {:induction false} StripEmptyIffBlank(s: string)
    ensures Strip(s) == "" <==> forall i :: 0 <= i < |s| ==> IsSpace(s[i])
  {
    var l := StripLeft(s);
    if l != [] {
      assert !IsSpace(s[|s| - |l|]);
    }
  }

  function LowerChar(c: char): (d: char)
    ensures !IsUpper(c) ==> d == c
    ensures IsUpper(c) ==> IsLower(d) && d as int - 'a' as int == c as int - 'A' as int
    ensures !IsUpper(d)
    ensures IsLetter(c) <==> IsLetter(d)
    ensures IsSpace(c) <==> IsSpace(d)
  {
    if IsUpper(c) then (c as int + 32) as char else c
  }

  /** No upper-case letter in the string. */
  predicate NoUpper(s: string) {
    forall i :: 0 <= i < |s| ==> !IsUpper(s[i])
  }

  /** A non-empty string of lower-case letters. */
  predicate IsLowerWord(s: string) {
    |s| > 0 && forall i :: 0 <= i < |s| ==> IsLower(s[i])
  }

  /** `str.lower()` on ASCII: upper-case letters become lower-case, nothing else changes. */
  function Lower(s: string): (r: string)
    ensures |r| == |s|
    ensures forall i :: 0 <= i < |s| && !IsUpper(s[i]) ==> r[i] == s[i]
    ensures forall i :: 0 <= i < |s| && IsUpper(s[i]) ==>
              IsLower(r[i]) && r[i] as int - 'a' as int == s[i] as int - 'A' as int
    ensures NoUpper(r)
  {
    seq(|s|, i requires 0 <= i < |s| => LowerChar(s[i]))
  }

  /** Lower-casing keeps a string stripped. */
  lemma LowerKeepsStripped(s: string)
    requires IsStripped(s)
    ensures IsStripped(Lower(s))
  {
  }

  /** Lower-casing a string without upper-case letters changes nothing. */
  lemma LowerOfLower(s: string)
    requires NoUpper(s)
    ensures Lower(s) == s
  {
  }

  /** `"Cat".lower()` is `"cat"`. */
  lemma LowerExample()
    ensures Lower("Cat") == "cat"
  {
    assert Lower("Cat")[0] == 'c';
  }

  /** `str.isalpha()` on ASCII: non-empty and letters only. */
  predicate IsAlpha(s: string)
    ensures IsAlpha(s) ==> IsStripped(s)
  {
    |s| > 0 && forall i :: 0 <= i < |s| ==> IsLetter(s[i])
  }

  /** A letter-only string without upper case is a lower-case word. */
  lemma AlphaWithoutUpper(s: string)
    requires IsAlpha(s) && NoUpper(s)
    ensures IsLowerWord(s)
  {
  }

  /** A lower-case word is stripped, alphabetic and has no upper case. */
  lemma LowerWordFacts(s: string)
    requires IsLowerWord(s)
    ensures IsStripped(s) && IsAlpha(s) && NoUpper(s)
  {
    assert IsLower(s[0]) && IsLower(s[|s| - 1]);
  }

  /** `s.split(sep)`: the pieces between the separators, empty pieces included. */
  function Split(s: string, sep: char): (r: seq<string>)
    ensures |r| >= 1
    ensures forall k :: 0 <= k < |r| ==> sep !in r[k]
  {
    if |s| == 0 then [""]
    else
      var rest := Split(s[1..], sep);
      if s[0] == sep then [""] + rest
      else [[s[0]] + rest[0]] + rest[1..]
  }

  /** `sep.join(pieces)`. */
  function Join(pieces: seq<string>, sep: char): string {
    if |pieces| == 0 then ""
    else if |pieces| == 1 then pieces[0]
    else pieces[0] + [sep] + Join(pieces[1..], sep)
  }

  /** Joining the pieces of a split gives back the string. */
  lemma {:induction false} JoinSplit(s: string, sep: char)
    ensures Join(Split(s, sep), sep) == s
  {
    if |s| > 0 {
      var rest := Split(s[1..], sep);
      JoinSplit(s[1..], sep);
      if s[0] == sep {
        assert Split(s, sep) == [""] + rest;
        assert ([""] + rest)[1..] == rest;
      } else {
        var r := [[s[0]] + rest[0]] + rest[1..];
        assert Split(s, sep) == r;
        if |rest| == 1 {
          assert Join(r, sep) == [s[0]] + rest[0];
        } else {
          assert r[1..] == rest[1..];
          assert Join(r, sep) == [s[0]] + rest[0] + [sep] + Join(rest[1..], sep);
          assert Join(rest, sep) == rest[0] + [sep] + Join(rest[1..], sep);
        }
      }
    }
  }

  /** A separator-free prefix sticks to the first piece of the split. */
  lemma {:induction false} SplitPrefix(p: string, s: string, sep: char)
    requires sep !in p
    ensures Split(p + s, sep) == [p + Split(s, sep)[0]] + Split(s, sep)[1..]
  {
    if |p| > 0 {
      assert (p + s)[0] == p[0];
      assert (p + s)[1..] == p[1..] + s;
      SplitPrefix(p[1..], s, sep);
      assert [p[0]] + (p[1..] + Split(s, sep)[0]) == p + Split(s, sep)[0];
    } else {
      var t := Split(s, sep);
      assert p + s == s;
      assert p + t[0] == t[0];
      assert [t[0]] + t[1..] == t;
    }
  }

  /** Splitting a join of separator-free pieces gives back the pieces. */
  lemma {:induction false} SplitJoin(pieces: seq<string>, sep: char)
    requires |pieces| >= 1
    requires forall k :: 0 <= k < |pieces| ==> sep !in pieces[k]
    ensures Split(Join(pieces, sep), sep) == pieces
  {
    if |pieces| == 1 {
      SplitPrefix(pieces[0], "", sep);
      assert pieces[0] + "" == pieces[0];
    } else {
      var tail := Join(pieces[1..], sep);
      SplitJoin(pieces[1..], sep);
      assert Join(pieces, sep) == pieces[0] + ([sep] + tail);
      SplitPrefix(pieces[0], [sep] + tail, sep);
      assert ([sep] + tail)[1..] == tail;
      assert Split([sep] + tail, sep) == [""] + pieces[1..];
      assert pieces[0] + "" == pieces[0];
    }
  }
}
