/**
 * The command-line checks of `parse_arguments` and the TLD list of `main`.
 * Option parsing itself is not modelled: an argument that was not given is
 * `None`.
 */
module Arguments {
  import opened Wrappers
  import opened Seqs
  import opened Text

  const DEFAULT_TLD: string := ".com"

  /** Why the length options were refused, one value per `parser.error` call
      (and one for the exclusive `--length`/`--min-length` group). */
  datatype LengthError =
    | LengthWithMinLength
    | LengthBelowOne
    | MinLengthBelowOne
    | MaxLengthWithoutMinLength
    | MaxLengthBelowMinLength
    | NoLengthGiven

  /** The message the user sees for each refusal. */
  function Message(e: LengthError): (m: string)
    ensures m != ""
  {
    match e
    case LengthWithMinLength => "argument --min-length: not allowed with argument --length"
    case LengthBelowOne => "Length must be at least 1"
    case MinLengthBelowOne => "Minimum length must be at least 1"
    case MaxLengthWithoutMinLength => "--max-length requires --min-length"
    case MaxLengthBelowMinLength => "Maximum length must be greater than or equal to minimum length"
    case NoLengthGiven => "Either --length or --min-length must be specified"
  }


  /** The length options the program runs with: exactly one of `--length` and
      `--min-length`, at least 1; `--max-length` only beside `--min-length` and
      not below it. */
  predicate LengthsAccepted(length: Option<int>, minLength: Option<int>, maxLength: Option<int>) {
    && (length.Some? != minLength.Some?)
    && (length.Some? ==> length.value >= 1)
    && (minLength.Some? ==> minLength.value >= 1)
    && (maxLength.Some? ==> minLength.Some? && maxLength.value >= minLength.value)
  }

  /** The condition each error reports is really violated. */
  predicate Describes(e: LengthError, length: Option<int>, minLength: Option<int>, maxLength: Option<int>) {
    match e
    case LengthWithMinLength => length.Some? && minLength.Some?
    case LengthBelowOne => length.Some? && length.value < 1
    case MinLengthBelowOne => minLength.Some? && minLength.value < 1
    case MaxLengthWithoutMinLength => maxLength.Some? && minLength.None?
    case MaxLengthBelowMinLength => minLength.Some? && maxLength.Some? && maxLength.value < minLength.value
    case NoLengthGiven => length.None? && minLength.None?
  }

  /** The validation block of `parse_arguments`, checks in source order; the
      mutual exclusion of `--length` and `--min-length` is argparse's and comes first. */
  function ValidateLengths(length: Option<int>, minLength: Option<int>, maxLength: Option<int>): (r: Outcome<LengthError>)
    ensures r.Pass? <==> LengthsAccepted(length, minLength, maxLength)
    ensures r.Fail? ==> Describes(r.error, length, minLength, maxLength)
  {
    if length.Some? && minLength.Some? then Fail(LengthWithMinLength)
    else if length.Some? && length.value < 1 then Fail(LengthBelowOne)
    else if minLength.Some? && minLength.value < 1 then Fail(MinLengthBelowOne)
    else if maxLength.Some? && minLength.None? then Fail(MaxLengthWithoutMinLength)
    else if minLength.Some? && maxLength.Some? && maxLength.value < minLength.value then Fail(MaxLengthBelowMinLength)
    else if length.None? && minLength.None? then Fail(NoLengthGiven)
    else Pass
  }

  /** A TLD as the program keeps it: non-empty, no surrounding whitespace. */
  predicate IsCleanPiece(t: string) {
    t != "" && IsStripped(t)
  }

  /** `[p.strip() for p in pieces if p.strip()]`. */
  function StripPieces(pieces: seq<string>): (r: seq<string>)
    ensures |r| <= |pieces|
  {
    if pieces == [] then []
    else
      var t := Strip(pieces[0]);
      var rest := StripPieces(pieces[1..]);
      if t != "" then [t] + rest else rest
  }

  /** The TLD list of `main`: the comma-separated pieces of `--tlds`, stripped,
      blank ones dropped. */
  function ParseTlds(s: string): (tlds: seq<string>)
    ensures forall k :: 0 <= k < |tlds| ==> IsCleanPiece(tlds[k]) && ',' !in tlds[k]
  {
    StripPiecesKeepOut(Split(s, ','), ',');
    StripPieces(Split(s, ','))
  }

  /** The kept pieces are clean, and a character no piece had is in none of them. */
  lemma StripPiecesKeepOut(pieces: seq<string>, c: char)
    requires forall k :: 0 <= k < |pieces| ==> c !in pieces[k]
    ensures forall k :: 0 <= k < |StripPieces(pieces)| ==> IsCleanPiece(StripPieces(pieces)[k]) && c !in StripPieces(pieces)[k]
  {
    var tlds := StripPieces(pieces);
    StripPiecesIsFilter(pieces);
    FilterMembers(StripAll(pieces), (t: string) => t != "");
    forall k | 0 <= k < |tlds|
      ensures IsCleanPiece(tlds[k]) && c !in tlds[k]
    {
      var j :| 0 <= j < |pieces| && StripAll(pieces)[j] == tlds[k];
      StripKeepsOut(c, pieces[j]);
    }
  }

  /** The TLDs are the non-blank pieces, stripped, in input order. */
  lemma {:induction false} StripPiecesIsFilter(pieces: seq<string>)
    ensures StripPieces(pieces) == Filter(StripAll(pieces), (t: string) => t != "")
  {
    if pieces != [] {
      StripPiecesIsFilter(pieces[1..]);
      assert StripAll(pieces)[1..] == StripAll(pieces[1..]);
    }
  }

  /** Every piece stripped. */
  function StripAll(pieces: seq<string>): (r: seq<string>)
    ensures |r| == |pieces| && forall k :: 0 <= k < |r| ==> r[k] == Strip(pieces[k])
  {
    seq(|pieces|, k requires 0 <= k < |pieces| => Strip(pieces[k]))
  }

  /** The TLD list keeps the order of the pieces of `--tlds`. */
  lemma ParseTldsKeepsOrder(s: string)
    ensures ParseTlds(s) == Filter(StripAll(Split(s, ',')), (t: string) => t != "")
    ensures IsSubsequence(ParseTlds(s), StripAll(Split(s, ',')))
  {
    StripPiecesIsFilter(Split(s, ','));
    FilterIsSubsequence(StripAll(Split(s, ',')), (t: string) => t != "");
  }

  /** Writing clean TLDs comma-separated and parsing them back gives the same list. */
  lemma {:induction false} ParseJoinedTlds(tlds: seq<string>)
    requires forall k :: 0 <= k < |tlds| ==> IsCleanPiece(tlds[k]) && ',' !in tlds[k]
    ensures ParseTlds(Join(tlds, ',')) == tlds
  {
    if tlds == [] {
      assert Split("", ',') == [""];
    } else {
      SplitJoin(tlds, ',');
      StripPiecesClean(tlds);
    }
  }

  /** Pieces that are already clean pass the comprehension unchanged. */
  lemma {:induction false} StripPiecesClean(pieces: seq<string>)
    requires forall k :: 0 <= k < |pieces| ==> IsCleanPiece(pieces[k])
    ensures StripPieces(pieces) == pieces
  {
    StripPiecesIsFilter(pieces);
    var stripped := StripAll(pieces);
    forall k | 0 <= k < |pieces|
      ensures stripped[k] == pieces[k]
    {
      StrippedIsFixpoint(pieces[k]);
    }
    assert stripped == pieces;
    FilterAll(pieces, (t: string) => t != "");
  }
}
