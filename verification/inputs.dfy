/** The small steps that prepare the inputs: cleaning the three instrument
    codes and putting the date range in order. */
module Inputs {
  import opened Calendar

  /** The characters Python's `str.strip()` removes: those `str.isspace()`
      accepts. */
  predicate IsSpace(c: char)
  {
    c == ' ' || ('\t' <= c <= '\r') || ('\U{1C}' <= c <= '\U{1F}')
    || c == '\U{85}' || c == '\U{A0}' || c == '\U{1680}'
    || ('\U{2000}' <= c <= '\U{200A}') || c == '\U{2028}' || c == '\U{2029}'
    || c == '\U{202F}' || c == '\U{205F}' || c == '\U{3000}'
  }

  /** The number of whitespace characters at the start of `s`. */
  function LeadingSpaces(s: string): (n: nat)
    ensures n <= |s|
    ensures forall k :: 0 <= k < n ==> IsSpace(s[k])
    ensures n < |s| ==> !IsSpace(s[n])
    decreases |s|
  {
    if s != [] && IsSpace(s[0]) then 1 + LeadingSpaces(s[1..]) else 0
  }

  /** The number of whitespace characters at the end of `s`. */
  function TrailingSpaces(s: string): (n: nat)
    ensures n <= |s|
    ensures forall k :: |s| - n <= k < |s| ==> IsSpace(s[k])
    ensures n < |s| ==> !IsSpace(s[|s| - 1 - n])
    decreases |s|
  {
    if s != [] && IsSpace(s[|s| - 1]) then 1 + TrailingSpaces(s[..|s| - 1]) else 0
  }

  /** Python's `str.strip()`: `s` without its leading and trailing whitespace. */
  function Strip(s: string): (r: string)
    ensures r == [] || (!IsSpace(r[0]) && !IsSpace(r[|r| - 1]))
    ensures r == [] <==> forall k :: 0 <= k < |s| ==> IsSpace(s[k])
  {
    var i := LeadingSpaces(s);
    if i == |s| then []
    else
      var j := |s| - TrailingSpaces(s);
      assert i < j;
      s[i..j]
  }

  /** The stripped string is a slice of the input and everything the input has
      around that slice is whitespace. */
  lemma StripRemovesSurroundingSpaces(s: string)
    ensures exists i, j :: 0 <= i <= j <= |s| && Strip(s) == s[i..j]
                           && forall k :: (0 <= k < i || j <= k < |s|) ==> IsSpace(s[k])
  {
    var i := LeadingSpaces(s);
    if i == |s| {
      assert Strip(s) == s[i..i];
    } else {
      var j := |s| - TrailingSpaces(s);
      assert Strip(s) == s[i..j];
    }
  }

  /** Any slice with only whitespace around it, and no whitespace at its own
      ends, is the stripped string: the characterisation above determines it. */
  lemma StripIsUnique(s: string, i: nat, j: nat)
    requires i <= j <= |s|
    requires forall k :: (0 <= k < i || j <= k < |s|) ==> IsSpace(s[k])
    requires i == j || (!IsSpace(s[i]) && !IsSpace(s[j - 1]))
    ensures Strip(s) == s[i..j]
  {
    if i < j {
      assert LeadingSpaces(s) == i;
      assert TrailingSpaces(s) == |s| - j;
    }
  }

  /** Stripping a stripped string changes nothing. */
  lemma StripIdempotent(s: string)
    ensures Strip(Strip(s)) == Strip(s)
  {
    var r := Strip(s);
    if r != [] {
      assert LeadingSpaces(r) == 0;
      assert TrailingSpaces(r) == 0;
      assert r[0..|r|] == r;
    }
  }

  /** The non-empty strings of `xs`, in order. */
  function DropEmpty(xs: seq<string>): (r: seq<string>)
    ensures |r| <= |xs|
    ensures forall i :: 0 <= i < |r| ==> r[i] != "" && r[i] in xs
    decreases |xs|
  {
    if xs == [] then []
    else (if xs[0] != "" then [xs[0]] else []) + DropEmpty(xs[1..])
  }

  /** Every non-empty string of the input is kept. */
  lemma {:induction false} DropEmptyKeepsNonEmpty(xs: seq<string>, i: nat)
    requires i < |xs| && xs[i] != ""
    ensures xs[i] in DropEmpty(xs)
    decreases |xs|
  {
    if i > 0 {
      DropEmptyKeepsNonEmpty(xs[1..], i - 1);
    }
  }

  /** Dropping empties distributes over concatenation, so the kept strings
      stay in their input order. */
  lemma {:induction false} DropEmptyAppend(xs: seq<string>, ys: seq<string>)
    ensures DropEmpty(xs + ys) == DropEmpty(xs) + DropEmpty(ys)
    decreases |xs|
  {
    if xs == [] {
      assert xs + ys == ys;
    } else {
      assert (xs + ys)[0] == xs[0];
      assert (xs + ys)[1..] == xs[1..] + ys;
      DropEmptyAppend(xs[1..], ys);
    }
  }

  /** The instrument codes entered in the three fields, stripped, with the empty
      ones removed. */
  function CleanCodes(code1: string, code2: string, code3: string): (codes: seq<string>)
    ensures |codes| <= 3
    ensures forall i :: 0 <= i < |codes| ==>
              codes[i] != "" && !IsSpace(codes[i][0]) && !IsSpace(codes[i][|codes[i]| - 1])
    ensures forall i :: 0 <= i < |codes| ==>
              codes[i] == Strip(code1) || codes[i] == Strip(code2) || codes[i] == Strip(code3)
  {
    DropEmpty([Strip(code1), Strip(code2), Strip(code3)])
  }

  /** The cleaned codes are the stripped first, second and third codes, each
      present exactly when it is non-empty, in field order. */
  lemma CleanCodesInFieldOrder(code1: string, code2: string, code3: string)
    ensures CleanCodes(code1, code2, code3)
            == KeptIfNonEmpty(Strip(code1)) + KeptIfNonEmpty(Strip(code2)) + KeptIfNonEmpty(Strip(code3))
  {
    DropEmptyOfThree(Strip(code1), Strip(code2), Strip(code3));
  }

  /** Dropping the empty strings of three keeps each exactly when it is
      non-empty, in order. */
  lemma DropEmptyOfThree(a: string, b: string, c: string)
    ensures DropEmpty([a, b, c]) == KeptIfNonEmpty(a) + KeptIfNonEmpty(b) + KeptIfNonEmpty(c)
  {
    assert [a, b, c] == [a] + ([b] + [c]);
    DropEmptyAppend([a], [b] + [c]);
    DropEmptyAppend([b], [c]);
    KeptIfNonEmptyIsDropEmpty(a);
    KeptIfNonEmptyIsDropEmpty(b);
    KeptIfNonEmptyIsDropEmpty(c);
  }

  function KeptIfNonEmpty(code: string): seq<string>
  {
    if code == "" then [] else [code]
  }

  lemma KeptIfNonEmptyIsDropEmpty(code: string)
    ensures DropEmpty([code]) == KeptIfNonEmpty(code)
  {
    assert [code][1..] == [];
  }

  /** Swaps the start and end dates when the start is later than the end. */
  function OrderRange(start: Date, end: Date): (range: (Date, Date))
    ensures !Earlier(range.1, range.0)
    ensures multiset{range.0, range.1} == multiset{start, end}
    ensures !Earlier(end, start) ==> range == (start, end)
  {
    if Earlier(end, start) then (end, start) else (start, end)
  }
}
