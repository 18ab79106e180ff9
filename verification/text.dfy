/**
 Text handling shared by the attribute reader, the icon classifier and the
 label filter. Every character is the Latin-1 image of one byte of the file,
 and the character classes are those of the C locale (`std::isalnum`,
 `std::ispunct`, `std::isspace`, `std::isdigit`, `::tolower`).
 */
module Text {

  import opened Bytes

  /** `std::isspace`: space, tab, newline, vertical tab, form feed, carriage return. */
  predicate IsSpace(c: char) {
    c == ' ' || '\t' <= c <= '\r'
  }

  /** `std::isdigit`. */
  predicate IsDigit(c: char) {
    '0' <= c <= '9'
  }

  predicate IsUpper(c: char) {
    'A' <= c <= 'Z'
  }

  predicate IsLowerLetter(c: char) {
    'a' <= c <= 'z'
  }

  /** `std::isalnum`. */
  predicate IsAlnum(c: char) {
    IsDigit(c) || IsUpper(c) || IsLowerLetter(c)
  }

  /** `std::ispunct`: a printable character other than space that is not alphanumeric. */
  predicate IsPunct(c: char) {
    '!' <= c <= '~' && !IsAlnum(c)
  }

  /**
   The characters the reader keeps at the end of a field: alphanumeric,
   punctuation, or a byte above 127. Everything else (NUL, control bytes,
   space, DEL) is padding.
   */
  predicate IsVisible(c: char) {
    IsAlnum(c) || IsPunct(c) || c as int > 127
  }

  /** `::tolower` in the C locale: only `A`..`Z` change. */
  function ToLower(c: char): (d: char)
    ensures IsUpper(c) ==> IsLowerLetter(d) && d as int == c as int + 32
    ensures !IsUpper(c) ==> d == c
  {
    if IsUpper(c) then (c as int + 32) as char else c
  }

  /** No character of `s` is an upper-case letter. */
  predicate IsLowerCase(s: string) {
    forall i :: 0 <= i < |s| ==> !IsUpper(s[i])
  }

  /** `std::transform(s.begin(), s.end(), s.begin(), ::tolower)`. */
  function Lower(s: string): (r: string)
    ensures |r| == |s|
    ensures forall i :: 0 <= i < |s| ==> r[i] == ToLower(s[i])
    ensures IsLowerCase(r)
  {
    if s == [] then [] else [ToLower(s[0])] + Lower(s[1..])
  }

  /** Lowering text that has no upper-case letters changes nothing. */
  lemma LowerOfLowerCase(s: string)
    requires IsLowerCase(s)
    ensures Lower(s) == s
  {
  }

  /** The Latin-1 text of a run of bytes: one character per byte, same code. */
  function Latin1(bs: seq<Byte>): (s: string)
    ensures |s| == |bs|
    ensures forall i :: 0 <= i < |bs| ==> s[i] as int == bs[i]
  {
    if bs == [] then [] else [bs[0] as char] + Latin1(bs[1..])
  }

  /**
   `std::string(p, n).c_str()` re-read as a string: the text up to, not
   including, the first NUL.
   */
  function CString(s: string): (r: string)
    ensures r <= s
    ensures '\0' !in r
    ensures |r| < |s| ==> s[|r|] == '\0'
  {
    if s == [] || s[0] == '\0' then [] else [s[0]] + CString(s[1..])
  }

  /** `std::string::find(p) == 0`: `p` is a prefix of `s`. */
  predicate StartsWith(s: string, p: string) {
    p <= s
  }

  /** `std::string::find(k) != npos`, computed by trying every start position. */
  predicate Contains(s: string, k: string)
    decreases |s|
  {
    k <= s || (s != [] && Contains(s[1..], k))
  }

  /** `k` occurs in `s` starting at position `i`. */
  predicate OccursAt(k: string, s: string, i: int) {
    0 <= i <= |s| - |k| && s[i..i + |k|] == k
  }

  /** The textbook meaning of "k occurs in s at some position". */
  ghost predicate OccursIn(k: string, s: string) {
    exists i :: OccursAt(k, s, i)
  }

  /** `Contains` finds exactly the occurrences `OccursIn` describes, in both directions. */
  lemma {:induction false} ContainsIff(s: string, k: string)
    ensures Contains(s, k) <==> OccursIn(k, s)
    decreases |s|
  {
    if k <= s {
      assert OccursAt(k, s, 0);
    } else if s == [] {
      assert forall i :: !OccursAt(k, s, i);
    } else {
      ContainsIff(s[1..], k);
      if OccursIn(k, s) {
        var i :| OccursAt(k, s, i);
        assert i != 0;
        assert s[1..][i - 1..i - 1 + |k|] == k;
        assert OccursAt(k, s[1..], i - 1);
      }
      if OccursIn(k, s[1..]) {
        var i :| OccursAt(k, s[1..], i);
        assert s[i + 1..i + 1 + |k|] == k;
        assert OccursAt(k, s, i + 1);
      }
    }
  }

  /** An occurrence of a longer keyword carries every occurrence of a keyword inside it. */
  lemma ContainsTransitive(s: string, k: string, inner: string)
    requires Contains(s, k) && Contains(k, inner)
    ensures Contains(s, inner)
  {
    ContainsIff(s, k);
    ContainsIff(k, inner);
    var i :| OccursAt(k, s, i);
    var j :| OccursAt(inner, k, j);
    assert s[i + j..i + j + |inner|] == inner by {
      forall m | 0 <= m < |inner|
        ensures s[i + j + m] == inner[m]
      {
        assert inner[m] == k[j + m];
        assert k[j + m] == s[i..i + |k|][j + m];
      }
    }
    assert OccursAt(inner, s, i + j);
    ContainsIff(s, inner);
  }

  /**
   The first loop of `cleanString`: drop trailing bytes until the last one is
   visible. What is dropped is all padding and what is kept ends visibly.
   */
  function TrimTrailing(s: string): (r: string)
    ensures r <= s
    ensures forall i :: |r| <= i < |s| ==> !IsVisible(s[i])
    ensures r == [] || IsVisible(r[|r| - 1])
  {
    if s != [] && !IsVisible(s[|s| - 1]) then TrimTrailing(s[..|s| - 1]) else s
  }

  /**
   The `erase(begin, find_if(!isspace))` step of `cleanString`: drop leading
   whitespace. What remains is a suffix of `s` that does not start with
   whitespace, and everything dropped was whitespace.
   */
  function TrimLeading(s: string): (r: string)
    ensures |r| <= |s| && r == s[|s| - |r|..]
    ensures forall i :: 0 <= i < |s| - |r| ==> IsSpace(s[i])
    ensures r == [] || !IsSpace(r[0])
  {
    if s != [] && IsSpace(s[0]) then TrimLeading(s[1..]) else s
  }

  /**
   `SimpleDBFReader::cleanString`: trailing padding and then leading
   whitespace removed.
   */
  function CleanString(s: string): (r: string)
    ensures |r| <= |s|
    ensures r == [] || !IsSpace(r[0])
    ensures r == [] || IsVisible(r[|r| - 1])
  {
    var t := TrimTrailing(s);
    var r := TrimLeading(t);
    assert r == [] || r[|r| - 1] == t[|t| - 1];
    r
  }

  /**
   The cleaned text is one contiguous piece `s[i..j]` of the input: the
   bytes before it are whitespace, the bytes after it are padding. Together
   with the ends `CleanString` promises, this pins the result down uniquely.
   */
  lemma CleanStringIsSlice(s: string)
    ensures exists i, j ::
              && 0 <= i <= j <= |s|
              && CleanString(s) == s[i..j]
              && (forall k :: 0 <= k < i ==> IsSpace(s[k]))
              && (forall k :: j <= k < |s| ==> !IsVisible(s[k]))
  {
    var t := TrimTrailing(s);
    var r := TrimLeading(t);
    assert CleanString(s) == r;
    var i, j := |t| - |r|, |t|;
    assert t == s[..j];
    assert r == t[i..];
    assert r == s[i..j];
    forall k | 0 <= k < i
      ensures IsSpace(s[k])
    {
      assert s[k] == t[k];
    }
    assert forall k :: j <= k < |s| ==> !IsVisible(s[k]);
    assert 0 <= i <= j <= |s| && CleanString(s) == s[i..j];
  }

  /** Text that is already clean at both ends is left alone. */
  lemma {:induction false} CleanStringFixes(s: string)
    requires s == [] || (!IsSpace(s[0]) && IsVisible(s[|s| - 1]))
    ensures CleanString(s) == s
  {
    assert TrimTrailing(s) == s;
    assert TrimLeading(s) == s;
  }

  /** `cleanString` is idempotent: cleaning twice is cleaning once. */
  lemma CleanStringIdempotent(s: string)
    ensures CleanString(CleanString(s)) == CleanString(s)
  {
    CleanStringFixes(CleanString(s));
  }
}
