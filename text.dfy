/**
 * The string operations the server (Python) and the browser script (JavaScript)
 * apply to column names and file names: lower-casing, whitespace stripping,
 * suffix tests and splitting on a separator character.
 */
module Text {

  /** Upper-case letters of the Basic Latin and Latin-1 Supplement blocks; both
      Python's str.lower and JavaScript's toLowerCase map each of them to the
      letter 32 code points further on. */
  predicate IsUpper(c: char) {
    ('A' <= c <= 'Z') || ('\U{C0}' <= c <= '\U{DE}' && c != '\U{D7}')
  }

  function LowerChar(c: char): (r: char)
    ensures !IsUpper(r)
    ensures !IsUpper(c) ==> r == c
  {
    if IsUpper(c) then (c as int + 32) as char else c
  }

  /** str.lower() / String.prototype.toLowerCase() on the letters above. */
  function Lower(s: string): (r: string)
    ensures |r| == |s|
    ensures forall i :: 0 <= i < |s| ==> r[i] == LowerChar(s[i])
  {
    seq(|s|, i requires 0 <= i < |s| => LowerChar(s[i]))
  }

  /** The characters Python's str.strip() removes, in the same two blocks. */
  predicate IsSpace(c: char) {
    c == ' ' || ('\t' <= c <= '\r') || ('\U{1C}' <= c <= '\U{1F}') || c == '\U{85}' || c == '\U{A0}'
  }

  /** Drops the leading whitespace: what is left is a suffix that starts with a non-space. */
  function TrimLeft(s: string): (r: string)
    ensures |r| <= |s| && r == s[|s| - |r|..]
    ensures forall i :: 0 <= i < |s| - |r| ==> IsSpace(s[i])
    ensures r == [] || !IsSpace(r[0])
  {
    if s != [] && IsSpace(s[0]) then TrimLeft(s[1..]) else s
  }

  /** Drops the trailing whitespace: what is left is a prefix that ends with a non-space. */
  function TrimRight(s: string): (r: string)
    ensures |r| <= |s| && r == s[..|r|]
    ensures forall i :: |r| <= i < |s| ==> IsSpace(s[i])
    ensures r == [] || !IsSpace(r[|r| - 1])
  {
    if s != [] && IsSpace(s[|s| - 1]) then TrimRight(s[..|s| - 1]) else s
  }

  /** r is s from position a on, with only whitespace before it and after it. */
  predicate StrippedAt(s: string, r: string, a: nat) {
    && a + |r| <= |s| && r == s[a..a + |r|]
    && (forall i :: 0 <= i < a ==> IsSpace(s[i]))
    && (forall i :: a + |r| <= i < |s| ==> IsSpace(s[i]))
  }

  /** str.strip(): what is left once the whitespace at both ends is removed. */
  function Strip(s: string): (r: string)
    ensures |r| <= |s|
    ensures exists a :: StrippedAt(s, r, a)
    ensures r != [] ==> !IsSpace(r[0]) && !IsSpace(r[|r| - 1])
  {
    var l := TrimLeft(s);
    var r := TrimRight(l);
    StripWitness(s, l, r);
    r
  }

  /** Removing a whitespace prefix and then a whitespace suffix leaves a
      middle slice. */
  lemma StripWitness(s: string, l: string, r: string)
    requires |l| <= |s| && l == s[|s| - |l|..] && forall i :: 0 <= i < |s| - |l| ==> IsSpace(s[i])
    requires |r| <= |l| && r == l[..|r|] && forall i :: |r| <= i < |l| ==> IsSpace(l[i])
    ensures StrippedAt(s, r, |s| - |l|)
  {
    var a := |s| - |l|;
    forall i | a + |r| <= i < |s| ensures IsSpace(s[i]) {
      assert s[i] == l[i - a];
    }
  }

  /** The comparison key of a column name on the server: col.lower().strip(). */
  function Normalize(s: string): string {
    Strip(Lower(s))
  }

  /** A string that is its own comparison key: no upper-case letter and no
      whitespace at either end. */
  predicate Plain(s: string) {
    && (forall i :: 0 <= i < |s| ==> !IsUpper(s[i]))
    && (s != [] ==> !IsSpace(s[0]) && !IsSpace(s[|s| - 1]))
  }

  lemma LowerOfLower(s: string)
    requires forall i :: 0 <= i < |s| ==> !IsUpper(s[i])
    ensures Lower(s) == s
  {
  }

  lemma NormalizePlain(s: string)
    requires Plain(s)
    ensures Normalize(s) == s
  {
    LowerOfLower(s);
  }

  /** str.endswith / the suffix test. */
  predicate EndsWith(s: string, suffix: string) {
    |suffix| <= |s| && s[|s| - |suffix|..] == suffix
  }

  /** Lower-casing keeps every suffix relation: a name that ends with a suffix,
      lower-cased, ends with the lower-cased suffix. */
  lemma LowerKeepsSuffix(s: string, suffix: string)
    requires EndsWith(s, suffix)
    ensures EndsWith(Lower(s), Lower(suffix))
  {
    assert Lower(s)[|s| - |suffix|..] == Lower(suffix);
  }

  /** String.prototype.split with a one-character separator: the pieces between
      consecutive separators, in order, with an empty piece at each end that is
      a separator. */
  function Split(s: string, d: char): (parts: seq<string>)
    ensures |parts| >= 1
    ensures forall i :: 0 <= i < |parts| ==> d !in parts[i]
  {
    if s == [] then [[]]
    else
      var rest := Split(s[1..], d);
      if s[0] == d then [[]] + rest else [[s[0]] + rest[0]] + rest[1..]
  }

  /** Array.prototype.join with a one-character separator. */
  function Join(parts: seq<string>, d: char): string
    requires |parts| >= 1
  {
    if |parts| == 1 then parts[0] else parts[0] + [d] + Join(parts[1..], d)
  }

  /** Splitting loses nothing: joining the pieces back gives the string again. */
  lemma {:induction false} JoinSplit(s: string, d: char)
    ensures Join(Split(s, d), d) == s
  {
    if s != [] {
      var rest := Split(s[1..], d);
      JoinSplit(s[1..], d);
      if s[0] == d {
        assert ([[]] + rest)[1..] == rest;
      } else {
        var parts := [[s[0]] + rest[0]] + rest[1..];
        if |rest| > 1 {
          assert parts[1..] == rest[1..];
          assert Join(rest, d) == rest[0] + [d] + Join(rest[1..], d);
        }
      }
    }
  }

  function Last<T>(s: seq<T>): T
    requires |s| >= 1
  {
    s[|s| - 1]
  }

  /** A string splits into a single piece exactly when it holds no separator. */
  lemma {:induction false} SplitWithoutSeparator(s: string, d: char)
    ensures d !in s <==> |Split(s, d)| == 1
    ensures d !in s ==> Split(s, d) == [s]
  {
    if s != [] {
      SplitWithoutSeparator(s[1..], d);
      assert s == [s[0]] + s[1..];
    }
  }

  /** t is the longest suffix of s that holds no separator d. */
  predicate IsLastPiece(s: string, t: string, d: char) {
    && |t| <= |s| && t == s[|s| - |t|..] && d !in t
    && (|t| < |s| ==> s[|s| - |t| - 1] == d)
  }

  /** The last piece of a split is the longest suffix free of the separator:
      either the whole string or what follows its last separator. */
  lemma {:induction false} LastPiece(s: string, d: char)
    ensures IsLastPiece(s, Last(Split(s, d)), d)
  {
    if s != [] {
      var tail := s[1..];
      LastPiece(tail, d);
      SplitWithoutSeparator(tail, d);
      if s[0] == d || d in tail {
        LastPieceOfLonger(s, d);
      } else {
        SplitWithoutSeparator(s, d);
      }
    }
  }

  /** The step where the first character does not join the last piece: it is
      a separator, or a separator follows it. */
  lemma LastPieceOfLonger(s: string, d: char)
    requires s != [] && (s[0] == d || d in s[1..])
    requires IsLastPiece(s[1..], Last(Split(s[1..], d)), d)
    ensures IsLastPiece(s, Last(Split(s, d)), d)
  {
    var t := Last(Split(s[1..], d));
    if s[0] == d {
      LastAfterSeparator(s, d);
    } else {
      LastAfterInnerSeparator(s, d);
      assert t != s[1..];
    }
    LastPieceExtends(s, t, d);
  }

  lemma LastAfterSeparator(s: string, d: char)
    requires s != [] && s[0] == d
    ensures Last(Split(s, d)) == Last(Split(s[1..], d))
  {
    assert Split(s, d) == [[]] + Split(s[1..], d);
  }

  lemma LastAfterInnerSeparator(s: string, d: char)
    requires s != [] && s[0] != d && d in s[1..]
    ensures Last(Split(s, d)) == Last(Split(s[1..], d))
  {
    var rest := Split(s[1..], d);
    SplitWithoutSeparator(s[1..], d);
    var parts := [[s[0]] + rest[0]] + rest[1..];
    assert Split(s, d) == parts;
    assert parts[|parts| - 1] == rest[|rest| - 1];
  }

  /** A last piece stays the last piece when a character is put in front,
      unless it was the whole string and the character is not a separator. */
  lemma LastPieceExtends(s: string, t: string, d: char)
    requires s != [] && IsLastPiece(s[1..], t, d)
    requires |t| < |s| - 1 || s[0] == d
    ensures IsLastPiece(s, t, d)
  {
    assert s[|s| - |t|..] == s[1..][|s| - 1 - |t|..];
    if |t| < |s| - 1 {
      assert s[|s| - |t| - 1] == s[1..][|s| - 1 - |t| - 1];
    }
  }

  /** The longest separator-free suffix is unique. */
  lemma LastPieceUnique(s: string, t1: string, t2: string, d: char)
    requires IsLastPiece(s, t1, d) && IsLastPiece(s, t2, d)
    ensures t1 == t2
  {
  }
}
