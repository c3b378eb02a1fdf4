/** The string built-ins the core relies on -- splitting on a separator,
    joining with a separator, stripping whitespace and upper-casing --
    modelled on strings as sequences of characters. Whitespace and case are
    modelled on the ASCII range only. */
module Text {

  /** The ASCII characters that the built-in whitespace test accepts: tab,
      line feed, vertical tab, form feed, carriage return, the four
      information separators 0x1C-0x1F, and space. */
  predicate IsSpace(c: char) {
    c == ' ' || ('\t' <= c <= '\r') || ('\U{1C}' <= c <= '\U{1F}')
  }

  /** The ranges in IsSpace are exactly the ten whitespace characters of
      the ASCII range, listed one by one. */
  lemma IsSpaceIsAsciiWhitespace(c: char)
    ensures IsSpace(c) <==>
      c in {'\t', '\n', '\U{0B}', '\U{0C}', '\r', '\U{1C}', '\U{1D}', '\U{1E}', '\U{1F}', ' '}
  {
  }

  predicate IsLower(c: char) {
    'a' <= c <= 'z'
  }

  /** Upper-cases one character: ASCII lower-case letters map to their
      capitals, every other character is left as it is. */
  function UpperChar(c: char): (u: char)
    ensures !IsLower(u)
    ensures IsSpace(u) <==> IsSpace(c)
    ensures !IsLower(c) ==> u == c
    ensures IsLower(c) ==> 'A' <= u <= 'Z' && u as int == c as int - 32
  {
    if IsLower(c) then (c as int - 32) as char else c
  }

  /** Upper-cases a whole string, character by character. */
  function Upper(s: string): (r: string)
    ensures |r| == |s|
    ensures forall i :: 0 <= i < |s| ==> r[i] == UpperChar(s[i])
  {
    if s == [] then [] else [UpperChar(s[0])] + Upper(s[1..])
  }

  /** No character of `s` is an ASCII lower-case letter. */
  predicate IsUpperCased(s: string) {
    forall i :: 0 <= i < |s| ==> !IsLower(s[i])
  }

  /** `s` neither starts nor ends with whitespace. */
  predicate IsStripped(s: string) {
    s == [] || (!IsSpace(s[0]) && !IsSpace(s[|s| - 1]))
  }

  /** Every character of `s` before index `i` and from index `j` on is
      whitespace. */
  predicate SpaceOutside(s: string, i: int, j: int) {
    (forall k :: 0 <= k < i && k < |s| ==> IsSpace(s[k])) &&
    (forall k :: 0 <= j <= k < |s| ==> IsSpace(s[k]))
  }

  /** The index of the first non-whitespace character of `s` at or after
      `i`, or `|s|` when there is none. */
  function SkipSpace(s: string, i: nat): (n: nat)
    requires i <= |s|
    ensures i <= n <= |s|
    ensures forall k :: i <= k < n ==> IsSpace(s[k])
    ensures n < |s| ==> !IsSpace(s[n])
    decreases |s| - i
  {
    if i < |s| && IsSpace(s[i]) then SkipSpace(s, i + 1) else i
  }

  /** The end of `s[lo..j]` once its trailing whitespace is dropped. */
  function SkipSpaceBack(s: string, lo: nat, j: nat): (n: nat)
    requires lo <= j <= |s|
    ensures lo <= n <= j
    ensures forall k :: n <= k < j ==> IsSpace(s[k])
    ensures n > lo ==> !IsSpace(s[n - 1])
  {
    if j > lo && IsSpace(s[j - 1]) then SkipSpaceBack(s, lo, j - 1) else j
  }

  /** Removes leading and trailing whitespace. The result neither starts
      nor ends with whitespace, and it is the slice of `s` that starts after
      the leading whitespace, with only whitespace after it. */
  function Strip(s: string): (r: string)
    ensures IsStripped(r)
    ensures var i := SkipSpace(s, 0);
            i + |r| <= |s| && r == s[i..i + |r|] && SpaceOutside(s, i, i + |r|)
  {
    var i := SkipSpace(s, 0);
    var j := SkipSpaceBack(s, i, |s|);
    assert j > i ==> s[i..j][0] == s[i] && s[i..j][j - i - 1] == s[j - 1];
    s[i..j]
  }

  /** The number of occurrences of `c` in `s`. */
  function Count(s: string, c: char): nat {
    if s == [] then 0 else (if s[0] == c then 1 else 0) + Count(s[1..], c)
  }

  /** Count is the multiplicity of `c` in the multiset of the characters
      of `s`. */
  lemma {:induction false} CountIsMultiplicity(s: string, c: char)
    ensures Count(s, c) == multiset(s)[c]
  {
    if s != [] {
      CountIsMultiplicity(s[1..], c);
      assert s == [s[0]] + s[1..];
      assert multiset(s) == multiset([s[0]]) + multiset(s[1..]);
    }
  }

  /** Splits `s` at every occurrence of `sep`. Like the built-in, an empty
      string gives one empty field and adjacent separators give an empty
      field between them: there is always one more field than separators. */
  function Split(s: string, sep: char): (fields: seq<string>)
    ensures |fields| == Count(s, sep) + 1
  {
    if s == [] then [""]
    else
      var rest := Split(s[1..], sep);
      if s[0] == sep then [""] + rest
      else [[s[0]] + rest[0]] + rest[1..]
  }

  /** No field of a split holds the separator. */
  lemma {:induction false} SplitFieldsOmitSeparator(s: string, sep: char)
    ensures forall k :: 0 <= k < |Split(s, sep)| ==> sep !in Split(s, sep)[k]
  {
    if s != [] {
      SplitFieldsOmitSeparator(s[1..], sep);
    }
  }

  /** Concatenates `parts`, putting `sep` between each pair of neighbours;
      no parts give the empty string. */
  function Join(parts: seq<string>, sep: string): (r: string)
    ensures parts != [] ==> |r| == TotalLength(parts) + (|parts| - 1) * |sep|
  {
    if parts == [] then ""
    else if |parts| == 1 then parts[0]
    else parts[0] + sep + Join(parts[1..], sep)
  }

  /** The sum of the lengths of `parts`. */
  function TotalLength(parts: seq<string>): nat {
    if parts == [] then 0 else |parts[0]| + TotalLength(parts[1..])
  }

  // ---------------------------------------------------------------------
  // Join and Split are inverse to each other.

  /** Joining the fields of a split with the separator gives back the
      original string. */
  lemma {:induction false} JoinSplit(s: string, sep: char)
    ensures Join(Split(s, sep), [sep]) == s
  {
    if s != [] {
      var rest := Split(s[1..], sep);
      JoinSplit(s[1..], sep);
      if s[0] == sep {
        assert Split(s, sep) == [""] + rest;
        assert Join([""] + rest, [sep]) == "" + [sep] + Join(rest, [sep]);
      } else {
        assert Split(s, sep) == [[s[0]] + rest[0]] + rest[1..];
        JoinConsChar(s[0], rest, [sep]);
      }
    }
  }

  /** Prefixing the first part by a character prefixes the joined string. */
  lemma JoinConsChar(c: char, parts: seq<string>, sep: string)
    requires parts != []
    ensures Join([[c] + parts[0]] + parts[1..], sep) == [c] + Join(parts, sep)
  {
    var ps := [[c] + parts[0]] + parts[1..];
    if |parts| > 1 {
      assert ps[1..] == parts[1..];
      assert Join(ps, sep) == [c] + parts[0] + sep + Join(parts[1..], sep);
    }
  }

  /** A string without the separator splits into one field: itself. */
  lemma {:induction false} SplitWithoutSeparator(s: string, sep: char)
    requires sep !in s
    ensures Split(s, sep) == [s]
  {
    if s != [] {
      SplitWithoutSeparator(s[1..], sep);
      assert [s[0]] + s[1..] == s;
    }
  }

  /** Splitting distributes over one separator: the fields of `a + [sep] + b`
      are the fields of `a` followed by the fields of `b`. */
  lemma {:induction false} SplitAppend(a: string, sep: char, b: string)
    ensures Split(a + [sep] + b, sep) == Split(a, sep) + Split(b, sep)
  {
    var s := a + [sep] + b;
    if a == [] {
      assert s == [sep] + b;
      assert s[1..] == b;
    } else {
      SplitAppend(a[1..], sep, b);
      if a[0] == sep {
        SplitAppendSeparatorFirst(a, sep, b);
      } else {
        SplitAppendOtherFirst(a, sep, b);
      }
    }
  }

  /** The inductive step of SplitAppend when `a` starts with the separator:
      the split gains a leading empty field. */
  lemma SplitAppendSeparatorFirst(a: string, sep: char, b: string)
    requires a != [] && a[0] == sep
    requires Split(a[1..] + [sep] + b, sep) == Split(a[1..], sep) + Split(b, sep)
    ensures Split(a + [sep] + b, sep) == Split(a, sep) + Split(b, sep)
  {
    var s := a + [sep] + b;
    assert s[0] == sep && s[1..] == a[1..] + [sep] + b;
    var ra, rb := Split(a[1..], sep), Split(b, sep);
    assert Split(s, sep) == [""] + (ra + rb);
    assert Split(a, sep) == [""] + ra;
    Reassociate([""], ra, rb);
  }

  /** The inductive step of SplitAppend when `a` starts with another
      character: that character goes in front of the first field. */
  lemma SplitAppendOtherFirst(a: string, sep: char, b: string)
    requires a != [] && a[0] != sep
    requires Split(a[1..] + [sep] + b, sep) == Split(a[1..], sep) + Split(b, sep)
    ensures Split(a + [sep] + b, sep) == Split(a, sep) + Split(b, sep)
  {
    var s := a + [sep] + b;
    assert s[0] == a[0] && s[1..] == a[1..] + [sep] + b;
    var ra, rb := Split(a[1..], sep), Split(b, sep);
    var rest := Split(s[1..], sep);
    assert Split(s, sep) == [[a[0]] + rest[0]] + rest[1..];
    assert Split(a, sep) == [[a[0]] + ra[0]] + ra[1..];
    ExtendFirst([a[0]], ra, rb);
  }

  /** Concatenation of field lists is associative; stated as a lemma so
      that the split proofs can use it at one chosen point. */
  lemma Reassociate(x: seq<string>, y: seq<string>, z: seq<string>)
    ensures x + (y + z) == (x + y) + z
  {
  }

  /** Prefixing the first of the fields `y + z` when `y` is not empty is
      prefixing the first field of `y`. */
  lemma ExtendFirst(p: string, y: seq<string>, z: seq<string>)
    requires y != []
    ensures [p + (y + z)[0]] + (y + z)[1..] == ([p + y[0]] + y[1..]) + z
  {
    assert (y + z)[0] == y[0];
    assert (y + z)[1..] == y[1..] + z;
  }

  /** Two adjacent separators leave an empty field between them. */
  lemma SplitAdjacentSeparators(a: string, sep: char, b: string)
    ensures Split(a + [sep, sep] + b, sep) == Split(a, sep) + [""] + Split(b, sep)
  {
    var tail := [sep] + b;
    assert a + [sep, sep] + b == a + [sep] + tail;
    assert tail == [] + [sep] + b;
    SplitAppend([], sep, b);
    SplitAppend(a, sep, tail);
    Reassociate(Split(a, sep), [""], Split(b, sep));
  }

  /** Splitting the join of separator-free parts gives back the parts. */
  lemma {:induction false} SplitJoin(parts: seq<string>, sep: char)
    requires parts != []
    requires forall k :: 0 <= k < |parts| ==> sep !in parts[k]
    ensures Split(Join(parts, [sep]), sep) == parts
  {
    if |parts| == 1 {
      SplitWithoutSeparator(parts[0], sep);
    } else {
      SplitJoin(parts[1..], sep);
      SplitWithoutSeparator(parts[0], sep);
      SplitAppend(parts[0], sep, Join(parts[1..], [sep]));
      assert parts == [parts[0]] + parts[1..];
    }
  }

  // ---------------------------------------------------------------------
  // Strip and Upper.

  /** Upper-casing leaves an upper-cased string unchanged. */
  lemma UpperOfUpperCased(s: string)
    requires IsUpperCased(s)
    ensures Upper(s) == s
  {
  }

  /** Upper-casing leaves a stripped string stripped. */
  lemma UpperKeepsStripped(s: string)
    requires IsStripped(s)
    ensures IsStripped(Upper(s))
  {
  }

  /** Upper-casing a slice upper-cases, one by one, the characters of `s`
      it covers. */
  lemma UpperOfSlice(s: string, i: nat, j: nat)
    requires i <= j <= |s|
    ensures forall k :: 0 <= k < j - i ==> Upper(s[i..j])[k] == UpperChar(s[i + k])
  {
    var r := s[i..j];
    forall k | 0 <= k < j - i
      ensures Upper(r)[k] == UpperChar(s[i + k])
    {
      assert r[k] == s[i + k];
    }
  }

  /** Stripping leaves a stripped string unchanged. */
  lemma StripOfStripped(s: string)
    requires IsStripped(s)
    ensures Strip(s) == s
  {
    assert SkipSpace(s, 0) == 0;
    assert SkipSpaceBack(s, 0, |s|) == |s|;
  }
}
