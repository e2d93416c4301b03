/** Python string operations the pipeline relies on: `str.isspace`, `strip`,
    `find`, `replace(old, new, 1)`, `' '.join`, `split(' ')`, and the
    zero-padded decimal fields `strftime` writes. */
module Text {
  import opened Base

  /** The characters for which Python's `str.isspace()` holds; `\s` in a
      `str` regular expression matches exactly these. */
  predicate IsSpace(c: char) {
    || c == ' '
    || ('\t' <= c <= '\r')
    || ('\U{1C}' <= c <= '\U{1F}')
    || c == '\U{85}' || c == '\U{A0}' || c == '\U{1680}'
    || ('\U{2000}' <= c <= '\U{200A}')
    || c == '\U{2028}' || c == '\U{2029}' || c == '\U{202F}' || c == '\U{205F}' || c == '\U{3000}'
  }

  /** Neither end of `s` is whitespace: the shape of every `str.strip()` result. */
  predicate NoEdgeSpace(s: string) {
    s == [] || (!IsSpace(s[0]) && !IsSpace(s[|s| - 1]))
  }

  /** The index of the first non-whitespace character of `s` at or after
      `i`, or `|s|` when there is none. */
  function SpaceEnd(s: string, i: nat): (r: nat)
    requires i <= |s|
    decreases |s| - i
    ensures i <= r <= |s|
    ensures forall k {:trigger IsSpace(s[k])} :: i <= k < r ==> IsSpace(s[k])
    ensures r == |s| || !IsSpace(s[r])
  {
    if i < |s| && IsSpace(s[i]) then SpaceEnd(s, i + 1) else i
  }

  /** The index just after the last non-whitespace character of `s` before
      `j`, or `lo` when `s[lo..j]` is all whitespace. */
  function SpaceStart(s: string, lo: nat, j: nat): (r: nat)
    requires lo <= j <= |s|
    decreases j
    ensures lo <= r <= j
    ensures forall k {:trigger IsSpace(s[k])} :: r <= k < j ==> IsSpace(s[k])
    ensures r == lo || !IsSpace(s[r - 1])
  {
    if lo < j && IsSpace(s[j - 1]) then SpaceStart(s, lo, j - 1) else j
  }

  /** Where `s.strip()` starts: the end of the leading whitespace. */
  function Front(s: string): nat
    ensures Front(s) <= |s|
  {
    SpaceEnd(s, 0)
  }

  /** Where `s.strip()` ends: the start of the trailing whitespace. */
  function Back(s: string): (r: nat)
    ensures Front(s) <= r <= |s|
  {
    SpaceStart(s, Front(s), |s|)
  }

  /** `s.lstrip()`: the leading whitespace is dropped. */
  function TrimLeft(s: string): (r: string)
    ensures r == [] || !IsSpace(r[0])
  {
    s[Front(s)..]
  }

  /** `s.strip()`: the slice of `s` left once whitespace is cut from both
      ends; everything cut is whitespace and the slice has none at its ends. */
  function Strip(s: string): (r: string)
    ensures NoEdgeSpace(r)
    ensures r == s[Front(s)..Back(s)]
    ensures forall i {:trigger IsSpace(s[i])} :: 0 <= i < Front(s) ==> IsSpace(s[i])
    ensures forall i {:trigger IsSpace(s[i])} :: Back(s) <= i < |s| ==> IsSpace(s[i])
  {
    s[Front(s)..Back(s)]
  }

  /** Stripping a string that has no whitespace at its ends changes nothing. */
  lemma StripNoEdgeSpace(s: string)
    requires NoEdgeSpace(s)
    ensures Strip(s) == s
  {
  }

  /** `pat` occurs in `s` starting at index `i`. */
  predicate OccursAt(s: string, pat: string, i: int) {
    0 <= i && i + |pat| <= |s| && s[i..i + |pat|] == pat
  }

  /** The leftmost occurrence of `pat` in `s` at or after `from`. */
  function FindFrom(s: string, pat: string, from: nat): (r: Option<nat>)
    decreases |s| - from
    ensures r.Some? ==> from <= r.value && OccursAt(s, pat, r.value)
    ensures r.Some? ==> forall k :: from <= k < r.value ==> !OccursAt(s, pat, k)
    ensures r.None? ==> forall k :: from <= k ==> !OccursAt(s, pat, k)
  {
    if from + |pat| > |s| then None
    else if OccursAt(s, pat, from) then Some(from)
    else FindFrom(s, pat, from + 1)
  }

  /** `s.find(pat)`, with `None` for Python's -1. */
  function Find(s: string, pat: string): (r: Option<nat>)
    ensures r.Some? ==> OccursAt(s, pat, r.value) && forall k :: 0 <= k < r.value ==> !OccursAt(s, pat, k)
    ensures r.None? ==> forall k :: !OccursAt(s, pat, k)
  {
    FindFrom(s, pat, 0)
  }

  /** Python's `pat in s` on strings. */
  predicate Contains(s: string, pat: string) {
    Find(s, pat).Some?
  }

  /** `s.replace(pat, rep, 1)`: only the leftmost occurrence is replaced. */
  function ReplaceFirst(s: string, pat: string, rep: string): (r: string)
    ensures Find(s, pat).None? ==> r == s
    ensures Find(s, pat).Some? ==> var i := Find(s, pat).value;
      && |r| == |s| - |pat| + |rep|
      && r[..i] == s[..i] && r[i..i + |rep|] == rep && r[i + |rep|..] == s[i + |pat|..]
  {
    match Find(s, pat)
    case None => s
    case Some(i) => s[..i] + rep + s[i + |pat|..]
  }

  /** `s.replace(c, rep)` for a single character `c`: every `c` is replaced. */
  function ReplaceChar(s: string, c: char, rep: string): (r: string)
    ensures s == [] ==> r == []
    ensures |s| == 1 ==> r == (if s[0] == c then rep else s)
    ensures c !in rep ==> c !in r
    ensures c !in s ==> r == s
  {
    if s == [] then []
    else (if s[0] == c then rep else [s[0]]) + ReplaceChar(s[1..], c, rep)
  }

  /** Replacing works character by character: with the one-character case in
      `ReplaceChar`'s contract, every `c` becomes `rep` and every other
      character stays, in order. */
  lemma {:induction false} ReplaceCharAppend(a: string, b: string, c: char, rep: string)
    ensures ReplaceChar(a + b, c, rep) == ReplaceChar(a, c, rep) + ReplaceChar(b, c, rep)
  {
    if a == [] {
      assert a + b == b;
    } else {
      var first := if a[0] == c then rep else [a[0]];
      assert (a + b)[0] == a[0];
      assert (a + b)[1..] == a[1..] + b;
      ReplaceCharAppend(a[1..], b, c, rep);
      calc {
        ReplaceChar(a + b, c, rep);
        first + ReplaceChar(a[1..] + b, c, rep);
        first + (ReplaceChar(a[1..], c, rep) + ReplaceChar(b, c, rep));
        (first + ReplaceChar(a[1..], c, rep)) + ReplaceChar(b, c, rep);
      }
    }
  }

  /** The summed lengths of `parts`. */
  function TotalLength(parts: seq<string>): nat {
    if parts == [] then 0 else |parts[0]| + TotalLength(parts[1..])
  }

  /** `' '.join(parts)`. */
  function JoinSpaces(parts: seq<string>): (r: string)
    ensures parts == [] ==> r == ""
    ensures parts != [] ==> |r| == TotalLength(parts) + |parts| - 1
  {
    if parts == [] then ""
    else if |parts| == 1 then parts[0]
    else parts[0] + " " + JoinSpaces(parts[1..])
  }

  /** Where part `i` starts in `' '.join(parts)`: after each earlier part
      and the separator that follows it. */
  function Offset(parts: seq<string>, i: nat): nat
    requires i <= |parts|
  {
    if i == 0 then 0 else Offset(parts, i - 1) + |parts[i - 1]| + 1
  }

  /** Dropping the first part shifts every later offset back by that part
      and its separator. */
  lemma {:induction false} OffsetTail(parts: seq<string>, i: nat)
    requires 1 <= i <= |parts|
    ensures Offset(parts, i) == |parts[0]| + 1 + Offset(parts[1..], i - 1)
  {
    if i > 1 {
      OffsetTail(parts, i - 1);
    }
  }

  /** Indexing past a prefix indexes the rest. */
  lemma SliceAfter(x: string, y: string, lo: nat, hi: nat)
    requires lo <= hi <= |y|
    ensures (x + y)[|x| + lo..|x| + hi] == y[lo..hi]
  {
    assert forall m :: 0 <= m < hi - lo ==> (x + y)[|x| + lo..|x| + hi][m] == y[lo..hi][m];
  }

  /** Joining two or more parts puts the first one and a space in front. */
  lemma JoinSpacesCons(parts: seq<string>)
    requires |parts| > 1
    ensures JoinSpaces(parts) == (parts[0] + " ") + JoinSpaces(parts[1..])
  {
  }

  /** The first part starts the joined string. */
  lemma JoinSpacesFirst(parts: seq<string>)
    requires parts != []
    ensures |parts[0]| <= |JoinSpaces(parts)| && JoinSpaces(parts)[..|parts[0]|] == parts[0]
    ensures |parts| == 1 ==> |parts[0]| == |JoinSpaces(parts)|
    ensures |parts| > 1 ==> |parts[0]| < |JoinSpaces(parts)| && JoinSpaces(parts)[|parts[0]|] == ' '
  {
    if |parts| > 1 {
      JoinSpacesCons(parts);
      var head := parts[0] + " ";
      assert (head + JoinSpaces(parts[1..]))[..|parts[0]|] == parts[0];
    }
  }

  /** The joined string holds part `i` at `Offset(parts, i)`, followed by a
      single space, except that the last part ends the string: this fixes
      every character of `' '.join(parts)`. */
  lemma {:induction false} JoinSpacesPiece(parts: seq<string>, i: nat)
    requires i < |parts|
    ensures Offset(parts, i) + |parts[i]| <= |JoinSpaces(parts)|
    ensures JoinSpaces(parts)[Offset(parts, i)..Offset(parts, i) + |parts[i]|] == parts[i]
    ensures i < |parts| - 1 ==>
      Offset(parts, i) + |parts[i]| < |JoinSpaces(parts)| && JoinSpaces(parts)[Offset(parts, i) + |parts[i]|] == ' '
    ensures i == |parts| - 1 ==> Offset(parts, i) + |parts[i]| == |JoinSpaces(parts)|
  {
    if i == 0 {
      JoinSpacesFirst(parts);
    } else {
      var t := parts[1..];
      var head, rest := parts[0] + " ", JoinSpaces(t);
      var o, n := Offset(t, i - 1), |t[i - 1]|;
      JoinSpacesPiece(t, i - 1);
      OffsetTail(parts, i);
      JoinSpacesCons(parts);
      assert parts[i] == t[i - 1];
      SliceAfter(head, rest, o, o + n);
      if i < |parts| - 1 {
        assert (head + rest)[|head| + o + n] == rest[o + n];
      }
    }
  }

  /** `s.split(' ')`: the pieces between single spaces, always at least one. */
  function SplitSpaces(s: string): (r: seq<string>)
    ensures |r| >= 1
  {
    if s == [] then [""]
    else
      var rest := SplitSpaces(s[1..]);
      if s[0] == ' ' then [""] + rest else [[s[0]] + rest[0]] + rest[1..]
  }

  /** A piece without spaces followed by a space splits off as one piece. */
  lemma {:induction false} SplitAfterPiece(p: string, t: string)
    requires ' ' !in p
    ensures SplitSpaces(p + " " + t) == [p] + SplitSpaces(t)
  {
    if p == [] {
      assert p + " " + t == [' '] + t;
    } else {
      assert (p + " " + t)[1..] == p[1..] + " " + t;
      SplitAfterPiece(p[1..], t);
      assert [p[0]] + p[1..] == p;
    }
  }

  /** A string without spaces splits into itself. */
  lemma {:induction false} SplitNoSpace(p: string)
    requires ' ' !in p
    ensures SplitSpaces(p) == [p]
  {
    if p != [] {
      SplitNoSpace(p[1..]);
      assert [p[0]] + p[1..] == p;
    }
  }

  /** Joining pieces that hold no space and splitting again gives them back. */
  lemma {:induction false} SplitJoinSpaces(parts: seq<string>)
    requires parts != []
    requires forall i :: 0 <= i < |parts| ==> ' ' !in parts[i]
    ensures SplitSpaces(JoinSpaces(parts)) == parts
  {
    if |parts| == 1 {
      SplitNoSpace(parts[0]);
    } else {
      SplitAfterPiece(parts[0], JoinSpaces(parts[1..]));
      SplitJoinSpaces(parts[1..]);
      assert [parts[0]] + parts[1..] == parts;
    }
  }

  /** The decimal digit for `n`. */
  function Digit(n: int): (c: char)
    requires 0 <= n < 10
    ensures '0' <= c <= '9'
  {
    ('0' as int + n) as char
  }

  predicate IsDigit(c: char) {
    '0' <= c <= '9'
  }

  /** The value of one decimal digit. */
  function DigitValue(c: char): (n: nat)
    requires IsDigit(c)
    ensures n < 10
  {
    c as int - '0' as int
  }

  /** The value of a string of decimal digits (0 for the empty string). */
  function DigitsValue(s: string): (n: nat)
    requires forall i :: 0 <= i < |s| ==> IsDigit(s[i])
  {
    if s == [] then 0 else DigitsValue(s[..|s| - 1]) * 10 + DigitValue(s[|s| - 1])
  }

  /** `n` as two decimal digits with a leading zero: `strftime`'s `%m`, `%d`, `%H`, `%M`. */
  function Pad2(n: int): (r: string)
    requires 0 <= n < 100
    ensures |r| == 2 && IsDigit(r[0]) && IsDigit(r[1])
    ensures DigitsValue(r) == n
  {
    var r := [Digit(n / 10), Digit(n % 10)];
    assert r[..1] == [Digit(n / 10)] && r[..1][..0] == [];
    assert DigitValue(Digit(n / 10)) == n / 10;
    assert DigitValue(Digit(n % 10)) == n % 10;
    assert DigitsValue(r[..1]) == n / 10;
    assert DigitsValue(r) == DigitsValue(r[..1]) * 10 + n % 10;
    r
  }

  /** `n` as four decimal digits: `strftime`'s `%Y` for a four-digit year. */
  function Pad4(n: int): (r: string)
    requires 1000 <= n < 10000
    ensures |r| == 4 && forall i :: 0 <= i < 4 ==> IsDigit(r[i])
    ensures DigitsValue(r) == n
  {
    var r := Pad2(n / 100) + Pad2(n % 100);
    assert r[..3][..2] == Pad2(n / 100);
    assert DigitsValue(r[..3]) == (n / 100) * 10 + (n % 100) / 10;
    r
  }
}
