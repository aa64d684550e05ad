/** The string operations of Python's `str` that the tools rely on: whitespace
    and word classes, lower/upper case, substring search (`t in s`),
    `split(sep)`, `split()`, `strip()`, `join` and `str(int)`. */
module Text {
  import opened Results

  /** `str.isspace()`: the characters that `\s`, `split()` and `strip()` treat
      as whitespace. */
  predicate IsSpace(c: char) {
    var n := c as int;
    n == 0x20 || 0x09 <= n <= 0x0D || 0x1C <= n <= 0x1F || n == 0x85 || n == 0xA0
    || n == 0x1680 || 0x2000 <= n <= 0x200A || n == 0x2028 || n == 0x2029
    || n == 0x202F || n == 0x205F || n == 0x3000
  }

  predicate NotSpace(c: char) { !IsSpace(c) }

  /** `\d`, restricted to ASCII digits. */
  predicate IsDigit(c: char) { '0' <= c <= '9' }

  /** `\w`, restricted to ASCII letters, digits and the underscore. */
  predicate IsWordChar(c: char) { 'a' <= c <= 'z' || 'A' <= c <= 'Z' || IsDigit(c) || c == '_' }

  /** The string has no whitespace character. */
  predicate NoSpace(w: string) { forall c :: c in w ==> !IsSpace(c) }

  function LowerChar(c: char): char {
    if 'A' <= c <= 'Z' then (c as int + 32) as char else c
  }

  function UpperChar(c: char): char {
    if 'a' <= c <= 'z' then (c as int - 32) as char else c
  }

  /** `str.lower()` on ASCII letters. */
  function Lower(s: string): (r: string)
    ensures |r| == |s|
  {
    seq(|s|, i requires 0 <= i < |s| => LowerChar(s[i]))
  }

  /** `str.upper()` on ASCII letters. */
  function Upper(s: string): (r: string)
    ensures |r| == |s|
  {
    seq(|s|, i requires 0 <= i < |s| => UpperChar(s[i]))
  }

  /** `t` occurs in `s` starting at index `i`. */
  predicate OccursAt(s: string, t: string, i: int) {
    0 <= i && i + |t| <= |s| && s[i..i + |t|] == t
  }

  /** The first index at or after `i` where `t` occurs in `s`. */
  function FindFrom(s: string, t: string, i: nat): (r: Option<nat>)
    ensures r.Some? ==> i <= r.value && OccursAt(s, t, r.value)
    ensures r.Some? ==> forall j :: i <= j < r.value ==> !OccursAt(s, t, j)
    ensures r.None? ==> forall j :: i <= j ==> !OccursAt(s, t, j)
    decreases |s| - i
  {
    if i + |t| > |s| then None
    else if s[i..i + |t|] == t then Some(i)
    else FindFrom(s, t, i + 1)
  }

  /** Python's `t in s` for strings. */
  predicate Contains(s: string, t: string) {
    FindFrom(s, t, 0).Some?
  }

  /** Python's `s.startswith(t)`. */
  predicate StartsWith(s: string, t: string) {
    OccursAt(s, t, 0)
  }

  /** An occurrence inside a slice is an occurrence in the whole string. */
  lemma OccursInSlice(s: string, t: string, a: nat, b: nat, j: int)
    requires a <= b <= |s|
    requires OccursAt(s[a..b], t, j)
    ensures OccursAt(s, t, a + j) && a + j + |t| <= b
  {
    forall k | 0 <= k < |t|
      ensures s[a + j + k] == t[k]
    {
      assert s[a..b][j..j + |t|][k] == t[k];
    }
    assert s[a + j..a + j + |t|] == t;
  }

  /** An occurrence at any index makes `t in s` true. */
  lemma OccursMeansContains(s: string, t: string, o: int)
    requires OccursAt(s, t, o)
    ensures Contains(s, t)
  {
  }

  /** A string whose first character never appears in `s` does not occur in `s`. */
  lemma AbsentFirstChar(s: string, t: string)
    requires |t| > 0 && t[0] !in s
    ensures !Contains(s, t)
  {
    forall o | 0 <= o < |s| ensures !OccursAt(s, t, o) {
      assert s[o] in s;
      if o + |t| <= |s| {
        assert s[o..o + |t|][0] == s[o];
      }
    }
  }

  /** An occurrence in `b` is an occurrence in `a + b`, shifted by `|a|`. */
  lemma OccursAfter(a: string, b: string, t: string, o: int)
    requires OccursAt(b, t, o)
    ensures OccursAt(a + b, t, |a| + o)
  {
    assert (a + b)[|a| + o..|a| + o + |t|] == b[o..o + |t|];
  }

  /** A slice of a string that does not contain `t` does not contain it either. */
  lemma SliceKeepsAbsence(s: string, t: string, a: nat, b: nat)
    requires a <= b <= |s|
    requires !Contains(s, t)
    ensures !Contains(s[a..b], t)
  {
    if Contains(s[a..b], t) {
      var j := FindFrom(s[a..b], t, 0).value;
      OccursInSlice(s, t, a, b, j);
      assert false;
    }
  }

  /** End of the run of characters satisfying `p` that starts at `i`. */
  function SpanFrom(s: string, i: nat, p: char -> bool): (e: nat)
    requires i <= |s|
    ensures i <= e <= |s|
    ensures forall k :: i <= k < e ==> p(s[k])
    ensures e < |s| ==> !p(s[e])
    decreases |s| - i
  {
    if i < |s| && p(s[i]) then SpanFrom(s, i + 1, p) else i
  }

  /** Start of the run of characters satisfying `p` that ends at `j`, not going below `lo`. */
  function SpanBack(s: string, lo: nat, j: nat, p: char -> bool): (b: nat)
    requires lo <= j <= |s|
    ensures lo <= b <= j
    ensures forall k :: b <= k < j ==> p(s[k])
    ensures b > lo ==> !p(s[b - 1])
    decreases j - lo
  {
    if j > lo && p(s[j - 1]) then SpanBack(s, lo, j - 1, p) else j
  }

  function StripStart(s: string): nat {
    SpanFrom(s, 0, IsSpace)
  }

  function StripEnd(s: string): (e: nat)
    ensures StripStart(s) <= e <= |s|
  {
    SpanBack(s, StripStart(s), |s|, IsSpace)
  }

  /** `str.strip()`: the slice of `s` without its leading and trailing whitespace. */
  function Strip(s: string): (r: string)
    ensures |r| <= |s|
    ensures r != [] ==> !IsSpace(r[0]) && !IsSpace(r[|r| - 1])
    ensures forall k :: 0 <= k < StripStart(s) ==> IsSpace(s[k])
    ensures forall k :: StripEnd(s) <= k < |s| ==> IsSpace(s[k])
  {
    s[StripStart(s)..StripEnd(s)]
  }

  /** Stripping twice strips nothing more. */
  lemma StripIdempotent(s: string)
    ensures Strip(Strip(s)) == Strip(s)
  {
    var r := Strip(s);
    if r != [] {
      assert StripStart(r) == 0;
      assert StripEnd(r) == |r|;
    }
  }

  /** A stripped string does not contain a separator that the original did not contain. */
  lemma StripKeepsAbsence(s: string, t: string)
    requires !Contains(s, t)
    ensures !Contains(Strip(s), t)
  {
    SliceKeepsAbsence(s, t, StripStart(s), StripEnd(s));
  }

  /** Python's `s.split(sep)` for a non-empty separator. */
  function Split(s: string, sep: string): (r: seq<string>)
    requires sep != []
    ensures |r| >= 1
    ensures forall k :: 0 <= k < |r| ==> !Contains(r[k], sep)
    decreases |s|
  {
    match FindFrom(s, sep, 0)
    case None => [s]
    case Some(k) =>
      PrefixBeforeFirstIsFree(s, sep, k);
      [s[..k]] + Split(s[k + |sep|..], sep)
  }

  lemma PrefixBeforeFirstIsFree(s: string, sep: string, k: nat)
    requires sep != []
    requires FindFrom(s, sep, 0) == Some(k)
    ensures !Contains(s[..k], sep)
  {
    if Contains(s[..k], sep) {
      var j := FindFrom(s[..k], sep, 0).value;
      OccursInSlice(s, sep, 0, k, j);
      assert false;
    }
  }

  /** Python's `sep.join(parts)`. */
  function Join(parts: seq<string>, sep: string): string
  {
    if |parts| == 0 then ""
    else if |parts| == 1 then parts[0]
    else parts[0] + sep + Join(parts[1..], sep)
  }

  /** Splitting and joining back with the same separator gives the original text:
      no character is lost, duplicated or reordered by `split`. */
  lemma {:induction false} JoinSplit(s: string, sep: string)
    requires sep != []
    ensures Join(Split(s, sep), sep) == s
    decreases |s|
  {
    match FindFrom(s, sep, 0)
    case None =>
    case Some(k) =>
      var rest := s[k + |sep|..];
      var tail := Split(rest, sep);
      JoinSplit(rest, sep);
      var r := [s[..k]] + tail;
      assert Split(s, sep) == r;
      assert r[1..] == tail;
      assert Join(r, sep) == s[..k] + sep + Join(tail, sep);
      assert s == s[..k] + s[k..k + |sep|] + rest;
  }

  /** Every part can be found in the joined string. */
  lemma {:induction false} JoinContainsParts(parts: seq<string>, sep: string, k: nat)
    requires k < |parts|
    ensures exists o :: OccursAt(Join(parts, sep), parts[k], o)
    decreases |parts|
  {
    if |parts| == 1 {
      assert OccursAt(Join(parts, sep), parts[k], 0);
    } else if k == 0 {
      assert Join(parts, sep)[..|parts[0]|] == parts[0];
      assert OccursAt(Join(parts, sep), parts[k], 0);
    } else {
      JoinContainsParts(parts[1..], sep, k - 1);
      var o :| OccursAt(Join(parts[1..], sep), parts[1..][k - 1], o);
      OccursAfter(parts[0] + sep, Join(parts[1..], sep), parts[k], o);
      assert Join(parts, sep) == (parts[0] + sep) + Join(parts[1..], sep);
    }
  }

  /** A string that is one of the parts is a substring of the joined text. */
  lemma JoinedPartIsContained(parts: seq<string>, sep: string, k: nat)
    requires k < |parts|
    ensures Contains(Join(parts, sep), parts[k])
  {
    JoinContainsParts(parts, sep, k);
    var o :| OccursAt(Join(parts, sep), parts[k], o);
    OccursMeansContains(Join(parts, sep), parts[k], o);
  }

  /** Splitting a text that does not contain `t` gives pieces that do not contain it. */
  lemma {:induction false} SplitKeepsAbsence(s: string, sep: string, t: string)
    requires sep != []
    requires !Contains(s, t)
    ensures forall k :: 0 <= k < |Split(s, sep)| ==> !Contains(Split(s, sep)[k], t)
    decreases |s|
  {
    match FindFrom(s, sep, 0)
    case None =>
    case Some(k) =>
      var rest := s[k + |sep|..];
      SliceKeepsAbsence(s, t, 0, k);
      assert s[..k] == s[0..k];
      SliceKeepsAbsence(s, t, k + |sep|, |s|);
      assert rest == s[k + |sep|..|s|];
      SplitKeepsAbsence(rest, sep, t);
      assert Split(s, sep) == [s[..k]] + Split(rest, sep);
  }

  /** Python's `s.split()` from index `i` on: the maximal runs of non-whitespace. */
  function WordsFrom(s: string, i: nat): (r: seq<string>)
    requires i <= |s|
    ensures forall k :: 0 <= k < |r| ==> r[k] != [] && NoSpace(r[k])
    decreases |s| - i
  {
    var a := SpanFrom(s, i, IsSpace);
    if a == |s| then []
    else
      var b := SpanFrom(s, a, NotSpace);
      [s[a..b]] + WordsFrom(s, b)
  }

  /** Python's `s.split()`. */
  function Words(s: string): (r: seq<string>)
    ensures forall k :: 0 <= k < |r| ==> r[k] != [] && NoSpace(r[k])
  {
    WordsFrom(s, 0)
  }

  /** A string with no non-space character splits into no words. */
  lemma {:induction false} BlankHasNoWords(s: string)
    requires forall k :: 0 <= k < |s| ==> IsSpace(s[k])
    ensures Words(s) == []
  {
    assert SpanFrom(s, 0, IsSpace) == |s|;
  }

  function DigitChar(d: nat): (c: char)
    requires d < 10
    ensures IsDigit(c)
  {
    ('0' as int + d) as char
  }

  function DigitValue(c: char): (d: nat)
    requires IsDigit(c)
    ensures d < 10
  {
    c as int - '0' as int
  }

  /** Python's `str(n)` for a non-negative integer. */
  function Decimal(n: nat): (r: string)
    ensures |r| >= 1
    ensures forall c :: c in r ==> IsDigit(c)
    decreases n
  {
    if n < 10 then [DigitChar(n)] else Decimal(n / 10) + [DigitChar(n % 10)]
  }

  /** Reading a string of digits as a number (Python's `int(s)`). */
  function ParseDecimal(s: string): nat
    requires forall c :: c in s ==> IsDigit(c)
  {
    if s == [] then 0
    else
      assert s[|s| - 1] in s;
      assert forall c :: c in s[..|s| - 1] ==> c in s;
      10 * ParseDecimal(s[..|s| - 1]) + DigitValue(s[|s| - 1])
  }

  /** `str(n)` is faithful: reading it back gives `n`, so distinct numbers print differently. */
  lemma {:induction false} ParseDecimalInverts(n: nat)
    ensures ParseDecimal(Decimal(n)) == n
    decreases n
  {
    if n >= 10 {
      ParseDecimalInverts(n / 10);
      var r := Decimal(n);
      assert r[..|r| - 1] == Decimal(n / 10);
    }
  }

  /** `str(n)` zero-padded to two digits, as `strftime('%d')` prints a day. */
  function TwoDigits(n: nat): (r: string)
    requires n < 100
    ensures |r| == 2
  {
    [DigitChar(n / 10), DigitChar(n % 10)]
  }
}
