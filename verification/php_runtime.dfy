/**
 * The PHP run-time behaviour that the monotone SCM layer, the key parser and
 * the project-creation form rely on: the exception kinds they raise, PHP's
 * notion of an "empty" string, decimal rendering of integers, trim(),
 * str_replace(), implode(), preg_split() on newlines, the key-union `+` on
 * lists, array_unique() and array_intersect().
 *
 * Strings are byte strings: one `char` stands for one byte, so PHP's
 * strlen() is the sequence length.
 */
module PhpRuntime {

  datatype Option<T> = None | Some(value: T)

  /** The exception classes raised by the modelled code. */
  datatype Failure =
    | ScmException(message: string)   // IDF_Scm_Exception
    | NotImplemented                  // Pluf_Exception_NotImplemented
    | KeyException(message: string)   // IDF_Exception, raised by IDF_Key
    | FormInvalid(message: string)    // Pluf_Form_Invalid
    | FuelExhausted                   // a bound of the model on a loop the source runs unbounded

  /** A value, or the exception that was thrown instead. */
  datatype Result<T> = Ok(value: T) | Err(error: Failure)

  /** Success or failure of an operation that returns nothing. */
  datatype Outcome = Pass | Fail(error: Failure)

  /** PHP's empty() on a string: both "" and "0" are empty. */
  predicate PhpEmpty(s: string) {
    s == "" || s == "0"
  }

  predicate StartsWith(s: string, prefix: string) {
    |prefix| <= |s| && s[..|prefix|] == prefix
  }

  // ---------------------------------------------------------------------
  // Decimal numbers

  predicate IsDigit(c: char) {
    '0' <= c <= '9'
  }

  predicate AllDigits(s: string) {
    forall i :: 0 <= i < |s| ==> IsDigit(s[i])
  }

  function DigitValue(c: char): nat
    requires IsDigit(c)
  {
    c as int - '0' as int
  }

  function DigitChar(d: nat): (c: char)
    requires d < 10
    ensures IsDigit(c) && DigitValue(c) == d
  {
    (d + '0' as int) as char
  }

  /** The value of a run of decimal digits, accumulated left to right
      as value * 10 + digit (the way the chunk-header loop does it). */
  function DigitsValue(s: string): nat
    requires AllDigits(s)
  {
    if s == [] then 0 else DigitsValue(s[..|s| - 1]) * 10 + DigitValue(s[|s| - 1])
  }

  /** Appending one digit multiplies the value by ten and adds the digit. */
  lemma DigitsValueSnoc(s: string, c: char)
    requires AllDigits(s) && IsDigit(c)
    ensures AllDigits(s + [c]) && DigitsValue(s + [c]) == DigitsValue(s) * 10 + DigitValue(c)
  {
    assert (s + [c])[..|s|] == s;
  }

  /** PHP's decimal rendering of a non-negative integer, as strlen() results
      are rendered into a frame. It reads back as the same number. */
  function NatToString(n: nat): (r: string)
    ensures |r| > 0 && AllDigits(r)
    ensures DigitsValue(r) == n
  {
    if n < 10 then
      [DigitChar(n)]
    else
      var prefix := NatToString(n / 10);
      DigitsValueSnoc(prefix, DigitChar(n % 10));
      prefix + [DigitChar(n % 10)]
  }

  /** PHP's decimal rendering of any integer. */
  function IntToString(i: int): string {
    if i < 0 then "-" + NatToString(-i) else NatToString(i)
  }

  // ---------------------------------------------------------------------
  // Searching and splitting

  /** A slice of a slice. */
  lemma SubSlice(s: string, i: nat, t: string, a: nat, b: nat)
    requires i + |t| <= |s| && s[i..i + |t|] == t && a <= b <= |t|
    ensures s[i + a..i + b] == t[a..b]
  {
    forall p | 0 <= p < b - a ensures s[i + a..i + b][p] == t[a..b][p] {
      assert t[a + p] == s[i..i + |t|][a + p];
    }
  }

  /** A string made of two parts, found at `i`, has each part where expected. */
  lemma Peel(s: string, i: nat, x: string, y: string)
    requires i + |x + y| <= |s| && s[i..i + |x + y|] == x + y
    ensures s[i..i + |x|] == x && s[i + |x|..i + |x| + |y|] == y
  {
    SubSlice(s, i, x + y, 0, |x|);
    assert (x + y)[..|x|] == x;
    SubSlice(s, i, x + y, |x|, |x + y|);
    assert (x + y)[|x|..] == y;
  }

  /** The index of the first occurrence of `c` at or after `from`, or |s|. */
  function IndexOf(s: string, c: char, from: nat): (k: nat)
    requires from <= |s|
    ensures from <= k <= |s|
    ensures k < |s| ==> s[k] == c
    ensures forall i :: from <= i < k ==> s[i] != c
    decreases |s| - from
  {
    if from == |s| || s[from] == c then from else IndexOf(s, c, from + 1)
  }

  /** The first `c` in `s` is the one right after a prefix `x` free of `c`. */
  lemma IndexOfAfter(s: string, x: string, c: char)
    requires |x| < |s| && s[..|x|] == x && c !in x && s[|x|] == c
    ensures IndexOf(s, c, 0) == |x|
  {
    assert forall i :: 0 <= i < |x| ==> s[i] == x[i];
  }

  /** All pieces concatenated, in order. */
  function Concat(parts: seq<string>): string {
    if parts == [] then "" else parts[0] + Concat(parts[1..])
  }

  /** `s` with every occurrence of `c` removed. */
  function Without(s: string, c: char): string {
    if s == [] then "" else (if s[0] == c then "" else [s[0]]) + Without(s[1..], c)
  }

  lemma WithoutAppend(a: string, b: string, c: char)
    ensures Without(a + b, c) == Without(a, c) + Without(b, c)
  {
    if a == [] {
      assert a + b == b;
    } else {
      assert (a + b)[1..] == a[1..] + b;
      WithoutAppend(a[1..], b, c);
    }
  }

  lemma ConcatAppend(a: seq<string>, b: seq<string>)
    ensures Concat(a + b) == Concat(a) + Concat(b)
  {
    if a == [] {
      assert a + b == b;
    } else {
      assert (a + b)[1..] == a[1..] + b;
      ConcatAppend(a[1..], b);
    }
  }

  /** Cutting `s` at its first newline `k`. */
  lemma WithoutAtFirstNewline(s: string, k: nat)
    requires k < |s| && s[k] == '\n' && '\n' !in s[..k]
    ensures Without(s, '\n') == s[..k] + Without(s[k + 1..], '\n')
  {
    assert s == s[..k] + ([s[k]] + s[k + 1..]);
    WithoutAppend(s[..k], [s[k]] + s[k + 1..], '\n');
    WithoutAppend([s[k]], s[k + 1..], '\n');
    WithoutAbsent(s[..k], '\n');
  }

  lemma WithoutAbsent(s: string, c: char)
    requires c !in s
    ensures Without(s, c) == s
  {
    if s != [] {
      assert s == [s[0]] + s[1..];
      WithoutAbsent(s[1..], c);
    }
  }

  /** preg_split("/\n/", s, -1, PREG_SPLIT_NO_EMPTY): the non-empty lines of
      `s`. No piece is empty or holds a newline, and the pieces put back
      together are `s` without its newlines. */
  function SplitLines(s: string): (r: seq<string>)
    ensures forall i :: 0 <= i < |r| ==> |r[i]| > 0 && '\n' !in r[i]
    ensures Concat(r) == Without(s, '\n')
    decreases |s|
  {
    if s == [] then []
    else
      var k := IndexOf(s, '\n', 0);
      var head := if k == 0 then [] else [s[..k]];
      var tail := if k < |s| then SplitLines(s[k + 1..]) else [];
      assert '\n' !in s[..k];
      assert Concat(head) == s[..k];
      ConcatAppend(head, tail);
      if k < |s| then
        WithoutAtFirstNewline(s, k);
        head + tail
      else
        assert s[..k] == s;
        WithoutAbsent(s, '\n');
        head + tail
  }

  /** Lines each ended by a newline: how monotone lists revisions, branches
      and parents. */
  function JoinLines(lines: seq<string>): string {
    if lines == [] then "" else lines[0] + "\n" + JoinLines(lines[1..])
  }

  /** Splitting a list of non-empty lines written one per line gives the
      lines back. */
  lemma {:induction false} SplitJoinLines(lines: seq<string>)
    requires forall i :: 0 <= i < |lines| ==> |lines[i]| > 0 && '\n' !in lines[i]
    ensures SplitLines(JoinLines(lines)) == lines
  {
    if lines != [] {
      var s := JoinLines(lines);
      var l := lines[0];
      assert s == l + ("\n" + JoinLines(lines[1..]));
      assert s[..|l|] == l && s[|l|] == '\n';
      IndexOfAfter(s, l, '\n');
      assert s[|l| + 1..] == JoinLines(lines[1..]);
      SplitJoinLines(lines[1..]);
    }
  }

  /** implode(glue, parts). */
  function Implode(glue: string, parts: seq<string>): string {
    if parts == [] then ""
    else if |parts| == 1 then parts[0]
    else parts[0] + glue + Implode(glue, parts[1..])
  }

  // ---------------------------------------------------------------------
  // trim()

  /** The characters trim() strips by default: " \t\n\r\0\x0B". */
  predicate IsTrimmable(c: char) {
    c == ' ' || c == '\t' || c == '\n' || c == '\r' || c == '\0' || c as int == 11
  }

  function TrimStart(s: string): (r: string)
    ensures |r| <= |s| && r == s[|s| - |r|..]
    ensures |r| > 0 ==> !IsTrimmable(r[0])
    ensures forall i :: 0 <= i < |s| - |r| ==> IsTrimmable(s[i])
  {
    if |s| > 0 && IsTrimmable(s[0]) then TrimStart(s[1..]) else s
  }

  function TrimEnd(s: string): (r: string)
    ensures |r| <= |s| && r == s[..|r|]
    ensures |r| > 0 ==> !IsTrimmable(r[|r| - 1])
    ensures forall i :: |r| <= i < |s| ==> IsTrimmable(s[i])
  {
    if |s| > 0 && IsTrimmable(s[|s| - 1]) then TrimEnd(s[..|s| - 1]) else s
  }

  /** trim(s): `s` without its leading and trailing trimmable characters. */
  function Trim(s: string): (r: string)
    ensures |r| <= |TrimStart(s)| <= |s|
    ensures |r| > 0 ==> !IsTrimmable(r[0]) && !IsTrimmable(r[|r| - 1])
    ensures var k := |s| - |TrimStart(s)|;
      && r == s[k..k + |r|]
      && (forall i :: 0 <= i < k ==> IsTrimmable(s[i]))
      && (forall i :: k + |r| <= i < |s| ==> IsTrimmable(s[i]))
  {
    TrimEnd(TrimStart(s))
  }

  /** A trimmed string has nothing left to trim. */
  lemma TrimTrimmed(s: string)
    ensures Trim(Trim(s)) == Trim(s)
  {
    var r := Trim(s);
    assert TrimStart(r) == r;
    assert TrimEnd(r) == r;
  }

  // ---------------------------------------------------------------------
  // str_replace() with one search string

  /** str_replace(search, replace, s): scans left to right and replaces each
      non-overlapping occurrence; replaced text is not scanned again. */
  function ReplaceAll(s: string, search: string, replace: string): string
    requires |search| > 0
    decreases |s|
  {
    if s == [] then ""
    else if |search| <= |s| && s[..|search|] == search then
      replace + ReplaceAll(s[|search|..], search, replace)
    else
      [s[0]] + ReplaceAll(s[1..], search, replace)
  }

  // ---------------------------------------------------------------------
  // Array operations on lists (arrays with keys 0 .. n-1)

  /** The `+` operator on two lists: keys already present on the left win,
      so only the elements of `b` at positions >= |a| are appended. */
  function ListUnion<T>(a: seq<T>, b: seq<T>): (r: seq<T>)
    ensures |r| == if |a| >= |b| then |a| else |b|
    ensures r[..|a|] == a
    ensures forall i :: |a| <= i < |r| ==> r[i] == b[i]
  {
    if |b| > |a| then a + b[|a|..] else a
  }

  /** The index of the first occurrence of `x` in `xs`. */
  function FirstIndex(xs: seq<string>, x: string): (k: nat)
    requires x in xs
    ensures k < |xs| && xs[k] == x
    ensures forall j :: 0 <= j < k ==> xs[j] != x
  {
    if xs[0] == x then 0 else 1 + FirstIndex(xs[1..], x)
  }

  /** Appending a value keeps the first occurrences of the earlier values,
      and a new value first occurs at the end. */
  lemma FirstIndexSnoc(xs: seq<string>, x: string)
    ensures forall y :: y in xs ==> FirstIndex(xs + [x], y) == FirstIndex(xs, y)
    ensures x !in xs ==> FirstIndex(xs + [x], x) == |xs|
  {
    forall y | y in xs
      ensures FirstIndex(xs + [x], y) == FirstIndex(xs, y)
    {
      var k := FirstIndex(xs, y);
      var k' := FirstIndex(xs + [x], y);
      assert (xs + [x])[k] == y;
      assert k' <= k;
      assert xs[k'] == (xs + [x])[k'];
    }
  }

  /** array_unique() of a list: the first occurrence of every value, in
      order of first occurrence. */
  function Unique(xs: seq<string>): (r: seq<string>)
    ensures forall x :: x in r <==> x in xs
    ensures forall i, j :: 0 <= i < j < |r| ==> r[i] != r[j]
    ensures forall i, j :: 0 <= i < j < |r| ==> FirstIndex(xs, r[i]) < FirstIndex(xs, r[j])
  {
    if xs == [] then []
    else
      var p := xs[..|xs| - 1];
      var x := xs[|xs| - 1];
      var u := Unique(p);
      assert xs == p + [x];
      assert forall y :: y in xs <==> y in p || y == x;
      FirstIndexSnoc(p, x);
      if x in u then u else u + [x]
  }

  /** count(array_intersect(a, b)) > 0: some element of `a` occurs in `b`. */
  predicate Intersects(a: seq<string>, b: seq<string>) {
    exists i :: 0 <= i < |a| && a[i] in b
  }
}
