/** The handful of Python `str` built-ins the log pipeline and the command-line
    tools rely on, restricted to ASCII: whitespace, digits, case mapping,
    `strip`, `startswith`, `in`, `find`, `rfind`, `split`, `join` and `int()`. */
module PyStr {
  import opened Wrappers

  /** ASCII characters for which Python's `str.isspace` holds. */
  predicate IsSpace(c: char) {
    c == ' ' || c == '\t' || c == '\n' || c == '\r' || c == '\U{000B}' || c == '\U{000C}'
    || c == '\U{001C}' || c == '\U{001D}' || c == '\U{001E}' || c == '\U{001F}'
  }

  predicate IsDigit(c: char) {
    '0' <= c <= '9'
  }

  predicate AllDigits(s: string) {
    forall i :: 0 <= i < |s| ==> IsDigit(s[i])
  }

  /** Python's `str.isdigit`: non-empty and every character a digit. */
  predicate IsDigits(s: string) {
    |s| > 0 && AllDigits(s)
  }

  function DigitValue(c: char): nat
    requires IsDigit(c)
  {
    (c as int) - ('0' as int)
  }

  /** The value of a string of decimal digits (0 for the empty string). */
  function DecimalValue(s: string): nat
    requires AllDigits(s)
  {
    if |s| == 0 then 0 else 10 * DecimalValue(s[..|s| - 1]) + DigitValue(s[|s| - 1])
  }

  /** Python's `str(n)` on a natural number: its decimal digits, which
      read back as `n`. */
  function Str(n: nat): (r: string)
    ensures IsDigits(r) && DecimalValue(r) == n
  {
    var d := ['0' + ((n % 10) as char)];
    assert DigitValue(d[0]) == n % 10;
    if n < 10 then
      assert DecimalValue(d) == 10 * DecimalValue([]) + DigitValue(d[0]);
      d
    else
      var r := Str(n / 10) + d;
      assert r[..|r| - 1] == Str(n / 10);
      r
  }

  /** `s` without its longest prefix of characters satisfying `p`. */
  function DropWhile(s: string, p: char -> bool): (r: string)
    ensures |r| <= |s| && r == s[|s| - |r|..]
    ensures forall i :: 0 <= i < |s| - |r| ==> p(s[i])
    ensures |r| > 0 ==> !p(r[0])
    decreases |s|
  {
    if |s| > 0 && p(s[0]) then
      var r := DropWhile(s[1..], p);
      assert forall i :: 1 <= i < |s| - |r| ==> s[i] == s[1..][i - 1];
      r
    else s
  }

  /** `s` without its longest suffix of characters satisfying `p`. */
  function DropWhileEnd(s: string, p: char -> bool): (r: string)
    ensures |r| <= |s| && r == s[..|r|]
    ensures forall i :: |r| <= i < |s| ==> p(s[i])
    ensures |r| > 0 ==> !p(r[|r| - 1])
    decreases |s|
  {
    if |s| > 0 && p(s[|s| - 1]) then DropWhileEnd(s[..|s| - 1], p) else s
  }

  /** The longest prefix of `s` whose characters all satisfy `p`. */
  function TakeWhile(s: string, p: char -> bool): (r: string)
    ensures |r| <= |s| && r == s[..|r|]
    ensures forall i :: 0 <= i < |r| ==> p(r[i])
    ensures |r| < |s| ==> !p(s[|r|])
    decreases |s|
  {
    if |s| > 0 && p(s[0]) then
      var r := TakeWhile(s[1..], p);
      assert [s[0]] + r == s[..|r| + 1];
      [s[0]] + r
    else []
  }

  /** Python's `str.strip()` with no argument. */
  function Strip(s: string): (r: string)
    ensures |r| <= |s|
    ensures |r| > 0 ==> !IsSpace(r[0]) && !IsSpace(r[|r| - 1])
    ensures |s| == 0 || (!IsSpace(s[0]) && !IsSpace(s[|s| - 1])) ==> r == s
    ensures |r| == 0 <==> forall i :: 0 <= i < |s| ==> IsSpace(s[i])
  {
    var t := DropWhile(s, IsSpace);
    var r := DropWhileEnd(t, IsSpace);
    if |r| == 0 then
      assert |t| == 0;
      r
    else
      assert r[0] == t[0];
      r
  }

  function LowerChar(c: char): char {
    if 'A' <= c <= 'Z' then (c as int + 32) as char else c
  }

  function UpperChar(c: char): char {
    if 'a' <= c <= 'z' then (c as int - 32) as char else c
  }

  /** Python's `str.lower` on ASCII letters. */
  function Lower(s: string): (r: string)
    ensures |r| == |s|
    ensures forall i :: 0 <= i < |s| ==> r[i] == LowerChar(s[i])
  {
    seq(|s|, i requires 0 <= i < |s| => LowerChar(s[i]))
  }

  /** Python's `str.upper` on ASCII letters. */
  function Upper(s: string): (r: string)
    ensures |r| == |s|
    ensures forall i :: 0 <= i < |s| ==> r[i] == UpperChar(s[i])
  {
    seq(|s|, i requires 0 <= i < |s| => UpperChar(s[i]))
  }

  predicate StartsWith(s: string, prefix: string) {
    |prefix| <= |s| && s[..|prefix|] == prefix
  }

  predicate EndsWith(s: string, suffix: string) {
    |suffix| <= |s| && s[|s| - |suffix|..] == suffix
  }

  /** `sub` occurs in `s` starting at index `k`. */
  predicate OccursAt(s: string, sub: string, k: int) {
    0 <= k && k + |sub| <= |s| && s[k..k + |sub|] == sub
  }

  /** Leftmost occurrence of `sub` in `s` at or after index `from`. */
  function IndexOfFrom(s: string, sub: string, from: nat): (r: Option<nat>)
    ensures r.Some? ==> from <= r.value && OccursAt(s, sub, r.value)
    ensures r.Some? ==> forall k :: from <= k < r.value ==> !OccursAt(s, sub, k)
    ensures r.None? ==> forall k :: from <= k ==> !OccursAt(s, sub, k)
    decreases |s| - from
  {
    if from + |sub| > |s| then None
    else if s[from..from + |sub|] == sub then Some(from)
    else IndexOfFrom(s, sub, from + 1)
  }

  /** Python's `s.find(sub)`, with None for -1. */
  function IndexOf(s: string, sub: string): (r: Option<nat>)
    ensures r.Some? ==> OccursAt(s, sub, r.value)
    ensures r.Some? ==> forall k :: 0 <= k < r.value ==> !OccursAt(s, sub, k)
    ensures r.None? ==> forall k :: !OccursAt(s, sub, k)
  {
    IndexOfFrom(s, sub, 0)
  }

  /** Python's `sub in s`. */
  predicate Contains(s: string, sub: string) {
    IndexOf(s, sub).Some?
  }

  lemma OccursInPrefix(s: string, sub: string, k: nat, j: int)
    requires k <= |s|
    requires OccursAt(s[..k], sub, j)
    ensures OccursAt(s, sub, j)
  {
    assert s[..k][j..j + |sub|] == s[j..j + |sub|];
  }

  lemma OccursInSuffix(s: string, sub: string, k: nat, j: int)
    requires k <= |s|
    requires OccursAt(s[k..], sub, j)
    ensures OccursAt(s, sub, k + j)
  {
    assert s[k..][j..j + |sub|] == s[k + j..k + j + |sub|];
  }

  /** Python's `"sep".join(parts)`. */
  function Join(parts: seq<string>, sep: string): string {
    if |parts| == 0 then ""
    else if |parts| == 1 then parts[0]
    else parts[0] + sep + Join(parts[1..], sep)
  }

  /** Python's `s.split(sep)` for a non-empty separator: the pieces between
      successive leftmost occurrences of `sep`. */
  function Split(s: string, sep: string): (r: seq<string>)
    requires |sep| > 0
    ensures |r| >= 1
    ensures forall i :: 0 <= i < |r| ==> !Contains(r[i], sep)
    ensures Join(r, sep) == s
    decreases |s|
  {
    match IndexOf(s, sep)
    case None => [s]
    case Some(k) =>
      var rest := Split(s[k + |sep|..], sep);
      assert !Contains(s[..k], sep) by {
        if Contains(s[..k], sep) {
          OccursInPrefix(s, sep, k, IndexOf(s[..k], sep).value);
        }
      }
      assert s[..k] + sep + s[k + |sep|..] == s;
      [s[..k]] + rest
  }

  /** The leftmost occurrence, characterised: it occurs at `k` and nowhere
      before. */
  lemma IndexOfIs(s: string, sub: string, k: nat)
    requires OccursAt(s, sub, k)
    requires forall j :: 0 <= j < k ==> !OccursAt(s, sub, j)
    ensures IndexOf(s, sub) == Some(k)
  {
  }

  /** Python's `s.replace(pat, repl)` for a non-empty `pat`: every leftmost
      non-overlapping occurrence is replaced. */
  function Replace(s: string, pat: string, repl: string): (r: string)
    requires |pat| > 0
    ensures !Contains(s, pat) ==> r == s
    decreases |s|
  {
    match IndexOf(s, pat)
    case None => s
    case Some(k) => s[..k] + repl + Replace(s[k + |pat|..], pat, repl)
  }

  /** Replacing is splitting and joining again: `s.replace(pat, repl) ==
      repl.join(s.split(pat))`. */
  lemma {:induction false} ReplaceIsJoinSplit(s: string, pat: string, repl: string)
    requires |pat| > 0
    ensures Replace(s, pat, repl) == Join(Split(s, pat), repl)
    decreases |s|
  {
    match IndexOf(s, pat)
    case None =>
    case Some(k) =>
      var rest := s[k + |pat|..];
      ReplaceIsJoinSplit(rest, pat, repl);
      SplitUnfold(s, pat, k);
      var parts := Split(s, pat);
      assert parts[1..] == Split(rest, pat);
      assert Join(parts, repl) == s[..k] + repl + Join(Split(rest, pat), repl);
  }

  /** A one-character separator occurs exactly where that character is. */
  lemma OccursAtChar(s: string, c: char, k: int)
    ensures OccursAt(s, [c], k) <==> 0 <= k < |s| && s[k] == c
  {
    if 0 <= k < |s| {
      assert s[k..k + 1] == [s[k]];
    }
  }

  /** A string without the character `c` does not contain `[c]`. */
  lemma NoCharNotContains(t: string, c: char)
    requires forall i :: 0 <= i < |t| ==> t[i] != c
    ensures !Contains(t, [c])
  {
    if Contains(t, [c]) {
      OccursAtChar(t, c, IndexOf(t, [c]).value);
    }
  }

  /** Appending a separator and a piece free of it appends one piece. */
  lemma {:induction false} SplitAppend(s: string, c: char, t: string)
    requires forall i :: 0 <= i < |t| ==> t[i] != c
    ensures Split(s + [c] + t, [c]) == Split(s, [c]) + [t]
    decreases |s|
  {
    match IndexOf(s, [c])
    case None =>
      SplitAppendLast(s, c, t);
    case Some(k) =>
      SplitAppend(s[k + 1..], c, t);
      SplitAppendStep(s, c, t, k);
  }

  /** The inductive step of `SplitAppend`, given the fact for the rest. */
  lemma SplitAppendStep(s: string, c: char, t: string, k: nat)
    requires IndexOf(s, [c]) == Some(k)
    requires Split(s[k + 1..] + [c] + t, [c]) == Split(s[k + 1..], [c]) + [t]
    ensures Split(s + [c] + t, [c]) == Split(s, [c]) + [t]
  {
    SplitAppendedUnfold(s, c, t, k);
    SplitUnfold(s, [c], k);
    ConcatAssoc([s[..k]], Split(s[k + 1..], [c]), [t]);
  }

  /** The first piece of `s + [c] + t` is the first piece of `s`. */
  lemma SplitAppendedUnfold(s: string, c: char, t: string, k: nat)
    requires IndexOf(s, [c]) == Some(k)
    ensures Split(s + [c] + t, [c]) == [s[..k]] + Split(s[k + 1..] + [c] + t, [c])
  {
    var u := s + [c] + t;
    OccursAtChar(s, c, k);
    FirstSeparatorKept(s, c, t, k);
    SplitUnfold(u, [c], k);
    assert u[..k] == s[..k];
    assert u[k + 1..] == s[k + 1..] + [c] + t;
  }

  /** One step of `Split`. */
  lemma SplitUnfold(s: string, sep: string, k: nat)
    requires |sep| > 0 && IndexOf(s, sep) == Some(k)
    ensures Split(s, sep) == [s[..k]] + Split(s[k + |sep|..], sep)
  {
  }

  lemma SplitAppendLast(s: string, c: char, t: string)
    requires forall i :: 0 <= i < |t| ==> t[i] != c
    requires IndexOf(s, [c]).None?
    ensures Split(s + [c] + t, [c]) == Split(s, [c]) + [t]
  {
    var u := s + [c] + t;
    NoCharNotContains(t, c);
    assert Split(t, [c]) == [t];
    forall j | 0 <= j < |s|
      ensures !OccursAt(u, [c], j)
    {
      OccursAtChar(u, c, j);
      OccursAtChar(s, c, j);
    }
    OccursAtChar(u, c, |s|);
    IndexOfIs(u, [c], |s|);
    SplitUnfold(u, [c], |s|);
    assert u[..|s|] == s;
    assert u[|s| + 1..] == t;
  }

  lemma FirstSeparatorKept(s: string, c: char, t: string, k: nat)
    requires IndexOf(s, [c]) == Some(k)
    ensures IndexOf(s + [c] + t, [c]) == Some(k)
  {
    var u := s + [c] + t;
    OccursAtChar(s, c, k);
    OccursAtChar(u, c, k);
    forall j | 0 <= j < k
      ensures !OccursAt(u, [c], j)
    {
      OccursAtChar(u, c, j);
      OccursAtChar(s, c, j);
    }
    IndexOfIs(u, [c], k);
  }

  /** Python's `s.split(sep, 1)` when `sep in s`: the text before and after the
      leftmost occurrence. */
  function SplitOnce(s: string, sep: string): (r: (string, string))
    requires |sep| > 0 && Contains(s, sep)
    ensures r.0 + sep + r.1 == s
    ensures !Contains(r.0, sep)
    ensures r.0 == Split(s, sep)[0]
  {
    var k := IndexOf(s, sep).value;
    assert !Contains(s[..k], sep) by {
      if Contains(s[..k], sep) {
        OccursInPrefix(s, sep, k, IndexOf(s[..k], sep).value);
      }
    }
    assert s[..k] + sep + s[k + |sep|..] == s;
    (s[..k], s[k + |sep|..])
  }

  /** Splitting `a + [c] + b` once at `c`, when `a` holds no `c`, gives
      back `a` and `b`. */
  lemma SplitOnceChar(a: string, c: char, b: string)
    requires forall i :: 0 <= i < |a| ==> a[i] != c
    ensures Contains(a + [c] + b, [c])
    ensures SplitOnce(a + [c] + b, [c]) == (a, b)
  {
    var s := a + [c] + b;
    OccursAtChar(s, c, |a|);
    forall j | 0 <= j < |a|
      ensures !OccursAt(s, [c], j)
    {
      OccursAtChar(s, c, j);
    }
    IndexOfIs(s, [c], |a|);
    assert s[..|a|] == a && s[|a| + 1..] == b;
  }

  /** Python's `s.rfind(c)` for one character, with None for -1. */
  function RFind(s: string, c: char): (r: Option<nat>)
    ensures r.Some? ==> r.value < |s| && s[r.value] == c
    ensures r.Some? ==> forall j :: r.value < j < |s| ==> s[j] != c
    ensures r.None? ==> forall j :: 0 <= j < |s| ==> s[j] != c
  {
    if |s| == 0 then None
    else if s[|s| - 1] == c then Some(|s| - 1)
    else RFind(s[..|s| - 1], c)
  }

  /** A non-empty run of non-space characters. */
  predicate IsWord(w: string) {
    |w| > 0 && forall j :: 0 <= j < |w| ==> !IsSpace(w[j])
  }

  predicate NotSpace(c: char) {
    !IsSpace(c)
  }

  /** The length of the run of non-space characters that starts `s`. */
  function WordLength(s: string): (n: nat)
    ensures n <= |s|
    ensures forall j :: 0 <= j < n ==> !IsSpace(s[j])
    ensures n < |s| ==> IsSpace(s[n])
  {
    if |s| == 0 || IsSpace(s[0]) then 0 else 1 + WordLength(s[1..])
  }

  /** Python's `s.split()` with no argument: the maximal runs of non-space
      characters, in order. */
  function SplitWhitespace(s: string): (r: seq<string>)
    ensures forall i :: 0 <= i < |r| ==> IsWord(r[i])
    ensures |r| == 0 <==> forall i :: 0 <= i < |s| ==> IsSpace(s[i])
    decreases |s|
  {
    if |s| == 0 then []
    else if IsSpace(s[0]) then
      var r := SplitWhitespace(s[1..]);
      assert forall i :: 1 <= i < |s| ==> s[i] == s[1..][i - 1];
      r
    else
      var n := WordLength(s);
      [s[..n]] + SplitWhitespace(s[n..])
  }

  /** Digits with single underscores between them, as Python's `int()` admits. */
  predicate IsUnderscoredDigits(t: string) {
    && |t| > 0
    && IsDigit(t[0])
    && IsDigit(t[|t| - 1])
    && (forall i :: 0 <= i < |t| ==> IsDigit(t[i]) || t[i] == '_')
    && (forall i :: 0 <= i < |t| - 1 ==> t[i] == '_' ==> t[i + 1] != '_')
  }

  function RemoveUnderscores(t: string): (r: string)
    requires forall i :: 0 <= i < |t| ==> IsDigit(t[i]) || t[i] == '_'
    ensures AllDigits(r)
    ensures AllDigits(t) ==> r == t
  {
    if |t| == 0 then ""
    else if t[0] == '_' then RemoveUnderscores(t[1..])
    else [t[0]] + RemoveUnderscores(t[1..])
  }

  function UnsignedValue(t: string): Option<nat> {
    if IsUnderscoredDigits(t) then Some(DecimalValue(RemoveUnderscores(t))) else None
  }

  /** Python's `int(s)` on a string: surrounding whitespace, one optional
      sign, and underscore-separated decimal digits; None where Python raises
      `ValueError`. */
  function PyInt(s: string): (r: Option<int>)
    ensures IsDigits(s) ==> r == Some(DecimalValue(s))
    ensures (forall i :: 0 <= i < |s| ==> !IsDigit(s[i])) ==> r.None?
  {
    PyIntCases(s);
    SignedValue(Strip(s))
  }

  lemma PyIntCases(s: string)
    ensures IsDigits(s) ==> SignedValue(Strip(s)) == Some(DecimalValue(s))
    ensures (forall i :: 0 <= i < |s| ==> !IsDigit(s[i])) ==> SignedValue(Strip(s)).None?
  {
    if IsDigits(s) {
      DigitsParse(s);
    }
    if forall i :: 0 <= i < |s| ==> !IsDigit(s[i]) {
      NoDigitsAfterStrip(s);
      NoDigitsNoValue(Strip(s));
    }
  }

  lemma NoDigitsNoValue(t: string)
    requires forall i :: 0 <= i < |t| ==> !IsDigit(t[i])
    ensures SignedValue(t).None?
  {
    if |t| > 1 {
      assert !IsDigit(t[1..][0]);
    }
  }

  /** An optional sign followed by underscored digits. */
  function SignedValue(t: string): Option<int> {
    if |t| > 0 && (t[0] == '+' || t[0] == '-') then
      match UnsignedValue(t[1..])
      case None => None
      case Some(v) => var n: int := v; Some(if t[0] == '-' then -n else n)
    else
      match UnsignedValue(t)
      case None => None
      case Some(v) => Some(v)
  }

  lemma DigitsParse(s: string)
    requires IsDigits(s)
    ensures SignedValue(Strip(s)) == Some(DecimalValue(s))
  {
    assert !IsSpace(s[0]) && !IsSpace(s[|s| - 1]);
    assert Strip(s) == s;
    DigitsUnsigned(s);
    assert !(s[0] == '+' || s[0] == '-');
  }

  lemma DigitsUnsigned(s: string)
    requires IsDigits(s)
    ensures UnsignedValue(s) == Some(DecimalValue(s))
  {
    assert IsUnderscoredDigits(s);
    assert RemoveUnderscores(s) == s;
  }

  lemma NoDigitsAfterStrip(s: string)
    requires forall i :: 0 <= i < |s| ==> !IsDigit(s[i])
    ensures forall i :: 0 <= i < |Strip(s)| ==> !IsDigit(Strip(s)[i])
  {
    var t := DropWhile(s, IsSpace);
    assert forall i :: 0 <= i < |t| ==> !IsDigit(t[i]) by {
      assert forall i :: 0 <= i < |t| ==> t[i] == s[|s| - |t| + i];
    }
    var r := DropWhileEnd(t, IsSpace);
    assert forall i :: 0 <= i < |r| ==> r[i] == t[i];
  }
}
