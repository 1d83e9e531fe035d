/** Python `str` operations the upload code relies on, over `seq<char>`: whitespace trimming,
    case mapping (restricted to the Latin-1 letters), `in`, `split`, decimal rendering,
    `zfill` and code-point ordering. */
module Strings {
  import opened Seqs

  /** Python's `str.isspace()`; it is also the class `\s` matches in a `str` regular expression. */
  predicate IsSpace(c: char) {
    ('\t' <= c <= '\r') || ('\U{001C}' <= c <= ' ') || c == '\U{0085}' || c == '\U{00A0}'
    || c == '\U{1680}' || ('\U{2000}' <= c <= '\U{200A}') || c == '\U{2028}' || c == '\U{2029}'
    || c == '\U{202F}' || c == '\U{205F}' || c == '\U{3000}'
  }

  predicate IsDigit(c: char) { '0' <= c <= '9' }

  predicate AllDigits(s: string) { forall k :: 0 <= k < |s| ==> IsDigit(s[k]) }

  /** Lower-case letters whose upper-case form is one code point, 32 below (ASCII and Latin-1). */
  predicate IsLowerLetter(c: char) { 'a' <= c <= 'z' || ('à' <= c <= 'þ' && c != '÷') }

  predicate IsUpperLetter(c: char) { 'A' <= c <= 'Z' || ('À' <= c <= 'Þ' && c != '×') }

  function UpperChar(c: char): (u: char)
    ensures !IsLowerLetter(u)
    ensures IsSpace(u) == IsSpace(c) && IsDigit(u) == IsDigit(c)
  {
    if IsLowerLetter(c) then (c as int - 32) as char else c
  }

  function LowerChar(c: char): (l: char)
    ensures !IsUpperLetter(l)
    ensures IsSpace(l) == IsSpace(c) && IsDigit(l) == IsDigit(c)
  {
    if IsUpperLetter(c) then (c as int + 32) as char else c
  }

  /** `str.upper()` */
  function Upper(s: string): (r: string)
    ensures |r| == |s|
  {
    seq(|s|, i requires 0 <= i < |s| => UpperChar(s[i]))
  }

  /** `str.lower()` */
  function Lower(s: string): (r: string)
    ensures |r| == |s|
  {
    seq(|s|, i requires 0 <= i < |s| => LowerChar(s[i]))
  }

  /** `str.capitalize()`: the first character upper-cased and, unlike a plain title-casing
      of the first letter, every other character lower-cased. */
  function Capitalize(s: string): (r: string)
    ensures |r| == |s|
  {
    if s == [] then [] else [UpperChar(s[0])] + Lower(s[1..])
  }

  /** `str.lstrip()` */
  function TrimLeft(s: string): (r: string)
    ensures |r| <= |s| && r == s[|s| - |r|..]
    ensures r == [] || !IsSpace(r[0])
    ensures forall k :: 0 <= k < |s| - |r| ==> IsSpace(s[k])
  {
    if s != [] && IsSpace(s[0]) then TrimLeft(s[1..]) else s
  }

  /** `str.rstrip()` */
  function TrimRight(s: string): (r: string)
    ensures |r| <= |s| && r == s[..|r|]
    ensures r == [] || !IsSpace(r[|r| - 1])
    ensures forall k :: |r| <= k < |s| ==> IsSpace(s[k])
  {
    if s != [] && IsSpace(s[|s| - 1]) then TrimRight(s[..|s| - 1]) else s
  }

  /** `str.strip()`: neither end of the result is white space. */
  function Strip(s: string): (r: string)
    ensures |r| <= |s|
    ensures r == [] || (!IsSpace(r[0]) && !IsSpace(r[|r| - 1]))
  {
    TrimRight(TrimLeft(s))
  }

  /** Every character of `strip`'s result comes from its input. */
  lemma StripChars(s: string)
    ensures forall k :: 0 <= k < |Strip(s)| ==> Strip(s)[k] in s
  {
    var l := TrimLeft(s);
    var r := TrimRight(l);
    forall k | 0 <= k < |r| ensures r[k] in s {
      assert r[k] == l[k] == s[|s| - |l| + k];
    }
  }

  /** No white space at either end. */
  predicate Trimmed(s: string) { s == [] || (!IsSpace(s[0]) && !IsSpace(s[|s| - 1])) }

  /** A string with no white space at either end is left alone by `strip`. */
  lemma StripTrimmed(s: string)
    requires Trimmed(s)
    ensures Strip(s) == s
  {
  }

  /** A string of digits has no blank at either end. */
  lemma DigitsTrimmed(s: string)
    requires AllDigits(s)
    ensures Trimmed(s)
  {
    if s != [] {
      assert IsDigit(s[0]) && IsDigit(s[|s| - 1]);
    }
  }

  predicate AllSpaces(s: string) { forall k :: 0 <= k < |s| ==> IsSpace(s[k]) }

  /** Blanks in front of a string do not survive `lstrip`. */
  lemma {:induction false} TrimLeftPadded(pre: string, s: string)
    requires AllSpaces(pre)
    ensures TrimLeft(pre + s) == TrimLeft(s)
  {
    if pre == [] {
      assert pre + s == s;
    } else {
      assert (pre + s)[1..] == pre[1..] + s;
      TrimLeftPadded(pre[1..], s);
    }
  }

  /** Once a non-blank character is reached, `lstrip` keeps everything after it. */
  lemma {:induction false} TrimLeftAppend(s: string, post: string)
    requires TrimLeft(s) != []
    ensures TrimLeft(s + post) == TrimLeft(s) + post
    decreases |s|
  {
    var t := s + post;
    assert s != [] && t[0] == s[0];
    if IsSpace(s[0]) {
      var rest := s[1..];
      assert t[1..] == rest + post;
      TrimLeftStep(t);
      TrimLeftStep(s);
      TrimLeftAppend(rest, post);
    }
  }

  /** `lstrip` removes a leading blank and then carries on with the rest. */
  lemma TrimLeftStep(s: string)
    requires s != [] && IsSpace(s[0])
    ensures TrimLeft(s) == TrimLeft(s[1..])
  {
  }

  /** Blanks after a string do not survive `rstrip`. */
  lemma {:induction false} TrimRightPadded(s: string, post: string)
    requires AllSpaces(post)
    ensures TrimRight(s + post) == TrimRight(s)
  {
    if post == [] {
      assert s + post == s;
    } else {
      var init := post[..|post| - 1];
      assert (s + post)[..|s + post| - 1] == s + init;
      TrimRightPadded(s, init);
    }
  }

  /** One blank after a trimmed word is stripped away. */
  lemma StripSpaceAfter(s: string, sp: string)
    requires Trimmed(s) && s != [] && sp == " "
    ensures Strip(s + sp) == s
  {
    assert TrimLeft(s) == s;
    TrimLeftAppend(s, sp);
    TrimRightPadded(s, sp);
    assert TrimRight(s) == s;
  }

  /** One blank before a trimmed word is stripped away. */
  lemma StripSpaceBefore(s: string, sp: string)
    requires Trimmed(s) && s != [] && sp == " "
    ensures Strip(sp + s) == s
  {
    TrimLeftPadded(sp, s);
    assert TrimLeft(s) == s;
    assert TrimRight(s) == s;
  }

  /** `strip` ignores any extra blank padding. */
  lemma StripPadded(pre: string, s: string, post: string)
    requires AllSpaces(pre) && AllSpaces(post)
    ensures Strip(pre + s + post) == Strip(s)
  {
    assert pre + s + post == pre + (s + post);
    TrimLeftPadded(pre, s + post);
    if TrimLeft(s) == [] {
      assert AllSpaces(s);
      TrimLeftPadded(s, post);
      TrimLeftPadded(post, []);
      assert post + [] == post;
    } else {
      TrimLeftAppend(s, post);
      TrimRightPadded(TrimLeft(s), post);
    }
  }

  lemma UpperAppend(a: string, b: string)
    ensures Upper(a + b) == Upper(a) + Upper(b)
  {
  }

  /** Upper-casing a lower-cased string gives the upper-case form of the original. */
  lemma UpperLower(s: string)
    ensures Upper(Lower(s)) == Upper(s)
  {
  }

  /** Upper-casing is idempotent. */
  lemma UpperUpper(s: string)
    ensures Upper(Upper(s)) == Upper(s)
  {
  }

  /** A string none of whose characters is a lower-case letter is its own upper-case form. */
  lemma UpperOfUpper(s: string)
    requires forall k :: 0 <= k < |s| ==> !IsLowerLetter(s[k])
    ensures Upper(s) == s
  {
  }

  /** Lower-casing is idempotent. */
  lemma LowerLower(s: string)
    ensures Lower(Lower(s)) == Lower(s)
  {
  }

  /** Lower-casing a capitalized string with no upper-case letter gives the string back. */
  lemma LowerCapitalize(s: string)
    requires forall k :: 0 <= k < |s| ==> !IsUpperLetter(s[k])
    ensures Lower(Capitalize(s)) == s
  {
    if s != [] {
      var c := Capitalize(s);
      assert c[0] == UpperChar(s[0]);
      forall k | 0 <= k < |s| ensures Lower(c)[k] == s[k] {
        if k > 0 {
          assert c[k] == LowerChar(s[k]);
        }
      }
    }
  }

  /** Python's `s.startswith(p)`. */
  predicate StartsWith(s: string, p: string) { |p| <= |s| && s[..|p|] == p }

  /** A string starting with `q` starts with every prefix of `q`. */
  lemma StartsWithSelf(s: string)
    ensures StartsWith(s, s)
  {
  }

  lemma StartsWithPrefix(s: string, q: string, p: string)
    requires StartsWith(s, q) && StartsWith(q, p)
    ensures StartsWith(s, p)
  {
    assert s[..|p|] == s[..|q|][..|p|];
  }

  /** `sep` occurs in `s` starting at index `k`. */
  predicate OccursAt(s: string, sep: string, k: nat) {
    k + |sep| <= |s| && s[k..k + |sep|] == sep
  }

  /** The first index at or after `from` where `sep` occurs in `s` (the search behind
      `sep in s`, `str.find` and `str.split`). */
  function FindFrom(s: string, sep: string, from: nat): (r: Option<nat>)
    requires |sep| > 0
    decreases |s| - from
    ensures r.Some? ==> from <= r.value && OccursAt(s, sep, r.value)
    ensures r.Some? ==> forall k :: from <= k < r.value ==> !OccursAt(s, sep, k)
    ensures r.None? ==> forall k :: from <= k ==> !OccursAt(s, sep, k)
  {
    if from + |sep| > |s| then None
    else if s[from..from + |sep|] == sep then Some(from)
    else FindFrom(s, sep, from + 1)
  }

  /** Python's `sep in s`. */
  predicate Contains(s: string, sep: string)
    requires |sep| > 0
  {
    FindFrom(s, sep, 0).Some?
  }

  /** If no character from `from` up to `j` can start `sep` and `sep` occurs at `j`, the search finds `j`. */
  lemma {:induction false} FindFromAt(s: string, sep: string, from: nat, j: nat)
    requires |sep| > 0 && from <= j && j + |sep| <= |s| && s[j..j + |sep|] == sep
    requires forall k :: from <= k < j ==> s[k] != sep[0]
    ensures FindFrom(s, sep, from) == Some(j)
    decreases j - from
  {
    if from < j {
      assert s[from..from + |sep|][0] == s[from];
      assert !OccursAt(s, sep, from);
      FindFromAt(s, sep, from + 1, j);
    }
  }

  /** If no character from `from` on can start `sep`, the search fails. */
  lemma {:induction false} FindFromAbsent(s: string, sep: string, from: nat)
    requires |sep| > 0
    requires forall k :: from <= k < |s| ==> s[k] != sep[0]
    ensures FindFrom(s, sep, from).None?
    decreases |s| - from
  {
    if from + |sep| <= |s| {
      assert s[from..from + |sep|][0] == s[from];
      FindFromAbsent(s, sep, from + 1);
    }
  }

  /** Python's `s.split(sep)`: cut at every non-overlapping occurrence, left to right. */
  function Split(s: string, sep: string): (parts: seq<string>)
    requires |sep| > 0
    ensures |parts| >= 1
    decreases |s|
  {
    match FindFrom(s, sep, 0)
    case None => [s]
    case Some(i) => [s[..i]] + Split(s[i + |sep|..], sep)
  }

  /** Python's `sep.join(parts)`. */
  function Join(parts: seq<string>, sep: string): string {
    if parts == [] then ""
    else if |parts| == 1 then parts[0]
    else parts[0] + sep + Join(parts[1..], sep)
  }

  /** Splitting loses nothing: joining the pieces back with the separator rebuilds the string. */
  lemma {:induction false} JoinSplit(s: string, sep: string)
    requires |sep| > 0
    ensures Join(Split(s, sep), sep) == s
    decreases |s|
  {
    match FindFrom(s, sep, 0)
    case None =>
    case Some(i) =>
      var rest := s[i + |sep|..];
      var tail := Split(rest, sep);
      JoinSplit(rest, sep);
      var parts := [s[..i]] + tail;
      assert Split(s, sep) == parts;
      assert |parts| >= 2 && parts[0] == s[..i] && parts[1..] == tail;
      assert Join(parts, sep) == s[..i] + sep + rest;
      assert s == s[..i] + s[i..i + |sep|] + rest;
  }

  /** No piece of a split contains the separator, and there are several pieces exactly when
      the separator occurs. */
  lemma {:induction false} SplitPieces(s: string, sep: string)
    requires |sep| > 0
    ensures |Split(s, sep)| >= 2 <==> Contains(s, sep)
    ensures forall k :: 0 <= k < |Split(s, sep)| ==> !Contains(Split(s, sep)[k], sep)
    decreases |s|
  {
    match FindFrom(s, sep, 0)
    case None =>
    case Some(i) =>
      var rest := s[i + |sep|..];
      var tail := Split(rest, sep);
      SplitPieces(rest, sep);
      var head := s[..i];
      var parts := [head] + tail;
      assert Split(s, sep) == parts;
      if Contains(head, sep) {
        var j := FindFrom(head, sep, 0).value;
        assert j + |sep| <= |head| == i && head[j..j + |sep|] == sep;
        assert s[j..j + |sep|] == head[j..j + |sep|] by {
          forall t | j <= t < j + |sep| ensures s[t] == head[t] {
          }
        }
        assert OccursAt(s, sep, j);
        assert false;
      }
      forall k | 0 <= k < |parts| ensures !Contains(parts[k], sep) {
        if k > 0 { assert parts[k] == tail[k - 1]; }
      }
  }

  /** When no character of `a` can start `sep`, the first cut falls right after `a`. */
  lemma SplitAfter(a: string, sep: string, b: string)
    requires |sep| > 0
    requires forall k :: 0 <= k < |a| ==> a[k] != sep[0]
    ensures Split(a + sep + b, sep) == [a] + Split(b, sep)
  {
    var s := a + sep + b;
    assert s[|a|..|a| + |sep|] == sep;
    FindFromAt(s, sep, 0, |a|);
    assert s[..|a|] == a;
    assert s[|a| + |sep|..] == b;
  }

  /** Two pieces with no character that can start `sep`, joined by `sep`, split back into
      those two pieces. */
  lemma SplitTwo(a: string, sep: string, b: string)
    requires |sep| > 0
    requires forall k :: 0 <= k < |a| ==> a[k] != sep[0]
    requires forall k :: 0 <= k < |b| ==> b[k] != sep[0]
    ensures Split(a + sep + b, sep) == [a, b] && Contains(a + sep + b, sep)
  {
    SplitAfter(a, sep, b);
    SplitNone(b, sep);
    SplitPieces(a + sep + b, sep);
  }

  /** The same with three pieces. */
  lemma SplitThree(a: string, b: string, c: string, sep: string)
    requires |sep| > 0
    requires forall k :: 0 <= k < |a| ==> a[k] != sep[0]
    requires forall k :: 0 <= k < |b| ==> b[k] != sep[0]
    requires forall k :: 0 <= k < |c| ==> c[k] != sep[0]
    ensures Split(a + sep + b + sep + c, sep) == [a, b, c] && Contains(a + sep + b + sep + c, sep)
  {
    var r := b + sep + c;
    SplitTwo(b, sep, c);
    SplitAfter(a, sep, r);
    SplitContains(a + sep + r, sep);
    ConcatFive(a, sep, b, sep, c);
  }

  lemma ConcatFive(a: string, b: string, c: string, d: string, e: string)
    ensures a + b + c + d + e == a + b + (c + d + e)
  {
  }

  /** A string that splits into more than one piece contains the separator. */
  lemma SplitContains(s: string, sep: string)
    requires |sep| > 0 && |Split(s, sep)| >= 2
    ensures Contains(s, sep)
  {
  }

  /** A string in which no character can start `sep` is a single piece. */
  lemma SplitNone(s: string, sep: string)
    requires |sep| > 0
    requires forall k :: 0 <= k < |s| ==> s[k] != sep[0]
    ensures Split(s, sep) == [s]
  {
    FindFromAbsent(s, sep, 0);
  }

  function DigitChar(d: nat): (c: char)
    requires d < 10
    ensures IsDigit(c)
  {
    ('0' as int + d) as char
  }

  function DigitValue(c: char): (d: nat)
    requires IsDigit(c)
    ensures d < 10 && DigitChar(d) == c
  {
    c as int - '0' as int
  }

  /** `str(n)` for a natural number: its decimal digits, most significant first, no leading zero. */
  function NatToString(n: nat): (s: string)
    ensures |s| >= 1 && AllDigits(s)
    ensures |s| > 1 ==> s[0] != '0'
    ensures n < 10 <==> |s| == 1
    decreases n
  {
    if n < 10 then [DigitChar(n)] else NatToString(n / 10) + [DigitChar(n % 10)]
  }

  /** `str(i)` for any integer. */
  function IntToString(i: int): (s: string)
    ensures |s| >= 1 && (IsDigit(s[0]) || s[0] == '-')
    ensures forall k :: 0 <= k < |s| ==> IsDigit(s[k]) || s[k] == '-'
  {
    if i < 0 then "-" + NatToString(-i) else NatToString(i)
  }

  /** The number a string of decimal digits denotes (leading zeros allowed). */
  function DigitsValue(s: string): nat
    requires AllDigits(s)
    decreases |s|
  {
    if s == [] then 0 else DigitsValue(s[..|s| - 1]) * 10 + DigitValue(s[|s| - 1])
  }

  /** Reading back the decimal rendering of a number gives the number. */
  lemma {:induction false} NatToStringValue(n: nat)
    ensures DigitsValue(NatToString(n)) == n
    decreases n
  {
    if n >= 10 {
      NatToStringValue(n / 10);
      var s := NatToString(n);
      assert s[..|s| - 1] == NatToString(n / 10);
    }
  }

  function Zeros(k: nat): (z: string)
    ensures |z| == k && AllDigits(z)
    ensures forall i :: 0 <= i < k ==> z[i] == '0'
  {
    seq(k, i => '0')
  }

  /** Python's `s.zfill(width)` for an unsigned string: left-padded with '0' up to `width`. */
  function ZFill(s: string, width: nat): (r: string)
    ensures |r| == if |s| >= width then |s| else width
  {
    if |s| >= width then s else Zeros(width - |s|) + s
  }

  /** `str(n).zfill(2)`: a number written with at least two digits. */
  function Pad2(n: nat): string {
    ZFill(NatToString(n), 2)
  }

  /** A number below 100 written with two digits reads back as itself. */
  lemma Pad2Value(n: nat)
    requires n < 100
    ensures |Pad2(n)| == 2 && AllDigits(Pad2(n)) && DigitsValue(Pad2(n)) == n
  {
    NatToStringValue(n);
    if n < 10 {
      ZerosValue(1, NatToString(n));
    } else {
      assert NatToString(n / 10) == [DigitChar(n / 10)];
    }
  }

  /** Leading zeros do not change the value of a digit string. */
  lemma {:induction false} ZerosValue(k: nat, s: string)
    requires AllDigits(s)
    ensures AllDigits(Zeros(k) + s) && DigitsValue(Zeros(k) + s) == DigitsValue(s)
    decreases |s|
  {
    var z := Zeros(k) + s;
    if s == [] {
      assert z == Zeros(k);
      ZerosOnly(k);
    } else {
      assert z[..|z| - 1] == Zeros(k) + s[..|s| - 1];
      ZerosValue(k, s[..|s| - 1]);
    }
  }

  lemma {:induction false} ZerosOnly(k: nat)
    ensures DigitsValue(Zeros(k)) == 0
  {
    if k > 0 {
      assert Zeros(k)[..k - 1] == Zeros(k - 1);
      ZerosOnly(k - 1);
    }
  }

  /** Python's `<` on `str`: code-point lexicographic order. */
  predicate LexLess(a: string, b: string) {
    if a == [] then b != []
    else if b == [] then false
    else if a[0] != b[0] then a[0] < b[0]
    else LexLess(a[1..], b[1..])
  }

  lemma {:induction false} LexLessIrreflexive(a: string)
    ensures !LexLess(a, a)
  {
    if a != [] { LexLessIrreflexive(a[1..]); }
  }

  lemma {:induction false} LexLessTransitive(a: string, b: string, c: string)
    requires LexLess(a, b) && LexLess(b, c)
    ensures LexLess(a, c)
  {
    if a != [] && b != [] && c != [] && a[0] == b[0] && b[0] == c[0] {
      LexLessTransitive(a[1..], b[1..], c[1..]);
    }
  }

  /** Two different strings are always ordered one way or the other. */
  lemma {:induction false} LexLessTotal(a: string, b: string)
    requires a != b
    ensures LexLess(a, b) || LexLess(b, a)
  {
    if a != [] && b != [] && a[0] == b[0] {
      assert a == [a[0]] + a[1..] && b == [b[0]] + b[1..];
      LexLessTotal(a[1..], b[1..]);
    }
  }
}
