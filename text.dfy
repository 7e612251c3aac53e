/** The Python string built-ins the core relies on, restated over
    `seq<char>`: `str.split(sep)` with a one-character separator,
    `str.strip()`, prefix and substring tests, decimal digits and
    `int(str)`. Only ASCII digits are treated as digits (Python also
    accepts other Unicode decimal digits). */
module Text {
  import opened Wrappers

  predicate IsDigit(c: char) { '0' <= c <= '9' }

  /** The characters for which Python's `str.isspace()` holds: what
      `str.strip()` removes and what the regular-expression class `\s`
      matches. */
  predicate IsSpace(c: char) {
    || ('\t' <= c <= '\r')
    || ('\U{1C}' <= c <= ' ')
    || c == '\U{85}' || c == '\U{A0}' || c == '\U{1680}'
    || ('\U{2000}' <= c <= '\U{200A}')
    || c == '\U{2028}' || c == '\U{2029}' || c == '\U{202F}' || c == '\U{205F}' || c == '\U{3000}'
  }

  predicate AllDigits(s: string) { forall i :: 0 <= i < |s| ==> IsDigit(s[i]) }

  function DigitValue(c: char): (d: nat)
    requires IsDigit(c)
    ensures d < 10
  {
    c as int - '0' as int
  }

  function DigitChar(d: nat): (c: char)
    requires d < 10
    ensures IsDigit(c) && DigitValue(c) == d
  {
    ('0' as int + d) as char
  }

  /** The number a string of decimal digits denotes, most significant first. */
  function Value(s: string): nat
    requires AllDigits(s)
    decreases |s|
  {
    if s == [] then 0 else 10 * Value(s[..|s| - 1]) + DigitValue(s[|s| - 1])
  }

  function Pow10(n: nat): nat
  {
    if n == 0 then 1 else 10 * Pow10(n - 1)
  }

  lemma {:induction false} ValueBelow(s: string)
    requires AllDigits(s)
    ensures Value(s) < Pow10(|s|)
    decreases |s|
  {
    if s != [] {
      ValueBelow(s[..|s| - 1]);
    }
  }

  /** The shortest decimal rendering of `n` (Python's `str(n)` for n >= 0). */
  function Decimal(n: nat): string
    decreases n
  {
    if n < 10 then [DigitChar(n)] else Decimal(n / 10) + [DigitChar(n % 10)]
  }

  lemma {:induction false} DecimalValue(n: nat)
    ensures AllDigits(Decimal(n)) && |Decimal(n)| >= 1
    ensures Value(Decimal(n)) == n
  {
    if n >= 10 {
      DecimalValue(n / 10);
      var s := Decimal(n);
      assert s[..|s| - 1] == Decimal(n / 10);
    }
  }

  /** `'%02d' % n`: two zero-padded digits. */
  function Pad2(n: nat): string
    requires n < 100
  {
    [DigitChar(n / 10), DigitChar(n % 10)]
  }

  /** `'%04d' % n`: four zero-padded digits. */
  function Pad4(n: nat): string
    requires n < 10000
  {
    [DigitChar(n / 1000), DigitChar(n / 100 % 10), DigitChar(n / 10 % 10), DigitChar(n % 10)]
  }

  lemma Pad2Value(n: nat)
    requires n < 100
    ensures |Pad2(n)| == 2 && AllDigits(Pad2(n)) && Value(Pad2(n)) == n
  {
    var s := Pad2(n);
    assert s[..1][..0] == [];
    assert Value(s[..1]) == n / 10;
    assert Value(s) == 10 * Value(s[..1]) + n % 10;
  }

  /** The decimal places of a number below 10000. */
  lemma PlaceValues(n: nat)
    requires n < 10000
    ensures n / 100 == 10 * (n / 1000) + n / 100 % 10
    ensures n / 10 == 10 * (n / 100) + n / 10 % 10
    ensures n == 10 * (n / 10) + n % 10
  {
  }

  lemma Pad4Value(n: nat)
    requires n < 10000
    ensures |Pad4(n)| == 4 && AllDigits(Pad4(n)) && Value(Pad4(n)) == n
  {
    PlaceValues(n);
    var s := Pad4(n);
    assert s[..1][..0] == [];
    assert s[..2][..1] == s[..1];
    assert s[..3][..2] == s[..2];
    assert Value(s[..1]) == n / 1000;
    assert Value(s[..2]) == n / 100;
    assert Value(s[..3]) == n / 10;
    assert Value(s) == 10 * (n / 10) + n % 10;
  }

  /** Length of the longest run of digits at the start of `s`. */
  function DigitRun(s: string): (n: nat)
    ensures n <= |s| && AllDigits(s[..n])
    ensures n < |s| ==> !IsDigit(s[n])
    decreases |s|
  {
    if s == [] || !IsDigit(s[0]) then 0
    else
      var k := DigitRun(s[1..]);
      assert s[..k + 1] == [s[0]] + s[1..][..k];
      1 + k
  }

  lemma {:induction false} DigitRunOfDigits(ds: string, rest: string)
    requires AllDigits(ds)
    requires rest == [] || !IsDigit(rest[0])
    ensures DigitRun(ds + rest) == |ds|
    decreases |ds|
  {
    if ds != [] {
      assert (ds + rest)[1..] == ds[1..] + rest;
      DigitRunOfDigits(ds[1..], rest);
    } else {
      assert ds + rest == rest;
    }
  }

  /** Length of the longest run of white space at the start of `s`. */
  function LeadingSpaces(s: string): (n: nat)
    ensures n <= |s| && (forall i :: 0 <= i < n ==> IsSpace(s[i]))
    ensures n < |s| ==> !IsSpace(s[n])
    decreases |s|
  {
    if s == [] || !IsSpace(s[0]) then 0 else 1 + LeadingSpaces(s[1..])
  }

  /** Length of the longest run of white space at the end of `s`. */
  function TrailingSpaces(s: string): (n: nat)
    ensures n <= |s| && (forall i :: |s| - n <= i < |s| ==> IsSpace(s[i]))
    ensures n < |s| ==> !IsSpace(s[|s| - 1 - n])
    decreases |s|
  {
    if s == [] || !IsSpace(s[|s| - 1]) then 0 else 1 + TrailingSpaces(s[..|s| - 1])
  }

  /** Where `str.strip()` starts keeping characters. */
  function StripStart(s: string): (i: nat)
    ensures i <= |s| && (forall k :: 0 <= k < i ==> IsSpace(s[k]))
    ensures i < |s| ==> !IsSpace(s[i])
  {
    LeadingSpaces(s)
  }

  /** Where `str.strip()` stops keeping characters. */
  function StripEnd(s: string): (j: nat)
    ensures StripStart(s) <= j <= |s|
    ensures forall k :: j <= k < |s| ==> IsSpace(s[k])
    ensures StripStart(s) < j ==> !IsSpace(s[j - 1])
  {
    var i := StripStart(s);
    var n := TrailingSpaces(s);
    if |s| - n < i then i else |s| - n
  }

  /** `s.strip()`: `s` without its leading and trailing white space. */
  function Strip(s: string): string
  {
    s[StripStart(s)..StripEnd(s)]
  }

  lemma StripKeeps(s: string)
    requires s != [] && !IsSpace(s[0]) && !IsSpace(s[|s| - 1])
    ensures StripStart(s) == 0 && StripEnd(s) == |s| && Strip(s) == s
  {
    assert StripStart(s) == 0;
  }

  /** Index of the first `c` in `s`, or `|s|` when there is none. */
  function IndexOf(s: string, c: char): (i: nat)
    ensures i <= |s| && c !in s[..i]
    ensures i < |s| ==> s[i] == c
    ensures i == |s| <==> c !in s
    decreases |s|
  {
    if s == [] then 0
    else if s[0] == c then 0
    else
      var k := IndexOf(s[1..], c);
      assert s[..k + 1] == [s[0]] + s[1..][..k];
      assert s == [s[0]] + s[1..];
      k + 1
  }

  /** `IndexOf` is determined by its contract. */
  lemma IndexOfAt(s: string, c: char, k: nat)
    requires k <= |s| && c !in s[..k] && (k < |s| ==> s[k] == c)
    ensures IndexOf(s, c) == k
  {
  }

  /** `s.split(sep)` for a one-character separator: never empty, one more
      part than there are separators. */
  function Split(s: string, sep: char): (parts: seq<string>)
    ensures |parts| >= 1
    decreases |s|
  {
    if s == [] then [""]
    else
      var rest := Split(s[1..], sep);
      if s[0] == sep then [""] + rest else [[s[0]] + rest[0]] + rest[1..]
  }

  /** `sep.join(parts)`, the inverse of `Split`. */
  function Join(parts: seq<string>, sep: char): string
  {
    if parts == [] then ""
    else if |parts| == 1 then parts[0]
    else parts[0] + [sep] + Join(parts[1..], sep)
  }

  /** Splitting at the first separator: the first part is the text before
      it, the other parts are the split of the text after it; without a
      separator the string is the only part. */
  lemma SplitAtFirst(s: string, sep: char)
    ensures sep !in s ==> Split(s, sep) == [s]
    ensures sep in s ==> Split(s, sep) == [s[..IndexOf(s, sep)]] + Split(s[IndexOf(s, sep) + 1..], sep)
  {
    if sep in s {
      SplitAtSeparator(s, sep);
    } else {
      SplitWithout(s, sep);
    }
  }

  lemma {:induction false} SplitWithout(s: string, sep: char)
    requires sep !in s
    ensures Split(s, sep) == [s]
    decreases |s|
  {
    if s != [] {
      assert s == [s[0]] + s[1..];
      SplitWithout(s[1..], sep);
    }
  }

  lemma {:induction false} SplitAtSeparator(s: string, sep: char)
    requires sep in s
    ensures Split(s, sep) == [s[..IndexOf(s, sep)]] + Split(s[IndexOf(s, sep) + 1..], sep)
    decreases |s|
  {
    if s[0] != sep {
      assert s == [s[0]] + s[1..];
      SplitAtSeparator(s[1..], sep);
      var i := IndexOf(s, sep);
      assert s[1..][..i - 1] == s[1..i];
      assert s[..i] == [s[0]] + s[1..i];
      assert s[1..][i - 1 + 1..] == s[i + 1..];
    }
  }

  /** Joining the parts with the separator gives back the string. */
  lemma {:induction false} JoinSplit(s: string, sep: char)
    ensures Join(Split(s, sep), sep) == s
    decreases |s|
  {
    if s != [] {
      JoinSplit(s[1..], sep);
      var rest := Split(s[1..], sep);
      if s[0] == sep {
        assert Split(s, sep)[1..] == rest;
        if |rest| == 1 {
          assert Join(Split(s, sep), sep) == "" + [sep] + rest[0];
        }
      } else {
        assert Split(s, sep)[1..] == rest[1..];
      }
      assert s == [s[0]] + s[1..];
    }
  }

  /** Splitting a join of separator-free parts gives the parts back. */
  lemma {:induction false} SplitJoin(parts: seq<string>, sep: char)
    requires |parts| >= 1
    requires forall k :: 0 <= k < |parts| ==> sep !in parts[k]
    ensures Split(Join(parts, sep), sep) == parts
    decreases |parts|
  {
    if |parts| == 1 {
      SplitAtFirst(parts[0], sep);
    } else {
      var p := parts[0];
      var rest := Join(parts[1..], sep);
      var s := p + [sep] + rest;
      assert s[..|p|] == p && s[|p|] == sep;
      IndexOfAt(s, sep, |p|);
      SplitAtFirst(s, sep);
      assert s[|p| + 1..] == rest;
      SplitJoin(parts[1..], sep);
      assert parts == [p] + parts[1..];
    }
  }

  /** No part of a split contains the separator. */
  lemma {:induction false} SplitPartsFree(s: string, sep: char)
    ensures forall k :: 0 <= k < |Split(s, sep)| ==> sep !in Split(s, sep)[k]
    decreases |s|
  {
    if s != [] {
      SplitPartsFree(s[1..], sep);
      var rest := Split(s[1..], sep);
      if s[0] != sep {
        assert sep !in [s[0]] + rest[0];
      }
    }
  }

  /** `p` occurs in `s` at position `i`. */
  predicate OccursAt(s: string, p: string, i: nat) {
    i + |p| <= |s| && s[i..i + |p|] == p
  }

  /** Python's `p in s` for strings. */
  predicate Contains(s: string, p: string) {
    exists i: nat :: i <= |s| && OccursAt(s, p, i)
  }

  /** The leftmost position at or after `from` where `p` occurs in `s`. */
  function FindFrom(s: string, p: string, from: nat): (r: Option<nat>)
    requires from <= |s|
    ensures r.Some? ==> from <= r.value <= |s| && OccursAt(s, p, r.value)
    ensures r.Some? ==> forall k: nat :: from <= k < r.value ==> !OccursAt(s, p, k)
    ensures r.None? ==> forall k: nat :: from <= k <= |s| ==> !OccursAt(s, p, k)
    decreases |s| - from
  {
    if OccursAt(s, p, from) then Some(from)
    else if from == |s| then None
    else FindFrom(s, p, from + 1)
  }

  /** The leftmost occurrence of `p` in `s` (what `re.search` finds for a
      literal pattern); none exactly when `p in s` is false. */
  function FindFirst(s: string, p: string): (r: Option<nat>)
    ensures r.Some? ==> OccursAt(s, p, r.value) && forall k: nat :: k < r.value ==> !OccursAt(s, p, k)
    ensures r.None? <==> !Contains(s, p)
  {
    FindFrom(s, p, 0)
  }

  /** The text Python's `int()` accepts after its sign: digits with single
      underscores between them (PEP 515). */
  predicate DigitGroups(s: string) {
    && s != [] && IsDigit(s[0]) && IsDigit(s[|s| - 1])
    && (forall i :: 0 <= i < |s| ==> IsDigit(s[i]) || s[i] == '_')
    && SingleUnderscores(s)
  }

  /** No two underscores in a row. */
  predicate SingleUnderscores(s: string)
    decreases |s|
  {
    |s| < 2 || (!(s[0] == '_' && s[1] == '_') && SingleUnderscores(s[1..]))
  }

  lemma {:induction false} NoUnderscoreSingle(s: string)
    requires '_' !in s
    ensures SingleUnderscores(s)
    decreases |s|
  {
    if |s| >= 2 {
      assert forall c :: c in s[1..] ==> c in s;
      NoUnderscoreSingle(s[1..]);
    }
  }

  function RemoveUnderscores(s: string): (r: string)
    ensures (forall i :: 0 <= i < |s| ==> IsDigit(s[i]) || s[i] == '_') ==> AllDigits(r)
    ensures '_' !in s ==> r == s
    decreases |s|
  {
    if s == [] then ""
    else if s[0] == '_' then RemoveUnderscores(s[1..])
    else
      assert s == [s[0]] + s[1..];
      [s[0]] + RemoveUnderscores(s[1..])
  }

  /** The ASCII information separators U+001C to U+001F: `str.isspace()`
      holds for them, but `int()` does not skip them. */
  predicate IsInfoSeparator(c: char) { '\U{1C}' <= c <= '\U{1F}' }

  /** `s` holds an information separator. */
  predicate HasSeparator(s: string)
    decreases |s|
  {
    s != [] && (IsInfoSeparator(s[0]) || HasSeparator(s[1..]))
  }

  lemma {:induction false} SeparatorAt(s: string, k: nat)
    requires k < |s| && IsInfoSeparator(s[k])
    ensures HasSeparator(s)
    decreases k
  {
    if k > 0 {
      SeparatorAt(s[1..], k - 1);
    }
  }

  /** Some character `str.strip()` would drop from `s` is an information
      separator. */
  predicate SeparatorAround(s: string) {
    HasSeparator(s[..StripStart(s)]) || HasSeparator(s[StripEnd(s)..])
  }

  /** `int(text)`: surrounding white space, an optional sign, then digit
      groups; `None` where Python raises `ValueError`. CPython skips the
      white space of `str.isspace()` around the number except the
      information separators: a skip stops at one, which is then no digit. */
  function ParseInt(text: string): Option<int>
  {
    if SeparatorAround(text) then None else ParseStripped(Strip(text))
  }

  /** An information separator before or after the number makes `int()`
      fail, although `str.strip()` would drop it. */
  lemma SeparatorNotSkipped(c: char, t: string)
    requires IsInfoSeparator(c)
    ensures ParseInt([c] + t) == None && ParseInt(t + [c]) == None
  {
    var a := [c] + t;
    assert a[0] == c && StripStart(a) > 0;
    SeparatorAt(a[..StripStart(a)], 0);
    var b := t + [c];
    assert b[|b| - 1] == c && TrailingSpaces(b) >= 1;
    if |b| - 1 < StripStart(b) {
      SeparatorAt(b[..StripStart(b)], |b| - 1);
    } else {
      SeparatorAt(b[StripEnd(b)..], |b| - 1 - StripEnd(b));
    }
  }

  /** `int()` of text without surrounding white space. */
  function ParseStripped(t: string): Option<int>
  {
    if t != [] && (t[0] == '+' || t[0] == '-') then
      var m := ParseGroups(t[1..]);
      if m.None? then None else Some(if t[0] == '-' then -(m.value as int) else m.value)
    else ParseGroups(t)
  }

  /** The value of digit groups, `None` for anything else. */
  function ParseGroups(d: string): Option<nat>
  {
    if DigitGroups(d) then Some(Value(RemoveUnderscores(d))) else None
  }

  /** `str(n)` for any integer. */
  function IntText(n: int): string
  {
    if n < 0 then "-" + Decimal(-n) else Decimal(n)
  }

  /** A decimal rendering holds nothing but digits. */
  lemma DecimalLacks(m: nat, c: char)
    requires !IsDigit(c)
    ensures c !in Decimal(m) && c !in IntText(m)
  {
    DecimalValue(m);
    var d := Decimal(m);
    forall i | 0 <= i < |d| ensures d[i] != c { assert IsDigit(d[i]); }
  }

  lemma DecimalGroups(m: nat)
    ensures DigitGroups(Decimal(m)) && '_' !in Decimal(m)
    ensures !IsSpace(Decimal(m)[0]) && !IsSpace(Decimal(m)[|Decimal(m)| - 1])
    ensures Value(RemoveUnderscores(Decimal(m))) == m
  {
    DecimalValue(m);
    var d := Decimal(m);
    assert '_' !in d by {
      forall i | 0 <= i < |d| ensures d[i] != '_' { assert IsDigit(d[i]); }
    }
    NoUnderscoreSingle(d);
  }

  /** Text that starts and ends with a non-space character is parsed as
      it stands. */
  lemma ParseUnstripped(t: string)
    requires t != [] && !IsSpace(t[0]) && !IsSpace(t[|t| - 1])
    ensures ParseInt(t) == ParseStripped(t)
  {
    StripKeeps(t);
    assert t[..0] == [] && t[|t|..] == [];
  }

  lemma StrippedNegative(t: string)
    requires t != [] && t[0] == '-' && DigitGroups(t[1..])
    ensures ParseStripped(t) == Some(-(Value(RemoveUnderscores(t[1..])) as int))
  {
    assert ParseGroups(t[1..]) == Some(Value(RemoveUnderscores(t[1..])));
  }

  /** `int()` of digit groups is their decimal value. */
  lemma ParseIntUnsigned(d: string)
    requires DigitGroups(d)
    ensures ParseInt(d) == Some(Value(RemoveUnderscores(d)) as int)
  {
    ParseUnstripped(d);
    assert ParseGroups(d) == Some(Value(RemoveUnderscores(d)));
  }

  /** `int()` of `-` and digit groups is the negated value. */
  lemma ParseIntNegative(t: string)
    requires t != [] && t[0] == '-' && DigitGroups(t[1..])
    ensures ParseInt(t) == Some(-(Value(RemoveUnderscores(t[1..])) as int))
  {
    assert t[|t| - 1] == t[1..][|t| - 2];
    ParseUnstripped(t);
    StrippedNegative(t);
  }

  /** `int(str(n)) == n`. */
  lemma ParseIntText(n: int)
    ensures ParseInt(IntText(n)) == Some(n)
  {
    if n < 0 {
      ParseNegativeText(-n);
    } else {
      ParseNaturalText(n);
    }
  }

  lemma ParseNaturalText(m: nat)
    ensures ParseInt(IntText(m)) == Some(m)
  {
    DecimalGroups(m);
    ParseIntUnsigned(Decimal(m));
  }

  lemma ParseNegativeText(m: nat)
    requires m > 0
    ensures ParseInt(IntText(-(m as int))) == Some(-(m as int))
  {
    var t := IntText(-(m as int));
    assert t[0] == '-' && t[1..] == Decimal(m);
    DecimalGroups(m);
    ParseIntNegative(t);
  }
}
