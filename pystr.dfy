/**
 * The Python `str` operations that the serial monitor relies on: the `in`
 * operator, `split`, `join`, `strip`, `upper`, `re.findall(r'\d+', ...)` with
 * `int()`, and `str(int)`.  Strings are sequences of Unicode scalar values.
 */
module PyStr {
  import opened Common

  // ---------------------------------------------------------------------------
  // Substring search (`sub in s`)
  // ---------------------------------------------------------------------------

  predicate OccursAt(s: string, sub: string, i: nat)
  {
    i + |sub| <= |s| && s[i..i + |sub|] == sub
  }

  /** `sub in s` */
  predicate Contains(s: string, sub: string)
  {
    exists i: nat :: i <= |s| && OccursAt(s, sub, i)
  }

  lemma ContainsWitness(s: string, sub: string, i: nat)
    requires OccursAt(s, sub, i)
    ensures Contains(s, sub)
  {
  }

  /** A text found inside a prefix or a suffix of `s` is found inside `s`. */
  lemma ContainsConcat(a: string, b: string, sub: string)
    ensures Contains(a, sub) ==> Contains(a + b, sub)
    ensures Contains(b, sub) ==> Contains(a + b, sub)
  {
    if Contains(a, sub) {
      var i: nat :| i <= |a| && OccursAt(a, sub, i);
      assert (a + b)[i..i + |sub|] == a[i..i + |sub|];
      ContainsWitness(a + b, sub, i);
    }
    if Contains(b, sub) {
      var i: nat :| i <= |b| && OccursAt(b, sub, i);
      assert (a + b)[|a| + i..|a| + i + |sub|] == b[i..i + |sub|];
      ContainsWitness(a + b, sub, |a| + i);
    }
  }

  /** A text whose first character does not occur in `s` does not occur in `s`. */
  lemma NotContains(s: string, sub: string)
    requires |sub| > 0 && sub[0] !in s
    ensures !Contains(s, sub)
  {
    forall i: nat | i <= |s|
      ensures !OccursAt(s, sub, i)
    {
      if i + |sub| <= |s| {
        assert s[i..i + |sub|][0] == s[i];
        assert s[i] in s;
      }
    }
  }

  // ---------------------------------------------------------------------------
  // str.split(sep) and sep.join(parts) for a one-character separator
  // ---------------------------------------------------------------------------

  /** Index of the first occurrence of `c` in `s`. */
  function IndexOf(s: string, c: char): (i: nat)
    requires c in s
    ensures i < |s| && s[i] == c && c !in s[..i]
  {
    if s[0] == c then 0 else
      assert s == [s[0]] + s[1..];
      1 + IndexOf(s[1..], c)
  }

  /** `s.split(c)`: the pieces between occurrences of `c`, in order. */
  function Split(s: string, c: char): (r: seq<string>)
    ensures |r| >= 1
    ensures forall k :: 0 <= k < |r| ==> c !in r[k]
    decreases |s|
  {
    if c !in s then [s]
    else
      var i := IndexOf(s, c);
      [s[..i]] + Split(s[i + 1..], c)
  }

  /** `c.join(parts)` */
  function Join(parts: seq<string>, c: char): (r: string)
  {
    if parts == [] then ""
    else if |parts| == 1 then parts[0]
    else parts[0] + [c] + Join(parts[1..], c)
  }

  function Last<T>(s: seq<T>): T
    requires |s| >= 1
  {
    s[|s| - 1]
  }

  function Init<T>(s: seq<T>): seq<T>
    requires |s| >= 1
  {
    s[..|s| - 1]
  }

  /** Splitting at the first separator: the piece before it, then the split of the rest. */
  lemma SplitUnfold(s: string, c: char)
    requires c in s
    ensures var i := IndexOf(s, c);
      && Split(s, c) == [s[..i]] + Split(s[i + 1..], c)
      && s == s[..i] + [c] + s[i + 1..]
  {
  }

  /** Joining a piece in front of a non-empty list puts one separator after it. */
  lemma JoinCons(a: string, rest: seq<string>, c: char)
    requires |rest| >= 1
    ensures Join([a] + rest, c) == a + [c] + Join(rest, c)
  {
    assert ([a] + rest)[1..] == rest;
  }

  /** Joining the pieces of a split gives back the original text. */
  lemma {:induction false} JoinSplit(s: string, c: char)
    ensures Join(Split(s, c), c) == s
    decreases |s|
  {
    if c in s {
      var i := IndexOf(s, c);
      SplitUnfold(s, c);
      JoinSplit(s[i + 1..], c);
      JoinCons(s[..i], Split(s[i + 1..], c), c);
    }
  }

  /** A text with one separator in it splits into the pieces either side of it. */
  lemma SplitAtFirst(x: string, c: char, y: string)
    requires c !in x
    ensures Split(x + [c] + y, c) == [x] + Split(y, c)
  {
    var s := x + [c] + y;
    assert s[|x|] == c;
    assert s[..|x|] == x;
    var i := IndexOf(s, c);
    assert s[..i] == x;
    assert s[i + 1..] == y;
  }

  /** Splitting pieces that hold no separator, joined by it, gives the pieces back. */
  lemma {:induction false} SplitJoin(parts: seq<string>, c: char)
    requires |parts| >= 1
    requires forall k :: 0 <= k < |parts| ==> c !in parts[k]
    ensures Split(Join(parts, c), c) == parts
  {
    if |parts| > 1 {
      SplitJoin(parts[1..], c);
      SplitAtFirst(parts[0], c, Join(parts[1..], c));
    }
  }

  /** The number of pieces is one more than the number of separators. */
  lemma {:induction false} SplitLength(s: string, c: char)
    ensures |Split(s, c)| == Count(s, c) + 1
    decreases |s|
  {
    if c in s {
      var i := IndexOf(s, c);
      SplitLength(s[i + 1..], c);
      assert s == s[..i] + [c] + s[i + 1..];
      CountAppend(s[..i] + [c], s[i + 1..], c);
      CountAppend(s[..i], [c], c);
    }
  }

  /**
   * Splitting a concatenation: every complete piece of `a` is a piece of
   * `a + b`, and the unterminated tail of `a` is continued by `b`.
   */
  lemma {:induction false} SplitConcat(a: string, b: string, c: char)
    ensures Split(a + b, c) == Init(Split(a, c)) + Split(Last(Split(a, c)) + b, c)
    decreases |a|
  {
    if c in a {
      var i := IndexOf(a, c);
      var head, rest := a[..i], a[i + 1..];
      SplitUnfold(a, c);
      assert a + b == head + [c] + (rest + b);
      SplitAtFirst(head, c, rest + b);
      SplitConcat(rest, b, c);
      InitCons(head, Split(rest, c));
      assert Split(a + b, c) == [head] + (Init(Split(rest, c)) + Split(Last(Split(rest, c)) + b, c));
    }
  }

  lemma InitCons<T>(x: T, s: seq<T>)
    requires |s| >= 1
    ensures Init([x] + s) == [x] + Init(s) && Last([x] + s) == Last(s)
  {
  }

  // ---------------------------------------------------------------------------
  // str.strip()
  // ---------------------------------------------------------------------------

  /** The characters for which Python's `str.isspace()` holds. */
  predicate IsSpace(ch: char)
  {
    ch == ' ' || ('\t' <= ch <= '\r') || ('\U{1c}' <= ch <= '\U{1f}') ||
    ch == '\U{85}' || ch == '\U{a0}' || ch == '\U{1680}' ||
    ('\U{2000}' <= ch <= '\U{200a}') || ch == '\U{2028}' || ch == '\U{2029}' ||
    ch == '\U{202f}' || ch == '\U{205f}' || ch == '\U{3000}'
  }

  function LStrip(s: string): (r: string)
    ensures |r| <= |s| && r == s[|s| - |r|..]
    ensures r == [] || !IsSpace(r[0])
    ensures forall k :: 0 <= k < |s| - |r| ==> IsSpace(s[k])
  {
    if s != [] && IsSpace(s[0]) then LStrip(s[1..]) else s
  }

  function RStrip(s: string): (r: string)
    ensures |r| <= |s| && r == s[..|r|]
    ensures r == [] || !IsSpace(r[|r| - 1])
    ensures forall k :: |r| <= k < |s| ==> IsSpace(s[k])
  {
    if s != [] && IsSpace(s[|s| - 1]) then RStrip(s[..|s| - 1]) else s
  }

  /** `s.strip()` */
  function Strip(s: string): string
  {
    LStrip(RStrip(s))
  }

  /**
   * `s.strip()` is the longest run of `s` that neither starts nor ends with
   * whitespace: everything cut off on either side is whitespace.
   */
  lemma StripSlice(s: string) returns (i: nat, j: nat)
    ensures i <= j <= |s| && Strip(s) == s[i..j]
    ensures Strip(s) == [] || (!IsSpace(Strip(s)[0]) && !IsSpace(Last(Strip(s))))
    ensures forall k :: 0 <= k < i || j <= k < |s| ==> IsSpace(s[k])
  {
    var rs := RStrip(s);
    var r := LStrip(rs);
    i, j := |rs| - |r|, |rs|;
    assert r == rs[i..] == s[i..j];
    if r != [] {
      assert Last(r) == rs[|rs| - 1];
    }
  }

  /** Stripping twice is stripping once. */
  lemma StripIdempotent(s: string)
    ensures Strip(Strip(s)) == Strip(s)
  {
    var t := Strip(s);
    var _, _ := StripSlice(s);
    if t != [] {
      assert RStrip(t) == t;
      assert LStrip(t) == t;
    }
  }

  /** A text with no whitespace at either end is its own strip. */
  lemma StripUnchanged(s: string)
    requires s == [] || (!IsSpace(s[0]) && !IsSpace(s[|s| - 1]))
    ensures Strip(s) == s
  {
  }

  // ---------------------------------------------------------------------------
  // str.upper(), restricted to ASCII letters
  // ---------------------------------------------------------------------------

  function UpperChar(ch: char): (r: char)
    ensures 'a' <= ch <= 'z' ==> r as int == ch as int - 32
    ensures !('a' <= ch <= 'z') ==> r == ch
  {
    if 'a' <= ch <= 'z' then (ch as int - 32) as char else ch
  }

  /** `s.upper()` for ASCII letters; every other character is kept. */
  function Upper(s: string): (r: string)
    ensures |r| == |s|
    ensures forall k :: 0 <= k < |s| ==> r[k] == UpperChar(s[k])
  {
    seq(|s|, k requires 0 <= k < |s| => UpperChar(s[k]))
  }

  // ---------------------------------------------------------------------------
  // re.findall(r'\d+', s) followed by int(), for ASCII digits
  // ---------------------------------------------------------------------------

  predicate IsDigit(ch: char)
  {
    '0' <= ch <= '9'
  }

  function DigitValue(ch: char): (d: nat)
    requires IsDigit(ch)
    ensures d < 10
  {
    ch as int - '0' as int
  }

  function DigitChar(d: nat): (ch: char)
    requires d < 10
    ensures IsDigit(ch) && DigitValue(ch) == d
  {
    ('0' as int + d) as char
  }

  /** Length of the longest all-digit prefix of `s`. */
  function DigitRun(s: string): (k: nat)
    ensures k <= |s|
    ensures forall j :: 0 <= j < k ==> IsDigit(s[j])
    ensures k < |s| ==> !IsDigit(s[k])
  {
    if s != [] && IsDigit(s[0]) then 1 + DigitRun(s[1..]) else 0
  }

  predicate AllDigits(s: string)
  {
    forall j :: 0 <= j < |s| ==> IsDigit(s[j])
  }

  /** `int(ds)` for a run of decimal digits. */
  function DecimalValue(ds: string): nat
    requires AllDigits(ds)
  {
    if ds == [] then 0 else 10 * DecimalValue(ds[..|ds| - 1]) + DigitValue(ds[|ds| - 1])
  }

  /** `[int(m) for m in re.findall(r'\d+', s)]`: every maximal digit run, left to right. */
  function Numbers(s: string): (ns: seq<nat>)
    ensures |ns| <= |s|
    decreases |s|
  {
    if s == [] then []
    else if !IsDigit(s[0]) then Numbers(s[1..])
    else
      var k := DigitRun(s);
      [DecimalValue(s[..k])] + Numbers(s[k..])
  }

  // ---------------------------------------------------------------------------
  // str(n) and '-' * n
  // ---------------------------------------------------------------------------

  /** Decimal digits of `n`, most significant first, without leading zeros. */
  function NatToString(n: nat): (s: string)
    ensures |s| >= 1 && AllDigits(s)
    ensures |s| > 1 ==> s[0] != '0'
  {
    if n < 10 then [DigitChar(n)] else NatToString(n / 10) + [DigitChar(n % 10)]
  }

  /** `str(i)` */
  function IntToString(i: int): string
  {
    if i < 0 then "-" + NatToString(-i) else NatToString(i)
  }

  /** `int(str(n)) == n`: the decimal text of a number reads back as that number. */
  lemma {:induction false} DecimalValueOfNatToString(n: nat)
    ensures DecimalValue(NatToString(n)) == n
  {
    if n >= 10 {
      DecimalValueOfNatToString(n / 10);
      var s := NatToString(n);
      assert s[..|s| - 1] == NatToString(n / 10);
    }
  }

  /** The digits of `str(n)` form one run that `re.findall(r'\d+', ...)` reads back as `[n]`. */
  lemma NumbersOfNatToString(n: nat)
    ensures Numbers(NatToString(n)) == [n]
  {
    var s := NatToString(n);
    assert DigitRun(s) == |s| by {
      DigitRunAll(s);
    }
    assert s[..|s|] == s;
    assert s[|s|..] == [];
    DecimalValueOfNatToString(n);
  }

  /** A digit run followed by a non-digit (or by nothing) ends where the digits end. */
  lemma {:induction false} DigitRunPrefix(ds: string, rest: string)
    requires AllDigits(ds)
    requires rest == [] || !IsDigit(rest[0])
    ensures DigitRun(ds + rest) == |ds|
  {
    if ds == [] {
      assert ds + rest == rest;
    } else {
      assert (ds + rest)[1..] == ds[1..] + rest;
      DigitRunPrefix(ds[1..], rest);
    }
  }

  /** A maximal digit run at the front contributes its value first. */
  lemma NumbersAfterDigits(ds: string, rest: string)
    requires ds != [] && AllDigits(ds)
    requires rest == [] || !IsDigit(rest[0])
    ensures Numbers(ds + rest) == [DecimalValue(ds)] + Numbers(rest)
  {
    DigitRunPrefix(ds, rest);
    var s := ds + rest;
    assert s[..|ds|] == ds;
    assert s[|ds|..] == rest;
  }

  predicate NoDigits(w: string)
  {
    forall j :: 0 <= j < |w| ==> !IsDigit(w[j])
  }

  /** Text without digits contributes no number. */
  lemma {:induction false} NumbersSkip(w: string, rest: string)
    requires NoDigits(w)
    ensures Numbers(w + rest) == Numbers(rest)
  {
    if w == [] {
      assert w + rest == rest;
    } else {
      assert (w + rest)[1..] == w[1..] + rest;
      NumbersSkip(w[1..], rest);
    }
  }

  /** A decimal rendering followed by a digit-free word contributes its number first. */
  lemma NumberThenWord(n: nat, w: string, rest: string)
    requires w != [] && NoDigits(w)
    ensures Numbers(NatToString(n) + (w + rest)) == [n] + Numbers(rest)
  {
    assert (w + rest)[0] == w[0];
    NumbersAfterDigits(NatToString(n), w + rest);
    NumbersSkip(w, rest);
    DecimalValueOfNatToString(n);
  }

  lemma {:induction false} DigitRunAll(s: string)
    requires AllDigits(s)
    ensures DigitRun(s) == |s|
  {
    if s != [] {
      DigitRunAll(s[1..]);
    }
  }

  /** `ch * n` */
  function Repeat(ch: char, n: nat): (r: string)
    ensures |r| == n && forall k :: 0 <= k < n ==> r[k] == ch
  {
    seq(n, _ => ch)
  }
}
