/**
 * The parts of Go's `strings` and `strconv` packages that the core relies on, with the
 * edge cases of the Go library: `Split` of the empty string is `[""]`, `Contains(s, "")`
 * holds, `Atoi` accepts an optional sign followed by decimal digits and rejects values
 * outside the 64-bit `int` range.
 */
module Strings {
  import opened Wrappers

  predicate HasPrefix(s: string, prefix: string)
  {
    |prefix| <= |s| && s[..|prefix|] == prefix
  }

  /** `sub` occurs in `s` starting at index `i`. */
  predicate OccursAt(s: string, sub: string, i: int)
  {
    0 <= i && i + |sub| <= |s| && s[i..i + |sub|] == sub
  }

  /** strings.Contains: `sub` is a prefix of some suffix of `s`. */
  predicate Contains(s: string, sub: string)
    decreases |s|
  {
    HasPrefix(s, sub) || (|s| > 0 && Contains(s[1..], sub))
  }

  /** Contains agrees with the index-based reading "sub occurs somewhere in s". */
  lemma {:induction false} ContainsIffOccurs(s: string, sub: string)
    ensures Contains(s, sub) <==> exists i :: OccursAt(s, sub, i)
    decreases |s|
  {
    if HasPrefix(s, sub) {
      assert OccursAt(s, sub, 0);
    } else if |s| == 0 {
    } else {
      ContainsIffOccurs(s[1..], sub);
      if exists i :: OccursAt(s[1..], sub, i) {
        var i :| OccursAt(s[1..], sub, i);
        assert s[i + 1..i + 1 + |sub|] == s[1..][i..i + |sub|];
        assert OccursAt(s, sub, i + 1);
      }
      if exists i :: OccursAt(s, sub, i) {
        var i :| OccursAt(s, sub, i);
        if i > 0 {
          assert s[1..][i - 1..i - 1 + |sub|] == s[i..i + |sub|];
          assert OccursAt(s[1..], sub, i - 1);
        }
      }
    }
  }

  /** Every string contains the empty string and itself. */
  lemma ContainsTrivial(s: string)
    ensures Contains(s, "") && Contains(s, s)
  {
  }

  /**
   * strings.Split: the pieces of `s` between the non-overlapping occurrences of `sep`,
   * found from left to right.
   */
  function Split(s: string, sep: string): (parts: seq<string>)
    requires |sep| > 0
    ensures |parts| >= 1
    decreases |s|
  {
    if |s| == 0 then [""]
    else if HasPrefix(s, sep) then [""] + Split(s[|sep|..], sep)
    else
      var rest := Split(s[1..], sep);
      [[s[0]] + rest[0]] + rest[1..]
  }

  /** strings.Join, written from the right so that appending loops follow it step by step. */
  function Join(parts: seq<string>, sep: string): string
  {
    if |parts| == 0 then ""
    else if |parts| == 1 then parts[0]
    else Join(parts[..|parts| - 1], sep) + sep + parts[|parts| - 1]
  }

  /** Join read from the left: the first part, then the separator and the join of the rest. */
  lemma {:induction false} JoinCons(x: string, ys: seq<string>, sep: string)
    ensures Join([x] + ys, sep) == if ys == [] then x else x + sep + Join(ys, sep)
    decreases |ys|
  {
    if |ys| >= 2 {
      var xs := [x] + ys;
      assert xs[..|xs| - 1] == [x] + ys[..|ys| - 1];
      JoinCons(x, ys[..|ys| - 1], sep);
    } else if |ys| == 1 {
      var xs := [x] + ys;
      assert xs[..|xs| - 1] == [x];
    } else {
      assert [x] + ys == [x];
    }
  }

  /** Appending one more part adds the separator and the part at the end. */
  lemma JoinSnoc(xs: seq<string>, y: string, sep: string)
    ensures Join(xs + [y], sep) == if xs == [] then y else Join(xs, sep) + sep + y
  {
    assert (xs + [y])[..|xs + [y]| - 1] == xs;
  }

  /** Split and Join are inverse in this direction for every string. */
  lemma {:induction false} SplitJoin(s: string, sep: string)
    requires |sep| > 0
    ensures Join(Split(s, sep), sep) == s
    decreases |s|
  {
    if |s| == 0 {
    } else if HasPrefix(s, sep) {
      var t := s[|sep|..];
      var rest := Split(t, sep);
      assert Split(s, sep) == [""] + rest;
      SplitJoin(t, sep);
      JoinCons("", rest, sep);
      assert s == sep + t;
    } else {
      var t := s[1..];
      var rest := Split(t, sep);
      assert Split(s, sep) == [[s[0]] + rest[0]] + rest[1..];
      SplitJoin(t, sep);
      ConsHeadJoin(s[0], rest, sep);
      assert s == [s[0]] + t;
    }
  }

  /** Prepending a character to the first part prepends it to the join. */
  lemma ConsHeadJoin(c: char, parts: seq<string>, sep: string)
    requires |parts| > 0
    ensures Join([[c] + parts[0]] + parts[1..], sep) == [c] + Join(parts, sep)
  {
    var head, tail := parts[0], parts[1..];
    JoinCons([c] + head, tail, sep);
    assert parts == [head] + tail;
    JoinCons(head, tail, sep);
    if tail != [] {
      var j := Join(tail, sep);
      assert [c] + head + sep + j == [c] + (head + sep + j);
    }
  }

  /** A string without the separator's first character is a single piece. */
  lemma {:induction false} SplitWithoutSep(a: string, sep: string)
    requires |sep| > 0 && sep[0] !in a
    ensures Split(a, sep) == [a]
    decreases |a|
  {
    if |a| > 0 {
      assert a[0] in a;
      assert !HasPrefix(a, sep);
      assert forall c :: c in a[1..] ==> c in a;
      SplitWithoutSep(a[1..], sep);
      assert a == [a[0]] + a[1..];
    }
  }

  /** A string missing some character of the separator is a single piece. */
  lemma {:induction false} SplitWithoutSepChar(a: string, sep: string, k: nat)
    requires k < |sep| && sep[k] !in a
    ensures Split(a, sep) == [a]
    decreases |a|
  {
    if |a| > 0 {
      if HasPrefix(a, sep) {
        assert false;
      }
      assert forall c :: c in a[1..] ==> c in a;
      SplitWithoutSepChar(a[1..], sep, k);
      assert a == [a[0]] + a[1..];
    }
  }

  /** The first piece of `a + sep + b` is `a` when no occurrence of `sep` can start inside `a`. */
  lemma {:induction false} SplitAfterFirst(a: string, sep: string, b: string)
    requires |sep| > 0 && sep[0] !in a
    ensures Split(a + sep + b, sep) == [a] + Split(b, sep)
    decreases |a|
  {
    var s := a + sep + b;
    if |a| == 0 {
      assert s == sep + b;
      assert HasPrefix(s, sep);
      assert s[|sep|..] == b;
    } else {
      assert a[0] in a;
      assert s[0] == a[0];
      assert !HasPrefix(s, sep);
      assert s[1..] == a[1..] + sep + b;
      assert forall c :: c in a[1..] ==> c in a;
      SplitAfterFirst(a[1..], sep, b);
      assert a == [a[0]] + a[1..];
    }
  }

  /** Splitting a join gives back its parts when no part holds the separator's first character. */
  lemma {:induction false} JoinSplit(xs: seq<string>, sep: string)
    requires |sep| > 0 && |xs| > 0
    requires forall i :: 0 <= i < |xs| ==> sep[0] !in xs[i]
    ensures Split(Join(xs, sep), sep) == xs
    decreases |xs|
  {
    if |xs| == 1 {
      SplitWithoutSep(xs[0], sep);
    } else {
      JoinCons(xs[0], xs[1..], sep);
      assert xs == [xs[0]] + xs[1..];
      SplitAfterFirst(xs[0], sep, Join(xs[1..], sep));
      JoinSplit(xs[1..], sep);
    }
  }

  predicate IsDigit(c: char)
  {
    '0' <= c <= '9'
  }

  /** A non-empty run of decimal digits. */
  predicate IsDigits(s: string)
  {
    |s| > 0 && forall i :: 0 <= i < |s| ==> IsDigit(s[i])
  }

  function DigitValue(c: char): nat
    requires IsDigit(c)
  {
    c as int - '0' as int
  }

  function DigitChar(d: nat): (c: char)
    requires d < 10
    ensures IsDigit(c) && DigitValue(c) == d
  {
    ('0' as int + d) as char
  }

  /** The value of a run of digits, read most significant digit first. */
  function DigitsValue(s: string): nat
    requires IsDigits(s)
    decreases |s|
  {
    if |s| == 1 then DigitValue(s[0])
    else DigitsValue(s[..|s| - 1]) * 10 + DigitValue(s[|s| - 1])
  }

  /** The syntax strconv.Atoi accepts for base 10: an optional sign, then one or more digits. */
  function ParseDecimal(s: string): Option<int>
  {
    if |s| > 0 && (s[0] == '+' || s[0] == '-') then
      if IsDigits(s[1..]) then
        var magnitude: int := DigitsValue(s[1..]);
        Some(if s[0] == '-' then -magnitude else magnitude)
      else None
    else if IsDigits(s) then Some(DigitsValue(s))
    else None
  }

  /** The range of Go's `int` on the 64-bit platforms the program is built for. */
  const IntMin: int := -0x8000_0000_0000_0000
  const IntMax: int := 0x7fff_ffff_ffff_ffff

  /** strconv.Atoi: None stands for a returned error (bad syntax or out of range). */
  function Atoi(s: string): (r: Option<int>)
    ensures r.Some? <==> ParseDecimal(s).Some? && IntMin <= ParseDecimal(s).value <= IntMax
    ensures r.Some? ==> r.value == ParseDecimal(s).value
  {
    match ParseDecimal(s)
    case Some(v) => if IntMin <= v <= IntMax then Some(v) else None
    case None => None
  }

  /**
   * The number strconv.Atoi returns beside its error, which callers that discard the
   * error go on to use: 0 after a syntax error, the nearest bound after a range error.
   */
  function AtoiIgnoringError(s: string): (n: int)
    ensures Atoi(s).Some? ==> n == Atoi(s).value
    ensures ParseDecimal(s).None? ==> n == 0
    ensures IntMin <= n <= IntMax
  {
    match ParseDecimal(s)
    case None => 0
    case Some(v) => if v < IntMin then IntMin else if v > IntMax then IntMax else v
  }

  /** strconv.Itoa for non-negative numbers: the shortest decimal representation. */
  function Itoa(n: nat): (s: string)
    ensures IsDigits(s)
    ensures |s| == 1 <==> n < 10
    decreases n
  {
    if n < 10 then [DigitChar(n)] else Itoa(n / 10) + [DigitChar(n % 10)]
  }

  /** fmt's `%d` and strconv.Itoa for any int. */
  function IntToString(i: int): (s: string)
    ensures |s| > 0
  {
    if i < 0 then "-" + Itoa(-i) else Itoa(i)
  }

  /** Reading back the digits Itoa writes gives the number. */
  lemma {:induction false} ItoaValue(n: nat)
    ensures DigitsValue(Itoa(n)) == n
    decreases n
  {
    if n >= 10 {
      var s := Itoa(n);
      assert s[..|s| - 1] == Itoa(n / 10);
      ItoaValue(n / 10);
    }
  }

  /** Round trip: Atoi(Itoa(n)) == n for every non-negative `int`. */
  lemma AtoiItoa(n: nat)
    requires n <= IntMax
    ensures Atoi(Itoa(n)) == Some(n)
  {
    ItoaValue(n);
    assert IsDigit(Itoa(n)[0]);
  }

  /** Distinct numbers have distinct decimal representations. */
  lemma ItoaInjective(a: nat, b: nat)
    requires Itoa(a) == Itoa(b)
    ensures a == b
  {
    ItoaValue(a);
    ItoaValue(b);
  }

  /** A digit string holds no character other than digits, in particular no separator. */
  lemma DigitsExclude(s: string, c: char)
    requires IsDigits(s) && !IsDigit(c)
    ensures c !in s
  {
  }

  /** strings.ReplaceAll with a one-character old and new string. */
  function ReplaceChar(s: string, from: char, to: char): (r: string)
    ensures |r| == |s|
    ensures forall i :: 0 <= i < |s| ==> r[i] == if s[i] == from then to else s[i]
    decreases |s|
  {
    if |s| == 0 then ""
    else [if s[0] == from then to else s[0]] + ReplaceChar(s[1..], from, to)
  }

  /** ASCII lower-casing, which is what strings.ToLower does to URL schemes. */
  function ToLowerAscii(s: string): (r: string)
    ensures |r| == |s|
    ensures forall i :: 0 <= i < |s| ==> r[i] == if 'A' <= s[i] <= 'Z' then (s[i] as int + 32) as char else s[i]
    decreases |s|
  {
    if |s| == 0 then ""
    else [if 'A' <= s[0] <= 'Z' then (s[0] as int + 32) as char else s[0]] + ToLowerAscii(s[1..])
  }

  /** The first non-empty text of `xs`, or "" when every one is empty. */
  function FirstNonEmpty(xs: seq<string>): (r: string)
    ensures r == "" <==> forall i :: 0 <= i < |xs| ==> xs[i] == ""
    ensures r != "" ==> exists i :: 0 <= i < |xs| && r == xs[i] && forall j :: 0 <= j < i ==> xs[j] == ""
    decreases |xs|
  {
    if xs == [] then ""
    else if xs[0] != "" then xs[0]
    else
      var r := FirstNonEmpty(xs[1..]);
      assert forall i :: 1 <= i < |xs| ==> xs[i] == xs[1..][i - 1];
      if r != "" then
        var k :| 0 <= k < |xs[1..]| && r == xs[1..][k] && forall j :: 0 <= j < k ==> xs[1..][j] == "";
        assert r == xs[k + 1] && forall j :: 0 <= j < k + 1 ==> xs[j] == "";
        r
      else r
  }
}
