/**
 * The pieces of Go's `strings`, `strconv` and `fmt` packages that the three
 * handlers rely on, on `seq<char>`: searching for a character, splitting and
 * joining on line feeds, decimal formatting and `strconv.Atoi`.
 */
module Strings {
  import opened Wrappers

  /** Position of the first `c` in `s`, as `strings.Index` finds it. */
  function IndexOf(s: string, c: char): (r: Option<nat>)
    ensures r.None? <==> c !in s
    ensures r.Some? ==> r.value < |s| && s[r.value] == c && c !in s[..r.value]
  {
    if |s| == 0 then None
    else if s[0] == c then Some(0)
    else
      match IndexOf(s[1..], c)
      case None =>
        assert s == [s[0]] + s[1..];
        None
      case Some(i) =>
        assert s[..i + 1] == [s[0]] + s[1..][..i];
        Some(i + 1)
  }

  /** Position of the last `c` in `s`, as `strings.LastIndex` finds it. */
  function LastIndexOf(s: string, c: char): (r: Option<nat>)
    ensures r.None? <==> c !in s
    ensures r.Some? ==> r.value < |s| && s[r.value] == c && c !in s[r.value + 1..]
  {
    if |s| == 0 then None
    else if s[|s| - 1] == c then Some(|s| - 1)
    else
      var init := s[..|s| - 1];
      match LastIndexOf(init, c)
      case None =>
        assert s == init + [s[|s| - 1]];
        None
      case Some(i) =>
        assert s[i + 1..] == init[i + 1..] + [s[|s| - 1]];
        Some(i)
  }

  /** The first `c` in `a + [c] + b` is the one after `a` when `a` holds none. */
  lemma IndexOfAfterPrefix(a: string, c: char, b: string)
    requires c !in a
    ensures IndexOf(a + [c] + b, c) == Some(|a|)
  {
    var s := a + [c] + b;
    assert s[|a|] == c;
    assert s[..|a|] == a;
  }

  /** Appending an element leaves every prefix up to the old length alone. */
  lemma TakeSnoc<T>(s: seq<T>, x: T, i: nat)
    requires i <= |s|
    ensures (s + [x])[..i] == s[..i]
  {
    assert forall k :: 0 <= k < i ==> (s + [x])[..i][k] == s[..i][k];
  }

  /** Appending an element leaves the old elements alone and puts it last. */
  lemma SnocAt<T>(s: seq<T>, x: T, i: nat)
    requires i <= |s|
    ensures (s + [x])[i] == if i == |s| then x else s[i]
  {
  }

  // Small regroupings of sequence displays, stated generically so that the
  // proofs using them on strings do not unfold any string literal.

  lemma AppendEmpty<T>(s: seq<T>)
    ensures s + [] == s
  {
  }

  lemma HalvesOfFour<T>(a: T, b: T, c: T, d: T)
    ensures [a, b, c, d][0..2] == [a, b] && [a, b, c, d][2..4] == [c, d]
  {
  }

  lemma ConsFour<T>(a: T, b: T, c: T, d: T)
    ensures [a] + ([b] + ([c] + [d])) == [a, b, c, d]
  {
  }

  lemma Regroup<T>(a: seq<T>, b: seq<T>, c: seq<T>, d: seq<T>, e: seq<T>, f: seq<T>)
    ensures a + b + c + d + e + f == a + b + (c + d + (e + f))
  {
  }

  lemma ThirdsOfThree<T>(a: T, b: T, c: T)
    ensures [a, b, c][0..1] == [a] && [a, b, c][1..2] == [b] && [a, b, c][2..3] == [c]
  {
  }

  lemma ConsThree<T>(a: T, b: T, c: T)
    ensures [a] + ([b] + [c]) == [a, b, c]
  {
  }

  lemma Regroup4<T>(a: seq<T>, b: seq<T>, c: seq<T>, d: seq<T>)
    ensures a + b + c + d == a + b + (c + d)
  {
  }

  /** Splitting off the first element commutes with taking and dropping `k` of them. */
  lemma ConsTake<T>(s: seq<T>, k: nat)
    requires 1 <= k <= |s|
    ensures s[..1] == [s[0]]
    ensures s[..1] + s[1..][..k - 1] == s[..k] && s[1..][k - 1..] == s[k..]
  {
  }

  lemma Assoc<T>(a: seq<T>, b: seq<T>, c: seq<T>)
    ensures a + (b + c) == (a + b) + c
  {
  }

  /** A non-empty sequence is its front followed by its last element. */
  lemma FrontLast<T>(s: seq<T>)
    requires |s| >= 1
    ensures s[..|s| - 1] + [s[|s| - 1]] == s
  {
  }

  // ---------------------------------------------------------------------------
  // strings.Split(s, "\n") and strings.Join(parts, "\n")
  // ---------------------------------------------------------------------------

  /**
   * `strings.Split(s, "\n")`: the pieces between line feeds. There is always
   * at least one piece, and a trailing line feed gives a final empty piece.
   */
  function SplitLines(s: string): (r: seq<string>)
    ensures |r| >= 1
    ensures forall i :: 0 <= i < |r| ==> '\n' !in r[i]
    decreases |s|
  {
    match IndexOf(s, '\n')
    case None => [s]
    case Some(i) => [s[..i]] + SplitLines(s[i + 1..])
  }

  /**
   * `strings.Join(parts, "\n")`: no pieces give the empty text, and otherwise
   * the text starts with the first piece.
   */
  function JoinLines(parts: seq<string>): (r: string)
    ensures |parts| == 0 ==> r == ""
    ensures |parts| >= 1 ==> parts[0] <= r
  {
    if |parts| == 0 then ""
    else if |parts| == 1 then parts[0]
    else parts[0] + "\n" + JoinLines(parts[1..])
  }

  /** Joining the pieces of a split gives the text back. */
  lemma {:induction false} JoinSplitLines(s: string)
    ensures JoinLines(SplitLines(s)) == s
    decreases |s|
  {
    match IndexOf(s, '\n')
    case None =>
    case Some(i) =>
      var rest := SplitLines(s[i + 1..]);
      assert SplitLines(s) == [s[..i]] + rest;
      assert ([s[..i]] + rest)[1..] == rest;
      JoinSplitLines(s[i + 1..]);
      assert s == s[..i] + "\n" + s[i + 1..];
  }

  /** A first piece without line feeds splits off as the first piece. */
  lemma SplitAtFirst(a: string, b: string)
    requires '\n' !in a
    ensures SplitLines(a + "\n" + b) == [a] + SplitLines(b)
  {
    var s := a + "\n" + b;
    IndexOfAfterPrefix(a, '\n', b);
    assert s[..|a|] == a;
    assert s[|a| + 1..] == b;
  }

  /** Splitting a join of line-feed-free pieces gives the pieces back. */
  lemma {:induction false} SplitJoinLines(parts: seq<string>)
    requires |parts| >= 1
    requires forall i :: 0 <= i < |parts| ==> '\n' !in parts[i]
    ensures SplitLines(JoinLines(parts)) == parts
  {
    if |parts| > 1 {
      SplitAtFirst(parts[0], JoinLines(parts[1..]));
      SplitJoinLines(parts[1..]);
      assert parts == [parts[0]] + parts[1..];
    }
  }

  /** Joining two non-empty runs of pieces puts one line feed between them. */
  lemma {:induction false} JoinLinesAppend(a: seq<string>, b: seq<string>)
    requires |a| >= 1 && |b| >= 1
    ensures JoinLines(a + b) == JoinLines(a) + "\n" + JoinLines(b)
  {
    if |a| > 1 {
      assert (a + b)[1..] == a[1..] + b;
      JoinLinesAppend(a[1..], b);
    } else {
      assert (a + b)[1..] == b;
    }
  }

  /** Cutting at the first line feed leaves one line feed fewer after the cut. */
  lemma NewlinesAfterFirst(s: string, i: nat)
    requires i < |s| && s[i] == '\n' && '\n' !in s[..i]
    ensures multiset(s)['\n'] == multiset(s[i + 1..])['\n'] + 1
  {
    assert s == s[..i] + ['\n'] + s[i + 1..];
    assert multiset(s) == multiset(s[..i]) + multiset{'\n'} + multiset(s[i + 1..]);
  }

  /** The number of pieces is one more than the number of line feeds. */
  lemma {:induction false} SplitLinesCount(s: string)
    ensures |SplitLines(s)| == multiset(s)['\n'] + 1
    decreases |s|
  {
    match IndexOf(s, '\n')
    case None =>
    case Some(i) =>
      SplitLinesCount(s[i + 1..]);
      NewlinesAfterFirst(s, i);
  }

  // ---------------------------------------------------------------------------
  // Decimal digits: fmt's %d and %02d, strconv.Atoi
  // ---------------------------------------------------------------------------

  predicate IsDigit(c: char) { '0' <= c <= '9' }

  function DigitChar(d: nat): (c: char)
    requires d < 10
    ensures IsDigit(c)
  {
    ('0' as int + d) as char
  }

  function DigitValue(c: char): nat
    requires IsDigit(c)
  {
    c as int - '0' as int
  }

  /** `fmt.Sprintf("%d", n)` for a non-negative `n`. */
  function DecimalString(n: nat): (r: string)
    ensures |r| >= 1 && forall i :: 0 <= i < |r| ==> IsDigit(r[i])
  {
    if n < 10 then [DigitChar(n)] else DecimalString(n / 10) + [DigitChar(n % 10)]
  }

  /** `fmt.Sprintf("%02d", n)`: at least two digits, padded with a leading zero. */
  function ZeroPad2(n: nat): (r: string)
    ensures |r| >= 2 && forall i :: 0 <= i < |r| ==> IsDigit(r[i])
    ensures n < 10 ==> r[0] == '0'
  {
    if n < 10 then ['0', DigitChar(n)]
    else
      assert DecimalString(n) == DecimalString(n / 10) + [DigitChar(n % 10)];
      DecimalString(n)
  }

  /** A non-empty run of decimal digits. */
  predicate AllDigits(s: string)
  {
    |s| >= 1 && forall i :: 0 <= i < |s| ==> IsDigit(s[i])
  }

  /** The value of a run of decimal digits, most significant first. */
  function DigitsValue(s: string): nat
    requires forall i :: 0 <= i < |s| ==> IsDigit(s[i])
  {
    if |s| == 0 then 0 else DigitsValue(s[..|s| - 1]) * 10 + DigitValue(s[|s| - 1])
  }

  /**
   * `strconv.Atoi` on unbounded integers: an optional sign followed by one or
   * more decimal digits; anything else is a syntax error (`None`).
   */
  function Atoi(s: string): (r: Option<int>)
    ensures r.Some? <==> AllDigits(s) || (|s| >= 2 && (s[0] == '+' || s[0] == '-') && AllDigits(s[1..]))
    ensures AllDigits(s) ==> r == Some(DigitsValue(s))
    ensures |s| >= 2 && s[0] == '+' && AllDigits(s[1..]) ==> r == Some(DigitsValue(s[1..]))
    ensures |s| >= 2 && s[0] == '-' && AllDigits(s[1..]) ==> r == Some(0 - DigitsValue(s[1..]))
  {
    var signed := |s| >= 1 && (s[0] == '+' || s[0] == '-');
    var digits := if signed then s[1..] else s;
    if |digits| == 0 || exists i :: 0 <= i < |digits| && !IsDigit(digits[i]) then None
    else
      var v: int := DigitsValue(digits);
      if signed && s[0] == '-' then Some(-v) else Some(v)
  }

  lemma {:induction false} DigitsValueOfDecimal(n: nat)
    ensures DigitsValue(DecimalString(n)) == n
  {
    if n >= 10 {
      var s := DecimalString(n);
      assert s[..|s| - 1] == DecimalString(n / 10);
      DigitsValueOfDecimal(n / 10);
    }
  }

  /** `strconv.Atoi` reads back what `%d` wrote. */
  lemma AtoiDecimalString(n: nat)
    ensures Atoi(DecimalString(n)) == Some(n)
  {
    DigitsValueOfDecimal(n);
  }

  /** `strconv.Atoi` reads back what `%02d` wrote (a leading zero is allowed). */
  lemma AtoiZeroPad2(n: nat)
    ensures Atoi(ZeroPad2(n)) == Some(n)
  {
    if n < 10 {
      var s := ZeroPad2(n);
      assert s[..1] == ['0'] && s[..1][..0] == [];
      assert DigitsValue(s[..1]) == 0;
      assert DigitsValue(s) == n;
    } else {
      AtoiDecimalString(n);
    }
  }

  /** Numbers below 100 take exactly two characters under `%02d`. */
  lemma ZeroPad2Length(n: nat)
    requires n < 100
    ensures |ZeroPad2(n)| == 2
  {
    if n >= 10 {
      assert DecimalString(n) == DecimalString(n / 10) + [DigitChar(n % 10)];
    }
  }

  /** Distinct numbers give distinct `%02d` texts. */
  lemma ZeroPad2Injective(i: nat, j: nat)
    requires ZeroPad2(i) == ZeroPad2(j)
    ensures i == j
  {
    AtoiZeroPad2(i);
    AtoiZeroPad2(j);
  }
}
