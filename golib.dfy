/** The pieces of Go's standard library the discovery core leans on, over
    byte strings: `strings.Index`, `strings.Replace`, `strconv.Itoa` and
    `strconv.Atoi` on a 64-bit platform.  A Go string is a sequence of bytes
    and `len` counts bytes, so a string is `Bytes` here. */
module GoLib {
  import opened Errors

  type byte = bv8
  type Bytes = seq<byte>

  /** Bounds of Go's `int` on a 64-bit platform. */
  const MaxInt: int := 0x7fff_ffff_ffff_ffff
  const MinInt: int := -0x8000_0000_0000_0000

  const Plus: byte := 43    // '+'
  const Minus: byte := 45   // '-'
  const Slash: byte := 47   // '/'
  const Zero: byte := 48    // '0'

  predicate IsDigit(b: byte) { Zero <= b <= 57 }

  predicate AllDigits(s: Bytes) {
    forall i :: 0 <= i < |s| ==> IsDigit(s[i])
  }

  /** The bytes of an ASCII string literal. */
  function Ascii(s: string): (r: Bytes)
    requires forall i :: 0 <= i < |s| ==> s[i] < 128 as char
    ensures |r| == |s|
    ensures forall i :: 0 <= i < |s| ==> r[i] as int == s[i] as int
  {
    seq(|s|, i requires 0 <= i < |s| => (s[i] as int % 256) as bv8)
  }

  // ---------------------------------------------------------------------------
  // strings.Index

  predicate OccursAt(s: Bytes, sub: Bytes, i: nat) {
    i + |sub| <= |s| && s[i..i + |sub|] == sub
  }

  /** The leftmost occurrence of `sub` in `s` at or after `k`. */
  function IndexFrom(s: Bytes, sub: Bytes, k: nat): (r: Option<nat>)
    requires k <= |s|
    ensures r.Some? ==> k <= r.value && OccursAt(s, sub, r.value)
    ensures r.Some? ==> forall j: nat :: k <= j < r.value ==> !OccursAt(s, sub, j)
    ensures r.None? ==> forall j: nat :: k <= j ==> !OccursAt(s, sub, j)
    decreases |s| - k
  {
    if OccursAt(s, sub, k) then Some(k)
    else if k == |s| then None
    else IndexFrom(s, sub, k + 1)
  }

  /** strings.Index: the leftmost occurrence of `sub` in `s`, if any. */
  function Index(s: Bytes, sub: Bytes): (r: Option<nat>)
    ensures r.Some? ==> OccursAt(s, sub, r.value)
    ensures r.Some? ==> forall j: nat :: j < r.value ==> !OccursAt(s, sub, j)
    ensures r.None? ==> forall j: nat :: !OccursAt(s, sub, j)
  {
    IndexFrom(s, sub, 0)
  }

  // ---------------------------------------------------------------------------
  // strings.Replace

  /** strings.Replace(s, pat, rep, n) for n >= 0: replaces the first n
      non-overlapping occurrences of `pat`, scanning left to right.  An empty
      `pat` matches at the start of the string, which is the only case the core
      reaches with it (n <= 1). */
  function Replace(s: Bytes, pat: Bytes, rep: Bytes, n: nat): (r: Bytes)
    requires pat != [] || n <= 1
    ensures |rep| == |pat| ==> |r| == |s|
    ensures rep == [] ==> |r| <= |s|
    decreases n
  {
    if pat == rep || n == 0 then s
    else if pat == [] then rep + s
    else
      match Index(s, pat)
      case None => s
      case Some(i) => s[..i] + rep + Replace(s[i + |pat|..], pat, rep, n - 1)
  }

  /** `pat` first occurs in s at i. */
  ghost predicate FirstOccurrence(s: Bytes, pat: Bytes, i: nat) {
    OccursAt(s, pat, i) && forall j: nat :: j < i ==> !OccursAt(s, pat, j)
  }

  /** Replacing the first occurrence splices `rep` in at the leftmost match. */
  lemma ReplaceOnceAt(s: Bytes, pat: Bytes, rep: Bytes, i: nat)
    requires pat != [] && pat != rep && FirstOccurrence(s, pat, i)
    ensures Replace(s, pat, rep, 1) == s[..i] + rep + s[i + |pat|..]
  {
    assert Index(s, pat) == Some(i);
  }

  /** Replacing the first occurrence of a prefix of s by something longer
      puts the replacement in the prefix's place; an empty prefix matches at
      the front. */
  lemma ReplacePrefixOnce(s: Bytes, pre: Bytes, rep: Bytes)
    requires OccursAt(s, pre, 0) && |rep| > |pre|
    ensures Replace(s, pre, rep, 1) == rep + s[|pre|..]
  {
    if pre != [] {
      ReplaceOnceAt(s, pre, rep, 0);
      assert s[..0] == [];
    }
  }

  /** A match at the front is replaced and the scan resumes after it. */
  lemma ReplaceAtFront(s: Bytes, pat: Bytes, rep: Bytes, n: nat)
    requires pat != [] && pat != rep && n >= 1 && OccursAt(s, pat, 0)
    ensures Replace(s, pat, rep, n) == rep + Replace(s[|pat|..], pat, rep, n - 1)
  {
    assert Index(s, pat) == Some(0);
    calc {
      Replace(s, pat, rep, n);
      s[..0] + rep + Replace(s[0 + |pat|..], pat, rep, n - 1);
      { assert s[..0] == []; }
      rep + Replace(s[|pat|..], pat, rep, n - 1);
    }
  }

  /** Nothing is replaced when the pattern does not occur. */
  lemma ReplaceAbsent(s: Bytes, pat: Bytes, rep: Bytes, n: nat)
    requires pat != [] && forall j: nat :: !OccursAt(s, pat, j)
    ensures Replace(s, pat, rep, n) == s
  {
  }

  // ---------------------------------------------------------------------------
  // strconv.Itoa and strconv.Atoi

  function DigitByte(d: nat): (b: byte)
    requires d < 10
    ensures IsDigit(b)
  {
    (48 + d) as bv8
  }

  function DigitValue(b: byte): (d: nat)
    requires IsDigit(b)
    ensures d < 10 && DigitByte(d) == b
  {
    (b - Zero) as int
  }

  lemma DigitValueOfDigitByte(d: nat)
    requires d < 10
    ensures DigitValue(DigitByte(d)) == d
  {
  }

  /** Decimal digits of n, most significant first, without leading zeros. */
  function NatDigits(n: nat): (r: Bytes)
    ensures |r| >= 1 && AllDigits(r)
    ensures r[0] == Zero <==> n == 0
    ensures n < 10 ==> |r| == 1
    ensures 10 <= n < 100 ==> |r| == 2
    decreases n
  {
    if n < 10 then [DigitByte(n)] else NatDigits(n / 10) + [DigitByte(n % 10)]
  }

  /** strconv.Itoa */
  function Itoa(n: int): (r: Bytes)
    ensures |r| >= 1
    ensures n >= 0 ==> AllDigits(r)
    ensures n < 0 ==> r[0] == Minus
  {
    if n < 0 then [Minus] + NatDigits(-n) else NatDigits(n)
  }

  /** The value of a string of decimal digits. */
  function DigitsValue(s: Bytes): (v: nat)
    requires AllDigits(s)
  {
    if s == [] then 0 else DigitsValue(s[..|s| - 1]) * 10 + DigitValue(s[|s| - 1])
  }

  /** The end of the run of digits starting at j. */
  function DigitRunEnd(s: Bytes, j: nat): (k: nat)
    requires j <= |s|
    ensures j <= k <= |s| && AllDigits(s[j..k])
    ensures k < |s| ==> !IsDigit(s[k])
    decreases |s| - j
  {
    if j < |s| && IsDigit(s[j]) then
      var k := DigitRunEnd(s, j + 1);
      assert s[j..k] == [s[j]] + s[j + 1..k];
      k
    else j
  }

  lemma {:induction false} DigitRunEndAt(s: Bytes, j: nat, k: nat)
    requires j <= k < |s| && AllDigits(s[j..k]) && !IsDigit(s[k])
    ensures DigitRunEnd(s, j) == k
    decreases k - j
  {
    if j < k {
      assert IsDigit(s[j..k][0]);
      assert s[j + 1..k] == s[j..k][1..];
      DigitRunEndAt(s, j + 1, k);
    }
  }

  /** A string of digits is one run of digits. */
  lemma DigitRunEndOfDigits(s: Bytes)
    requires AllDigits(s)
    ensures DigitRunEnd(s, 0) == |s|
  {
  }

  /** The largest value of Go's `uint64`, the accumulator strconv parses into. */
  const MaxUint64: int := 0xffff_ffff_ffff_ffff

  /** strconv.Atoi: an optional sign followed by at least one decimal digit,
      whose value fits Go's 64-bit `int`. */
  function Atoi(s: Bytes): (r: Result<int>)
    ensures r.Ok? ==> MinInt <= r.value <= MaxInt
    ensures r.Ok? ==> s != [] && (AllDigits(s) || s[0] == Plus || s[0] == Minus)
    ensures r.Err? ==> r.error == NumSyntax || r.error == NumRange(MinInt) || r.error == NumRange(MaxInt)
    ensures s == [] ==> r == Err(NumSyntax)
  {
    var signed := s != [] && (s[0] == Plus || s[0] == Minus);
    ParseDecimal(if signed then s[1..] else s, signed && s[0] == Minus)
  }

  /** The digits after the sign.  strconv scans them left to right into a
      `uint64`, so a run of digits that overflows it is a range error even
      when a non-digit follows; otherwise a non-digit is a syntax error, and a
      value beyond `int` is a range error last. */
  function ParseDecimal(body: Bytes, negative: bool): (r: Result<int>)
    ensures r.Ok? ==> body != [] && AllDigits(body) && MinInt <= r.value <= MaxInt
    ensures r.Err? ==> r.error == NumSyntax || r.error == NumRange(MinInt) || r.error == NumRange(MaxInt)
    ensures body == [] ==> r == Err(NumSyntax)
  {
    var run := DigitRunEnd(body, 0);
    if body == [] then Err(NumSyntax)
    else if DigitsValue(body[..run]) > MaxUint64 then Err(NumRange(if negative then MinInt else MaxInt))
    else if run < |body| then Err(NumSyntax)
    else
      var v: int := if negative then -(DigitsValue(body) as int) else DigitsValue(body);
      if v > MaxInt then Err(NumRange(MaxInt))
      else if v < MinInt then Err(NumRange(MinInt))
      else Ok(v)
  }

  /** A run of digits that overflows `uint64` is a range error whatever
      follows it: "99999999999999999999x" gives the clamped MaxInt64, not a
      syntax error. */
  lemma AtoiOverflowBeforeSyntax(d: Bytes, rest: Bytes)
    requires AllDigits(d) && DigitsValue(d) > MaxUint64
    requires rest == [] || !IsDigit(rest[0])
    ensures Atoi(d + rest) == Err(NumRange(MaxInt))
  {
    var s := d + rest;
    assert d != [];
    assert s[0] == d[0] && IsDigit(s[0]);
    assert s[..|d|] == d;
    if rest == [] {
      assert s == d;
      DigitRunEndOfDigits(s);
    } else {
      assert s[0..|d|] == d && s[|d|] == rest[0];
      DigitRunEndAt(s, 0, |d|);
    }
  }

  /** The integer Go's Atoi returns beside its error: 0 on a syntax error, the
      clamped bound on a range error. */
  function AtoiValue(r: Result<int>): int {
    match r
    case Ok(v) => v
    case Err(NumRange(c)) => c
    case Err(_) => 0
  }

  /** What Go's Atoi hands back as its int: always in range, 0 after a syntax
      error and the bound on the overflowing side after a range error. */
  lemma AtoiValueOfAtoi(s: Bytes)
    ensures MinInt <= AtoiValue(Atoi(s)) <= MaxInt
    ensures Atoi(s) == Err(NumSyntax) ==> AtoiValue(Atoi(s)) == 0
    ensures Atoi(s).Err? && Atoi(s).error.NumRange? ==>
              AtoiValue(Atoi(s)) == MinInt || AtoiValue(Atoi(s)) == MaxInt
  {
  }

  lemma {:induction false} DigitsValueOfNatDigits(n: nat)
    ensures DigitsValue(NatDigits(n)) == n
    decreases n
  {
    var ds := NatDigits(n);
    if n < 10 {
      DigitValueOfDigitByte(n);
    } else {
      assert ds[..|ds| - 1] == NatDigits(n / 10);
      DigitsValueOfNatDigits(n / 10);
      DigitValueOfDigitByte(n % 10);
      assert DigitsValue(ds) == (n / 10) * 10 + n % 10;
    }
  }

  /** Atoi inverts Itoa on Go's int range. */
  lemma AtoiItoa(n: int)
    requires MinInt <= n <= MaxInt
    ensures Atoi(Itoa(n)) == Ok(n)
  {
    if n < 0 {
      assert Itoa(n) == [Minus] + NatDigits(-n);
      DigitsValueOfNatDigits(-n);
      AtoiOfNegativeDigits(NatDigits(-n));
    } else {
      assert Itoa(n) == NatDigits(n);
      DigitsValueOfNatDigits(n);
      AtoiOfDigits(NatDigits(n));
    }
  }

  /** An unsigned run of digits parses to its value when that fits. */
  lemma AtoiOfDigits(s: Bytes)
    requires AllDigits(s) && s != [] && DigitsValue(s) <= MaxInt
    ensures Atoi(s) == Ok(DigitsValue(s))
  {
    assert IsDigit(s[0]);
    ParseDigits(s, false);
  }

  /** A minus sign before a run of digits parses to the negated value when
      that fits. */
  lemma AtoiOfNegativeDigits(s: Bytes)
    requires AllDigits(s) && s != [] && DigitsValue(s) <= -MinInt
    ensures Atoi([Minus] + s) == Ok(-(DigitsValue(s) as int))
  {
    assert ([Minus] + s)[1..] == s;
    ParseDigits(s, true);
  }

  /** A run of digits within range parses to its value, negated after '-'. */
  lemma ParseDigits(s: Bytes, negative: bool)
    requires AllDigits(s) && s != []
    requires if negative then DigitsValue(s) <= -MinInt else DigitsValue(s) <= MaxInt
    ensures ParseDecimal(s, negative) == Ok(if negative then -(DigitsValue(s) as int) else DigitsValue(s))
  {
    DigitRunEndOfDigits(s);
    assert s[..|s|] == s;
  }

  /** Appending a digit d to a decimal a gives a * 10 + d, whose quotient
      and remainder by ten recover a and d. */
  lemma AppendDigit(a: nat, d: nat)
    requires d < 10
    ensures (a * 10 + d) / 10 == a && (a * 10 + d) % 10 == d
  {
  }

  /** The decimal spelling of a * 10 + d is a's followed by the digit d. */
  lemma NatDigitsAppend(a: nat, d: nat)
    requires a != 0 && d < 10
    ensures NatDigits(a * 10 + d) == NatDigits(a) + [DigitByte(d)]
  {
    AppendDigit(a, d);
  }

  /** A digit string without a leading zero is the decimal spelling of its value. */
  lemma {:induction false} NatDigitsOfDigitsValue(s: Bytes)
    requires AllDigits(s) && s != [] && (s[0] != Zero || |s| == 1)
    ensures NatDigits(DigitsValue(s)) == s
    decreases |s|
  {
    if |s| == 1 {
      NatDigitsOfDigit(s);
    } else {
      var prefix := s[..|s| - 1];
      assert prefix[0] == s[0];
      NatDigitsOfDigitsValue(prefix);
      NatDigitsOfLonger(s);
    }
  }

  /** A single digit spells its own value. */
  lemma NatDigitsOfDigit(s: Bytes)
    requires AllDigits(s) && |s| == 1
    ensures NatDigits(DigitsValue(s)) == s
  {
    assert s[..0] == [];
    assert DigitsValue(s) == DigitValue(s[0]);
  }

  /** The inductive step on a whole string: if all but its last digit spell
      their value, so does the whole. */
  lemma NatDigitsOfLonger(s: Bytes)
    requires AllDigits(s) && |s| > 1 && s[0] != Zero
    requires NatDigits(DigitsValue(s[..|s| - 1])) == s[..|s| - 1]
    ensures NatDigits(DigitsValue(s)) == s
  {
    var prefix, last := s[..|s| - 1], s[|s| - 1];
    assert prefix[0] == s[0];
    assert s == prefix + [last];
    NatDigitsOfSnoc(prefix, last, DigitsValue(s));
  }

  /** The inductive step: one more digit after a spelled-out number. */
  lemma NatDigitsOfSnoc(p: Bytes, b: byte, w: nat)
    requires AllDigits(p) && p != [] && p[0] != Zero && NatDigits(DigitsValue(p)) == p
    requires IsDigit(b) && w == DigitsValue(p) * 10 + DigitValue(b)
    ensures NatDigits(w) == p + [b]
  {
    var v, d := DigitsValue(p), DigitValue(b);
    assert v != 0 by {
      assert NatDigits(v)[0] != Zero;
    }
    calc {
      NatDigits(w);
      { NatDigitsAppend(v, d); }
      NatDigits(v) + [DigitByte(d)];
      p + [b];
    }
  }

  /** The value of digits followed by one more digit. */
  lemma DigitsValueSnoc(p: Bytes, b: byte)
    requires AllDigits(p) && IsDigit(b)
    ensures AllDigits(p + [b])
    ensures DigitsValue(p + [b]) == DigitsValue(p) * 10 + DigitValue(b)
  {
    assert (p + [b])[..|p|] == p;
  }

  /** Two digit strings without leading zeros spell the same number only if
      they are the same string. */
  lemma DigitsInjective(s: Bytes, t: Bytes)
    requires AllDigits(s) && s != [] && s[0] != Zero
    requires AllDigits(t) && t != [] && t[0] != Zero
    requires DigitsValue(s) == DigitsValue(t)
    ensures s == t
  {
    NatDigitsOfDigitsValue(s);
    NatDigitsOfDigitsValue(t);
  }

  /** Distinct numbers have distinct decimal spellings. */
  lemma ItoaInjective(m: nat, n: nat)
    requires m != n
    ensures Itoa(m) != Itoa(n)
  {
    DigitsValueOfNatDigits(m);
    DigitsValueOfNatDigits(n);
  }
}
