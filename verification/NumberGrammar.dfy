/** The number grammar of section 6 of RFC 8259, and the scan is_number makes of its text. */
module NumberGrammar {
  import opened Wrappers

  // ---------- the grammar ----------

  predicate IsDigit(ch: char) { '0' <= ch <= '9' }

  predicate IsE(ch: char) { ch == 'e' || ch == 'E' }

  predicate IsSign(ch: char) { ch == '+' || ch == '-' }

  /** 1*DIGIT */
  predicate Digits(t: string) {
    t != [] && forall i: nat :: i < |t| ==> IsDigit(t[i])
  }

  /** int = zero / ( digit1-9 *DIGIT ) */
  predicate IsInt(t: string) { Digits(t) && (t[0] == '0' ==> |t| == 1) }

  /** frac = decimal-point 1*DIGIT */
  predicate IsFrac(t: string) { t != [] && t[0] == '.' && Digits(t[1..]) }

  /** exp = e [ minus / plus ] 1*DIGIT */
  predicate IsExp(t: string) {
    t != [] && IsE(t[0]) && (Digits(t[1..]) || (|t| > 1 && IsSign(t[1]) && Digits(t[2..])))
  }

  /** number = [ minus ] int [ frac ] [ exp ] */
  ghost predicate IsNumber(t: string) {
    exists minus, int_, frac, exp :: Parts(t, minus, int_, frac, exp)
  }

  predicate Parts(t: string, minus: string, int_: string, frac: string, exp: string) {
    && t == minus + int_ + frac + exp
    && (minus == [] || minus == "-") && IsInt(int_) && (frac == [] || IsFrac(frac)) && (exp == [] || IsExp(exp))
  }

  ghost predicate LongestNumber(s: string, n: nat) {
    n <= |s| && IsNumber(s[..n]) && forall m: nat :: n < m <= |s| ==> !IsNumber(s[..m])
  }

  /** The number at the front of s is followed by the start of a fraction or an exponent it could have had. */
  predicate CutShort(s: string, n: nat)
    requires n <= |s|
  {
    || (At(s, n) == '.' && '.' !in s[..n] && NoE(s[..n]))
    || (IsE(At(s, n)) && NoE(s[..n]))
  }

  predicate NoE(t: string) { 'e' !in t && 'E' !in t }

  // ---------- the scan ----------

  const NUL: char := '\0'

  /** The character at i, as buf_get_char reports it. */
  function At(s: string, i: nat): char { if i < |s| then s[i] else NUL }

  function DigitsEnd(s: string, i: nat): (j: nat)
    ensures j >= i && !IsDigit(At(s, j)) && (i <= |s| ==> j <= |s|)
    ensures forall k: nat :: i <= k < j ==> k < |s| && IsDigit(s[k])
    decreases |s| - i
  {
    if i < |s| && IsDigit(s[i]) then DigitsEnd(s, i + 1) else i
  }

  function SignEnd(s: string): nat { if At(s, 0) == '-' then 1 else 0 }

  function IntEnd(s: string): nat {
    if At(s, SignEnd(s)) == '0' then SignEnd(s) + 1 else DigitsEnd(s, SignEnd(s))
  }

  function FracEnd(s: string): nat {
    if At(s, IntEnd(s)) == '.' then DigitsEnd(s, IntEnd(s) + 1) else IntEnd(s)
  }

  function ExpDigits(s: string): nat {
    if IsSign(At(s, FracEnd(s) + 1)) then FracEnd(s) + 2 else FracEnd(s) + 1
  }

  function ExpEnd(s: string): nat {
    if IsE(At(s, FracEnd(s))) then DigitsEnd(s, ExpDigits(s)) else FracEnd(s)
  }

  /** The length of the token is_number accepts at the front of s. */
  function Recognise(s: string): Option<nat> {
    if IntEnd(s) == SignEnd(s) then None
    else if At(s, IntEnd(s)) == '.' && FracEnd(s) == IntEnd(s) + 1 then None
    else LastPart(s)
  }

  /** The same once the integer and the fraction have been accepted. */
  function LastPart(s: string): Option<nat> {
    if IsE(At(s, FracEnd(s))) && !IsDigit(At(s, ExpEnd(s) - 1)) then None else Some(ExpEnd(s))
  }

  /** The digits of an exponent, from the place i of its e. */
  function ExpTail(s: string, i: nat): Option<nat> {
    var end := DigitsEnd(s, if IsSign(At(s, i + 1)) then i + 2 else i + 1);
    if IsDigit(At(s, end - 1)) then Some(end) else None
  }

  lemma LastPartIs(s: string, i: nat)
    requires i == FracEnd(s)
    ensures LastPart(s) == if IsE(At(s, i)) then ExpTail(s, i) else Some(i)
  {
  }

  // ---------- numbers by the places where their parts end ----------

  predicate DigitsIn(s: string, i: nat, j: nat) {
    i < j <= |s| && forall k: nat :: i <= k < j ==> IsDigit(s[k])
  }

  predicate IntIn(s: string, a: nat, b: nat) { DigitsIn(s, a, b) && (s[a] == '0' ==> b == a + 1) }

  predicate FracIn(s: string, b: nat, c: nat) { c == b || (b < |s| && s[b] == '.' && DigitsIn(s, b + 1, c)) }

  predicate ExpIn(s: string, c: nat, m: nat) {
    m == c || (c < |s| && IsE(s[c]) && (DigitsIn(s, c + 1, m) || (IsSign(At(s, c + 1)) && DigitsIn(s, c + 2, m))))
  }

  /** The front of s up to m is a number whose sign, integer and fraction end at a, b and c. */
  predicate Layout(s: string, a: nat, b: nat, c: nat, m: nat) {
    && a <= 1 && (a == 1 ==> At(s, 0) == '-')
    && IntIn(s, a, b) && FracIn(s, b, c) && ExpIn(s, c, m) && c <= m <= |s|
  }

  lemma DigitsInSlice(s: string, i: nat, j: nat)
    requires i <= j <= |s|
    ensures Digits(s[i..j]) <==> DigitsIn(s, i, j)
  {
    var t := s[i..j];
    assert forall k: nat :: k < |t| ==> t[k] == s[i + k];
    assert forall k: nat :: i <= k < j ==> s[k] == t[k - i];
  }

  lemma IntInSlice(s: string, a: nat, b: nat)
    requires a <= b <= |s|
    ensures IsInt(s[a..b]) <==> IntIn(s, a, b)
  {
    DigitsInSlice(s, a, b);
  }

  lemma FracInSlice(s: string, b: nat, c: nat)
    requires b <= c <= |s|
    ensures s[b..c] == [] || IsFrac(s[b..c]) <==> FracIn(s, b, c)
  {
    if b < c {
      assert s[b..c][1..] == s[b + 1..c];
      DigitsInSlice(s, b + 1, c);
    }
  }

  lemma ExpInSlice(s: string, c: nat, m: nat)
    requires c <= m <= |s|
    ensures s[c..m] == [] || IsExp(s[c..m]) <==> ExpIn(s, c, m)
  {
    if c < m {
      assert s[c..m][1..] == s[c + 1..m];
      DigitsInSlice(s, c + 1, m);
      if c + 1 < m {
        assert s[c..m][2..] == s[c + 2..m];
        DigitsInSlice(s, c + 2, m);
      }
    }
  }

  lemma LayoutIsNumber(s: string, a: nat, b: nat, c: nat, m: nat)
    requires Layout(s, a, b, c, m)
    ensures IsNumber(s[..m])
  {
    assert b <= c;
    IntInSlice(s, a, b);
    FracInSlice(s, b, c);
    ExpInSlice(s, c, m);
    assert s[..m] == s[..a] + s[a..b] + s[b..c] + s[c..m];
    assert Parts(s[..m], s[..a], s[a..b], s[b..c], s[c..m]);
  }

  lemma NumberHasLayout(s: string, m: nat) returns (a: nat, b: nat, c: nat)
    requires m <= |s| && IsNumber(s[..m])
    ensures Layout(s, a, b, c, m)
  {
    var minus, int_, frac, exp :| Parts(s[..m], minus, int_, frac, exp);
    a, b, c := |minus|, |minus| + |int_|, |minus| + |int_| + |frac|;
    Pieces(s, minus, int_, frac, exp, m);
    IntInSlice(s, a, b);
    FracInSlice(s, b, c);
    ExpInSlice(s, c, m);
  }

  lemma Pieces(s: string, w: string, x: string, y: string, z: string, m: nat)
    requires m <= |s| && s[..m] == w + x + y + z
    ensures var (a, b, c) := (|w|, |w| + |x|, |w| + |x| + |y|);
      c <= m && s[..a] == w && s[a..b] == x && s[b..c] == y && s[c..m] == z
  {
    var (a, b, c) := (|w|, |w| + |x|, |w| + |x| + |y|);
    var t := w + x + y + z;
    assert s[..a] == t[..a] && s[a..b] == t[a..b] && s[b..c] == t[b..c] && s[c..m] == t[c..];
  }

  // ---------- the scan against the grammar ----------

  lemma AcceptedLayout(s: string)
    requires Recognise(s).Some?
    ensures Layout(s, SignEnd(s), IntEnd(s), FracEnd(s), Recognise(s).value)
  {
  }

  /** The parts of any number at the front of s, against the places the scan stops at. */
  lemma LayoutInScan(s: string, a: nat, b: nat, c: nat, m: nat)
    requires Layout(s, a, b, c, m)
    ensures a == SignEnd(s) && b <= IntEnd(s)
    ensures (c > b || m > c) ==> b == IntEnd(s)
    ensures c > b ==> c <= FracEnd(s) && At(s, IntEnd(s)) == '.'
    ensures m > c && c > b ==> c == FracEnd(s)
    ensures m > c ==> m <= DigitsEnd(s, if IsSign(At(s, c + 1)) then c + 2 else c + 1)
  {
  }

  /** Every number at the front of an accepted text is within the token. */
  lemma NothingLonger(s: string, m: nat)
    requires Recognise(s).Some? && m <= |s| && IsNumber(s[..m])
    ensures m <= Recognise(s).value
  {
    var a, b, c := NumberHasLayout(s, m);
    LayoutInScan(s, a, b, c, m);
  }

  lemma AcceptedIsLongest(s: string)
    requires Recognise(s).Some?
    ensures LongestNumber(s, Recognise(s).value) && !CutShort(s, Recognise(s).value)
  {
    var b, c, n := IntEnd(s), FracEnd(s), Recognise(s).value;
    AcceptedLayout(s);
    LayoutIsNumber(s, SignEnd(s), b, c, n);
    forall m: nat | n < m <= |s| ensures !IsNumber(s[..m]) {
      if IsNumber(s[..m]) { NothingLonger(s, m); }
    }
    if c < n { assert s[..n][c] == s[c]; }
    if b < c { assert s[..n][b] == s[b]; }
  }

  /** How far a rejected text is a number. */
  function Stump(s: string): nat {
    if At(s, IntEnd(s)) == '.' && FracEnd(s) == IntEnd(s) + 1 then IntEnd(s) else FracEnd(s)
  }

  lemma StumpIsCut(s: string)
    requires Recognise(s).None? && SignEnd(s) < IntEnd(s)
    ensures Layout(s, SignEnd(s), IntEnd(s), Stump(s), Stump(s)) && CutShort(s, Stump(s))
  {
  }

  lemma RejectedBound(s: string, m: nat)
    requires Recognise(s).None? && m <= |s| && IsNumber(s[..m])
    ensures SignEnd(s) < IntEnd(s) && m <= Stump(s)
  {
    var a, b, c := NumberHasLayout(s, m);
    LayoutInScan(s, a, b, c, m);
  }

  /** A rejected text starts with no number, or its longest one is followed by half a fraction or exponent. */
  lemma RejectedWhy(s: string)
    requires Recognise(s).None?
    ensures IntEnd(s) == SignEnd(s) ==> forall m: nat :: m <= |s| ==> !IsNumber(s[..m])
    ensures IntEnd(s) > SignEnd(s) ==> Stump(s) <= |s| && LongestNumber(s, Stump(s)) && CutShort(s, Stump(s))
  {
    forall m: nat | m <= |s| && IsNumber(s[..m]) ensures SignEnd(s) < IntEnd(s) && m <= Stump(s) { RejectedBound(s, m); }
    if SignEnd(s) < IntEnd(s) {
      StumpIsCut(s);
      LayoutIsNumber(s, SignEnd(s), IntEnd(s), Stump(s), Stump(s));
    }
  }

  /** is_number accepts n characters exactly when they are the longest number at the front of the text and
      no fraction or exponent they could have had begins behind them. */
  lemma RecogniseExactly(s: string, n: nat)
    requires n <= |s|
    ensures Recognise(s) == Some(n) <==> LongestNumber(s, n) && !CutShort(s, n)
  {
    if Recognise(s).Some? {
      AcceptedIsLongest(s);
    } else {
      RejectedWhy(s);
    }
  }

  /** And it rejects exactly the texts that start with no number or whose longest one is cut short. */
  lemma RejectsExactly(s: string)
    ensures Recognise(s).None? <==>
      || (forall m: nat :: m <= |s| ==> !IsNumber(s[..m]))
      || (exists n: nat :: n <= |s| && LongestNumber(s, n) && CutShort(s, n))
  {
    hide IsNumber;
    if Recognise(s).Some? {
      AcceptedIsLongest(s);
      forall n: nat | n <= |s| && LongestNumber(s, n) ensures n == Recognise(s).value { }
    } else {
      RejectedWhy(s);
    }
  }
}
