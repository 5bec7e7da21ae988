// The expression check of the calculator front end (`check_input`).
//
// The input has every ',' rewritten to '.', and the result must then match, as
// a whole, the pattern
//
//     ^([-+]?[0-9]*\.?[0-9]+)\s*([+\-*/])\s*([-+]?[0-9]*\.?[0-9]+)$
//
// A match whose operator is '/' and whose right operand is zero is refused with
// its own message. The pattern language is stated here as a specification
// (`Matches`: there is a split of the text into number, white space, operator,
// white space, number), the recogniser as a left-to-right scanner (`Parse`), and
// `ParseComplete` proves that the two agree and that the split is unique.
module Validator {

  datatype Option<T> = None | Some(value: T)

  /** The three outcomes of the check; only `Accepted` lets a request be sent. */
  datatype Verdict = Accepted | DivisionByZero | BadFormat

  /** The decimal-comma rewrite done before matching (and before sending). */
  function Sanitize(s: string): (r: string)
    ensures |r| == |s|
    ensures forall i :: 0 <= i < |s| ==> r[i] == (if s[i] == ',' then '.' else s[i])
  {
    if s == [] then [] else [if s[0] == ',' then '.' else s[0]] + Sanitize(s[1..])
  }

  // Character classes of the pattern

  predicate IsDigit(c: char) { '0' <= c <= '9' }

  predicate IsSign(c: char) { c == '+' || c == '-' }

  predicate IsOperator(c: char) { c == '+' || c == '-' || c == '*' || c == '/' }

  /** `\s` without Unicode properties: space, tab, line feed, vertical tab, form feed, carriage return. */
  predicate IsSpace(c: char) {
    c == ' ' || c == '\t' || c == '\n' || c == '\U{000B}' || c == '\U{000C}' || c == '\r'
  }

  predicate AllDigits(t: string) { forall i :: 0 <= i < |t| ==> IsDigit(t[i]) }

  predicate AllSpace(t: string) { forall i :: 0 <= i < |t| ==> IsSpace(t[i]) }

  // ---------------------------------------------------------------------------
  // Specification: the language of the pattern

  /**
    `[0-9]*\.?[0-9]+`: a non-empty run of digits and dots that holds at most
    one dot and ends with a digit (so a dot, if any, has a digit after it).
  */
  ghost predicate IsUnsigned(u: string) {
    && |u| > 0
    && IsDigit(u[|u| - 1])
    && (forall i :: 0 <= i < |u| ==> IsDigit(u[i]) || u[i] == '.')
    && (forall i, j :: 0 <= i < j < |u| && u[i] == '.' ==> u[j] != '.')
  }

  /** `[-+]?[0-9]*\.?[0-9]+` */
  ghost predicate IsNumber(t: string) {
    IsUnsigned(t) || (|t| > 0 && IsSign(t[0]) && IsUnsigned(t[1..]))
  }

  /**
    Where the parts of a match lie: the left operand is s[..leftEnd], the
    operator s[opAt], the right operand s[rightStart..rightEnd]; white space
    lies between them.
  */
  datatype Split = Split(leftEnd: nat, opAt: nat, rightStart: nat, rightEnd: nat)

  /**
    `p` splits the whole of `s` the way the anchored pattern does. The `$` of
    the pattern (no DOLLAR_ENDONLY option) also matches just before a final
    line feed, so one trailing '\n' may follow the right operand.
  */
  ghost predicate IsSplit(s: string, p: Split) {
    && p.leftEnd <= p.opAt < p.rightStart <= p.rightEnd <= |s|
    && IsNumber(s[..p.leftEnd])
    && AllSpace(s[p.leftEnd..p.opAt])
    && IsOperator(s[p.opAt])
    && AllSpace(s[p.opAt + 1..p.rightStart])
    && IsNumber(s[p.rightStart..p.rightEnd])
    && (p.rightEnd == |s| || (p.rightEnd == |s| - 1 && s[p.rightEnd] == '\n'))
  }

  ghost predicate Matches(s: string) {
    exists p :: IsSplit(s, p)
  }

  /** The `toDouble() == 0` test on the right operand: every digit is '0', whatever the sign. */
  predicate IsZeroOperand(t: string) {
    forall i :: 0 <= i < |t| && IsDigit(t[i]) ==> t[i] == '0'
  }

  // ---------------------------------------------------------------------------
  // The scanner

  /** End of the run of digits that starts at `i`. */
  function DigitsEnd(s: string, i: nat): (j: nat)
    requires i <= |s|
    ensures i <= j <= |s|
    ensures AllDigits(s[i..j])
    ensures j == |s| || !IsDigit(s[j])
    decreases |s| - i
  {
    if i < |s| && IsDigit(s[i]) then
      var j := DigitsEnd(s, i + 1);
      assert s[i..j] == [s[i]] + s[i + 1..j];
      j
    else i
  }

  /** End of the run of white space that starts at `i`. */
  function SpacesEnd(s: string, i: nat): (j: nat)
    requires i <= |s|
    ensures i <= j <= |s|
    ensures AllSpace(s[i..j])
    ensures j == |s| || !IsSpace(s[j])
    decreases |s| - i
  {
    if i < |s| && IsSpace(s[i]) then
      var j := SpacesEnd(s, i + 1);
      assert s[i..j] == [s[i]] + s[i + 1..j];
      j
    else i
  }

  /**
    End of the longest number that starts at `i`, if one does: an optional
    sign, digits, and a dot only when a digit follows it.
  */
  function NumberEnd(s: string, i: nat): (r: Option<nat>)
    requires i <= |s|
    ensures r.Some? ==> i < r.value <= |s| && IsNumber(s[i..r.value])
  {
    var start := if i < |s| && IsSign(s[i]) then i + 1 else i;
    var a := DigitsEnd(s, start);
    if a + 1 < |s| && s[a] == '.' && IsDigit(s[a + 1]) then
      var e := DigitsEnd(s, a + 1);
      DottedUnsigned(s, start, a, e);
      SignedNumber(s, i, start, e);
      Some(e)
    else if start < a then
      SignedNumber(s, i, start, a);
      Some(a)
    else None
  }

  /** The scanner: the split of `s`, if `s` matches. */
  function Parse(s: string): (r: Option<Split>)
    ensures r.Some? ==> r.value.leftEnd <= r.value.opAt < r.value.rightStart <= r.value.rightEnd <= |s|
  {
    match NumberEnd(s, 0)
    case None => None
    case Some(leftEnd) =>
      var opAt := SpacesEnd(s, leftEnd);
      if opAt == |s| || !IsOperator(s[opAt]) then None
      else
        var rightStart := SpacesEnd(s, opAt + 1);
        var rightEnd := if 0 < |s| && s[|s| - 1] == '\n' then |s| - 1 else |s|;
        match NumberEnd(s, rightStart)
        case None => None
        case Some(e) =>
          if e == rightEnd then Some(Split(leftEnd, opAt, rightStart, rightEnd))
          else None
  }

  /** `check_input`: comma rewrite, anchored match, zero-divisor test. */
  function Check(input: string): Verdict {
    var t := Sanitize(input);
    match Parse(t)
    case None => BadFormat
    case Some(p) =>
      if t[p.opAt] == '/' && IsZeroOperand(t[p.rightStart..p.rightEnd]) then DivisionByZero
      else Accepted
  }

  /**
    The check's verdict in terms of the pattern: the input, with commas
    rewritten, is refused as badly formed exactly when it does not match, and
    refused as a division by zero exactly when its operator is '/' and its
    right operand is zero.
  */
  lemma CheckSpec(input: string)
    ensures Check(input) == BadFormat <==> !Matches(Sanitize(input))
    ensures forall p :: IsSplit(Sanitize(input), p) ==>
      (Check(input) == DivisionByZero <==>
        Sanitize(input)[p.opAt] == '/' && IsZeroOperand(Sanitize(input)[p.rightStart..p.rightEnd]))
  {
    ParseSound(Sanitize(input));
    ParseCompleteAll(Sanitize(input));
  }

  // ---------------------------------------------------------------------------
  // Scanner and specification agree

  lemma DottedUnsigned(s: string, start: nat, a: nat, e: nat)
    requires start <= a && a + 1 < e <= |s|
    requires AllDigits(s[start..a]) && s[a] == '.' && AllDigits(s[a + 1..e])
    ensures IsUnsigned(s[start..e])
  {
    var u := s[start..e];
    forall i | 0 <= i < |u| ensures IsDigit(u[i]) || u[i] == '.' {
      if start + i < a { assert u[i] == s[start..a][i]; }
      else if start + i > a { assert u[i] == s[a + 1..e][start + i - a - 1]; }
    }
    assert forall k :: start <= k < a ==> IsDigit(s[k]) by {
      forall k | start <= k < a ensures IsDigit(s[k]) { assert s[k] == s[start..a][k - start]; }
    }
    assert forall k :: a < k < e ==> IsDigit(s[k]) by {
      forall k | a < k < e ensures IsDigit(s[k]) { assert s[k] == s[a + 1..e][k - a - 1]; }
    }
    forall i, j | 0 <= i < j < |u| && u[i] == '.' ensures u[j] != '.' {
      assert u[i] == s[start + i] && u[j] == s[start + j];
    }
    assert u[|u| - 1] == s[a + 1..e][e - a - 2];
  }

  lemma SignedNumber(s: string, i: nat, start: nat, e: nat)
    requires i <= start <= e <= |s|
    requires start == (if i < |s| && IsSign(s[i]) then i + 1 else i)
    requires IsUnsigned(s[start..e])
    ensures IsNumber(s[i..e])
  {
    if start == i + 1 {
      assert s[i..e][1..] == s[start..e];
    } else {
      assert s[i..e] == s[start..e];
    }
  }

  /** A number starts with a sign, a digit or a dot, and ends with a digit. */
  lemma NumberShape(t: string)
    requires IsNumber(t)
    ensures |t| > 0 && IsDigit(t[|t| - 1])
    ensures IsSign(t[0]) || IsDigit(t[0]) || t[0] == '.'
    ensures IsUnsigned(t) <==> !IsSign(t[0])
  {
    if !IsUnsigned(t) {
      assert t[|t| - 1] == t[1..][|t| - 2];
    }
  }

  lemma {:induction false} DigitsEndAt(s: string, i: nat, j: nat)
    requires i <= j <= |s| && AllDigits(s[i..j])
    requires j == |s| || !IsDigit(s[j])
    ensures DigitsEnd(s, i) == j
    decreases j - i
  {
    if i < j {
      assert s[i] == s[i..j][0];
      assert s[i + 1..j] == s[i..j][1..];
      DigitsEndAt(s, i + 1, j);
    }
  }

  lemma {:induction false} SpacesEndAt(s: string, i: nat, j: nat)
    requires i <= j <= |s| && AllSpace(s[i..j])
    requires j == |s| || !IsSpace(s[j])
    ensures SpacesEnd(s, i) == j
    decreases j - i
  {
    if i < j {
      assert s[i] == s[i..j][0];
      assert s[i + 1..j] == s[i..j][1..];
      SpacesEndAt(s, i + 1, j);
    }
  }

  /**
    An unsigned number at start..e, followed by neither a digit nor a dot, is
    what the scanner's digit and dot steps find.
  */
  lemma UnsignedEnd(s: string, start: nat, e: nat)
    requires start <= e <= |s| && IsUnsigned(s[start..e])
    requires e == |s| || (!IsDigit(s[e]) && s[e] != '.')
    ensures var a := DigitsEnd(s, start);
      if a + 1 < |s| && s[a] == '.' && IsDigit(s[a + 1]) then DigitsEnd(s, a + 1) == e
      else start < a && a == e
  {
    var u := s[start..e];
    var a := DigitsEnd(s, start);
    if a < e {
      assert u[a - start] == '.';
      assert a != e - 1;
      assert u[a + 1 - start] == s[a + 1];
      forall k | a + 1 <= k < e ensures IsDigit(s[k]) {
        assert s[k] == u[k - start];
      }
      DigitsEndAt(s, a + 1, e);
    } else {
      forall k | 0 <= k < e - start ensures IsDigit(s[start..e][k]) {
        assert s[start..e][k] == s[start..a][k];
      }
      DigitsEndAt(s, start, e);
    }
  }

  /** A number at i..e, followed by neither a digit nor a dot, is what `NumberEnd` finds. */
  lemma NumberEndAt(s: string, i: nat, e: nat)
    requires i <= e <= |s| && IsNumber(s[i..e])
    requires e == |s| || (!IsDigit(s[e]) && s[e] != '.')
    ensures NumberEnd(s, i) == Some(e)
  {
    hide IsUnsigned, AllDigits, DigitsEnd, NumberEnd;
    var t := s[i..e];
    NumberShape(t);
    assert t[0] == s[i];
    if IsSign(s[i]) {
      assert t[1..] == s[i + 1..e];
      UnsignedEnd(s, i + 1, e);
      NumberEndFrom(s, i, i + 1, e);
    } else {
      UnsignedEnd(s, i, e);
      NumberEndFrom(s, i, i, e);
    }
  }

  /** `NumberEnd` in terms of where its digit and dot steps end. */
  lemma NumberEndFrom(s: string, i: nat, start: nat, e: nat)
    requires i < |s| && start == (if IsSign(s[i]) then i + 1 else i) && start <= |s|
    requires var a := DigitsEnd(s, start);
      if a + 1 < |s| && s[a] == '.' && IsDigit(s[a + 1]) then DigitsEnd(s, a + 1) == e
      else start < a && a == e
    ensures NumberEnd(s, i) == Some(e)
  {
  }

  /** The scanner finds the left operand and the operator of a split. */
  lemma LeftFound(s: string, p: Split)
    requires IsSplit(s, p)
    ensures NumberEnd(s, 0) == Some(p.leftEnd)
    ensures SpacesEnd(s, p.leftEnd) == p.opAt
  {
    var left := s[..p.leftEnd];
    NumberShape(left);
    assert left == s[0..p.leftEnd];
    if p.leftEnd < p.opAt {
      assert s[p.leftEnd] == s[p.leftEnd..p.opAt][0];
    }
    NumberEndAt(s, 0, p.leftEnd);
    SpacesEndAt(s, p.leftEnd, p.opAt);
  }

  /** The scanner finds the right operand of a split. */
  lemma RightFound(s: string, p: Split)
    requires IsSplit(s, p)
    ensures SpacesEnd(s, p.opAt + 1) == p.rightStart
    ensures NumberEnd(s, p.rightStart) == Some(p.rightEnd)
  {
    var right := s[p.rightStart..p.rightEnd];
    NumberShape(right);
    assert SpacesEnd(s, p.opAt + 1) == p.rightStart by {
      assert s[p.rightStart] == right[0];
      SpacesEndAt(s, p.opAt + 1, p.rightStart);
    }
    if p.rightEnd < |s| {
      assert s[p.rightEnd] == '\n';
    }
    NumberEndAt(s, p.rightStart, p.rightEnd);
  }

  /** A match ends just before a final line feed, if there is one, and at the end of the text otherwise. */
  lemma MatchEnd(s: string, p: Split)
    requires IsSplit(s, p)
    ensures p.rightEnd == if 0 < |s| && s[|s| - 1] == '\n' then |s| - 1 else |s|
  {
    if p.rightEnd == |s| {
      var right := s[p.rightStart..p.rightEnd];
      NumberShape(right);
      assert s[|s| - 1] == right[|right| - 1];
    }
  }

  /** Every split of `s` is the one the scanner finds; hence a split is unique. */
  lemma ParseComplete(s: string, p: Split)
    requires IsSplit(s, p)
    ensures Parse(s) == Some(p)
  {
    LeftFound(s, p);
    RightFound(s, p);
    MatchEnd(s, p);
    ParseFrom(s, p);
  }

  /** `Parse` in terms of where each of its steps ends. */
  lemma ParseFrom(s: string, p: Split)
    requires NumberEnd(s, 0) == Some(p.leftEnd) && SpacesEnd(s, p.leftEnd) == p.opAt
    requires p.opAt < |s| && IsOperator(s[p.opAt])
    requires SpacesEnd(s, p.opAt + 1) == p.rightStart && NumberEnd(s, p.rightStart) == Some(p.rightEnd)
    requires p.rightEnd == if 0 < |s| && s[|s| - 1] == '\n' then |s| - 1 else |s|
    ensures Parse(s) == Some(p)
  {
    // Only the results of the scanner's steps matter here, not how they are found.
    hide NumberEnd, SpacesEnd, IsNumber, AllSpace;
    var q := Split(p.leftEnd, p.opAt, p.rightStart, p.rightEnd);
    assert q == p;
    assert Parse(s) == Some(q);
  }

  lemma ParseCompleteAll(s: string)
    ensures forall p :: IsSplit(s, p) ==> Parse(s) == Some(p)
  {
    forall p | IsSplit(s, p) ensures Parse(s) == Some(p) {
      ParseComplete(s, p);
    }
  }

  /** A split the scanner returns is a split of the whole text by the pattern. */
  lemma ParseSound(s: string)
    ensures Parse(s).Some? ==> IsSplit(s, Parse(s).value)
  {
    match NumberEnd(s, 0)
    case None =>
    case Some(leftEnd) =>
      assert s[..leftEnd] == s[0..leftEnd];
  }

  /** The scanner accepts exactly the language of the pattern. */
  lemma ParseDecides(s: string)
    ensures Parse(s).Some? <==> Matches(s)
  {
    ParseSound(s);
    ParseCompleteAll(s);
  }

  /**
    The captured operator and right operand are well defined: two splits of
    the same text are the same split.
  */
  lemma SplitUnique(s: string, p: Split, q: Split)
    requires IsSplit(s, p) && IsSplit(s, q)
    ensures p == q
  {
    ParseComplete(s, p);
    ParseComplete(s, q);
  }

  // ---------------------------------------------------------------------------
  // Properties of the check

  /** An input and its comma-to-dot rewrite always get the same verdict. */
  lemma CommaInvariant(input: string)
    ensures Check(Sanitize(input)) == Check(input)
  {
    assert Sanitize(Sanitize(input)) == Sanitize(input);
  }

  /** What every split says about single characters of the text. */
  lemma SplitFacts(s: string, p: Split)
    requires IsSplit(s, p)
    ensures 0 < p.leftEnd && IsDigit(s[p.leftEnd - 1])
    ensures IsSign(s[0]) || IsDigit(s[0]) || s[0] == '.'
    ensures forall k :: 0 < k < p.leftEnd ==> IsDigit(s[k]) || s[k] == '.'
    ensures forall k :: p.leftEnd <= k < p.opAt ==> IsSpace(s[k])
    ensures IsOperator(s[p.opAt])
    ensures p.rightStart < p.rightEnd && IsDigit(s[p.rightEnd - 1])
  {
    forall k | p.leftEnd <= k < p.opAt ensures IsSpace(s[k]) {
      assert s[k] == s[p.leftEnd..p.opAt][k - p.leftEnd];
    }
    var left := s[..p.leftEnd];
    NumberShape(left);
    NumberShape(s[p.rightStart..p.rightEnd]);
    forall k | 0 < k < p.leftEnd ensures IsDigit(s[k]) || s[k] == '.' {
      if IsSign(left[0]) {
        assert s[k] == left[1..][k - 1];
      } else {
        assert s[k] == left[k];
      }
    }
  }

  /**
    Every text of the form number, white space, operator, white space, number
    matches, with exactly these parts.
  */
  lemma PartsMatch(a: string, w1: string, o: char, w2: string, b: string)
    requires IsNumber(a) && AllSpace(w1) && IsOperator(o) && AllSpace(w2) && IsNumber(b)
    ensures var s := a + w1 + [o] + w2 + b;
      IsSplit(s, Split(|a|, |a| + |w1|, |a| + |w1| + 1 + |w2|, |s|))
  {
    var s := a + w1 + [o] + w2 + b;
    var opAt := |a| + |w1|;
    var rightStart := opAt + 1 + |w2|;
    assert s[..|a|] == a;
    assert s[|a|..opAt] == w1;
    assert s[opAt] == o;
    assert s[opAt + 1..rightStart] == w2;
    assert s[rightStart..|s|] == b;
  }

  /**
    A well-formed `<number> <op> <number>` is accepted, unless the operator is
    '/' and the right operand is zero, which is refused as a division by zero.
  */
  lemma WellFormedVerdict(a: string, w1: string, o: char, w2: string, b: string)
    requires IsNumber(a) && AllSpace(w1) && IsOperator(o) && AllSpace(w2) && IsNumber(b)
    ensures Check(a + w1 + [o] + w2 + b) ==
      if o == '/' && IsZeroOperand(b) then DivisionByZero else Accepted
  {
    // Only the lemmas' conclusions are needed, not the definitions behind them.
    hide *;
    var s := a + w1 + [o] + w2 + b;
    var p := Split(|a|, |a| + |w1|, |a| + |w1| + 1 + |w2|, |s|);
    PartsMatch(a, w1, o, w2, b);
    SplitVerdict(s, p);
    assert s[p.opAt] == o;
    assert s[p.rightStart..p.rightEnd] == b;
  }

  /** The verdict on a text that matches with a given split. */
  lemma SplitVerdict(s: string, p: Split)
    requires IsSplit(s, p)
    ensures Check(s) == if s[p.opAt] == '/' && IsZeroOperand(s[p.rightStart..p.rightEnd]) then DivisionByZero else Accepted
  {
    NoCommaInMatch(s, p);
    assert Sanitize(s) == s;
    ParseComplete(s, p);
  }

  /** A matching text holds no comma, so the rewrite leaves it as it is. */
  lemma NoCommaInMatch(s: string, p: Split)
    requires IsSplit(s, p)
    ensures forall k :: 0 <= k < |s| ==> s[k] != ','
  {
    SplitFacts(s, p);
    var right := s[p.rightStart..p.rightEnd];
    NumberShape(right);
    forall k | 0 <= k < |s| ensures s[k] != ',' {
      if p.opAt < k < p.rightStart {
        assert s[k] == s[p.opAt + 1..p.rightStart][k - p.opAt - 1];
      } else if p.rightStart < k < p.rightEnd {
        if IsSign(right[0]) {
          assert s[k] == right[1..][k - p.rightStart - 1];
        } else {
          assert s[k] == right[k - p.rightStart];
        }
      }
    }
  }

  /** Where any split of `s` must begin and end, stated as an implication. */
  lemma SplitEnds(s: string, p: Split)
    ensures IsSplit(s, p) ==>
      && |s| > 0
      && (IsSign(s[0]) || IsDigit(s[0]) || s[0] == '.')
      && (IsDigit(s[|s| - 1]) || (|s| >= 2 && s[|s| - 1] == '\n' && IsDigit(s[|s| - 2])))
  {
    if IsSplit(s, p) {
      SplitFacts(s, p);
      MatchEnd(s, p);
    }
  }

  /** Nothing may precede the left operand: a text that starts with no sign, digit or dot is refused. */
  lemma RejectedUnlessNumberFirst(s: string)
    requires |s| == 0 || !(IsSign(s[0]) || IsDigit(s[0]) || s[0] == '.')
    ensures !Matches(s)
  {
    forall p ensures !IsSplit(s, p) {
      SplitEnds(s, p);
    }
  }

  /**
    Nothing but one final line feed may follow the right operand, which ends
    with a digit: a text whose last character, after at most one final line
    feed, is no digit is refused.
  */
  lemma RejectedUnlessDigitLast(s: string)
    requires |s| == 0 || (!IsDigit(s[|s| - 1]) && (s[|s| - 1] != '\n' || |s| < 2 || !IsDigit(s[|s| - 2])))
    ensures !Matches(s)
  {
    forall p ensures !IsSplit(s, p) {
      SplitEnds(s, p);
    }
  }

  /** `5.`, `1+`, `abc`, ` 1+2` and `1+2 ` are refused. */
  lemma RejectedExamples()
    ensures !Matches("5.") && !Matches("1+") && !Matches("abc")
    ensures !Matches(" 1+2") && !Matches("1+2 ")
  {
    RejectedUnlessDigitLast("5.");
    RejectedUnlessDigitLast("1+");
    RejectedUnlessDigitLast("abc");
    RejectedUnlessNumberFirst(" 1+2");
    RejectedUnlessDigitLast("1+2 ");
  }

  /** A dot must be followed by a digit: `5.+1` is refused. */
  lemma RejectedDotBeforeOperator()
    ensures !Matches("5.+1")
  {
    hide IsSplit, IsNumber, IsUnsigned, AllSpace;
    ParseDecides("5.+1");
  }

  /** Two numbers without an operator are refused. */
  lemma RejectedMissingOperator()
    ensures !Matches("1 2")
  {
    hide IsSplit, IsNumber, IsUnsigned, AllSpace;
    ParseDecides("1 2");
  }

  /**
    Zero divisors in any spelling are zero operands (so `WellFormedVerdict`
    refuses `4/0`, `4 / -0.0`, `4/.0`); `0.5` is not.
  */
  lemma ZeroOperandExamples()
    ensures IsNumber("0") && IsZeroOperand("0")
    ensures IsNumber("-0.0") && IsZeroOperand("-0.0")
    ensures IsNumber(".0") && IsZeroOperand(".0")
    ensures IsNumber("0.5") && !IsZeroOperand("0.5")
  {
    assert "-0.0"[1..] == "0.0";
    assert "0.5"[2] == '5';
  }

  /** Operands and operator without white space are accepted. */
  lemma AcceptedPlain()
    ensures Matches("4+5")
  {
    var s := "4+5";
    assert s[..1] == "4" && s[1..1] == [] && s[2..2] == [] && s[2..3] == "5";
    assert IsSplit(s, Split(1, 1, 2, 3));
  }

  /** Signs, a decimal point and white space around the operator are accepted. */
  lemma AcceptedSigned()
    ensures Matches("-1.5 * +2")
  {
    var s := "-1.5 * +2";
    assert s[..4] == "-1.5" && s[..4][1..] == "1.5";
    assert s[4..5] == " " && s[6..7] == " ";
    assert s[7..9] == "+2" && s[7..9][1..] == "2";
    assert IsSplit(s, Split(4, 5, 7, 9));
  }

  /** One line feed after the right operand is accepted, as `$` allows. */
  lemma AcceptedTrailingNewline()
    ensures Matches("7-3\n")
  {
    var s := "7-3\n";
    assert s[..1] == "7" && s[1..1] == [] && s[2..2] == [] && s[2..3] == "3";
    assert IsSplit(s, Split(1, 1, 2, 3));
  }

  /** A decimal comma is read as a point: by `CommaInvariant`, `1,5+2,5` gets the verdict of `1.5+2.5`. */
  lemma DecimalCommaExample()
    ensures Sanitize("1,5+2,5") == "1.5+2.5"
  {
  }

  /** `4 / -0.0` is refused as a division by zero. */
  lemma DivisionByZeroVerdict()
    ensures Check("4 / -0.0") == DivisionByZero
  {
    hide Check;
    ZeroOperandExamples();
    assert IsNumber("4");
    assert AllSpace(" ");
    assert "4" + " " + ['/'] + " " + "-0.0" == "4 / -0.0";
    WellFormedVerdict("4", " ", '/', " ", "-0.0");
  }

  /** `4/0.5` is accepted. */
  lemma DivisionAcceptedVerdict()
    ensures Check("4/0.5") == Accepted
  {
    hide Check;
    ZeroOperandExamples();
    assert IsNumber("4");
    assert "4" + [] + ['/'] + [] + "0.5" == "4/0.5";
    WellFormedVerdict("4", [], '/', [], "0.5");
  }

  /** `5.` is refused as badly formed. */
  lemma BadFormatVerdict()
    ensures Check("5.") == BadFormat
  {
    assert Sanitize("5.") == "5.";
    RejectedUnlessDigitLast("5.");
    CheckSpec("5.");
  }
}
