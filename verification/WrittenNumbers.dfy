/**
 * The numbers of the manifest reader (scripting/gameplay/src/gameplay_manifest.cpp): every way
 * of writing one, and what it denotes.
 */
module WrittenNumbers {
  import opened Decimals
  import opened Json

  /** Sign, digits, point and digits, then the letter e, a sign and digits; each part may be missing. */
  datatype Written = Written(sign: string, whole: string, point: string, fraction: string,
    letter: string, turn: string, exponent: string)

  predicate IsSign(s: string) {
    s == "" || s == "-" || s == "+"
  }

  predicate WrittenOk(n: Written) {
    && IsSign(n.sign) && IsSign(n.turn) && AllDigits(n.whole) && AllDigits(n.fraction) && AllDigits(n.exponent)
    && (n.whole != "" || n.fraction != "")
    && (n.point == "." || (n.point == "" && n.fraction == ""))
    && (n.letter == "e" || n.letter == "E" || (n.letter == "" && n.turn == "" && n.exponent == ""))
  }

  function Text(n: Written): string {
    n.sign + n.whole + n.point + n.fraction + n.letter + n.turn + n.exponent
  }

  /** The digits before and behind the point. */
  function SizeOf(whole: string, fraction: string): real
    requires AllDigits(whole) && AllDigits(fraction)
  {
    DigitsValue(whole) as real + DigitsValue(fraction) as real / Pow10(|fraction|)
  }

  /** Times a power of ten, or through it. */
  function Scaled(size: real, turn: string, exponent: string): real
    requires AllDigits(exponent)
  {
    if turn == "-" then size / Pow10(DigitsValue(exponent)) else size * Pow10(DigitsValue(exponent))
  }

  /** The number it denotes. */
  function Denoted(n: Written): real
    requires WrittenOk(n)
  {
    var size := Scaled(SizeOf(n.whole, n.fraction), n.turn, n.exponent);
    if n.sign == "-" then -size else size
  }

  lemma NoFraction(whole: string)
    requires AllDigits(whole)
    ensures SizeOf(whole, "") == DigitsValue(whole) as real
  {
  }

  lemma NoExponent(size: real, turn: string)
    ensures Scaled(size, turn, "") == size
  {
    assert Pow10(0) == 1.0 && DigitsValue([]) == 0;
  }

  /** A run of digits somewhere in a text. */
  lemma RunEnds(before: string, run: string, after: string, t: string)
    requires t == before + run + after && AllDigits(run) && (|after| > 0 ==> !IsDigit(after[0]))
    ensures |t| == |before| + |run| + |after| && DigitsEnd(t, |before|) == |before| + |run|
    ensures t[|before|..|before| + |run|] == run && t[|before| + |run|..] == after
    ensures |after| > 0 ==> t[|before| + |run|] == after[0]
  {
    hide DigitsEnd;
    assert t[|before|..|before| + |run|] == run;
    assert |after| > 0 ==> t[|before| + |run|] == after[0];
    DigitsEndIs(t, |before|, |before| + |run|);
  }

  /** Sign and whole part, with what follows. */
  lemma WholeIs(sign: string, whole: string, after: string, t: string)
    requires IsSign(sign) && AllDigits(whole) && t == sign + whole + after
    requires |after| > 0 ==> !IsDigit(after[0])
    requires whole == "" ==> |after| > 0 && after[0] == '.'
    ensures SignEnd(t, 0) == |sign| && WholeEnd(t) == |sign| + |whole| && t[|sign|..|sign| + |whole|] == whole
    ensures sign != "" ==> t[0] == sign[0]
    ensures sign == "" ==> IsDigit(t[0]) || t[0] == '.'
  {
    hide DigitsEnd;
    RunEnds(sign, whole, after, t);
    if sign == "" && whole != "" {
      assert t[0] == whole[0];
    }
    assert SignEnd(t, 0) == |sign|;
  }

  /** The point and the digits behind it, or none. */
  lemma FractionIs(front: string, point: string, fraction: string, after: string, t: string)
    requires point == "." || (point == "" && fraction == "")
    requires AllDigits(fraction) && WholeEnd(t) == |front| && t == front + point + fraction + after
    requires |after| > 0 ==> !IsDigit(after[0]) && after[0] != '.'
    ensures FractionFrom(t) == |front| + |point| && FractionEnd(t) == |front| + |point| + |fraction|
    ensures t[FractionFrom(t)..FractionEnd(t)] == fraction && t[FractionEnd(t)..] == after
  {
    hide DigitsEnd, WholeEnd;
    RunEnds(front + point, fraction, after, t);
    if point == "." {
      assert t[|front|] == '.';
    } else {
      assert t == front + after;
      assert |after| > 0 ==> t[|front|] == after[0];
    }
  }

  /** The exponent, or none. */
  lemma ExponentIs(front: string, letter: string, turn: string, exponent: string, after: string, t: string)
    requires letter == "e" || letter == "E" || (letter == "" && turn == "" && exponent == "")
    requires IsSign(turn) && AllDigits(exponent) && FractionEnd(t) == |front|
    requires t == front + letter + turn + exponent + after && (|after| > 0 ==> !Continues(after[0]))
    ensures ExponentFrom(t) == |front| + |letter| + |turn| && NumberEnd(t) == ExponentFrom(t) + |exponent|
    ensures t[ExponentFrom(t)..NumberEnd(t)] == exponent && t[NumberEnd(t)..] == after
    ensures ExponentFrom(t) > 0 ==> (t[ExponentFrom(t) - 1] == '-' && ExponentFrom(t) > |front| <==> turn == "-")
  {
    hide DigitsEnd, FractionEnd;
    RunEnds(front + letter + turn, exponent, after, t);
    if letter == "" {
      assert t == front + after;
      assert |after| > 0 ==> t[|front|] == after[0];
    } else {
      assert t[|front|] == letter[0];
      assert turn != "" ==> t[|front| + 1] == turn[0];
      if turn == "" && |t| > |front| + 1 {
        assert t[|front| + 1] == (exponent + after)[0];
      }
    }
  }

  lemma Grouped(n: Written, tail: string, t: string)
    requires t == Text(n) + tail
    ensures t == n.sign + n.whole + (n.point + n.fraction + n.letter + n.turn + n.exponent + tail)
    ensures t == (n.sign + n.whole) + n.point + n.fraction + (n.letter + n.turn + n.exponent + tail)
    ensures t == (n.sign + n.whole + n.point + n.fraction) + n.letter + n.turn + n.exponent + tail
  {
  }

  /** What follows the whole part, and what follows the fraction. */
  lemma Followed(n: Written, tail: string)
    requires WrittenOk(n) && (|tail| > 0 ==> !Continues(tail[0]))
    ensures var after := n.point + n.fraction + n.letter + n.turn + n.exponent + tail;
            (|after| > 0 ==> !IsDigit(after[0])) && (n.whole == "" ==> |after| > 0 && after[0] == '.')
    ensures var after := n.letter + n.turn + n.exponent + tail; |after| > 0 ==> !IsDigit(after[0]) && after[0] != '.'
  {
  }

  /** Where the reader finds the parts. */
  lemma PartsStand(n: Written, tail: string, t: string)
    requires WrittenOk(n) && (|tail| > 0 ==> !Continues(tail[0])) && t == Text(n) + tail
    ensures SignEnd(t, 0) == |n.sign| && WholeEnd(t) == |n.sign| + |n.whole| && |t| > 0
    ensures if n.sign == "" then IsDigit(t[0]) || t[0] == '.' else t[0] == n.sign[0]
    ensures t[SignEnd(t, 0)..WholeEnd(t)] == n.whole && t[FractionFrom(t)..FractionEnd(t)] == n.fraction
    ensures FractionEnd(t) == FractionFrom(t) + |n.fraction| && NumberEnd(t) == ExponentFrom(t) + |n.exponent|
    ensures t[ExponentFrom(t)..NumberEnd(t)] == n.exponent && t[NumberEnd(t)..] == tail
    ensures n.exponent != "" ==> ExponentFrom(t) > 0 && (t[ExponentFrom(t) - 1] == '-' <==> n.turn == "-")
  {
    hide SignEnd, WholeEnd, FractionFrom, FractionEnd, ExponentFrom, NumberEnd, AllDigits, Continues, IsDigit;
    Grouped(n, tail, t);
    Followed(n, tail);
    WholeIs(n.sign, n.whole, n.point + n.fraction + n.letter + n.turn + n.exponent + tail, t);
    FractionIs(n.sign + n.whole, n.point, n.fraction, n.letter + n.turn + n.exponent + tail, t);
    ExponentIs(n.sign + n.whole + n.point + n.fraction, n.letter, n.turn, n.exponent, tail, t);
  }

  /** The value that the reader finds, by the parts. */
  lemma ReadAs(t: string, whole: string, fraction: string, turn: string, exponent: string)
    requires AllDigits(whole) && AllDigits(fraction) && AllDigits(exponent)
    requires t[SignEnd(t, 0)..WholeEnd(t)] == whole && t[FractionFrom(t)..FractionEnd(t)] == fraction
    requires FractionEnd(t) == FractionFrom(t) + |fraction| && NumberEnd(t) == ExponentFrom(t) + |exponent|
    requires t[ExponentFrom(t)..NumberEnd(t)] == exponent
    requires exponent != "" ==> ExponentFrom(t) > 0 && (t[ExponentFrom(t) - 1] == '-' <==> turn == "-")
    ensures var size := Scaled(SizeOf(whole, fraction), turn, exponent);
            NumberValue(t) == if SignEnd(t, 0) > 0 && t[0] == '-' then -size else size
  {
    hide SignEnd, WholeEnd, FractionFrom, FractionEnd, ExponentFrom, NumberEnd, AllDigits, DigitsValue, Pow10;
    NoFraction(whole);
    NoExponent(SizeOf(whole, fraction), turn);
    assert |exponent| == 0 <==> exponent == "";
    assert |fraction| == 0 <==> fraction == "";
  }

  lemma ValueIs(n: Written, t: string)
    requires WrittenOk(n) && |t| > 0 && SignEnd(t, 0) == |n.sign| && WholeEnd(t) == |n.sign| + |n.whole|
    requires n.sign != "" ==> t[0] == n.sign[0]
    requires t[SignEnd(t, 0)..WholeEnd(t)] == n.whole && t[FractionFrom(t)..FractionEnd(t)] == n.fraction
    requires FractionEnd(t) == FractionFrom(t) + |n.fraction| && NumberEnd(t) == ExponentFrom(t) + |n.exponent|
    requires t[ExponentFrom(t)..NumberEnd(t)] == n.exponent
    requires n.exponent != "" ==> ExponentFrom(t) > 0 && (t[ExponentFrom(t) - 1] == '-' <==> n.turn == "-")
    ensures HasDigits(t) && NumberValue(t) == Denoted(n)
  {
    hide SignEnd, WholeEnd, FractionFrom, FractionEnd, ExponentFrom, NumberEnd, NumberValue, AllDigits, Scaled, SizeOf;
    ReadAs(t, n.whole, n.fraction, n.turn, n.exponent);
  }

  lemma SignsAre(n: Written)
    requires WrittenOk(n)
    ensures n.sign != "" ==> n.sign[0] == '-' || n.sign[0] == '+'
  {
  }

  lemma BeginsNumber(c: char)
    requires IsDigit(c) || c == '.' || c == '-' || c == '+'
    ensures !IsBlank(c) && !IsPunctuation(c) && c != '"' && c != 't' && c != 'f' && c != 'n'
  {
  }

  /** However a number is written, it is read as what it denotes. */
  lemma NumberIsRead(n: Written, tail: string)
    requires WrittenOk(n) && (|tail| > 0 ==> !Continues(tail[0]))
    ensures Tokens(Text(n) + tail) == [Numeral(Denoted(n))] + Tokens(tail)
  {
    hide Tokens, SignEnd, WholeEnd, FractionFrom, FractionEnd, ExponentFrom, NumberEnd, HasDigits, NumberValue, Text;
    hide Denoted, AllDigits, WrittenOk, IsDigit, IsBlank, IsPunctuation, Continues;
    var t := Text(n) + tail;
    PartsStand(n, tail, t);
    ValueIs(n, t);
    SignsAre(n);
    BeginsNumber(t[0]);
    NumberToken(t);
  }

  /** Nothing else is read as a number. */
  lemma EveryNumberIsWritten(s: string)
    requires HasDigits(s)
    ensures exists n :: WrittenOk(n) && Text(n) == s[..NumberEnd(s)] && Denoted(n) == NumberValue(s)
  {
    hide DigitsEnd, NumberValue, Denoted;
    var a, w, f, g, x, e := SignEnd(s, 0), WholeEnd(s), FractionFrom(s), FractionEnd(s), ExponentFrom(s), NumberEnd(s);
    var n := Cut(s, a, w, f, g, x, e);
    PartsFit(s);
    Joined(s, a, w, f, g, x, e);
    ValueIs(n, s);
  }

  /** The parts between these places. */
  function Cut(s: string, a: nat, w: nat, f: nat, g: nat, x: nat, e: nat): Written
    requires a <= w <= f <= g <= x <= e <= |s|
  {
    var letter := if x > g then g + 1 else g;
    Written(s[..a], s[a..w], s[w..f], s[f..g], s[g..letter], s[letter..x], s[x..e])
  }

  lemma Joined(s: string, a: nat, w: nat, f: nat, g: nat, x: nat, e: nat)
    requires a <= w <= f <= g <= x <= e <= |s|
    ensures Text(Cut(s, a, w, f, g, x, e)) == s[..e]
  {
    var letter := if x > g then g + 1 else g;
    assert s[..a] + s[a..w] == s[..w];
    assert s[..w] + s[w..f] == s[..f];
    assert s[..f] + s[f..g] == s[..g];
    assert s[..g] + s[g..letter] == s[..letter];
    assert s[..letter] + s[letter..x] == s[..x];
    assert s[..x] + s[x..e] == s[..e];
  }

  lemma PartsFit(s: string)
    requires HasDigits(s)
    ensures WrittenOk(Cut(s, SignEnd(s, 0), WholeEnd(s), FractionFrom(s), FractionEnd(s), ExponentFrom(s),
                          NumberEnd(s)))
  {
    hide DigitsEnd;
  }
}
