/** The exact decimal normal form of stored JSON numbers (`_canonical_number`). */
module CanonicalNumber {
  import opened Digits

  /** What `Decimal.as_tuple` reports: no redundant leading zeros among the digits. */
  datatype Decimal = Decimal(negative: bool, digits: string, exponent: int) {
    predicate Valid() {
      Plain(digits)
    }
  }

  datatype Sign = Unsigned | Plus | Minus

  datatype Exponent = NoExponent | Exponent(upper: bool, sign: Sign, magnitude: string)

  /** A JSON number literal, field by field: the grammar the JSON scanner accepts. */
  datatype Literal = Literal(negative: bool, whole: string, point: bool, fraction: string, exponent: Exponent) {
    predicate Valid() {
      && Plain(whole)
      && AllDigits(fraction) && (point <==> fraction != "")
      && (exponent.Exponent? ==> exponent.magnitude != "" && AllDigits(exponent.magnitude))
    }

    /** The literal as it stands in the stored document. */
    function Text(): string {
      MantissaText()
      + (match exponent
         case NoExponent => ""
         case Exponent(upper, _, _) => (if upper then "E" else "e") + ExponentText())
    }

    function MantissaText(): string {
      (if negative then "-" else "") + whole + (if point then "." + fraction else "")
    }

    function ExponentText(): string {
      match exponent
      case NoExponent => ""
      case Exponent(_, sign, magnitude) =>
        (match sign case Unsigned => "" case Plus => "+" case Minus => "-") + magnitude
    }

    function ExponentValue(): int
      requires Valid()
    {
      match exponent
      case NoExponent => 0
      case Exponent(_, sign, magnitude) => Signed(sign.Minus?, ValueOf(magnitude))
    }
  }

  /** The three shapes a stored number can have. A finite float is known by the decimal its `repr` spells. */
  datatype Number =
    | Integer(value: int)
    | Float(repr: Decimal)
    | Unrepresentable(literal: Literal)
  {
    predicate Valid() {
      match this
      case Integer(_) => true
      case Float(repr) => repr.Valid()
      case Unrepresentable(literal) => literal.Valid()
    }

    /** The number is Coefficient() * 10^Scale(), read off its own shape and not off the canonical text. */
    function Coefficient(): int
      requires Valid()
    {
      match this
      case Integer(value) => value
      case Float(repr) => Signed(repr.negative, ValueOf(repr.digits))
      case Unrepresentable(literal) =>
        Signed(literal.negative, Shift(ValueOf(literal.whole), |literal.fraction|) + ValueOf(literal.fraction))
    }

    function Scale(): int
      requires Valid()
    {
      match this
      case Integer(_) => 0
      case Float(repr) => repr.exponent
      case Unrepresentable(literal) => literal.ExponentValue() - |literal.fraction|
    }
  }

  function Signed(negative: bool, magnitude: nat): int {
    if negative then 0 - magnitude else magnitude
  }

  /** m * 10^e == n * 10^f, cross-multiplied so that both sides are integers. */
  predicate SameDecimal(m: int, e: int, n: int, f: int) {
    if e >= f then Shift(m, e - f) == n else m == Shift(n, f - e)
  }

  predicate SameValue(x: Number, y: Number)
    requires x.Valid() && y.Valid()
  {
    SameDecimal(x.Coefficient(), x.Scale(), y.Coefficient(), y.Scale())
  }

  // ---- the text processing of the source ----

  function LowerChar(c: char): char {
    if 'A' <= c <= 'Z' then 'a' + (c as int - 'A' as int) as char else c
  }

  function Lower(s: string): (r: string)
    ensures |r| == |s| && forall i :: 0 <= i < |s| ==> r[i] == LowerChar(s[i])
  {
    if s == "" then "" else [LowerChar(s[0])] + Lower(s[1..])
  }

  /** `s.partition(c)` without the separator: the text before the first c and the text after it. */
  function Partition(s: string, c: char): (string, string) {
    if s == "" then ("", "")
    else if s[0] == c then ("", s[1..])
    else var (before, after) := Partition(s[1..], c); ([s[0]] + before, after)
  }

  /** The integer `Decimal` reads from an exponent literal such as "+05" or "-3"; "" counts as "0". */
  function ExponentLiteralValue(s: string): int
    requires s == "" || AllDigits(s) || (s[0] in "+-" && AllDigits(s[1..]))
  {
    if s == "" then 0
    else if s[0] == '-' then Signed(true, ValueOf(s[1..]))
    else if s[0] == '+' then ValueOf(s[1..])
    else ValueOf(s)
  }

  predicate IsMantissa(s: string) {
    var unsigned := if s != "" && s[0] == '-' then s[1..] else s;
    var (whole, fraction) := Partition(unsigned, '.');
    AllDigits(whole) && AllDigits(fraction)
  }

  /** `Decimal(mantissa)`: the point moves into the exponent and leading zeros are dropped. */
  function DecimalOf(s: string): (d: Decimal)
    requires IsMantissa(s)
    ensures d.Valid()
  {
    var negative := s != "" && s[0] == '-';
    var unsigned := if negative then s[1..] else s;
    var (whole, fraction) := Partition(unsigned, '.');
    ValueConcat(whole, fraction);
    TextIsPlain(ValueOf(whole + fraction));
    Decimal(negative, Digits.Text(ValueOf(whole + fraction)), -|fraction|)
  }

  // ---- decimal context arithmetic ----

  /** The number without its last k digits. */
  function DropDigits(n: nat, k: nat): nat {
    if k == 0 then n else DropDigits(n / 10, k - 1)
  }

  /** Round a non-negative integer half-even to `precision` significant digits. */
  function RoundMagnitude(n: nat, precision: nat): int
    requires precision >= 1
  {
    var length := |Digits.Text(n)|;
    if length <= precision then n
    else
      var dropped := length - precision;
      var kept := DropDigits(n, dropped);
      var rest, unit := n - Shift(kept, dropped), Shift(1, dropped);
      Shift(if 2 * rest > unit || (2 * rest == unit && kept % 2 == 1) then kept + 1 else kept, dropped)
  }

  /** `a + b` under a context that keeps `precision` significant digits. */
  function ContextAdd(precision: nat, a: int, b: int): int
    requires precision >= 1
  {
    var sum := a + b;
    if sum < 0 then -RoundMagnitude(-sum, precision) else RoundMagnitude(sum, precision)
  }

  function Max(a: nat, b: nat): nat {
    if a >= b then a else b
  }

  predicate IsExponentLiteral(s: string) {
    s == "" || AllDigits(s) || (s[0] in "+-" && AllDigits(s[1..]))
  }

  /** The second half of `_canonical_number`, from the decimal and the exponent literal to the text. */
  function Finish(number: Decimal, exponentLiteral: string): string
    requires number.Valid() && IsExponentLiteral(exponentLiteral)
  {
    var digits := StripZeros(number.digits);
    if digits == "" then "0"
    else
      var offset := number.exponent + |number.digits| - |digits|;
      var precision := Max(|exponentLiteral|, |IntText(offset)|) + 1;
      var exponent := ContextAdd(precision, ExponentLiteralValue(exponentLiteral), offset);
      (if number.negative then "-" else "") + digits + "e" + IntText(exponent)
  }

  function NumberText(x: Number): string
    requires x.Valid()
  {
    match x
    case Integer(value) =>
      TextIsPlain(if value < 0 then -value else value);
      Finish(Decimal(value < 0, Digits.Text(if value < 0 then -value else value), 0), "0")
    case Float(repr) => Finish(repr, "0")
    case Unrepresentable(literal) =>
      PartitionLiteral(literal);
      var (mantissa, exponentLiteral) := Partition(Lower(literal.Text()), 'e');
      Finish(DecimalOf(mantissa), exponentLiteral)
  }

  // ---- splitting a literal ----

  lemma {:induction false} PartitionAt(before: string, c: char, after: string)
    requires c !in before
    ensures Partition(before + [c] + after, c) == (before, after)
    ensures Partition(before, c) == (before, "")
  {
    var s := before + [c] + after;
    if before != "" {
      PartitionAt(before[1..], c, after);
      assert s[1..] == before[1..] + [c] + after;
      assert before == [before[0]] + before[1..];
    } else {
      assert s[1..] == after;
    }
  }

  lemma {:induction false} LowerConcat(a: string, b: string)
    ensures Lower(a + b) == Lower(a) + Lower(b)
  {
    hide Lower, LowerChar;
    forall i | 0 <= i < |a + b| ensures Lower(a + b)[i] == (Lower(a) + Lower(b))[i] {
      assert (a + b)[i] == if i < |a| then a[i] else b[i - |a|];
    }
  }

  lemma LowerFixed(s: string)
    requires forall i :: 0 <= i < |s| ==> IsDigit(s[i]) || s[i] in "+-."
    ensures Lower(s) == s && 'e' !in s
  {
    hide Lower;
    forall i | 0 <= i < |s| ensures s[i] != 'e' && LowerChar(s[i]) == s[i] {
      FixedChar(s[i]);
    }
  }

  lemma FixedChar(c: char)
    requires IsDigit(c) || c in "+-."
    ensures c != 'e' && LowerChar(c) == c
  {
  }

  /** Lowering and splitting at the first "e" recovers the two halves the grammar put there. */
  lemma PartitionLiteral(l: Literal)
    requires l.Valid()
    ensures Partition(Lower(l.Text()), 'e') == (l.MantissaText(), l.ExponentText())
    ensures IsMantissa(l.MantissaText()) && IsExponentLiteral(l.ExponentText())
  {
    LowerLiteral(l);
    SplitLowered(Lower(l.Text()), l.MantissaText(), l.ExponentText());
    PartitionMantissa(l);
    PartitionExponent(l);
  }

  lemma SplitLowered(s: string, mantissa: string, exponent: string)
    requires 'e' !in mantissa
    requires s == mantissa + (['e'] + exponent) || (s == mantissa && exponent == "")
    ensures Partition(s, 'e') == (mantissa, exponent)
  {
    PartitionAt(mantissa, 'e', exponent);
    assert mantissa + (['e'] + exponent) == mantissa + ['e'] + exponent;
  }

  lemma LowerLiteral(l: Literal)
    requires l.Valid()
    ensures 'e' !in l.MantissaText()
    ensures if l.exponent.Exponent? then Lower(l.Text()) == l.MantissaText() + (['e'] + l.ExponentText())
            else Lower(l.Text()) == l.MantissaText() && l.ExponentText() == ""
  {
    LowerFixed(l.MantissaText());
    LowerFixed(l.ExponentText());
    if l.exponent.Exponent? {
      var e := if l.exponent.upper then "E" else "e";
      assert l.Text() == l.MantissaText() + (e + l.ExponentText());
      LowerConcat(l.MantissaText(), e + l.ExponentText());
      LowerConcat(e, l.ExponentText());
    } else {
      assert l.Text() == l.MantissaText();
    }
  }

  lemma PartitionExponent(l: Literal)
    requires l.Valid()
    ensures IsExponentLiteral(l.ExponentText())
    ensures ExponentLiteralValue(l.ExponentText()) == l.ExponentValue()
  {
    if l.exponent.Exponent? {
      var magnitude := if l.exponent.sign.Unsigned? then l.ExponentText() else l.ExponentText()[1..];
      assert magnitude == l.exponent.magnitude && IsDigit(magnitude[0]);
    }
  }

  lemma UnsignedMantissa(l: Literal) returns (unsigned: string)
    requires l.Valid()
    ensures unsigned == l.whole + ['.'] + l.fraction || (unsigned == l.whole && l.fraction == "")
    ensures if l.negative then l.MantissaText() == ['-'] + unsigned else l.MantissaText() == unsigned
    ensures unsigned != "" && IsDigit(unsigned[0])
  {
    unsigned := l.whole + (if l.point then "." + l.fraction else "");
    assert unsigned[0] == l.whole[0];
  }

  lemma PartitionMantissa(l: Literal)
    requires l.Valid()
    ensures IsMantissa(l.MantissaText())
    ensures DecimalOf(l.MantissaText())
         == Decimal(l.negative, Digits.Text(ValueOf(l.whole + l.fraction)), -|l.fraction|)
  {
    hide ValueOf, Digits.Text, Partition;
    var unsigned := UnsignedMantissa(l);
    var mantissa := l.MantissaText();
    assert (mantissa[0] == '-') == l.negative && unsigned == if l.negative then mantissa[1..] else mantissa;
    PartitionAt(l.whole, '.', l.fraction);
    assert Partition(unsigned, '.') == (l.whole, l.fraction);
  }

  // ---- the chosen precision is enough ----

  lemma ExponentLiteralBound(s: string)
    requires IsExponentLiteral(s)
    ensures -Shift(1, |s|) < ExponentLiteralValue(s) < Shift(1, |s|)
  {
    if s != "" {
      var magnitude := if s[0] in "+-" then s[1..] else s;
      ValueBound(magnitude);
      ShiftMonotone(|magnitude|, |s|);
    }
  }

  lemma IntTextBound(i: int)
    ensures -Shift(1, |IntText(i)|) < i < Shift(1, |IntText(i)|)
  {
    var magnitude: nat := if i < 0 then -i else i;
    TextBound(magnitude);
    ShiftMonotone(|Digits.Text(magnitude)|, |IntText(i)|);
  }

  /** The exponent addition is exact: the context never rounds, whatever the size of either exponent. */
  lemma PrecisionSuffices(exponentLiteral: string, offset: int)
    requires IsExponentLiteral(exponentLiteral)
    ensures ContextAdd(Max(|exponentLiteral|, |IntText(offset)|) + 1, ExponentLiteralValue(exponentLiteral), offset)
         == ExponentLiteralValue(exponentLiteral) + offset
  {
    var width := Max(|exponentLiteral|, |IntText(offset)|);
    ExponentLiteralBound(exponentLiteral);
    IntTextBound(offset);
    ShiftMonotone(|exponentLiteral|, width);
    ShiftMonotone(|IntText(offset)|, width);
    var sum := ExponentLiteralValue(exponentLiteral) + offset;
    assert Shift(1, width + 1) == 10 * Shift(1, width);
    TextLength(if sum < 0 then -sum else sum, width + 1);
  }

  // ---- the text is a normal form of the value ----

  function Render(negative: bool, digits: string, exponent: int): string {
    (if negative then "-" else "") + digits + "e" + IntText(exponent)
  }

  lemma RenderInjective(s: bool, d: string, e: int, t: bool, c: string, f: int)
    requires d != "" && AllDigits(d) && c != "" && AllDigits(c)
    requires Render(s, d, e) == Render(t, c, f)
    ensures s == t && d == c && e == f
  {
    var left, right := (if s then "-" else "") + d, (if t then "-" else "") + c;
    PartitionAt(left, 'e', IntText(e));
    PartitionAt(right, 'e', IntText(f));
    assert Render(s, d, e) == left + ['e'] + IntText(e) && Render(t, c, f) == right + ['e'] + IntText(f);
    assert left == right && IntText(e) == IntText(f);
    IntTextInjective(e, f);
    assert s <==> left[0] == '-';
    assert t <==> right[0] == '-';
    assert d == if s then left[1..] else left;
    assert c == if t then right[1..] else right;
  }

  lemma RenderIsNotZero(s: bool, d: string, e: int)
    ensures Render(s, d, e) != "0"
  {
    assert Render(s, d, e)[|(if s then "-" else "") + d|] == 'e';
  }

  lemma {:induction false} PlainText(s: string)
    requires Plain(s)
    ensures Digits.Text(ValueOf(s)) == s
  {
    if |s| > 1 {
      var init := s[..|s| - 1];
      PlainText(init);
      LeadingDigit(init);
      assert ValueOf(s) / 10 == ValueOf(init) && ValueOf(s) % 10 == DigitValue(s[|s| - 1]);
      assert s == init + [s[|s| - 1]];
    } else {
      assert s[..0] == "";
      assert s == [s[0]];
    }
  }

  lemma {:induction false} LeadingDigit(s: string)
    requires s != "" && AllDigits(s) && s[0] != '0'
    ensures ValueOf(s) > 0
  {
    if |s| > 1 {
      LeadingDigit(s[..|s| - 1]);
    }
  }

  /** Stripping the zeros of a plain, non-zero digit string leaves a plain one that ten does not divide. */
  lemma StripPlain(digits: string)
    requires Plain(digits)
    ensures ValueOf(digits) == Shift(ValueOf(StripZeros(digits)), |digits| - |StripZeros(digits)|)
    ensures StripZeros(digits) == "" <==> ValueOf(digits) == 0
    ensures StripZeros(digits) != "" ==> Plain(StripZeros(digits)) && ValueOf(StripZeros(digits)) % 10 != 0
  {
    StripZerosValue(digits);
    var stripped := StripZeros(digits);
    if |stripped| > 1 {
      assert stripped[0] == digits[0];
    }
  }

  /** With an exact exponent addition, the text is the rendering of the stripped digits. */
  lemma FinishRenders(number: Decimal, literal: string)
    requires number.Valid() && IsExponentLiteral(literal)
    ensures var digits := StripZeros(number.digits);
      Finish(number, literal)
      == if digits == "" then "0"
         else Render(number.negative, digits,
                     ExponentLiteralValue(literal) + number.exponent + |number.digits| - |digits|)
  {
    hide ContextAdd, ExponentLiteralValue, StripZeros, IntText;
    var digits := StripZeros(number.digits);
    PrecisionSuffices(literal, number.exponent + |number.digits| - |digits|);
  }

  /** `digits` and `exponent` are the normal form of coefficient * 10^scale, and `text` spells them. */
  predicate Spells(text: string, coefficient: int, scale: int, digits: string, exponent: int) {
    if coefficient == 0 then text == "0"
    else
      && Plain(digits) && ValueOf(digits) % 10 != 0
      && text == Render(coefficient < 0, digits, exponent)
      && exponent >= scale
      && coefficient == Shift(Signed(coefficient < 0, ValueOf(digits)), exponent - scale)
  }

  lemma FinishSpells(number: Decimal, literal: string) returns (digits: string, exponent: int)
    requires number.Valid() && IsExponentLiteral(literal)
    ensures Spells(Finish(number, literal), Signed(number.negative, ValueOf(number.digits)),
                   number.exponent + ExponentLiteralValue(literal), digits, exponent)
  {
    hide Finish, ExponentLiteralValue, StripZeros, ValueOf, Shift, Render;
    digits := StripZeros(number.digits);
    exponent := ExponentLiteralValue(literal) + number.exponent + |number.digits| - |digits|;
    FinishRenders(number, literal);
    StripPlain(number.digits);
    ShiftNegated(ValueOf(digits), |number.digits| - |digits|);
  }

  lemma LiteralFinish(l: Literal)
    requires l.Valid()
    ensures var digits := Digits.Text(ValueOf(l.whole + l.fraction));
      && Plain(digits) && IsExponentLiteral(l.ExponentText())
      && ExponentLiteralValue(l.ExponentText()) == l.ExponentValue()
      && NumberText(Unrepresentable(l)) == Finish(Decimal(l.negative, digits, -|l.fraction|), l.ExponentText())
  {
    hide Finish, DecimalOf, Lower, Partition, ValueOf, Digits.Text, ExponentLiteralValue;
    PartitionLiteral(l);
    PartitionMantissa(l);
    PartitionExponent(l);
    TextIsPlain(ValueOf(l.whole + l.fraction));
  }

  lemma LiteralSpells(l: Literal) returns (digits: string, exponent: int)
    requires l.Valid()
    ensures Spells(NumberText(Unrepresentable(l)), Unrepresentable(l).Coefficient(), Unrepresentable(l).Scale(),
                   digits, exponent)
  {
    hide Finish, NumberText, ValueOf, Shift, Digits.Text, Spells, IsExponentLiteral, ExponentLiteralValue;
    LiteralFinish(l);
    ValueConcat(l.whole, l.fraction);
    TextValue(ValueOf(l.whole + l.fraction));
    digits, exponent := FinishSpells(
      Decimal(l.negative, Digits.Text(ValueOf(l.whole + l.fraction)), -|l.fraction|), l.ExponentText());
  }

  lemma IntegerSpells(value: int) returns (digits: string, exponent: int)
    ensures Spells(NumberText(Integer(value)), value, 0, digits, exponent)
  {
    hide Finish;
    var magnitude := if value < 0 then -value else value;
    TextIsPlain(magnitude);
    TextValue(magnitude);
    assert ExponentLiteralValue("0") == 0 by { assert "0"[..0] == ""; }
    digits, exponent := FinishSpells(Decimal(value < 0, Digits.Text(magnitude), 0), "0");
  }

  lemma FloatSpells(repr: Decimal) returns (digits: string, exponent: int)
    requires repr.Valid()
    ensures Spells(NumberText(Float(repr)), Float(repr).Coefficient(), repr.exponent, digits, exponent)
  {
    hide Finish;
    assert ExponentLiteralValue("0") == 0 by { assert "0"[..0] == ""; }
    digits, exponent := FinishSpells(repr, "0");
  }

  /** The canonical text of every stored number is the text of its normal form. */
  lemma CanonicalSpells(x: Number) returns (digits: string, exponent: int)
    requires x.Valid()
    ensures Spells(NumberText(x), x.Coefficient(), x.Scale(), digits, exponent)
  {
    match x
    case Integer(value) =>
      digits, exponent := IntegerSpells(value);
    case Float(repr) =>
      digits, exponent := FloatSpells(repr);
    case Unrepresentable(l) =>
      digits, exponent := LiteralSpells(l);
  }

  // ---- same text, same value ----

  lemma SameNormalForm(m: int, e: int, v: nat, k: int, n: int, f: int, w: nat, l: int)
    requires v % 10 != 0 && w % 10 != 0 && k >= e >= f && l >= f
    requires m == Shift(Signed(m < 0, v), k - e) && n == Shift(Signed(n < 0, w), l - f)
    ensures SameDecimal(m, e, n, f) <==> (m < 0) == (n < 0) && v == w && k == l
  {
    hide Shift;
    ShiftShift(Signed(m < 0, v), k - e, e - f);
    ShiftNegated(v, k - f);
    ShiftNegated(w, l - f);
    if SameDecimal(m, e, n, f) {
      NormalFormUnique(v, k - f, w, l - f);
    }
  }

  lemma SameDecimalSymmetric(m: int, e: int, n: int, f: int)
    ensures SameDecimal(m, e, n, f) <==> SameDecimal(n, f, m, e)
  {
  }

  lemma SpellingsAgree(s: string, m: int, e: int, d: string, i: int, t: string, n: int, f: int, c: string, j: int)
    requires Spells(s, m, e, d, i) && Spells(t, n, f, c, j)
    requires e >= f
    ensures s == t <==> SameDecimal(m, e, n, f)
  {
    if m == 0 || n == 0 {
      RenderIsNotZero(m < 0, d, i);
      RenderIsNotZero(n < 0, c, j);
    } else {
      SameNormalForm(m, e, ValueOf(d), i, n, f, ValueOf(c), j);
      PlainText(d);
      PlainText(c);
      if s == t {
        RenderInjective(m < 0, d, i, n < 0, c, j);
      }
    }
  }

  /** Two stored numbers have the same canonical text exactly when they are the same exact decimal value. */
  lemma CanonicalIffSameValue(x: Number, y: Number)
    requires x.Valid() && y.Valid()
    ensures NumberText(x) == NumberText(y) <==> SameValue(x, y)
  {
    var d, i := CanonicalSpells(x);
    var c, j := CanonicalSpells(y);
    if x.Scale() >= y.Scale() {
      SpellingsAgree(NumberText(x), x.Coefficient(), x.Scale(), d, i,
                     NumberText(y), y.Coefficient(), y.Scale(), c, j);
    } else {
      SpellingsAgree(NumberText(y), y.Coefficient(), y.Scale(), c, j,
                     NumberText(x), x.Coefficient(), x.Scale(), d, i);
      SameDecimalSymmetric(x.Coefficient(), x.Scale(), y.Coefficient(), y.Scale());
    }
  }
}
