/** What the operators of calc compute, by the laws of arithmetic and of bits rather than by their definitions. */
module CalcLaws {
  import opened Options
  import opened Arithmetic
  import opened CalcSpec
  import opened CalcTrees
  import opened CalcTheorems

  /** `r` is `x` in 64-bit arithmetic: equal modulo 2^64, and equal when `x` is a long. */
  ghost predicate Is64(r: int, x: int) {
    -TWO63 <= r < TWO63 && (exists k: int :: r == x + Multiple(k)) && (-TWO63 <= x < TWO63 ==> r == x)
  }

  function Multiple(k: int): int {
    k * TWO64
  }

  lemma WrapIs(x: int)
    ensures Is64(Wrap(x), x)
  {
    var q := (x + TWO63) / TWO64;
    assert x + TWO63 == q * TWO64 + (x + TWO63) % TWO64;
    assert Wrap(x) == x + Multiple(-q);
  }

  /** No other long is. */
  lemma Only64(r: int, r': int, x: int)
    requires Is64(r, x) && Is64(r', x)
    ensures r == r'
  {
    var k: int :| r == x + Multiple(k);
    var k': int :| r' == x + Multiple(k');
    assert (k - k') * TWO64 == r - r';
    Small(k - k', TWO64);
  }

  // ---- sums and products ---------------------------------------------------------------------

  lemma SumsAndProducts(a: Long, b: Long)
    ensures var x: int, y: int := a, b;
      && Apply(Add, a, b).Got? && Is64(Apply(Add, a, b).value, x + y)
      && Apply(Sub, a, b).Got? && Is64(Apply(Sub, a, b).value, x - y)
      && Apply(Mul, a, b).Got? && Is64(Apply(Mul, a, b).value, x * y)
  {
    hide Is64, Wrap;
    var x: int, y: int := a, b;
    WrapIs(x + y);
    WrapIs(x - y);
    WrapIs(x * y);
  }

  // ---- division --------------------------------------------------------------------------------

  function Abs(x: int): nat {
    if x < 0 then -x else x
  }

  lemma QuotLaw(a: int, b: int)
    requires b != 0
    ensures var m := a - b * Quot(a, b);
      Abs(m) < Abs(b) && (m == 0 || (m < 0 <==> a < 0)) && Abs(Quot(a, b)) <= Abs(a)
  {
    var n := Abs(a);
    var q := n / b;
    assert n == q * b + n % b;
    assert Abs(q) <= n by { QuotSmall(n, b); }
    if a < 0 { assert a - b * Quot(a, b) == -(n % b); }
  }

  lemma QuotSmall(n: nat, b: int)
    requires b != 0
    ensures Abs(n / b) <= n
  {
    var q := n / b;
    assert n == q * b + n % b;
    if b > 0 {
      assert q >= 0;
      assert q * b >= q by { Product(q, 1, b); }
    } else {
      assert q <= 0;
      assert (-q) * (-b) >= -q by { Product(-q, 1, -b); }
      assert q * b == (-q) * (-b);
    }
  }

  /**
   Quotient and remainder of any two longs but a zero divisor and -2^63 by -1: together they give the
   dividend back, the remainder is smaller than the divisor and has the dividend's sign.
   */
  lemma QuotientAndRemainder(a: Long, b: Long)
    requires b != 0 && !Unfit(a, b)
    ensures Apply(Div, a, b).Got? && Apply(Mod, a, b).Got?
    ensures var q: int, m: int := Apply(Div, a, b).value, Apply(Mod, a, b).value;
      && a == q * b + m && Abs(m) < Abs(b) && (m == 0 || (m < 0 <==> a < 0))
  {
    hide Wrap;
    QuotLaw(a, b);
    QuotFits(a, b);
    var x: int, y: int := a, b;
    var m := x - y * Quot(x, y);
    WrapIs(Quot(x, y));
    WrapIs(m);
    assert x == Quot(x, y) * y + m;
  }

  lemma QuotFits(a: Long, b: Long)
    requires b != 0 && !Unfit(a, b)
    ensures -TWO63 <= Quot(a, b) < TWO63
  {
    QuotLaw(a, b);
    var q, m := Quot(a, b), a - b * Quot(a, b);
    assert q == TWO63 ==> a == b * TWO63 + m && -1 <= b * TWO63 + Abs(b) + TWO63;
  }

  // ---- bits ------------------------------------------------------------------------------------

  lemma {:induction false} PowAdd(j: nat, k: nat)
    ensures Pow2(j + k) == Pow2(j) * Pow2(k)
  {
    if j > 0 { PowAdd(j - 1, k); }
  }

  lemma MultipleAside(x: int, h: int, p: nat)
    requires p > 0
    ensures (x + h * p) / p == x / p + h
  {
    assert x == (x / p) * p + x % p;
    Distribute(x / p, h, p);
    Division(x + h * p, p, x / p + h, x % p);
  }

  lemma Distribute(a: int, b: int, p: int)
    ensures (a + b) * p == a * p + b * p
  {
  }

  lemma Regroup(c: int, q: int, p: int)
    ensures c * (2 * q * p) == (2 * (c * q)) * p
  {
  }

  lemma EvenAside(x: int, h: int)
    ensures (x + 2 * h) % 2 == x % 2
  {
  }

  /** Adding a multiple of a higher power of two leaves a bit alone. */
  lemma HigherPower(x: int, c: int, k: nat, n: nat)
    requires k < n
    ensures BitOf(x + c * Pow2(n), k) <==> BitOf(x, k)
  {
    var p, q := Pow2(k), Pow2(n - k - 1);
    PowAdd(n - k, k);
    assert Pow2(n - k) == 2 * q;
    hide Pow2;
    Regroup(c, q, p);
    MultipleAside(x, 2 * (c * q), p);
    EvenAside(x / p, c * q);
  }

  lemma {:induction false} BitwiseSmall(op: BinOp, a: int, b: int, n: nat)
    ensures Bitwise(op, a, b, n) < Pow2(n)
  {
    hide BitOf;
    if n > 0 { BitwiseSmall(op, a, b, n - 1); }
  }

  lemma TopBit(low: nat, p: nat, on: bool)
    requires low < p
    ensures (low + if on then p else 0) / p % 2 == (if on then 1 else 0)
  {
    Division(low + (if on then p else 0), p, if on then 1 else 0, low);
  }

  lemma {:induction false} BitwiseBit(op: BinOp, a: int, b: int, n: nat, k: nat)
    requires k < n
    ensures BitOf(Bitwise(op, a, b, n), k) <==> BitResult(op, BitOf(a, k), BitOf(b, k))
  {
    var low, on := Bitwise(op, a, b, n - 1), BitResult(op, BitOf(a, n - 1), BitOf(b, n - 1));
    BitwiseSmall(op, a, b, n - 1);
    if k == n - 1 {
      TopBit(low, Pow2(n - 1), on);
      hide Pow2;
    } else {
      hide BitOf, Pow2;
      BitwiseBit(op, a, b, n - 1, k);
      HigherPower(low, if on then 1 else 0, k, n - 1);
    }
  }

  lemma Pow64()
    ensures Pow2(64) == TWO64 && Pow2(63) == TWO63
  {
    assert Pow2(8) == 256 && Pow2(64) == 2 * Pow2(63);
    hide Pow2;
    PowAdd(8, 8);
    PowAdd(16, 16);
    PowAdd(32, 32);
  }

  /** A long has the lowest 64 bits of whatever it stands for. */
  lemma BitsOf64(r: int, x: int, k: nat)
    requires Is64(r, x) && k < 64
    ensures BitOf(r, k) <==> BitOf(x, k)
  {
    hide BitOf;
    var c: int :| r == x + Multiple(c);
    Pow64();
    HigherPower(x, c, k, 64);
  }

  /** The bit operators work bit by bit. */
  lemma BitByBit(a: Long, b: Long, k: nat)
    requires k < 64
    ensures Apply(Or, a, b).Got? && (BitOf(Apply(Or, a, b).value, k) <==> BitOf(a, k) || BitOf(b, k))
    ensures Apply(Xor, a, b).Got? && (BitOf(Apply(Xor, a, b).value, k) <==> BitOf(a, k) != BitOf(b, k))
    ensures Apply(And, a, b).Got? && (BitOf(Apply(And, a, b).value, k) <==> BitOf(a, k) && BitOf(b, k))
  {
    hide BitOf, Bitwise, Wrap, Is64;
    BitOfOp(Or, a, b, k);
    BitOfOp(Xor, a, b, k);
    BitOfOp(And, a, b, k);
  }

  lemma BitOfOp(op: BinOp, a: Long, b: Long, k: nat)
    requires k < 64
    ensures BitOf(Wrap(Bitwise(op, a, b, 64)), k) <==> BitResult(op, BitOf(a, k), BitOf(b, k))
  {
    hide BitOf, Bitwise, Wrap, Is64;
    var x := Bitwise(op, a, b, 64);
    WrapIs(x);
    BitsOf64(Wrap(x), x, k);
    BitwiseBit(op, a, b, 64, k);
  }

  /** A long is determined by its bits, so these laws leave the operators no choice. */
  lemma {:induction false} SameBits(a: Long, b: Long)
    requires forall k: nat | k < 64 :: BitOf(a, k) <==> BitOf(b, k)
    ensures a == b
  {
    Pow64();
    LowBits(a, b, 64);
    var x: int, y: int := a, b;
    var c := x / TWO64 - y / TWO64;
    assert x - y == c * TWO64;
    Small(c, TWO64);
  }

  lemma {:induction false} LowBits(x: int, y: int, n: nat)
    requires forall k: nat | k < n :: BitOf(x, k) <==> BitOf(y, k)
    ensures x % Pow2(n) == y % Pow2(n)
  {
    if n > 0 {
      LowBits(x, y, n - 1);
      LowBit(x, n - 1);
      LowBit(y, n - 1);
      assert BitOf(x, n - 1) <==> BitOf(y, n - 1);
    }
  }

  /** Dividing by twice as much: the quotient is halved, and its parity joins the remainder. */
  lemma Halves(x: int, p: nat)
    requires p > 0
    ensures x / (2 * p) == x / p / 2 && x % (2 * p) == (x / p % 2) * p + x % p
  {
    var q := x / p;
    var h, b, r := q / 2, q % 2, x % p;
    assert x == q * p + r && q == 2 * h + b;
    Distribute(2 * h, b, p);
    assert (2 * h) * p == h * (2 * p);
    assert 0 <= b * p <= p by { assert b == 0 || b == 1; }
    Division(x, 2 * p, h, b * p + r);
  }

  lemma LowBit(x: int, n: nat)
    ensures x % Pow2(n + 1) == x % Pow2(n) + if BitOf(x, n) then Pow2(n) else 0
  {
    assert Pow2(n + 1) == 2 * Pow2(n);
    hide Pow2;
    Halves(x, Pow2(n));
  }

  // ---- shifts ----------------------------------------------------------------------------------

  /** Shifting by nothing, and by one place more than a count: doubled in 64-bit arithmetic, or halved downward. */
  lemma ShiftsStepwise(a: Long, b: Long)
    ensures Apply(Shl, a, b).Got? && Apply(Shr, a, b).Got?
    ensures b % 64 == 0 ==> Apply(Shl, a, b) == Apply(Shr, a, b) == Got(a)
    ensures b % 64 != 0 ==>
      var l: int, r: int := Apply(Shl, a, b - 1).value, Apply(Shr, a, b - 1).value;
      Is64(Apply(Shl, a, b).value, 2 * l) && Apply(Shr, a, b) == Got(r / 2)
  {
    hide Wrap, Is64;
    WrapIs(a);
    Wrapped(a);
    assert Pow2(0) == 1;
    if b % 64 != 0 {
      assert (b - 1) % 64 == b % 64 - 1;
      ShlStep(a, b % 64);
      ShrStep(a, b % 64);
    }
  }

  lemma Wrapped(x: Long)
    ensures Wrap(x) == x
  {
  }

  lemma ShlStep(a: Long, c: nat)
    requires c > 0
    ensures var x: int, l: int := a, Wrap(a * Pow2(c - 1)); Is64(Wrap(x * Pow2(c)), 2 * l)
  {
    hide Wrap;
    var x: int, y := a, a * Pow2(c - 1);
    assert x * Pow2(c) == 2 * y;
    WrapIs(y);
    WrapIs(2 * y);
    var l: int := Wrap(y);
    Doubled(l, y, Wrap(2 * y));
  }

  lemma Doubled(l: int, y: int, r: int)
    requires Is64(l, y) && Is64(r, 2 * y)
    ensures Is64(r, 2 * l)
  {
    var k: int :| l == y + Multiple(k);
    var j: int :| r == 2 * y + Multiple(j);
    assert r == 2 * l + Multiple(j - 2 * k);
    if -TWO63 <= 2 * l < TWO63 {
      assert (j - 2 * k) * TWO64 == r - 2 * l;
      Small(j - 2 * k, TWO64);
    }
  }

  lemma ShrStep(a: Long, c: nat)
    requires c > 0
    ensures var r: int := Wrap(a / Pow2(c - 1)); Wrap(a / Pow2(c)) == r / 2
  {
    hide Wrap;
    var x: int, p := a, Pow2(c - 1);
    assert Pow2(c) == 2 * p;
    hide Pow2;
    ShrSmall(x, p);
    ShrSmall(x, 2 * p);
    Halves(x, p);
    Wrapped(x / p);
    Wrapped(x / (2 * p));
  }

  lemma ShrSmall(x: int, p: nat)
    requires p > 0 && -TWO63 <= x < TWO63
    ensures -TWO63 <= x / p < TWO63
  {
    var q := x / p;
    assert x == q * p + x % p;
    if q >= 0 { Product(q, 1, p); } else { Product(-q - 1, 1, p); }
    assert q < 0 ==> (-q - 1) * p == -(q * p) - p;
  }

  // ---- signs -----------------------------------------------------------------------------------

  lemma Signs(a: Long)
    ensures var x: int := a; Is64(ApplyUn(Minus, a), -x) && ApplyUn(Plus, a) == a
    ensures forall k: nat | k < 64 :: BitOf(ApplyUn(Not, a), k) <==> !BitOf(a, k)
  {
    hide Is64, BitOf;
    var x: int := a;
    WrapIs(-x);
    forall k: nat | k < 64 ensures BitOf(ApplyUn(Not, a), k) <==> !BitOf(a, k) { FlippedBit(x, k); }
  }

  lemma FlippedBit(x: int, k: nat)
    ensures BitOf(-x - 1, k) <==> !BitOf(x, k)
  {
    var p := Pow2(k);
    var q := x / p;
    assert x == q * p + x % p;
    assert -x - 1 == (-q - 1) * p + (p - 1 - x % p);
    Division(-x - 1, p, -q - 1, p - 1 - x % p);
  }

  // ---- whole lines -----------------------------------------------------------------------------

  /** calc reads the whole line and its value is `v`. */
  ghost predicate Answers(line: string, v: int) {
    var r := ParseLevel(line, 0, 0);
    r.Ok? && r.v == v && r.next == |line|
  }

  function Line(m: nat, c: string, n: nat): string {
    DecimalText(m) + c + DecimalText(n)
  }

  /** The precedence that the usage text documents, loosest first. */
  const DOCUMENTED: seq<set<string>> := [{"|"}, {"^"}, {"&"}, {"<<", ">>"}, {"+", "-"}, {"*", "/", "%"}]

  lemma Documented(op: BinOp)
    ensures Level(op) < |DOCUMENTED| && OpText(op) in DOCUMENTED[Level(op)]
  {
  }

  lemma BinaryLine(op: BinOp, m: nat, n: nat, c: string)
    requires m < TWO63 && n < TWO63 && OpText(op) == c && Apply(op, m, n).Got?
    ensures Answers(Line(m, c, n), Apply(op, m, n).value)
  {
    hide ParseLevel, Apply, DecimalText;
    var e := Bin(op, Lit(m), Lit(n));
    assert Text(Print(Lit(m), Level(op))) == DecimalText(m) && Text(Print(Lit(n), Level(op) + 1)) == DecimalText(n);
    assert "" + c == c;
    assert Text(Print(e, 0)) == DecimalText(m) + c + DecimalText(n);
    PrintReads(e);
  }

  lemma UnaryLine(op: UnOp, m: nat, c: string)
    requires m < TWO63 && UnText(op) == c
    ensures Answers(c + DecimalText(m), ApplyUn(op, m))
  {
    hide ParseLevel, ApplyUn, DecimalText;
    var e := Un(op, Lit(m));
    assert "" + c == c;
    assert Text(Print(e, 0)) == c + DecimalText(m);
    PrintReads(e);
  }

  /** Two numbers with an arithmetic operator between them, for all numbers. */
  lemma ArithmeticLines(m: nat, n: nat)
    requires m < TWO63 && n < TWO63
    ensures exists v :: Answers(Line(m, "+", n), v) && Is64(v, m + n)
    ensures exists v :: Answers(Line(m, "-", n), v) && Is64(v, m - n)
    ensures exists v :: Answers(Line(m, "*", n), v) && Is64(v, m * n)
    ensures n > 0 ==> Answers(Line(m, "/", n), m / n)
    ensures n > 0 ==> Answers(Line(m, "%", n), m % n)
    ensures exists v :: Answers("-" + DecimalText(m), v) && Is64(v, 0 - m)
    ensures Answers("+" + DecimalText(m), m)
  {
    hide Answers, Apply, ApplyUn, Line, DecimalText, Is64;
    SumsAndProducts(m, n);
    Signs(m);
    BinaryLine(Add, m, n, "+");
    BinaryLine(Sub, m, n, "-");
    BinaryLine(Mul, m, n, "*");
    UnaryLine(Minus, m, "-");
    UnaryLine(Plus, m, "+");
    if n > 0 {
      QuotientAndRemainder(m, n);
      var q: int, r: int := Apply(Div, m, n).value, Apply(Mod, m, n).value;
      Division(m, n, q, r);
      BinaryLine(Div, m, n, "/");
      BinaryLine(Mod, m, n, "%");
    }
  }

  /** The same for the operators on bits. */
  lemma BitLines(m: nat, n: nat, k: nat)
    requires m < TWO63 && n < TWO63 && k < 64
    ensures exists v :: Answers(Line(m, "|", n), v) && (BitOf(v, k) <==> BitOf(m, k) || BitOf(n, k))
    ensures exists v :: Answers(Line(m, "^", n), v) && (BitOf(v, k) <==> BitOf(m, k) != BitOf(n, k))
    ensures exists v :: Answers(Line(m, "&", n), v) && (BitOf(v, k) <==> BitOf(m, k) && BitOf(n, k))
    ensures exists v :: Answers("~" + DecimalText(m), v) && (BitOf(v, k) <==> !BitOf(m, k))
  {
    hide Answers, Apply, ApplyUn, Line, DecimalText, BitOf;
    BitByBit(m, n, k);
    Signs(m);
    BinaryLine(Or, m, n, "|");
    BinaryLine(Xor, m, n, "^");
    BinaryLine(And, m, n, "&");
    UnaryLine(Not, m, "~");
  }

  /** And for shifts, by any count below 64: times or by that power of two. */
  lemma ShiftLines(m: nat, n: nat)
    requires m < TWO63 && n < 64
    ensures exists v :: Answers(Line(m, "<<", n), v) && Is64(v, m * Pow2(n))
    ensures Answers(Line(m, ">>", n), m / Pow2(n))
  {
    hide Answers, Line, Is64, Pow2, Wrap;
    BinaryLine(Shl, m, n, "<<");
    BinaryLine(Shr, m, n, ">>");
    WrapIs(m * Pow2(n));
    ShrSmall(m, Pow2(n));
    Wrapped(m / Pow2(n));
  }

  // ---- numbers in the four radices ----------------------------------------------------------------

  const LOWER: string := "0123456789abcdef"
  const UPPER: string := "0123456789ABCDEF"

  function RadixText(n: nat, base: nat, letters: string): (t: string)
    requires 2 <= base <= |letters|
    ensures t != ""
    decreases n
  {
    if n < base then [letters[n]]
    else
      QuotSmaller(n, base);
      RadixText(n / base, base, letters) + [letters[n % base]]
  }

  lemma DigitLetter(d: nat)
    requires d < 16
    ensures DigitOf(LOWER[d]) == d == DigitOf(UPPER[d])
  {
  }

  lemma {:induction false} RadixDigits(n: nat, base: nat, letters: string)
    requires 2 <= base <= 16 && (letters == LOWER || letters == UPPER)
    ensures forall c <- RadixText(n, base, letters) :: IsDigit(c, base)
    decreases n
  {
    hide DigitOf;
    if n < base {
      DigitLetter(n);
    } else {
      QuotSmaller(n, base);
      RadixDigits(n / base, base, letters);
      DigitLetter(n % base);
    }
  }

  lemma {:induction false} RadixValue(n: nat, base: nat, letters: string)
    requires n < TWO63 && 2 <= base <= 16 && (letters == LOWER || letters == UPPER)
    ensures DigitsValue(RadixText(n, base, letters), base, 0) == n
    decreases n
  {
    hide DigitOf, Wrap;
    if n < base {
      DigitLetter(n);
      assert [letters[n]][1..] == "";
      Wrapped(n);
    } else {
      var q, r := n / base, n % base;
      assert n == q * base + r && q < n by { QuotSmaller(n, base); }
      DigitLetter(r);
      RadixValue(q, base, letters);
      DigitsAppend(RadixText(q, base, letters), letters[r], base, 0);
      Wrapped(n);
    }
  }

  lemma QuotSmaller(n: nat, base: nat)
    requires 2 <= base <= n
    ensures n == n / base * base + n % base && n / base < n && n % base < base
  {
    Product(n / base, 2, base);
  }

  /** Any number is read back in decimal, hexadecimal, octal and binary, with letters and prefixes of either case. */
  lemma RadixLines(n: nat, letters: string)
    requires n < TWO63 && (letters == LOWER || letters == UPPER)
    ensures Answers(RadixText(n, 10, letters), n)
    ensures Answers("0x" + RadixText(n, 16, letters), n) && Answers("0X" + RadixText(n, 16, letters), n)
    ensures Answers("0o" + RadixText(n, 8, letters), n) && Answers("0O" + RadixText(n, 8, letters), n)
    ensures Answers("0b" + RadixText(n, 2, letters), n) && Answers("0B" + RadixText(n, 2, letters), n)
  {
    hide Answers;
    LiteralLine(n, Decimal(RadixText(n, 10, letters)), letters);
    LiteralLine(n, Prefixed('x', RadixText(n, 16, letters)), letters);
    LiteralLine(n, Prefixed('X', RadixText(n, 16, letters)), letters);
    LiteralLine(n, Prefixed('o', RadixText(n, 8, letters)), letters);
    LiteralLine(n, Prefixed('O', RadixText(n, 8, letters)), letters);
    LiteralLine(n, Prefixed('b', RadixText(n, 2, letters)), letters);
    LiteralLine(n, Prefixed('B', RadixText(n, 2, letters)), letters);
    assert "" + RadixText(n, 10, letters) == RadixText(n, 10, letters);
  }

  lemma LiteralLine(n: nat, lit: Literal, letters: string)
    requires n < TWO63 && (letters == LOWER || letters == UPPER) && 2 <= Base(lit) <= 16
    requires lit.digits == RadixText(n, Base(lit), letters)
    requires lit.Prefixed? ==> lit.letter in {'x', 'X', 'o', 'O', 'b', 'B'}
    ensures Answers(PrefixText(lit) + lit.digits, n)
  {
    hide ParseLevel, RadixText, DigitsValue, DigitOf;
    RadixValue(n, Base(lit), letters);
    RadixDigits(n, Base(lit), letters);
    var t, line := Number("", lit), PrefixText(lit) + lit.digits;
    assert "" + line == line && line + "" == line;
    LineReads(t, "");
  }
}
