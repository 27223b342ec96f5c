/** Expression trees, printed with as few parentheses as the precedence allows, and read back. */
module CalcTheorems {
  import opened Options
  import opened CalcSpec
  import opened CalcTrees

  /** A whole line: blanks may follow the expression. */
  lemma LineReads(t: Written, tail: string)
    requires Proper(t) && Blanks(tail)
    ensures ParseLevel(Text(t) + tail, 0, 0) ==
      match Value(t) case Stopped(why) => Halt(why) case Got(v) => Ok(v, |Text(t) + tail|)
  {
    hide ParseLevel, ParseRest, Text, Value, Proper;
    var s, end := Text(t) + tail, |Text(t)|;
    assert Stands(s, 0, Text(t)) by { assert s[0..0 + |Text(t)|] == Text(t); }
    assert Stands(s, end, tail) by { assert s[end..end + |tail|] == tail; }
    SkipGap(s, end, tail);
    if tail != "" { StandsAt(s, end, tail, 0); }
    Reads(t, s, 0, 0);
    if Value(t).Got? { RestEnds(s, 0, Value(t).value, end); }
  }

  // ---- Trees ---------------------------------------------------------------------------

  datatype Tree = Lit(n: nat) | Un(un: UnOp, arg: Tree) | Bin(op: BinOp, left: Tree, right: Tree)

  /** Numbers fit a C long. */
  predicate InRange(e: Tree) {
    match e
    case Lit(n) => n < TWO63
    case Un(_, arg) => InRange(arg)
    case Bin(_, left, right) => InRange(left) && InRange(right)
  }

  /** The value of a tree, or what ends the program on the way to it. */
  function Eval(e: Tree): Result
    requires InRange(e)
  {
    match e
    case Lit(n) => Got(n)
    case Un(un, arg) => CombineUn(un, Eval(arg))
    case Bin(op, left, right) => Combine(op, Eval(left), Eval(right))
  }

  function DigitChar(d: nat): char
    requires d < 10
  {
    ('0' as int + d) as char
  }

  function DecimalText(n: nat): string {
    if n < 10 then [DigitChar(n)] else DecimalText(n / 10) + [DigitChar(n % 10)]
  }

  /** The tree of a written expression. */
  function TreeOf(t: Written): Tree {
    match t
    case Number(_, lit) => Lit(var v: int := DigitsValue(lit.digits, Base(lit), 0); if v < 0 then 0 else v)
    case Paren(_, inner, _) => TreeOf(inner)
    case Signed(_, un, arg) => Un(un, TreeOf(arg))
    case Infix(left, _, op, right) => Bin(op, TreeOf(left), TreeOf(right))
  }

  /** Printing where an operand of tightness `k` is wanted. */
  function Print(e: Tree, k: nat): Written {
    match e
    case Lit(n) => Number("", Decimal(DecimalText(n)))
    case Un(un, arg) => Wrapped(Signed("", un, Print(arg, UNARY)), k)
    case Bin(op, left, right) => Wrapped(Infix(Print(left, Level(op)), "", op, Print(right, Level(op) + 1)), k)
  }

  function Wrapped(t: Written, k: nat): Written {
    if Tightness(t) < k then Paren("", t, "") else t
  }

  lemma {:induction false} DigitsAppend(ds: string, c: char, base: nat, v: Long)
    ensures DigitsValue(ds + [c], base, v) == Wrap(DigitsValue(ds, base, v) * base + DigitOf(c))
  {
    hide Wrap, DigitOf;
    if ds == "" {
      assert ds + [c] == [c] && [c][1..] == "";
    } else {
      DigitsAppend(ds[1..], c, base, Wrap(v * base + DigitOf(ds[0])));
      assert (ds + [c])[1..] == ds[1..] + [c];
    }
  }

  lemma {:induction false} DecimalValue(n: nat)
    requires n < TWO63
    ensures DigitsValue(DecimalText(n), 10, 0) == n && DecimalText(n) != ""
    ensures forall c <- DecimalText(n) :: IsDigit(c, 10)
  {
    if n < 10 {
      assert [DigitChar(n)][1..] == "";
    } else {
      DecimalValue(n / 10);
      DigitsAppend(DecimalText(n / 10), DigitChar(n % 10), 10, 0);
    }
  }

  /** A printed tree is properly parenthesised, holds as tightly as wanted, and means what the tree means. */
  lemma {:induction false} PrintProper(e: Tree, k: nat)
    requires InRange(e) && k <= UNARY
    ensures Proper(Print(e, k)) && Tightness(Print(e, k)) >= k
    ensures Value(Print(e, k)) == Eval(e) && TreeOf(Print(e, k)) == e
  {
    match e {
      case Lit(n) => DecimalValue(n);
      case Un(_, arg) => PrintProper(arg, UNARY);
      case Bin(op, left, right) =>
        PrintProper(left, Level(op));
        PrintProper(right, Level(op) + 1);
    }
  }

  // ---- When a tree ends the program -----------------------------------------------------

  /** The divisions and modulos in a tree that have operands but no result, in the order of evaluation. */
  function Incidents(e: Tree): seq<Stop>
    requires InRange(e)
  {
    match e
    case Lit(_) => []
    case Un(_, arg) => Incidents(arg)
    case Bin(op, left, right) =>
      Incidents(left) + Incidents(right) +
      (if !Divides(op) || Eval(left).Stopped? || Eval(right).Stopped? then []
       else if Eval(right).value == 0 then [ZeroDivisor]
       else if Eval(left).value == -TWO63 && Eval(right).value == -1 then [DivideError]
       else [])
  }

  /**
   A tree has a value exactly when no division or modulo in it is by zero or of -2^63 by -1;
   otherwise the first of these decides whether calc fails or faults.
   */
  lemma {:induction false} StopsAtFirstIncident(e: Tree)
    requires InRange(e)
    ensures Eval(e).Got? <==> Incidents(e) == []
    ensures Eval(e).Stopped? ==> Eval(e).why == Incidents(e)[0]
  {
    hide Compute, ApplyUn;
    match e {
      case Lit(_) =>
      case Un(_, arg) => StopsAtFirstIncident(arg);
      case Bin(_, left, right) =>
        StopsAtFirstIncident(left);
        StopsAtFirstIncident(right);
    }
  }

  /**
   Every tree comes back from its shortest text with its value, unless some division or modulo
   in it is by zero or of -2^63 by -1; then calc fails or faults at the first of these.
   */
  lemma PrintReads(e: Tree)
    requires InRange(e)
    ensures var s := Text(Print(e, 0));
      ParseLevel(s, 0, 0) == match Eval(e) case Stopped(why) => Halt(why) case Got(v) => Ok(v, |s|)
    ensures var r := ParseLevel(Text(Print(e, 0)), 0, 0);
      (r.Ok? <==> Incidents(e) == []) && (r.Halt? ==> r.why == Incidents(e)[0])
  {
    hide ParseLevel, Text, Print, Eval, Incidents;
    StopsAtFirstIncident(e);
    PrintProper(e, 0);
    LineReads(Print(e, 0), "");
    assert Text(Print(e, 0)) + "" == Text(Print(e, 0));
  }

  /** (-9223372036854775807 - 1) / -1 is in range and has no zero divisor, but it faults. */
  lemma LongestQuotient(op: BinOp)
    requires Divides(op)
    ensures var e := Bin(op, Bin(Sub, Un(Minus, Lit(TWO63 - 1)), Lit(1)), Un(Minus, Lit(1)));
      InRange(e) && Eval(e) == Stopped(DivideError) && ParseLevel(Text(Print(e, 0)), 0, 0) == Halt(DivideError)
  {
    hide Compute, ParseLevel, Text, Print;
    var top, one := Un(Minus, Lit(TWO63 - 1)), Un(Minus, Lit(1));
    assert TWO63 == 0x8000_0000_0000_0000;
    assert InRange(Lit(1)) && InRange(Lit(TWO63 - 1));
    assert Eval(top) == Got(1 - TWO63) && Eval(one) == Got(-1);
    var min := Bin(Sub, top, Lit(1));
    assert InRange(min);
    assert Apply(Sub, 1 - TWO63, 1) == Got(-TWO63) by { Lowest(); }
    assert Eval(min) == Got(-TWO63);
    PrintReads(Bin(op, min, one));
  }

  lemma Lowest()
    ensures Apply(Sub, 1 - TWO63, 1) == Got(-TWO63)
  {
  }

  // ---- The printer wastes no parentheses ---------------------------------------------

  function Parens(t: Written): nat {
    match t
    case Number(_, _) => 0
    case Paren(_, inner, _) => 1 + Parens(inner)
    case Signed(_, _, arg) => Parens(arg)
    case Infix(left, _, _, right) => Parens(left) + Parens(right)
  }

  /** Any proper way to write the tree has at least as many. */
  lemma {:induction false} FewestParens(t: Written, k: nat)
    requires Proper(t) && Tightness(t) >= k && k <= UNARY
    ensures Parens(Print(TreeOf(t), k)) <= Parens(t)
    decreases t
  {
    match t {
      case Number(_, _) =>
      case Paren(_, inner, _) =>
        FewestParens(inner, 0);
        OnePair(TreeOf(inner), k);
      case Signed(_, _, arg) => FewestParens(arg, UNARY);
      case Infix(left, _, op, right) =>
        FewestParens(left, Level(op));
        FewestParens(right, Level(op) + 1);
    }
  }

  lemma OnePair(e: Tree, k: nat)
    ensures Parens(Print(e, k)) <= 1 + Parens(Print(e, 0))
  {
  }
}
