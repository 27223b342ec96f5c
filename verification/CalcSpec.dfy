/** userspace/calc.c as functions: what each parsing routine makes of the text from a position on. */
module CalcSpec {
  import opened Options
  import opened Arithmetic

  // ---- 64-bit arithmetic ---------------------------------------------------------------

  const TWO63: int := 0x8000_0000_0000_0000
  const TWO64: int := 0x1_0000_0000_0000_0000

  /** A C long. */
  type Long = x: int | -0x8000_0000_0000_0000 <= x < 0x8000_0000_0000_0000

  function Wrap(x: int): (r: Long)
    ensures -TWO63 <= x < TWO63 ==> r == x
  {
    (x + TWO63) % TWO64 - TWO63
  }

  /** Bit `k` of an integer in two's complement. */
  predicate BitOf(x: int, k: nat) {
    x / Pow2(k) % 2 == 1
  }

  predicate BitResult(op: BinOp, x: bool, y: bool) {
    match op case Or => x || y case Xor => x != y case And => x && y case _ => false
  }

  /** The number whose lowest `n` bits are those of `a` and `b`, combined bit by bit. */
  function Bitwise(op: BinOp, a: int, b: int, n: nat): nat {
    if n == 0 then 0
    else Bitwise(op, a, b, n - 1) + if BitResult(op, BitOf(a, n - 1), BitOf(b, n - 1)) then Pow2(n - 1) else 0
  }

  /** C division rounds toward zero. */
  function Quot(a: int, b: int): int
    requires b != 0
  {
    if a >= 0 then a / b else -((-a) / b)
  }

  datatype BinOp = Or | Xor | And | Shl | Shr | Add | Sub | Mul | Div | Mod
  datatype UnOp = Minus | Not | Plus

  /**
   What ends the program: calcfail for a zero divisor, and the divide error that the
   processor raises when the quotient, 2^63, does not fit.
   */
  datatype Stop = ZeroDivisor | DivideError

  datatype Result = Got(value: Long) | Stopped(why: Stop)

  predicate Divides(op: BinOp) {
    op == Div || op == Mod
  }

  /** The one quotient of two longs that is no long. */
  predicate Unfit(a: Long, b: Long) {
    a == -TWO63 && b == -1
  }

  function Compute(op: BinOp, a: Long, b: Long): Long
    requires Divides(op) ==> b != 0
  {
    match op
    case Or => Wrap(Bitwise(Or, a, b, 64))
    case Xor => Wrap(Bitwise(Xor, a, b, 64))
    case And => Wrap(Bitwise(And, a, b, 64))
    case Shl => Wrap(a * Pow2(b % 64))
    case Shr => Wrap(a / Pow2(b % 64))
    case Add => Wrap(a + b)
    case Sub => Wrap(a - b)
    case Mul => Wrap(a * b)
    case Div => Wrap(Quot(a, b))
    case Mod => Wrap(a - b * Quot(a, b))
  }

  /** A binary operator; division and modulo have no result for a zero divisor or a quotient that does not fit. */
  function Apply(op: BinOp, a: Long, b: Long): (r: Result)
    ensures r.Stopped? <==> Divides(op) && (b == 0 || Unfit(a, b))
  {
    if Divides(op) && b == 0 then Stopped(ZeroDivisor)
    else if Divides(op) && Unfit(a, b) then Stopped(DivideError)
    else Got(Compute(op, a, b))
  }

  /** Operands are evaluated from left to right, and the first one that ends the program ends it. */
  function Combine(op: BinOp, a: Result, b: Result): Result {
    if a.Stopped? then a else if b.Stopped? then b else Apply(op, a.value, b.value)
  }

  function CombineUn(op: UnOp, a: Result): Result {
    if a.Stopped? then a else Got(ApplyUn(op, a.value))
  }

  function ApplyUn(op: UnOp, a: Long): Long {
    var x: int := a;
    match op case Minus => Wrap(0 - x) case Not => Wrap(0 - x - 1) case Plus => a
  }

  // ---- Characters --------------------------------------------------------------------------

  /** The character at a position; the text ends in NUL. */
  function At(s: string, i: nat): char {
    if i < |s| then s[i] else '\0'
  }

  predicate Blank(c: char) {
    c == ' ' || c == '\t'
  }

  function SkipTo(s: string, i: nat): (j: nat)
    requires i <= |s|
    ensures i <= j <= |s| && !Blank(At(s, j)) && forall k | i <= k < j :: Blank(s[k])
    decreases |s| - i
  {
    if Blank(At(s, i)) then SkipTo(s, i + 1) else i
  }

  function DigitOf(c: char): (d: int)
    ensures -1 <= d < 16
  {
    if '0' <= c <= '9' then c as int - '0' as int
    else if 'a' <= c <= 'f' then c as int - 'a' as int + 10
    else if 'A' <= c <= 'F' then c as int - 'A' as int + 10
    else -1
  }

  predicate IsDigit(c: char, base: nat) {
    0 <= DigitOf(c) < base
  }

  /** The digits from `i` on, accumulated onto `v`. */
  function Digits(s: string, i: nat, base: nat, v: Long): (r: (Long, nat))
    requires i <= |s|
    ensures i <= r.1 <= |s|
    decreases |s| - i
  {
    if i < |s| && IsDigit(s[i], base) then Digits(s, i + 1, base, Wrap(v * base + DigitOf(s[i]))) else (v, i)
  }

  /** The base a literal's prefix announces, and how long that prefix is. */
  function Prefix(s: string, i: nat): (nat, nat) {
    if At(s, i) == '0' && At(s, i + 1) in {'x', 'X'} then (16, 2)
    else if At(s, i) == '0' && At(s, i + 1) in {'b', 'B'} then (2, 2)
    else if At(s, i) == '0' && At(s, i + 1) in {'o', 'O'} then (8, 2)
    else (10, 0)
  }

  function ParseNum(s: string, i: nat): (r: (Long, nat))
    requires i <= |s|
    ensures i <= r.1 <= |s|
  {
    var j := SkipTo(s, i);
    var (base, len) := Prefix(s, j);
    Digits(s, j + len, base, 0)
  }

  // ---- Operators --------------------------------------------------------------------------

  /** The levels of the binary operators, loosest first; unary operators bind at level 6. */
  const UNARY: nat := 6

  function Level(op: BinOp): (k: nat)
    ensures k < UNARY
  {
    match op
    case Or => 0 case Xor => 1 case And => 2
    case Shl => 3 case Shr => 3
    case Add => 4 case Sub => 4
    case Mul => 5 case Div => 5 case Mod => 5
  }

  function OpText(op: BinOp): (t: string)
    ensures 1 <= |t| <= 2
  {
    match op
    case Or => "|" case Xor => "^" case And => "&"
    case Shl => "<<" case Shr => ">>"
    case Add => "+" case Sub => "-"
    case Mul => "*" case Div => "/" case Mod => "%"
  }

  /** The operator of level `k` at position `i`. */
  function OpAt(s: string, k: nat, i: nat): (op: Option<BinOp>)
    ensures op.Some? ==> Level(op.value) == k && i + |OpText(op.value)| <= |s|
  {
    match k
    case 0 => if At(s, i) == '|' then Some(Or) else None
    case 1 => if At(s, i) == '^' then Some(Xor) else None
    case 2 => if At(s, i) == '&' then Some(And) else None
    case 3 =>
      if At(s, i) == '<' && At(s, i + 1) == '<' then Some(Shl)
      else if At(s, i) == '>' && At(s, i + 1) == '>' then Some(Shr) else None
    case 4 => if At(s, i) == '+' then Some(Add) else if At(s, i) == '-' then Some(Sub) else None
    case 5 =>
      if At(s, i) == '*' then Some(Mul)
      else if At(s, i) == '/' then Some(Div)
      else if At(s, i) == '%' then Some(Mod)
      else None
    case _ => None
  }

  function UnAt(s: string, i: nat): (op: Option<UnOp>)
    ensures op.Some? ==> i < |s|
  {
    if At(s, i) == '-' then Some(Minus)
    else if At(s, i) == '~' then Some(Not)
    else if At(s, i) == '+' then Some(Plus)
    else None
  }

  // ---- The grammar --------------------------------------------------------------------------

  /** A value and where the text goes on, or the end of the program. */
  datatype Parse = Halt(why: Stop) | Ok(v: Long, next: nat)

  ghost predicate Within(r: Parse, i: nat, s: string) {
    r.Ok? ==> i <= r.next <= |s|
  }

  /** The routine of level `k`: expr, bit_xor, bit_and, shift, add, mul, and unary at 6. */
  function ParseLevel(s: string, k: nat, i: nat): (r: Parse)
    requires i <= |s| && k <= UNARY
    ensures Within(r, i, s)
    decreases |s| - i, 10 - k
  {
    if k == UNARY then ParseUnary(s, i)
    else match ParseLevel(s, k + 1, i)
      case Halt(why) => Halt(why)
      case Ok(v, j) => ParseRest(s, k, v, j)
  }

  /** The loop of that routine, with `v` so far. */
  function ParseRest(s: string, k: nat, v: Long, i: nat): (r: Parse)
    requires i <= |s| && k < UNARY
    ensures Within(r, i, s)
    decreases |s| - i, 0
  {
    var j := SkipTo(s, i);
    match OpAt(s, k, j)
    case None => Ok(v, j)
    case Some(op) =>
      match ParseLevel(s, k + 1, j + |OpText(op)|)
      case Halt(why) => Halt(why)
      case Ok(w, m) =>
        match Apply(op, v, w)
        case Stopped(why) => Halt(why)
        case Got(x) => ParseRest(s, k, x, m)
  }

  function ParseUnary(s: string, i: nat): (r: Parse)
    requires i <= |s|
    ensures Within(r, i, s)
    decreases |s| - i, 2
  {
    var j := SkipTo(s, i);
    match UnAt(s, j)
    case None => ParsePrimary(s, j)
    case Some(op) =>
      match ParseUnary(s, j + 1)
      case Halt(why) => Halt(why)
      case Ok(v, m) => Ok(ApplyUn(op, v), m)
  }

  function ParsePrimary(s: string, i: nat): (r: Parse)
    requires i <= |s|
    ensures Within(r, i, s)
    decreases |s| - i, 1
  {
    var j := SkipTo(s, i);
    if At(s, j) == '(' then
      match ParseLevel(s, 0, j + 1)
      case Halt(why) => Halt(why)
      case Ok(v, m) =>
        var n := SkipTo(s, m);
        Ok(v, if At(s, n) == ')' then n + 1 else n)
    else
      var (v, m) := ParseNum(s, j);
      Ok(v, m)
  }

  lemma LevelStarts(s: string, k: nat, i: nat)
    requires i <= |s| && k < UNARY
    ensures match ParseLevel(s, k + 1, i)
      case Halt(why) => ParseLevel(s, k, i) == Halt(why)
      case Ok(v, j) => ParseLevel(s, k, i) == ParseRest(s, k, v, j)
  {
  }

  lemma RestEnds(s: string, k: nat, v: Long, i: nat)
    requires i <= |s| && k < UNARY && OpAt(s, k, SkipTo(s, i)).None?
    ensures ParseRest(s, k, v, i) == Ok(v, SkipTo(s, i))
  {
  }

  lemma RestGoesOn(s: string, k: nat, v: Long, i: nat, op: BinOp)
    requires i <= |s| && k < UNARY && OpAt(s, k, SkipTo(s, i)) == Some(op)
    ensures var r := ParseLevel(s, k + 1, SkipTo(s, i) + |OpText(op)|);
      && (r.Halt? ==> ParseRest(s, k, v, i) == r)
      && (r.Ok? && Apply(op, v, r.v).Stopped? ==> ParseRest(s, k, v, i) == Halt(Apply(op, v, r.v).why))
      && (r.Ok? && Apply(op, v, r.v).Got? ==>
            ParseRest(s, k, v, i) == ParseRest(s, k, Apply(op, v, r.v).value, r.next))
  {
    hide Apply, ParseLevel, SkipTo, OpAt, OpText;
  }

  lemma PrimaryParts(s: string, i: nat)
    requires i <= |s|
    ensures var j := SkipTo(s, i);
      && (At(s, j) != '(' ==> ParsePrimary(s, i) == Ok(ParseNum(s, j).0, ParseNum(s, j).1))
      && (At(s, j) == '(' ==>
            var r := ParseLevel(s, 0, j + 1);
            && (r.Halt? ==> ParsePrimary(s, i) == r)
            && (r.Ok? ==>
                  var n := SkipTo(s, r.next);
                  ParsePrimary(s, i) == Ok(r.v, if At(s, n) == ')' then n + 1 else n)))
  {
    hide ParseLevel, ParseNum, SkipTo;
  }
}
