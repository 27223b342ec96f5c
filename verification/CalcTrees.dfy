/**
 Written expressions and what they mean.  A written expression keeps the blanks, the
 parentheses and the spelling of its numbers; the calculator reads every one of them back.
 */
module CalcTrees {
  import opened Options
  import opened CalcSpec

  /** The spelling of a number: a radix, its letter in either case, and the digits. */
  datatype Literal = Decimal(digits: string) | Prefixed(letter: char, digits: string)

  function Base(l: Literal): nat {
    match l
    case Decimal(_) => 10
    case Prefixed(c, _) => if c == 'x' || c == 'X' then 16 else if c == 'b' || c == 'B' then 2 else 8
  }

  predicate ProperLiteral(l: Literal) {
    && (forall c <- l.digits :: IsDigit(c, Base(l)))
    && match l
       case Decimal(ds) => ds != ""
       case Prefixed(c, _) => c == 'x' || c == 'X' || c == 'b' || c == 'B' || c == 'o' || c == 'O'
  }

  function PrefixText(l: Literal): string {
    match l case Decimal(_) => "" case Prefixed(c, _) => ['0', c]
  }

  function DigitsValue(ds: string, base: nat, v: Long): Long {
    if ds == "" then v else DigitsValue(ds[1..], base, Wrap(v * base + DigitOf(ds[0])))
  }

  datatype Written =
    | Number(gap: string, lit: Literal)
    | Paren(gap: string, inner: Written, close: string)
    | Signed(gap: string, un: UnOp, arg: Written)
    | Infix(left: Written, gap: string, op: BinOp, right: Written)

  function UnText(op: UnOp): string {
    match op case Minus => "-" case Not => "~" case Plus => "+"
  }

  function Text(t: Written): string {
    match t
    case Number(gap, lit) => gap + (PrefixText(lit) + lit.digits)
    case Paren(gap, inner, close) => gap + "(" + Text(inner) + (close + ")")
    case Signed(gap, un, arg) => gap + UnText(un) + Text(arg)
    case Infix(left, gap, op, right) => Text(left) + (gap + OpText(op)) + Text(right)
  }

  /** How tightly an expression holds together: a binary operator's level, 6 for a sign, 7 for the rest. */
  function Tightness(t: Written): nat {
    match t
    case Number(_, _) => 7
    case Paren(_, _, _) => 7
    case Signed(_, _, _) => UNARY
    case Infix(_, _, op, _) => Level(op)
  }

  predicate Blanks(s: string) {
    forall c <- s :: Blank(c)
  }

  /** Parentheses stand wherever the documented precedence and left associativity ask for them. */
  predicate Proper(t: Written) {
    match t
    case Number(gap, lit) => Blanks(gap) && ProperLiteral(lit)
    case Paren(gap, inner, close) => Blanks(gap) && Blanks(close) && Proper(inner)
    case Signed(gap, _, arg) => Blanks(gap) && Proper(arg) && Tightness(arg) >= UNARY
    case Infix(left, gap, op, right) =>
      Blanks(gap) && Proper(left) && Proper(right) && Tightness(left) >= Level(op) && Tightness(right) > Level(op)
  }

  function Value(t: Written): Result {
    match t
    case Number(_, lit) => Got(DigitsValue(lit.digits, Base(lit), 0))
    case Paren(_, inner, _) => Value(inner)
    case Signed(_, un, arg) => CombineUn(un, Value(arg))
    case Infix(left, _, op, right) => Combine(op, Value(left), Value(right))
  }

  // ---- Reading a text that stands inside a longer one ---------------------------------

  /** `t` stands in `s` at position `i`. */
  predicate Stands(s: string, i: nat, t: string) {
    i + |t| <= |s| && s[i..i + |t|] == t
  }

  lemma StandsSplit(s: string, i: nat, a: string, b: string)
    requires Stands(s, i, a + b)
    ensures Stands(s, i, a) && Stands(s, i + |a|, b)
  {
    assert s[i..i + |a|] == s[i..i + |a + b|][..|a|];
    assert s[i + |a|..i + |a| + |b|] == s[i..i + |a + b|][|a|..];
  }

  lemma StandsAt(s: string, i: nat, t: string, k: nat)
    requires Stands(s, i, t) && k < |t|
    ensures i + k < |s| && At(s, i + k) == t[k]
  {
    assert s[i..i + |t|][k] == s[i + k];
  }

  lemma {:induction false} SkipGap(s: string, i: nat, gap: string)
    requires Stands(s, i, gap) && Blanks(gap) && !Blank(At(s, i + |gap|))
    ensures SkipTo(s, i) == i + |gap|
    decreases |gap|
  {
    if gap != "" {
      StandsAt(s, i, gap, 0);
      assert gap == gap[..1] + gap[1..];
      StandsSplit(s, i, gap[..1], gap[1..]);
      SkipGap(s, i + 1, gap[1..]);
    }
  }

  /** A character that may stand behind an operand. */
  predicate Stop(c: char) {
    c in {' ', '\t', ')', '|', '^', '&', '<', '>', '+', '-', '*', '/', '%', '\0'}
  }

  /** What stands behind an operand of level `k`: no operator that binds tighter. */
  ghost predicate Follows(s: string, i: nat, k: nat) {
    && i <= |s| && Stop(At(s, i))
    && forall m: nat | k < m < UNARY :: OpAt(s, m, SkipTo(s, i)).None?
  }

  lemma {:induction false} DigitsRead(s: string, i: nat, ds: string, base: nat, v: Long)
    requires Stands(s, i, ds) && (forall c <- ds :: IsDigit(c, base)) && Stop(At(s, i + |ds|))
    ensures Digits(s, i, base, v) == (DigitsValue(ds, base, v), i + |ds|)
    decreases |ds|
  {
    hide Wrap;
    if ds != "" {
      StandsAt(s, i, ds, 0);
      assert ds == ds[..1] + ds[1..];
      StandsSplit(s, i, ds[..1], ds[1..]);
      DigitsRead(s, i + 1, ds[1..], base, Wrap(v * base + DigitOf(ds[0])));
    }
  }

  lemma PrefixRead(s: string, i: nat, lit: Literal)
    requires ProperLiteral(lit) && Stands(s, i, PrefixText(lit)) && Stands(s, i + |PrefixText(lit)|, lit.digits)
    requires Stop(At(s, i + |PrefixText(lit)| + |lit.digits|))
    ensures Prefix(s, i) == (Base(lit), |PrefixText(lit)|)
    ensures At(s, i) != '(' && !Blank(At(s, i)) && UnAt(s, i).None?
  {
    match lit {
      case Decimal(ds) =>
        StandsAt(s, i, ds, 0);
        assert ds[0] in lit.digits && IsDigit(ds[0], 10);
        if |ds| > 1 {
          StandsAt(s, i, ds, 1);
          assert ds[1] in lit.digits && IsDigit(ds[1], 10);
        }
      case Prefixed(c, _) =>
        StandsAt(s, i, PrefixText(lit), 0);
        StandsAt(s, i, PrefixText(lit), 1);
    }
  }

  lemma LiteralRead(s: string, i: nat, lit: Literal)
    requires ProperLiteral(lit) && Stands(s, i, PrefixText(lit) + lit.digits)
    requires Stop(At(s, i + |PrefixText(lit) + lit.digits|))
    ensures ParseNum(s, i) == (DigitsValue(lit.digits, Base(lit), 0), i + |PrefixText(lit) + lit.digits|)
    ensures At(s, i) != '(' && !Blank(At(s, i)) && UnAt(s, i).None?
  {
    hide Prefix, Digits, DigitsValue, IsDigit, UnAt;
    StandsSplit(s, i, PrefixText(lit), lit.digits);
    PrefixRead(s, i, lit);
    DigitsRead(s, i + |PrefixText(lit)|, lit.digits, Base(lit), 0);
  }

  // ---- The calculator reads every proper expression ---------------------------------

  /** How the routine of level `k` goes on once it has read an operand of value `v` that ends at `j`. */
  ghost function Outcome(s: string, k: nat, v: Result, j: nat): Parse
    requires k <= UNARY && j <= |s|
  {
    match v
    case Stopped(why) => Halt(why)
    case Got(x) => if k == UNARY then Ok(x, j) else ParseRest(s, k, x, j)
  }

  lemma OpRead(s: string, i: nat, op: BinOp)
    requires Stands(s, i, OpText(op))
    ensures OpAt(s, Level(op), i) == Some(op) && forall m: nat | m != Level(op) :: OpAt(s, m, i).None?
    ensures Stop(At(s, i)) && !Blank(At(s, i))
  {
    StandsAt(s, i, OpText(op), 0);
    if op == Shl || op == Shr { StandsAt(s, i, OpText(op), 1); }
  }

  lemma RestSkips(s: string, k: nat, v: Long, i: nat)
    requires i <= |s| && k < UNARY
    ensures ParseRest(s, k, v, SkipTo(s, i)) == ParseRest(s, k, v, i)
  {
    hide ParseLevel, Apply, OpAt, OpText;
  }

  /** One level further out nothing changes unless an operator of that level follows. */
  lemma Outward(s: string, k: nat, i: nat, v: Result, j: nat)
    requires i <= |s| && j <= |s| && k < UNARY && Follows(s, j, k) && ParseLevel(s, k + 1, i) == Outcome(s, k + 1, v, j)
    ensures ParseLevel(s, k, i) == Outcome(s, k, v, j)
  {
    hide ParseLevel, ParseRest, SkipTo, OpAt;
    LevelStarts(s, k, i);
    if v.Got? && k + 1 < UNARY {
      RestEnds(s, k + 1, v.value, j);
      RestSkips(s, k, v.value, j);
    }
  }

  lemma UnaryParts(s: string, i: nat, op: Option<UnOp>)
    requires i <= |s| && UnAt(s, SkipTo(s, i)) == op
    ensures op.None? ==> ParseLevel(s, UNARY, i) == ParsePrimary(s, SkipTo(s, i))
    ensures op.Some? ==> var r := ParseLevel(s, UNARY, SkipTo(s, i) + 1);
      ParseLevel(s, UNARY, i) == if r.Ok? then Ok(ApplyUn(op.value, r.v), r.next) else r
  {
    hide ParsePrimary, SkipTo, ApplyUn;
  }

  lemma SkipStays(s: string, i: nat)
    requires i <= |s| && !Blank(At(s, i))
    ensures SkipTo(s, i) == i
  {
  }

  lemma NumberReads(s: string, i: nat, gap: string, lit: Literal)
    requires Proper(Number(gap, lit)) && Stands(s, i, Text(Number(gap, lit)))
    requires Stop(At(s, i + |Text(Number(gap, lit))|))
    ensures ParseLevel(s, UNARY, i) == Ok(DigitsValue(lit.digits, Base(lit), 0), i + |Text(Number(gap, lit))|)
  {
    hide ParseLevel, ParsePrimary, ParseNum, SkipTo, DigitsValue, ProperLiteral, UnAt;
    var j := i + |gap|;
    StandsSplit(s, i, gap, PrefixText(lit) + lit.digits);
    LiteralRead(s, j, lit);
    SkipGap(s, i, gap);
    UnaryParts(s, i, None);
    SkipStays(s, j);
    PrimaryParts(s, j);
  }

  lemma {:induction false} Reads(t: Written, s: string, i: nat, k: nat)
    requires Proper(t) && Stands(s, i, Text(t)) && k <= UNARY && Tightness(t) >= k && Follows(s, i + |Text(t)|, k)
    ensures ParseLevel(s, k, i) == Outcome(s, k, Value(t), i + |Text(t)|)
    decreases t, 10 - k
  {
    hide ParseLevel, ParseRest, SkipTo, OpAt, Apply, ApplyUn, DigitsValue, Stands, Stop, ProperLiteral, Blanks;
    if k < UNARY && Tightness(t) > k {
      Reads(t, s, i, k + 1);
      Outward(s, k, i, Value(t), i + |Text(t)|);
    } else {
      match t {
        case Number(gap, lit) => NumberReads(s, i, gap, lit);
        case Paren(gap, inner, close) => ParenReads(t, s, i);
        case Signed(gap, un, arg) => SignedReads(t, s, i);
        case Infix(left, gap, op, right) => InfixReads(t, s, i);
      }
    }
  }

  lemma {:induction false} SignedReads(t: Written, s: string, i: nat)
    requires t.Signed? && Proper(t) && Stands(s, i, Text(t)) && Follows(s, i + |Text(t)|, UNARY)
    ensures ParseLevel(s, UNARY, i) == Outcome(s, UNARY, Value(t), i + |Text(t)|)
    decreases t, 0
  {
    hide ParseLevel, ParseRest, SkipTo, OpAt, ApplyUn, Text, Stands, Follows, UnAt;
    SignedStands(t, s, i);
    UnaryParts(s, i, Some(t.un));
    Reads(t.arg, s, i + |t.gap| + 1, UNARY);
  }

  lemma SignedStands(t: Written, s: string, i: nat)
    requires t.Signed? && Proper(t) && Stands(s, i, Text(t))
    ensures i + |t.gap| + 1 + |Text(t.arg)| == i + |Text(t)| <= |s| && Stands(s, i + |t.gap| + 1, Text(t.arg))
    ensures SkipTo(s, i) == i + |t.gap| && UnAt(s, SkipTo(s, i)) == Some(t.un)
  {
    hide SkipTo, Stands;
    var j := i + |t.gap|;
    assert Text(t) == t.gap + (UnText(t.un) + Text(t.arg));
    StandsSplit(s, i, t.gap, UnText(t.un) + Text(t.arg));
    StandsSplit(s, j, UnText(t.un), Text(t.arg));
    StandsAt(s, j, UnText(t.un), 0);
    SkipGap(s, i, t.gap);
    InText(s, i, Text(t));
  }

  lemma InText(s: string, i: nat, t: string)
    requires Stands(s, i, t)
    ensures i + |t| <= |s|
  {
  }

  lemma {:induction false} ParenReads(t: Written, s: string, i: nat)
    requires t.Paren? && Proper(t) && Stands(s, i, Text(t))
    ensures i + |Text(t)| <= |s| && ParseLevel(s, UNARY, i) == Outcome(s, UNARY, Value(t), i + |Text(t)|)
    decreases t, 0
  {
    hide ParseLevel, ParseRest, ParsePrimary, SkipTo, OpAt, Text, Stands, Follows, UnAt;
    ParenStands(t, s, i);
    var j := i + |t.gap|;
    var end := j + 1 + |Text(t.inner)|;
    UnaryParts(s, i, None);
    SkipStays(s, j);
    PrimaryParts(s, j);
    Closes(s, end, t.close);
    Reads(t.inner, s, j + 1, 0);
    if Value(t.inner).Got? { RestEnds(s, 0, Value(t.inner).value, end); }
    SkipStays(s, end + |t.close|);
  }

  lemma ParenStands(t: Written, s: string, i: nat)
    requires t.Paren? && Proper(t) && Stands(s, i, Text(t))
    ensures var j := i + |t.gap|; var end := j + 1 + |Text(t.inner)|;
      && end + |t.close| + 1 == i + |Text(t)| <= |s| && Stands(s, j + 1, Text(t.inner)) && Stands(s, end, t.close + ")")
      && SkipTo(s, i) == j && At(s, j) == '(' && UnAt(s, j).None?
  {
    hide SkipTo, Stands;
    var inner, j := Text(t.inner), i + |t.gap|;
    assert Text(t) == t.gap + ("(" + (inner + (t.close + ")")));
    StandsSplit(s, i, t.gap, "(" + (inner + (t.close + ")")));
    StandsSplit(s, j, "(", inner + (t.close + ")"));
    StandsAt(s, j, "(", 0);
    SkipGap(s, i, t.gap);
    StandsSplit(s, j + 1, inner, t.close + ")");
    InText(s, i, Text(t));
  }

  /** A closing parenthesis ends an expression of any level. */
  lemma Closes(s: string, i: nat, close: string)
    requires Stands(s, i, close + ")") && Blanks(close)
    ensures Follows(s, i, 0) && OpAt(s, 0, SkipTo(s, i)).None?
    ensures SkipTo(s, i) == i + |close| < |s| && At(s, i + |close|) == ')'
  {
    StandsSplit(s, i, close, ")");
    StandsAt(s, i + |close|, ")", 0);
    SkipGap(s, i, close);
    if close != "" { StandsAt(s, i, close, 0); }
  }

  lemma {:induction false} InfixReads(t: Written, s: string, i: nat)
    requires t.Infix? && Proper(t) && Stands(s, i, Text(t)) && Follows(s, i + |Text(t)|, Level(t.op))
    ensures ParseLevel(s, Level(t.op), i) == Outcome(s, Level(t.op), Value(t), i + |Text(t)|)
    decreases t, 0
  {
    hide ParseLevel, ParseRest, SkipTo, OpAt, Apply, Level, OpText, Stands, Text, Outcome, Blanks;
    var k, j := Level(t.op), i + |Text(t.left)|;
    var m := j + |t.gap| + |OpText(t.op)|;
    InfixStands(t, s, i);
    Joins(s, j, t.gap, t.op);
    Reads(t.left, s, i, k);
    Tighter(s, i + |Text(t)|, k);
    Reads(t.right, s, m, k + 1);
    InfixParses(s, k, i, j, m, i + |Text(t)|, Value(t.left), Value(t.right), t.op);
  }

  lemma Tighter(s: string, i: nat, k: nat)
    requires Follows(s, i, k)
    ensures Follows(s, i, k + 1)
  {
  }

  lemma InfixStands(t: Written, s: string, i: nat)
    requires t.Infix? && Stands(s, i, Text(t))
    ensures var j := i + |Text(t.left)|; var m := j + |t.gap| + |OpText(t.op)|;
      && Stands(s, i, Text(t.left)) && Stands(s, j, t.gap) && Stands(s, j + |t.gap|, OpText(t.op)) &&
        Stands(s, m, Text(t.right))
      && m + |Text(t.right)| == i + |Text(t)|
  {
    hide Stands, OpText;
    var left, right := Text(t.left), Text(t.right);
    assert Text(t) == left + ((t.gap + OpText(t.op)) + right);
    StandsSplit(s, i, left, (t.gap + OpText(t.op)) + right);
    StandsSplit(s, i + |left|, t.gap + OpText(t.op), right);
    StandsSplit(s, i + |left|, t.gap, OpText(t.op));
  }

  lemma InfixParses(s: string, k: nat, i: nat, j: nat, m: nat, end: nat, a: Result, b: Result, op: BinOp)
    requires i <= |s| && j <= |s| && m <= |s| && k < UNARY && Follows(s, end, k)
    requires ParseLevel(s, k, i) == Outcome(s, k, a, j) && ParseLevel(s, k + 1, m) == Outcome(s, k + 1, b, end)
    requires OpAt(s, k, SkipTo(s, j)) == Some(op) && m == SkipTo(s, j) + |OpText(op)|
    ensures ParseLevel(s, k, i) == Outcome(s, k, Combine(op, a, b), end)
  {
    hide ParseLevel, ParseRest, SkipTo, OpAt, Apply, OpText;
    if a.Got? {
      RestGoesOn(s, k, a.value, j, op);
      if b.Got? {
        if k + 1 < UNARY { RestEnds(s, k + 1, b.value, end); }
        var v := Apply(op, a.value, b.value);
        if v.Got? { RestSkips(s, k, v.value, end); }
      }
    }
  }

  /** An operator may follow an operand of its own level. */
  lemma Joins(s: string, i: nat, gap: string, op: BinOp)
    requires Stands(s, i, gap) && Blanks(gap) && Stands(s, i + |gap|, OpText(op))
    ensures Follows(s, i, Level(op)) && SkipTo(s, i) == i + |gap| && OpAt(s, Level(op), SkipTo(s, i)) == Some(op)
  {
    hide OpAt, OpText;
    OpRead(s, i + |gap|, op);
    SkipGap(s, i, gap);
    if gap != "" { StandsAt(s, i, gap, 0); }
  }
}
