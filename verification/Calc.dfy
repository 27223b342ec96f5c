/** userspace/calc.c: a recursive-descent calculator whose routines share one cursor. */
module Calc {
  import opened Options
  import opened CalcSpec

  class Calculator {
    const text: string
    var p: nat

    constructor (text: string)
      ensures this.text == text && p == 0
    {
      this.text, p := text, 0;
    }

    /** A routine that returned `r` with the cursor at `at` did what its function says. */
    ghost predicate Matches(r: Result, at: nat, spec: Parse, from: nat) {
      && from <= at <= |text|
      && match r case Stopped(why) => spec == Halt(why) case Got(v) => spec == Ok(v, at)
    }

    method Skip()
      requires p <= |text|
      modifies this`p
      ensures p == SkipTo(text, old(p))
    {
      while Blank(At(text, p))
        invariant old(p) <= p <= |text| && SkipTo(text, old(p)) == SkipTo(text, p)
        decreases |text| - p
      {
        p := p + 1;
      }
    }

    /** The digit loops of parse_num. */
    method ReadDigits(base: nat) returns (v: Long)
      requires p <= |text| && base <= 16
      modifies this`p
      ensures (v, p) == Digits(text, old(p), base, 0)
    {
      v := 0;
      while IsDigit(At(text, p), base)
        invariant old(p) <= p <= |text| && Digits(text, old(p), base, 0) == Digits(text, p, base, v)
        decreases |text| - p
      {
        v := Wrap(v * base + DigitOf(At(text, p)));
        p := p + 1;
      }
    }

    method Number() returns (v: Long)
      requires p <= |text|
      modifies this`p
      ensures (v, p) == ParseNum(text, old(p))
    {
      Skip();
      var first, second := At(text, p), At(text, p + 1);
      if first == '0' && (second == 'x' || second == 'X') {
        p := p + 2;
        v := ReadDigits(16);
      } else if first == '0' && (second == 'b' || second == 'B') {
        p := p + 2;
        v := ReadDigits(2);
      } else if first == '0' && (second == 'o' || second == 'O') {
        p := p + 2;
        v := ReadDigits(8);
      } else {
        v := ReadDigits(10);
      }
    }

    method Primary() returns (r: Result)
      requires p <= |text|
      modifies this`p
      ensures Matches(r, p, ParsePrimary(text, old(p)), old(p))
      decreases |text| - p, 1
    {
      hide ParseLevel, ParsePrimary, SkipTo, ParseNum;
      PrimaryParts(text, p);
      Skip();
      if At(text, p) == '(' {
        p := p + 1;
        r := Expr();
        if r.Stopped? { return; }
        Skip();
        if At(text, p) == ')' { p := p + 1; }
        return;
      }
      var v := Number();
      return Got(v);
    }

    method Unary() returns (r: Result)
      requires p <= |text|
      modifies this`p
      ensures Matches(r, p, ParseLevel(text, UNARY, old(p)), old(p))
      decreases |text| - p, 2
    {
      Skip();
      var op := UnAt(text, p);
      match op {
        case None =>
          r := Primary();
        case Some(o) =>
          p := p + 1;
          r := Unary();
          r := CombineUn(o, r);
      }
    }

    method Mul() returns (r: Result)
      requires p <= |text|
      modifies this`p
      ensures Matches(r, p, ParseLevel(text, 5, old(p)), old(p))
      decreases |text| - p, 5
    {
      hide ParseLevel, ParseRest, Compute, SkipTo, ParseUnary;
      LevelStarts(text, 5, p);
      r := Unary();
      if r.Stopped? { return; }
      var v := r.value;
      while true
        invariant old(p) <= p <= |text| && ParseLevel(text, 5, old(p)) == ParseRest(text, 5, v, p)
        decreases |text| - p
      {
        ghost var q := p;
        Skip();
        if At(text, p) == '*' {
          RestGoesOn(text, 5, v, q, BinOp.Mul);
          p := p + 1;
          r := Unary();
          if r.Stopped? { return; }
          v := Apply(BinOp.Mul, v, r.value).value;
        } else if At(text, p) == '/' {
          RestGoesOn(text, 5, v, q, Div);
          p := p + 1;
          r := Unary();
          if r.Stopped? { return; }
          if r.value == 0 { return Stopped(ZeroDivisor); }
          r := Apply(Div, v, r.value);
          if r.Stopped? { return; }   // the divide error
          v := r.value;
        } else if At(text, p) == '%' {
          RestGoesOn(text, 5, v, q, Mod);
          p := p + 1;
          r := Unary();
          if r.Stopped? { return; }
          if r.value == 0 { return Stopped(ZeroDivisor); }
          r := Apply(Mod, v, r.value);
          if r.Stopped? { return; }   // the divide error
          v := r.value;
        } else {
          RestEnds(text, 5, v, q);
          return Got(v);
        }
      }
    }

    method Add() returns (r: Result)
      requires p <= |text|
      modifies this`p
      ensures Matches(r, p, ParseLevel(text, 4, old(p)), old(p))
      decreases |text| - p, 6
    {
      hide ParseLevel, ParseRest, Compute, SkipTo, ParseUnary;
      LevelStarts(text, 4, p);
      r := Mul();
      if r.Stopped? { return; }
      var v := r.value;
      while true
        invariant old(p) <= p <= |text| && ParseLevel(text, 4, old(p)) == ParseRest(text, 4, v, p)
        decreases |text| - p
      {
        ghost var q := p;
        Skip();
        if At(text, p) == '+' {
          RestGoesOn(text, 4, v, q, BinOp.Add);
          p := p + 1;
          r := Mul();
          if r.Stopped? { return; }
          v := Apply(BinOp.Add, v, r.value).value;
        } else if At(text, p) == '-' {
          RestGoesOn(text, 4, v, q, Sub);
          p := p + 1;
          r := Mul();
          if r.Stopped? { return; }
          v := Apply(Sub, v, r.value).value;
        } else {
          RestEnds(text, 4, v, q);
          return Got(v);
        }
      }
    }

    method Shift() returns (r: Result)
      requires p <= |text|
      modifies this`p
      ensures Matches(r, p, ParseLevel(text, 3, old(p)), old(p))
      decreases |text| - p, 7
    {
      hide ParseLevel, ParseRest, Compute, SkipTo, ParseUnary;
      LevelStarts(text, 3, p);
      r := Add();
      if r.Stopped? { return; }
      var v := r.value;
      while true
        invariant old(p) <= p <= |text| && ParseLevel(text, 3, old(p)) == ParseRest(text, 3, v, p)
        decreases |text| - p
      {
        ghost var q := p;
        Skip();
        if At(text, p) == '<' && At(text, p + 1) == '<' {
          RestGoesOn(text, 3, v, q, Shl);
          p := p + 2;
          r := Add();
          if r.Stopped? { return; }
          v := Apply(Shl, v, r.value).value;
        } else if At(text, p) == '>' && At(text, p + 1) == '>' {
          RestGoesOn(text, 3, v, q, Shr);
          p := p + 2;
          r := Add();
          if r.Stopped? { return; }
          v := Apply(Shr, v, r.value).value;
        } else {
          RestEnds(text, 3, v, q);
          return Got(v);
        }
      }
    }

    method BitAnd() returns (r: Result)
      requires p <= |text|
      modifies this`p
      ensures Matches(r, p, ParseLevel(text, 2, old(p)), old(p))
      decreases |text| - p, 8
    {
      hide ParseLevel, ParseRest, Compute, SkipTo, ParseUnary;
      LevelStarts(text, 2, p);
      r := Shift();
      if r.Stopped? { return; }
      var v := r.value;
      while true
        invariant old(p) <= p <= |text| && ParseLevel(text, 2, old(p)) == ParseRest(text, 2, v, p)
        decreases |text| - p
      {
        ghost var q := p;
        Skip();
        if At(text, p) == '&' {
          RestGoesOn(text, 2, v, q, And);
          p := p + 1;
          r := Shift();
          if r.Stopped? { return; }
          v := Apply(And, v, r.value).value;
        } else {
          RestEnds(text, 2, v, q);
          return Got(v);
        }
      }
    }

    method BitXor() returns (r: Result)
      requires p <= |text|
      modifies this`p
      ensures Matches(r, p, ParseLevel(text, 1, old(p)), old(p))
      decreases |text| - p, 9
    {
      hide ParseLevel, ParseRest, Compute, SkipTo, ParseUnary;
      LevelStarts(text, 1, p);
      r := BitAnd();
      if r.Stopped? { return; }
      var v := r.value;
      while true
        invariant old(p) <= p <= |text| && ParseLevel(text, 1, old(p)) == ParseRest(text, 1, v, p)
        decreases |text| - p
      {
        ghost var q := p;
        Skip();
        if At(text, p) == '^' {
          RestGoesOn(text, 1, v, q, Xor);
          p := p + 1;
          r := BitAnd();
          if r.Stopped? { return; }
          v := Apply(Xor, v, r.value).value;
        } else {
          RestEnds(text, 1, v, q);
          return Got(v);
        }
      }
    }

    method Expr() returns (r: Result)
      requires p <= |text|
      modifies this`p
      ensures Matches(r, p, ParseLevel(text, 0, old(p)), old(p))
      decreases |text| - p, 10
    {
      hide ParseLevel, ParseRest, Compute, SkipTo, ParseUnary;
      LevelStarts(text, 0, p);
      r := BitXor();
      if r.Stopped? { return; }
      var v := r.value;
      while true
        invariant old(p) <= p <= |text| && ParseLevel(text, 0, old(p)) == ParseRest(text, 0, v, p)
        decreases |text| - p
      {
        ghost var q := p;
        Skip();
        if At(text, p) == '|' {
          RestGoesOn(text, 0, v, q, Or);
          p := p + 1;
          r := BitXor();
          if r.Stopped? { return; }
          v := Apply(Or, v, r.value).value;
        } else {
          RestEnds(text, 0, v, q);
          return Got(v);
        }
      }
    }
  }
}
