/** What the Base64 programs promise together. */
module Base64Theorems {
  import opened Bytes
  import opened Arithmetic
  import opened Base64

  lemma ValsCons(c: char, s: string)
    ensures Vals([c] + s) == if Val(c) < 0 then Vals(s) else [Val(c)] + Vals(s)
  {
    assert ([c] + s)[1..] == s;
  }

  /** One more character in front of both. */
  lemma ValsMore(c: char, a: string, b: string)
    requires Vals(a + b) == Vals(a) + Vals(b)
    ensures Vals([c] + (a + b)) == Vals([c] + a) + Vals(b)
  {
    hide Vals, Val;
    ValsCons(c, a);
    ValsCons(c, a + b);
  }

  lemma {:induction false} ValsAppend(a: string, b: string)
    ensures Vals(a + b) == Vals(a) + Vals(b)
  {
    if a == "" {
      assert a + b == b;
    } else {
      hide Vals;
      ValsAppend(a[1..], b);
      ValsMore(a[0], a[1..], b);
      assert [a[0]] + a[1..] == a && [a[0]] + (a[1..] + b) == a + b;
    }
  }

  // ---- Decoding what was encoded ---------------------------------------------------------

  /** A number below 2^24 is the number its four base-64 digits form. */
  lemma DigitsForm(n: nat)
    requires n < 0x100_0000
    ensures Digit(n, 0) * 0x4_0000 + Digit(n, 1) * 0x1000 + Digit(n, 2) * 0x40 + Digit(n, 3) == n
  {
    var a, b := n / 0x40, n / 0x1000;
    assert b == a / 64;
    assert n / 0x4_0000 == b / 64;
    assert n == a * 64 + n % 64 && a == b * 64 + a % 64 && b == b / 64 * 64 + b % 64;
    assert n / 0x4_0000 % 64 == n / 0x4_0000;
  }

  /** The values a group's text carries. */
  function GroupVals(b: seq<byte>): (v: seq<Sextet>)
    requires 1 <= |b| <= 3
    ensures |v| == |b| + 1
  {
    var n := Join(b);
    [Digit(n, 0), Digit(n, 1)] + (if |b| > 1 then [Digit(n, 2)] else []) + (if |b| > 2 then [Digit(n, 3)] else [])
  }

  lemma QuadVals(b: seq<byte>)
    requires 1 <= |b| <= 3
    ensures Vals(Quad(b)) == GroupVals(b)
  {
    hide Digit, Join, Letter;
    var q, v := Quad(b), GroupVals(b);
    assert q == [q[0]] + ([q[1]] + ([q[2]] + ([q[3]] + "")));
    ValsCons(q[0], [q[1]] + ([q[2]] + ([q[3]] + "")));
    ValsCons(q[1], [q[2]] + ([q[3]] + ""));
    ValsCons(q[2], [q[3]] + "");
    ValsCons(q[3], "");
  }

  lemma BytesOf(x: int, y: int, z: int)
    requires 0 <= x < 256 && 0 <= y < 256 && 0 <= z < 256
    ensures var n := x * 0x1_0000 + y * 0x100 + z;
      n < 0x100_0000 && n / 0x1_0000 % 256 == x && n / 0x100 % 256 == y && n % 256 == z
  {
    var n := x * 0x1_0000 + y * 0x100 + z;
    Division(n, 0x1_0000, x, y * 0x100 + z);
    Division(n, 0x100, x * 256 + y, z);
    Division(x * 256 + y, 256, x, y);
  }

  /** The padding loses nothing: the digits it leaves out are zero. */
  lemma TotalIsJoin(b: seq<byte>)
    requires 1 <= |b| <= 3
    ensures Total(GroupVals(b)) == Join(b)
  {
    hide Digit;
    var n := Join(b);
    BytesOf(Nth(b, 0), Nth(b, 1), Nth(b, 2));
    DigitsForm(n);
    Fields(Nth(b, 0), Nth(b, 1), Nth(b, 2));
    if |b| < 3 { assert Digit(n, 3) == 0 by { LastDigits(n, Nth(b, 1), Nth(b, 2)); } }
    if |b| < 2 { assert Digit(n, 2) == 0 by { LastDigits(n, Nth(b, 1), Nth(b, 2)); } }
  }

  lemma LastDigits(n: nat, y: int, z: int)
    requires n / 0x40 % 64 == y % 16 * 4 + z / 64 && n % 64 == z % 64
    ensures z == 0 ==> Digit(n, 3) == 0
    ensures y == 0 && z == 0 ==> Digit(n, 2) == 0
  {
  }

  lemma GroupBack(b: seq<byte>)
    requires 1 <= |b| <= 3
    ensures Group(GroupVals(b)) == b
  {
    hide Digit;
    TotalIsJoin(b);
    BytesOf(Nth(b, 0), Nth(b, 1), Nth(b, 2));
  }

  lemma {:induction false} EncodeVals(data: seq<byte>, col: nat)
    ensures Decode(Vals(Encode(data, col))) == data
    decreases |data|
  {
    hide Quad, Group, Val, GroupVals, Decode, Vals;
    if |data| >= 3 {
      var g, rest := data[..3], data[3..];
      var next := if col + 4 >= COLUMNS then 0 else col + 4;
      var gap := if col + 4 >= COLUMNS then "\n" else "";
      EncodeVals(rest, next);
      EncodeSteps(g, rest, col);
      assert data == g + rest && [] + rest == rest && "" + Encode(rest, next) == Encode(rest, next);
      assert Encode(data, col) == Quad(g) + (gap + Encode(rest, next));
      ValsAppend(Quad(g), gap + Encode(rest, next));
      Skips(gap, Encode(rest, next));
      QuadVals(g);
      GroupBack(g);
      DecodeSteps(GroupVals(g), Vals(Encode(rest, next)));
      assert [] + Vals(Encode(rest, next)) == Vals(Encode(rest, next));
    } else {
      EncodeEnds(data, col);
      assert "\n" + "" == "\n";
      if data != [] {
        ValsAppend(Quad(data), "\n");
        Skips("\n", "");
        QuadVals(data);
        GroupBack(data);
        DecodeEnds(GroupVals(data));
        assert Vals(Quad(data)) + [] == Vals(Quad(data));
      } else {
        Skips("\n", "");
        DecodeEnds([]);
      }
    }
  }

  lemma Skips(gap: string, s: string)
    requires gap == "" || gap == "\n"
    ensures Vals(gap + s) == Vals(s) && Vals("") == []
  {
    if gap == "" { assert gap + s == s; } else { ValsCons('\n', s); }
  }

  /** Decoding the encoder's output gives back the input, whatever it is. */
  lemma RoundTrip(data: seq<byte>)
    ensures Decode(Vals(Encode(data, 0))) == data
  {
    EncodeVals(data, 0);
  }

  // ---- Foreign characters ----------------------------------------------------------------

  lemma {:induction false} NoVals(junk: string)
    requires forall c <- junk :: Val(c) < 0
    ensures Vals(junk) == []
  {
    if junk != "" { NoVals(junk[1..]); }
  }

  /** Characters outside the alphabet make no difference, wherever they stand. */
  lemma JunkIgnored(a: string, junk: string, b: string)
    requires forall c <- junk :: Val(c) < 0
    ensures Decode(Vals(a + junk + b)) == Decode(Vals(a + b))
  {
    hide Decode;
    NoVals(junk);
    ValsAppend(a + junk, b);
    ValsAppend(a, junk);
    ValsAppend(a, b);
    assert Vals(a) + [] == Vals(a);
  }

  // ---- Lines ------------------------------------------------------------------------------

  /** The lines of a text; the last one is what follows the last line break. */
  function Lines(s: string): (r: seq<string>)
    ensures |r| > 0
  {
    if s == "" then [""]
    else if s[0] == '\n' then [""] + Lines(s[1..])
    else [[s[0]] + Lines(s[1..])[0]] + Lines(s[1..])[1..]
  }

  lemma LinesMore(c: char, s: string)
    requires c != '\n'
    ensures Lines([c] + s) == [[c] + Lines(s)[0]] + Lines(s)[1..]
  {
    assert ([c] + s)[1..] == s;
  }

  lemma {:induction false} LinesAppend(a: string, s: string)
    requires '\n' !in a
    ensures Lines(a + s) == [a + Lines(s)[0]] + Lines(s)[1..]
  {
    hide Lines;
    if a == "" {
      assert a + s == s && "" + Lines(s)[0] == Lines(s)[0];
    } else {
      LinesAppend(a[1..], s);
      LinesMore(a[0], a[1..] + s);
      assert [a[0]] + (a[1..] + s) == a + s && [a[0]] + (a[1..] + Lines(s)[0]) == a + Lines(s)[0];
    }
  }

  predicate GoodLine(n: nat) {
    n <= COLUMNS && n % 4 == 0
  }

  /** Encoded lines, the first of which begins at column `col`, are short, whole and ended by a line break. */
  lemma {:induction false} EncodeLines(data: seq<byte>, col: nat)
    requires col < COLUMNS && col % 4 == 0
    ensures var ls := Lines(Encode(data, col));
      GoodLine(col + |ls[0]|) && (forall i | 1 <= i < |ls| :: GoodLine(|ls[i]|)) && ls[|ls| - 1] == "" &&
        (|ls| == 1 ==> data == [] && col == 0)
    decreases |data|
  {
    hide Quad, Lines, Encode;
    if |data| >= 3 {
      var g, rest := data[..3], data[3..];
      assert data == g + rest && [] + rest == rest;
      EncodeSteps(g, rest, col);
      if col + 4 >= COLUMNS {
        EncodeLines(rest, 0);
        LineBreak(Encode(rest, 0));
        LinesAppend(Quad(g), "\n" + Encode(rest, 0));
      } else {
        EncodeLines(rest, col + 4);
        LinesAppend(Quad(g), Encode(rest, col + 4));
      }
    } else {
      EncodeEnds(data, col);
      LineBreak("");
      assert "\n" + "" == "\n";
      if data != [] { LinesAppend(Quad(data), "\n"); }
    }
  }

  lemma LineBreak(s: string)
    ensures Lines("\n" + s) == [""] + Lines(s) && Lines("") == [""]
  {
    assert ("\n" + s)[1..] == s;
  }

  lemma NoLines()
    ensures Lines(Encode([], 0)) == [""]
  {
  }

  /** Every output line has at most 76 characters, a multiple of four of them, and ends in a line break. */
  lemma ShortLines(data: seq<byte>)
    ensures var ls := Lines(Encode(data, 0));
      (forall l <- ls :: |l| <= 76 && |l| % 4 == 0) && ls[|ls| - 1] == "" && (|ls| == 1 <==> data == [])
  {
    hide Lines, Encode;
    EncodeLines(data, 0);
    NoLines();
    var ls := Lines(Encode(data, 0));
    forall l <- ls ensures GoodLine(|l|) {
      var i :| 0 <= i < |ls| && ls[i] == l;
    }
  }
}
