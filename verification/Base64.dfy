/**
 userspace/base64.c: the encoder and decoder of RFC 4648 section 4, with the line length
 of RFC 2045 section 6.8.  Bit fields are written as quotients and remainders.
 */
module Base64 {
  import opened Bytes
  import opened Arithmetic

  const COLUMNS: nat := 76

  // ---- The alphabet -----------------------------------------------------------------------

  function Letter(v: nat): (c: char)
    requires v < 64
    ensures Val(c) == v && c != '\n'
  {
    if v < 26 then ('A' as int + v) as char
    else if v < 52 then ('a' as int + v - 26) as char
    else if v < 62 then ('0' as int + v - 52) as char
    else if v == 62 then '+' else '/'
  }

  /** b64_val: the value of a character, -1 outside the alphabet. */
  function Val(c: char): (v: int)
    ensures -1 <= v < 64
  {
    if 'A' <= c <= 'Z' then c as int - 'A' as int
    else if 'a' <= c <= 'z' then c as int - 'a' as int + 26
    else if '0' <= c <= '9' then c as int - '0' as int + 52
    else if c == '+' then 62
    else if c == '/' then 63
    else -1
  }

  type Sextet = v: int | 0 <= v < 64

  // ---- RFC 4648: groups of 24 bits ---------------------------------------------------------

  /** An element, or zero behind the end. */
  function Nth(s: seq<int>, i: nat): int {
    if i < |s| then s[i] else 0
  }

  /** Up to three bytes as one 24-bit number, missing ones as zero. */
  function Join(b: seq<byte>): (n: nat)
    requires 1 <= |b| <= 3
  {
    Nth(b, 0) * 0x1_0000 + Nth(b, 1) * 0x100 + Nth(b, 2)
  }

  /** The four base-64 digits of such a number. */
  function Digit(n: nat, i: nat): Sextet
    requires i < 4
  {
    n / (if i == 0 then 0x4_0000 else if i == 1 then 0x1000 else if i == 2 then 0x40 else 1) % 64
  }

  /** A group as text: one character more than it has bytes, filled up with the padding character. */
  function Quad(b: seq<byte>): (q: string)
    requires 1 <= |b| <= 3
    ensures |q| == 4 && '\n' !in q
  {
    var n := Join(b);
    [Letter(Digit(n, 0)), Letter(Digit(n, 1)),
     if |b| > 1 then Letter(Digit(n, 2)) else '=', if |b| > 2 then Letter(Digit(n, 3)) else '=']
  }

  /** The text of `data`, the first character going to column `col`. */
  function Encode(data: seq<byte>, col: nat): string {
    if |data| >= 3 then
      Quad(data[..3]) + (if col + 4 >= COLUMNS then "\n" + Encode(data[3..], 0) else Encode(data[3..], col + 4))
    else if |data| > 0 then Quad(data) + "\n"
    else if col != 0 then "\n"
    else ""
  }

  /** The values of the characters of the alphabet in a text; the others are skipped. */
  function Vals(s: string): (r: seq<Sextet>)
    ensures |r| <= |s|
  {
    if s == "" then []
    else if Val(s[0]) < 0 then Vals(s[1..])
    else [Val(s[0])] + Vals(s[1..])
  }

  /** Up to four values as one 24-bit number. */
  function Total(v: seq<Sextet>): nat
    requires 2 <= |v| <= 4
  {
    Nth(v, 0) * 0x4_0000 + Nth(v, 1) * 0x1000 + Nth(v, 2) * 0x40 + Nth(v, 3)
  }

  /** The bytes of a group of two to four values. */
  function Group(v: seq<Sextet>): (b: seq<byte>)
    requires 2 <= |v| <= 4
    ensures |b| == |v| - 1
  {
    var n := Total(v);
    [n / 0x1_0000 % 256] + (if |v| > 2 then [n / 0x100 % 256] else []) + (if |v| > 3 then [n % 256] else [])
  }

  function Decode(v: seq<Sextet>): seq<byte> {
    if |v| >= 4 then Group(v[..4]) + Decode(v[4..])
    else if |v| >= 2 then Group(v)
    else []
  }

  // ---- The program ---------------------------------------------------------------------------

  /** The bit fields of three bytes are the base-64 digits of the number they form. */
  lemma Fields(x: int, y: int, z: int)
    requires 0 <= x < 256 && 0 <= y < 256 && 0 <= z < 256
    ensures var n := x * 0x1_0000 + y * 0x100 + z;
      && n / 0x4_0000 % 64 == x / 4 && n / 0x1000 % 64 == x % 4 * 16 + y / 16
      && n / 0x40 % 64 == y % 16 * 4 + z / 64 && n % 64 == z % 64
  {
    var n := x * 0x1_0000 + y * 0x100 + z;
    Division(n, 0x4_0000, x / 4, x % 4 * 0x1_0000 + y * 0x100 + z);
    Division(n, 0x1000, x * 16 + y / 16, y % 16 * 0x100 + z);
    Division(x * 16 + y / 16, 64, x / 4, x % 4 * 16 + y / 16);
    Division(n, 0x40, x * 1024 + y * 4 + z / 64, z % 64);
    Division(x * 1024 + y * 4 + z / 64, 64, x * 16 + y / 16, y % 16 * 4 + z / 64);
  }

  lemma QuadFields(b: seq<byte>)
    requires 1 <= |b| <= 3
    ensures var x, y, z := Nth(b, 0), Nth(b, 1), Nth(b, 2);
      && 0 <= x < 256 && 0 <= y < 256 && 0 <= z < 256
      && Quad(b) == [Letter(x / 4), Letter(x % 4 * 16 + y / 16),
                     if |b| > 1 then Letter(y % 16 * 4 + z / 64) else '=', if |b| > 2 then Letter(z % 64) else '=']
  {
    hide Letter;
    Fields(Nth(b, 0), Nth(b, 1), Nth(b, 2));
  }

  /** The output of encode_stream for one group, whole or at the end of the input. */
  method EncodeGroup(group: seq<byte>) returns (q: string)
    requires 1 <= |group| <= 3
    ensures q == Quad(group)
  {
    hide Letter, Quad;
    QuadFields(group);
    var x: int := group[0];
    if |group| == 3 {
      var y, z: int := group[1], group[2];
      return [Letter(x / 4), Letter(x % 4 * 16 + y / 16), Letter(y % 16 * 4 + z / 64), Letter(z % 64)];
    } else if |group| == 2 {
      var y: int := group[1];
      return [Letter(x / 4), Letter(x % 4 * 16 + y / 16), Letter(y % 16 * 4), '='];
    } else {
      return [Letter(x / 4), Letter(x % 4 * 16), '=', '='];
    }
  }

  method EncodeStream(input: seq<byte>) returns (out: string)
    ensures out == Encode(input, 0)
  {
    hide Quad, Encode;
    var group: seq<byte>, col := [], 0;
    out := "";
    assert [] + input[0..] == input;
    for i := 0 to |input|
      invariant |group| < 3 && Encode(input, 0) == out + Encode(group + input[i..], col)
    {
      assert group + input[i..] == (group + [input[i]]) + input[i + 1..];
      group := group + [input[i]];
      if |group| == 3 {
        EncodeSteps(group, input[i + 1..], col);
        var q := EncodeGroup(group);
        out := out + q;
        col := col + 4;
        if col >= COLUMNS {
          out := out + "\n";
          col := 0;
        }
        group := [];
      }
    }
    assert group + input[|input|..] == group;
    EncodeEnds(group, col);
    if |group| > 0 {
      var q := EncodeGroup(group);
      out := out + q + "\n";
    } else if col != 0 {
      out := out + "\n";
    }
  }

  lemma EncodeEnds(group: seq<byte>, col: nat)
    requires |group| < 3
    ensures Encode(group, col) == if group != [] then Quad(group) + "\n" else if col != 0 then "\n" else ""
  {
  }

  lemma EncodeSteps(group: seq<byte>, rest: seq<byte>, col: nat)
    requires |group| == 3
    ensures Encode(group + rest, col) ==
      Quad(group) + (if col + 4 >= COLUMNS then "\n" + Encode([] + rest, 0) else Encode([] + rest, col + 4))
  {
    hide Quad;
    assert (group + rest)[..3] == group && (group + rest)[3..] == rest == [] + rest;
  }

  /** The output of decode_stream for one group. */
  method DecodeGroup(vals: seq<Sextet>) returns (b: seq<byte>)
    requires 2 <= |vals| <= 4
    ensures b == Group(vals)
  {
    if |vals| == 4 {
      var acc: int := Nth(vals, 0) * 0x4_0000 + Nth(vals, 1) * 0x1000 + Nth(vals, 2) * 0x40 + Nth(vals, 3);
      return [acc / 0x1_0000 % 256, acc / 0x100 % 256, acc % 256];
    } else if |vals| == 3 {
      var acc: int := Nth(vals, 0) * 0x4_0000 + Nth(vals, 1) * 0x1000 + Nth(vals, 2) * 0x40;
      return [acc / 0x1_0000 % 256, acc / 0x100 % 256];
    } else {
      var acc: int := Nth(vals, 0) * 0x4_0000 + Nth(vals, 1) * 0x1000;
      return [acc / 0x1_0000 % 256];
    }
  }

  method DecodeStream(input: string) returns (out: seq<byte>)
    ensures out == Decode(Vals(input))
  {
    hide Val, Group, Decode;
    var vals: seq<Sextet> := [];
    out := [];
    assert [] + Vals(input[0..]) == Vals(input) by { assert input[0..] == input; }
    for i := 0 to |input|
      invariant |vals| < 4 && Decode(Vals(input)) == out + Decode(vals + Vals(input[i..]))
    {
      var v := Val(input[i]);
      assert input[i..][1..] == input[i + 1..];
      if v >= 0 {
        assert vals + Vals(input[i..]) == vals + [v] + Vals(input[i + 1..]);
        vals := vals + [v];
        if |vals| == 4 {
          DecodeSteps(vals, Vals(input[i + 1..]));
          var b := DecodeGroup(vals);
          out := out + b;
          vals := [];
        }
      }
    }
    assert vals + Vals(input[|input|..]) == vals;
    DecodeEnds(vals);
    if |vals| >= 2 {
      var b := DecodeGroup(vals);
      out := out + b;
    }
  }

  lemma DecodeEnds(vals: seq<Sextet>)
    requires |vals| < 4
    ensures Decode(vals) == if |vals| >= 2 then Group(vals) else []
  {
  }

  lemma DecodeSteps(vals: seq<Sextet>, rest: seq<Sextet>)
    requires |vals| == 4
    ensures Decode(vals + rest) == Group(vals) + Decode([] + rest)
  {
    hide Group;
    assert (vals + rest)[..4] == vals && (vals + rest)[4..] == rest == [] + rest;
  }
}
