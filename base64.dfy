/** The standard Base64 alphabet with `=` padding, as `base64.b64encode`
    produces it (section 4 of RFC 4648). */
module Base64 {
  import opened Wrappers
  import opened Utf8

  /** The symbol for a 6-bit value: `A`-`Z`, `a`-`z`, `0`-`9`, `+`, `/`. */
  function Symbol(v: int): (c: char)
    requires 0 <= v < 64
    ensures c as int < 128 && c != '='
  {
    if v < 26 then ('A' as int + v) as char
    else if v < 52 then ('a' as int + (v - 26)) as char
    else if v < 62 then ('0' as int + (v - 52)) as char
    else if v == 62 then '+'
    else '/'
  }

  /** The 6-bit value of a symbol, or `None` for any other character. */
  function SymbolValue(c: char): (r: Option<int>)
    ensures r.Some? ==> 0 <= r.value < 64
  {
    if 'A' <= c <= 'Z' then Some(c as int - 'A' as int)
    else if 'a' <= c <= 'z' then Some(c as int - 'a' as int + 26)
    else if '0' <= c <= '9' then Some(c as int - '0' as int + 52)
    else if c == '+' then Some(62)
    else if c == '/' then Some(63)
    else None
  }

  lemma {:induction false} SymbolValueOf(v: int)
    requires 0 <= v < 64
    ensures SymbolValue(Symbol(v)) == Some(v)
  {
  }

  /** Three bytes become four symbols; a final group of one or two bytes is
      padded with `=` to four characters. */
  function Encode(b: seq<byte>): (r: string)
    ensures |r| == 4 * ((|b| + 2) / 3)
    ensures forall i :: 0 <= i < |r| ==> r[i] as int < 128
  {
    if |b| == 0 then ""
    else if |b| == 1 then
      [Symbol(b[0] / 4), Symbol(b[0] % 4 * 16), '=', '=']
    else if |b| == 2 then
      [Symbol(b[0] / 4), Symbol(b[0] % 4 * 16 + b[1] / 16), Symbol(b[1] % 16 * 4), '=']
    else
      assert (|b| + 2) / 3 == (|b[3..]| + 2) / 3 + 1;
      [Symbol(b[0] / 4), Symbol(b[0] % 4 * 16 + b[1] / 16), Symbol(b[1] % 16 * 4 + b[2] / 64), Symbol(b[2] % 64)]
        + Encode(b[3..])
  }

  /** The bytes a four-symbol group stands for. */
  function DecodeGroup(q: string): (r: Option<seq<byte>>)
    requires |q| == 4
  {
    match (SymbolValue(q[0]), SymbolValue(q[1]), SymbolValue(q[2]), SymbolValue(q[3]))
    case (Some(a), Some(b), None, None) =>
      if q[2] == '=' && q[3] == '=' then Some([a * 4 + b / 16]) else None
    case (Some(a), Some(b), Some(c), None) =>
      if q[3] == '=' then Some([a * 4 + b / 16, b % 16 * 16 + c / 4]) else None
    case (Some(a), Some(b), Some(c), Some(d)) =>
      Some([a * 4 + b / 16, b % 16 * 16 + c / 4, c % 4 * 64 + d])
    case _ => None
  }

  /** Decoding: groups of four; padding only in the last group. */
  function Decode(s: string): (r: Option<seq<byte>>)
    decreases |s|
  {
    if s == [] then Some([])
    else if |s| < 4 then None
    else match DecodeGroup(s[..4])
      case None => None
      case Some(g) =>
        if |g| < 3 && |s| > 4 then None
        else match Decode(s[4..])
          case None => None
          case Some(rest) => Some(g + rest)
  }

  lemma {:induction false} DecodeGroupOne(x: byte)
    ensures DecodeGroup([Symbol(x / 4), Symbol(x % 4 * 16), '=', '=']) == Some([x])
  {
    SymbolValueOf(x / 4);
    SymbolValueOf(x % 4 * 16);
  }

  lemma {:induction false} DecodeGroupTwo(x: byte, y: byte)
    ensures DecodeGroup([Symbol(x / 4), Symbol(x % 4 * 16 + y / 16), Symbol(y % 16 * 4), '=']) == Some([x, y])
  {
    SymbolValueOf(x / 4);
    SymbolValueOf(x % 4 * 16 + y / 16);
    SymbolValueOf(y % 16 * 4);
  }

  lemma {:induction false} DecodeGroupThree(x: byte, y: byte, z: byte)
    ensures DecodeGroup([Symbol(x / 4), Symbol(x % 4 * 16 + y / 16), Symbol(y % 16 * 4 + z / 64), Symbol(z % 64)])
      == Some([x, y, z])
  {
    var a, b, c, d := x / 4, x % 4 * 16 + y / 16, y % 16 * 4 + z / 64, z % 64;
    SymbolValueOf(a);
    SymbolValueOf(b);
    SymbolValueOf(c);
    SymbolValueOf(d);
    assert b / 16 == x % 4 && b % 16 == y / 16;
    assert c / 4 == y % 16 && c % 4 == z / 64;
    assert a * 4 + b / 16 == x && b % 16 * 16 + c / 4 == y && c % 4 * 64 + d == z;
  }

  /** A full group followed by more text decodes group by group. */
  lemma {:induction false} DecodeCons(q: string, rest: string, g: seq<byte>, r: seq<byte>)
    requires |q| == 4 && DecodeGroup(q) == Some(g) && |g| == 3 && Decode(rest) == Some(r)
    ensures Decode(q + rest) == Some(g + r)
  {
    var s := q + rest;
    assert s[..4] == q && s[4..] == rest;
  }

  lemma {:induction false} DecodeLast(q: string, g: seq<byte>)
    requires |q| == 4 && DecodeGroup(q) == Some(g)
    ensures Decode(q) == Some(g)
  {
    assert q[..4] == q && q[4..] == [];
    assert g + [] == g;
  }

  lemma {:induction false} DecodeEncodeOne(b: seq<byte>)
    requires |b| == 1
    ensures Decode(Encode(b)) == Some(b)
  {
    DecodeGroupOne(b[0]);
    assert Encode(b) == [Symbol(b[0] / 4), Symbol(b[0] % 4 * 16), '=', '='];
    DecodeLast(Encode(b), [b[0]]);
    assert [b[0]] == b;
  }

  lemma {:induction false} DecodeEncodeTwo(b: seq<byte>)
    requires |b| == 2
    ensures Decode(Encode(b)) == Some(b)
  {
    DecodeGroupTwo(b[0], b[1]);
    DecodeLast(Encode(b), [b[0], b[1]]);
    assert [b[0], b[1]] == b;
  }

  lemma {:induction false} EncodeStep(b: seq<byte>)
    requires |b| >= 3
    ensures Encode(b) == [Symbol(b[0] / 4), Symbol(b[0] % 4 * 16 + b[1] / 16), Symbol(b[1] % 16 * 4 + b[2] / 64), Symbol(b[2] % 64)]
      + Encode(b[3..])
  {
  }

  /** Decoding an encoding gives the bytes back. */
  lemma {:induction false} DecodeEncode(b: seq<byte>)
    ensures Decode(Encode(b)) == Some(b)
  {
    if |b| == 1 {
      DecodeEncodeOne(b);
    } else if |b| == 2 {
      DecodeEncodeTwo(b);
    } else if |b| >= 3 {
      var q := [Symbol(b[0] / 4), Symbol(b[0] % 4 * 16 + b[1] / 16), Symbol(b[1] % 16 * 4 + b[2] / 64), Symbol(b[2] % 64)];
      EncodeStep(b);
      DecodeGroupThree(b[0], b[1], b[2]);
      assert [b[0], b[1], b[2]] == b[..3];
      DecodeEncode(b[3..]);
      DecodeCons(q, Encode(b[3..]), b[..3], b[3..]);
      assert b[..3] + b[3..] == b;
    }
  }

  // ---------------------------------------------------------------------
  // Test vectors of section 10 of RFC 4648
  // ---------------------------------------------------------------------

  /** One byte: two symbols and two pads. */
  lemma {:induction false} VectorF()
    ensures Encode([102]) == "Zg=="
  {
    assert Symbol(25) == 'Z' && Symbol(32) == 'g';
  }

  /** Two bytes: three symbols and one pad. */
  lemma {:induction false} VectorFo()
    ensures Encode([102, 111]) == "Zm8="
  {
    assert Symbol(25) == 'Z' && Symbol(38) == 'm' && Symbol(60) == '8';
  }

  lemma {:induction false} VectorBar()
    ensures Encode([98, 97, 114]) == "YmFy"
  {
    var b: seq<byte> := [98, 97, 114];
    assert b[3..] == [];
    assert Symbol(24) == 'Y' && Symbol(38) == 'm' && Symbol(5) == 'F' && Symbol(50) == 'y';
  }

  /** Six bytes: two full groups, no padding. */
  lemma {:induction false} VectorFoobar()
    ensures Encode([102, 111, 111, 98, 97, 114]) == "Zm9vYmFy"
  {
    var b: seq<byte> := [102, 111, 111, 98, 97, 114];
    EncodeStep(b);
    assert b[3..] == [98, 97, 114];
    VectorBar();
    assert b[0] / 4 == 25 && b[0] % 4 * 16 + b[1] / 16 == 38 && b[1] % 16 * 4 + b[2] / 64 == 61 && b[2] % 64 == 47;
    assert Symbol(25) == 'Z' && Symbol(38) == 'm' && Symbol(61) == '9' && Symbol(47) == 'v';
  }
}
