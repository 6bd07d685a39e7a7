/** The base 64 encoding of section 4 of RFC 4648, padded, with the decoder that skips line
    breaks and does not mind stray bits in the last character. */
module Base64 {
  import opened Options

  type Byte = x: int | 0 <= x < 256
  type Digit = x: int | 0 <= x < 64

  const PAD := '='

  function Symbol(n: Digit): char {
    if n < 26 then ('A' as int + n) as char
    else if n < 52 then ('a' as int + n - 26) as char
    else if n < 62 then ('0' as int + n - 52) as char
    else if n == 62 then '+' else '/'
  }

  function ValueOf(c: char): Option<Digit> {
    if 'A' <= c <= 'Z' then Some(c as int - 'A' as int)
    else if 'a' <= c <= 'z' then Some(c as int - 'a' as int + 26)
    else if '0' <= c <= '9' then Some(c as int - '0' as int + 52)
    else if c == '+' then Some(62) else if c == '/' then Some(63) else None
  }

  lemma SymbolRoundTrip(n: Digit)
    ensures ValueOf(Symbol(n)) == Some(n) && Symbol(n) != PAD && Symbol(n) != '\n' && Symbol(n) != '\r'
  {
  }

  // The four digits of three bytes; missing bytes count as zero.
  function Digit0(x: Byte): Digit { x / 4 }
  function Digit1(x: Byte, y: Byte): Digit { x % 4 * 16 + y / 16 }
  function Digit2(y: Byte, z: Byte): Digit { y % 16 * 4 + z / 64 }
  function Digit3(z: Byte): Digit { z % 64 }

  function Encode(b: seq<Byte>): string {
    if |b| == 0 then []
    else if |b| == 1 then [Symbol(Digit0(b[0])), Symbol(Digit1(b[0], 0)), PAD, PAD]
    else if |b| == 2 then [Symbol(Digit0(b[0])), Symbol(Digit1(b[0], b[1])), Symbol(Digit2(b[1], 0)), PAD]
    else
      [Symbol(Digit0(b[0])), Symbol(Digit1(b[0], b[1])), Symbol(Digit2(b[1], b[2])), Symbol(Digit3(b[2]))] + Encode(b[3..])
  }

  function First(p: Digit, q: Digit): Byte { p * 4 + q / 16 }
  function Second(q: Digit, r: Digit): Byte { q % 16 * 16 + r / 4 }
  function Third(r: Digit, s: Digit): Byte { r % 4 * 64 + s }

  function Strip(s: string): string {
    if s == [] then [] else if s[0] == '\n' || s[0] == '\r' then Strip(s[1..]) else [s[0]] + Strip(s[1..])
  }

  function DecodeGroups(s: string): Option<seq<Byte>> {
    if s == [] then Some([])
    else if |s| < 4 then None
    else
      match (ValueOf(s[0]), ValueOf(s[1]), ValueOf(s[2]), ValueOf(s[3]))
      case (Some(p), Some(q), Some(r), Some(t)) => (
        match DecodeGroups(s[4..])
        case None => None
        case Some(rest) => Some([First(p, q), Second(q, r), Third(r, t)] + rest))
      case (Some(p), Some(q), Some(r), None) =>
        if |s| == 4 && s[3] == PAD then Some([First(p, q), Second(q, r)]) else None
      case (Some(p), Some(q), None, None) =>
        if |s| == 4 && s[2] == PAD && s[3] == PAD then Some([First(p, q)]) else None
      case _ => None
  }

  function Decode(s: string): Option<seq<Byte>> {
    DecodeGroups(Strip(s))
  }

  lemma BytesReturn(x: Byte, y: Byte, z: Byte)
    ensures First(Digit0(x), Digit1(x, y)) == x
    ensures Second(Digit1(x, y), Digit2(y, z)) == y
    ensures Third(Digit2(y, z), Digit3(z)) == z
  {
  }

  lemma {:induction false} NothingToStrip(b: seq<Byte>)
    ensures Strip(Encode(b)) == Encode(b)
  {
    var e := Encode(b);
    forall n: Digit ensures !Breaks(Symbol(n)) {
      SymbolRoundTrip(n);
    }
    if |b| >= 3 {
      NothingToStrip(b[3..]);
      StripFour(e[0], e[1], e[2], e[3], Encode(b[3..]));
    } else if |b| > 0 {
      StripFour(e[0], e[1], e[2], e[3], []);
      assert [e[0], e[1], e[2], e[3]] + [] == e;
    }
  }

  predicate Breaks(c: char) { c == '\n' || c == '\r' }

  lemma StripOne(c: char, rest: string)
    requires !Breaks(c)
    ensures Strip([c] + rest) == [c] + Strip(rest)
  {
    assert ([c] + rest)[1..] == rest;
  }

  lemma StripFour(p: char, q: char, r: char, t: char, rest: string)
    requires !Breaks(p) && !Breaks(q) && !Breaks(r) && !Breaks(t)
    ensures Strip([p, q, r, t] + rest) == [p, q, r, t] + Strip(rest)
  {
    StripOne(t, rest);
    StripOne(r, [t] + rest);
    StripOne(q, [r] + ([t] + rest));
    StripOne(p, [q] + ([r] + ([t] + rest)));
    assert [p] + ([q] + ([r] + ([t] + rest))) == [p, q, r, t] + rest;
    assert [p] + ([q] + ([r] + ([t] + Strip(rest)))) == [p, q, r, t] + Strip(rest);
  }

  /** A full group decodes to three bytes before the rest. */
  lemma FullGroup(p: Digit, q: Digit, r: Digit, t: Digit, s: string)
    requires DecodeGroups(s).Some?
    ensures DecodeGroups([Symbol(p), Symbol(q), Symbol(r), Symbol(t)] + s)
         == Some([First(p, q), Second(q, r), Third(r, t)] + DecodeGroups(s).value)
  {
    SymbolRoundTrip(p);
    SymbolRoundTrip(q);
    SymbolRoundTrip(r);
    SymbolRoundTrip(t);
    assert ([Symbol(p), Symbol(q), Symbol(r), Symbol(t)] + s)[4..] == s;
  }

  lemma LastGroups(p: Digit, q: Digit, r: Digit)
    ensures DecodeGroups([Symbol(p), Symbol(q), Symbol(r), PAD]) == Some([First(p, q), Second(q, r)])
    ensures DecodeGroups([Symbol(p), Symbol(q), PAD, PAD]) == Some([First(p, q)])
  {
    SymbolRoundTrip(p);
    SymbolRoundTrip(q);
    SymbolRoundTrip(r);
    assert ValueOf(PAD) == None;
  }

  lemma ThreeBytes(x: Byte, y: Byte, z: Byte, s: string)
    requires DecodeGroups(s).Some?
    ensures DecodeGroups([Symbol(Digit0(x)), Symbol(Digit1(x, y)), Symbol(Digit2(y, z)), Symbol(Digit3(z))] + s)
         == Some([x, y, z] + DecodeGroups(s).value)
  {
    FullGroup(Digit0(x), Digit1(x, y), Digit2(y, z), Digit3(z), s);
    BytesReturn(x, y, z);
  }

  lemma FewBytes(x: Byte, y: Byte)
    ensures DecodeGroups([Symbol(Digit0(x)), Symbol(Digit1(x, y)), Symbol(Digit2(y, 0)), PAD]) == Some([x, y])
    ensures DecodeGroups([Symbol(Digit0(x)), Symbol(Digit1(x, 0)), PAD, PAD]) == Some([x])
  {
    LastGroups(Digit0(x), Digit1(x, y), Digit2(y, 0));
    LastGroups(Digit0(x), Digit1(x, 0), 0);
    BytesReturn(x, y, 0);
    BytesReturn(x, 0, 0);
  }

  lemma FirstThree(b: seq<Byte>)
    requires |b| >= 3
    ensures b == [b[0], b[1], b[2]] + b[3..]
  {
  }

  lemma ManyReturn(b: seq<Byte>)
    requires |b| >= 3 && DecodeGroups(Encode(b[3..])) == Some(b[3..])
    ensures DecodeGroups(Encode(b)) == Some(b)
  {
    ThreeBytes(b[0], b[1], b[2], Encode(b[3..]));
    FirstThree(b);
  }

  lemma FewReturn(b: seq<Byte>)
    requires 0 < |b| < 3
    ensures DecodeGroups(Encode(b)) == Some(b)
  {
    if |b| == 2 {
      FewBytes(b[0], b[1]);
      assert b == [b[0], b[1]];
    } else {
      FewBytes(b[0], 0);
      assert b == [b[0]];
    }
  }

  lemma {:induction false} GroupsRoundTrip(b: seq<Byte>)
    ensures DecodeGroups(Encode(b)) == Some(b)
  {
    if |b| >= 3 {
      GroupsRoundTrip(b[3..]);
      ManyReturn(b);
    } else if |b| > 0 {
      FewReturn(b);
    }
  }

  /** Every byte string comes back from its encoding. */
  lemma RoundTrip(b: seq<Byte>)
    ensures Decode(Encode(b)) == Some(b)
  {
    NothingToStrip(b);
    GroupsRoundTrip(b);
  }

  // ------------------------------------------------------------- the alphabet

  /** The symbols run from A to Z, from a to z and from 0 to 9, and end in + and /; nothing else
      has a value. */
  lemma SymbolsAre(n: Digit, c: char)
    ensures Symbol(0) == 'A' && Symbol(25) == 'Z' && Symbol(26) == 'a' && Symbol(51) == 'z'
    ensures Symbol(52) == '0' && Symbol(61) == '9' && Symbol(62) == '+' && Symbol(63) == '/' && PAD == '='
    ensures n < 25 || 26 <= n < 51 || 52 <= n < 61 ==> Symbol(n + 1) as int == Symbol(n) as int + 1
    ensures ValueOf(c) == Some(n) <==> c == Symbol(n)
  {
  }

  /** Three bytes are four digits of six bits each, most significant first. */
  lemma DigitsAreBits(x: Byte, y: Byte, z: Byte)
    ensures ((Digit0(x) * 64 + Digit1(x, y)) * 64 + Digit2(y, z)) * 64 + Digit3(z) == (x * 256 + y) * 256 + z
  {
  }
}
