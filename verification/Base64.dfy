/** Base64 of binary snapshots (section 4 of RFC 4648). */
module Base64 {

  type byte = x: int | 0 <= x < 256

  // ---- the alphabet -----------------------------------------------------------------------

  function Symbol(v: nat): char
    requires v < 64
  {
    if v < 26 then ('A' as int + v) as char
    else if v < 52 then ('a' as int + (v - 26)) as char
    else if v < 62 then ('0' as int + (v - 52)) as char
    else if v == 62 then '+' else '/'
  }

  /** The decode table: the value of a symbol, and 255 for every other character. */
  function SymbolValue(c: char): (v: nat)
    ensures v < 64 || v == 255
  {
    if 'A' <= c <= 'Z' then c as int - 'A' as int
    else if 'a' <= c <= 'z' then c as int - 'a' as int + 26
    else if '0' <= c <= '9' then c as int - '0' as int + 52
    else if c == '+' then 62 else if c == '/' then 63 else 255
  }

  predicate IsSymbol(c: char) { SymbolValue(c) < 64 }

  lemma {:induction false} SymbolRoundTrip(v: nat)
    requires v < 64
    ensures SymbolValue(Symbol(v)) == v && Symbol(v) != '='
  {
  }

  lemma {:induction false} ValueRoundTrip(c: char)
    requires IsSymbol(c)
    ensures Symbol(SymbolValue(c)) == c && c != '='
  {
  }

  // ---- specification ----------------------------------------------------------------------

  /** Three bytes packed into a 24-bit word; missing bytes count as 0. */
  function Pack(a: byte, b: byte, c: byte): (n: nat)
    ensures n < 0x100_0000
  {
    a * 0x1_0000 + b * 0x100 + c
  }

  /** The `k`-th six-bit part of a 24-bit word, counted from the top. */
  function Sextet(n: nat, k: nat): (v: nat)
    requires k < 4
    ensures v < 64
  {
    if k == 0 then n / 0x4_0000 % 64 else if k == 1 then n / 0x1000 % 64 else if k == 2 then n / 64 % 64 else n % 64
  }

  /** The four characters for a word that holds `len` bytes. */
  function Group(n: nat, len: nat): (g: string)
    ensures |g| == 4
  {
    [Symbol(Sextet(n, 0)), Symbol(Sextet(n, 1)),
     if len > 1 then Symbol(Sextet(n, 2)) else '=',
     if len > 2 then Symbol(Sextet(n, 3)) else '=']
  }

  /** The `i`-th byte, or 0 behind the end. */
  function At(data: seq<byte>, i: nat): byte { if i < |data| then data[i] else 0 }

  /** The characters for the first three bytes. */
  function FirstGroup(data: seq<byte>): (g: string)
    ensures |g| == 4
  {
    Group(Pack(At(data, 0), At(data, 1), At(data, 2)), |data|)
  }

  function Encode(data: seq<byte>): string {
    if data == [] then "" else FirstGroup(data) + if |data| > 3 then Encode(data[3..]) else ""
  }

  /** Shift six bits in. A symbol's bits land in the freed places; the table's 255 for a foreign
      character also sets the two bits above them. The result of four steps stays below 2^32. */
  function ShiftIn(n: nat, c: char): nat {
    if c == '=' then n * 64
    else if IsSymbol(c) then n * 64 + SymbolValue(c)
    else n * 64 / 256 * 256 + 255
  }

  /** The word accumulated from up to four characters. */
  function Accumulate(s: string): nat {
    if s == "" then 0 else ShiftIn(Accumulate(s[..|s| - 1]), s[|s| - 1])
  }

  function Byte(n: nat, k: nat): byte
    requires k < 3
  {
    if k == 0 then n / 0x1_0000 % 256 else if k == 1 then n / 256 % 256 else n % 256
  }

  /** What one group of at most four characters decodes to. */
  function DecodeGroup(g: string): seq<byte> {
    var n := Accumulate(g);
    [Byte(n, 0)]
    + (if |g| > 2 && g[2] != '=' then [Byte(n, 1)] else [])
    + (if |g| > 3 && g[3] != '=' then [Byte(n, 2)] else [])
  }

  function FirstFour(s: string): string { if |s| > 4 then s[..4] else s }

  function Decode(s: string): seq<byte> {
    if s == "" then [] else DecodeGroup(FirstFour(s)) + if |s| > 4 then Decode(s[4..]) else []
  }

  // ---- the loops --------------------------------------------------------------------------

  method EncodeGroup(data: seq<byte>, i: nat) returns (group: string)
    requires i < |data|
    ensures group == FirstGroup(data[i..])
  {
    var n := (data[i] as int) * 0x1_0000;
    if i + 1 < |data| { n := n + (data[i + 1] as int) * 0x100; }
    if i + 2 < |data| { n := n + data[i + 2]; }
    group := [Symbol(Sextet(n, 0)), Symbol(Sextet(n, 1))];
    group := group + [if i + 1 < |data| then Symbol(Sextet(n, 2)) else '='];
    group := group + [if i + 2 < |data| then Symbol(Sextet(n, 3)) else '='];
  }

  lemma {:induction false} EncodeOfNothing()
    ensures Encode([]) == ""
  {
  }

  lemma {:induction false} EncodeFrom(data: seq<byte>, i: nat)
    requires i < |data|
    ensures Encode(data[i..]) == FirstGroup(data[i..]) + if i + 3 < |data| then Encode(data[i + 3..]) else ""
  {
    assert i + 3 < |data| ==> data[i..][3..] == data[i + 3..];
  }

  method EncodeBytes(data: seq<byte>) returns (out: string)
    ensures out == Encode(data)
  {
    hide Encode, FirstGroup;
    out := "";
    var i := 0;
    assert data[0..] == data && Encode([]) == "" by { EncodeOfNothing(); }
    while i < |data|
      invariant 0 <= i
      invariant Encode(data) == out + if i < |data| then Encode(data[i..]) else ""
      decreases |data| - i
    {
      var group := EncodeGroup(data, i);
      ghost var tail := if i + 3 < |data| then Encode(data[i + 3..]) else "";
      EncodeFrom(data, i);
      assert out + (group + tail) == (out + group) + tail;
      out := out + group;
      i := i + 3;
    }
  }

  method DecodeFour(s: string, i: nat) returns (group: seq<byte>)
    requires i < |s|
    ensures group == DecodeGroup(FirstFour(s[i..]))
  {
    ghost var g := FirstFour(s[i..]);
    var n := 0;
    var j := 0;
    while j < 4 && i + j < |s|
      invariant 0 <= j <= |g|
      invariant n == Accumulate(g[..j])
    {
      assert g[..j + 1][..j] == g[..j];
      n := ShiftIn(n, s[i + j]);
      j := j + 1;
    }
    assert g[..j] == g;
    group := [Byte(n, 0)];
    if i + 2 < |s| && s[i + 2] != '=' { group := group + [Byte(n, 1)]; }
    if i + 3 < |s| && s[i + 3] != '=' { group := group + [Byte(n, 2)]; }
  }

  method DecodeString(s: string) returns (out: seq<byte>)
    ensures out == Decode(s)
  {
    out := [];
    var i := 0;
    while i < |s|
      invariant 0 <= i
      invariant Decode(s) == out + if i < |s| then Decode(s[i..]) else []
      decreases |s| - i
    {
      var group := DecodeFour(s, i);
      ghost var tail := if i + 4 < |s| then Decode(s[i + 4..]) else [];
      assert Decode(s[i..]) == group + tail by {
        assert i + 4 < |s| ==> s[i..][4..] == s[i + 4..];
      }
      assert out + (group + tail) == (out + group) + tail;
      out := out + group;
      i := i + 4;
    }
  }

  // ---- one group of three bytes and four symbols --------------------------------------------

  lemma {:induction false} FourSteps(g: string)
    requires |g| == 4
    ensures Accumulate(g) == ShiftIn(ShiftIn(ShiftIn(ShiftIn(0, g[0]), g[1]), g[2]), g[3])
  {
    var a, b, c := g[..1], g[..2], g[..3];
    assert a[..0] == "" && b[..1] == a && c[..2] == b;
    assert Accumulate(a) == ShiftIn(0, g[0]);
    assert Accumulate(b) == ShiftIn(Accumulate(a), g[1]);
    assert Accumulate(c) == ShiftIn(Accumulate(b), g[2]);
  }

  lemma {:induction false} SextetsOfPack(a: byte, b: byte, c: byte)
    ensures var n := Pack(a, b, c);
            && Sextet(n, 0) == a / 4 && Sextet(n, 1) == a % 4 * 16 + b / 16
            && Sextet(n, 2) == b % 16 * 4 + c / 64 && Sextet(n, 3) == c % 64
  {
    var n := Pack(a, b, c);
    assert n / 0x4_0000 == a / 4 by { assert n == 0x4_0000 * (a / 4) + (a % 4 * 0x1_0000 + b * 0x100 + c); }
    assert n / 0x1000 == a * 16 + b / 16 by { assert n == 0x1000 * (a * 16 + b / 16) + (b % 16 * 0x100 + c); }
    assert n / 64 == a * 1024 + b * 4 + c / 64 by { assert n == 64 * (a * 1024 + b * 4 + c / 64) + c % 64; }
  }

  /** The word of four sextets. */
  function Word(p: nat, q: nat, r: nat, t: nat): nat { ((p * 64 + q) * 64 + r) * 64 + t }

  lemma {:induction false} Regroup(p: nat, q: nat, r: nat, t: nat)
    ensures Word(p, q, r, t) == (p * 4 + q / 16) * 0x1_0000 + (q % 16 * 16 + r / 4) * 0x100 + (r % 4 * 64 + t)
  {
    assert q == q / 16 * 16 + q % 16 && r == r / 4 * 4 + r % 4;
  }

  lemma {:induction false} BytesOfSum(a: byte, b: byte, c: byte)
    ensures var n := a * 0x1_0000 + b * 0x100 + c; Byte(n, 0) == a && Byte(n, 1) == b && Byte(n, 2) == c
  {
    var n := a * 0x1_0000 + b * 0x100 + c;
    assert n / 0x1_0000 == a;
    assert n / 256 == a * 256 + b;
  }

  lemma {:induction false} BytesOfWord(p: nat, q: nat, r: nat, t: nat)
    requires p < 64 && q < 64 && r < 64 && t < 64
    ensures var n := Word(p, q, r, t);
            Byte(n, 0) == p * 4 + q / 16 && Byte(n, 1) == q % 16 * 16 + r / 4 && Byte(n, 2) == r % 4 * 64 + t
  {
    Regroup(p, q, r, t);
    BytesOfSum(p * 4 + q / 16, q % 16 * 16 + r / 4, r % 4 * 64 + t);
  }

  /** The value a group character contributes. */
  function Bits(c: char): nat { if c == '=' then 0 else SymbolValue(c) }

  lemma {:induction false} AccumulateIsWord(g: string)
    requires |g| == 4 && forall k :: 0 <= k < 4 ==> g[k] == '=' || IsSymbol(g[k])
    ensures Accumulate(g) == Word(Bits(g[0]), Bits(g[1]), Bits(g[2]), Bits(g[3]))
  {
    FourSteps(g);
  }

  // ---- round trips ------------------------------------------------------------------------

  lemma {:induction false} SextetArithmetic(a: byte, b: byte, c: byte)
    ensures var p, q, r, t := a / 4, a % 4 * 16 + b / 16, b % 16 * 4 + c / 64, c % 64;
            && p * 4 + q / 16 == a && q % 16 * 16 + r / 4 == b && r % 4 * 64 + t == c
            && (b == 0 ==> q % 16 == 0) && (b == 0 && c == 0 ==> r == 0) && (c == 0 ==> r % 4 == 0 && t == 0)
  {
  }

  /** A string in canonical form: whole groups of symbols, of which only the last may be padded, and
      the bits that padding cuts off are 0. */
  predicate Canonical(s: string) {
    if s == "" then true
    else if |s| < 4 then false
    else if |s| == 4 then CanonicalLast(s)
    else IsSymbol(s[0]) && IsSymbol(s[1]) && IsSymbol(s[2]) && IsSymbol(s[3]) && Canonical(s[4..])
  }

  predicate CanonicalLast(g: string)
    requires |g| == 4
  {
    && IsSymbol(g[0]) && IsSymbol(g[1])
    && (if g[3] != '=' then IsSymbol(g[2]) && IsSymbol(g[3])
        else if g[2] != '=' then IsSymbol(g[2]) && SymbolValue(g[2]) % 4 == 0
        else SymbolValue(g[1]) % 16 == 0)
  }

  /** The symbols of a group in terms of its bytes. */
  lemma {:induction false} GroupSymbols(a: byte, b: byte, c: byte, len: nat)
    ensures Group(Pack(a, b, c), len) ==
              [Symbol(a / 4), Symbol(a % 4 * 16 + b / 16),
               if len > 1 then Symbol(b % 16 * 4 + c / 64) else '=', if len > 2 then Symbol(c % 64) else '=']
  {
    SextetsOfPack(a, b, c);
  }

  /** What a group of symbols, padded where the missing bits are 0, decodes to. */
  lemma {:induction false} GroupDecodes(g: string, p: nat, q: nat, r: nat, t: nat, len: nat)
    requires |g| == 4 && p < 64 && q < 64 && r < 64 && t < 64 && 1 <= len
    requires g[0] == Symbol(p) && g[1] == Symbol(q)
    requires if len > 1 then g[2] == Symbol(r) else g[2] == '=' && r == 0
    requires if len > 2 then g[3] == Symbol(t) else g[3] == '=' && t == 0
    ensures forall k :: 0 <= k < 4 ==> if k > len then g[k] == '=' else IsSymbol(g[k]) && g[k] != '='
    ensures SymbolValue(g[1]) == q && (len > 1 ==> SymbolValue(g[2]) == r)
    ensures DecodeGroup(g) ==
              [p * 4 + q / 16]
              + (if len > 1 then [q % 16 * 16 + r / 4] else [])
              + (if len > 2 then [r % 4 * 64 + t] else [])
  {
    SymbolRoundTrip(p);
    SymbolRoundTrip(q);
    SymbolRoundTrip(r);
    SymbolRoundTrip(t);
    hide Symbol;
    AccumulateIsWord(g);
    BytesOfWord(p, q, r, t);
  }

  /** The first group of an encoding: its padding, its canonical form and what it decodes to. */
  lemma {:induction false} FirstGroupDecodes(data: seq<byte>)
    requires data != []
    ensures var g, len := FirstGroup(data), if |data| > 3 then 3 else |data|;
            && CanonicalLast(g)
            && (forall k :: 0 <= k < 4 ==> if k > len then g[k] == '=' else IsSymbol(g[k]) && g[k] != '=')
            && DecodeGroup(g) == data[..len]
  {
    hide Group, Pack, Symbol, DecodeGroup, SymbolValue, Sextet;
    var a, b, c, len := At(data, 0), At(data, 1), At(data, 2), if |data| > 3 then 3 else |data|;
    var p, q, r, t := a / 4, a % 4 * 16 + b / 16, b % 16 * 4 + c / 64, c % 64;
    GroupSymbols(a, b, c, |data|);
    var g := FirstGroup(data);
    SextetArithmetic(a, b, c);
    GroupDecodes(g, p, q, r, t, len);
    assert data[..len] == [a] + (if len > 1 then [b] else []) + (if len > 2 then [c] else []);
  }

  /** Decoding an encoded byte string gives it back. */
  lemma {:induction false} DecodeOfEncode(data: seq<byte>)
    ensures Decode(Encode(data)) == data
  {
    hide FirstGroup, DecodeGroup;
    if data != [] {
      var g := FirstGroup(data);
      FirstGroupDecodes(data);
      if |data| > 3 {
        var rest := Encode(data[3..]);
        DecodeOfEncode(data[3..]);
        assert rest != "" && FirstFour(g + rest) == g && (g + rest)[4..] == rest;
        assert data == data[..3] + data[3..];
      } else {
        assert Encode(data) == g && FirstFour(g) == g && data[..|data|] == data;
      }
    }
  }

  /** Encodings are canonical. */
  lemma {:induction false} EncodeIsCanonical(data: seq<byte>)
    ensures Canonical(Encode(data))
  {
    hide FirstGroup;
    if data != [] {
      FirstGroupDecodes(data);
      if |data| > 3 {
        EncodeIsCanonical(data[3..]);
        assert Encode(data)[4..] == Encode(data[3..]);
      }
    }
  }

  /** Four characters for every three bytes or part of them; padding stands only at the very end,
      one character for each byte missing to a multiple of three. */
  ghost predicate Shaped(text: string, n: nat) {
    && |text| == (n + 2) / 3 * 4
    && forall i :: 0 <= i < |text| ==> (text[i] == '=' <==> i >= |text| - (3 - n % 3) % 3)
  }

  lemma {:induction false} ShapedCons(g: string, text: string, n: nat)
    requires |g| == 4 && '=' !in g && Shaped(text, n) && n > 0
    ensures Shaped(g + text, n + 3)
  {
    var all := g + text;
    assert (n + 3) % 3 == n % 3 && |text| >= 4;
    forall i | 0 <= i < |all| ensures all[i] == '=' <==> i >= |all| - (3 - n % 3) % 3 {
      if i >= 4 { assert all[i] == text[i - 4]; } else { assert all[i] in g; }
    }
  }

  lemma {:induction false} EncodeShape(data: seq<byte>)
    ensures Shaped(Encode(data), |data|)
  {
    hide FirstGroup, DecodeGroup, IsSymbol, CanonicalLast;
    if data != [] {
      FirstGroupDecodes(data);
      if |data| > 3 {
        hide Shaped;
        EncodeShape(data[3..]);
        ShapedCons(FirstGroup(data), Encode(data[3..]), |data| - 3);
      }
    }
  }

  lemma {:induction false} SextetsOfBytes(p: nat, q: nat, r: nat, t: nat)
    requires p < 64 && q < 64 && r < 64 && t < 64
    ensures var a, b, c := p * 4 + q / 16, q % 16 * 16 + r / 4, r % 4 * 64 + t;
            && a < 256 && b < 256 && c < 256
            && a / 4 == p && a % 4 * 16 + b / 16 == q && b % 16 * 4 + c / 64 == r && c % 64 == t
  {
  }

  /** Three bytes, of which the missing ones are 0, make the group their sextets spell. */
  lemma {:induction false} GroupOfBytes(d: seq<byte>, p: nat, q: nat, r: nat, t: nat)
    requires p < 64 && q < 64 && r < 64 && t < 64
    requires 1 <= |d| <= 3
    requires At(d, 0) == p * 4 + q / 16 && At(d, 1) == q % 16 * 16 + r / 4 && At(d, 2) == r % 4 * 64 + t
    ensures FirstGroup(d) ==
              [Symbol(p), Symbol(q), if |d| > 1 then Symbol(r) else '=', if |d| > 2 then Symbol(t) else '=']
  {
    hide Group, Pack, Symbol, SymbolValue, Sextet;
    var a, b, c := At(d, 0), At(d, 1), At(d, 2);
    GroupSymbols(a, b, c, |d|);
    assert a / 4 == p && a % 4 * 16 + b / 16 == q && b % 16 * 4 + c / 64 == r && c % 64 == t by {
      SextetsOfBytes(p, q, r, t);
    }
  }

  /** A canonical last group is the encoding of what it decodes to. */
  lemma {:induction false} EncodeOfGroup(g: string)
    requires |g| == 4 && CanonicalLast(g)
    ensures FirstGroup(DecodeGroup(g)) == g
    ensures |DecodeGroup(g)| <= 3 && (g[3] != '=' ==> |DecodeGroup(g)| == 3)
  {
    var p, q, r, t := Bits(g[0]), Bits(g[1]), Bits(g[2]), Bits(g[3]);
    var len := if g[3] != '=' then 3 else if g[2] != '=' then 2 else 1;
    forall k: nat | k <= len ensures Symbol(SymbolValue(g[k])) == g[k] && g[k] != '=' { ValueRoundTrip(g[k]); }
    GroupDecodes(g, p, q, r, t, len);
    hide Group, Pack, Symbol, DecodeGroup, SymbolValue, IsSymbol, FirstGroup;
    GroupOfBytes(DecodeGroup(g), p, q, r, t);
  }

  lemma {:induction false} EncodeOfCanonical(s: string)
    requires Canonical(s)
    ensures Encode(Decode(s)) == s
  {
    if |s| > 4 {
      var g, rest := s[..4], Decode(s[4..]);
      ValueRoundTrip(s[2]);
      ValueRoundTrip(s[3]);
      EncodeOfGroup(g);
      EncodeOfCanonical(s[4..]);
      var d := DecodeGroup(g);
      assert Decode(s) == d + rest && rest != [];
      FirstGroupOfPrefix(d, rest);
      assert (d + rest)[3..] == rest;
      assert s == g + s[4..];
    } else if s != "" {
      EncodeOfGroup(s);
    }
  }

  lemma {:induction false} FirstGroupOfPrefix(d: seq<byte>, rest: seq<byte>)
    requires |d| == 3
    ensures FirstGroup(d + rest) == FirstGroup(d)
  {
  }

  /** The strings that survive decoding and re-encoding are exactly the canonical ones. */
  lemma {:induction false} EncodeOfDecode(s: string)
    ensures Encode(Decode(s)) == s <==> Canonical(s)
  {
    if Canonical(s) {
      EncodeOfCanonical(s);
    } else {
      EncodeIsCanonical(Decode(s));
    }
  }

  // ---- fixed points of the standard ---------------------------------------------------------------

  /** The alphabet (table 1 of RFC 4648). */
  lemma {:induction false} AlphabetIs(v: nat)
    requires v < 64
    ensures v < 26 ==> Symbol(v) == "ABCDEFGHIJKLMNOPQRSTUVWXYZ"[v]
    ensures 26 <= v < 52 ==> Symbol(v) == "abcdefghijklmnopqrstuvwxyz"[v - 26]
    ensures 52 <= v ==> Symbol(v) == "0123456789+/"[v - 52]
  {
  }

  /** Test vectors (section 10 of RFC 4648): "f", "fo" and "foo". */
  lemma {:induction false} StandardVectors()
    ensures Encode([0x66]) == "Zg==" && Encode([0x66, 0x6f]) == "Zm8=" && Encode([0x66, 0x6f, 0x6f]) == "Zm9v"
  {
    hide Pack, Sextet, Symbol;
    VectorSextets();
    VectorSymbols();
  }

  lemma {:induction false} VectorSymbols()
    ensures Symbol(25) == 'Z' && Symbol(32) == 'g' && Symbol(38) == 'm' && Symbol(60) == '8' && Symbol(61) == '9'
    ensures Symbol(47) == 'v'
  {
  }

  lemma {:induction false} VectorSextets()
    ensures var f, fo, foo := Pack(0x66, 0, 0), Pack(0x66, 0x6f, 0), Pack(0x66, 0x6f, 0x6f);
            && Sextet(f, 0) == 25 && Sextet(f, 1) == 32
            && Sextet(fo, 0) == 25 && Sextet(fo, 1) == 38 && Sextet(fo, 2) == 60
            && Sextet(foo, 0) == 25 && Sextet(foo, 1) == 38 && Sextet(foo, 2) == 61 && Sextet(foo, 3) == 47
  {
  }

  /** A character outside the alphabet counts as eight set bits. */
  lemma {:induction false} StrayCharacter()
    ensures Decode("*AAA") == [252, 0, 0]
  {
    var s := "*AAA";
    assert s[..3] == "*AA" && "*AA"[..2] == "*A" && "*A"[..1] == "*" && "*"[..0] == "";
    assert Accumulate("*") == 255 && Accumulate("*A") == 16320 && Accumulate("*AA") == 1044480;
    assert Accumulate(s) == 66846720;
  }
}
