/** The standard base64 encoding (section 4 of RFC 4648), decoded as leniently as Go's StdEncoding does. */
module Base64 {
  import opened Prelude

  type Bytes = seq<byte>

  const PAD: byte := 61
  const CR: byte := 13
  const LF: byte := 10

  /** The 64-character alphabet. */
  function Symbol(v: int): byte
    requires 0 <= v < 64
  {
    (if v < 26 then 65 + v else if v < 52 then 71 + v else if v < 62 then v - 4 else if v == 62 then 43 else 47) as byte
  }

  function Value(b: byte): Option<int> {
    var c := b as int;
    if 65 <= c <= 90 then Some(c - 65)
    else if 97 <= c <= 122 then Some(c - 71)
    else if 48 <= c <= 57 then Some(c + 4)
    else if c == 43 then Some(62)
    else if c == 47 then Some(63)
    else None
  }

  lemma SymbolValue(v: int)
    requires 0 <= v < 64
    ensures Value(Symbol(v)) == Some(v) && Symbol(v) !in {PAD, CR, LF}
  {
  }

  function Encode(s: Bytes): Bytes {
    if s == [] then []
    else
      var a := s[0] as int;
      if |s| == 1 then [Symbol(a / 4), Symbol(a % 4 * 16), PAD, PAD]
      else
        var b := s[1] as int;
        if |s| == 2 then [Symbol(a / 4), Symbol(a % 4 * 16 + b / 16), Symbol(b % 16 * 4), PAD]
        else
          var c := s[2] as int;
          [Symbol(a / 4), Symbol(a % 4 * 16 + b / 16), Symbol(b % 16 * 4 + c / 64), Symbol(c % 64)] + Encode(s[3..])
  }

  function StripNewlines(t: Bytes): Bytes {
    if t == [] then [] else (if t[0] == CR || t[0] == LF then [] else [t[0]]) + StripNewlines(t[1..])
  }

  /** Whole quanta of four symbols; padding only in the last, whose left-over bits are not looked at. */
  function DecodeQuanta(t: Bytes): Option<Bytes> {
    if t == [] then Some([])
    else if |t| < 4 || Value(t[0]).None? || Value(t[1]).None? then None
    else
      var a, b := Value(t[0]).value, Value(t[1]).value;
      var first := (a * 4 + b / 16) as byte;
      if t[2] == PAD && t[3] == PAD && |t| == 4 then Some([first])
      else if Value(t[2]).None? then None
      else
        var c := Value(t[2]).value;
        var second := (b % 16 * 16 + c / 4) as byte;
        if t[3] == PAD && |t| == 4 then Some([first, second])
        else if Value(t[3]).None? then None
        else
          match DecodeQuanta(t[4..])
          case None => None
          case Some(rest) => Some([first, second, (c % 4 * 64 + Value(t[3]).value) as byte] + rest)
  }

  function Decode(t: Bytes): Option<Bytes> { DecodeQuanta(StripNewlines(t)) }

  lemma {:induction false} StripNothing(t: Bytes)
    requires CR !in t && LF !in t
    ensures StripNewlines(t) == t
  {
    if t != [] {
      StripNothing(t[1..]);
    }
  }

  lemma {:induction false} EncodeHasNoNewline(s: Bytes)
    ensures CR !in Encode(s) && LF !in Encode(s)
  {
    if |s| > 3 {
      EncodeHasNoNewline(s[3..]);
    }
  }

  /** The sextets of a quantum hold its bytes (those past the end of `s` count as 0). */
  lemma Pack(s: Bytes) returns (w: int, x: int, y: int, z: int)
    requires s != []
    ensures 0 <= w < 64 && 0 <= x < 64 && 0 <= y < 64 && 0 <= z < 64
    ensures w * 4 + x / 16 == s[0] as int
    ensures |s| > 1 ==> x % 16 * 16 + y / 4 == s[1] as int
    ensures |s| > 2 ==> y % 4 * 64 + z == s[2] as int
    ensures Encode(s) == if |s| == 1 then [Symbol(w), Symbol(x), PAD, PAD]
                         else if |s| == 2 then [Symbol(w), Symbol(x), Symbol(y), PAD]
                         else [Symbol(w), Symbol(x), Symbol(y), Symbol(z)] + Encode(s[3..])
  {
    var a, b, c := s[0] as int, if |s| > 1 then s[1] as int else 0, if |s| > 2 then s[2] as int else 0;
    w, x, y, z := a / 4, a % 4 * 16 + b / 16, b % 16 * 4 + c / 64, c % 64;
  }

  lemma DecodeShort(s: Bytes, w: int, x: int, y: int)
    requires 1 <= |s| <= 2 && 0 <= w < 64 && 0 <= x < 64 && 0 <= y < 64
    requires w * 4 + x / 16 == s[0] as int && (|s| == 2 ==> x % 16 * 16 + y / 4 == s[1] as int)
    ensures DecodeQuanta([Symbol(w), Symbol(x), if |s| == 1 then PAD else Symbol(y), PAD]) == Some(s)
  {
    SymbolValue(w);
    SymbolValue(x);
    SymbolValue(y);
    assert s == if |s| == 1 then [s[0]] else [s[0], s[1]];
  }

  lemma DecodeLong(s: Bytes, w: int, x: int, y: int, z: int, t: Bytes)
    requires 3 <= |s| && 0 <= w < 64 && 0 <= x < 64 && 0 <= y < 64 && 0 <= z < 64
    requires w * 4 + x / 16 == s[0] as int && x % 16 * 16 + y / 4 == s[1] as int && y % 4 * 64 + z == s[2] as int
    requires DecodeQuanta(t) == Some(s[3..])
    ensures DecodeQuanta([Symbol(w), Symbol(x), Symbol(y), Symbol(z)] + t) == Some(s)
  {
    assert ([Symbol(w), Symbol(x), Symbol(y), Symbol(z)] + t)[4..] == t;
    SymbolValue(w);
    SymbolValue(x);
    SymbolValue(y);
    SymbolValue(z);
    assert s == [s[0], s[1], s[2]] + s[3..];
  }

  lemma {:induction false} DecodeQuantaEncode(s: Bytes)
    ensures DecodeQuanta(Encode(s)) == Some(s)
  {
    if s != [] {
      var w, x, y, z := Pack(s);
      if |s| <= 2 {
        DecodeShort(s, w, x, y);
      } else {
        DecodeQuantaEncode(s[3..]);
        DecodeLong(s, w, x, y, z, Encode(s[3..]));
      }
    }
  }

  /** Decoding gives back every byte sequence. */
  lemma DecodeEncode(s: Bytes)
    ensures Decode(Encode(s)) == Some(s)
  {
    EncodeHasNoNewline(s);
    StripNothing(Encode(s));
    DecodeQuantaEncode(s);
  }

  // ---------- The characters ----------

  function ByteAt(s: Bytes, i: nat): int { if i < |s| then s[i] as int else 0 }

  lemma FirstSextets(s: Bytes) returns (w: int, x: int, y: int, z: int)
    requires s != []
    ensures 0 <= w < 64 && 0 <= x < 64 && 0 <= y < 64 && 0 <= z < 64
    ensures w * 0x4_0000 + x * 0x1000 + y * 0x40 + z
         == ByteAt(s, 0) * 0x1_0000 + ByteAt(s, 1) * 0x100 + ByteAt(s, 2)
    ensures var t := Encode(s);
            && 4 <= |t| && t[0] == Symbol(w) && t[1] == Symbol(x)
            && t[2] == (if 1 < |s| then Symbol(y) else PAD) && t[3] == (if 2 < |s| then Symbol(z) else PAD)
  {
    var a, b, c := ByteAt(s, 0), ByteAt(s, 1), ByteAt(s, 2);
    w, x, y, z := a / 4, a % 4 * 16 + b / 16, b % 16 * 4 + c / 64, c % 64;
  }

  /** The four characters of quantum `q` stand for six of the 24 bits of its three bytes each, the highest first; those
      that hold no bit of a byte are padding. */
  lemma {:induction false} QuantumIs(s: Bytes, q: nat) returns (w: int, x: int, y: int, z: int)
    requires 3 * q < |s|
    ensures 0 <= w < 64 && 0 <= x < 64 && 0 <= y < 64 && 0 <= z < 64
    ensures w * 0x4_0000 + x * 0x1000 + y * 0x40 + z
         == ByteAt(s, 3 * q) * 0x1_0000 + ByteAt(s, 3 * q + 1) * 0x100 + ByteAt(s, 3 * q + 2)
    ensures var t := Encode(s);
            && 4 * q + 4 <= |t| && t[4 * q] == Symbol(w) && t[4 * q + 1] == Symbol(x)
            && t[4 * q + 2] == (if 3 * q + 1 < |s| then Symbol(y) else PAD)
            && t[4 * q + 3] == (if 3 * q + 2 < |s| then Symbol(z) else PAD)
  {
    if q == 0 {
      w, x, y, z := FirstSextets(s);
    } else {
      w, x, y, z := QuantumIs(s[3..], q - 1);
    }
  }

  lemma {:induction false} EncodedLength(s: Bytes)
    ensures |Encode(s)| == (|s| + 2) / 3 * 4
  {
    if |s| > 3 {
      EncodedLength(s[3..]);
    }
  }

  lemma {:induction false} StripSkips(t: Bytes, newline: byte, t': Bytes)
    requires newline in {CR, LF}
    ensures StripNewlines(t + [newline] + t') == StripNewlines(t + t')
  {
    var with, without := t + [newline] + t', t + t';
    if t == [] {
      assert with[1..] == t' == without;
    } else {
      StripSkips(t[1..], newline, t');
      assert with[0] == without[0] == t[0];
      assert with[1..] == t[1..] + [newline] + t' && without[1..] == t[1..] + t';
    }
  }

  /** Carriage returns and line feeds are skipped wherever they stand. */
  lemma NewlinesAreSkipped(t: Bytes, newline: byte, t': Bytes)
    requires newline in {CR, LF}
    ensures Decode(t + [newline] + t') == Decode(t + t')
  {
    StripSkips(t, newline, t');
  }

  lemma {:induction false} QuantaAreWhole(t: Bytes)
    requires DecodeQuanta(t).Some?
    ensures |t| % 4 == 0 && forall i :: 0 <= i < |t| ==> Value(t[i]).Some? || (t[i] == PAD && i >= |t| - 2)
  {
    if t != [] && (t[2] != PAD || |t| > 4) && (t[3] != PAD || |t| > 4) {
      QuantaAreWhole(t[4..]);
      assert forall i :: 4 <= i < |t| ==> t[i] == t[4..][i - 4];
    }
  }

  /** Besides them only whole quanta of alphabet characters decode, with padding at most at the end of the last. */
  lemma OtherCharactersAreRefused(t: Bytes)
    requires Decode(t).Some?
    ensures var s := StripNewlines(t);
            |s| % 4 == 0 && forall i :: 0 <= i < |s| ==> Value(s[i]).Some? || (s[i] == PAD && i >= |s| - 2)
  {
    QuantaAreWhole(StripNewlines(t));
  }
}
