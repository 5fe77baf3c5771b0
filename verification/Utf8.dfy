/** Characters as bytes (section 3 of RFC 3629): the encoder of the runtime and the decoder of the data generator. */
module Utf8 {
  type Byte = x: int | 0 <= x < 256 witness 0
  type U32 = x: int | 0 <= x < 0x1_0000_0000 witness 0

  const LIMIT: U32 := 0x11_0000

  // ----- the encoder -----

  /** The low six bits of a number, marked as a continuation byte. */
  function Continuation(n: nat): Byte {
    0x80 + n % 64
  }

  /** The bytes of a character; none when there is no such character. Marks and payload share no bits, so or-ing them is
    * adding them.
    */
  function Encode(c: U32): seq<Byte> {
    if c < 0x80 then [c]
    else if c < 0x800 then [0xC0 + c / 64, Continuation(c)]
    else if c < 0x1_0000 then [0xE0 + c / 4096, Continuation(c / 64), Continuation(c)]
    else if c < LIMIT then [0xF0 + c / 262144, Continuation(c / 4096), Continuation(c / 64), Continuation(c)]
    else []
  }

  function EncodeAll(cs: seq<U32>): seq<Byte> {
    if cs == [] then [] else Encode(cs[0]) + EncodeAll(cs[1..])
  }

  /** Writes a character into the buffer from `at` on and nothing else; the answer is how many bytes that took. */
  method SafeEncodeUtf8Char(c: U32, buffer: array<Byte>, at: nat) returns (n: nat)
    requires at + |Encode(c)| <= buffer.Length
    modifies buffer
    ensures n == |Encode(c)| && buffer[at..at + n] == Encode(c)
    ensures buffer[..at] == old(buffer[..at]) && buffer[at + n..] == old(buffer[at + n..])
  {
    if c < 0x80 {
      buffer[at] := c;
      return 1;
    } else if c < 0x800 {
      buffer[at] := 0xC0 + c / 64;
      buffer[at + 1] := 0x80 + c % 64;
      return 2;
    } else if c < 0x1_0000 {
      buffer[at] := 0xE0 + c / 4096;
      buffer[at + 1] := 0x80 + c / 64 % 64;
      buffer[at + 2] := 0x80 + c % 64;
      return 3;
    } else if c < LIMIT {
      buffer[at] := 0xF0 + c / 262144;
      buffer[at + 1] := 0x80 + c / 4096 % 64;
      buffer[at + 2] := 0x80 + c / 64 % 64;
      buffer[at + 3] := 0x80 + c % 64;
      return 4;
    }
    return 0;
  }

  // ----- the decoder -----

  datatype Decoded =
    | Text(codes: seq<U32>)
    | Malformed
      /** Reading behind the terminator of the text, which is undefined. */
    | PastEnd

  /** How many bytes a character takes by its first one; none when no character starts so. */
  function Width(lead: Byte): nat {
    if lead <= 0x7F then 1
    else if 0xC0 <= lead < 0xE0 then 2
    else if 0xE0 <= lead < 0xF0 then 3
    else if 0xF0 <= lead < 0xF8 then 4
    else 0
  }

  /** A text is followed by a terminator that may be read. */
  function ByteAt(s: seq<Byte>, i: nat): Byte
    requires i <= |s|
  {
    if i < |s| then s[i] else 0
  }

  /** The character at `i`, whose bytes are not looked at beyond their low bits. */
  function CodeAt(s: seq<Byte>, i: nat): U32
    requires i < |s| && i + Width(s[i]) <= |s| + 1
  {
    var w := Width(s[i]);
    if w == 1 then s[i]
    else if w == 2 then s[i] % 32 * 64 + ByteAt(s, i + 1) % 64
    else if w == 3 then s[i] % 16 * 4096 + ByteAt(s, i + 1) % 64 * 64 + ByteAt(s, i + 2) % 64
    else if w == 4 then
      s[i] % 8 * 262144 + ByteAt(s, i + 1) % 64 * 4096 + ByteAt(s, i + 2) % 64 * 64 + ByteAt(s, i + 3) % 64
    else 0
  }

  /** What the text from `i` on decodes to. */
  function DecodeFrom(s: seq<Byte>, i: nat): Decoded
    decreases |s| - i
  {
    if i >= |s| then Text([])
    else if Width(s[i]) == 0 then Malformed
    else if i + Width(s[i]) > |s| + 1 then PastEnd
    else
      match DecodeFrom(s, i + Width(s[i]))
      case Text(cs) => Text([CodeAt(s, i)] + cs)
      case other => other
  }

  /** Puts decoded characters in front of what the rest decodes to. */
  function Prepend(cs: seq<U32>, d: Decoded): Decoded {
    match d
    case Text(rest) => Text(cs + rest)
    case other => other
  }

  method Utf8ToUtf32(s: seq<Byte>) returns (r: Decoded)
    ensures r == DecodeFrom(s, 0)
  {
    var result: seq<U32> := [];
    var i := 0;
    while i < |s|
      invariant 0 <= i <= |s| + 1
      invariant DecodeFrom(s, 0) == Prepend(result, DecodeFrom(s, i))
      decreases |s| - i
    {
      var lead := s[i];
      var w := Width(lead);
      if w == 0 {
        return Malformed;
      }
      if i + w > |s| + 1 {
        return PastEnd;
      }
      result := result + [CodeAt(s, i)];
      i := i + w;
    }
    return Text(result);
  }

  // ----- the round trip -----

  /** A character takes one to four bytes, by its size, and none exactly when it is too large. */
  lemma EncodedLength(c: U32)
    ensures |Encode(c)| == if c < 0x80 then 1 else if c < 0x800 then 2 else if c < 0x1_0000 then 3 else if c < LIMIT then 4 else 0
    ensures c < LIMIT ==> Width(Encode(c)[0]) == |Encode(c)|
  {
  }

  /** The low six bits and the rest make up a number. */
  lemma SplitBy64(c: nat)
    ensures c == c / 64 * 64 + c % 64
  {
  }

  lemma SplitTwo(c: nat)
    requires c < 0x800
    ensures (0xC0 + c / 64) % 32 * 64 + (0x80 + c % 64) % 64 == c && 0xC0 + c / 64 < 0xE0
  {
    SplitBy64(c);
  }

  lemma SplitThree(c: nat)
    requires c < 0x1_0000
    ensures (0xE0 + c / 4096) % 16 * 4096 + (0x80 + c / 64 % 64) % 64 * 64 + (0x80 + c % 64) % 64 == c
    ensures 0xE0 + c / 4096 < 0xF0
  {
    SplitBy64(c);
    SplitBy64(c / 64);
    assert c / 4096 == c / 64 / 64;
  }

  lemma SplitFour(c: nat)
    requires c < LIMIT
    ensures (0xF0 + c / 262144) % 8 * 262144 + (0x80 + c / 4096 % 64) % 64 * 4096 + (0x80 + c / 64 % 64) % 64 * 64 + (0x80 + c % 64) % 64 == c
    ensures 0xF0 + c / 262144 < 0xF8
  {
    SplitBy64(c);
    SplitBy64(c / 64);
    SplitBy64(c / 4096);
    assert c / 4096 == c / 64 / 64 && c / 262144 == c / 4096 / 64;
  }

  /** Wherever the bytes of a character stand, they decode to it. */
  lemma CodeIsRead(c: U32, s: seq<Byte>, i: nat)
    requires c < LIMIT && i + |Encode(c)| <= |s| && s[i..i + |Encode(c)|] == Encode(c)
    ensures i < |s| && Width(s[i]) == |Encode(c)| && CodeAt(s, i) == c
  {
    EncodedLength(c);
    var e := Encode(c);
    assert s[i] == e[0];
    if |e| == 2 {
      assert s[i + 1] == e[1];
      SplitTwo(c);
    } else if |e| == 3 {
      assert s[i + 1] == e[1] && s[i + 2] == e[2];
      SplitThree(c);
    } else if |e| == 4 {
      assert s[i + 1] == e[1] && s[i + 2] == e[2] && s[i + 3] == e[3];
      SplitFour(c);
    }
  }

  /** One step of decoding, where a character stands. */
  lemma DecodesOne(c: U32, s: seq<Byte>, i: nat)
    requires c < LIMIT && i + |Encode(c)| <= |s| && s[i..i + |Encode(c)|] == Encode(c)
    ensures DecodeFrom(s, i) == Prepend([c], DecodeFrom(s, i + |Encode(c)|))
  {
    CodeIsRead(c, s, i);
    EncodedLength(c);
    hide Encode, CodeAt, Width;
  }

  lemma {:induction false} DecodesBehind(cs: seq<U32>, before: seq<Byte>)
    requires forall c :: c in cs ==> c < LIMIT
    ensures DecodeFrom(before + EncodeAll(cs), |before|) == Text(cs)
    decreases |cs|
  {
    hide Encode, DecodeFrom;
    if cs == [] {
      NothingDecodes(before + EncodeAll(cs));
    } else {
      var e, rest, s := Encode(cs[0]), EncodeAll(cs[1..]), before + EncodeAll(cs);
      assert cs[0] in cs && forall c :: c in cs[1..] ==> c in cs;
      assert s == (before + e) + rest && s[|before|..|before| + |e|] == e;
      DecodesOne(cs[0], s, |before|);
      DecodesBehind(cs[1..], before + e);
      assert cs == [cs[0]] + cs[1..];
    }
  }

  lemma NothingDecodes(s: seq<Byte>)
    ensures DecodeFrom(s, |s|) == Text([]) && EncodeAll([]) == []
  {
  }

  /** Decoding undoes encoding and reads every byte, for all texts. */
  lemma DecodingUndoesEncoding(cs: seq<U32>)
    requires forall c :: c in cs ==> c < LIMIT
    ensures DecodeFrom(EncodeAll(cs), 0) == Text(cs)
  {
    DecodesBehind(cs, []);
    assert [] + EncodeAll(cs) == EncodeAll(cs);
  }

  /** Different texts have different bytes. */
  lemma EncodingIsInjective(a: seq<U32>, b: seq<U32>)
    requires (forall c :: c in a ==> c < LIMIT) && (forall c :: c in b ==> c < LIMIT)
    requires EncodeAll(a) == EncodeAll(b)
    ensures a == b
  {
    DecodingUndoesEncoding(a);
    DecodingUndoesEncoding(b);
  }

  // ----- the other direction -----

  predicate IsContinuation(s: seq<Byte>, i: nat) {
    i < |s| && 0x80 <= s[i] < 0xC0
  }

  /** A character in its only proper form: continuation bytes where they belong, no more bytes than needed, and not
    * beyond the last character (the table in section 4 of RFC 3629, with the surrogates let through).
    */
  predicate ProperAt(s: seq<Byte>, i: nat)
    requires i < |s|
  {
    if s[i] <= 0x7F then true
    else if 0xC2 <= s[i] < 0xE0 then IsContinuation(s, i + 1)
    else if 0xE0 <= s[i] < 0xF0 then
      IsContinuation(s, i + 1) && IsContinuation(s, i + 2) && (s[i] == 0xE0 ==> s[i + 1] >= 0xA0)
    else if 0xF0 <= s[i] < 0xF5 then
      && IsContinuation(s, i + 1) && IsContinuation(s, i + 2) && IsContinuation(s, i + 3)
      && (s[i] == 0xF0 ==> s[i + 1] >= 0x90) && (s[i] == 0xF4 ==> s[i + 1] < 0x90)
    else false
  }

  predicate Proper(s: seq<Byte>, i: nat)
    decreases |s| - i
  {
    i >= |s| || (Width(s[i]) > 0 && ProperAt(s, i) && Proper(s, i + Width(s[i])))
  }

  /** A character is read back as the bytes that stand there exactly when they are in proper form. */
  lemma ProperExactly(s: seq<Byte>, i: nat)
    requires i < |s| && Width(s[i]) > 0 && i + Width(s[i]) <= |s| + 1
    ensures ProperAt(s, i) <==> i + Width(s[i]) <= |s| && Encode(CodeAt(s, i)) == s[i..i + Width(s[i])]
  {
    var w, c := Width(s[i]), CodeAt(s, i);
    if i + w <= |s| {
      var t := s[i..i + w];
      if w == 2 {
        ProperTwo(s[i], s[i + 1]);
        assert t == [s[i], s[i + 1]];
      } else if w == 3 {
        ProperThree(s[i], s[i + 1], s[i + 2]);
        assert t == [s[i], s[i + 1], s[i + 2]];
      } else if w == 4 {
        ProperFour(s[i], s[i + 1], s[i + 2], s[i + 3]);
        assert t == [s[i], s[i + 1], s[i + 2], s[i + 3]];
      }
    }
  }

  lemma ProperTwo(a: Byte, b: Byte)
    requires 0xC0 <= a < 0xE0
    ensures Encode(a % 32 * 64 + b % 64) == [a, b] <==> 0xC2 <= a && 0x80 <= b < 0xC0
  {
  }

  lemma ProperThree(a: Byte, b: Byte, c: Byte)
    requires 0xE0 <= a < 0xF0
    ensures Encode(a % 16 * 4096 + b % 64 * 64 + c % 64) == [a, b, c] <==>
            0x80 <= b < 0xC0 && 0x80 <= c < 0xC0 && (a == 0xE0 ==> b >= 0xA0)
  {
    var x, y, z := a % 16, b % 64, c % 64;
    var n := x * 4096 + y * 64 + z;
    assert n / 64 == x * 64 + y && n % 64 == z && n / 4096 == x && n / 64 % 64 == y;
  }

  lemma ProperFour(a: Byte, b: Byte, c: Byte, d: Byte)
    requires 0xF0 <= a < 0xF8
    ensures Encode(a % 8 * 262144 + b % 64 * 4096 + c % 64 * 64 + d % 64) == [a, b, c, d] <==>
            && 0x80 <= b < 0xC0 && 0x80 <= c < 0xC0 && 0x80 <= d < 0xC0
            && a < 0xF5 && (a == 0xF0 ==> b >= 0x90) && (a == 0xF4 ==> b < 0x90)
  {
    var w, x, y, z := a % 8, b % 64, c % 64, d % 64;
    FourParts(w, x, y, z);
    var n := w * 262144 + x * 4096 + y * 64 + z;
    EncodedLength(n);
    assert 0x1_0000 <= n < LIMIT <==> w < 5 && (w == 0 ==> x >= 16) && (w == 4 ==> x < 16);
    assert Encode(n) == [a, b, c, d] ==> 0x1_0000 <= n < LIMIT;
    assert 0x1_0000 <= n < LIMIT ==> Encode(n) == [0xF0 + w, 0x80 + x, 0x80 + y, 0x80 + z];
  }

  /** Shifting the parts of a character back. */
  lemma FourParts(w: nat, x: nat, y: nat, z: nat)
    requires w < 8 && x < 64 && y < 64 && z < 64
    ensures var n := w * 262144 + x * 4096 + y * 64 + z;
            n % 64 == z && n / 64 % 64 == y && n / 4096 % 64 == x && n / 262144 == w
  {
    var n := w * 262144 + x * 4096 + y * 64 + z;
    assert n / 64 == w * 4096 + x * 64 + y && n / 4096 == w * 64 + x;
  }

  /** Texts in proper form decode. */
  lemma {:induction false} ProperDecodes(s: seq<Byte>, i: nat)
    requires Proper(s, i)
    ensures DecodeFrom(s, i).Text?
    decreases |s| - i
  {
    if i < |s| {
      hide CodeAt;
      ProperDecodes(s, i + Width(s[i]));
    }
  }

  /** Reading the terminator as part of a character never gives back the bytes that stand there. */
  lemma CutOffIsLost(s: seq<Byte>, i: nat)
    requires i < |s| && i + Width(s[i]) == |s| + 1
    ensures Encode(CodeAt(s, i)) != s[i..]
  {
    EncodedLength(CodeAt(s, i));
    hide CodeAt;
  }

  /** One step of comparing with the bytes: what stands first must be a character in proper form. */
  lemma FirstMatches(s: seq<Byte>, i: nat, rest: seq<Byte>)
    requires i < |s| && Width(s[i]) > 0 && i + Width(s[i]) <= |s|
    requires Encode(CodeAt(s, i)) != []
    ensures Encode(CodeAt(s, i)) + rest == s[i..] <==> ProperAt(s, i) && rest == s[i + Width(s[i])..]
  {
    ProperExactly(s, i);
    EncodedLength(CodeAt(s, i));
    hide CodeAt, ProperAt;
    var e, w := Encode(CodeAt(s, i)), Width(s[i]);
    assert s[i..] == s[i..i + w] + s[i + w..];
    hide Encode;
    if e + rest == s[i..] {
      assert (e + rest)[0] == e[0];
      assert (e + rest)[..w] == e && (e + rest)[w..] == rest;
    }
  }

  /** No character takes more bytes than it was read from, the terminator counted. */
  lemma CodeIsNoLonger(s: seq<Byte>, i: nat)
    requires i < |s| && i + Width(s[i]) <= |s| + 1
    ensures Width(s[i]) > 0 ==> |Encode(CodeAt(s, i))| <= Width(s[i])
    ensures Width(s[i]) == 1 ==> Encode(CodeAt(s, i)) != []
  {
    EncodedLength(CodeAt(s, i));
    hide Encode;
  }

  lemma {:induction false} TextIsNoLonger(s: seq<Byte>, i: nat)
    requires i <= |s| + 1 && DecodeFrom(s, i).Text?
    ensures |EncodeAll(DecodeFrom(s, i).codes)| <= |s| + 1 - i
    decreases |s| - i
  {
    if i < |s| {
      hide CodeAt, Encode;
      CodeIsNoLonger(s, i);
      TextIsNoLonger(s, i + Width(s[i]));
      DecodedText(s, i);
    }
  }

  lemma DecodedText(s: seq<Byte>, i: nat)
    requires i < |s| && DecodeFrom(s, i).Text?
    ensures Width(s[i]) > 0 && i + Width(s[i]) <= |s| + 1 && DecodeFrom(s, i + Width(s[i])).Text?
    ensures EncodeAll(DecodeFrom(s, i).codes) == Encode(CodeAt(s, i)) + EncodeAll(DecodeFrom(s, i + Width(s[i])).codes)
  {
    hide CodeAt, Encode, Width;
    var cs := DecodeFrom(s, i + Width(s[i])).codes;
    assert ([CodeAt(s, i)] + cs)[1..] == cs;
  }

  /** What was decoded has the bytes it was decoded from exactly when those are in proper form. */
  lemma {:induction false} EncodingUndoesDecodingFrom(s: seq<Byte>, i: nat)
    requires i <= |s| && DecodeFrom(s, i).Text?
    ensures EncodeAll(DecodeFrom(s, i).codes) == s[i..] <==> Proper(s, i)
    decreases |s| - i
  {
    hide CodeAt, Encode, ProperAt, Width, DecodeFrom, EncodeAll;
    if i == |s| {
      NothingDecodes(s);
    } else {
      DecodedText(s, i);
      var w, e := Width(s[i]), Encode(CodeAt(s, i));
      var rest := EncodeAll(DecodeFrom(s, i + w).codes);
      TextIsNoLonger(s, i + w);
      ProperExactly(s, i);
      if i + w > |s| {
        CutOffIsLost(s, i);
        assert e + rest == e;
      } else if e == [] {
        CodeIsNoLonger(s, i);
        assert e + rest == rest;
      } else {
        FirstMatches(s, i, rest);
        EncodingUndoesDecodingFrom(s, i + w);
      }
    }
  }

  /** A text survives decoding and encoding exactly when its bytes are in proper form. */
  lemma EncodingUndoesDecoding(s: seq<Byte>)
    ensures Proper(s, 0) <==> DecodeFrom(s, 0).Text? && EncodeAll(DecodeFrom(s, 0).codes) == s
  {
    hide DecodeFrom, EncodeAll, Proper;
    assert s[0..] == s;
    if DecodeFrom(s, 0).Text? {
      EncodingUndoesDecodingFrom(s, 0);
    } else if Proper(s, 0) {
      ProperDecodes(s, 0);
    }
  }

  /** Improper bytes are not refused: this is NUL with a byte too many. */
  lemma OverlongIsAccepted()
    ensures DecodeFrom([0xC0, 0x80], 0) == Text([0]) && !Proper([0xC0, 0x80], 0)
  {
    assert DecodeFrom([0xC0, 0x80], 2) == Text([]);
  }

  /** A cut-off text is not refused either; the terminator serves as its last byte. */
  lemma CutOffIsAccepted()
    ensures DecodeFrom([0xC3], 0) == Text([0xC0]) && !Proper([0xC3], 0)
  {
    assert DecodeFrom([0xC3], 2) == Text([]);
  }
}
