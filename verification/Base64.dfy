/** Base64 with the URL-safe alphabet (section 5 of RFC 4648) as Python's `base64` module
    encodes and decodes it, and the stripping and restoring of its padding. */
module Base64 {
  import opened Options

  type Byte = x: int | 0 <= x < 256
  type Sextet = x: int | 0 <= x < 64

  function Symbol(v: Sextet): (c: char)
    ensures c != '=' && c != '.' && c as int < 128
  {
    if v < 26 then 'A' + v as char
    else if v < 52 then 'a' + (v - 26) as char
    else if v < 62 then '0' + (v - 52) as char
    else if v == 62 then '-'
    else '_'
  }

  /** `urlsafe_b64decode` maps '-' and '_' to '+' and '/' and lets those through as well. */
  function SextetOf(c: char): Option<Sextet> {
    if 'A' <= c <= 'Z' then Some((c - 'A') as int)
    else if 'a' <= c <= 'z' then Some((c - 'a') as int + 26)
    else if '0' <= c <= '9' then Some((c - '0') as int + 52)
    else if c == '-' || c == '+' then Some(62)
    else if c == '_' || c == '/' then Some(63)
    else None
  }

  /** Two symbols for one byte, three for two, four for three. */
  function Body(bs: seq<Byte>): string
    requires 1 <= |bs| <= 3
  {
    if |bs| == 1 then [Symbol(bs[0] / 4), Symbol(bs[0] % 4 * 16)]
    else if |bs| == 2 then [Symbol(bs[0] / 4), Symbol(bs[0] % 4 * 16 + bs[1] / 16), Symbol(bs[1] % 16 * 4)]
    else [Symbol(bs[0] / 4), Symbol(bs[0] % 4 * 16 + bs[1] / 16), Symbol(bs[1] % 16 * 4 + bs[2] / 64),
          Symbol(bs[2] % 64)]
  }

  /** `urlsafe_b64encode`. */
  function Encode(bs: seq<Byte>): string {
    if bs == [] then ""
    else if |bs| == 1 then Body(bs) + "=="
    else if |bs| == 2 then Body(bs) + "="
    else Body(bs[..3]) + Encode(bs[3..])
  }

  /** The decoder of `binascii`: characters outside the alphabet are skipped, a sufficient
      padding ends the input, an incomplete group is an error. */
  function Decode(s: string, quad: nat, left: nat, pads: nat): Option<seq<Byte>>
    requires quad < 4
    requires left < if quad == 0 then 1 else if quad == 1 then 64 else if quad == 2 then 16 else 4
  {
    if s == "" then (if quad == 0 then Some([]) else None)
    else if s[0] == '=' then
      if quad >= 2 && quad + pads + 1 >= 4 then Some([])
      else Decode(s[1..], quad, left, if quad >= 2 then pads + 1 else pads)
    else
      match SextetOf(s[0])
      case None => Decode(s[1..], quad, left, pads)
      case Some(v) =>
        if quad == 0 then Decode(s[1..], 1, v, 0)
        else if quad == 1 then Cons(left * 4 + v / 16, Decode(s[1..], 2, v % 16, 0))
        else if quad == 2 then Cons(left * 16 + v / 4, Decode(s[1..], 3, v % 4, 0))
        else Cons(left * 64 + v, Decode(s[1..], 0, 0, 0))
  }

  function Cons(b: Byte, rest: Option<seq<Byte>>): Option<seq<Byte>> {
    match rest
    case None => None
    case Some(bs) => Some([b] + bs)
  }

  /** The decoder on ASCII bytes, from its initial state. */
  function FromStart(s: string): Option<seq<Byte>> {
    Decode(s, 0, 0, 0)
  }

  predicate Ascii(s: string) {
    forall i :: 0 <= i < |s| ==> s[i] as int < 128
  }

  /** `urlsafe_b64decode`; None where it raises, as it does on any text that is not ASCII. */
  function DecodeAll(s: string): Option<seq<Byte>> {
    if Ascii(s) then FromStart(s) else None
  }

  /** Reading one symbol. */
  lemma Read(v: Sextet, rest: string, quad: nat, left: nat, pads: nat)
    requires quad < 4
    requires left < if quad == 0 then 1 else if quad == 1 then 64 else if quad == 2 then 16 else 4
    ensures Decode([Symbol(v)] + rest, quad, left, pads)
         == if quad == 0 then Decode(rest, 1, v, 0)
            else if quad == 1 then Cons(left * 4 + v / 16, Decode(rest, 2, v % 16, 0))
            else if quad == 2 then Cons(left * 16 + v / 4, Decode(rest, 3, v % 4, 0))
            else Cons(left * 64 + v, Decode(rest, 0, 0, 0))
  {
    assert ([Symbol(v)] + rest)[1..] == rest;
  }

  lemma ReadFour(v0: Sextet, v1: Sextet, v2: Sextet, v3: Sextet, rest: string)
    ensures FromStart([Symbol(v0)] + ([Symbol(v1)] + ([Symbol(v2)] + ([Symbol(v3)] + rest))))
         == Cons(v0 * 4 + v1 / 16, Cons(v1 % 16 * 16 + v2 / 4, Cons(v2 % 4 * 64 + v3, FromStart(rest))))
  {
    hide Decode, Symbol;
    Read(v0, [Symbol(v1)] + ([Symbol(v2)] + ([Symbol(v3)] + rest)), 0, 0, 0);
    Read(v1, [Symbol(v2)] + ([Symbol(v3)] + rest), 1, v0, 0);
    Read(v2, [Symbol(v3)] + rest, 2, v1 % 16, 0);
    Read(v3, rest, 3, v2 % 4, 0);
  }

  lemma GroupText(v0: Sextet, v1: Sextet, v2: Sextet, v3: Sextet, rest: string)
    ensures [Symbol(v0), Symbol(v1), Symbol(v2), Symbol(v3)] + rest
         == [Symbol(v0)] + ([Symbol(v1)] + ([Symbol(v2)] + ([Symbol(v3)] + rest)))
  {
  }

  /** A full group gives its three bytes and leaves the decoder as it started. */
  lemma ReadGroup(b: seq<Byte>, rest: string)
    requires |b| == 3
    ensures FromStart(Body(b) + rest) == Cons(b[0], Cons(b[1], Cons(b[2], FromStart(rest))))
  {
    hide FromStart, Symbol;
    var v0, v1, v2, v3 := b[0] / 4, b[0] % 4 * 16 + b[1] / 16, b[1] % 16 * 4 + b[2] / 64, b[2] % 64;
    GroupText(v0, v1, v2, v3, rest);
    ReadFour(v0, v1, v2, v3, rest);
  }

  lemma ReadThree(v0: Sextet, v1: Sextet, v2: Sextet)
    ensures FromStart([Symbol(v0)] + ([Symbol(v1)] + ([Symbol(v2)] + "=")))
         == Cons(v0 * 4 + v1 / 16, Cons(v1 % 16 * 16 + v2 / 4, Some([])))
  {
    Read(v0, [Symbol(v1)] + ([Symbol(v2)] + "="), 0, 0, 0);
    Read(v1, [Symbol(v2)] + "=", 1, v0, 0);
    Read(v2, "=", 2, v1 % 16, 0);
    assert Decode("=", 3, v2 % 4, 0) == Some([]);
  }

  lemma ReadLastTwo(b: seq<Byte>)
    requires |b| == 2
    ensures FromStart(Body(b) + "=") == Some(b)
  {
    var v0, v1, v2 := b[0] / 4, b[0] % 4 * 16 + b[1] / 16, b[1] % 16 * 4;
    assert Body(b) + "=" == [Symbol(v0)] + ([Symbol(v1)] + ([Symbol(v2)] + "="));
    ReadThree(v0, v1, v2);
    assert [b[0]] + ([b[1]] + []) == b;
  }

  lemma ReadLastOne(b: seq<Byte>)
    requires |b| == 1
    ensures FromStart(Body(b) + "==") == Some(b)
  {
    var v0, v1 := b[0] / 4, b[0] % 4 * 16;
    assert Body(b) + "==" == [Symbol(v0)] + ([Symbol(v1)] + "==");
    Read(v0, [Symbol(v1)] + "==", 0, 0, 0);
    Read(v1, "==", 1, v0, 0);
    assert "=="[1..] == "=";
    assert Decode("=", 2, v1 % 16, 1) == Some([]);
    assert [b[0]] + [] == b;
  }

  lemma {:induction false} FromStartEncode(bs: seq<Byte>)
    ensures FromStart(Encode(bs)) == Some(bs)
  {
    if |bs| == 1 {
      ReadLastOne(bs);
    } else if |bs| == 2 {
      ReadLastTwo(bs);
    } else if |bs| >= 3 {
      ReadGroup(bs[..3], Encode(bs[3..]));
      FromStartEncode(bs[3..]);
      assert [bs[0]] + ([bs[1]] + ([bs[2]] + bs[3..])) == bs;
    }
  }

  lemma {:induction false} EncodeIsAscii(bs: seq<Byte>)
    ensures Ascii(Encode(bs))
  {
    if |bs| >= 3 {
      EncodeIsAscii(bs[3..]);
    }
  }

  /** Decoding what was encoded gives the bytes back. */
  lemma DecodeEncode(bs: seq<Byte>)
    ensures DecodeAll(Encode(bs)) == Some(bs)
  {
    EncodeIsAscii(bs);
    FromStartEncode(bs);
  }

  // ---------------- reading any text ----------------

  /** The 64 symbols, and two more that are read like the last ones. */
  lemma AlphabetExactly(c: char, v: Sextet)
    ensures SextetOf(c) == Some(v) <==> c == Symbol(v) || (v == 62 && c == '+') || (v == 63 && c == '/')
  {
  }

  lemma SymbolsOfTheStandard(i: nat)
    ensures i < 26 ==> Symbol(i) == "ABCDEFGHIJKLMNOPQRSTUVWXYZ"[i] && Symbol(26 + i) == "abcdefghijklmnopqrstuvwxyz"[i]
    ensures i < 10 ==> Symbol(52 + i) == "0123456789"[i]
    ensures Symbol(62) == '-' && Symbol(63) == '_'
  {
  }

  /** The symbols of a text; everything else is skipped. */
  function SymbolCount(s: string): nat {
    if s == "" then 0 else (if SextetOf(s[0]).Some? then 1 else 0) + SymbolCount(s[1..])
  }

  lemma {:induction false} DecodedLength(s: string, quad: nat, left: nat, pads: nat)
    requires '=' !in s && quad < 4
    requires left < if quad == 0 then 1 else if quad == 1 then 64 else if quad == 2 then 16 else 4
    ensures
      var r, k := Decode(s, quad, left, pads), quad + SymbolCount(s);
      && (r.Some? <==> k % 4 == 0)
      && (r.Some? ==> |r.value| + (if quad == 0 then 0 else quad - 1) == k / 4 * 3)
  {
    if s != "" {
      assert s == [s[0]] + s[1..];
      match SextetOf(s[0])
      case None => DecodedLength(s[1..], quad, left, pads);
      case Some(v) =>
        if quad == 0 {
          DecodedLength(s[1..], 1, v, 0);
        } else if quad == 1 {
          DecodedLength(s[1..], 2, v % 16, 0);
        } else if quad == 2 {
          DecodedLength(s[1..], 3, v % 4, 0);
        } else {
          DecodedLength(s[1..], 0, 0, 0);
        }
    }
  }

  /** Text without padding decodes exactly if its symbols come in fours, each giving three bytes. */
  lemma UnpaddedDecodes(s: string)
    requires '=' !in s
    ensures DecodeAll(s).Some? <==> Ascii(s) && SymbolCount(s) % 4 == 0
    ensures DecodeAll(s).Some? ==> |DecodeAll(s).value| == SymbolCount(s) / 4 * 3
  {
    DecodedLength(s, 0, 0, 0);
  }

  // ---------------- padding ----------------

  /** `s.rstrip("=")`. */
  function Strip(s: string): string {
    if s != "" && s[|s| - 1] == '=' then Strip(s[..|s| - 1]) else s
  }

  function Pads(k: nat): string {
    seq(k, _ => '=')
  }

  /** `s + "=" * (-len(s) % 4)`. */
  function Repad(s: string): string {
    s + Pads((-|s|) % 4)
  }

  predicate Plain(s: string) {
    forall c <- s :: c != '=' && c != '.'
  }

  /** The padding that the encoder puts, and what is in front of it. */
  function Unpadded(bs: seq<Byte>): (r: string)
    ensures Plain(r)
  {
    if bs == [] then ""
    else if |bs| <= 2 then Body(bs)
    else Body(bs[..3]) + Unpadded(bs[3..])
  }

  lemma RepadAfter(group: string, r: string)
    requires |group| == 4
    ensures group + Repad(r) == Repad(group + r)
  {
    assert (-(4 + |r|)) % 4 == (-|r|) % 4;
    assert group + (r + Pads((-|r|) % 4)) == (group + r) + Pads((-|r|) % 4);
  }

  lemma {:induction false} EncodeIsPadded(bs: seq<Byte>)
    ensures Encode(bs) == Repad(Unpadded(bs))
  {
    if |bs| >= 3 {
      EncodeIsPadded(bs[3..]);
      RepadAfter(Body(bs[..3]), Unpadded(bs[3..]));
    } else if |bs| == 1 {
      assert Pads(2) == "==";
    } else if |bs| == 2 {
      assert Pads(1) == "=";
    } else {
      assert Pads(0) == "";
    }
  }

  lemma {:induction false} StripPadding(s: string, k: nat)
    requires Plain(s)
    ensures Strip(s + Pads(k)) == s
  {
    var t := s + Pads(k);
    if k == 0 {
      assert t == s;
      assert s != "" ==> s[|s| - 1] in s;
    } else {
      assert t[..|t| - 1] == s + Pads(k - 1);
      StripPadding(s, k - 1);
    }
  }

  lemma StripRepad(s: string)
    requires Plain(s)
    ensures Strip(Repad(s)) == s
  {
    StripPadding(s, (-|s|) % 4);
  }

  /** Stripping the padding loses nothing: restoring it gives the encoded text back, which
      decodes to the bytes. */
  lemma StripRepadDecode(bs: seq<Byte>)
    ensures Strip(Encode(bs)) == Unpadded(bs)
    ensures Repad(Strip(Encode(bs))) == Encode(bs)
    ensures DecodeAll(Repad(Strip(Encode(bs)))) == Some(bs)
  {
    EncodeIsPadded(bs);
    StripRepad(Unpadded(bs));
    DecodeEncode(bs);
  }
}
