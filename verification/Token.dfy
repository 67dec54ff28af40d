/** Bearer tokens (backend/app/auth.py): an expiry time, encoded and signed. The signature is
    any function of the payload whose result has no dot, like a hexadecimal digest. */
module Token {
  import opened Options
  import opened Base64

  // ---------------- decimal numbers ----------------

  function Digits(n: nat): (s: string)
    ensures s != "" && forall i :: 0 <= i < |s| ==> '0' <= s[i] <= '9'
  {
    if n < 10 then [Digit(n)] else Digits(n / 10) + [Digit(n % 10)]
  }

  function Digit(d: nat): (c: char)
    requires d < 10
    ensures '0' <= c <= '9'
  {
    '0' + d as char
  }

  /** `str(n)`. */
  function IntText(n: int): (s: string)
    ensures Ascii(s) && s != "" && (s[0] == '-' <==> n < 0)
  {
    if n < 0 then "-" + Digits(-n) else Digits(n)
  }

  function ReadDigits(s: string): Option<nat> {
    if s == "" then Some(0)
    else
      var c := s[|s| - 1];
      var high := ReadDigits(s[..|s| - 1]);
      if high.Some? && '0' <= c <= '9' then Some(high.value * 10 + (c - '0') as nat) else None
  }

  /** `int(s)` on a sign and decimal digits; None where it raises ValueError. */
  function ParseInt(s: string): Option<int> {
    if s == "" then None
    else if s[0] == '-' || s[0] == '+' then
      var n := ReadDigits(s[1..]);
      if s[1..] == "" || n.None? then None
      else
        var k: int := n.value;
        Some(if s[0] == '-' then -k else k)
    else
      var n := ReadDigits(s);
      if n.None? then None else Some(n.value)
  }

  lemma {:induction false} ReadPrinted(n: nat)
    ensures ReadDigits(Digits(n)) == Some(n)
  {
    if n < 10 {
      assert Digits(n)[..0] == "";
    } else {
      ReadPrinted(n / 10);
      assert Digits(n)[..|Digits(n)| - 1] == Digits(n / 10);
    }
  }

  lemma ParsePrinted(n: int)
    ensures ParseInt(IntText(n)) == Some(n)
  {
    hide Digits, ReadDigits;
    if n < 0 {
      var digits := Digits(-n);
      ReadPrinted(-n);
      assert ("-" + digits)[1..] == digits;
      assert ParseInt("-" + digits) == Some(n);
    } else {
      ReadPrinted(n);
      assert '0' <= Digits(n)[0] <= '9';
    }
  }

  // ---------------- text and bytes ----------------

  /** `s.encode()` and `bs.decode()` on ASCII. */
  function ToBytes(s: string): (bs: seq<Byte>)
    requires Ascii(s)
  {
    seq(|s|, i requires 0 <= i < |s| => s[i] as int)
  }

  function FromBytes(bs: seq<Byte>): (s: Option<string>)
    ensures s.Some? <==> forall i :: 0 <= i < |bs| ==> bs[i] < 128
    ensures s.Some? ==> Ascii(s.value) && ToBytes(s.value) == bs
  {
    if forall i :: 0 <= i < |bs| ==> bs[i] < 128 then
      Some(seq(|bs|, i requires 0 <= i < |bs| => bs[i] as char))
    else None
  }

  lemma BytesBack(s: string)
    requires Ascii(s)
    ensures FromBytes(ToBytes(s)) == Some(s)
  {
    assert FromBytes(ToBytes(s)).Some?;
    assert FromBytes(ToBytes(s)).value == s;
  }

  // ---------------- tokens ----------------

  type Signature = string -> string

  ghost predicate NoDot(sign: Signature) {
    forall p: string :: '.' !in sign(p)
  }

  /** `int(t)`, towards zero. */
  function Truncated(t: real): (r: int)
    ensures if t >= 0.0 then r as real <= t < (r + 1) as real else (r - 1) as real < t <= r as real
  {
    if t >= 0.0 then t.Floor else -((-t).Floor)
  }

  function PayloadOf(expiry: int): string {
    Strip(Encode(ToBytes(IntText(expiry))))
  }

  function CreateToken(now: real, ttl: int, sign: Signature): string {
    var payload := PayloadOf(Truncated(now) + ttl);
    payload + "." + sign(payload)
  }

  /** `token.rsplit(".", 1)`, as the index of the last dot. */
  function LastDot(s: string): (i: nat)
    requires '.' in s
    ensures i < |s| && s[i] == '.'
    ensures '.' !in s[i + 1..]
  {
    if s[|s| - 1] == '.' then |s| - 1
    else
      var i := LastDot(s[..|s| - 1]);
      assert s[i + 1..] == s[..|s| - 1][i + 1..] + [s[|s| - 1]];
      i
  }

  lemma {:induction false} LastDotUnique(a: string, b: string)
    requires '.' !in b
    ensures LastDot(a + "." + b) == |a|
    decreases |b|
  {
    var s := a + "." + b;
    if b != "" {
      var n := |b| - 1;
      assert s[..|s| - 1] == a + "." + b[..n];
      assert b[n] in b;
      LastDotUnique(a, b[..n]);
    }
  }

  /** The expiry that a payload carries; None where decoding it raises. */
  function ExpiryOf(payload: string): Option<int> {
    match DecodeAll(Repad(payload))
    case None => None
    case Some(bs) =>
      match FromBytes(bs)
      case None => None
      case Some(text) => ParseInt(text)
  }

  /** `verify_token`. */
  function VerifyToken(authEnabled: bool, token: Option<string>, now: real, sign: Signature): bool {
    if !authEnabled then true
    else if token.None? || '.' !in token.value then false
    else
      var s := token.value;
      var i := LastDot(s);
      var payload, sig := s[..i], s[i + 1..];
      if sign(payload) != sig then false
      else
        match ExpiryOf(payload)
        case None => false
        case Some(expiry) => now < expiry as real
  }

  lemma ExpiryPrinted(expiry: int)
    ensures ExpiryOf(PayloadOf(expiry)) == Some(expiry)
  {
    var text := IntText(expiry);
    StripRepadDecode(ToBytes(text));
    BytesBack(text);
    ParsePrinted(expiry);
  }

  /** Round trip: a token made at t0 is good at t exactly until its time to live is over, on
      every replica with the same secret. */
  lemma TokenRoundTrip(t0: real, ttl: int, t: real, sign: Signature)
    requires NoDot(sign)
    ensures VerifyToken(true, Some(CreateToken(t0, ttl, sign)), t, sign) <==> t < (Truncated(t0) + ttl) as real
  {
    var payload := PayloadOf(Truncated(t0) + ttl);
    var token := CreateToken(t0, ttl, sign);
    assert token == payload + "." + sign(payload);
    SplitAtDot(payload, sign(payload));
    ExpiryPrinted(Truncated(t0) + ttl);
  }

  /** In terms of the clock: the whole life of a token is at most its time to live and, for times
      after 1970, less than a second shorter. */
  lemma TokenLife(t0: real, ttl: int, t: real, sign: Signature)
    requires NoDot(sign) && t0 >= 0.0
    ensures t <= t0 + ttl as real - 1.0 ==> VerifyToken(true, Some(CreateToken(t0, ttl, sign)), t, sign)
    ensures t >= t0 + ttl as real ==> !VerifyToken(true, Some(CreateToken(t0, ttl, sign)), t, sign)
  {
    hide VerifyToken, CreateToken;
    TokenRoundTrip(t0, ttl, t, sign);
  }

  /** What is accepted at all: exactly a payload with its own signature and a later expiry. */
  lemma AcceptedIsSigned(s: string, t: real, sign: Signature)
    requires NoDot(sign)
    ensures VerifyToken(true, Some(s), t, sign) <==>
      exists payload: string ::
        && s == payload + "." + sign(payload)
        && ExpiryOf(payload).Some? && t < ExpiryOf(payload).value as real
  {
    if VerifyToken(true, Some(s), t, sign) {
      var payload := s[..LastDot(s)];
      assert s == payload + "." + sign(payload);
    }
    if payload: string :| s == payload + "." + sign(payload)
                          && ExpiryOf(payload).Some? && t < ExpiryOf(payload).value as real {
      SplitAtDot(payload, sign(payload));
    }
  }

  lemma SplitAtDot(payload: string, signature: string)
    requires '.' !in signature
    ensures
      var s := payload + "." + signature;
      '.' in s && LastDot(s) == |payload| && s[..|payload|] == payload && s[|payload| + 1..] == signature
  {
    var s := payload + "." + signature;
    assert s[|payload|] == '.';
    LastDotUnique(payload, signature);
  }
}
