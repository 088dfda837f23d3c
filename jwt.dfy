/**
 * The token codec (PyJWT's jwt.encode / jwt.decode with the configured secret).
 *
 * A token is text. The model replaces the signed compact form by a reversible
 * text format that carries the same claims: the optional `sub`, the optional
 * `role` and the integer `exp` (seconds). The format never contains a space,
 * as a real compact token never does, so it can travel in an Authorization
 * header. The signature, the secret and the algorithm are not modelled: every
 * text that does not parse is "invalid", like a token whose signature or shape
 * PyJWT rejects.
 *
 * Decoding checks the format first and the expiry second: a well-formed token
 * whose `exp` is not after `now` is expired (PyJWT raises ExpiredSignatureError
 * when exp <= now with no leeway).
 */
module Jwt {
  import opened Common

  /** The claims the system puts in its tokens; `exp` is a Unix time in seconds. */
  datatype Claims = Claims(sub: Option<string>, role: Option<string>, exp: int)

  /** What jwt.decode does with a token: return the payload or raise one of two errors. */
  datatype DecodeResult = Decoded(claims: Claims) | ExpiredSignature | InvalidToken

  // ---------------------------------------------------------------------------
  // Text fields: escaped until an unescaped '.'

  function EscapeChar(c: char): string
  {
    if c == '\\' then "\\\\"
    else if c == '.' then "\\."
    else if c == ' ' then "\\_"
    else [c]
  }

  function Escape(s: string): (e: string)
    ensures ' ' !in e
  {
    if s == [] then [] else EscapeChar(s[0]) + Escape(s[1..])
  }

  /** Reads escaped text up to its terminating '.'; returns the text and what follows. */
  function Unescape(s: string): Option<(string, string)>
  {
    if s == [] then None
    else if s[0] == '.' then Some(([], s[1..]))
    else if s[0] == '\\' then
      if |s| < 2 || (s[1] != '\\' && s[1] != '.' && s[1] != '_') then None
      else
        var c := if s[1] == '_' then ' ' else s[1];
        match Unescape(s[2..])
        case None => None
        case Some(p) => Some(([c] + p.0, p.1))
    else
      match Unescape(s[1..])
      case None => None
      case Some(p) => Some(([s[0]] + p.0, p.1))
  }

  /** Unescaping reads one escaped character back and carries on after it. */
  lemma UnescapeStep(c: char, tail: string)
    ensures Unescape(EscapeChar(c) + tail) ==
            match Unescape(tail)
            case None => None
            case Some(p) => Some(([c] + p.0, p.1))
  {
    var t := EscapeChar(c) + tail;
    if c == '\\' || c == '.' || c == ' ' {
      assert t[2..] == tail;
    } else {
      assert t[1..] == tail;
    }
  }

  lemma {:induction false} UnescapeEscape(s: string, rest: string)
    ensures Unescape(Escape(s) + "." + rest) == Some((s, rest))
  {
    var t := Escape(s) + "." + rest;
    if s == [] {
      assert t == "." + rest;
    } else {
      UnescapeEscape(s[1..], rest);
      var tail := Escape(s[1..]) + "." + rest;
      assert t == EscapeChar(s[0]) + tail;
      UnescapeStep(s[0], tail);
      assert s == [s[0]] + s[1..];
    }
  }

  // ---------------------------------------------------------------------------
  // Optional text claims: "-" when absent, "+" and the escaped text when present

  function EncodeField(f: Option<string>): (e: string)
    ensures ' ' !in e
  {
    match f
    case None => "-"
    case Some(s) => "+" + Escape(s) + "."
  }

  function ParseField(s: string): Option<(Option<string>, string)>
  {
    if s == [] then None
    else if s[0] == '-' then Some((None, s[1..]))
    else if s[0] == '+' then
      match Unescape(s[1..])
      case None => None
      case Some(p) => Some((Some(p.0), p.1))
    else None
  }

  lemma ParseEncodeField(f: Option<string>, rest: string)
    ensures ParseField(EncodeField(f) + rest) == Some((f, rest))
  {
    var t := EncodeField(f) + rest;
    match f
    case None =>
      assert t[1..] == rest;
    case Some(s) =>
      assert t[1..] == Escape(s) + "." + rest;
      UnescapeEscape(s, rest);
  }

  // ---------------------------------------------------------------------------
  // The integer expiry: decimal digits, with a leading '~' when negative

  predicate IsDigit(c: char)
  {
    '0' <= c <= '9'
  }

  predicate AllDigits(s: string)
  {
    forall i :: 0 <= i < |s| ==> IsDigit(s[i])
  }

  function DigitChar(d: nat): (c: char)
    requires d < 10
    ensures IsDigit(c) && c as int - '0' as int == d
  {
    (d + '0' as int) as char
  }

  function NatToDigits(n: nat): (s: string)
    ensures s != [] && AllDigits(s)
  {
    if n < 10 then [DigitChar(n)] else NatToDigits(n / 10) + [DigitChar(n % 10)]
  }

  function DigitsToNat(s: string): nat
    requires AllDigits(s)
  {
    if s == [] then 0
    else DigitsToNat(s[..|s| - 1]) * 10 + (s[|s| - 1] as int - '0' as int)
  }

  lemma {:induction false} DigitsRoundTrip(n: nat)
    ensures DigitsToNat(NatToDigits(n)) == n
  {
    if n >= 10 {
      var s := NatToDigits(n);
      DigitsRoundTrip(n / 10);
      assert s[..|s| - 1] == NatToDigits(n / 10);
    }
  }

  function EncodeInt(n: int): (e: string)
    ensures ' ' !in e
  {
    if n < 0 then "~" + NatToDigits(-n) else NatToDigits(n)
  }

  function ParseNat(s: string): Option<nat>
  {
    if s != [] && AllDigits(s) then Some(DigitsToNat(s)) else None
  }

  function ParseInt(s: string): Option<int>
  {
    if s != [] && s[0] == '~' then
      match ParseNat(s[1..])
      case None => None
      case Some(k) => Some(-(k as int))
    else
      match ParseNat(s)
      case None => None
      case Some(k) => Some(k)
  }

  lemma ParseEncodeInt(n: int)
    ensures ParseInt(EncodeInt(n)) == Some(n)
  {
    if n < 0 {
      var d := NatToDigits(-n);
      DigitsRoundTrip(-n);
      assert ParseNat(d) == Some(-n);
      assert EncodeInt(n) == "~" + d;
      assert ("~" + d)[1..] == d;
    } else {
      var d := NatToDigits(n);
      DigitsRoundTrip(n);
      assert IsDigit(d[0]);
      assert ParseNat(d) == Some(n);
    }
  }

  // ---------------------------------------------------------------------------
  // Whole tokens

  /** jwt.encode(claims, secret, algorithm): a non-empty text without spaces. */
  function Encode(c: Claims): (t: string)
    ensures t != [] && ' ' !in t
  {
    EncodeField(c.sub) + EncodeField(c.role) + EncodeInt(c.exp)
  }

  /** Reads the claims back from a token; None when the text is not a token. */
  function Parse(t: string): Option<Claims>
  {
    match ParseField(t)
    case None => None
    case Some(p1) =>
      match ParseField(p1.1)
      case None => None
      case Some(p2) =>
        match ParseInt(p2.1)
        case None => None
        case Some(exp) => Some(Claims(p1.0, p2.0, exp))
  }

  /** jwt.decode(token, secret, algorithms=[algorithm]) at time `now`. */
  function Decode(t: string, now: int): (r: DecodeResult)
    ensures r == InvalidToken <==> Parse(t) == None
    ensures r == ExpiredSignature <==> Parse(t).Some? && Parse(t).value.exp <= now
    ensures r.Decoded? ==> Parse(t) == Some(r.claims) && r.claims.exp > now
  {
    match Parse(t)
    case None => InvalidToken
    case Some(c) => if c.exp <= now then ExpiredSignature else Decoded(c)
  }

  /** Every token carries exactly the claims it was made from. */
  lemma ParseEncode(c: Claims)
    ensures Parse(Encode(c)) == Some(c)
  {
    var t := Encode(c);
    var afterSub := EncodeField(c.role) + EncodeInt(c.exp);
    assert t == EncodeField(c.sub) + afterSub;
    ParseEncodeField(c.sub, afterSub);
    ParseEncodeField(c.role, EncodeInt(c.exp));
    ParseEncodeInt(c.exp);
  }

  /** Decoding an issued token gives back its claims while `exp` is in the future, and
      reports it expired (never invalid) from `exp` on. */
  lemma DecodeEncode(c: Claims, now: int)
    ensures c.exp > now ==> Decode(Encode(c), now) == Decoded(c)
    ensures c.exp <= now ==> Decode(Encode(c), now) == ExpiredSignature
  {
    ParseEncode(c);
  }
}
