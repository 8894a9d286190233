/**
 * The token's wire format. The application writes its claims with
 * `base64_encode(json_encode(..))` and reads them back with
 * `json_decode(base64_decode(..), true)`. Neither library is modelled; this module
 * gives one concrete, self-delimiting text encoding of the same claim set, and a
 * total decoder that reports every malformed string as a failure, and proves that
 * decoding an encoding gives the claims back.
 *
 * Format: four fields in the order iat, exp, user_id, email. An absent field is `~`.
 * A present integer is `#`, an optional `-`, then its decimal digits, least
 * significant first. A present email is `#`, then for each character the code of that
 * character in the same digit form followed by `,`, then `.`. Nothing may follow the
 * email field. The text uses a small fixed alphabet (digits and `~ # - , .`); like
 * base64 text, a token never contains a space, so no `Bearer ` can occur inside it.
 */
module ClaimsCodec {
  import opened Wrappers

  /**
   * The decoded token: the keys verifyToken reads. A key that is missing, or `null`
   * (both fail PHP's `isset`), is `None`.
   */
  datatype Claims = Claims(iat: Option<int>, exp: Option<int>, userId: Option<int>, email: Option<string>)

  predicate IsDigit(c: char)
  {
    '0' <= c <= '9'
  }

  function DigitChar(d: nat): (c: char)
    requires d < 10
    ensures IsDigit(c)
  {
    ('0' as int + d) as char
  }

  function DigitValue(c: char): (d: nat)
    requires IsDigit(c)
    ensures d < 10 && DigitChar(d) == c
  {
    c as int - '0' as int
  }

  /** The decimal digits of `n`, least significant first; never empty. */
  function EncodeNat(n: nat): (r: string)
    ensures r != [] && forall k :: 0 <= k < |r| ==> IsDigit(r[k])
    decreases n
  {
    [DigitChar(n % 10)] + if n < 10 then [] else EncodeNat(n / 10)
  }

  /** Reads the longest run of digits at the front of `s` (at least one), least significant first. */
  function ParseNat(s: string): (r: Option<(nat, string)>)
    ensures r.Some? ==> |r.value.1| < |s|
    decreases |s|
  {
    if s == [] || !IsDigit(s[0]) then None
    else match ParseNat(s[1..])
      case None => Some((DigitValue(s[0]), s[1..]))
      case Some((v, rest)) => Some((DigitValue(s[0]) + 10 * v, rest))
  }

  function EncodeInt(i: int): string
  {
    if i < 0 then "-" + EncodeNat(-i) else EncodeNat(i)
  }

  function ParseInt(s: string): (r: Option<(int, string)>)
  {
    if s != [] && s[0] == '-' then
      match ParseNat(s[1..])
      case None => None
      case Some((v, rest)) => Some((0 - v, rest))
    else
      match ParseNat(s)
      case None => None
      case Some((v, rest)) => Some((v as int, rest))
  }

  function EncodeOptInt(o: Option<int>): string
  {
    match o
    case None => "~"
    case Some(i) => "#" + EncodeInt(i)
  }

  function ParseOptInt(s: string): Option<(Option<int>, string)>
  {
    if s == [] then None
    else if s[0] == '~' then Some((None, s[1..]))
    else if s[0] == '#' then
      match ParseInt(s[1..])
      case None => None
      case Some((i, rest)) => Some((Some(i), rest))
    else None
  }

  /** A number that is the code of a Unicode scalar value, so a `char`. */
  predicate IsCharCode(n: nat)
  {
    n < 0xD800 || 0xE000 <= n < 0x11_0000
  }

  /** Each character as the digit run of its code followed by `,`; the end of the text is `.`. */
  function EncodeChars(x: string): string
  {
    if x == [] then "." else EncodeNat(x[0] as nat) + "," + EncodeChars(x[1..])
  }

  function ParseChars(s: string): Option<(string, string)>
    decreases |s|
  {
    if s == [] then None
    else if s[0] == '.' then Some(([], s[1..]))
    else
      match ParseNat(s)
      case None => None
      case Some((n, rest)) =>
        if rest != [] && rest[0] == ',' && IsCharCode(n) then
          match ParseChars(rest[1..])
          case None => None
          case Some((cs, t)) => Some(([n as char] + cs, t))
        else None
  }

  function EncodeOptString(o: Option<string>): string
  {
    match o
    case None => "~"
    case Some(x) => "#" + EncodeChars(x)
  }

  function ParseOptString(s: string): Option<(Option<string>, string)>
  {
    if s == [] then None
    else if s[0] == '~' then Some((None, s[1..]))
    else if s[0] == '#' then
      match ParseChars(s[1..])
      case None => None
      case Some((x, rest)) => Some((Some(x), rest))
    else None
  }

  /** The token text for a claim set. */
  function Encode(c: Claims): string
  {
    EncodeOptInt(c.iat) + (EncodeOptInt(c.exp) + (EncodeOptInt(c.userId) + EncodeOptString(c.email)))
  }

  /** The claim set a token text stands for, or `None` when the text is malformed. */
  function Decode(s: string): Option<Claims>
  {
    match ParseOptInt(s)
    case None => None
    case Some((iat, r1)) =>
      match ParseOptInt(r1)
      case None => None
      case Some((exp, r2)) =>
        match ParseOptInt(r2)
        case None => None
        case Some((userId, r3)) =>
          match ParseOptString(r3)
          case None => None
          case Some((email, r4)) =>
            if r4 == [] then Some(Claims(iat, exp, userId, email)) else None
  }

  /** A digit run is read back whole, as long as no digit follows it. */
  lemma {:induction false} ParseEncodeNat(n: nat, t: string)
    requires t == [] || !IsDigit(t[0])
    ensures ParseNat(EncodeNat(n) + t) == Some((n, t))
    decreases n
  {
    var s := EncodeNat(n) + t;
    assert s[0] == DigitChar(n % 10);
    if n < 10 {
      assert s[1..] == t;
    } else {
      assert s[1..] == EncodeNat(n / 10) + t;
      ParseEncodeNat(n / 10, t);
    }
  }

  lemma ParseEncodeInt(i: int, t: string)
    requires t == [] || !IsDigit(t[0])
    ensures ParseInt(EncodeInt(i) + t) == Some((i, t))
  {
    if i < 0 {
      assert ("-" + EncodeNat(-i) + t)[1..] == EncodeNat(-i) + t;
      ParseEncodeNat(-i, t);
    } else {
      ParseEncodeNat(i, t);
    }
  }

  lemma ParseEncodeOptInt(o: Option<int>, t: string)
    requires t == [] || !IsDigit(t[0])
    ensures ParseOptInt(EncodeOptInt(o) + t) == Some((o, t))
  {
    match o
    case None =>
      assert ("~" + t)[1..] == t;
    case Some(i) =>
      assert ("#" + EncodeInt(i) + t)[1..] == EncodeInt(i) + t;
      ParseEncodeInt(i, t);
  }

  /** An encoded email text is read back whole, whatever follows it. */
  lemma {:induction false} ParseEncodeChars(x: string, t: string)
    ensures ParseChars(EncodeChars(x) + t) == Some((x, t))
    decreases |x|
  {
    var s := EncodeChars(x) + t;
    if x == [] {
      assert s[1..] == t;
    } else {
      var digits := EncodeNat(x[0] as nat);
      var rest := "," + (EncodeChars(x[1..]) + t);
      assert s == digits + rest;
      assert s[0] == digits[0];
      ParseEncodeNat(x[0] as nat, rest);
      assert rest[1..] == EncodeChars(x[1..]) + t;
      ParseEncodeChars(x[1..], t);
      assert [x[0] as nat as char] + x[1..] == x;
    }
  }

  lemma ParseEncodeOptString(o: Option<string>, t: string)
    ensures ParseOptString(EncodeOptString(o) + t) == Some((o, t))
  {
    match o
    case None =>
      assert ("~" + t)[1..] == t;
    case Some(x) =>
      assert ("#" + EncodeChars(x) + t)[1..] == EncodeChars(x) + t;
      ParseEncodeChars(x, t);
  }

  /** Every encoded field starts with its marker, which is not a digit. */
  lemma FieldMarkers(o: Option<int>, x: Option<string>)
    ensures EncodeOptInt(o) != [] && !IsDigit(EncodeOptInt(o)[0])
    ensures EncodeOptString(x) != [] && !IsDigit(EncodeOptString(x)[0])
  {
  }

  /** Decode accepts a text whose four fields parse in turn and leave nothing over. */
  lemma DecodeFields(s: string, r1: string, r2: string, r3: string, c: Claims)
    requires ParseOptInt(s) == Some((c.iat, r1))
    requires ParseOptInt(r1) == Some((c.exp, r2))
    requires ParseOptInt(r2) == Some((c.userId, r3))
    requires ParseOptString(r3) == Some((c.email, []))
    ensures Decode(s) == Some(c)
  {
  }

  /** Decoding a token produced by `Encode` gives back exactly the claims that were encoded. */
  lemma DecodeEncode(c: Claims)
    ensures Decode(Encode(c)) == Some(c)
  {
    var a, b, d, e := EncodeOptInt(c.iat), EncodeOptInt(c.exp), EncodeOptInt(c.userId), EncodeOptString(c.email);
    FieldMarkers(c.exp, c.email);
    FieldMarkers(c.userId, c.email);
    var r1, r2 := b + (d + e), d + e;
    assert r1[0] == b[0] && r2[0] == d[0];
    ParseEncodeOptInt(c.iat, r1);
    ParseEncodeOptInt(c.exp, r2);
    ParseEncodeOptInt(c.userId, e);
    ParseEncodeOptString(c.email, []);
    assert e + [] == e;
    DecodeFields(Encode(c), r1, r2, e, c);
  }

  /** The characters a token is written in: digits and the five markers `~ # - , .`. */
  predicate IsTokenChar(ch: char)
  {
    IsDigit(ch) || ch == '~' || ch == '#' || ch == '-' || ch == ',' || ch == '.'
  }

  lemma {:induction false} EncodeCharsAlphabet(x: string)
    ensures forall k :: 0 <= k < |EncodeChars(x)| ==> IsTokenChar(EncodeChars(x)[k])
    decreases |x|
  {
    if x != [] {
      EncodeCharsAlphabet(x[1..]);
    }
  }

  /**
   * Whatever the claims hold, a token is written in the fixed alphabet `IsTokenChar`;
   * like base64 text, it never contains a space, so no `Bearer ` can occur inside it.
   */
  lemma NoSpaceInEncoding(c: Claims)
    ensures forall k :: 0 <= k < |Encode(c)| ==> IsTokenChar(Encode(c)[k])
    ensures ' ' !in Encode(c)
  {
    if c.email.Some? {
      EncodeCharsAlphabet(c.email.value);
    }
    var s := Encode(c);
    assert forall k :: 0 <= k < |s| ==> IsTokenChar(s[k]);
  }
}
