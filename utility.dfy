/**
 * The token-decoding and date helpers of `Utility`.
 *
 * `atob` followed by `JSON.parse` is a foreign function here: a `Decoder` maps the
 * base64 text of a token's payload segment to the claims it holds, or to None when
 * decoding throws.
 */
module Utility {
  import opened Js
  import opened Dates
  import opened Wrappers

  /** The claims of a JWT payload that the application reads. */
  datatype Claims = Claims(exp: JsValue, jti: JsValue, id: JsValue, sub: JsValue, userId: JsValue)

  /** `JSON.parse(atob(text))`, None when it throws. */
  type Decoder = string -> Option<Claims>

  /** `token.split('.')[1]`: the payload segment, or None (`undefined`) when there is no '.'. */
  function SecondSegment(token: string): Option<string> {
    var parts := Split(token, '.');
    if |parts| >= 2 then Some(parts[1]) else None
  }

  /** The second segment is missing exactly when the token has no '.', and otherwise it is
      the text between the first '.' and the next '.' (or the end). */
  lemma SecondSegmentSpec(token: string)
    ensures SecondSegment(token).None? <==> '.' !in token
    ensures forall a: string, b: string, rest: string :: '.' !in a && '.' !in b && token == a + "." + b + "." + rest
              ==> SecondSegment(token) == Some(b)
    ensures forall a: string, b: string :: '.' !in a && '.' !in b && token == a + "." + b
              ==> SecondSegment(token) == Some(b)
  {
    if '.' !in token {
      SplitNoSeparator(token, '.');
    } else {
      var i :| 0 <= i < |token| && token[i] == '.';
      SplitAtSeparator(token, i);
    }
    forall a: string, b: string, rest: string | '.' !in a && '.' !in b && token == a + "." + b + "." + rest
      ensures SecondSegment(token) == Some(b)
    {
      assert token == a + ['.'] + (b + ['.'] + rest);
      SplitFirst(a, '.', b + ['.'] + rest);
      SplitFirst(b, '.', rest);
    }
    forall a: string, b: string | '.' !in a && '.' !in b && token == a + "." + b
      ensures SecondSegment(token) == Some(b)
    {
      SplitFirst(a, '.', b);
      SplitNoSeparator(b, '.');
    }
  }

  /** A string with a separator at position i splits into at least two parts. */
  lemma {:induction false} SplitAtSeparator(s: string, i: nat)
    requires i < |s| && s[i] == '.'
    ensures |Split(s, '.')| >= 2
    decreases i
  {
    if s[0] != '.' {
      SplitAtSeparator(s[1..], i - 1);
    }
  }

  /** `s.replace(/x/g, y)` for single characters. */
  function ReplaceChar(s: string, x: char, y: char): (r: string)
    ensures |r| == |s|
    ensures forall i | 0 <= i < |s| :: r[i] == (if s[i] == x then y else s[i])
  {
    if s == [] then "" else [if s[0] == x then y else s[0]] + ReplaceChar(s[1..], x, y)
  }

  /** The base64url-to-base64 alphabet change of one character. */
  function UrlToStdChar(c: char): char {
    if c == '-' then '+' else if c == '_' then '/' else c
  }

  /** `payload.replace(/-/g, '+').replace(/_/g, '/')` */
  function Base64UrlToBase64(s: string): string {
    ReplaceChar(ReplaceChar(s, '-', '+'), '_', '/')
  }

  /** The mapping changes each '-' to '+' and each '_' to '/', keeps every other character
      and the length, leaves no '-' or '_', and is idempotent. */
  lemma Base64UrlToBase64Spec(s: string)
    ensures |Base64UrlToBase64(s)| == |s|
    ensures forall i | 0 <= i < |s| :: Base64UrlToBase64(s)[i] == UrlToStdChar(s[i])
    ensures '-' !in Base64UrlToBase64(s) && '_' !in Base64UrlToBase64(s)
    ensures Base64UrlToBase64(Base64UrlToBase64(s)) == Base64UrlToBase64(s)
  {
    var r := Base64UrlToBase64(s);
    assert forall i | 0 <= i < |s| :: r[i] == UrlToStdChar(s[i]);
    assert Base64UrlToBase64(r) == r;
  }

  /** `decodeToken(token)`: None when the token has no payload segment (the `replace` call
      on `undefined` throws) or when decoding the mapped segment throws. */
  function DecodeToken(token: string, decode: Decoder): Option<Claims> {
    match SecondSegment(token)
    case None => None
    case Some(seg) => decode(Base64UrlToBase64(seg))
  }

  /** A token without a '.' cannot be decoded; otherwise the text between the first and the
      second '.' is what is decoded, after the alphabet change. */
  lemma DecodeTokenSpec(token: string, decode: Decoder)
    ensures '.' !in token ==> DecodeToken(token, decode).None?
    ensures forall a: string, b: string, rest: string :: '.' !in a && '.' !in b && token == a + "." + b + "." + rest
              ==> DecodeToken(token, decode) == decode(Base64UrlToBase64(b))
  {
    SecondSegmentSpec(token);
  }

  /** `getToday()` at the clock reading `now`: the start of the same calendar day. */
  function GetToday(now: Civil): (r: Civil)
    ensures SameDay(r, now) && r.hour == 0 && r.minute == 0 && r.second == 0 && r.millis == 0
    ensures TimeValue(r) <= TimeValue(now) < TimeValue(r) + 86400000
  {
    var r := SetHours(now, 0, 0);
    SameDayTimeValue(now, r);
    r
  }
}
