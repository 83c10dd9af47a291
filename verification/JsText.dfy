/** White space, trimming and lower case, as ECMAScript has them, and the shape of a UUID. */
module JsText {
  import opened Sequences

  predicate IsLineTerminator(c: char)
  {
    c == '\n' || c == '\r' || c == '\U{2028}' || c == '\U{2029}'
  }

  predicate IsSpace(c: char)
  {
    || IsLineTerminator(c)
    || c == '\t' || c == '\U{0B}' || c == '\U{0C}' || c == ' ' || c == '\U{A0}' || c == '\U{1680}'
    || '\U{2000}' <= c <= '\U{200A}' || c == '\U{202F}' || c == '\U{205F}' || c == '\U{3000}' || c == '\U{FEFF}'
  }

  function TrimStart(s: string): string
  {
    if s != [] && IsSpace(s[0]) then TrimStart(s[1..]) else s
  }

  function TrimEnd(s: string): (t: string)
    ensures t <= s
    ensures forall k :: |t| <= k < |s| ==> IsSpace(s[k])
  {
    if s != [] && IsSpace(Last(s)) then TrimEnd(Front(s)) else s
  }

  function Trim(s: string): string
  {
    TrimEnd(TrimStart(s))
  }

  function LowerChar(c: char): char
  {
    if 'A' <= c <= 'Z' then (c as int + 32) as char else c
  }

  /** `toLowerCase`, for the letters of ASCII. */
  function Lower(s: string): string
  {
    seq(|s|, i requires 0 <= i < |s| => LowerChar(s[i]))
  }

  /** `/^[0-9a-f]{8}-[0-9a-f]{4}-[1-8][0-9a-f]{3}-[89ab][0-9a-f]{3}-[0-9a-f]{12}$/` */
  predicate IsLowerUuid(s: string)
  {
    && |s| == 36
    && (forall k ::
          0 <= k < 36 ==> if k in {8, 13, 18, 23} then s[k] == '-' else '0' <= s[k] <= '9' || 'a' <= s[k] <= 'f')
    && '1' <= s[14] <= '8' && s[19] in {'8', '9', 'a', 'b'}
  }
}
