/** `base64.b64encode(...).decode('utf-8')`, which the queries apply to image
    blobs: the standard alphabet with '=' padding, as section 4 of RFC 4648
    defines it. */
module Base64 {
  import opened Values

  /** The character for a 6-bit group. */
  function Digit(n: int): char
    requires 0 <= n < 64
  {
    if n < 26 then ('A' as int + n) as char
    else if n < 52 then ('a' as int + n - 26) as char
    else if n < 62 then ('0' as int + n - 52) as char
    else if n == 62 then '+'
    else '/'
  }

  /** Four characters for every started group of three bytes, so that only
      the empty blob encodes to the empty text. */
  function Encode(b: Bytes): (s: string)
    ensures |s| == 4 * ((|b| + 2) / 3)
    ensures s == "" <==> b == []
    decreases |b|
  {
    if |b| == 0 then ""
    else if |b| == 1 then [Digit(b[0] / 4), Digit((b[0] % 4) * 16), '=', '=']
    else if |b| == 2 then [Digit(b[0] / 4), Digit((b[0] % 4) * 16 + b[1] / 16), Digit((b[1] % 16) * 4), '=']
    else
      [Digit(b[0] / 4), Digit((b[0] % 4) * 16 + b[1] / 16), Digit((b[1] % 16) * 4 + b[2] / 64), Digit(b[2] % 64)]
        + Encode(b[3..])
  }
}
