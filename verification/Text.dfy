/** White space, digits and trimming, as Rust's `char::is_whitespace` and `str::trim*` define them. */
module Text {

  /** The code points with property White_Space. */
  predicate IsWhitespace(c: char) {
    var n := c as int;
    0x09 <= n <= 0x0D || n == 0x20 || n == 0x85 || n == 0xA0 || n == 0x1680 || 0x2000 <= n <= 0x200A
    || n == 0x2028 || n == 0x2029 || n == 0x202F || n == 0x205F || n == 0x3000
  }

  predicate IsDigit(c: char) {
    '0' <= c <= '9'
  }

  function TrimStart(t: string): (r: string)
    ensures |r| > 0 ==> !IsWhitespace(r[0])
    ensures |r| <= |t|
  {
    if |t| > 0 && IsWhitespace(t[0]) then TrimStart(t[1..]) else t
  }

  function TrimEnd(t: string): (r: string)
    ensures |r| > 0 ==> !IsWhitespace(r[|r| - 1])
    ensures |r| <= |t|
  {
    if |t| > 0 && IsWhitespace(t[|t| - 1]) then TrimEnd(t[..|t| - 1]) else t
  }

  function Trim(t: string): string {
    TrimEnd(TrimStart(t))
  }
}
