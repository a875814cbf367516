/** Hexadecimal digits, read in either case. */
module Hex {
  import opened Wrappers
  import opened Utf16

  datatype Case = Lower | Upper

  function HexDigit(d: int, c: Case): Unit
    requires 0 <= d < 16
  {
    if d < 10 then 0x30 + d else (if c.Lower? then 0x57 else 0x37) + d
  }

  function HexValue(u: Unit): (r: Option<int>)
    ensures r.Some? ==> 0 <= r.value < 16
  {
    if 0x30 <= u <= 0x39 then Some(u - 0x30)
    else if 0x61 <= u <= 0x66 then Some(u - 0x57)
    else if 0x41 <= u <= 0x46 then Some(u - 0x37)
    else None
  }

  lemma HexDigitParses(d: int, c: Case)
    requires 0 <= d < 16
    ensures HexValue(HexDigit(d, c)) == Some(d)
  {
  }
}
