/** The few string tests of the source that depend on Unicode. */
module Text {
  // Unicode White_Space
  predicate IsWhitespace(c: char) {
    var p := c as int;
    9 <= p <= 13 || p == 0x20 || p == 0x85 || p == 0xA0 || p == 0x1680 || 0x2000 <= p <= 0x200A
    || p == 0x2028 || p == 0x2029 || p == 0x202F || p == 0x205F || p == 0x3000
  }

  // `trim().is_empty()`
  predicate Blank(s: string) { forall i :: 0 <= i < |s| ==> IsWhitespace(s[i]) }

  // `len()` of the UTF-8 encoding
  function ByteLength(s: string): nat {
    if s == [] then 0
    else
      var p := s[0] as int;
      (if p < 0x80 then 1 else if p < 0x800 then 2 else if p < 0x1_0000 then 3 else 4) + ByteLength(s[1..])
  }
}
