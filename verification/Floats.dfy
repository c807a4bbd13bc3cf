/** The real numbers that IEEE 754 half and single precision encodings stand for. */
module Floats {
  import opened Words

  /** 2^n. */
  function Power(n: int): (p: real)
    ensures p > 0.0
    decreases if n < 0 then -n else n
  {
    if n == 0 then 1.0 else if n > 0 then 2.0 * Power(n - 1) else Power(n + 1) / 2.0
  }

  /** The IEEE half-precision number of two bytes; an infinity or NaN has no value here. */
  function Half(low: Byte, high: Byte): Option<real> {
    var exponent := high % 128 / 4;
    var fraction: nat := high % 4 * 256 + low;
    if exponent == 31 then None else
      var magnitude := if exponent == 0 then fraction as real * Power(-24)
                       else (1024 + fraction) as real * Power(exponent - 25);
      Some(if high >= 128 then -magnitude else magnitude)
  }

  /** The IEEE single-precision number with these 32 bits. */
  function Single(bits: U32): Option<real> {
    var exponent, fraction := bits / 0x80_0000 % 256, bits % 0x80_0000;
    if exponent == 255 then None else
      var magnitude := if exponent == 0 then fraction as real * Power(-149)
                       else (0x80_0000 + fraction) as real * Power(exponent - 150);
      Some(if bits >= 0x8000_0000 then -magnitude else magnitude)
  }
}
