/**
 * three.js colours as the editor uses them: three channels, each a real
 * number; a hex colour such as `0x777777` gives each byte over 255.
 */
module Colors {

  datatype Rgb = Rgb(r: real, g: real, b: real)

  /** `new Color(hex)`: the red, green and blue bytes of `hex`, each over 255. */
  function FromHex(hex: nat): (c: Rgb)
    ensures 0.0 <= c.r <= 1.0 && 0.0 <= c.g <= 1.0 && 0.0 <= c.b <= 1.0
  {
    Rgb((hex / 0x10000 % 0x100) as real / 255.0, (hex / 0x100 % 0x100) as real / 255.0, (hex % 0x100) as real / 255.0)
  }

  /** Each channel times `factor`. */
  function Scale(c: Rgb, factor: real): Rgb {
    Rgb(c.r * factor, c.g * factor, c.b * factor)
  }
}
