/** Colours and cell materials.

    A script hands back a `Color4` (RGBA); a cell's material keeps an RGB
    colour, an opacity and a depth-mask flag.  Writing a colour into a
    material (main.go:200-203) sets all three from the `Color4`.
    The built-in colour table bound as script globals is the one in
    `setupLuaState` (main.go:140-148).
 */
module Colors {

  datatype Rgb = Rgb(r: real, g: real, b: real)

  datatype Color4 = Color4(r: real, g: real, b: real, a: real)

  /** A cell's material.  Every cell material main.go creates is a
      `Standard` one; `Other` stands for any other material kind, which the
      reload pass refuses to touch (the type assertion at main.go:196). */
  datatype Material =
    | Standard(color: Rgb, opacity: real, depthMask: bool)
    | Other

  /** The colour every cell starts with (main.go:103): CSS LightGray, #D3D3D3. */
  const LightGray: Rgb := Rgb(211.0 / 255.0, 211.0 / 255.0, 211.0 / 255.0)

  /** A freshly created standard material: the given colour, fully opaque,
      writing to the depth buffer. */
  function NewStandard(c: Rgb): (m: Material)
    ensures m.Standard? && m.color == c
  {
    Standard(c, 1.0, true)
  }

  /** The RGB part of a colour (`Color4.ToColor`). */
  function ToColor(c: Color4): Rgb
  {
    Rgb(c.r, c.g, c.b)
  }

  /** The material a successful write leaves behind (main.go:200-203):
      RGB from the colour, opacity from its alpha, and depth writes only for
      a colour that is not fully transparent. */
  function Painted(c: Color4): (m: Material)
    ensures m.Standard?
    ensures m.depthMask <==> m.opacity != 0.0
    ensures m.color == ToColor(c) && m.opacity == c.a
  {
    Standard(ToColor(c), c.a, c.a != 0.0)
  }

  /** The named colours the script may use as globals (main.go:140-148). */
  const Builtins: map<string, Color4> := map[
    "red"         := Color4(1.0, 0.0, 0.0, 1.0),
    "blue"        := Color4(0.0, 0.0, 1.0, 1.0),
    "green"       := Color4(0.0, 1.0, 0.0, 1.0),
    "yellow"      := Color4(1.0, 1.0, 0.0, 1.0),
    "black"       := Color4(0.0, 0.0, 0.0, 1.0),
    "white"       := Color4(1.0, 1.0, 1.0, 1.0),
    "transparent" := Color4(1.0, 0.0, 0.0, 0.0)
  ]

  /** Of the built-in colours exactly `transparent` switches depth writes
      off; every other one leaves the cell fully opaque. */
  lemma BuiltinDepthMask(name: string)
    requires name in Builtins
    ensures Painted(Builtins[name]).depthMask <==> name != "transparent"
    ensures name != "transparent" ==> Painted(Builtins[name]).opacity == 1.0
  {
  }

  /** `transparent` carries the RGB of `red`: only its alpha tells them apart,
      so painting with it keeps the red colour but hides the cell. */
  lemma TransparentIsInvisibleRed()
    ensures ToColor(Builtins["transparent"]) == ToColor(Builtins["red"])
    ensures Painted(Builtins["transparent"]) != Painted(Builtins["red"])
    ensures Painted(Builtins["transparent"]).opacity == 0.0
  {
  }

  /** The six opaque built-in colours are pairwise distinct, so a script
      that names two of them paints two different colours. */
  lemma BuiltinsDistinct(a: string, b: string)
    requires a in Builtins && b in Builtins
    requires a != b && a != "transparent" && b != "transparent"
    ensures Builtins[a] != Builtins[b]
  {
  }
}
