/**
 * ANSI 256-colour wrappers (pkg/colour/colour.go) and the key/value palette handed to the
 * marshaller (pkg/colour/palette.go).
 */
module Colour {

  const Esc: char := '\U{1B}'

  /** The part of the template after the colour code: `m`. */
  const Reset: string := [Esc] + "[39;49m"

  /** One decimal digit. */
  function Digit(d: nat): char
    requires d < 10
  {
    "0123456789"[d]
  }

  /** `%d` of a non-negative integer: its decimal digits, most significant first. */
  function Decimal(n: nat): (r: string)
    ensures |r| >= 1
    ensures forall i :: 0 <= i < |r| ==> '0' <= r[i] <= '9'
  {
    if n < 10 then [Digit(n)] else Decimal(n / 10) + [Digit(n % 10)]
  }

  /** `fmt.Sprintf("\033[38;5;%dm%s\033[39;49m", c, s)`. */
  function Sprintf(c: nat, s: string): string
  {
    [Esc] + "[38;5;" + Decimal(c) + "m" + s + Reset
  }

  function Blue(s: string): (r: string)
    ensures r == [Esc] + "[38;5;117m" + s + Reset
  {
    assert Decimal(117) == "117";
    Sprintf(117, s)
  }

  function Green(s: string): (r: string)
    ensures r == [Esc] + "[38;5;114m" + s + Reset
  {
    assert Decimal(114) == "114";
    Sprintf(114, s)
  }

  function Red(s: string): (r: string)
    ensures r == [Esc] + "[38;5;161m" + s + Reset
  {
    assert Decimal(161) == "161";
    Sprintf(161, s)
  }

  /** Every wrapper adds 11 characters in front and the 8-character reset behind. */
  lemma WrapperShape(s: string)
    ensures |Blue(s)| == |Green(s)| == |Red(s)| == |s| + 19
    ensures Blue(s)[|s| + 11..] == Green(s)[|s| + 11..] == Red(s)[|s| + 11..] == Reset
  {
  }

  /** Removing the fixed prefix and the reset gives back the wrapped text. */
  lemma WrapperStrip(s: string)
    ensures Blue(s)[11..|s| + 11] == s
    ensures Green(s)[11..|s| + 11] == s
    ensures Red(s)[11..|s| + 11] == s
  {
    var pre := [Esc] + "[38;5;117m";
    assert Blue(s) == pre + s + Reset;
    assert |pre| == 11;
    assert (pre + s + Reset)[11..|s| + 11] == s;
    var preG := [Esc] + "[38;5;114m";
    assert Green(s) == preG + s + Reset;
    assert (preG + s + Reset)[11..|s| + 11] == s;
    var preR := [Esc] + "[38;5;161m";
    assert Red(s) == preR + s + Reset;
    assert (preR + s + Reset)[11..|s| + 11] == s;
  }

  /** Each wrapper is injective. */
  lemma WrapperInjective(a: string, b: string)
    ensures Blue(a) == Blue(b) ==> a == b
    ensures Green(a) == Green(b) ==> a == b
    ensures Red(a) == Red(b) ==> a == b
  {
    WrapperStrip(a);
    WrapperStrip(b);
  }

  /** The three colours differ in the last digit of the code (index 9: `7`, `4`, `1`). */
  lemma WrappersDistinct(s: string)
    ensures Blue(s) != Green(s) && Green(s) != Red(s) && Blue(s) != Red(s)
  {
    assert Blue(s)[9] == '7';
    assert Green(s)[9] == '4';
    assert Red(s)[9] == '1';
  }

  /** The two colouring functions the marshaller applies: one to keys, one to string values. */
  datatype Palette = Palette(key: string -> string, value: string -> string)

  /** `NewNoColourPalette`: both functions are the identity. */
  function NoColour(): (p: Palette)
    ensures forall s :: p.key(s) == s
    ensures forall s :: p.value(s) == s
  {
    Palette(s => s, s => s)
  }
}
