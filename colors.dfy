/** The sixteen route colours of the park and their German names. */
module Colors {

  import opened Wrappers

  datatype Color =
    | Red | Turquoise | BrightGreen | Beige | Green | Purple | Violet | Blue
    | Brown | Yellow | Gray | LightBlue | LightBrown | Orange | Pink | LightPink

  /** A non-empty word of lower-case ASCII letters (usable inside a file name). */
  predicate IsLowerWord(s: string) {
    |s| > 0 && forall i :: 0 <= i < |s| ==> 'a' <= s[i] <= 'z'
  }

  /** The German name of a colour, as it appears in the GPX resource names. */
  function Name(c: Color): (r: string)
    ensures IsLowerWord(r)
  {
    match c
    case Red => "rot"
    case Turquoise => "tuerkis"
    case BrightGreen => "hellgruen"
    case Beige => "beige"
    case Green => "gruen"
    case Purple => "lila"
    case Violet => "violett"
    case Blue => "blau"
    case Brown => "braun"
    case Yellow => "gelb"
    case Gray => "grau"
    case LightBlue => "hellblau"
    case LightBrown => "hellbraun"
    case Orange => "orange"
    case Pink => "pink"
    case LightPink => "rosa"
  }

  /** The reverse lookup: the colour with German name `s`, if any. */
  function FromName(s: string): (r: Option<Color>) {
    if s == "rot" then Some(Red)
    else if s == "tuerkis" then Some(Turquoise)
    else if s == "hellgruen" then Some(BrightGreen)
    else if s == "beige" then Some(Beige)
    else if s == "gruen" then Some(Green)
    else if s == "lila" then Some(Purple)
    else if s == "violett" then Some(Violet)
    else if s == "blau" then Some(Blue)
    else if s == "braun" then Some(Brown)
    else if s == "gelb" then Some(Yellow)
    else if s == "grau" then Some(Gray)
    else if s == "hellblau" then Some(LightBlue)
    else if s == "hellbraun" then Some(LightBrown)
    else if s == "orange" then Some(Orange)
    else if s == "pink" then Some(Pink)
    else if s == "rosa" then Some(LightPink)
    else None
  }

  /** Every colour's name reads back as that colour. */
  lemma FromNameOfName(c: Color)
    ensures FromName(Name(c)) == Some(c)
  {
  }

  /** No two colours share a name. */
  lemma NameInjective(c1: Color, c2: Color)
    ensures Name(c1) == Name(c2) ==> c1 == c2
  {
  }
}
