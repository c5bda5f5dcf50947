/**
 * Go's `regexp` package as the core uses it: whether a pattern compiles (`regexp.Compile`,
 * `regexp.MustCompile`) and whether a compiled pattern matches somewhere in a string
 * (`MatchString`). The engine itself is a parameter of every operation that needs it.
 */
module Regexp {

  datatype Regex = Regex(compiles: string -> bool, matches: (string, string) -> bool)

  /** The pattern the matcher appends to bare keys. */
  const DotStar: string := ".*"

  /** What every regular-expression engine does with `.*`: it compiles and matches any string. */
  ghost predicate DotStarMatchesAll(re: Regex)
  {
    re.compiles(DotStar) && forall s :: re.matches(DotStar, s)
  }
}
