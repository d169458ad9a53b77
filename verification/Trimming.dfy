// Characters of a class dropped at the ends of a text.
module Trimming {
  type CharClass = char -> bool

  function TrimLeft(drop: CharClass, s: string): (r: string)
    ensures |r| <= |s| && (r != [] ==> !drop(r[0]))
  {
    if s != [] && drop(s[0]) then TrimLeft(drop, s[1..]) else s
  }

  function TrimRight(drop: CharClass, s: string): (r: string)
    ensures |r| <= |s| && r == s[..|r|] && (r != [] ==> !drop(r[|r| - 1]))
  {
    if s != [] && drop(s[|s| - 1]) then TrimRight(drop, s[..|s| - 1]) else s
  }
}
