/** The four-letter nucleotide alphabet and its case-insensitive column lookup. */
module Alphabet {

  /** Number of symbols (columns) in a matrix row: A, C, G, T. */
  const AlphabetSize: nat := 4

  /** Column of a base letter in a matrix row: A = 0, C = 1, G = 2, T = 3, in either
      case; every other character maps to AlphabetSize, which is no column. */
  function Column(base: char): (col: nat)
    ensures col <= AlphabetSize
  {
    match base
    case 'A' => 0
    case 'a' => 0
    case 'C' => 1
    case 'c' => 1
    case 'G' => 2
    case 'g' => 2
    case 'T' => 3
    case 't' => 3
    case _ => AlphabetSize
  }

  /** True for the eight characters A, C, G, T, a, c, g, t. */
  predicate IsBase(base: char) {
    Column(base) < AlphabetSize
  }

  /** The "C" locale upper-casing of one character. */
  function ToUpper(c: char): (u: char)
    ensures !('a' <= c <= 'z') ==> u == c
    ensures 'a' <= c <= 'z' ==> 'A' <= u <= 'Z' && u as int - 'A' as int == c as int - 'a' as int
  {
    if 'a' <= c <= 'z' then (c as int - 32) as char else c
  }

  /** Upper-casing of every character of a string. */
  function Upper(s: string): (u: string)
    ensures |u| == |s|
  {
    seq(|s|, i requires 0 <= i < |s| => ToUpper(s[i]))
  }

  /** Upper-casing never changes the column a character selects. */
  lemma {:induction false} ColumnIgnoresCase(c: char)
    ensures Column(ToUpper(c)) == Column(c)
  {
  }

  /** The bases are exactly the eight letters. */
  lemma {:induction false} BaseLetters(c: char)
    ensures IsBase(c) <==> c in "ACGTacgt"
  {
  }
}
