/** Text primitives shared by the two link parsers and the IMDB-code splitter:
    character classes, runs of characters from a class, and fixed-width
    pattern pieces. Strings are `seq<char>` and positions are `nat` indices. */
module Text {

  datatype Option<T> = None | Some(value: T)

  /** The three character classes of Python's `re` module that the patterns use:
      `\s`, `\d` and `\w`. Python decides them from Unicode tables, so they are
      left abstract here and every result holds whatever the tables say.
      `str.strip()` tests whitespace exactly as `\s` does, so `space` serves both. */
  datatype CharClasses = CharClasses(space: char -> bool, digit: char -> bool, word: char -> bool)

  /** What `.` matches in a pattern compiled without DOTALL: anything but a line feed. */
  predicate NotNewline(c: char) {
    c != '\n'
  }

  /** Every character of `t[i..j]` belongs to the class `p` (and `j` is inside `t`). */
  predicate AllIn(t: string, i: nat, j: nat, p: char -> bool) {
    j <= |t| && forall k :: i <= k < j ==> p(t[k])
  }

  /** The end of the longest run of `p`-characters that starts at `i`: where a
      greedy `p+` or `p*` starting at `i` stops before it backtracks. */
  function RunEnd(t: string, i: nat, p: char -> bool): (j: nat)
    requires i <= |t|
    ensures i <= j <= |t| && AllIn(t, i, j, p)
    ensures j == |t| || !p(t[j])
    ensures forall k :: i <= k && AllIn(t, i, k, p) ==> k <= j
    decreases |t| - i
  {
    if i < |t| && p(t[i]) then RunEnd(t, i + 1, p) else i
  }

  /** A run of class characters stays a run of class characters inside any slice that contains it. */
  lemma AllInSlice(t: string, lo: nat, hi: nat, i: nat, j: nat, p: char -> bool)
    requires lo <= i <= j <= hi <= |t| && AllIn(t, i, j, p)
    ensures AllIn(t[lo..hi], i - lo, j - lo, p)
  {
  }

  /** One single-character piece of a pattern: a literal character, `.` or `\s`. */
  datatype Atom = Ch(c: char) | AnyChar | Space

  predicate AtomMatches(cls: CharClasses, a: Atom, c: char) {
    match a
    case Ch(x) => c == x
    case AnyChar => NotNewline(c)
    case Space => cls.space(c)
  }

  /** The fixed-width pattern piece `atoms` matches `t` starting at `i`. */
  predicate FixedAt(cls: CharClasses, t: string, i: nat, atoms: seq<Atom>) {
    i + |atoms| <= |t| && forall k {:trigger atoms[k]} :: 0 <= k < |atoms| ==> AtomMatches(cls, atoms[k], t[i + k])
  }

  /** A regular-expression literal in which no character is special. */
  function Literal(s: string): (atoms: seq<Atom>)
    ensures |atoms| == |s|
  {
    seq(|s|, k requires 0 <= k < |s| => Ch(s[k]))
  }

  /** A regular-expression literal written without escaping its dots: every `.`
      is the wildcard, every other character stands for itself. */
  function Template(s: string): (atoms: seq<Atom>)
    ensures |atoms| == |s|
  {
    seq(|s|, k requires 0 <= k < |s| => if s[k] == '.' then AnyChar else Ch(s[k]))
  }

  /** `u` is a text that the unescaped literal `s` matches. */
  predicate TemplateMatches(s: string, u: string) {
    |u| == |s| && forall k :: 0 <= k < |s| ==> if s[k] == '.' then NotNewline(u[k]) else u[k] == s[k]
  }

  /** `u` occurs in `t` as a contiguous block of characters. */
  ghost predicate IsSubstring(u: string, t: string) {
    exists i, j :: 0 <= i <= j <= |t| && t[i..j] == u
  }
}
