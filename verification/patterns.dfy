/** The two fixed regular expressions of the link parsers, matched at one
    position with Python's backtracking priorities, without a regex engine.

      hubcloud:  \[(.*?)\]\s(.+)\s\[(\d+\.\d+\sGB)\]\n\n<marker>\s(https://hubcloud.art/video/\w+)
      gdtot:     (.+)\s-\s(\d+\.\d+\sGB)\n\s(https://new7.gdtot.dad/file/\d+)

    Both share one shape after their opening: a greedy name group `.+`, a
    separator, the size (greedy digits, a literal dot, greedy digits, then the
    fixed text up to the link), and a link made of an unescaped URL literal and
    a final greedy run. A match is described by a `Split`: where the name
    starts and where each variable-length part ends. */
module Patterns {
  import opened Text

  datatype Pattern = Hubcloud | Gdtot

  const HubcloudUrl: string := "https://hubcloud.art/video/"
  const GdtotUrl: string := "https://new7.gdtot.dad/file/"

  /** The marker in front of the hubcloud link, kept exactly as the source
      spells it: four characters (U+00F0 U+0178 U+2019 U+00BE), which is the
      floppy-disk emoji's UTF-8 encoding read back as Windows-1252. */
  const DiskMarker: string := "\U{F0}\U{178}\U{2019}\U{BE}"

  function Url(p: Pattern): string {
    match p
    case Hubcloud => HubcloudUrl
    case Gdtot => GdtotUrl
  }

  /** What both patterns are made of, read from left to right:
      - `bracketed`: hubcloud opens with `\[(.*?)\]\s` before the name group;
        gdtot's name group starts the match;
      - `sep`: the fixed piece between the name group and the size's integer digits;
      - `lead`: the fixed piece between the size's fraction digits and the link's
        URL, whose first three atoms (`\sGB`) close the size group;
      - `url`: the URL at the start of the link group, written with unescaped dots;
      - `link`: the class of the link's final greedy run. */
  datatype Shape = Shape(bracketed: bool, sep: seq<Atom>, lead: seq<Atom>, url: string, link: char -> bool)

  /** The shape of each pattern. Hubcloud: separator `\s\[`, lead
      `\sGB\]\n\n<marker>\s`, final run `\w+`. Gdtot: separator `\s-\s`, lead
      `\sGB\n\s`, final run `\d+`. */
  function ShapeOf(cls: CharClasses, p: Pattern): (sh: Shape)
    ensures sh.bracketed <==> p == Hubcloud
    ensures sh.url == Url(p)
    ensures sh.sep == if p == Hubcloud then [Space, Ch('[')] else [Space, Ch('-'), Space]
    ensures sh.link == if p == Hubcloud then cls.word else cls.digit
    ensures UnitFirst(sh)
  {
    match p
    case Hubcloud =>
      Shape(true, [Space, Ch('[')], [Space] + Literal("GB]\n\n") + Literal(DiskMarker) + [Space], HubcloudUrl, cls.word)
    case Gdtot =>
      Shape(false, [Space, Ch('-'), Space], [Space] + Literal("GB\n") + [Space], GdtotUrl, cls.digit)
  }

  /** The lead opens with `\sGB`, the end of the size group. */
  predicate UnitFirst(sh: Shape) {
    |sh.lead| >= 3 && sh.lead[0] == Space && sh.lead[1] == Ch('G') && sh.lead[2] == Ch('B')
  }

  /** Everything fixed after the fraction digits, up to the link's final run. */
  function Tail(sh: Shape): (atoms: seq<Atom>)
    ensures |atoms| == |sh.lead| + |sh.url|
  {
    sh.lead + Template(sh.url)
  }

  /** Where the greedy parts end: the name group, the integer digits (the
      position of the size's `.`), the fraction digits, and the link. */
  datatype Ends = Ends(nameEnd: nat, intEnd: nat, fracEnd: nat, linkEnd: nat)

  /** A complete assignment of the pattern's variable parts. */
  datatype Split = Split(nameStart: nat, ends: Ends)

  // ---------------------------------------------------------------------
  // Validity, one layer per variable part, read from the right.
  // ---------------------------------------------------------------------

  /** From fraction end `d`: the fixed tail, then one or more link-class characters up to `e`. */
  predicate LinkOk(cls: CharClasses, sh: Shape, t: string, d: nat, e: nat) {
    FixedAt(cls, t, d, Tail(sh)) && d + |Tail(sh)| < e && AllIn(t, d + |Tail(sh)|, e, sh.link)
  }

  /** From the size's dot at `c`: `\.`, then `\d+` up to `d`, then the link. */
  predicate FracOk(cls: CharClasses, sh: Shape, t: string, c: nat, d: nat, e: nat) {
    c < |t| && t[c] == '.' && c + 1 < d && AllIn(t, c + 1, d, cls.digit) && LinkOk(cls, sh, t, d, e)
  }

  /** From name end `b`: the separator, then `\d+` up to `c`, then the rest of the size and the link. */
  predicate IntOk(cls: CharClasses, sh: Shape, t: string, b: nat, c: nat, d: nat, e: nat) {
    var k := b + |sh.sep|;
    FixedAt(cls, t, b, sh.sep) && k < c && AllIn(t, k, c, cls.digit) && FracOk(cls, sh, t, c, d, e)
  }

  /** From name start `n`: `(.+)` up to `m.nameEnd`, then everything after the name. */
  predicate BodyOk(cls: CharClasses, sh: Shape, t: string, n: nat, m: Ends) {
    n < m.nameEnd && AllIn(t, n, m.nameEnd, NotNewline)
      && IntOk(cls, sh, t, m.nameEnd, m.intEnd, m.fracEnd, m.linkEnd)
  }

  /** The pattern of shape `sh` matches `t` at position `s` with the variable
      parts of `sp`. Without the bracketed opening the name starts at `s`. */
  predicate SplitOk(cls: CharClasses, sh: Shape, t: string, s: nat, sp: Split) {
    if sh.bracketed then OpeningOk(cls, t, s, sp.nameStart) && BodyOk(cls, sh, t, sp.nameStart, sp.ends)
    else sp.nameStart == s && BodyOk(cls, sh, t, s, sp.ends)
  }

  /** Hubcloud's opening `\[(.*?)\]\s` matches from `s`, and the name starts at `n`:
      the discarded first group is `t[s + 1..n - 2]`. */
  predicate OpeningOk(cls: CharClasses, t: string, s: nat, n: nat) {
    && s < |t| && t[s] == '['
    && s + 3 <= n
    && AllIn(t, s + 1, n - 2, NotNewline)
    && FixedAt(cls, t, n - 2, [Ch(']'), Space])
  }

  /** Backtracking tries greedy ends from the longest down: `x` is tried no later than `y`. */
  predicate EndsNoLater(x: Ends, y: Ends) {
    || y.nameEnd < x.nameEnd
    || (y.nameEnd == x.nameEnd && y.intEnd < x.intEnd)
    || (y.nameEnd == x.nameEnd && y.intEnd == x.intEnd && y.fracEnd < x.fracEnd)
    || (y.nameEnd == x.nameEnd && y.intEnd == x.intEnd && y.fracEnd == x.fracEnd && y.linkEnd <= x.linkEnd)
  }

  /** The order in which backtracking tries splits at one start position: the
      lazy first group from the shortest up (so the name start ascending), then
      the greedy parts from the longest down. The match Python reports is the
      first valid split in this order. */
  predicate NoLater(x: Split, y: Split) {
    x.nameStart < y.nameStart || (x.nameStart == y.nameStart && EndsNoLater(x.ends, y.ends))
  }

  // ---------------------------------------------------------------------
  // The backtracking search, one function per variable part.
  // ---------------------------------------------------------------------

  /** The final greedy run of the link: it takes every link-class character it can. */
  function LinkEnd(cls: CharClasses, sh: Shape, t: string, d: nat): (r: Option<nat>)
    ensures r.Some? ==> LinkOk(cls, sh, t, d, r.value)
    ensures r.Some? ==> r.value == |t| || !sh.link(t[r.value])
    ensures forall e: nat :: LinkOk(cls, sh, t, d, e) ==> r.Some? && e <= r.value
  {
    var k := d + |Tail(sh)|;
    if FixedAt(cls, t, d, Tail(sh)) && k < |t| && sh.link(t[k]) then
      Some(RunEnd(t, k, sh.link))
    else
      None
  }

  /** Greedy `\d+` after the dot: fraction ends `hi`, `hi - 1`, ... are tried in turn. */
  function FracSearch(cls: CharClasses, sh: Shape, t: string, c: nat, hi: nat): (r: Option<(nat, nat)>)
    requires c < |t| && t[c] == '.' && AllIn(t, c + 1, hi, cls.digit)
    ensures r.Some? ==> FracOk(cls, sh, t, c, r.value.0, r.value.1) && r.value.0 <= hi
    ensures forall d: nat, e: nat :: FracOk(cls, sh, t, c, d, e) && d <= hi ==>
              r.Some? && (d < r.value.0 || (d == r.value.0 && e <= r.value.1))
    decreases hi
  {
    if hi <= c + 1 then None
    else
      match LinkEnd(cls, sh, t, hi)
      case Some(e) => Some((hi, e))
      case None => FracSearch(cls, sh, t, c, hi - 1)
  }

  /** The first `(fraction end, link end)` that completes a match from the dot at `c`. */
  function FracFirst(cls: CharClasses, sh: Shape, t: string, c: nat): (r: Option<(nat, nat)>)
    ensures r.Some? ==> FracOk(cls, sh, t, c, r.value.0, r.value.1)
    ensures forall d: nat, e: nat :: FracOk(cls, sh, t, c, d, e) ==>
              r.Some? && (d < r.value.0 || (d == r.value.0 && e <= r.value.1))
  {
    if c < |t| && t[c] == '.' then FracSearch(cls, sh, t, c, RunEnd(t, c + 1, cls.digit)) else None
  }

  /** Greedy `\d+` before the dot: integer ends `hi`, `hi - 1`, ... are tried in turn. */
  function IntSearch(cls: CharClasses, sh: Shape, t: string, b: nat, hi: nat): (r: Option<(nat, nat, nat)>)
    requires FixedAt(cls, t, b, sh.sep) && AllIn(t, b + |sh.sep|, hi, cls.digit)
    ensures r.Some? ==> IntOk(cls, sh, t, b, r.value.0, r.value.1, r.value.2) && r.value.0 <= hi
    ensures forall c: nat, d: nat, e: nat :: IntOk(cls, sh, t, b, c, d, e) && c <= hi ==>
              && r.Some?
              && (|| c < r.value.0
                  || (c == r.value.0 && d < r.value.1)
                  || (c == r.value.0 && d == r.value.1 && e <= r.value.2))
    decreases hi
  {
    if hi <= b + |sh.sep| then None
    else
      match FracFirst(cls, sh, t, hi)
      case Some((d, e)) =>
        assert forall c: nat, d': nat, e': nat :: IntOk(cls, sh, t, b, c, d', e') && c == hi ==>
          FracOk(cls, sh, t, hi, d', e');
        Some((hi, d, e))
      case None =>
        assert forall c: nat, d: nat, e: nat :: IntOk(cls, sh, t, b, c, d, e) ==> c != hi;
        IntSearch(cls, sh, t, b, hi - 1)
  }

  /** The first `(integer end, fraction end, link end)` that completes a match from name end `b`. */
  function IntFirst(cls: CharClasses, sh: Shape, t: string, b: nat): (r: Option<(nat, nat, nat)>)
    ensures r.Some? ==> IntOk(cls, sh, t, b, r.value.0, r.value.1, r.value.2)
    ensures forall c: nat, d: nat, e: nat :: IntOk(cls, sh, t, b, c, d, e) ==>
              && r.Some?
              && (|| c < r.value.0
                  || (c == r.value.0 && d < r.value.1)
                  || (c == r.value.0 && d == r.value.1 && e <= r.value.2))
  {
    if FixedAt(cls, t, b, sh.sep) then
      IntSearch(cls, sh, t, b, RunEnd(t, b + |sh.sep|, cls.digit))
    else
      None
  }

  /** Greedy `(.+)`: name ends `hi`, `hi - 1`, ... are tried in turn. */
  function NameSearch(cls: CharClasses, sh: Shape, t: string, n: nat, hi: nat): (r: Option<Ends>)
    requires AllIn(t, n, hi, NotNewline)
    ensures r.Some? ==> BodyOk(cls, sh, t, n, r.value) && r.value.nameEnd <= hi
    ensures forall m :: BodyOk(cls, sh, t, n, m) && m.nameEnd <= hi ==> r.Some? && EndsNoLater(r.value, m)
    decreases hi
  {
    if hi <= n then None
    else
      match IntFirst(cls, sh, t, hi)
      case Some((c, d, e)) =>
        assert forall m :: BodyOk(cls, sh, t, n, m) && m.nameEnd == hi ==>
          IntOk(cls, sh, t, hi, m.intEnd, m.fracEnd, m.linkEnd);
        Some(Ends(hi, c, d, e))
      case None =>
        assert forall m :: BodyOk(cls, sh, t, n, m) ==> m.nameEnd != hi;
        NameSearch(cls, sh, t, n, hi - 1)
  }

  /** The first assignment of the greedy parts that completes a match whose name starts at `n`. */
  function BodyFirst(cls: CharClasses, sh: Shape, t: string, n: nat): (r: Option<Ends>)
    ensures r.Some? ==> BodyOk(cls, sh, t, n, r.value)
    ensures forall m :: BodyOk(cls, sh, t, n, m) ==> r.Some? && EndsNoLater(r.value, m)
  {
    if n <= |t| then NameSearch(cls, sh, t, n, RunEnd(t, n, NotNewline)) else None
  }

  /** Lazy `(.*?)` of hubcloud: the first group is first tried ending at `a`
      (the `]` at `a`); only when nothing completes the match from there does it
      take one more character, and it can never take a line feed. */
  function LazySearch(cls: CharClasses, sh: Shape, t: string, s: nat, a: nat): (r: Option<Split>)
    requires sh.bracketed && s < |t| && t[s] == '[' && s + 1 <= a && AllIn(t, s + 1, a, NotNewline)
    ensures r.Some? ==> SplitOk(cls, sh, t, s, r.value) && a + 2 <= r.value.nameStart
    ensures forall sp :: SplitOk(cls, sh, t, s, sp) && a + 2 <= sp.nameStart ==>
              r.Some? && NoLater(r.value, sp)
    decreases |t| - a
  {
    var here := if FixedAt(cls, t, a, [Ch(']'), Space]) then BodyFirst(cls, sh, t, a + 2) else None;
    match here
    case Some(m) => Some(Split(a + 2, m))
    case None =>
      LazyMustGrow(cls, sh, t, s, a);
      if a < |t| && NotNewline(t[a]) then LazySearch(cls, sh, t, s, a + 1) else None
  }

  /** When nothing completes the match with the first group ending at `a`, every
      valid split has a longer first group, which therefore takes `t[a]`. */
  lemma LazyMustGrow(cls: CharClasses, sh: Shape, t: string, s: nat, a: nat)
    requires sh.bracketed && s + 1 <= a
    requires !(FixedAt(cls, t, a, [Ch(']'), Space]) && BodyFirst(cls, sh, t, a + 2).Some?)
    ensures forall sp :: SplitOk(cls, sh, t, s, sp) && a + 2 <= sp.nameStart ==>
              a < |t| && NotNewline(t[a]) && a + 3 <= sp.nameStart
  {
  }

  /** What Python's `re` finds when it tries the pattern of shape `sh` at position `s`: the
      first valid split in backtracking order, or nothing when none is valid. */
  function SplitAt(cls: CharClasses, sh: Shape, t: string, s: nat): (r: Option<Split>)
    ensures r.Some? ==> SplitOk(cls, sh, t, s, r.value)
    ensures forall sp :: SplitOk(cls, sh, t, s, sp) ==> r.Some? && NoLater(r.value, sp)
  {
    if sh.bracketed then
      if s < |t| && t[s] == '[' then LazySearch(cls, sh, t, s, s + 1) else None
    else
      match BodyFirst(cls, sh, t, s)
      case Some(m) => Some(Split(s, m))
      case None => None
  }
}
