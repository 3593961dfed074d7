/** `parse_hubcloud` and `parse_gdtot`: run `re.findall` with the fixed pattern
    and turn each match into a record of its name, size and link groups. */
module Parsers {
  import opened Text
  import opened Patterns
  import opened FindAll

  /** One parsed file: the texts of the name, size and link groups of one match. */
  datatype Record = Record(name: string, size: string, link: string)

  function Slice(t: string, sp: Span): string
    requires sp.lo <= sp.hi <= |t|
  {
    t[sp.lo..sp.hi]
  }

  function RecordOf(t: string, f: Found): Record
    requires WellPlaced(t, f)
  {
    Record(Slice(t, f.name), Slice(t, f.size), Slice(t, f.link))
  }

  /** The records of a list of matches, in the same order. */
  function Records(t: string, fs: seq<Found>): (rs: seq<Record>)
    requires forall i :: 0 <= i < |fs| ==> WellPlaced(t, fs[i])
    ensures |rs| == |fs|
  {
    seq(|fs|, i requires 0 <= i < |fs| => RecordOf(t, fs[i]))
  }

  // ---------------------------------------------------------------------
  // The shape of a record's fields.
  // ---------------------------------------------------------------------

  /** `(.+)`: one or more characters, none a line feed. */
  predicate IsNameText(x: string) {
    |x| > 0 && '\n' !in x
  }

  /** `\d+\.\d+\sGB` with the dot at `k`: digits, the dot, digits, one whitespace character, `GB`. */
  predicate SizeTextWithDotAt(cls: CharClasses, x: string, k: nat) {
    && 0 < k && k + 1 < |x| - 3
    && AllIn(x, 0, k, cls.digit) && x[k] == '.' && AllIn(x, k + 1, |x| - 3, cls.digit)
    && cls.space(x[|x| - 3]) && x[|x| - 2] == 'G' && x[|x| - 1] == 'B'
  }

  ghost predicate IsSizeText(cls: CharClasses, x: string) {
    exists k: nat :: SizeTextWithDotAt(cls, x, k)
  }

  /** The URL `url` (its dots matching any character but a line feed) followed
      by one or more characters of the class `run`. */
  predicate IsLinkText(x: string, url: string, run: char -> bool) {
    && |x| > |url|
    && TemplateMatches(url, x[..|url|])
    && AllIn(x, |url|, |x|, run)
  }

  ghost predicate Shaped(cls: CharClasses, sh: Shape, r: Record) {
    IsNameText(r.name) && IsSizeText(cls, r.size) && IsLinkText(r.link, sh.url, sh.link)
  }

  lemma NameShaped(t: string, n: nat, b: nat)
    requires n < b && AllIn(t, n, b, NotNewline)
    ensures IsNameText(t[n..b])
  {
  }

  /** The fixed tail opens with the `\sGB` that closes the size group. */
  lemma TailOpensWithUnit(cls: CharClasses, sh: Shape, t: string, d: nat)
    requires UnitFirst(sh) && FixedAt(cls, t, d, Tail(sh))
    ensures d + 3 <= |t| && cls.space(t[d]) && t[d + 1] == 'G' && t[d + 2] == 'B'
  {
    assert Tail(sh)[0] == Space && Tail(sh)[1] == Ch('G') && Tail(sh)[2] == Ch('B');
    assert AtomMatches(cls, Tail(sh)[0], t[d + 0]);
    assert AtomMatches(cls, Tail(sh)[1], t[d + 1]);
    assert AtomMatches(cls, Tail(sh)[2], t[d + 2]);
  }

  /** The fixed tail closes with the URL, where the link group begins. */
  lemma TailClosesWithUrl(cls: CharClasses, sh: Shape, t: string, d: nat)
    requires FixedAt(cls, t, d, Tail(sh))
    ensures d + |sh.lead| + |sh.url| <= |t|
    ensures TemplateMatches(sh.url, t[d + |sh.lead|..d + |sh.lead| + |sh.url|])
  {
    var u := t[d + |sh.lead|..d + |sh.lead| + |sh.url|];
    forall k | 0 <= k < |sh.url|
      ensures if sh.url[k] == '.' then NotNewline(u[k]) else u[k] == sh.url[k]
    {
      assert u[k] == t[d + (|sh.lead| + k)];
      assert Tail(sh)[|sh.lead| + k] == Template(sh.url)[k];
      assert AtomMatches(cls, Tail(sh)[|sh.lead| + k], t[d + (|sh.lead| + k)]);
    }
  }

  /** The size group of a match whose name ends at `b` is `\d+\.\d+\sGB`. */
  lemma SizeShaped(cls: CharClasses, sh: Shape, t: string, b: nat, c: nat, d: nat, e: nat)
    requires UnitFirst(sh) && IntOk(cls, sh, t, b, c, d, e)
    ensures b + |sh.sep| <= d + 3 <= |t|
    ensures IsSizeText(cls, t[b + |sh.sep|..d + 3])
  {
    TailOpensWithUnit(cls, sh, t, d);
    SizeTextFrom(cls, t, b + |sh.sep|, c, d);
  }

  /** Digits from `k` to the dot at `c`, digits up to `d`, then `\sGB`, form a size text. */
  lemma SizeTextFrom(cls: CharClasses, t: string, k: nat, c: nat, d: nat)
    requires k < c && AllIn(t, k, c, cls.digit)
    requires c < |t| && t[c] == '.' && c + 1 < d && AllIn(t, c + 1, d, cls.digit)
    requires d + 3 <= |t| && cls.space(t[d]) && t[d + 1] == 'G' && t[d + 2] == 'B'
    ensures IsSizeText(cls, t[k..d + 3])
  {
    var x := t[k..d + 3];
    AllInSlice(t, k, d + 3, k, c, cls.digit);
    AllInSlice(t, k, d + 3, c + 1, d, cls.digit);
    assert x[c - k] == t[c] && x[|x| - 3] == t[d] && x[|x| - 2] == t[d + 1] && x[|x| - 1] == t[d + 2];
    assert SizeTextWithDotAt(cls, x, c - k);
  }

  /** The link group of a match whose fraction digits end at `d` is the URL and the final run. */
  lemma LinkShaped(cls: CharClasses, sh: Shape, t: string, d: nat, e: nat)
    requires LinkOk(cls, sh, t, d, e)
    ensures d + |sh.lead| < e <= |t|
    ensures IsLinkText(t[d + |sh.lead|..e], sh.url, sh.link)
  {
    TailClosesWithUrl(cls, sh, t, d);
    var k := d + |sh.lead|;
    var x := t[k..e];
    assert x[..|sh.url|] == t[k..k + |sh.url|];
    forall j | |sh.url| <= j < |x|
      ensures sh.link(x[j])
    {
      assert x[j] == t[k + j];
    }
  }

  /** Every record built from a valid split has the shape its pattern prescribes. */
  lemma SplitShaped(cls: CharClasses, sh: Shape, t: string, s: nat, sp: Split)
    requires UnitFirst(sh) && SplitOk(cls, sh, t, s, sp)
    ensures WellPlaced(t, FoundOf(sh, s, sp)) && Shaped(cls, sh, RecordOf(t, FoundOf(sh, s, sp)))
  {
    var m := sp.ends;
    assert BodyOk(cls, sh, t, sp.nameStart, m);
    SplitPlaced(cls, sh, t, s, sp);
    NameShaped(t, sp.nameStart, m.nameEnd);
    SizeShaped(cls, sh, t, m.nameEnd, m.intEnd, m.fracEnd, m.linkEnd);
    LinkShaped(cls, sh, t, m.fracEnd, m.linkEnd);
  }

  /** The record of the match Python reports has the shape its pattern prescribes. */
  lemma FirstMatchShaped(cls: CharClasses, sh: Shape, t: string, s: nat, f: Found)
    requires UnitFirst(sh) && FirstMatchAt(cls, sh, t, s, f)
    ensures WellPlaced(t, f) && Shaped(cls, sh, RecordOf(t, f))
  {
    var sp :| && SplitOk(cls, sh, t, s, sp)
              && (forall sp' :: SplitOk(cls, sh, t, s, sp') ==> NoLater(sp, sp'))
              && f == FoundOf(sh, s, sp);
    SplitShaped(cls, sh, t, s, sp);
  }

  /** One more link-class character after a valid split gives another valid split. */
  lemma LongerLinkOk(cls: CharClasses, sh: Shape, t: string, s: nat, sp: Split)
    requires SplitOk(cls, sh, t, s, sp)
    requires sp.ends.linkEnd < |t| && sh.link(t[sp.ends.linkEnd])
    ensures SplitOk(cls, sh, t, s, sp.(ends := sp.ends.(linkEnd := sp.ends.linkEnd + 1)))
  {
  }

  /** The link group of the reported match takes every link-class character that
      follows it: the character after it, if any, is not in the class. */
  lemma FirstMatchLinkMaximal(cls: CharClasses, sh: Shape, t: string, s: nat, f: Found)
    requires FirstMatchAt(cls, sh, t, s, f)
    ensures f.stop == |t| || !sh.link(t[f.stop])
  {
    var sp :| && SplitOk(cls, sh, t, s, sp)
              && (forall sp' :: SplitOk(cls, sh, t, s, sp') ==> NoLater(sp, sp'))
              && f == FoundOf(sh, s, sp);
    if sp.ends.linkEnd < |t| && sh.link(t[sp.ends.linkEnd]) {
      LongerLinkOk(cls, sh, t, s, sp);
      assert false;
    }
  }

  /** Where the name group of the reported match starts. Hubcloud's match opens
      with `[`, a first group of non-line-feed characters that is matched but not
      kept, then `]` and one whitespace character; gdtot's name starts the match. */
  lemma FirstMatchOpening(cls: CharClasses, sh: Shape, t: string, s: nat, f: Found)
    requires FirstMatchAt(cls, sh, t, s, f)
    ensures sh.bracketed ==>
              && s < |t| && t[s] == '['
              && s + 3 <= f.name.lo <= |t|
              && AllIn(t, s + 1, f.name.lo - 2, NotNewline)
              && t[f.name.lo - 2] == ']' && cls.space(t[f.name.lo - 1])
    ensures !sh.bracketed ==> f.name.lo == s
  {
    var sp :| && SplitOk(cls, sh, t, s, sp)
              && (forall sp' :: SplitOk(cls, sh, t, s, sp') ==> NoLater(sp, sp'))
              && f == FoundOf(sh, s, sp);
    if sh.bracketed {
      var n := sp.nameStart;
      assert OpeningOk(cls, t, s, n);
      assert AtomMatches(cls, [Ch(']'), Space][0], t[n - 2 + 0]);
      assert AtomMatches(cls, [Ch(']'), Space][1], t[n - 2 + 1]);
    }
  }

  /** Every match of a `findall` result takes the whole run of link-class characters. */
  lemma FindAllLinksMaximal(cls: CharClasses, sh: Shape, t: string, pos: nat, fs: seq<Found>)
    requires FindAllFrom(cls, sh, t, pos, fs)
    ensures forall i :: 0 <= i < |fs| ==> (fs[i].stop < |t| ==> !sh.link(t[fs[i].stop]))
  {
    FindAllMatchesAreFirst(cls, sh, t, pos, fs);
    forall i | 0 <= i < |fs|
      ensures fs[i].stop < |t| ==> !sh.link(t[fs[i].stop])
    {
      FirstMatchLinkMaximal(cls, sh, t, fs[i].start, fs[i]);
    }
  }

  /** Every hubcloud match of a `findall` result opens with `[`, a dropped first
      group and `]` plus one whitespace character before its name; every gdtot
      match opens with its name. */
  lemma FindAllOpenings(cls: CharClasses, sh: Shape, t: string, pos: nat, fs: seq<Found>)
    requires FindAllFrom(cls, sh, t, pos, fs)
    ensures forall i :: 0 <= i < |fs| ==> (sh.bracketed ==>
              && fs[i].start < |t| && t[fs[i].start] == '['
              && fs[i].start + 3 <= fs[i].name.lo <= |t|
              && AllIn(t, fs[i].start + 1, fs[i].name.lo - 2, NotNewline)
              && t[fs[i].name.lo - 2] == ']' && cls.space(t[fs[i].name.lo - 1]))
    ensures forall i :: 0 <= i < |fs| ==> (!sh.bracketed ==> fs[i].name.lo == fs[i].start)
  {
    FindAllMatchesAreFirst(cls, sh, t, pos, fs);
    forall i | 0 <= i < |fs|
      ensures sh.bracketed ==>
              && fs[i].start < |t| && t[fs[i].start] == '['
              && fs[i].start + 3 <= fs[i].name.lo <= |t|
              && AllIn(t, fs[i].start + 1, fs[i].name.lo - 2, NotNewline)
              && t[fs[i].name.lo - 2] == ']' && cls.space(t[fs[i].name.lo - 1])
      ensures !sh.bracketed ==> fs[i].name.lo == fs[i].start
    {
      FirstMatchOpening(cls, sh, t, fs[i].start, fs[i]);
    }
  }

  // ---------------------------------------------------------------------
  // The parsers.
  // ---------------------------------------------------------------------

  /** The pattern matches nowhere in `t`. */
  ghost predicate NoMatchAnywhere(cls: CharClasses, sh: Shape, t: string) {
    forall q: nat :: !HasMatch(cls, sh, t, q)
  }

  /** The records are the texts of the spans `fs`, which lie in `t` left to
      right without overlapping. */
  ghost predicate LaidOut(t: string, rs: seq<Record>, fs: seq<Found>) {
    && |fs| == |rs|
    && (forall i :: 0 <= i < |fs| ==> WellPlaced(t, fs[i]) && rs[i] == RecordOf(t, fs[i]))
    && (forall i, j :: 0 <= i < j < |fs| ==> fs[i].stop <= fs[j].start)
  }

  /** The records of the scan are well placed, empty exactly when nothing
      matches, and each has the shape its pattern prescribes. */
  lemma ScanRecords(cls: CharClasses, sh: Shape, t: string)
    requires UnitFirst(sh)
    ensures forall i :: 0 <= i < |Scan(cls, sh, t, 0)| ==> WellPlaced(t, Scan(cls, sh, t, 0)[i])
    ensures Scan(cls, sh, t, 0) == [] <==> NoMatchAnywhere(cls, sh, t)
    ensures forall i :: 0 <= i < |Scan(cls, sh, t, 0)| ==> Shaped(cls, sh, Records(t, Scan(cls, sh, t, 0))[i])
  {
    var fs := Scan(cls, sh, t, 0);
    ScanWellPlaced(cls, sh, t, 0);
    ScanIsFindAll(cls, sh, t, 0);
    ScanEmptyIffNoMatch(cls, sh, t, 0);
    FindAllMatchesAreFirst(cls, sh, t, 0, fs);
    forall i | 0 <= i < |fs|
      ensures Shaped(cls, sh, Records(t, fs)[i])
    {
      FirstMatchShaped(cls, sh, t, fs[i].start, fs[i]);
    }
  }

  /** `findall` with the pattern of shape `sh`, each match turned into the
      record of its name, size and link groups. */
  function ParseWith(cls: CharClasses, sh: Shape, t: string): (rs: seq<Record>)
    requires UnitFirst(sh)
    ensures rs == [] <==> NoMatchAnywhere(cls, sh, t)
    ensures forall i :: 0 <= i < |rs| ==> Shaped(cls, sh, rs[i])
  {
    ScanRecords(cls, sh, t);
    Records(t, Scan(cls, sh, t, 0))
  }

  /** The parsed records are those of the one list of matches that the
      reference definition of `findall` describes. */
  lemma ParseIsFindAll(cls: CharClasses, sh: Shape, t: string, fs: seq<Found>)
    requires UnitFirst(sh) && FindAllFrom(cls, sh, t, 0, fs)
    ensures forall i :: 0 <= i < |fs| ==> WellPlaced(t, fs[i])
    ensures ParseWith(cls, sh, t) == Records(t, fs)
  {
    ScanIsFindAll(cls, sh, t, 0);
    FindAllUnique(cls, sh, t, 0, fs, Scan(cls, sh, t, 0));
    ScanWellPlaced(cls, sh, t, 0);
  }

  /** The parsed records come from spans of `t` that lie left to right without overlapping. */
  lemma ParsedInOrder(cls: CharClasses, sh: Shape, t: string)
    requires UnitFirst(sh)
    ensures exists fs :: LaidOut(t, ParseWith(cls, sh, t), fs)
  {
    var fs := Scan(cls, sh, t, 0);
    ScanIsFindAll(cls, sh, t, 0);
    ScanWellPlaced(cls, sh, t, 0);
    FindAllInOrder(cls, sh, t, 0, fs);
    assert LaidOut(t, ParseWith(cls, sh, t), fs);
  }

  /** Every field of a parsed record is a piece of the input text. */
  lemma ParsedFieldsInText(cls: CharClasses, sh: Shape, t: string)
    requires UnitFirst(sh)
    ensures forall i :: 0 <= i < |ParseWith(cls, sh, t)| ==>
              && IsSubstring(ParseWith(cls, sh, t)[i].name, t)
              && IsSubstring(ParseWith(cls, sh, t)[i].size, t)
              && IsSubstring(ParseWith(cls, sh, t)[i].link, t)
  {
    var rs := ParseWith(cls, sh, t);
    var fs := Scan(cls, sh, t, 0);
    ScanWellPlaced(cls, sh, t, 0);
    forall i | 0 <= i < |rs|
      ensures IsSubstring(rs[i].name, t) && IsSubstring(rs[i].size, t) && IsSubstring(rs[i].link, t)
    {
      var f := fs[i];
      assert rs[i] == RecordOf(t, f);
      assert t[f.name.lo..f.name.hi] == rs[i].name;
      assert t[f.size.lo..f.size.hi] == rs[i].size;
      assert t[f.link.lo..f.link.hi] == rs[i].link;
    }
  }

  /** `parse_hubcloud`: every record is a name without line feeds, a size
      `\d+\.\d+\sGB` and a link made of the hubcloud URL and a `\w+` run. */
  function ParseHubcloud(cls: CharClasses, t: string): (rs: seq<Record>)
    ensures rs == [] <==> NoMatchAnywhere(cls, ShapeOf(cls, Hubcloud), t)
    ensures forall i :: 0 <= i < |rs| ==>
              && IsNameText(rs[i].name)
              && IsSizeText(cls, rs[i].size)
              && IsLinkText(rs[i].link, HubcloudUrl, cls.word)
  {
    ParseWith(cls, ShapeOf(cls, Hubcloud), t)
  }

  /** `parse_gdtot`: every record is a name without line feeds, a size
      `\d+\.\d+\sGB` and a link made of the gdtot URL and a `\d+` run. */
  function ParseGdtot(cls: CharClasses, t: string): (rs: seq<Record>)
    ensures rs == [] <==> NoMatchAnywhere(cls, ShapeOf(cls, Gdtot), t)
    ensures forall i :: 0 <= i < |rs| ==>
              && IsNameText(rs[i].name)
              && IsSizeText(cls, rs[i].size)
              && IsLinkText(rs[i].link, GdtotUrl, cls.digit)
  {
    ParseWith(cls, ShapeOf(cls, Gdtot), t)
  }

  /** Every hubcloud match contains the marker exactly as the pattern spells it. */
  lemma HubcloudMatchHasMarker(cls: CharClasses, t: string, s: nat, sp: Split)
    requires SplitOk(cls, ShapeOf(cls, Hubcloud), t, s, sp)
    ensures IsSubstring(DiskMarker, t)
  {
    var sh := ShapeOf(cls, Hubcloud);
    var m := sp.ends;
    assert BodyOk(cls, sh, t, sp.nameStart, m);
    var d := m.fracEnd;
    assert FixedAt(cls, t, d, Tail(sh));
    assert Tail(sh)[6..10] == Literal(DiskMarker);
    forall k | 0 <= k < 4
      ensures t[d + 6 + k] == DiskMarker[k]
    {
      assert AtomMatches(cls, Tail(sh)[6 + k], t[d + (6 + k)]);
      assert Tail(sh)[6 + k] == Literal(DiskMarker)[k];
    }
    assert t[d + 6..d + 10] == DiskMarker;
  }

  lemma MarkerAbsent(t: string)
    requires '\U{F0}' !in t
    ensures !IsSubstring(DiskMarker, t)
  {
    forall i, j | 0 <= i <= j <= |t|
      ensures t[i..j] != DiskMarker
    {
      if i < j {
        assert t[i..j][0] == t[i];
      }
    }
  }

  /** The marker is four characters, the first of them U+00F0. Text that carries
      the floppy-disk emoji itself (U+1F4BE) and no U+00F0 has no hubcloud match
      anywhere, so `ParseHubcloud` gives no record for it. */
  lemma HubcloudNeedsMarker(cls: CharClasses, t: string)
    requires '\U{F0}' !in t
    ensures NoMatchAnywhere(cls, ShapeOf(cls, Hubcloud), t)
  {
    var sh := ShapeOf(cls, Hubcloud);
    forall q: nat
      ensures !HasMatch(cls, sh, t, q)
    {
      if HasMatch(cls, sh, t, q) {
        var sp :| SplitOk(cls, sh, t, q, sp);
        HubcloudMatchHasMarker(cls, t, q, sp);
        MarkerAbsent(t);
        assert false;
      }
    }
  }
}
