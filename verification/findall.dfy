/** `re.findall` for the two fixed patterns: the leftmost match, then the
    leftmost match from where that one ended, and so on to the end of the text.
    Neither pattern can match the empty string, so the scan never has to step
    over an empty match. */
module FindAll {
  import opened Text
  import opened Patterns

  /** A half-open range `[lo, hi)` of positions in the input. */
  datatype Span = Span(lo: nat, hi: nat)

  /** One match as `findall` reports it to the parsers: the span of the whole
      match and the spans of the three groups that become a record. Hubcloud's
      first group is matched but not kept. */
  datatype Found = Found(start: nat, stop: nat, name: Span, size: Span, link: Span)

  /** The spans the groups of the pattern of shape `sh` cover when it matches at `s` with split `sp`.
      The size group runs from the first integer digit to the `GB` after the
      fraction digits; the link group runs from the URL to the end of the match. */
  function FoundOf(sh: Shape, s: nat, sp: Split): Found {
    var m := sp.ends;
    Found(s, m.linkEnd,
          Span(sp.nameStart, m.nameEnd),
          Span(m.nameEnd + |sh.sep|, m.fracEnd + 3),
          Span(m.fracEnd + |sh.lead|, m.linkEnd))
  }

  /** The spans of a match lie inside the text, in the order the groups appear,
      and the link group closes the match. */
  predicate WellPlaced(t: string, f: Found) {
    && f.start <= f.name.lo < f.name.hi
    && f.name.hi <= f.size.lo < f.size.hi
    && f.size.hi <= f.link.lo < f.link.hi
    && f.link.hi == f.stop <= |t|
  }

  /** The group spans of a valid split lie in the text in group order, once the
      size group's closing `\sGB` is known to come before the URL. */
  lemma SplitPlaced(cls: CharClasses, sh: Shape, t: string, s: nat, sp: Split)
    requires SplitOk(cls, sh, t, s, sp)
    ensures UnitFirst(sh) ==> WellPlaced(t, FoundOf(sh, s, sp))
  {
  }

  /** The match Python reports when it tries the pattern of shape `sh` at position `s`. */
  function MatchAt(cls: CharClasses, sh: Shape, t: string, s: nat): (r: Option<Found>)
    ensures r.Some? ==> r.value.start == s && s < r.value.stop <= |t|
    ensures r.Some? && UnitFirst(sh) ==> WellPlaced(t, r.value)
  {
    match SplitAt(cls, sh, t, s)
    case Some(sp) =>
      SplitPlaced(cls, sh, t, s, sp);
      Some(FoundOf(sh, s, sp))
    case None => None
  }

  /** Some match of the pattern of shape `sh` starts at `s`. */
  ghost predicate HasMatch(cls: CharClasses, sh: Shape, t: string, s: nat) {
    exists sp :: SplitOk(cls, sh, t, s, sp)
  }

  /** `f` is the match Python reports at `s`: it comes from a valid split that
      backtracking tries no later than any other valid split. */
  ghost predicate FirstMatchAt(cls: CharClasses, sh: Shape, t: string, s: nat, f: Found) {
    exists sp :: && SplitOk(cls, sh, t, s, sp)
                 && (forall sp' :: SplitOk(cls, sh, t, s, sp') ==> NoLater(sp, sp'))
                 && f == FoundOf(sh, s, sp)
  }

  /** The reference meaning of `findall` from position `pos`: `fs` lists, left
      to right, the leftmost match at or after `pos`, then the leftmost match at
      or after where it stopped, and so on; no match starts in the gaps, and
      none starts after the last one. */
  ghost predicate FindAllFrom(cls: CharClasses, sh: Shape, t: string, pos: nat, fs: seq<Found>)
    decreases |fs|
  {
    if fs == [] then
      forall q: nat :: pos <= q ==> !HasMatch(cls, sh, t, q)
    else
      && pos <= fs[0].start
      && (forall q: nat :: pos <= q < fs[0].start ==> !HasMatch(cls, sh, t, q))
      && FirstMatchAt(cls, sh, t, fs[0].start, fs[0])
      && FindAllFrom(cls, sh, t, fs[0].stop, fs[1..])
  }

  /** The scanning loop of `re.findall`: try every start position from `pos`
      on; after a match, resume where it stopped. */
  function Scan(cls: CharClasses, sh: Shape, t: string, pos: nat): (fs: seq<Found>)
    ensures forall i :: 0 <= i < |fs| ==> pos <= fs[i].start < fs[i].stop <= |t|
    ensures forall i :: 0 <= i < |fs| - 1 ==> fs[i].stop <= fs[i + 1].start
    decreases |t| + 1 - pos
  {
    if pos > |t| then []
    else
      match MatchAt(cls, sh, t, pos)
      case Some(f) => [f] + Scan(cls, sh, t, f.stop)
      case None => Scan(cls, sh, t, pos + 1)
  }

  /** No match can start past the end of the text: each needs at least one character. */
  lemma NoMatchPastEnd(cls: CharClasses, sh: Shape, t: string, q: nat)
    requires |t| <= q
    ensures !HasMatch(cls, sh, t, q)
  {
  }

  /** `MatchAt` finds exactly the matches of the reference definition. */
  lemma MatchAtIsFirstMatch(cls: CharClasses, sh: Shape, t: string, s: nat)
    ensures MatchAt(cls, sh, t, s).Some? <==> HasMatch(cls, sh, t, s)
    ensures MatchAt(cls, sh, t, s).Some? ==> FirstMatchAt(cls, sh, t, s, MatchAt(cls, sh, t, s).value)
  {
  }

  /** A position where no match starts can be added in front of a `findall` result. */
  lemma FindAllSkip(cls: CharClasses, sh: Shape, t: string, pos: nat, fs: seq<Found>)
    requires !HasMatch(cls, sh, t, pos) && FindAllFrom(cls, sh, t, pos + 1, fs)
    ensures FindAllFrom(cls, sh, t, pos, fs)
  {
  }

  /** A first match at `pos` followed by a `findall` result from its end is a `findall` result from `pos`. */
  lemma FindAllTake(cls: CharClasses, sh: Shape, t: string, pos: nat, f: Found, fs: seq<Found>)
    requires f.start == pos && FirstMatchAt(cls, sh, t, pos, f) && FindAllFrom(cls, sh, t, f.stop, fs)
    ensures FindAllFrom(cls, sh, t, pos, [f] + fs)
  {
  }

  /** The scan produces exactly what the reference definition of `findall` describes. */
  lemma {:induction false} ScanIsFindAll(cls: CharClasses, sh: Shape, t: string, pos: nat)
    ensures FindAllFrom(cls, sh, t, pos, Scan(cls, sh, t, pos))
    decreases |t| + 1 - pos
  {
    if pos > |t| {
      assert Scan(cls, sh, t, pos) == [];
      forall q: nat | pos <= q
        ensures !HasMatch(cls, sh, t, q)
      {
        NoMatchPastEnd(cls, sh, t, q);
      }
    } else {
      MatchAtIsFirstMatch(cls, sh, t, pos);
      match MatchAt(cls, sh, t, pos)
      case Some(f) =>
        ScanIsFindAll(cls, sh, t, f.stop);
        FindAllTake(cls, sh, t, pos, f, Scan(cls, sh, t, f.stop));
      case None =>
        ScanIsFindAll(cls, sh, t, pos + 1);
        FindAllSkip(cls, sh, t, pos, Scan(cls, sh, t, pos + 1));
    }
  }

  /** Two valid splits that are each tried no later than the other are the same split. */
  lemma NoLaterAntisymmetric(x: Split, y: Split)
    requires NoLater(x, y) && NoLater(y, x)
    ensures x == y
  {
  }

  /** Python reports at most one match at a given start. */
  lemma FirstMatchUnique(cls: CharClasses, sh: Shape, t: string, s: nat, f: Found, g: Found)
    requires FirstMatchAt(cls, sh, t, s, f) && FirstMatchAt(cls, sh, t, s, g)
    ensures f == g
  {
    var x :| && SplitOk(cls, sh, t, s, x)
             && (forall sp' :: SplitOk(cls, sh, t, s, sp') ==> NoLater(x, sp'))
             && f == FoundOf(sh, s, x);
    var y :| && SplitOk(cls, sh, t, s, y)
             && (forall sp' :: SplitOk(cls, sh, t, s, sp') ==> NoLater(y, sp'))
             && g == FoundOf(sh, s, y);
    NoLaterAntisymmetric(x, y);
  }

  lemma FirstMatchHasMatch(cls: CharClasses, sh: Shape, t: string, s: nat, f: Found)
    requires FirstMatchAt(cls, sh, t, s, f)
    ensures HasMatch(cls, sh, t, s)
  {
  }

  /** The first match a `findall` result lists is the leftmost match from `pos` on. */
  lemma FindAllLeftmost(cls: CharClasses, sh: Shape, t: string, pos: nat, fs: seq<Found>, q: nat)
    requires FindAllFrom(cls, sh, t, pos, fs) && pos <= q && HasMatch(cls, sh, t, q)
    ensures fs != [] && fs[0].start <= q
  {
  }

  /** When one `findall` result from `pos` is non-empty, so is any other, and both start at the same place. */
  lemma FindAllSameFirstStart(cls: CharClasses, sh: Shape, t: string, pos: nat, fs: seq<Found>, gs: seq<Found>)
    requires FindAllFrom(cls, sh, t, pos, fs) && FindAllFrom(cls, sh, t, pos, gs) && fs != []
    ensures gs != [] && gs[0].start == fs[0].start
  {
    FirstMatchHasMatch(cls, sh, t, fs[0].start, fs[0]);
    FindAllLeftmost(cls, sh, t, pos, gs, fs[0].start);
    FirstMatchHasMatch(cls, sh, t, gs[0].start, gs[0]);
    FindAllLeftmost(cls, sh, t, pos, fs, gs[0].start);
  }

  /** Two `findall` results from the same position begin with the same match, or are both empty. */
  lemma FindAllHeadsAgree(cls: CharClasses, sh: Shape, t: string, pos: nat, fs: seq<Found>, gs: seq<Found>)
    requires FindAllFrom(cls, sh, t, pos, fs) && FindAllFrom(cls, sh, t, pos, gs)
    ensures fs == [] <==> gs == []
    ensures fs != [] ==> fs[0] == gs[0]
  {
    if fs != [] {
      FindAllSameFirstStart(cls, sh, t, pos, fs, gs);
      FirstMatchUnique(cls, sh, t, fs[0].start, fs[0], gs[0]);
    } else if gs != [] {
      FindAllSameFirstStart(cls, sh, t, pos, gs, fs);
    }
  }

  /** The reference definition of `findall` leaves no choice: at most one list meets it. */
  lemma {:induction false} FindAllUnique(cls: CharClasses, sh: Shape, t: string, pos: nat, fs: seq<Found>, gs: seq<Found>)
    requires FindAllFrom(cls, sh, t, pos, fs) && FindAllFrom(cls, sh, t, pos, gs)
    ensures fs == gs
    decreases |fs|
  {
    FindAllHeadsAgree(cls, sh, t, pos, fs, gs);
    if fs != [] {
      FindAllUnique(cls, sh, t, fs[0].stop, fs[1..], gs[1..]);
      assert fs == [fs[0]] + fs[1..];
      assert gs == [gs[0]] + gs[1..];
    }
  }

  /** Every match listed by a `findall` result is the match Python reports at its start. */
  lemma {:induction false} FindAllMatchesAreFirst(cls: CharClasses, sh: Shape, t: string, pos: nat, fs: seq<Found>)
    requires FindAllFrom(cls, sh, t, pos, fs)
    ensures forall i :: 0 <= i < |fs| ==> FirstMatchAt(cls, sh, t, fs[i].start, fs[i])
    decreases |fs|
  {
    if fs != [] {
      FindAllMatchesAreFirst(cls, sh, t, fs[0].stop, fs[1..]);
      forall i | 0 < i < |fs|
        ensures FirstMatchAt(cls, sh, t, fs[i].start, fs[i])
      {
        assert fs[i] == fs[1..][i - 1];
      }
    }
  }

  /** `findall` returns nothing exactly when no match starts anywhere from `pos` on. */
  lemma ScanEmptyIffNoMatch(cls: CharClasses, sh: Shape, t: string, pos: nat)
    ensures Scan(cls, sh, t, pos) == [] <==> forall q: nat :: pos <= q ==> !HasMatch(cls, sh, t, q)
  {
    var fs := Scan(cls, sh, t, pos);
    ScanIsFindAll(cls, sh, t, pos);
    if fs != [] {
      FirstMatchHasMatch(cls, sh, t, fs[0].start, fs[0]);
    }
  }

  /** The match Python reports has its group spans in place. */
  lemma FirstMatchWellPlaced(cls: CharClasses, sh: Shape, t: string, s: nat, f: Found)
    requires UnitFirst(sh) && FirstMatchAt(cls, sh, t, s, f)
    ensures WellPlaced(t, f)
  {
  }

  /** Every match the scan lists has its group spans in place. */
  lemma ScanWellPlaced(cls: CharClasses, sh: Shape, t: string, pos: nat)
    requires UnitFirst(sh)
    ensures forall i :: 0 <= i < |Scan(cls, sh, t, pos)| ==> WellPlaced(t, Scan(cls, sh, t, pos)[i])
  {
    var fs := Scan(cls, sh, t, pos);
    ScanIsFindAll(cls, sh, t, pos);
    FindAllMatchesAreFirst(cls, sh, t, pos, fs);
    forall i | 0 <= i < |fs|
      ensures WellPlaced(t, fs[i])
    {
      FirstMatchWellPlaced(cls, sh, t, fs[i].start, fs[i]);
    }
  }

  /** The match Python reports starts where it was tried, takes at least one
      character and ends inside the text. */
  lemma FirstMatchBounds(cls: CharClasses, sh: Shape, t: string, s: nat, f: Found)
    requires FirstMatchAt(cls, sh, t, s, f)
    ensures f.start == s < f.stop <= |t|
  {
  }

  /** A `findall` result lists matches left to right, none overlapping another,
      all at or after `pos` and inside the text. */
  lemma {:induction false} FindAllInOrder(cls: CharClasses, sh: Shape, t: string, pos: nat, fs: seq<Found>)
    requires FindAllFrom(cls, sh, t, pos, fs)
    ensures forall i :: 0 <= i < |fs| ==> pos <= fs[i].start < fs[i].stop <= |t|
    ensures forall i, j :: 0 <= i < j < |fs| ==> fs[i].stop <= fs[j].start
    decreases |fs|
  {
    if fs != [] {
      FirstMatchBounds(cls, sh, t, fs[0].start, fs[0]);
      var rest := fs[1..];
      FindAllInOrder(cls, sh, t, fs[0].stop, rest);
      assert forall i :: 0 < i < |fs| ==> fs[i] == rest[i - 1];
    }
  }
}
