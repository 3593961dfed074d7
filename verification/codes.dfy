/** The IMDB-code list of `update_output`: the text is split at every comma,
    each piece is stripped of surrounding whitespace, and the pieces that are
    left empty are dropped. */
module ImdbCodes {
  import opened Text

  // ---------------------------------------------------------------------
  // `str.split(",")`
  // ---------------------------------------------------------------------

  /** Python's `s.split(sep)` for a one-character separator: the pieces between
      separators, empty ones included; the empty text gives one empty piece. */
  function SplitOn(s: string, sep: char): (pieces: seq<string>)
    ensures |pieces| >= 1
    ensures forall i :: 0 <= i < |pieces| ==> sep !in pieces[i]
    decreases |s|
  {
    if |s| == 0 then [""]
    else
      var rest := SplitOn(s[1..], sep);
      if s[0] == sep then [""] + rest
      else [[s[0]] + rest[0]] + rest[1..]
  }

  /** There is one piece more than there are separators. */
  lemma {:induction false} SplitCount(s: string, sep: char)
    ensures |SplitOn(s, sep)| == multiset(s)[sep] + 1
    decreases |s|
  {
    if |s| > 0 {
      SplitCount(s[1..], sep);
      assert s == [s[0]] + s[1..];
    }
  }

  /** Python's `sep.join(pieces)`. */
  function Join(pieces: seq<string>, sep: char): string
    decreases |pieces|
  {
    if |pieces| == 0 then ""
    else if |pieces| == 1 then pieces[0]
    else pieces[0] + [sep] + Join(pieces[1..], sep)
  }

  /** Joining the pieces with the separator gives back the text. */
  lemma {:induction false} JoinSplit(s: string, sep: char)
    ensures Join(SplitOn(s, sep), sep) == s
    decreases |s|
  {
    if |s| > 0 {
      var rest := SplitOn(s[1..], sep);
      JoinSplit(s[1..], sep);
      if s[0] == sep {
        assert SplitOn(s, sep) == [""] + rest;
        assert ([""] + rest)[1..] == rest;
      } else {
        var ps := [[s[0]] + rest[0]] + rest[1..];
        assert SplitOn(s, sep) == ps;
        if |rest| > 1 {
          assert ps[1..] == rest[1..];
          assert Join(rest, sep) == rest[0] + [sep] + Join(rest[1..], sep);
        }
      }
    }
  }

  /** Splitting a join of a non-empty list of separator-free pieces gives back the pieces. */
  lemma {:induction false} SplitJoin(pieces: seq<string>, sep: char)
    requires |pieces| >= 1
    requires forall i :: 0 <= i < |pieces| ==> sep !in pieces[i]
    ensures SplitOn(Join(pieces, sep), sep) == pieces
    decreases |pieces|, |pieces[0]|
  {
    var p := pieces[0];
    if |pieces| == 1 {
      SplitOfPiece(p, sep);
    } else if |p| == 0 {
      var s := Join(pieces, sep);
      assert s == [sep] + Join(pieces[1..], sep);
      assert s[1..] == Join(pieces[1..], sep);
      SplitJoin(pieces[1..], sep);
    } else {
      var s := Join(pieces, sep);
      var shorter := [p[1..]] + pieces[1..];
      assert forall i :: 0 <= i < |shorter| ==> sep !in shorter[i] by {
        assert forall x :: x in p[1..] ==> x in p;
      }
      SplitJoin(shorter, sep);
      assert shorter[1..] == pieces[1..];
      assert s[1..] == Join(shorter, sep);
      assert p == [p[0]] + p[1..];
    }
  }

  /** A separator-free text splits into itself alone. */
  lemma {:induction false} SplitOfPiece(p: string, sep: char)
    requires sep !in p
    ensures SplitOn(p, sep) == [p]
    decreases |p|
  {
    if |p| > 0 {
      assert forall x :: x in p[1..] ==> x in p;
      SplitOfPiece(p[1..], sep);
      assert p == [p[0]] + p[1..];
    }
  }

  // ---------------------------------------------------------------------
  // `str.strip()`
  // ---------------------------------------------------------------------

  /** The start of the longest run of `p`-characters that ends at `j`. */
  function RunStart(t: string, j: nat, p: char -> bool): (i: nat)
    requires j <= |t|
    ensures i <= j && AllIn(t, i, j, p)
    ensures i == 0 || !p(t[i - 1])
    decreases j
  {
    if j > 0 && p(t[j - 1]) then RunStart(t, j - 1, p) else j
  }

  /** `s[i..j]` is what remains of `s` after `strip()`: everything outside it is
      whitespace and, unless it is empty, it starts and ends with a
      non-whitespace character. */
  predicate StrippedAt(space: char -> bool, s: string, i: nat, j: nat) {
    && i <= j <= |s|
    && AllIn(s, 0, i, space) && AllIn(s, j, |s|, space)
    && (i < j ==> !space(s[i]) && !space(s[j - 1]))
  }

  /** Where `strip()` cuts the text. */
  function StripBounds(space: char -> bool, s: string): (b: (nat, nat))
    ensures StrippedAt(space, s, b.0, b.1)
  {
    var i := RunEnd(s, 0, space);
    if i == |s| then (i, i) else (i, RunStart(s, |s|, space))
  }

  /** Python's `s.strip()`: leading and trailing whitespace removed. */
  function Strip(space: char -> bool, s: string): (r: string)
    ensures |r| <= |s|
    ensures |r| > 0 ==> !space(r[0]) && !space(r[|r| - 1])
  {
    var b := StripBounds(space, s);
    s[b.0..b.1]
  }

  /** Any cut that meets the description of `strip()` leaves the same text: the
      stripped text is determined by the description alone. */
  lemma StripUnique(space: char -> bool, s: string, i: nat, j: nat)
    requires StrippedAt(space, s, i, j)
    ensures Strip(space, s) == s[i..j]
  {
  }

  /** Stripping leaves the text empty exactly when it is all whitespace. */
  lemma StripEmptyIffBlank(space: char -> bool, s: string)
    ensures Strip(space, s) == [] <==> AllIn(s, 0, |s|, space)
  {
  }

  /** Stripping twice strips nothing more. */
  lemma StripIdempotent(space: char -> bool, s: string)
    ensures Strip(space, Strip(space, s)) == Strip(space, s)
  {
  }

  /** What `strip()` leaves is a piece of the text. */
  lemma StripInside(space: char -> bool, s: string, c: char)
    requires c !in s
    ensures c !in Strip(space, s)
  {
  }

  // ---------------------------------------------------------------------
  // The code list.
  // ---------------------------------------------------------------------

  /** `[p.strip() for p in pieces if p.strip()]`. */
  function KeepCodes(space: char -> bool, pieces: seq<string>): (codes: seq<string>)
    ensures |codes| <= |pieces|
    decreases |pieces|
  {
    if |pieces| == 0 then []
    else
      var c := Strip(space, pieces[0]);
      if |c| > 0 then [c] + KeepCodes(space, pieces[1..]) else KeepCodes(space, pieces[1..])
  }

  /** `codes` lists, in order, the stripped pieces that are not empty: the
      pieces at positions `idx`, increasing, which are all the pieces whose
      stripped text is not empty. */
  ghost predicate Selects(space: char -> bool, pieces: seq<string>, codes: seq<string>, idx: seq<nat>) {
    && |idx| == |codes|
    && (forall k :: 0 <= k < |idx| ==> Picks(space, pieces, codes, idx, k))
    && (forall k, l :: 0 <= k < l < |idx| ==> idx[k] < idx[l])
    && (forall i :: 0 <= i < |pieces| && |Strip(space, pieces[i])| > 0 ==> i in idx)
  }

  /** The `k`-th code is the non-empty stripped piece at position `idx[k]`. */
  ghost predicate Picks(space: char -> bool, pieces: seq<string>, codes: seq<string>, idx: seq<nat>, k: nat)
    requires k < |idx| && k < |codes|
  {
    idx[k] < |pieces| && codes[k] == Strip(space, pieces[idx[k]]) && |codes[k]| > 0
  }

  /** Every index shifted by one. */
  function Shift(idx: seq<nat>): (r: seq<nat>)
    ensures |r| == |idx| && forall k :: 0 <= k < |idx| ==> r[k] == idx[k] + 1
  {
    seq(|idx|, k requires 0 <= k < |idx| => idx[k] + 1)
  }

  /** A first piece that strips to nothing adds no code. */
  lemma SelectsSkip(space: char -> bool, pieces: seq<string>, codes: seq<string>, rest: seq<nat>)
    requires |pieces| > 0 && |Strip(space, pieces[0])| == 0
    requires Selects(space, pieces[1..], codes, rest)
    ensures Selects(space, pieces, codes, Shift(rest))
  {
    var idx := Shift(rest);
    forall k | 0 <= k < |idx|
      ensures Picks(space, pieces, codes, idx, k)
    {
      assert Picks(space, pieces[1..], codes, rest, k);
      assert pieces[idx[k]] == pieces[1..][rest[k]];
    }
    forall i | 0 <= i < |pieces| && |Strip(space, pieces[i])| > 0
      ensures i in idx
    {
      assert i != 0;
      assert pieces[i] == pieces[1..][i - 1];
      var k :| 0 <= k < |rest| && rest[k] == i - 1;
      assert idx[k] == i;
    }
  }

  /** A first piece that strips to something adds its code in front. */
  lemma SelectsTake(space: char -> bool, pieces: seq<string>, codes: seq<string>, rest: seq<nat>)
    requires |pieces| > 0 && |Strip(space, pieces[0])| > 0
    requires Selects(space, pieces[1..], codes, rest)
    ensures Selects(space, pieces, [Strip(space, pieces[0])] + codes, [0] + Shift(rest))
  {
    var idx := [0] + Shift(rest);
    var cs := [Strip(space, pieces[0])] + codes;
    forall k | 0 <= k < |idx|
      ensures Picks(space, pieces, cs, idx, k)
    {
      if k > 0 {
        assert Picks(space, pieces[1..], codes, rest, k - 1);
        assert pieces[idx[k]] == pieces[1..][rest[k - 1]];
        assert cs[k] == codes[k - 1];
      }
    }
    forall i | 0 <= i < |pieces| && |Strip(space, pieces[i])| > 0
      ensures i in idx
    {
      if i > 0 {
        assert pieces[i] == pieces[1..][i - 1];
        var k :| 0 <= k < |rest| && rest[k] == i - 1;
        assert idx[k + 1] == i;
      }
    }
  }

  /** The positions of the pieces that `KeepCodes` keeps. */
  function KeptIndices(space: char -> bool, pieces: seq<string>): (idx: seq<nat>)
    ensures Selects(space, pieces, KeepCodes(space, pieces), idx)
    decreases |pieces|
  {
    if |pieces| == 0 then []
    else
      var rest := KeptIndices(space, pieces[1..]);
      if |Strip(space, pieces[0])| > 0 then
        SelectsTake(space, pieces, KeepCodes(space, pieces[1..]), rest);
        [0] + Shift(rest)
      else
        SelectsSkip(space, pieces, KeepCodes(space, pieces[1..]), rest);
        Shift(rest)
  }

  /** Selected codes of comma-free pieces are non-empty, comma-free and have no
      whitespace at either end. */
  lemma SelectedCodesShape(space: char -> bool, pieces: seq<string>, codes: seq<string>, idx: seq<nat>)
    requires Selects(space, pieces, codes, idx)
    requires forall i :: 0 <= i < |pieces| ==> ',' !in pieces[i]
    ensures forall k :: 0 <= k < |codes| ==>
              && |codes[k]| > 0
              && !space(codes[k][0]) && !space(codes[k][|codes[k]| - 1])
              && ',' !in codes[k]
  {
    forall k | 0 <= k < |codes|
      ensures |codes[k]| > 0 && !space(codes[k][0]) && !space(codes[k][|codes[k]| - 1]) && ',' !in codes[k]
    {
      assert Picks(space, pieces, codes, idx, k);
      StripInside(space, pieces[idx[k]], ',');
    }
  }

  /** The IMDB codes typed into the text box: `[code.strip() for code in
      imdb_text.split(",") if code.strip()]`. */
  function Codes(space: char -> bool, text: string): (codes: seq<string>)
    ensures |codes| <= multiset(text)[','] + 1
    ensures forall k :: 0 <= k < |codes| ==>
              && |codes[k]| > 0
              && !space(codes[k][0]) && !space(codes[k][|codes[k]| - 1])
              && ',' !in codes[k]
    ensures exists idx :: Selects(space, SplitOn(text, ','), codes, idx)
  {
    var pieces := SplitOn(text, ',');
    SplitCount(text, ',');
    var idx := KeptIndices(space, pieces);
    SelectedCodesShape(space, pieces, KeepCodes(space, pieces), idx);
    KeepCodes(space, pieces)
  }

  /** A text without commas gives its stripped self, or nothing when it is blank. */
  lemma CodesOfOnePiece(space: char -> bool, text: string)
    requires ',' !in text
    ensures Codes(space, text) == (if AllIn(text, 0, |text|, space) then [] else [Strip(space, text)])
  {
    SplitOfPiece(text, ',');
    StripEmptyIffBlank(space, text);
    assert KeepCodes(space, [text]) == (if |Strip(space, text)| > 0 then [Strip(space, text)] else []) + KeepCodes(space, []);
  }
}
