/** The fix-cycle segmenter: the loop of `NMEAData.check` that cuts a trip's line sequence into
    "packs", a new one opened by every `$GPRMC` line. */
module Segmenter {
  import opened Text

  /** `re.compile("^\$GPRMC").search(line)`. */
  predicate IsRmcLine(line: string)
  {
    StartsWith(line, "$GPRMC")
  }

  /** The first index at or after `j` holding a `$GPRMC` line, or `|lines|` if there is none. */
  function NextBoundary(lines: seq<string>, j: nat): (b: nat)
    requires j <= |lines|
    ensures j <= b <= |lines|
    decreases |lines| - j
  {
    if j == |lines| || IsRmcLine(lines[j]) then j else NextBoundary(lines, j + 1)
  }

  /** NextBoundary finds the first `$GPRMC` line at or after `j`. */
  lemma {:induction false} NextBoundaryFirst(lines: seq<string>, j: nat)
    requires j <= |lines|
    ensures forall k :: j <= k < NextBoundary(lines, j) ==> !IsRmcLine(lines[k])
    ensures NextBoundary(lines, j) < |lines| ==> IsRmcLine(lines[NextBoundary(lines, j)])
    decreases |lines| - j
  {
    if j < |lines| && !IsRmcLine(lines[j]) {
      NextBoundaryFirst(lines, j + 1);
    }
  }

  /** The packs the loop emits: each runs from its first line up to (not including) the next
      `$GPRMC` line; the last one, which no later `$GPRMC` line closes, is never emitted. */
  function Packs(lines: seq<string>): seq<seq<string>>
    decreases |lines|
  {
    if lines == [] then []
    else
      var b := NextBoundary(lines, 1);
      if b == |lines| then [] else [lines[..b]] + Packs(lines[b..])
  }

  /** The accumulator `p` the loop is left holding: the lines it never emits. */
  function Dropped(lines: seq<string>): seq<string>
    decreases |lines|
  {
    if lines == [] then []
    else
      var b := NextBoundary(lines, 1);
      if b == |lines| then lines else Dropped(lines[b..])
  }

  function Flatten(packs: seq<seq<string>>): seq<string>
  {
    if packs == [] then [] else packs[0] + Flatten(packs[1..])
  }

  lemma {:induction false} FlattenCons(a: seq<string>, ps: seq<seq<string>>)
    ensures Flatten([a] + ps) == a + Flatten(ps)
  {
    assert ([a] + ps)[1..] == ps;
  }

  /** What the loop has done after reading `lines[..i]`: the packs emitted so far followed by the
      packs still to come out of `p` and the unread lines are all the packs of the input. */
  ghost predicate SegmentInv(pack: seq<seq<string>>, p: seq<string>, lines: seq<string>, i: nat)
  {
    && i <= |lines|
    && pack + Packs(p + lines[i..]) == Packs(lines)
    && (p == [] <==> i == 0)
    && forall k :: 1 <= k < |p| ==> !IsRmcLine(p[k])
  }

  /** The loop of `check` (sncheck.py): `p` collects lines, and a `$GPRMC` line arriving while
      `p` is non-empty first moves a copy of `p` to `pack` and clears `p`. */
  method Segment(lines: seq<string>) returns (pack: seq<seq<string>>)
    ensures pack == Packs(lines)
  {
    pack := [];
    var p: seq<string> := [];
    assert p + lines[0..] == lines;
    for i := 0 to |lines|
      invariant SegmentInv(pack, p, lines, i)
    {
      var d := lines[i];
      SegmentStep(pack, p, lines, i);
      if StartsWith(d, "$GPRMC") && |p| > 0 {
        pack := pack + [p];
        p := [];
      }
      p := p + [d];
    }
    NoBoundary(p);
    assert p + lines[|lines|..] == p;
  }

  /** One turn of the loop keeps SegmentInv. */
  lemma {:induction false} SegmentStep(pack: seq<seq<string>>, p: seq<string>, lines: seq<string>, i: nat)
    requires i < |lines| && SegmentInv(pack, p, lines, i)
    ensures var d := lines[i];
      if IsRmcLine(d) && |p| > 0 then SegmentInv(pack + [p], [] + [d], lines, i + 1)
      else SegmentInv(pack, p + [d], lines, i + 1)
  {
    var d := lines[i];
    SliceStep(p, lines, i);
    if IsRmcLine(d) && |p| > 0 {
      CloseAt(p, d, lines[i + 1..]);
      SliceStep([], lines, i);
      assert [] + [d] == [d];
    }
  }

  lemma {:induction false} SliceStep(p: seq<string>, lines: seq<string>, i: nat)
    requires i < |lines|
    ensures p + lines[i..] == (p + [lines[i]]) + lines[i + 1..]
  {
  }

  /** A `$GPRMC` line after a non-empty pack free of further `$GPRMC` lines closes that pack. */
  lemma {:induction false} CloseAt(p: seq<string>, d: string, rest: seq<string>)
    requires p != [] && IsRmcLine(d)
    requires forall k :: 1 <= k < |p| ==> !IsRmcLine(p[k])
    ensures Packs(p + [d] + rest) == [p] + Packs([d] + rest)
  {
    var s := p + [d] + rest;
    var b := NextBoundary(s, 1);
    NextBoundaryFirst(s, 1);
    assert s[|p|] == d;
    assert forall k :: 1 <= k < |p| ==> s[k] == p[k];
    assert b == |p|;
    assert s[..b] == p;
    assert s[b..] == [d] + rest;
  }

  /** Lines with no `$GPRMC` after the head yield no pack. */
  lemma {:induction false} NoBoundary(p: seq<string>)
    requires forall k :: 1 <= k < |p| ==> !IsRmcLine(p[k])
    ensures Packs(p) == []
  {
    if p != [] {
      NextBoundaryFirst(p, 1);
      assert NextBoundary(p, 1) == |p|;
    }
  }

  /** The emitted packs, in order, followed by the dropped accumulator, give back the line
      sequence; the dropped part is non-empty whenever the input is. */
  lemma {:induction false} PacksThenDropped(lines: seq<string>)
    ensures Flatten(Packs(lines)) + Dropped(lines) == lines
    ensures lines != [] ==> Dropped(lines) != []
    decreases |lines|
  {
    if lines != [] {
      var b := NextBoundary(lines, 1);
      if b < |lines| {
        var head, rest := lines[..b], lines[b..];
        PacksThenDropped(rest);
        assert Packs(lines) == [head] + Packs(rest);
        FlattenCons(head, Packs(rest));
        assert Dropped(lines) == Dropped(rest);
        assert head + rest == lines;
      }
    }
  }

  /** The dropped accumulator holds a `$GPRMC` line at most at its head, and it begins with one
      whenever some pack was emitted. */
  lemma {:induction false} DroppedShape(lines: seq<string>)
    ensures forall k :: 1 <= k < |Dropped(lines)| ==> !IsRmcLine(Dropped(lines)[k])
    ensures Packs(lines) != [] ==> |Dropped(lines)| > 0 && IsRmcLine(Dropped(lines)[0])
    decreases |lines|
  {
    if lines != [] {
      var b := NextBoundary(lines, 1);
      NextBoundaryFirst(lines, 1);
      if b < |lines| {
        NextBoundaryFirst(lines[b..], 1);
        DroppedShape(lines[b..]);
        PacksThenDropped(lines[b..]);
        var t := lines[b..];
        if Packs(t) == [] {
          assert NextBoundary(t, 1) == |t|;
        }
      }
    }
  }

  /** Every pack is non-empty, holds a `$GPRMC` line at most at index 0, and every pack after the
      first begins with one. */
  lemma {:induction false} PacksShape(lines: seq<string>)
    ensures forall i :: 0 <= i < |Packs(lines)| ==> Packs(lines)[i] != []
    ensures forall i, k :: 0 <= i < |Packs(lines)| && 1 <= k < |Packs(lines)[i]| ==> !IsRmcLine(Packs(lines)[i][k])
    ensures forall i :: 0 < i < |Packs(lines)| ==> IsRmcLine(Packs(lines)[i][0])
    decreases |lines|
  {
    if lines != [] {
      var b := NextBoundary(lines, 1);
      if b < |lines| {
        var rest := lines[b..];
        NextBoundaryFirst(lines, 1);
        NextBoundaryFirst(rest, 1);
        PacksShape(rest);
        var ps := Packs(lines);
        assert ps == [lines[..b]] + Packs(rest);
        forall i | 0 < i < |ps|
          ensures ps[i] == Packs(rest)[i - 1]
        {
        }
        if Packs(rest) != [] {
          assert Packs(rest)[0] == rest[..NextBoundary(rest, 1)];
          assert rest[0] == lines[b];
        }
      }
    }
  }

  /** At most one pack per line. */
  lemma {:induction false} PacksCount(lines: seq<string>)
    ensures |Packs(lines)| <= |lines|
    decreases |lines|
  {
    if lines != [] {
      var b := NextBoundary(lines, 1);
      if b < |lines| {
        PacksCount(lines[b..]);
      }
    }
  }
}
