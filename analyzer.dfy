/** The per-trip analysis of `NMEAData` (`__check_trip` and `__average_sn` in sncheck.py): time to
    first fix, and per fix cycle the time stamp, the number of satellites used for the fix and the
    mean signal-to-noise ratio of the used satellites in view.

    A sentence is read as its comma-separated fields after every `*` has been turned into a comma,
    so the checksum becomes a field of its own. The exceptions the source lets escape (an
    `IndexError` on a short sentence; a failed `int()` in the averager, whose handler itself raises)
    end the analysis with an `Err`. */
module Analyzer {
  import opened Util
  import opened Text

  datatype Failure =
    | IndexError      // a sentence has fewer fields than the code indexes
    | AverageFailed   // an S/N field is not an integer literal (or the list is empty)

  /** The value of `sum(values) / len(values)`, kept as the exact quotient `total / count`. */
  datatype Mean = Mean(total: int, count: nat)

  /** One entry of `trip["sn"]`: the fix stamp of the cycle (None where the source leaves the
      initial empty list), `len(stnum)` and the mean S/N. */
  datatype CycleSummary = CycleSummary(time: Option<string>, num: nat, sn: Mean)

  /** The dict `__check_trip` returns: `ttff` is None while the source holds "" and Some(n) where
      it holds `str(n)`; `ttffNmea` is the stamp of the first fix ("" before it). */
  datatype TripReport = TripReport(ttff: Option<nat>, ttffNmea: string, sn: seq<CycleSummary>)

  /** The locals of one turn of the cycle loop. */
  datatype PackState = PackState(stnum: seq<string>, snlist: seq<string>, time: Option<string>)

  datatype Scan = Scan(trip: TripReport, pack: PackState)

  const FreshPack := PackState([], [], None)

  const EmptyReport := TripReport(None, "", [])

  /** `s.replace("*", ",").split(",")`. */
  function Fields(line: string): seq<string>
  {
    Split(ReplaceChar(line, '*', ','), ',')
  }

  /** Python's slice `f[lo:hi]` for `0 <= lo <= hi`: clamped to the list. */
  function Slice(f: seq<string>, lo: nat, hi: nat): (r: seq<string>)
    requires lo <= hi
    ensures |r| == if hi <= |f| then hi - lo else if lo <= |f| then |f| - lo else 0
    ensures forall k :: 0 <= k < |r| ==> lo + k < |f| && r[k] == f[lo + k]
  {
    if hi <= |f| then f[lo..hi] else if lo <= |f| then f[lo..] else []
  }

  // ---------------------------------------------------------------- removing empty fields

  /** The list without its empty strings, in order. */
  function NonEmpty(s: seq<string>): seq<string>
  {
    if s == [] then [] else (if s[0] == "" then [] else [s[0]]) + NonEmpty(s[1..])
  }

  /** `list.index(x)`: the first position of `x`. */
  function IndexOf(s: seq<string>, x: string): (k: nat)
    requires x in s
    ensures k < |s| && s[k] == x && x !in s[..k]
  {
    if s[0] == x then 0
    else
      assert x in s[1..] by { var j :| 0 <= j < |s| && s[j] == x; assert s[1..][j - 1] == x; }
      var k := IndexOf(s[1..], x) + 1;
      assert s[..k] == [s[0]] + s[1..][..k - 1];
      k
  }

  /** `while "" in stnum: del stnum[stnum.index("")]`. */
  method RemoveEmpties(s: seq<string>) returns (r: seq<string>)
    ensures r == NonEmpty(s)
  {
    r := s;
    while "" in r
      invariant NonEmpty(r) == NonEmpty(s)
      decreases |r|
    {
      var k := IndexOf(r, "");
      NonEmptyDrop(r, k);
      r := r[..k] + r[k + 1..];
    }
    NonEmptyId(r);
  }

  lemma {:induction false} NonEmptyDrop(s: seq<string>, k: nat)
    requires k < |s| && s[k] == ""
    ensures NonEmpty(s[..k] + s[k + 1..]) == NonEmpty(s)
  {
    if k > 0 {
      NonEmptyDrop(s[1..], k - 1);
      var t := s[..k] + s[k + 1..];
      assert t[0] == s[0];
      assert t[1..] == s[1..][..k - 1] + s[1..][k..];
    } else {
      assert s[..0] + s[1..] == s[1..];
    }
  }

  lemma {:induction false} NonEmptyId(s: seq<string>)
    requires "" !in s
    ensures NonEmpty(s) == s
  {
    if s != [] {
      NonEmptyId(s[1..]);
    }
  }

  /** The filter keeps exactly the non-empty entries and never lengthens the list. */
  lemma {:induction false} NonEmptyMembers(s: seq<string>)
    ensures forall x :: x in NonEmpty(s) <==> x in s && x != ""
    ensures |NonEmpty(s)| <= |s|
  {
    if s != [] {
      NonEmptyMembers(s[1..]);
      assert s == [s[0]] + s[1..];
    }
  }

  // ---------------------------------------------------------------- the GSV scan

  /** Field `q` opens one of the four-field satellite blocks of a `$GPGSV` sentence (number,
      elevation, azimuth, S/N from field 4 on) and names a satellite used for the fix. */
  predicate ActiveBlock(f: seq<string>, stnum: seq<string>, q: int)
  {
    4 <= q < |f| && q % 4 == 0 && f[q] in stnum
  }

  /** The S/N fields (the fourth of each block) of the blocks from `pos` on whose satellite
      number is in `stnum`, in order; IndexError where such a block is cut short. */
  function Collect(f: seq<string>, stnum: seq<string>, pos: nat): Result<seq<string>, Failure>
    decreases |f| - pos
  {
    if pos >= |f| then Ok([])
    else
      var rest := Collect(f, stnum, pos + 4);
      if f[pos] !in stnum then rest
      else if pos + 3 >= |f| then Err(IndexError)
      else if rest.Err? then rest
      else Ok([f[pos + 3]] + rest.value)
  }

  function Prepend(acc: seq<string>, r: Result<seq<string>, Failure>): Result<seq<string>, Failure>
  {
    if r.Ok? then Ok(acc + r.value) else r
  }

  /** The `pos` loop of the `$GPGSV` branch: appends to `snlist` the S/N of every block whose
      satellite is used for the fix. */
  method CollectSignals(f: seq<string>, stnum: seq<string>, snlist: seq<string>) returns (r: Result<seq<string>, Failure>)
    ensures r == Prepend(snlist, Collect(f, stnum, 4))
  {
    var acc := snlist;
    var pos := 4;
    while pos < |f|
      invariant Prepend(acc, Collect(f, stnum, pos)) == Prepend(snlist, Collect(f, stnum, 4))
      decreases |f| - pos
    {
      if f[pos] in stnum {
        if pos + 3 >= |f| {
          return Err(IndexError);
        }
        ghost var rest := Collect(f, stnum, pos + 4);
        if rest.Ok? {
          assert acc + ([f[pos + 3]] + rest.value) == (acc + [f[pos + 3]]) + rest.value;
        }
        acc := acc + [f[pos + 3]];
      }
      pos := pos + 4;
    }
    assert acc + [] == acc;
    return Ok(acc);
  }

  /** The scan fails exactly when some used satellite's block lacks its S/N field. */
  lemma {:induction false} CollectOk(f: seq<string>, stnum: seq<string>, pos: nat)
    requires pos % 4 == 0 && pos >= 4
    ensures Collect(f, stnum, pos).Ok? <==> forall q :: pos <= q && ActiveBlock(f, stnum, q) ==> q + 3 < |f|
    decreases |f| - pos
  {
    if pos < |f| {
      CollectOk(f, stnum, pos + 4);
      NextBlock(pos);
      if f[pos] in stnum && pos + 3 >= |f| {
        assert ActiveBlock(f, stnum, pos);
      }
    }
  }

  /** Every collected value is the S/N field of a used satellite's block, and every such
      block's S/N field is collected. */
  lemma {:induction false} CollectMembers(f: seq<string>, stnum: seq<string>, pos: nat, v: string)
    requires pos % 4 == 0 && pos >= 4
    requires Collect(f, stnum, pos).Ok?
    ensures v in Collect(f, stnum, pos).value
        <==> exists q :: pos <= q && ActiveBlock(f, stnum, q) && q + 3 < |f| && f[q + 3] == v
    decreases |f| - pos
  {
    if pos < |f| {
      CollectMembers(f, stnum, pos + 4, v);
      NextBlock(pos);
      if f[pos] in stnum {
        assert ActiveBlock(f, stnum, pos);
      }
    }
  }

  /** Block starts are four fields apart. */
  lemma {:induction false} NextBlock(pos: nat)
    requires pos % 4 == 0
    ensures forall q :: pos < q && q % 4 == 0 ==> pos + 4 <= q
  {
  }

  // ---------------------------------------------------------------- one sentence

  /** The `$GPRMC` branch: clear `stnum`; on a valid fix with a latitude, record the stamp
      `time-date`, and on the trip's first fix, the time to first fix `int(i/2)`. */
  function RmcStep(i: nat, sc: Scan, f: seq<string>): Result<Scan, Failure>
  {
    var cleared := sc.(pack := sc.pack.(stnum := []));
    if |f| < 3 then Err(IndexError)
    else if f[2] != "A" then Ok(cleared)
    else if |f| < 4 then Err(IndexError)
    else if f[3] == "" then Ok(cleared)
    else if |f| < 10 then Err(IndexError)
    else
      var stamp := f[1] + "-" + f[9];
      var pack := cleared.pack.(time := Some(stamp));
      if sc.trip.ttff.None? then Ok(Scan(sc.trip.(ttff := Some(i / 2), ttffNmea := stamp), pack))
      else Ok(Scan(sc.trip, pack))
  }

  /** The body of the sentence loop of `__check_trip`, for the line `line` of cycle `i`. */
  function LineStep(i: nat, sc: Scan, line: string): Result<Scan, Failure>
  {
    var f := Fields(line);
    if f[0] == "$GPRMC" then RmcStep(i, sc, f)
    else if sc.trip.ttff.Some? && f[0] == "$GPGSA" then
      if |f| < 3 then Err(IndexError)
      else Ok(sc.(pack := sc.pack.(stnum := NonEmpty(Slice(f, 3, 15)))))
    else if sc.trip.ttff.Some? && |sc.pack.stnum| > 0 && f[0] == "$GPGSV" then
      var r := Prepend(sc.pack.snlist, Collect(f, sc.pack.stnum, 4));
      if r.Err? then Err(r.error) else Ok(sc.(pack := sc.pack.(snlist := r.value)))
    else Ok(sc)
  }

  method StepLine(i: nat, sc: Scan, line: string) returns (r: Result<Scan, Failure>)
    ensures r == LineStep(i, sc, line)
  {
    var sentence := Split(ReplaceChar(line, '*', ','), ',');
    if sentence[0] == "$GPRMC" {
      var pack := sc.pack.(stnum := []);
      if |sentence| < 3 {
        return Err(IndexError);
      }
      if sentence[2] == "A" {
        if |sentence| < 4 {
          return Err(IndexError);
        }
        if sentence[3] != "" {
          if |sentence| < 10 {
            return Err(IndexError);
          }
          var time := sentence[1] + "-" + sentence[9];
          pack := pack.(time := Some(time));
          if sc.trip.ttff.None? {
            return Ok(Scan(sc.trip.(ttff := Some(i / 2), ttffNmea := time), pack));
          }
        }
      }
      return Ok(Scan(sc.trip, pack));
    } else if sc.trip.ttff.Some? && sentence[0] == "$GPGSA" {
      if |sentence| < 3 {
        return Err(IndexError);
      }
      // `sentence[2] != 1` compares a string with an integer and always holds.
      var stnum := RemoveEmpties(Slice(sentence, 3, 3 + 12));
      return Ok(sc.(pack := sc.pack.(stnum := stnum)));
    } else if sc.trip.ttff.Some? && |sc.pack.stnum| > 0 && sentence[0] == "$GPGSV" {
      var snlist := CollectSignals(sentence, sc.pack.stnum, sc.pack.snlist);
      if snlist.Err? {
        return Err(snlist.error);
      }
      return Ok(sc.(pack := sc.pack.(snlist := snlist.value)));
    }
    return Ok(sc);
  }

  /** The sentences on which the source raises `IndexError`: a `$GPRMC` sentence with fewer than
      three fields, with fewer than four when it reports `A`, or with fewer than ten when it also
      has a latitude; once the trip has a fix, a `$GPGSA` sentence with fewer than three fields;
      and with satellites in use, a `$GPGSV` sentence in which a used satellite's block lacks its
      S/N field. */
  ghost predicate Raises(sc: Scan, f: seq<string>)
    requires |f| > 0
  {
    || (f[0] == "$GPRMC" && (|f| < 3 || (f[2] == "A" && (|f| < 4 || (f[3] != "" && |f| < 10)))))
    || (sc.trip.ttff.Some? && f[0] == "$GPGSA" && |f| < 3)
    || (sc.trip.ttff.Some? && |sc.pack.stnum| > 0 && f[0] == "$GPGSV"
        && exists q :: ActiveBlock(f, sc.pack.stnum, q) && q + 3 >= |f|)
  }

  /** A sentence fails exactly on the inputs the source raises on, and then with `IndexError`. */
  lemma {:induction false} LineStepFails(i: nat, sc: Scan, line: string)
    ensures LineStep(i, sc, line).Err? <==> Raises(sc, Fields(line))
    ensures LineStep(i, sc, line).Err? ==> LineStep(i, sc, line).error == IndexError
  {
    var f := Fields(line);
    CollectOk(f, sc.pack.stnum, 4);
    if sc.trip.ttff.Some? && |sc.pack.stnum| > 0 && f[0] == "$GPGSV" && Collect(f, sc.pack.stnum, 4).Err? {
      CollectFails(f, sc.pack.stnum, 4);
    }
  }

  /** The block scan only ever fails with `IndexError`. */
  lemma {:induction false} CollectFails(f: seq<string>, stnum: seq<string>, pos: nat)
    requires Collect(f, stnum, pos).Err?
    ensures Collect(f, stnum, pos).error == IndexError
    decreases |f| - pos
  {
    if pos < |f| && Collect(f, stnum, pos + 4).Err? {
      CollectFails(f, stnum, pos + 4);
    }
  }

  // ---------------------------------------------------------------- one cycle, one trip

  /** The sentence loop over `lines`, stopping at the first failure. */
  function ScanLines(i: nat, sc: Scan, lines: seq<string>): Result<Scan, Failure>
    decreases |lines|
  {
    if lines == [] then Ok(sc)
    else
      var r := LineStep(i, sc, lines[0]);
      if r.Err? then r else ScanLines(i, r.value, lines[1..])
  }

  /** `__average_sn`: the mean of the S/N fields read as integers. It succeeds exactly on a
      non-empty list of integer literals, and then divides by the length of the list. */
  function AverageSn(snlist: seq<string>): (r: Result<Mean, Failure>)
    ensures r.Ok? <==> |snlist| > 0 && forall k :: 0 <= k < |snlist| ==> ParseInt(snlist[k]).Some?
    ensures r.Ok? ==> r.value.count == |snlist|
  {
    ParseAllValues(snlist);
    var xs := ParseAll(snlist);
    if xs.None? || |snlist| == 0 then Err(AverageFailed) else Ok(Mean(Sum(xs.value), |snlist|))
  }

  /** `list(map(int, snlist))`. */
  function ParseAll(snlist: seq<string>): Option<seq<int>>
  {
    if snlist == [] then Some([])
    else
      var init := ParseAll(snlist[..|snlist| - 1]);
      var last := ParseInt(snlist[|snlist| - 1]);
      if init.None? || last.None? then None else Some(init.value + [last.value])
  }

  /** One turn of the cycle loop of `__check_trip`: scan the cycle, then record a summary if
      some S/N value was collected. */
  function PackResult(i: nat, trip: TripReport, pack: seq<string>): Result<TripReport, Failure>
  {
    var r := ScanLines(i, Scan(trip, FreshPack), pack);
    if r.Err? then Err(r.error)
    else
      var st := r.value.pack;
      if st.snlist == [] then Ok(r.value.trip)
      else
        var sn := AverageSn(st.snlist);
        if sn.Err? then Err(sn.error)
        else Ok(r.value.trip.(sn := r.value.trip.sn + [CycleSummary(st.time, |st.stnum|, sn.value)]))
  }

  /** The cycle loop from cycle `i` on. */
  function RunFrom(i: nat, trip: TripReport, packs: seq<seq<string>>): Result<TripReport, Failure>
    decreases |packs| - i
  {
    if i >= |packs| then Ok(trip)
    else
      var r := PackResult(i, trip, packs[i]);
      if r.Err? then r else RunFrom(i + 1, r.value, packs)
  }

  /** What `__check_trip(pack)` returns or raises. */
  function CheckTripSpec(packs: seq<seq<string>>): Result<TripReport, Failure>
  {
    RunFrom(0, EmptyReport, packs)
  }

  /** The sentence loop and the summary of one cycle. */
  method ScanPack(i: nat, trip: TripReport, p: seq<string>) returns (r: Result<TripReport, Failure>)
    ensures r == PackResult(i, trip, p)
  {
    var sc := Scan(trip, FreshPack);
    for j := 0 to |p|
      invariant ScanLines(i, sc, p[j..]) == ScanLines(i, Scan(trip, FreshPack), p)
    {
      assert p[j..][1..] == p[j + 1..];
      var s := StepLine(i, sc, p[j]);
      if s.Err? {
        return Err(s.error);
      }
      sc := s.value;
    }
    if sc.pack.snlist != [] {
      var sn := AverageSn(sc.pack.snlist);
      if sn.Err? {
        return Err(sn.error);
      }
      var summary := CycleSummary(sc.pack.time, |sc.pack.stnum|, sn.value);
      return Ok(sc.trip.(sn := sc.trip.sn + [summary]));
    }
    return Ok(sc.trip);
  }

  /** `__check_trip`. */
  method CheckTrip(packs: seq<seq<string>>) returns (r: Result<TripReport, Failure>)
    ensures r == CheckTripSpec(packs)
  {
    var trip := EmptyReport;
    for i := 0 to |packs|
      invariant RunFrom(i, trip, packs) == CheckTripSpec(packs)
    {
      var t := ScanPack(i, trip, packs[i]);
      if t.Err? {
        return Err(t.error);
      }
      trip := t.value;
    }
    return Ok(trip);
  }

  // ---------------------------------------------------------------- the averager

  /** `list(map(int, snlist))` succeeds exactly when every entry is an integer literal, and then
      gives their values in order. */
  lemma {:induction false} ParseAllValues(snlist: seq<string>)
    ensures ParseAll(snlist).Some? <==> forall k :: 0 <= k < |snlist| ==> ParseInt(snlist[k]).Some?
    ensures ParseAll(snlist).Some? ==>
      && |ParseAll(snlist).value| == |snlist|
      && forall k :: 0 <= k < |snlist| ==> ParseAll(snlist).value[k] == ParseInt(snlist[k]).value
  {
    if snlist != [] {
      var init := snlist[..|snlist| - 1];
      ParseAllValues(init);
      assert forall k :: 0 <= k < |init| ==> init[k] == snlist[k];
    }
  }

  /** The mean lies within any bounds of the values it averages. */
  lemma {:induction false} MeanWithin(snlist: seq<string>, lo: int, hi: int)
    requires |snlist| > 0
    requires forall k :: 0 <= k < |snlist| ==> ParseInt(snlist[k]).Some? && lo <= ParseInt(snlist[k]).value <= hi
    ensures AverageSn(snlist).Ok?
    ensures lo * AverageSn(snlist).value.count <= AverageSn(snlist).value.total <= hi * AverageSn(snlist).value.count
  {
    ParseAllValues(snlist);
    var xs := ParseAll(snlist).value;
    MinMaxBound(xs);
    SumBetweenMinAndMax(xs);
    var a :| 0 <= a < |xs| && xs[a] == Min(xs);
    var b :| 0 <= b < |xs| && xs[b] == Max(xs);
    assert lo <= Min(xs) && Max(xs) <= hi;
    MulMonotone(lo, Min(xs), |xs|);
    MulMonotone(Max(xs), hi, |xs|);
  }

  // ---------------------------------------------------------------- time to first fix

  /** The stamp `time-date` of a `$GPRMC` sentence reporting a valid fix with a latitude. */
  function FixStamp(line: string): Option<string>
  {
    var f := Fields(line);
    if |f| >= 10 && f[0] == "$GPRMC" && f[2] == "A" && f[3] != "" then Some(f[1] + "-" + f[9]) else None
  }

  /** `sn_dict["time"]` after the sentences `lines`, starting from `init`: the stamp of the last
      valid fix among them, or `init` when there is none. */
  function LastFixStamp(lines: seq<string>, init: Option<string>): Option<string>
    decreases |lines|
  {
    if lines == [] then init
    else LastFixStamp(lines[1..], if FixStamp(lines[0]).Some? then FixStamp(lines[0]) else init)
  }

  /** The stamp of the first fix among `lines`. */
  function FirstFixStamp(lines: seq<string>): Option<string>
  {
    if lines == [] then None
    else if FixStamp(lines[0]).Some? then FixStamp(lines[0])
    else FirstFixStamp(lines[1..])
  }

  /** The index of the first cycle from `i` on that holds a fix. */
  function FirstFixCycle(packs: seq<seq<string>>, i: nat): Option<nat>
    decreases |packs| - i
  {
    if i >= |packs| then None
    else if FirstFixStamp(packs[i]).Some? then Some(i)
    else FirstFixCycle(packs, i + 1)
  }

  /** FirstFixCycle finds the earliest cycle holding a fix. */
  lemma {:induction false} FirstFixCycleFirst(packs: seq<seq<string>>, i: nat)
    ensures FirstFixCycle(packs, i).None? ==> forall k :: i <= k < |packs| ==> FirstFixStamp(packs[k]).None?
    ensures FirstFixCycle(packs, i).Some? ==>
      var j := FirstFixCycle(packs, i).value;
      && i <= j < |packs| && FirstFixStamp(packs[j]).Some?
      && forall k :: i <= k < j ==> FirstFixStamp(packs[k]).None?
    decreases |packs| - i
  {
    if i < |packs| && FirstFixStamp(packs[i]).None? {
      FirstFixCycleFirst(packs, i + 1);
    }
  }

  /** A sentence changes the trip only on its first fix, which sets the time to first fix to
      half the cycle index and records the fix stamp. */
  lemma {:induction false} LineStepTrip(i: nat, sc: Scan, line: string)
    requires LineStep(i, sc, line).Ok?
    ensures var t := LineStep(i, sc, line).value.trip;
      && t.sn == sc.trip.sn
      && if sc.trip.ttff.None? && FixStamp(line).Some? then t.ttff == Some(i / 2) && t.ttffNmea == FixStamp(line).value
         else t.ttff == sc.trip.ttff && t.ttffNmea == sc.trip.ttffNmea
  {
  }

  lemma {:induction false} ScanLinesTrip(i: nat, sc: Scan, lines: seq<string>)
    requires ScanLines(i, sc, lines).Ok?
    ensures var t := ScanLines(i, sc, lines).value.trip;
      && t.sn == sc.trip.sn
      && if sc.trip.ttff.None? && FirstFixStamp(lines).Some? then t.ttff == Some(i / 2) && t.ttffNmea == FirstFixStamp(lines).value
         else t.ttff == sc.trip.ttff && t.ttffNmea == sc.trip.ttffNmea
    decreases |lines|
  {
    if lines != [] {
      LineStepTrip(i, sc, lines[0]);
      ScanLinesTrip(i, LineStep(i, sc, lines[0]).value, lines[1..]);
    }
  }

  lemma {:induction false} PackResultTrip(i: nat, trip: TripReport, pack: seq<string>)
    requires PackResult(i, trip, pack).Ok?
    ensures var t := PackResult(i, trip, pack).value;
      && if trip.ttff.None? && FirstFixStamp(pack).Some? then t.ttff == Some(i / 2) && t.ttffNmea == FirstFixStamp(pack).value
         else t.ttff == trip.ttff && t.ttffNmea == trip.ttffNmea
  {
    ScanLinesTrip(i, Scan(trip, FreshPack), pack);
  }

  lemma {:induction false} RunFromTtff(i: nat, trip: TripReport, packs: seq<seq<string>>)
    requires RunFrom(i, trip, packs).Ok?
    ensures var t := RunFrom(i, trip, packs).value;
      if trip.ttff.Some? || FirstFixCycle(packs, i).None? then t.ttff == trip.ttff && t.ttffNmea == trip.ttffNmea
      else
        var j := FirstFixCycle(packs, i).value;
        j < |packs| && FirstFixStamp(packs[j]).Some? && t.ttff == Some(j / 2) && t.ttffNmea == FirstFixStamp(packs[j]).value
    decreases |packs| - i
  {
    if i < |packs| {
      PackResultTrip(i, trip, packs[i]);
      RunFromTtff(i + 1, PackResult(i, trip, packs[i]).value, packs);
      if FirstFixStamp(packs[i]).None? {
        FirstFixCycleFirst(packs, i + 1);
      }
    }
  }

  /** Time to first fix: the trip's `ttff` is half the index of the first cycle holding a valid
      fix (rounded down, as `int(i/2)`), and `ttffnmea` is the stamp of that cycle's first fix;
      with no fix at all both stay unset. */
  lemma {:induction false} TtffIsFirstFixCycle(packs: seq<seq<string>>)
    requires CheckTripSpec(packs).Ok?
    ensures var t := CheckTripSpec(packs).value;
      match FirstFixCycle(packs, 0)
      case None => t.ttff.None? && t.ttffNmea == ""
      case Some(j) => j < |packs| && FirstFixStamp(packs[j]).Some? && t.ttff == Some(j / 2) && t.ttffNmea == FirstFixStamp(packs[j]).value
  {
    RunFromTtff(0, EmptyReport, packs);
  }

  // ---------------------------------------------------------------- the summaries

  /** What holds of the locals throughout a cycle: at most twelve used satellites, and S/N
      values only once the trip has a first fix. */
  predicate ScanInv(sc: Scan)
  {
    |sc.pack.stnum| <= 12 && (sc.pack.snlist != [] ==> sc.trip.ttff.Some?)
  }

  /** What holds of every report: each summary counts at most twelve used satellites and
      averages at least one value, and summaries exist only once the trip has a first fix. */
  predicate ReportInv(t: TripReport)
  {
    && (forall k :: 0 <= k < |t.sn| ==> t.sn[k].num <= 12 && t.sn[k].sn.count > 0)
    && (t.sn != [] ==> t.ttff.Some?)
  }

  lemma {:induction false} LineStepInv(i: nat, sc: Scan, line: string)
    requires ScanInv(sc) && LineStep(i, sc, line).Ok?
    ensures ScanInv(LineStep(i, sc, line).value)
  {
    var f := Fields(line);
    if f[0] != "$GPRMC" && sc.trip.ttff.Some? && f[0] == "$GPGSA" {
      NonEmptyMembers(Slice(f, 3, 15));
    }
  }

  lemma {:induction false} ScanLinesInv(i: nat, sc: Scan, lines: seq<string>)
    requires ScanInv(sc) && ScanLines(i, sc, lines).Ok?
    ensures ScanInv(ScanLines(i, sc, lines).value)
    decreases |lines|
  {
    if lines != [] {
      LineStepInv(i, sc, lines[0]);
      ScanLinesInv(i, LineStep(i, sc, lines[0]).value, lines[1..]);
    }
  }

  /** A cycle keeps ReportInv and adds at most one summary. */
  lemma {:induction false} PackResultInv(i: nat, trip: TripReport, pack: seq<string>)
    requires ReportInv(trip) && PackResult(i, trip, pack).Ok?
    ensures ReportInv(PackResult(i, trip, pack).value)
    ensures |PackResult(i, trip, pack).value.sn| <= |trip.sn| + 1
  {
    var r := ScanLines(i, Scan(trip, FreshPack), pack);
    ScanLinesInv(i, Scan(trip, FreshPack), pack);
    ScanLinesTrip(i, Scan(trip, FreshPack), pack);
    var st := r.value.pack;
    if st.snlist != [] {
      var t := PackResult(i, trip, pack).value;
      assert t.sn == trip.sn + [CycleSummary(st.time, |st.stnum|, AverageSn(st.snlist).value)];
      forall k | 0 <= k < |t.sn|
        ensures t.sn[k].num <= 12 && t.sn[k].sn.count > 0
      {
        if k < |trip.sn| {
          assert t.sn[k] == trip.sn[k];
        }
      }
    }
  }

  lemma {:induction false} RunFromInv(i: nat, trip: TripReport, packs: seq<seq<string>>)
    requires ReportInv(trip) && RunFrom(i, trip, packs).Ok?
    ensures ReportInv(RunFrom(i, trip, packs).value)
    ensures i <= |packs| ==> |RunFrom(i, trip, packs).value.sn| <= |trip.sn| + |packs| - i
    decreases |packs| - i
  {
    if i < |packs| {
      PackResultInv(i, trip, packs[i]);
      RunFromInv(i + 1, PackResult(i, trip, packs[i]).value, packs);
    }
  }

  /** The report holds at most one summary per cycle; each summary counts at most twelve used
      satellites (the twelve fields of a `$GPGSA` sentence) and averages at least one S/N value;
      and no summary is recorded before the first fix. */
  lemma {:induction false} SummariesBounded(packs: seq<seq<string>>)
    requires CheckTripSpec(packs).Ok?
    ensures ReportInv(CheckTripSpec(packs).value)
    ensures |CheckTripSpec(packs).value.sn| <= |packs|
  {
    RunFromInv(0, EmptyReport, packs);
  }

  /** Whether some cycle before `j` holds a valid fix, that is, whether the trip has its time to
      first fix when cycle `j` starts. */
  function FixedBefore(packs: seq<seq<string>>, j: nat): bool
    requires j <= |packs|
  {
    j > 0 && (FixedBefore(packs, j - 1) || FirstFixStamp(packs[j - 1]).Some?)
  }

  /** The scan of cycle `j` on its own: it depends only on the cycle's sentences and on whether
      the trip already had a fix. */
  function CycleScan(packs: seq<seq<string>>, j: nat): Result<Scan, Failure>
    requires j < |packs|
  {
    ScanLines(j, Scan(TripReport(if FixedBefore(packs, j) then Some(0) else None, "", []), FreshPack), packs[j])
  }

  /** The number of cycles from `i` on whose scan collected some S/N value. */
  function Collecting(packs: seq<seq<string>>, i: nat): nat
    decreases |packs| - i
  {
    if i >= |packs| then 0
    else Collecting(packs, i + 1) + (if CycleScan(packs, i).Ok? && CycleScan(packs, i).value.pack.snlist != [] then 1 else 0)
  }

  /** Two scans that agree on the locals and on whether the trip has a fix stay in step. */
  lemma {:induction false} ScanLinesPack(i: nat, sc: Scan, j: nat, sd: Scan, lines: seq<string>)
    requires sc.pack == sd.pack && (sc.trip.ttff.Some? <==> sd.trip.ttff.Some?)
    ensures ScanLines(i, sc, lines).Ok? <==> ScanLines(j, sd, lines).Ok?
    ensures ScanLines(i, sc, lines).Ok? ==>
      && ScanLines(i, sc, lines).value.pack == ScanLines(j, sd, lines).value.pack
      && (ScanLines(i, sc, lines).value.trip.ttff.Some? <==> ScanLines(j, sd, lines).value.trip.ttff.Some?)
    decreases |lines|
  {
    if lines != [] {
      var r, q := LineStep(i, sc, lines[0]), LineStep(j, sd, lines[0]);
      if r.Ok? && q.Ok? {
        ScanLinesPack(i, r.value, j, q.value, lines[1..]);
      }
    }
  }

  /** A cycle adds a summary exactly when its scan collected some S/N value; the summary holds
      the cycle's stamp, `len(stnum)` at the end of the cycle, and the mean; the trip has a fix
      afterwards exactly when it had one or the cycle holds one. */
  lemma {:induction false} PackResultSummary(i: nat, trip: TripReport, pack: seq<string>)
    requires PackResult(i, trip, pack).Ok?
    ensures var t := PackResult(i, trip, pack).value;
      var st := ScanLines(i, Scan(trip, FreshPack), pack).value.pack;
      && (t.ttff.Some? <==> trip.ttff.Some? || FirstFixStamp(pack).Some?)
      && st.time == LastFixStamp(pack, None)
      && (st.snlist == [] ==> t.sn == trip.sn)
      && (st.snlist != [] ==> t.sn == trip.sn + [CycleSummary(LastFixStamp(pack, None), |st.stnum|, AverageSn(st.snlist).value)])
  {
    ScanLinesTrip(i, Scan(trip, FreshPack), pack);
    ScanLinesTime(i, Scan(trip, FreshPack), pack);
  }

  /** The cycle's stamp is set at each valid fix, `sentence[1] + "-" + sentence[9]`, and is
      otherwise left as it was. */
  lemma {:induction false} ScanLinesTime(i: nat, sc: Scan, lines: seq<string>)
    requires ScanLines(i, sc, lines).Ok?
    ensures ScanLines(i, sc, lines).value.pack.time == LastFixStamp(lines, sc.pack.time)
    decreases |lines|
  {
    if lines != [] {
      ScanLinesTime(i, LineStep(i, sc, lines[0]).value, lines[1..]);
    }
  }

  /** A sentence with a valid fix is a line the segmenter opens a cycle with. */
  lemma {:induction false} FixStampIsRmc(line: string)
    requires FixStamp(line).Some?
    ensures StartsWith(line, "$GPRMC")
  {
    var t := ReplaceChar(line, '*', ',');
    SplitFirstPrefix(t, ',');
    assert t[..6] == "$GPRMC";
    assert forall k :: 0 <= k < 6 ==> line[k] == t[k];
  }

  /** In a cycle whose lines after the first are no `$GPRMC` lines, as the segmenter cuts them,
      the summary's stamp is the stamp of the cycle's fix, or None without one. */
  lemma {:induction false} CycleStamp(pack: seq<string>)
    requires forall k :: 1 <= k < |pack| ==> !StartsWith(pack[k], "$GPRMC")
    ensures LastFixStamp(pack, None) == FirstFixStamp(pack)
  {
    if pack != [] {
      var x := if FixStamp(pack[0]).Some? then FixStamp(pack[0]) else None;
      NoLaterFix(pack[1..], x);
      if FixStamp(pack[0]).None? {
        NoLaterFirst(pack[1..]);
      }
    }
  }

  lemma {:induction false} NoLaterFix(lines: seq<string>, x: Option<string>)
    requires forall k :: 0 <= k < |lines| ==> !StartsWith(lines[k], "$GPRMC")
    ensures LastFixStamp(lines, x) == x
    decreases |lines|
  {
    if lines != [] {
      if FixStamp(lines[0]).Some? {
        FixStampIsRmc(lines[0]);
      }
      NoLaterFix(lines[1..], x);
    }
  }

  lemma {:induction false} NoLaterFirst(lines: seq<string>)
    requires forall k :: 0 <= k < |lines| ==> !StartsWith(lines[k], "$GPRMC")
    ensures FirstFixStamp(lines) == None
    decreases |lines|
  {
    if lines != [] {
      if FixStamp(lines[0]).Some? {
        FixStampIsRmc(lines[0]);
      }
      NoLaterFirst(lines[1..]);
    }
  }

  lemma {:induction false} RunFromCount(i: nat, trip: TripReport, packs: seq<seq<string>>)
    requires i <= |packs| && (trip.ttff.Some? <==> FixedBefore(packs, i))
    requires RunFrom(i, trip, packs).Ok?
    ensures |RunFrom(i, trip, packs).value.sn| == |trip.sn| + Collecting(packs, i)
    decreases |packs| - i
  {
    if i < |packs| {
      var sd := Scan(TripReport(if FixedBefore(packs, i) then Some(0) else None, "", []), FreshPack);
      ScanLinesPack(i, Scan(trip, FreshPack), i, sd, packs[i]);
      PackResultSummary(i, trip, packs[i]);
      RunFromCount(i + 1, PackResult(i, trip, packs[i]).value, packs);
    }
  }

  /** The report holds one summary for each cycle whose scan collected some S/N value of a used
      satellite, and no other. */
  lemma {:induction false} SummaryCount(packs: seq<seq<string>>)
    requires CheckTripSpec(packs).Ok?
    ensures |CheckTripSpec(packs).value.sn| == Collecting(packs, 0)
  {
    RunFromCount(0, EmptyReport, packs);
  }
}
