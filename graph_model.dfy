/** The values behind the satellite series of nmea_graph.py: the parsed epochs it reads, the
    per-satellite tracks it builds, and the functions that say what `create_gpsdata`,
    `add_gsvdata`, `add_gsadata` and `check_thr` compute.

    A series is `{"sv": {number: {"sn": [...], "el": [...], "az": [...]}}, "time": [...]}`; the
    template track lives under the key "dummy" of the same map, as in the source. */
module GraphModel {
  import opened Util
  import opened Text

  /** The month and day of an RMC date stamp. */
  datatype Date = Date(month: nat, day: nat)

  /** The parsed RMC sentence of an epoch: its date stamp and the rendering of its time stamp,
      either of which the parser may leave unset. */
  datatype Rmc = Rmc(datestamp: Option<Date>, timestamp: Option<string>)

  /** One satellite of a GSV report, every field as text and possibly empty. */
  datatype SvReport = SvReport(no: string, el: string, az: string, sn: string)

  /** One element of `gpsinput`: its RMC, the satellite numbers of its GSA if it has one, and the
      satellites of its GSV if it has one. */
  datatype Epoch = Epoch(rmc: Rmc, gsa: Option<seq<string>>, gsv: Option<seq<SvReport>>)

  /** The three histories of one satellite. Their lengths may differ: `el` and `az` grow only
      for non-empty fields. */
  datatype Track = Track(sn: seq<int>, el: seq<int>, az: seq<int>)

  type Tracks = map<string, Track>

  datatype Series = Series(sv: Tracks, time: seq<string>)

  /** The two series `create_gpsdata` returns: all observed satellites (GSV) and active ones (GSA). */
  datatype Built = Built(gsv: Series, gsa: Series)

  /** `thr["sn"]`, `thr["el"]`. */
  datatype Thresholds = Thresholds(sn: int, el: int)

  const DummyKey: string := "dummy"

  const EmptyTrack := Track([], [], [])

  const EmptySeries := Series(map[DummyKey := EmptyTrack], [])

  // ---------------------------------------------------------------- epoch labels

  /** `make_timestr`: "month/day time", or "----" when the date or the time is missing. A real
      label starts with a digit, so it is never "----". */
  function MakeTimestr(rmc: Rmc): (r: string)
    ensures r == "----" <==> rmc.datestamp.None? || rmc.timestamp.None?
  {
    if rmc.datestamp.Some? && rmc.timestamp.Some? then
      var m := Decimal(rmc.datestamp.value.month);
      var shown := m + "/" + Decimal(rmc.datestamp.value.day) + " " + rmc.timestamp.value;
      assert shown[0] == m[0] && IsDigit(m[0]);
      shown
    else "----"
  }

  /** With both date and time present, the label reads back as "month/day time": the text
      before its first '/' is the month, and the text after it up to the first space is the day. */
  lemma {:induction false} MakeTimestrCases(rmc: Rmc)
    ensures rmc.datestamp.Some? && rmc.timestamp.Some? ==>
      var p := Split(MakeTimestr(rmc), '/');
      && |p| >= 2
      && ParseInt(p[0]) == Some(rmc.datestamp.value.month)
      && ParseInt(Split(p[1], ' ')[0]) == Some(rmc.datestamp.value.day)
  {
    if rmc.datestamp.Some? && rmc.timestamp.Some? {
      var month, day := rmc.datestamp.value.month, rmc.datestamp.value.day;
      LabelPieces(Decimal(month), Decimal(day), rmc.timestamp.value);
      DecimalRoundTrip(month);
      DecimalRoundTrip(day);
    }
  }

  /** Digits before the '/' and between it and the first space come back out of the splits. */
  lemma {:induction false} LabelPieces(m: string, d: string, ts: string)
    requires AllDigits(m) && AllDigits(d)
    ensures var p := Split(m + "/" + d + " " + ts, '/');
      |p| >= 2 && p[0] == m && Split(p[1], ' ')[0] == d
  {
    assert '/' !in m by {
      assert forall i :: 0 <= i < |m| ==> IsDigit(m[i]);
    }
    assert '/' !in d && ' ' !in d by {
      assert forall i :: 0 <= i < |d| ==> IsDigit(d[i]);
    }
    var rest := d + [' '] + ts;
    assert m + "/" + d + " " + ts == m + ['/'] + rest;
    SplitHead(m, rest, '/');
    SplitFirstAppend(d, [' '] + ts, '/');
    assert rest == d + ([' '] + ts);
    var head := Split(ts, '/')[0];
    assert Split([' '] + ts, '/')[0] == [' '] + head by {
      assert ([' '] + ts)[1..] == ts;
    }
    assert d + ([' '] + head) == d + [' '] + head;
    SplitHead(d, head, ' ');
  }

  // ---------------------------------------------------------------- readings

  /** `int(f if f else 0)`: the S/N reading, 0 for an empty field; None where `int()` raises. */
  function SnValue(field: string): Option<int>
  {
    if field == "" then Some(0) else ParseInt(field)
  }

  /** What an elevation or azimuth field appends: nothing if it is empty, else `int(f)`. */
  function OptValue(field: string): Option<seq<int>>
  {
    if field == "" then Some([])
    else
      var v := ParseInt(field);
      if v.None? then None else Some([v.value])
  }

  /** No `int()` of this report raises. */
  predicate ReportParses(r: SvReport)
  {
    SnValue(r.sn).Some? && OptValue(r.el).Some? && OptValue(r.az).Some?
  }

  predicate AllParse(rs: seq<SvReport>)
  {
    forall i :: 0 <= i < |rs| ==> ReportParses(rs[i])
  }

  /** The three appends of one report to a track. */
  function AppendReading(t: Track, r: SvReport): Track
    requires ReportParses(r)
  {
    Track(t.sn + [SnValue(r.sn).value], t.el + OptValue(r.el).value, t.az + OptValue(r.az).value)
  }

  /** The template's per-call growth: a 0 for `sn` and for `el`, nothing for `az`. */
  function Advance(t: Track): Track
  {
    Track(t.sn + [0], t.el + [0], t.az)
  }

  // ---------------------------------------------------------------- the GSV side

  /** One turn of the report loop of `add_gsvdata` on the observed tracks: a satellite without a
      track gets a copy of the template, then the report's readings are appended. */
  function GsvReportStep(v: Tracks, r: SvReport): (w: Tracks)
    requires DummyKey in v && ReportParses(r)
    ensures w.Keys == v.Keys + {r.no}
  {
    var t := if r.no in v then v[r.no] else v[DummyKey];
    v[r.no := AppendReading(t, r)]
  }

  /** The report loop over `rs`. */
  function GsvFold(v: Tracks, rs: seq<SvReport>): (w: Tracks)
    requires DummyKey in v && AllParse(rs)
    ensures DummyKey in w
  {
    if rs == [] then v else GsvReportStep(GsvFold(v, rs[..|rs| - 1]), rs[|rs| - 1])
  }

  /** One more parsing report extends the GSV fold by one step. */
  lemma {:induction false} GsvFoldSnoc(v: Tracks, rs: seq<SvReport>, j: nat)
    requires DummyKey in v && j < |rs| && AllParse(rs[..j]) && ReportParses(rs[j])
    ensures AllParse(rs[..j + 1])
    ensures GsvFold(v, rs[..j + 1]) == GsvReportStep(GsvFold(v, rs[..j]), rs[j])
  {
    assert rs[..j + 1][..j] == rs[..j];
  }

  // ---------------------------------------------------------------- the GSA side

  /** The first loop of `add_gsadata`: every listed number without a track gets a copy of the
      template. */
  function CloneMissing(a: Tracks, used: seq<string>): (c: Tracks)
    requires DummyKey in a
    ensures DummyKey in c
  {
    if used == [] then a
    else
      var c := CloneMissing(a, used[..|used| - 1]);
      var u := used[|used| - 1];
      if u in c then c else c[u := c[DummyKey]]
  }

  /** The tracks after the first loop of `add_gsadata`: one for every number already tracked or
      listed, each new one a copy of the template. */
  lemma {:induction false} CloneMissingTracks(a: Tracks, used: seq<string>)
    requires DummyKey in a
    ensures CloneMissing(a, used).Keys == a.Keys + (set u | u in used)
    ensures forall k :: k in CloneMissing(a, used) ==>
      CloneMissing(a, used)[k] == if k in a then a[k] else a[DummyKey]
  {
    if used != [] {
      var init := used[..|used| - 1];
      var u := used[|used| - 1];
      CloneMissingTracks(a, init);
      assert (set x | x in used) == (set x | x in init) + {u} by {
        assert used == init + [u];
      }
    }
  }

  /** The second step of `add_gsadata`: the report's readings go to its satellite if, and only
      if, that satellite has a track. */
  function AddReading(c: Tracks, r: SvReport): (d: Tracks)
    requires ReportParses(r)
    ensures d.Keys == c.Keys
  {
    if r.no in c then c[r.no := AppendReading(c[r.no], r)] else c
  }

  /** The template's growth at the end of `add_gsadata` and of `add_gsvdata`. */
  function AdvanceDummy(d: Tracks): (e: Tracks)
    requires DummyKey in d
    ensures e.Keys == d.Keys
  {
    d[DummyKey := Advance(d[DummyKey])]
  }

  /** `add_gsadata(gsasv, sv, gsa)` on the active tracks. */
  function GsaStep(a: Tracks, used: seq<string>, r: SvReport): (w: Tracks)
    requires DummyKey in a && ReportParses(r)
    ensures DummyKey in w
  {
    AdvanceDummy(AddReading(CloneMissing(a, used), r))
  }

  /** `add_gsadata` once per observed report. */
  function GsaFold(a: Tracks, used: seq<string>, rs: seq<SvReport>): (w: Tracks)
    requires DummyKey in a && AllParse(rs)
    ensures DummyKey in w
  {
    if rs == [] then a else GsaStep(GsaFold(a, used, rs[..|rs| - 1]), used, rs[|rs| - 1])
  }

  /** One more parsing report extends the GSA fold by one step. */
  lemma {:induction false} GsaFoldSnoc(a: Tracks, used: seq<string>, rs: seq<SvReport>, j: nat)
    requires DummyKey in a && j < |rs| && AllParse(rs[..j]) && ReportParses(rs[j])
    ensures AllParse(rs[..j + 1])
    ensures GsaFold(a, used, rs[..j + 1]) == GsaStep(GsaFold(a, used, rs[..j]), used, rs[j])
  {
    assert rs[..j + 1][..j] == rs[..j];
  }

  // ---------------------------------------------------------------- epochs

  function ReportsOf(e: Epoch): seq<SvReport>
  {
    if e.gsv.Some? then e.gsv.value else []
  }

  /** One turn of the epoch loop of `create_gpsdata`: the label goes to the observed times and,
      for an epoch with GSA, to the active times; then `add_gsvdata`. None where an `int()`
      raises. */
  function EpochStep(b: Built, e: Epoch): (r: Option<Built>)
    requires DummyKey in b.gsv.sv && DummyKey in b.gsa.sv
    ensures r.Some? ==> DummyKey in r.value.gsv.sv && DummyKey in r.value.gsa.sv
  {
    var now := MakeTimestr(e.rmc);
    var rs := ReportsOf(e);
    if !AllParse(rs) then None
    else
      var v := GsvFold(b.gsv.sv, rs);
      var a := if e.gsa.Some? then GsaFold(b.gsa.sv, e.gsa.value, rs) else b.gsa.sv;
      var gsaTime := if e.gsa.Some? then b.gsa.time + [now] else b.gsa.time;
      Some(Built(Series(AdvanceDummy(v), b.gsv.time + [now]), Series(a, gsaTime)))
  }

  /** The two series after the epoch loop over `epochs`, templates still in place. */
  function Build(epochs: seq<Epoch>): (r: Option<Built>)
    ensures r.Some? ==> DummyKey in r.value.gsv.sv && DummyKey in r.value.gsa.sv
  {
    if epochs == [] then Some(Built(EmptySeries, EmptySeries))
    else
      var prev := Build(epochs[..|epochs| - 1]);
      if prev.None? then None else EpochStep(prev.value, epochs[|epochs| - 1])
  }

  /** `create_gpsdata(gpsinput)`: the built series with both templates popped. */
  function CreateSpec(epochs: seq<Epoch>): Option<Built>
  {
    var b := Build(epochs);
    if b.None? then None
    else
      Some(Built(Series(b.value.gsv.sv - {DummyKey}, b.value.gsv.time),
                 Series(b.value.gsa.sv - {DummyKey}, b.value.gsa.time)))
  }

  // ---------------------------------------------------------------- the threshold filter

  /** `np.average(xs) < thr` for a non-empty history; the average of an empty one is NaN, which
      compares false. */
  predicate BelowMean(xs: seq<int>, thr: int)
  {
    |xs| > 0 && Sum(xs) < thr * |xs|
  }

  /** The track survives `check_thr`. */
  predicate Keep(t: Track, thr: Thresholds, gsamode: bool)
  {
    !(BelowMean(t.sn, thr.sn) || (gsamode && BelowMean(t.el, thr.el)))
  }

  /** The tracks `check_thr` leaves. */
  function Filtered(sv: Tracks, thr: Thresholds, gsamode: bool): Tracks
  {
    map k | k in sv && Keep(sv[k], thr, gsamode) :: sv[k]
  }
}
