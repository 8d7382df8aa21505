/** What the series builder and the threshold filter of nmea_graph.py guarantee: which
    satellites get tracks, what each track holds, how the padding template grows, how the labels
    line up with the epochs, and what `check_thr` keeps.

    Several statements assume that no report carries the satellite number "dummy": the source
    keeps its template under that key of the same map, so such a report would write into the
    template itself. */
module GraphProps {
  import opened Util
  import opened Text
  import opened GraphModel

  // ---------------------------------------------------------------- reference definitions

  /** The satellite numbers of a list of reports. */
  function Numbers(rs: seq<SvReport>): set<string>
  {
    if rs == [] then {} else Numbers(rs[..|rs| - 1]) + {rs[|rs| - 1].no}
  }

  predicate NoDummyReport(rs: seq<SvReport>)
  {
    forall i :: 0 <= i < |rs| ==> rs[i].no != DummyKey
  }

  /** `t` with the readings of the reports numbered `k` appended, in report order. */
  function AppendFor(t: Track, rs: seq<SvReport>, k: string): Track
    requires AllParse(rs)
  {
    if rs == [] then t
    else
      var u := AppendFor(t, rs[..|rs| - 1], k);
      if rs[|rs| - 1].no == k then AppendReading(u, rs[|rs| - 1]) else u
  }

  /** The template after `n` advances. */
  function Advanced(t: Track, n: nat): Track
  {
    if n == 0 then t else Advance(Advanced(t, n - 1))
  }

  /** A template grown from empty: `n` zeros of S/N and of elevation, no azimuth. */
  function Padding(n: nat): Track
  {
    Track(Zeros(n), Zeros(n), [])
  }

  predicate AllEpochsParse(epochs: seq<Epoch>)
  {
    forall i :: 0 <= i < |epochs| ==> AllParse(ReportsOf(epochs[i]))
  }

  predicate NoDummyIn(epochs: seq<Epoch>)
  {
    forall i :: 0 <= i < |epochs| ==> NoDummyReport(ReportsOf(epochs[i]))
  }

  /** Every satellite number reported in some epoch. */
  function AllNumbers(epochs: seq<Epoch>): set<string>
  {
    if epochs == [] then {} else AllNumbers(epochs[..|epochs| - 1]) + Numbers(ReportsOf(epochs[|epochs| - 1]))
  }

  /** The labels of the epochs that carry a GSA sentence. */
  function GsaLabels(epochs: seq<Epoch>): seq<string>
  {
    if epochs == [] then []
    else
      var e := epochs[|epochs| - 1];
      GsaLabels(epochs[..|epochs| - 1]) + (if e.gsa.Some? then [MakeTimestr(e.rmc)] else [])
  }

  /** The number of reports seen in epochs that carry a GSA sentence: one `add_gsadata` call each. */
  function ActiveCount(epochs: seq<Epoch>): nat
  {
    if epochs == [] then 0
    else
      var e := epochs[|epochs| - 1];
      ActiveCount(epochs[..|epochs| - 1]) + (if e.gsa.Some? then |ReportsOf(e)| else 0)
  }

  // ---------------------------------------------------------------- small facts

  lemma {:induction false} AppendForAbsent(t: Track, rs: seq<SvReport>, k: string)
    requires AllParse(rs) && k !in Numbers(rs)
    ensures AppendFor(t, rs, k) == t
  {
    if rs != [] {
      AppendForAbsent(t, rs[..|rs| - 1], k);
    }
  }

  /** `u` continues `t`: each of its three histories starts with the corresponding one of `t`. */
  predicate Extends(t: Track, u: Track)
  {
    t.sn <= u.sn && t.el <= u.el && t.az <= u.az
  }

  /** How many of the reports carry the number `k`. */
  function Occurrences(rs: seq<SvReport>, k: string): nat
  {
    if rs == [] then 0 else Occurrences(rs[..|rs| - 1], k) + (if rs[|rs| - 1].no == k then 1 else 0)
  }

  /** Appending a satellite's readings keeps the history already there and adds exactly one S/N
      value per report of that satellite, and at most one elevation and one azimuth. */
  lemma {:induction false} AppendForGrows(t: Track, rs: seq<SvReport>, k: string)
    requires AllParse(rs)
    ensures var u := AppendFor(t, rs, k);
      && Extends(t, u)
      && |u.sn| == |t.sn| + Occurrences(rs, k)
      && |u.el| <= |t.el| + Occurrences(rs, k)
      && |u.az| <= |t.az| + Occurrences(rs, k)
  {
    if rs != [] {
      var init := rs[..|rs| - 1];
      AppendForGrows(t, init, k);
    }
  }

  /** The S/N values the reports numbered `k` append, in report order: `int(sn)`, or 0 where the
      field is empty. */
  function SnValues(rs: seq<SvReport>, k: string): seq<int>
    requires AllParse(rs)
  {
    if rs == [] then []
    else
      var r := rs[|rs| - 1];
      SnValues(rs[..|rs| - 1], k) + (if r.no == k then [SnValue(r.sn).value] else [])
  }

  /** The elevations the reports numbered `k` append, in report order: one per non-empty field. */
  function ElValues(rs: seq<SvReport>, k: string): seq<int>
    requires AllParse(rs)
  {
    if rs == [] then []
    else
      var r := rs[|rs| - 1];
      ElValues(rs[..|rs| - 1], k) + (if r.no == k && r.el != "" then [ParseInt(r.el).value] else [])
  }

  /** The azimuths the reports numbered `k` append, in report order: one per non-empty field. */
  function AzValues(rs: seq<SvReport>, k: string): seq<int>
    requires AllParse(rs)
  {
    if rs == [] then []
    else
      var r := rs[|rs| - 1];
      AzValues(rs[..|rs| - 1], k) + (if r.no == k && r.az != "" then [ParseInt(r.az).value] else [])
  }

  /** How many reports numbered `k` have a non-empty elevation field. */
  function ElCount(rs: seq<SvReport>, k: string): nat
  {
    if rs == [] then 0
    else ElCount(rs[..|rs| - 1], k) + (if rs[|rs| - 1].no == k && rs[|rs| - 1].el != "" then 1 else 0)
  }

  /** How many reports numbered `k` have a non-empty azimuth field. */
  function AzCount(rs: seq<SvReport>, k: string): nat
  {
    if rs == [] then 0
    else AzCount(rs[..|rs| - 1], k) + (if rs[|rs| - 1].no == k && rs[|rs| - 1].az != "" then 1 else 0)
  }

  /** What appending a satellite's readings adds: one S/N value per report of that satellite
      (0 for an empty field), and an elevation or azimuth exactly for each report whose field is
      non-empty, all in report order. */
  lemma {:induction false} AppendForContents(t: Track, rs: seq<SvReport>, k: string)
    requires AllParse(rs)
    ensures AppendFor(t, rs, k) == Track(t.sn + SnValues(rs, k), t.el + ElValues(rs, k), t.az + AzValues(rs, k))
    ensures |SnValues(rs, k)| == Occurrences(rs, k)
    ensures |ElValues(rs, k)| == ElCount(rs, k) <= Occurrences(rs, k)
    ensures |AzValues(rs, k)| == AzCount(rs, k) <= Occurrences(rs, k)
  {
    if rs != [] {
      var init, r := rs[..|rs| - 1], rs[|rs| - 1];
      AppendForContents(t, init, k);
      if r.no == k {
        assert t.sn + SnValues(init, k) + [SnValue(r.sn).value] == t.sn + SnValues(rs, k);
        assert t.el + ElValues(init, k) + OptValue(r.el).value == t.el + ElValues(rs, k);
        assert t.az + AzValues(init, k) + OptValue(r.az).value == t.az + AzValues(rs, k);
      } else {
        assert SnValues(rs, k) == SnValues(init, k) + [];
        assert ElValues(rs, k) == ElValues(init, k) + [];
        assert AzValues(rs, k) == AzValues(init, k) + [];
      }
    }
  }

  /** Each advance of the template adds one S/N and one elevation zero and no azimuth. */
  lemma {:induction false} AdvancedGrows(t: Track, n: nat)
    ensures var u := Advanced(t, n);
      Extends(t, u) && |u.sn| == |t.sn| + n && |u.el| == |t.el| + n && u.az == t.az
  {
    if n > 0 {
      AdvancedGrows(t, n - 1);
    }
  }

  lemma {:induction false} AdvancedPadding(m: nat, n: nat)
    ensures Advanced(Padding(m), n) == Padding(m + n)
  {
    if n > 0 {
      AdvancedPadding(m, n - 1);
      assert Zeros(m + n - 1) + [0] == Zeros(m + n);
    }
  }

  lemma {:induction false} PrefixSnocParse(rs: seq<SvReport>)
    requires rs != [] && AllParse(rs) && NoDummyReport(rs)
    ensures AllParse(rs[..|rs| - 1]) && NoDummyReport(rs[..|rs| - 1])
    ensures ReportParses(rs[|rs| - 1]) && rs[|rs| - 1].no != DummyKey
  {
    var init := rs[..|rs| - 1];
    assert forall i :: 0 <= i < |init| ==> init[i] == rs[i];
  }

  // ---------------------------------------------------------------- one epoch

  /** The report loop of `add_gsvdata`: a satellite has an observed track afterwards exactly when
      it had one or was reported; the template is untouched; each track is its old one (or a copy
      of the template, for a newcomer) with that satellite's readings appended in report order. */
  lemma {:induction false} GsvFoldTracks(v: Tracks, rs: seq<SvReport>)
    requires DummyKey in v && AllParse(rs) && NoDummyReport(rs)
    ensures GsvFold(v, rs).Keys == v.Keys + Numbers(rs)
    ensures GsvFold(v, rs)[DummyKey] == v[DummyKey]
    ensures forall k :: k in GsvFold(v, rs) && k != DummyKey ==>
      GsvFold(v, rs)[k] == AppendFor(if k in v then v[k] else v[DummyKey], rs, k)
  {
    if rs != [] {
      var init, r := rs[..|rs| - 1], rs[|rs| - 1];
      PrefixSnocParse(rs);
      GsvFoldTracks(v, init);
      var w := GsvFold(v, init);
      forall k | k in GsvFold(v, rs) && k != DummyKey
        ensures GsvFold(v, rs)[k] == AppendFor(if k in v then v[k] else v[DummyKey], rs, k)
      {
        var base := if k in v then v[k] else v[DummyKey];
        if k == r.no && k !in w {
          AppendForAbsent(base, init, k);
        }
      }
    }
  }

  /** `add_gsadata` once per observed report: if there was any report, every listed number has an
      active track, and nothing else is added; the template grows once per report. */
  lemma {:induction false} GsaFoldKeys(a: Tracks, used: seq<string>, rs: seq<SvReport>)
    requires DummyKey in a && AllParse(rs) && NoDummyReport(rs)
    ensures GsaFold(a, used, rs).Keys == if rs == [] then a.Keys else a.Keys + (set u | u in used)
    ensures GsaFold(a, used, rs)[DummyKey] == Advanced(a[DummyKey], |rs|)
  {
    if rs != [] {
      var init, r := rs[..|rs| - 1], rs[|rs| - 1];
      PrefixSnocParse(rs);
      GsaFoldKeys(a, used, init);
      var w := GsaFold(a, used, init);
      CloneMissingTracks(w, used);
      assert GsaFold(a, used, rs) == AdvanceDummy(AddReading(CloneMissing(w, used), r));
    }
  }

  /** Each active track is its old one (or a copy of the template as it was before the epoch,
      for a newly listed number) with the readings of that satellite's reports appended. A report
      whose number has no active track adds nothing. */
  lemma {:induction false} GsaFoldTracks(a: Tracks, used: seq<string>, rs: seq<SvReport>)
    requires DummyKey in a && AllParse(rs) && NoDummyReport(rs)
    ensures forall k :: k in GsaFold(a, used, rs) && k != DummyKey ==>
      GsaFold(a, used, rs)[k] == AppendFor(if k in a then a[k] else a[DummyKey], rs, k)
  {
    if rs != [] {
      var init, r := rs[..|rs| - 1], rs[|rs| - 1];
      PrefixSnocParse(rs);
      GsaFoldTracks(a, used, init);
      GsaFoldKeys(a, used, init);
      var w := GsaFold(a, used, init);
      CloneMissingTracks(w, used);
      var c := CloneMissing(w, used);
      assert GsaFold(a, used, rs) == AdvanceDummy(AddReading(c, r));
      forall k | k in GsaFold(a, used, rs) && k != DummyKey
        ensures GsaFold(a, used, rs)[k] == AppendFor(if k in a then a[k] else a[DummyKey], rs, k)
      {
        if init == [] {
          assert w == a;
        } else {
          assert k in w;
        }
      }
    }
  }

  /** With no report numbered "dummy", an epoch only appends: every track of either series,
      the templates included, is still there afterwards and continues its old histories. */
  lemma {:induction false} EpochStepGrows(b: Built, e: Epoch)
    requires DummyKey in b.gsv.sv && DummyKey in b.gsa.sv
    requires EpochStep(b, e).Some? && NoDummyReport(ReportsOf(e))
    ensures var r := EpochStep(b, e).value;
      && (forall k :: k in b.gsv.sv ==> k in r.gsv.sv && Extends(b.gsv.sv[k], r.gsv.sv[k]))
      && (forall k :: k in b.gsa.sv ==> k in r.gsa.sv && Extends(b.gsa.sv[k], r.gsa.sv[k]))
  {
    var rs := ReportsOf(e);
    var r := EpochStep(b, e).value;
    GsvFoldTracks(b.gsv.sv, rs);
    forall k | k in b.gsv.sv
      ensures k in r.gsv.sv && Extends(b.gsv.sv[k], r.gsv.sv[k])
    {
      if k == DummyKey {
        AdvancedGrows(b.gsv.sv[k], 1);
      } else {
        AppendForGrows(b.gsv.sv[k], rs, k);
      }
    }
    if e.gsa.Some? {
      GsaFoldKeys(b.gsa.sv, e.gsa.value, rs);
      GsaFoldTracks(b.gsa.sv, e.gsa.value, rs);
      forall k | k in b.gsa.sv
        ensures k in r.gsa.sv && Extends(b.gsa.sv[k], r.gsa.sv[k])
      {
        if k == DummyKey {
          AdvancedGrows(b.gsa.sv[k], |rs|);
        } else {
          AppendForGrows(b.gsa.sv[k], rs, k);
        }
      }
    }
  }

  // ---------------------------------------------------------------- the whole build

  /** `create_gpsdata` gets through its epochs exactly when every `int()` on every report succeeds. */
  lemma {:induction false} BuildSucceeds(epochs: seq<Epoch>)
    ensures Build(epochs).Some? <==> AllEpochsParse(epochs)
  {
    if epochs != [] {
      var init := epochs[..|epochs| - 1];
      BuildSucceeds(init);
      assert forall i :: 0 <= i < |init| ==> init[i] == epochs[i];
    }
  }

  /** One epoch adds its label to the observed times and, with GSA, to the active times. */
  lemma {:induction false} EpochStepTimes(b: Built, e: Epoch)
    requires DummyKey in b.gsv.sv && DummyKey in b.gsa.sv && EpochStep(b, e).Some?
    ensures EpochStep(b, e).value.gsv.time == b.gsv.time + [MakeTimestr(e.rmc)]
    ensures EpochStep(b, e).value.gsa.time == b.gsa.time + (if e.gsa.Some? then [MakeTimestr(e.rmc)] else [])
  {
    if e.gsa.None? {
      assert b.gsa.time + [] == b.gsa.time;
    }
  }

  /** The observed series has one label per epoch, in order. */
  lemma {:induction false} BuildGsvTimes(epochs: seq<Epoch>)
    requires Build(epochs).Some?
    ensures var t := Build(epochs).value.gsv.time;
      |t| == |epochs| && forall i :: 0 <= i < |epochs| ==> t[i] == MakeTimestr(epochs[i].rmc)
  {
    if epochs != [] {
      var init, e := epochs[..|epochs| - 1], epochs[|epochs| - 1];
      var b := Build(init).value;
      BuildGsvTimes(init);
      EpochStepTimes(b, e);
      var t := Build(epochs).value.gsv.time;
      assert t == b.gsv.time + [MakeTimestr(e.rmc)];
      forall i | 0 <= i < |epochs|
        ensures t[i] == MakeTimestr(epochs[i].rmc)
      {
        if i < |init| {
          assert init[i] == epochs[i];
        }
      }
    }
  }

  /** The active series has one label per epoch with GSA, in order. */
  lemma {:induction false} BuildGsaTimes(epochs: seq<Epoch>)
    requires Build(epochs).Some?
    ensures Build(epochs).value.gsa.time == GsaLabels(epochs)
  {
    if epochs != [] {
      var init := epochs[..|epochs| - 1];
      BuildGsaTimes(init);
      EpochStepTimes(Build(init).value, epochs[|epochs| - 1]);
    }
  }

  /** With no report numbered "dummy", the observed template holds one zero of S/N and of
      elevation per epoch, and no azimuth. */
  lemma {:induction false} BuildGsvTemplate(epochs: seq<Epoch>)
    requires Build(epochs).Some? && NoDummyIn(epochs)
    ensures Build(epochs).value.gsv.sv[DummyKey] == Padding(|epochs|)
  {
    if epochs == [] {
      assert Zeros(0) == [];
    } else {
      var init, e := epochs[..|epochs| - 1], epochs[|epochs| - 1];
      assert forall i :: 0 <= i < |init| ==> init[i] == epochs[i];
      assert NoDummyReport(ReportsOf(e)) by {
        assert e == epochs[|epochs| - 1];
      }
      BuildGsvTemplate(init);
      GsvFoldTracks(Build(init).value.gsv.sv, ReportsOf(e));
      AdvancedPadding(|init|, 1);
    }
  }

  /** With no report numbered "dummy", the active template holds one zero of S/N and of
      elevation per report of an epoch with GSA (one per `add_gsadata` call), and no azimuth. */
  lemma {:induction false} BuildGsaTemplate(epochs: seq<Epoch>)
    requires Build(epochs).Some? && NoDummyIn(epochs)
    ensures Build(epochs).value.gsa.sv[DummyKey] == Padding(ActiveCount(epochs))
  {
    if epochs == [] {
      assert Zeros(0) == [];
    } else {
      var init, e := epochs[..|epochs| - 1], epochs[|epochs| - 1];
      assert forall i :: 0 <= i < |init| ==> init[i] == epochs[i];
      assert NoDummyReport(ReportsOf(e)) by {
        assert e == epochs[|epochs| - 1];
      }
      BuildGsaTemplate(init);
      if e.gsa.Some? {
        GsaFoldKeys(Build(init).value.gsa.sv, e.gsa.value, ReportsOf(e));
        AdvancedPadding(ActiveCount(init), |ReportsOf(e)|);
      }
    }
  }

  /** With no report numbered "dummy", the observed series has a track for the template and for
      every reported satellite, and for nothing else. */
  lemma {:induction false} BuildGsvKeys(epochs: seq<Epoch>)
    requires Build(epochs).Some? && NoDummyIn(epochs)
    ensures Build(epochs).value.gsv.sv.Keys == {DummyKey} + AllNumbers(epochs)
  {
    if epochs != [] {
      var init, e := epochs[..|epochs| - 1], epochs[|epochs| - 1];
      assert forall i :: 0 <= i < |init| ==> init[i] == epochs[i];
      assert NoDummyReport(ReportsOf(e)) by {
        assert e == epochs[|epochs| - 1];
      }
      BuildGsvKeys(init);
      GsvFoldTracks(Build(init).value.gsv.sv, ReportsOf(e));
    }
  }

  /** A satellite first reported in epoch `|epochs|` gets a copy of the template, so its S/N and
      elevation histories begin with one zero per earlier epoch, followed by one S/N value per
      report: reported once per epoch, it stays aligned with the observed labels. */
  lemma {:induction false} FirstSightPadding(epochs: seq<Epoch>, e: Epoch, k: string)
    requires Build(epochs + [e]).Some? && NoDummyIn(epochs + [e])
    requires k != DummyKey && k !in Build(epochs).value.gsv.sv && k in Numbers(ReportsOf(e))
    ensures k in Build(epochs + [e]).value.gsv.sv
    ensures var t := Build(epochs + [e]).value.gsv.sv[k];
      && t == AppendFor(Padding(|epochs|), ReportsOf(e), k)
      && Zeros(|epochs|) <= t.sn && Zeros(|epochs|) <= t.el
      && |t.sn| == |epochs| + Occurrences(ReportsOf(e), k)
  {
    var all := epochs + [e];
    assert all[..|all| - 1] == epochs && all[|all| - 1] == e;
    assert forall i :: 0 <= i < |epochs| ==> epochs[i] == all[i];
    assert NoDummyReport(ReportsOf(e)) by {
      assert e == all[|all| - 1];
    }
    BuildGsvTemplate(epochs);
    GsvFoldTracks(Build(epochs).value.gsv.sv, ReportsOf(e));
    AppendForGrows(Padding(|epochs|), ReportsOf(e), k);
  }

  /** `create_gpsdata`'s result: it exists exactly when every reading parses, neither series
      keeps the template, the observed series has a track for every reported satellite and one
      label per epoch, and the active series one label per GSA epoch. */
  lemma {:induction false} CreateSpecShape(epochs: seq<Epoch>)
    ensures CreateSpec(epochs).Some? <==> AllEpochsParse(epochs)
    ensures CreateSpec(epochs).Some? ==>
      var c := CreateSpec(epochs).value;
      DummyKey !in c.gsv.sv && DummyKey !in c.gsa.sv &&
      |c.gsv.time| == |epochs| && c.gsa.time == GsaLabels(epochs)
    ensures CreateSpec(epochs).Some? && NoDummyIn(epochs) ==>
      CreateSpec(epochs).value.gsv.sv.Keys == AllNumbers(epochs) - {DummyKey}
  {
    BuildSucceeds(epochs);
    if Build(epochs).Some? {
      BuildGsvTimes(epochs);
      BuildGsaTimes(epochs);
      if NoDummyIn(epochs) {
        BuildGsvKeys(epochs);
      }
    }
  }

  // ---------------------------------------------------------------- the threshold filter

  /** BelowMean is the comparison `np.average(xs) < thr` of a non-empty history. */
  lemma {:induction false} BelowMeanIsAverage(xs: seq<int>, thr: int)
    requires |xs| > 0
    ensures BelowMean(xs, thr) <==> (Sum(xs) as real) / (|xs| as real) < thr as real
  {
    var s, n, t := Sum(xs) as real, |xs| as real, thr as real;
    assert s / n * n == s;
    if s / n < t {
      assert s / n * n < t * n;
    }
    if s < t * n {
      assert (s / n) * n < t * n;
    }
  }

  /** A track survives the filter exactly when it passes the test, and survivors are untouched. */
  lemma {:induction false} FilteredTracks(sv: Tracks, thr: Thresholds, gsamode: bool)
    ensures forall k :: k in Filtered(sv, thr, gsamode) <==> k in sv && Keep(sv[k], thr, gsamode)
    ensures forall k :: k in Filtered(sv, thr, gsamode) ==> Filtered(sv, thr, gsamode)[k] == sv[k]
  {
  }

  /** Filtering twice with the same thresholds removes nothing more. */
  lemma {:induction false} FilteredIdempotent(sv: Tracks, thr: Thresholds, gsamode: bool)
    ensures Filtered(Filtered(sv, thr, gsamode), thr, gsamode) == Filtered(sv, thr, gsamode)
  {
    var f := Filtered(sv, thr, gsamode);
    assert Filtered(f, thr, gsamode).Keys == f.Keys;
  }

  /** Raising a threshold can only remove more tracks. */
  lemma {:induction false} FilteredMonotone(sv: Tracks, lo: Thresholds, hi: Thresholds, gsamode: bool)
    requires lo.sn <= hi.sn && lo.el <= hi.el
    ensures Filtered(sv, hi, gsamode).Keys <= Filtered(sv, lo, gsamode).Keys
  {
    forall k | k in Filtered(sv, hi, gsamode)
      ensures k in Filtered(sv, lo, gsamode)
    {
      var t := sv[k];
      MulMonotone(lo.sn, hi.sn, |t.sn|);
      MulMonotone(lo.el, hi.el, |t.el|);
    }
  }
}
