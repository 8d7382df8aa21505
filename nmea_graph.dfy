/** The series builder and the threshold filter of nmea_graph.py, working in place on series
    objects as the source does on its dicts. */
module NmeaGraph {
  import opened Util
  import opened Text
  import opened GraphModel

  /** One series dict: satellite number -> track, with the template under "dummy", and the
      epoch labels. */
  class GpsData {
    var sv: Tracks
    var time: seq<string>

    /** A deep copy of `{"sv": {"dummy": {"sn": [], "el": [], "az": []}}, "time": []}`. */
    constructor Empty()
      ensures sv == map[DummyKey := EmptyTrack] && time == []
    {
      sv := map[DummyKey := EmptyTrack];
      time := [];
    }

    /** `copy.deepcopy` of a series: tracks are values here, so the copy shares nothing. */
    constructor Copy(sv0: Tracks, time0: seq<string>)
      ensures sv == sv0 && time == time0
    {
      sv := sv0;
      time := time0;
    }
  }

  /** The `show` flags of `draw`; only `gsamode` reaches the modelled step. */
  datatype Show = Show(gsamode: bool, avrg: bool, pos: bool)

  /** `add_gsadata(gsasv, sv, gsa)`. Its only caller has already read the same report's fields
      with `int()`, so they parse. */
  method AddGsaData(gsasv: seq<string>, r: SvReport, gsa: GpsData)
    requires DummyKey in gsa.sv && ReportParses(r)
    modifies gsa
    ensures gsa.sv == GsaStep(old(gsa.sv), gsasv, r)
    ensures gsa.time == old(gsa.time)
  {
    for i := 0 to |gsasv|
      invariant gsa.sv == CloneMissing(old(gsa.sv), gsasv[..i])
      invariant gsa.time == old(gsa.time)
    {
      assert gsasv[..i + 1][..i] == gsasv[..i];
      var used := gsasv[i];
      if used !in gsa.sv {
        gsa.sv := gsa.sv[used := gsa.sv[DummyKey]];
      }
    }
    assert gsasv[..|gsasv|] == gsasv;
    ghost var cloned := gsa.sv;
    if r.no in gsa.sv {
      var t := gsa.sv[r.no];
      var sn := t.sn + [SnValue(r.sn).value];
      var el, az := t.el, t.az;
      if r.el != "" {
        el := el + [ParseInt(r.el).value];
      }
      if r.az != "" {
        az := az + [ParseInt(r.az).value];
      }
      ReadingAppends(t, r, sn, el, az);
      gsa.sv := gsa.sv[r.no := Track(sn, el, az)];
    }
    assert gsa.sv == AddReading(cloned, r);
    var d := gsa.sv[DummyKey];
    gsa.sv := gsa.sv[DummyKey := d.(sn := d.sn + [0], el := d.el + [0])];
  }

  /** The three appends of a report, written field by field as the source does, are AppendReading. */
  lemma {:induction false} ReadingAppends(t: Track, r: SvReport, sn: seq<int>, el: seq<int>, az: seq<int>)
    requires ReportParses(r)
    requires sn == t.sn + [SnValue(r.sn).value]
    requires el == if r.el == "" then t.el else t.el + [ParseInt(r.el).value]
    requires az == if r.az == "" then t.az else t.az + [ParseInt(r.az).value]
    ensures Track(sn, el, az) == AppendReading(t, r)
  {
    assert t.el + [] == t.el && t.az + [] == t.az;
  }

  lemma {:induction false} OverwriteTwice(m: Tracks, k: string, a: Track, b: Track)
    ensures m[k := a][k := b] == m[k := b]
  {
  }

  /** `add_gsvdata(gps, gsv, gsa)`: false where an `int()` raises (the series are then
      abandoned, so their state is left open). */
  method AddGsvData(gps: Epoch, gsv: GpsData, gsa: GpsData) returns (ok: bool)
    requires gsv != gsa
    requires DummyKey in gsv.sv && DummyKey in gsa.sv
    modifies gsv, gsa
    ensures ok <==> AllParse(ReportsOf(gps))
    ensures ok ==> gsv.sv == AdvanceDummy(GsvFold(old(gsv.sv), ReportsOf(gps)))
    ensures ok ==> gsa.sv == if gps.gsa.Some? then GsaFold(old(gsa.sv), gps.gsa.value, ReportsOf(gps)) else old(gsa.sv)
    ensures gsv.time == old(gsv.time) && gsa.time == old(gsa.time)
  {
    var rs := ReportsOf(gps);
    for j := 0 to |rs|
      invariant DummyKey in gsv.sv && DummyKey in gsa.sv
      invariant AllParse(rs[..j])
      invariant gsv.sv == GsvFold(old(gsv.sv), rs[..j])
      invariant gsa.sv == if gps.gsa.Some? then GsaFold(old(gsa.sv), gps.gsa.value, rs[..j]) else old(gsa.sv)
      invariant gsv.time == old(gsv.time) && gsa.time == old(gsa.time)
    {
      var sv := rs[j];
      ghost var base := gsv.sv;
      if sv.no !in gsv.sv {
        gsv.sv := gsv.sv[sv.no := gsv.sv[DummyKey]];
      }
      var t := gsv.sv[sv.no];
      assert t == if sv.no in base then base[sv.no] else base[DummyKey];
      var snv := SnValue(sv.sn);
      if snv.None? {
        return false;
      }
      var sn := t.sn + [snv.value];
      var el, az := t.el, t.az;
      if sv.el != "" {
        var v := ParseInt(sv.el);
        if v.None? {
          return false;
        }
        el := el + [v.value];
      }
      if sv.az != "" {
        var v := ParseInt(sv.az);
        if v.None? {
          return false;
        }
        az := az + [v.value];
      }
      ReadingAppends(t, sv, sn, el, az);
      if sv.no !in base {
        OverwriteTwice(base, sv.no, base[DummyKey], Track(sn, el, az));
      }
      gsv.sv := gsv.sv[sv.no := Track(sn, el, az)];
      assert gsv.sv == base[sv.no := AppendReading(t, sv)];
      GsvFoldSnoc(old(gsv.sv), rs, j);
      if gps.gsa.Some? {
        GsaFoldSnoc(old(gsa.sv), gps.gsa.value, rs, j);
        AddGsaData(gps.gsa.value, sv, gsa);
      }
    }
    assert rs[..|rs|] == rs;
    var d := gsv.sv[DummyKey];
    gsv.sv := gsv.sv[DummyKey := d.(sn := d.sn + [0], el := d.el + [0])];
    return true;
  }

  /** `create_gpsdata(gpsinput)`: false where an `int()` raises. */
  method CreateGpsData(gpsinput: seq<Epoch>) returns (ok: bool, gsv: GpsData, gsa: GpsData)
    ensures fresh(gsv) && fresh(gsa) && gsv != gsa
    ensures ok <==> CreateSpec(gpsinput).Some?
    ensures ok ==> Built(Series(gsv.sv, gsv.time), Series(gsa.sv, gsa.time)) == CreateSpec(gpsinput).value
  {
    gsa := new GpsData.Empty();
    gsv := new GpsData.Empty();
    for i := 0 to |gpsinput|
      invariant Build(gpsinput[..i]) == Some(Built(Series(gsv.sv, gsv.time), Series(gsa.sv, gsa.time)))
    {
      assert gpsinput[..i + 1][..i] == gpsinput[..i];
      var gps := gpsinput[i];
      var now := MakeTimestr(gps.rmc);
      gsv.time := gsv.time + [now];
      if gps.gsa.Some? {
        gsa.time := gsa.time + [now];
      }
      ok := AddGsvData(gps, gsv, gsa);
      if !ok {
        BuildNoneExtends(gpsinput, i + 1);
        return;
      }
    }
    assert gpsinput[..|gpsinput|] == gpsinput;
    gsa.sv := gsa.sv - {DummyKey};
    gsv.sv := gsv.sv - {DummyKey};
    ok := true;
  }

  /** Once an epoch fails, the whole build fails. */
  lemma {:induction false} BuildNoneExtends(epochs: seq<Epoch>, n: nat)
    requires n <= |epochs| && Build(epochs[..n]).None?
    ensures Build(epochs).None?
    decreases |epochs| - n
  {
    if n < |epochs| {
      assert epochs[..n + 1][..n] == epochs[..n];
      BuildNoneExtends(epochs, n + 1);
    } else {
      assert epochs[..n] == epochs;
    }
  }

  /** `check_thr(gps, thr, show)`: collect the keys of the tracks to drop, then pop them. */
  method CheckThr(gps: GpsData, thr: Thresholds, show: Show)
    modifies gps
    ensures gps.sv == Filtered(old(gps.sv), thr, show.gsamode)
    ensures gps.time == old(gps.time)
  {
    var poplist: seq<string> := [];
    var todo := gps.sv.Keys;
    while todo != {}
      invariant todo <= gps.sv.Keys
      invariant forall k :: k in poplist ==> k in gps.sv && k !in todo && !Keep(gps.sv[k], thr, show.gsamode)
      invariant forall k :: k in gps.sv && k !in todo && !Keep(gps.sv[k], thr, show.gsamode) ==> k in poplist
      invariant gps.sv == old(gps.sv) && gps.time == old(gps.time)
      decreases |todo|
    {
      var k :| k in todo;
      var v := gps.sv[k];
      if BelowMean(v.sn, thr.sn) || (show.gsamode && BelowMean(v.el, thr.el)) {
        poplist := poplist + [k];
      }
      todo := todo - {k};
    }
    for i := 0 to |poplist|
      invariant gps.sv == Without(old(gps.sv), poplist[..i])
      invariant gps.time == old(gps.time)
    {
      assert poplist[..i + 1][..i] == poplist[..i];
      gps.sv := gps.sv - {poplist[i]};
    }
    assert poplist[..|poplist|] == poplist;
    PoppedIsFiltered(old(gps.sv), poplist, thr, show.gsamode);
  }

  /** `m` after popping every key of `ks` in turn. */
  function Without(m: Tracks, ks: seq<string>): Tracks
  {
    if ks == [] then m else Without(m, ks[..|ks| - 1]) - {ks[|ks| - 1]}
  }

  /** Popping the listed keys leaves exactly the unlisted entries, unchanged. */
  lemma {:induction false} WithoutEntries(m: Tracks, ks: seq<string>)
    ensures forall k :: k in Without(m, ks) <==> k in m && k !in ks
    ensures forall k :: k in Without(m, ks) ==> Without(m, ks)[k] == m[k]
  {
    if ks != [] {
      var init := ks[..|ks| - 1];
      WithoutEntries(m, init);
      assert ks == init + [ks[|ks| - 1]];
    }
  }

  /** Popping exactly the failing tracks leaves the filtered series. */
  lemma {:induction false} PoppedIsFiltered(m: Tracks, poplist: seq<string>, thr: Thresholds, gsamode: bool)
    requires forall k :: k in poplist ==> k in m && !Keep(m[k], thr, gsamode)
    requires forall k :: k in m && !Keep(m[k], thr, gsamode) ==> k in poplist
    ensures Without(m, poplist) == Filtered(m, thr, gsamode)
  {
    WithoutEntries(m, poplist);
    assert Without(m, poplist).Keys == Filtered(m, thr, gsamode).Keys;
  }

  /** The filtering step of `NMEAGraph.draw`: pick the active series when `show["gsamode"]`
      is set and it has tracks, else the observed one; filter a deep copy with `check_thr`.
      The filter is given `show`, so its elevation test follows `show["gsamode"]` even when the
      observed series was picked. The stored series are not modified. */
  method DrawView(gsv: GpsData, gsa: GpsData, thr: Thresholds, show: Show) returns (gps: GpsData)
    ensures fresh(gps)
    ensures var src := if show.gsamode && |gsa.sv| > 0 then gsa else gsv;
      gps.sv == Filtered(src.sv, thr, show.gsamode) && gps.time == src.time
    ensures unchanged(gsv, gsa)
  {
    var gsamode := show.gsamode && |gsa.sv| > 0;
    var src := if gsamode then gsa else gsv;
    gps := new GpsData.Copy(src.sv, src.time);
    CheckThr(gps, thr, show);
  }
}
