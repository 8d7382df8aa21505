/** `NMEAData.check`: every trip's `$GP` lines, cut into fix cycles, analysed. */
module SnCheck {
  import opened Util
  import opened Trips
  import opened Segmenter
  import opened Analyzer

  /** What `check` computes for the trip made of `files`. */
  function TripResult(dir: Directory, files: seq<string>): Result<TripReport, Failure>
  {
    CheckTripSpec(Packs(GpLines(files, dir)))
  }

  /** `check(dict_trip)`: the first loop reads every trip's lines, the second segments and
      analyses them; an exception from any trip ends the whole call. Dictionary iteration order
      is left open, so which trip's error is reported, when several fail, is too. */
  method Check(dir: Directory, dictTrip: map<string, seq<string>>) returns (r: Result<map<string, TripReport>, Failure>)
    requires forall k, f :: k in dictTrip && f in dictTrip[k] ==> f in dir
    ensures r.Ok? <==> forall k :: k in dictTrip ==> TripResult(dir, dictTrip[k]).Ok?
    ensures r.Ok? ==> r.value.Keys == dictTrip.Keys
    ensures r.Ok? ==> forall k :: k in dictTrip ==> r.value[k] == TripResult(dir, dictTrip[k]).value
    ensures r.Err? ==> exists k :: k in dictTrip && TripResult(dir, dictTrip[k]) == Err(r.error)
  {
    var data := ReadTrips(dir, dictTrip);
    r := AnalyseTrips(data);
    assert forall k :: k in dictTrip ==> TripResult(dir, dictTrip[k]) == AnalyseSpec(data[k]);
  }

  /** The line sequence of a trip, analysed. */
  function AnalyseSpec(lines: seq<string>): Result<TripReport, Failure>
  {
    CheckTripSpec(Packs(lines))
  }

  /** The first loop of `check`: `data[k] = self.__get_lines(v)` for every trip. */
  method ReadTrips(dir: Directory, dictTrip: map<string, seq<string>>) returns (data: map<string, seq<string>>)
    requires forall k, f :: k in dictTrip && f in dictTrip[k] ==> f in dir
    ensures data.Keys == dictTrip.Keys
    ensures forall k :: k in data ==> data[k] == GpLines(dictTrip[k], dir)
  {
    data := map[];
    var todo := dictTrip.Keys;
    while todo != {}
      invariant todo <= dictTrip.Keys
      invariant data.Keys == dictTrip.Keys - todo
      invariant forall k :: k in data ==> data[k] == GpLines(dictTrip[k], dir)
      decreases |todo|
    {
      var k :| k in todo;
      var lines := GetLines(dir, dictTrip[k]);
      data := data[k := lines];
      todo := todo - {k};
    }
  }

  /** The second loop of `check`: segment and analyse every trip's lines. */
  method AnalyseTrips(data: map<string, seq<string>>) returns (r: Result<map<string, TripReport>, Failure>)
    ensures r.Ok? <==> forall k :: k in data ==> AnalyseSpec(data[k]).Ok?
    ensures r.Ok? ==> r.value.Keys == data.Keys
    ensures r.Ok? ==> forall k :: k in data ==> r.value[k] == AnalyseSpec(data[k]).value
    ensures r.Err? ==> exists k :: k in data && AnalyseSpec(data[k]) == Err(r.error)
  {
    var trip: map<string, TripReport> := map[];
    var todo := data.Keys;
    while todo != {}
      invariant todo <= data.Keys
      invariant trip.Keys == data.Keys - todo
      invariant forall k :: k in trip ==> AnalyseSpec(data[k]) == Ok(trip[k])
      decreases |todo|
    {
      var k :| k in todo;
      var pack := Segment(data[k]);
      var t := CheckTrip(pack);
      if t.Err? {
        return Err(t.error);
      }
      trip := trip[k := t.value];
      todo := todo - {k};
    }
    return Ok(trip);
  }

  /** For a trip that `check` analyses, its time to first fix is half the index of the first
      cycle holding a valid fix, among the cycles cut from the `$GP` lines of its files. */
  lemma {:induction false} TripTtff(dir: Directory, files: seq<string>)
    requires TripResult(dir, files).Ok?
    ensures var packs := Packs(GpLinesOf(AllLines(files, dir)));
      var t := TripResult(dir, files).value;
      match FirstFixCycle(packs, 0)
      case None => t.ttff.None?
      case Some(j) => t.ttff == Some(j / 2)
  {
    GpLinesFilterAll(files, dir);
    TtffIsFirstFixCycle(Packs(GpLines(files, dir)));
  }

  /** In every cycle the segmenter cuts, the stamp a summary records is the stamp of the
      cycle's fix, or None when the cycle has no valid fix. */
  lemma {:induction false} PackStamps(lines: seq<string>)
    ensures forall i :: 0 <= i < |Packs(lines)| ==> LastFixStamp(Packs(lines)[i], None) == FirstFixStamp(Packs(lines)[i])
  {
    PacksShape(lines);
    forall i | 0 <= i < |Packs(lines)|
      ensures LastFixStamp(Packs(lines)[i], None) == FirstFixStamp(Packs(lines)[i])
    {
      CycleStamp(Packs(lines)[i]);
    }
  }
}
