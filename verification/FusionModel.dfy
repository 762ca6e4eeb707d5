// The fusion engine on values: what a batch of detections and a timer tick do
// to the tracks, and what holds in every run.  Engine.dfy is proved to make
// exactly these transitions.
module FusionModel {
  import opened FilterMath
  import opened Association
  import opened TrackIds
  import opened MapFold
  import Assignments

  datatype Sensor = Camera | Radar

  datatype Detection = Detection(x: real, y: real, confidence: real, timestamp: int)

  datatype TrackView = TrackView(id: string, filter: GoodFilter, camera: real, radar: real,
                                 radarOnly: bool, visionOnly: bool, firstSeen: int)

  type Tracks = map<string, TrackView>

  datatype EngineView = EngineView(tracks: Tracks, nextTrackID: nat)

  const DECAY: real := 0.95
  const MISSED_AFTER: int := 200_000_000        // nanoseconds
  const TIMEOUT: int := 2_000_000_000

  // ------------------------------------------------------------- one detection

  function Advance(f: GoodFilter, now: int): GoodFilter {
    PredictCovPD(f.cov, Seconds(now - f.last));
    Predict(f, now)
  }

  function Correct(f: GoodFilter, det: Detection): GoodFilter {
    UpdateCovPD(f.cov);
    Update(f, det.x, det.y)
  }

  function Observe(t: TrackView, s: Sensor, det: Detection, now: int): TrackView {
    var f := Correct(Advance(t.filter, now), det);
    match s
    case Camera => t.(filter := f, camera := det.confidence, visionOnly := t.radar == 0.0, radarOnly := false)
    case Radar => t.(filter := f, radar := det.confidence, radarOnly := t.camera == 0.0, visionOnly := false)
  }

  function NewTrack(id: string, s: Sensor, det: Detection, born: int): TrackView {
    TrackView(id, New(det.x, det.y, born),
              if s.Camera? then det.confidence else 0.0, if s.Radar? then det.confidence else 0.0,
              s.Radar?, s.Camera?, det.timestamp)
  }

  // ------------------------------------------------------------------ one batch

  // Everything one batch reads: the detections, the two kinds of clock readings,
  // the order in which the tracks were listed and the association that came out.
  datatype Batch = Batch(sensor: Sensor, detections: seq<Detection>, now: int, births: seq<int>,
                         ids: seq<string>, outcome: Outcome)

  ghost predicate Lists(ids: seq<string>, ts: Tracks) {
    Distinct(ids) && forall id :: id in ids <==> id in ts
  }

  function DetectionAzimuths(ds: seq<Detection>, azimuth: (real, real) -> real): seq<real> {
    seq(|ds|, i requires 0 <= i < |ds| => azimuth(ds[i].x, ds[i].y))
  }

  function TrackAzimuths(ids: seq<string>, ts: Tracks, azimuth: (real, real) -> real): seq<real>
    requires forall id :: id in ids ==> id in ts
  {
    seq(|ids|, i requires 0 <= i < |ids| => azimuth(ts[ids[i]].filter.x.p, ts[ids[i]].filter.y.p))
  }

  // What is known of an association of this batch with these tracks.
  ghost predicate Admissible(b: Batch, ts: Tracks, azimuth: (real, real) -> real) {
    && Lists(b.ids, ts) && |b.births| == |b.detections|
    && Partition(DetectionAzimuths(b.detections, azimuth), TrackAzimuths(b.ids, ts, azimuth), b.outcome)
    && Realised(DetectionAzimuths(b.detections, azimuth), TrackAzimuths(b.ids, ts, azimuth), b.outcome)
  }

  // The association is the best there is, where azimuths can be compared.
  ghost predicate BestFor(b: Batch, ts: Tracks, azimuth: (real, real) -> real)
    requires Lists(b.ids, ts)
  {
    Comparable(DetectionAzimuths(b.detections, azimuth), TrackAzimuths(b.ids, ts, azimuth)) ==>
      Best(DetectionAzimuths(b.detections, azimuth), TrackAzimuths(b.ids, ts, azimuth), b.outcome)
  }

  // One detection and one track become a pair exactly when the azimuths of where
  // they stand are at most 15 degrees apart.
  lemma OneAgainstOne(b: Batch, ts: Tracks, azimuth: (real, real) -> real, id: string)
    requires Admissible(b, ts, azimuth) && BestFor(b, ts, azimuth) && b.ids == [id] && |b.detections| == 1
    requires Abs(azimuth(b.detections[0].x, b.detections[0].y)
                 - azimuth(ts[id].filter.x.p, ts[id].filter.y.p)) <= 360.0
    ensures var angle := AbsAngleDiff(azimuth(b.detections[0].x, b.detections[0].y),
                                      azimuth(ts[id].filter.x.p, ts[id].filter.y.p));
            b.outcome == if angle <= 15.0 then Outcome([Pair(0, 0, angle)], [], []) else Outcome([], [0], [0])
  {
    var det, at := b.detections[0], ts[id].filter;
    var v, t := azimuth(det.x, det.y), azimuth(at.x.p, at.y.p);
    assert DetectionAzimuths(b.detections, azimuth) == [v];
    assert TrackAzimuths(b.ids, ts, azimuth) == [t];
    OneIsComparable(v, t);
    OnePair(v, t, b.outcome);
  }

  ghost predicate UnmatchedFit(b: Batch) {
    && |b.births| == |b.detections|
    && forall a :: 0 <= a < |b.outcome.unmatchedVision| ==> b.outcome.unmatchedVision[a] < |b.detections|
  }

  // The tracks the associations update, in order.
  ghost function Targets(b: Batch): (r: seq<string>)
    ensures |r| == |b.outcome.associations|
  {
    seq(|b.outcome.associations|, a requires 0 <= a < |b.outcome.associations| =>
      if b.outcome.associations[a].radarIdx < |b.ids| then b.ids[b.outcome.associations[a].radarIdx] else "")
  }

  // The indices an association mentions exist, and no track is paired twice.
  ghost predicate Fits(b: Batch, ts: Tracks) {
    && UnmatchedFit(b)
    && (forall a :: 0 <= a < |b.outcome.associations| ==>
          && b.outcome.associations[a].visionIdx < |b.detections|
          && b.outcome.associations[a].radarIdx < |b.ids|)
    && Distinct(Targets(b)) && forall a :: 0 <= a < |Targets(b)| ==> Targets(b)[a] in ts
  }

  lemma AdmissibleFits(b: Batch, ts: Tracks, azimuth: (real, real) -> real)
    requires Admissible(b, ts, azimuth)
    ensures Fits(b, ts)
  {
    var n := |b.outcome.associations|;
    forall a | 0 <= a < n
      ensures b.outcome.associations[a].visionIdx < |b.detections| && b.outcome.associations[a].radarIdx < |b.ids|
    {
      assert b.outcome.associations[a] in b.outcome.associations;
    }
    forall a | 0 <= a < |b.outcome.unmatchedVision| ensures b.outcome.unmatchedVision[a] < |b.detections| {
      assert b.outcome.unmatchedVision[a] in b.outcome.unmatchedVision;
    }
    forall a | 0 <= a < n ensures Targets(b)[a] in ts {
      assert b.ids[b.outcome.associations[a].radarIdx] in b.ids;
    }
  }

  // The effect of the a-th association on the track it is paired with.
  ghost function Pairing(b: Batch): (nat, TrackView) -> TrackView {
    (a: nat, t: TrackView) =>
      if a < |b.outcome.associations| && b.outcome.associations[a].visionIdx < |b.detections|
      then Observe(t, b.sensor, b.detections[b.outcome.associations[a].visionIdx], b.now) else t
  }

  function Create(e: EngineView, s: Sensor, det: Detection, born: int): EngineView {
    var id := TrackID(e.nextTrackID);
    EngineView(e.tracks[id := NewTrack(id, s, det, born)], e.nextTrackID + 1)
  }

  // The a-th unmatched detection becomes a track.
  ghost function Creating(b: Batch): (nat, EngineView) -> EngineView {
    (a: nat, e: EngineView) =>
      if a < |b.outcome.unmatchedVision| && b.outcome.unmatchedVision[a] < |b.detections| == |b.births|
      then
        var i := b.outcome.unmatchedVision[a];
        Create(e, b.sensor, b.detections[i], b.births[i])
      else e
  }

  // The engine after the first k unmatched detections have become tracks.
  ghost function Created(b: Batch, e: EngineView, k: nat): EngineView {
    Repeat(e, Creating(b), k)
  }

  ghost function Matched(b: Batch, ts: Tracks, k: nat): Tracks
    requires Fits(b, ts) && k <= |b.outcome.associations|
  {
    UpdateAll(ts, Targets(b), Pairing(b), k)
  }

  ghost function AfterBatch(e: EngineView, b: Batch): EngineView
    requires Fits(b, e.tracks)
  {
    Created(b, e.(tracks := Matched(b, e.tracks, |b.outcome.associations|)), |b.outcome.unmatchedVision|)
  }

  // ------------------------------------------------------------------- one tick

  function CountMissed(t: TrackView, now: int): TrackView {
    if now - t.filter.last > MISSED_AFTER
    then t.(filter := t.filter.(missed := t.filter.missed + 1))
    else t
  }

  // A tick's effect on one track, before the question of deletion.
  function Aged(t: TrackView, now: int): TrackView {
    var u := CountMissed(t.(filter := Advance(t.filter, now)), now);
    u.(camera := u.camera * DECAY, radar := u.radar * DECAY)
  }

  // The deletion test, on the aged track.
  predicate Stale(t: TrackView, now: int) {
    t.filter.missed >= MAX_MISSED || now - t.filter.last > TIMEOUT
  }

  function AfterTick(ts: Tracks, now: int): Tracks {
    map id | id in ts && !Stale(Aged(ts[id], now), now) :: Aged(ts[id], now)
  }

  // Prediction sets the track's time to now before its age is looked at, so the
  // missed counter never moves and the two-second test never holds: a tick
  // deletes a track exactly when the counter had reached the limit already.
  lemma TickDeletesExactly(t: TrackView, now: int)
    ensures Aged(t, now).filter.missed == t.filter.missed
    ensures Aged(t, now).filter.last >= now
    ensures Stale(Aged(t, now), now) <==> t.filter.missed >= MAX_MISSED
  {}

  // Ticks at these times, one after the other.
  function Ticks(ts: Tracks, nows: seq<int>): Tracks
    decreases |nows|
  {
    if nows == [] then ts else Ticks(AfterTick(ts, nows[0]), nows[1..])
  }

  function Power(b: real, n: nat): real {
    if n == 0 then 1.0 else b * Power(b, n - 1)
  }

  // The track with another filter and its confidences multiplied by factor.
  function Faded(t: TrackView, f: GoodFilter, factor: real): TrackView {
    t.(filter := f, camera := factor * t.camera, radar := factor * t.radar)
  }

  lemma TickAges(ts: Tracks, now: int, id: string)
    requires id in ts && ts[id].filter.missed == 0
    ensures id in AfterTick(ts, now) && AfterTick(ts, now)[id] == Faded(ts[id], Advance(ts[id].filter, now), 0.95)
    ensures Advance(ts[id].filter, now).missed == 0
  {
    TickDeletesExactly(ts[id], now);
  }

  lemma FadedTwice(t: TrackView, f: GoodFilter, g: GoodFilter, factor: real)
    ensures Faded(Faded(t, f, 0.95), g, factor) == Faded(t, g, 0.95 * factor)
  {}

  lemma {:induction false} TicksPredict(ts: Tracks, nows: seq<int>, id: string)
    requires id in ts && ts[id].filter.missed == 0
    ensures id in Ticks(ts, nows)
    ensures Ticks(ts, nows)[id].filter == Predicts(ts[id].filter, nows)
    ensures Ticks(ts, nows)[id] == Faded(ts[id], Ticks(ts, nows)[id].filter, Power(0.95, |nows|))
    decreases |nows|
  {
    if nows == [] {
    } else {
      TickAges(ts, nows[0], id);
      var next := AfterTick(ts, nows[0]);
      TicksPredict(next, nows[1..], id);
      FadedTwice(ts[id], next[id].filter, Ticks(ts, nows)[id].filter, Power(0.95, |nows| - 1));
    }
  }

  // Another filter, confidences multiplied by factor, and nothing else is new.
  ghost predicate Decayed(t: TrackView, u: TrackView, factor: real) {
    && u.camera == factor * t.camera && u.radar == factor * t.radar
    && u.radarOnly == t.radarOnly && u.visionOnly == t.visionOnly
    && u.id == t.id && u.firstSeen == t.firstSeen
  }

  lemma FadedIsDecayed(t: TrackView, f: GoodFilter, factor: real)
    ensures Decayed(t, Faded(t, f, factor), factor)
  {}

  // After any number of ticks, at times in any order, a track stands where constant
  // velocity takes it by the latest of them, and each confidence has become 0.95
  // times itself as often as the timer ticked.
  lemma TicksFade(ts: Tracks, nows: seq<int>, id: string)
    requires id in ts && ts[id].filter.missed == 0
    ensures id in Ticks(ts, nows)
    ensures Carried(ts[id].filter, Ticks(ts, nows)[id].filter, MaxTime(ts[id].filter.last, nows))
    ensures Decayed(ts[id], Ticks(ts, nows)[id], Power(0.95, |nows|))
  {
    TicksPredict(ts, nows, id);
    PredictsCarry(ts[id].filter, nows);
    FadedIsDecayed(ts[id], Ticks(ts, nows)[id].filter, Power(0.95, |nows|));
  }

  // A missed frame is counted after 200 ms, and 5 of them or 2 s are too many.
  lemma TickLimits(t: TrackView, now: int)
    ensures CountMissed(t, now).filter.missed
         == t.filter.missed + if now > t.filter.last + 200_000_000 then 1 else 0
    ensures Stale(t, now) <==> t.filter.missed >= 5 || now > t.filter.last + 2_000_000_000
  {}

  // Part of a tick: the tracks not in rest are aged, those found stale collected.
  ghost predicate PartlyAged(ts: Tracks, r: Tracks, rest: set<string>, stale: set<string>, now: int) {
    && r.Keys == ts.Keys && rest <= ts.Keys
    && (forall id :: id in ts ==> r[id] == if id in rest then ts[id] else Aged(ts[id], now))
    && (forall id :: id in stale <==> id in ts && id !in rest && Stale(r[id], now))
  }

  lemma AgeOneMore(ts: Tracks, r: Tracks, rest: set<string>, stale: set<string>, now: int, id: string)
    requires PartlyAged(ts, r, rest, stale, now) && id in rest
    ensures var t := Aged(r[id], now);
            PartlyAged(ts, r[id := t], rest - {id}, if Stale(t, now) then stale + {id} else stale, now)
  {}

  lemma AgedCompletely(ts: Tracks, r: Tracks, stale: set<string>, now: int)
    requires PartlyAged(ts, r, {}, stale, now)
    ensures r - stale == AfterTick(ts, now)
  {}

  // r' is r after one association of the batch.
  ghost predicate PairApplied(b: Batch, p: Pair, r: Tracks, r': Tracks) {
    && p.visionIdx < |b.detections| && p.radarIdx < |b.ids| && b.ids[p.radarIdx] in r
    && r' == r[b.ids[p.radarIdx] := Observe(r[b.ids[p.radarIdx]], b.sensor, b.detections[p.visionIdx], b.now)]
  }

  // The tables a batch passes through while its associations are applied.
  ghost predicate Stages(b: Batch, stages: seq<Tracks>, k: nat) {
    && |stages| == k + 1 && k <= |b.outcome.associations|
    && forall a :: 0 <= a < k ==> PairApplied(b, b.outcome.associations[a], stages[a], stages[a + 1])
  }

  lemma {:induction false} MatchedStages(b: Batch, ts: Tracks, k: nat) returns (stages: seq<Tracks>)
    requires Fits(b, ts) && k <= |b.outcome.associations|
    ensures Stages(b, stages, k) && stages[0] == ts && stages[k] == Matched(b, ts, k)
  {
    if k == 0 {
      stages := [ts];
    } else {
      var before := MatchedStages(b, ts, k - 1);
      assert Targets(b)[k - 1] == b.ids[b.outcome.associations[k - 1].radarIdx];
      stages := before + [Matched(b, ts, k)];
    }
  }

  // ------------------------------------------------------------- the invariant

  ghost predicate Sound(id: string, t: TrackView) {
    t.id == id && t.filter.missed == 0
  }

  ghost predicate AllSound(ts: Tracks) {
    forall id :: id in ts ==> Sound(id, ts[id])
  }

  // What holds in every run, whatever the confidences.
  ghost predicate Invariant(e: EngineView) {
    e.nextTrackID >= 1 && e.tracks.Keys == Issued(e.nextTrackID) && AllSound(e.tracks)
  }

  datatype Event = Detections(b: Batch) | Tick(now: int)

  ghost predicate Enabled(e: EngineView, v: Event, azimuth: (real, real) -> real) {
    v.Detections? ==> Admissible(v.b, e.tracks, azimuth)
  }

  ghost function After(e: EngineView, v: Event, azimuth: (real, real) -> real): EngineView
    requires Enabled(e, v, azimuth)
  {
    match v
    case Detections(b) =>
      AdmissibleFits(b, e.tracks, azimuth);
      AfterBatch(e, b)
    case Tick(now) => e.(tracks := AfterTick(e.tracks, now))
  }

  lemma MatchedSound(b: Batch, ts: Tracks, k: nat)
    requires AllSound(ts) && Fits(b, ts) && k <= |b.outcome.associations|
    ensures AllSound(Matched(b, ts, k))
  {
    UpdateAllKeeps(ts, Targets(b), Pairing(b), k, (id: string, t: TrackView) => Sound(id, t));
  }

  lemma CreateInvariant(e: EngineView, s: Sensor, det: Detection, born: int)
    requires Invariant(e)
    ensures Invariant(Create(e, s, det, born))
    ensures TrackID(e.nextTrackID) !in e.tracks && |Create(e, s, det, born).tracks| == |e.tracks| + 1
  {
    NextIdIsFresh(e.nextTrackID);
    var id := TrackID(e.nextTrackID);
    assert Create(e, s, det, born).tracks.Keys == e.tracks.Keys + {id};
  }

  // The c-th unmatched detection has become the track with the c-th identifier
  // from next on.
  ghost predicate Born(b: Batch, next: nat, ts: Tracks, c: nat)
    requires UnmatchedFit(b) && c < |b.outcome.unmatchedVision|
  {
    var id, i := TrackID(next + c), b.outcome.unmatchedVision[c];
    id in ts && ts[id] == NewTrack(id, b.sensor, b.detections[i], b.births[i])
  }

  // r is e with the first k unmatched detections added: all old tracks are still
  // there, as they were.
  ghost predicate Grown(b: Batch, e: EngineView, r: EngineView, k: nat)
    requires UnmatchedFit(b) && k <= |b.outcome.unmatchedVision|
  {
    && Invariant(r)
    && r.nextTrackID == e.nextTrackID + k && |r.tracks| == |e.tracks| + k
    && (forall id :: id in e.tracks ==> id in r.tracks && r.tracks[id] == e.tracks[id])
    && forall c :: 0 <= c < k ==> Born(b, e.nextTrackID, r.tracks, c)
  }

  lemma CreateGrows(b: Batch, e: EngineView, r: EngineView, k: nat)
    requires UnmatchedFit(b) && k < |b.outcome.unmatchedVision| && Grown(b, e, r, k)
    ensures var i := b.outcome.unmatchedVision[k];
            Grown(b, e, Create(r, b.sensor, b.detections[i], b.births[i]), k + 1)
  {
    var i, id := b.outcome.unmatchedVision[k], TrackID(r.nextTrackID);
    CreateInvariant(r, b.sensor, b.detections[i], b.births[i]);
    var more := Create(r, b.sensor, b.detections[i], b.births[i]);
    assert more.tracks == r.tracks[id := NewTrack(id, b.sensor, b.detections[i], b.births[i])];
    forall c | 0 <= c < k + 1 ensures Born(b, e.nextTrackID, more.tracks, c) {
      if c < k { assert Born(b, e.nextTrackID, r.tracks, c); }
    }
  }

  lemma CreatedGrows(b: Batch, e: EngineView, k: nat)
    requires Invariant(e) && UnmatchedFit(b) && k <= |b.outcome.unmatchedVision|
    ensures Grown(b, e, Created(b, e, k), k)
  {
    var p := (a: nat, r: EngineView) => a <= |b.outcome.unmatchedVision| && Grown(b, e, r, a);
    forall a: nat, r: EngineView | a < k && p(a, r) ensures p(a + 1, Creating(b)(a, r)) {
      CreateGrows(b, e, r, a);
    }
    assert p(0, e);
    RepeatKeeps(e, Creating(b), k, p);
    assert p(k, Created(b, e, k));
  }

  lemma TickInvariant(ts: Tracks, now: int)
    requires AllSound(ts)
    ensures AllSound(AfterTick(ts, now)) && AfterTick(ts, now).Keys == ts.Keys
  {}

  // No track is ever removed and the invariant is kept by every event.
  lemma StepInvariant(e: EngineView, v: Event, azimuth: (real, real) -> real)
    requires Invariant(e) && Enabled(e, v, azimuth)
    ensures Invariant(After(e, v, azimuth))
    ensures e.tracks.Keys <= After(e, v, azimuth).tracks.Keys
    ensures v.Tick? ==> After(e, v, azimuth).tracks.Keys == e.tracks.Keys
    ensures e.nextTrackID <= After(e, v, azimuth).nextTrackID
  {
    match v {
      case Detections(b) =>
        AdmissibleFits(b, e.tracks, azimuth);
        var n := |b.outcome.associations|;
        MatchedSound(b, e.tracks, n);
        CreatedGrows(b, e.(tracks := Matched(b, e.tracks, n)), |b.outcome.unmatchedVision|);
      case Tick(now) =>
        TickInvariant(e.tracks, now);
    }
  }

  // -------------------------------------------------------- one batch in detail

  // Track id after the a-th association, and what became of it.
  ghost predicate Paired(b: Batch, ts: Tracks, r: Tracks, a: nat)
    requires Fits(b, ts) && a < |b.outcome.associations|
  {
    var id := Targets(b)[a];
    id in r && r[id] == Observe(ts[id], b.sensor, b.detections[b.outcome.associations[a].visionIdx], b.now)
  }

  lemma MatchedEffect(b: Batch, ts: Tracks)
    requires Fits(b, ts)
    ensures var r := Matched(b, ts, |b.outcome.associations|);
            && r.Keys == ts.Keys
            && (forall a :: 0 <= a < |b.outcome.associations| ==> Paired(b, ts, r, a))
            && (forall id :: id in ts && id !in Targets(b) ==> r[id] == ts[id])
  {
    var n := |b.outcome.associations|;
    forall a | 0 <= a < n ensures Paired(b, ts, Matched(b, ts, n), a) {
      UpdateAllOnce(ts, Targets(b), Pairing(b), n, a);
    }
    forall id | id in ts && id !in Targets(b) ensures Matched(b, ts, n)[id] == ts[id] {
      UpdateAllOthers(ts, Targets(b), Pairing(b), n, id);
    }
  }

  lemma BatchGrows(e: EngineView, b: Batch)
    requires Invariant(e) && Fits(b, e.tracks)
    ensures var mid := e.(tracks := Matched(b, e.tracks, |b.outcome.associations|));
            Invariant(mid) && |mid.tracks| == |e.tracks|
            && Grown(b, mid, AfterBatch(e, b), |b.outcome.unmatchedVision|)
  {
    var n := |b.outcome.associations|;
    var mid := e.(tracks := Matched(b, e.tracks, n));
    MatchedSound(b, e.tracks, n);
    assert mid.tracks.Keys == e.tracks.Keys;
    assert |mid.tracks| == |mid.tracks.Keys| && |e.tracks| == |e.tracks.Keys|;
    CreatedGrows(b, mid, |b.outcome.unmatchedVision|);
  }

  lemma {:induction false} DistinctCover(s: seq<int>, n: nat)
    requires forall a :: 0 <= a < |s| ==> 0 <= s[a] < n
    requires forall a, c :: 0 <= a < c < |s| ==> s[a] != s[c]
    requires forall i :: 0 <= i < n ==> i in s
    ensures |s| == n
  {
    Assignments.ElementsSize(s);
    assert Assignments.Elements(s) == Assignments.Indices(n);
  }

  // Pairs plus unmatched detections make up all detections.
  lemma SplitSizes(vision: seq<real>, radar: seq<real>, o: Outcome)
    requires Partition(vision, radar, o)
    ensures |o.associations| + |o.unmatchedVision| == |vision|
  {
    var paired := seq(|o.associations|, a requires 0 <= a < |o.associations| => o.associations[a].visionIdx as int);
    var left := seq(|o.unmatchedVision|, a requires 0 <= a < |o.unmatchedVision| => o.unmatchedVision[a] as int);
    var all := paired + left;
    forall i | 0 <= i < |vision| ensures i in all {
      if i in o.unmatchedVision {
        var a :| 0 <= a < |o.unmatchedVision| && o.unmatchedVision[a] == i;
        assert all[|paired| + a] == i;
      } else {
        var p :| p in o.associations && p.visionIdx == i;
        var a :| 0 <= a < |o.associations| && o.associations[a] == p;
        assert all[a] == i;
      }
    }
    forall a | 0 <= a < |all| ensures 0 <= all[a] < |vision| {
      if a < |paired| { assert o.associations[a] in o.associations; }
      else { assert o.unmatchedVision[a - |paired|] in o.unmatchedVision; }
    }
    forall a, c | 0 <= a < c < |all| ensures all[a] != all[c] {
      if a < |paired| <= c {
        assert o.associations[a] in o.associations && o.unmatchedVision[c - |paired|] in o.unmatchedVision;
      }
    }
    DistinctCover(all, |vision|);
  }

  // A batch updates each paired track exactly once, with the detection it was
  // paired with, leaves the other tracks alone, and makes one fresh track of each
  // detection without a pair.
  lemma BatchEffect(e: EngineView, b: Batch, azimuth: (real, real) -> real)
    requires Invariant(e) && Admissible(b, e.tracks, azimuth)
    ensures Fits(b, e.tracks)
    ensures var r := AfterBatch(e, b);
            && r.nextTrackID == e.nextTrackID + |b.detections| - |b.outcome.associations|
            && |r.tracks| == |e.tracks| + |b.detections| - |b.outcome.associations|
            && (forall a :: 0 <= a < |b.outcome.associations| ==> Paired(b, e.tracks, r.tracks, a))
            && (forall id :: id in e.tracks && id !in Targets(b) ==> id in r.tracks && r.tracks[id] == e.tracks[id])
            && (forall c :: 0 <= c < |b.outcome.unmatchedVision| ==> Born(b, e.nextTrackID, r.tracks, c))
  {
    AdmissibleFits(b, e.tracks, azimuth);
    SplitSizes(DetectionAzimuths(b.detections, azimuth), TrackAzimuths(b.ids, e.tracks, azimuth), b.outcome);
    BatchGrows(e, b);
    MatchedEffect(b, e.tracks);
    var mid, r := Matched(b, e.tracks, |b.outcome.associations|), AfterBatch(e, b);
    forall a | 0 <= a < |b.outcome.associations| ensures Paired(b, e.tracks, r.tracks, a) {
      assert Paired(b, e.tracks, mid, a);
    }
  }

  // q lies strictly between p and z, or all three agree.
  predicate Between(p: real, z: real, q: real) {
    if p < z then p < q < z else if z < p then z < q < p else q == p
  }

  // The position has moved towards the detection from where constant velocity had
  // taken it at the later of the filter's time and now.
  ghost predicate Moved(f: Filter, g: Filter, det: Detection, now: int) {
    var time := if now > f.last then now else f.last;
    var dt := (time - f.last) as real / 1_000_000_000.0;
    && Between(f.x.p + dt * f.x.v, det.x, g.x.p) && Between(f.y.p + dt * f.y.v, det.y, g.y.p)
    && g.last == time && g.missed == 0 && g.cov.a < 0.5
  }

  // g knows what f knew, and one measurement of variance 0.5 on each axis.
  ghost predicate Learned(f: GoodFilter, g: GoodFilter, det: Detection) {
    var q, x, y := PrecisionOf(f.cov), InfoOf(f.x, f.cov), InfoOf(f.y, f.cov);
    && InfoOf(g.x, g.cov) == Info(q.(a := q.a + 2.0), x.p + 2.0 * det.x, x.v)
    && InfoOf(g.y, g.cov) == Info(q.(a := q.a + 2.0), y.p + 2.0 * det.y, y.v)
  }

  // The detecting sensor's confidence is the detection's, the other one's stays.
  // The track is a single sensor's exactly when the other one has no confidence.
  ghost predicate Marked(t: TrackView, u: TrackView, s: Sensor, det: Detection) {
    && u.id == t.id && u.firstSeen == t.firstSeen
    && (s.Camera? ==> u.camera == det.confidence && u.radar == t.radar)
    && (s.Radar? ==> u.radar == det.confidence && u.camera == t.camera)
    && (u.radarOnly <==> s.Radar? && t.camera == 0.0)
    && (u.visionOnly <==> s.Camera? && t.radar == 0.0)
  }

  lemma CorrectMoves(f: GoodFilter, det: Detection)
    ensures var g := Correct(f, det);
            && Between(f.x.p, det.x, g.x.p) && Between(f.y.p, det.y, g.y.p)
            && g.last == f.last && g.missed == 0 && g.cov.a < 0.5
  {
    UpdateInterpolates(f.x, f.cov, det.x);
    UpdateInterpolates(f.y, f.cov, det.y);
    UpdateCovPD(f.cov);
  }

  lemma CorrectLearns(f: GoodFilter, det: Detection)
    ensures Learned(f, Correct(f, det), det)
  {
    UpdateAddsInformation(f.x, f.cov, det.x);
    UpdateAddsInformation(f.y, f.cov, det.y);
  }

  lemma AdvanceMoves(f: GoodFilter, now: int)
    ensures var g := Advance(f, now);
            var time := if now > f.last then now else f.last;
            var dt := (time - f.last) as real / 1_000_000_000.0;
            && g.x.p == f.x.p + dt * f.x.v && g.y.p == f.y.p + dt * f.y.v && g.last == time
            && g.x.v == f.x.v && g.y.v == f.y.v && g.missed == f.missed
  {
    PredictExtrapolates(f, now);
  }

  lemma TowardsDetection(f: Filter, g: Filter, h: Filter, det: Detection, now: int)
    requires var time := if now > f.last then now else f.last;
             var dt := (time - f.last) as real / 1_000_000_000.0;
             g.x.p == f.x.p + dt * f.x.v && g.y.p == f.y.p + dt * f.y.v && g.last == time
    requires Between(g.x.p, det.x, h.x.p) && Between(g.y.p, det.y, h.y.p)
    requires h.last == g.last && h.missed == 0 && h.cov.a < 0.5
    ensures Moved(f, h, det, now)
  {}

  lemma ObserveMarks(t: TrackView, s: Sensor, det: Detection, now: int)
    ensures Marked(t, Observe(t, s, det, now), s, det)
  {}

  lemma ObserveMoves(t: TrackView, s: Sensor, det: Detection, now: int)
    ensures var u := Observe(t, s, det, now);
            && Moved(t.filter, u.filter, det, now) && Learned(Advance(t.filter, now), u.filter, det)
            && Marked(t, u, s, det)
  {
    var f := Advance(t.filter, now);
    AdvanceMoves(t.filter, now);
    CorrectMoves(f, det);
    CorrectLearns(f, det);
    TowardsDetection(t.filter, f, Correct(f, det), det, now);
    ObserveMarks(t, s, det, now);
  }

  // What a batch makes of a track that is paired with a detection.
  lemma PairMoves(e: EngineView, b: Batch, azimuth: (real, real) -> real, p: Pair)
    requires Invariant(e) && Admissible(b, e.tracks, azimuth) && p in b.outcome.associations
    ensures Fits(b, e.tracks) && p.visionIdx < |b.detections| && p.radarIdx < |b.ids|
    ensures var id, det := b.ids[p.radarIdx], b.detections[p.visionIdx];
            && id in e.tracks && id in AfterBatch(e, b).tracks
            && var t, u := e.tracks[id], AfterBatch(e, b).tracks[id];
               && Moved(t.filter, u.filter, det, b.now) && Learned(Advance(t.filter, b.now), u.filter, det)
               && Marked(t, u, b.sensor, det)
  {
    AdmissibleFits(b, e.tracks, azimuth);
    BatchEffect(e, b, azimuth);
    var a :| 0 <= a < |b.outcome.associations| && b.outcome.associations[a] == p;
    assert Paired(b, e.tracks, AfterBatch(e, b).tracks, a);
    assert Targets(b)[a] == b.ids[p.radarIdx];
    ObserveMoves(e.tracks[b.ids[p.radarIdx]], b.sensor, b.detections[p.visionIdx], b.now);
  }

  // A track at rest where the detection is, with the confidence and the flag of the
  // one sensor.
  ghost predicate StandsAt(t: TrackView, s: Sensor, det: Detection, born: int) {
    && t.filter.x.p == det.x && t.filter.y.p == det.y && t.filter.x.v == 0.0 == t.filter.y.v
    && t.filter.cov.a == 1.0 && t.filter.cov.b == 0.0 && t.filter.cov.d == 10.0
    && t.filter.last == born && t.filter.missed == 0 && t.firstSeen == det.timestamp
    && t.camera == (if s.Camera? then det.confidence else 0.0)
    && t.radar == (if s.Radar? then det.confidence else 0.0)
    && (t.visionOnly <==> s.Camera?) && (t.radarOnly <==> s.Radar?)
  }

  lemma NewStandsAt(id: string, s: Sensor, det: Detection, born: int)
    ensures StandsAt(NewTrack(id, s, det, born), s, det, born) && NewTrack(id, s, det, born).id == id
  {
    NewAtRest(det.x, det.y, born);
  }

  // A detection without a pair becomes the track of the next identifier.
  lemma BornAtDetection(e: EngineView, b: Batch, azimuth: (real, real) -> real, c: nat)
    requires Invariant(e) && Admissible(b, e.tracks, azimuth) && c < |b.outcome.unmatchedVision|
    ensures Fits(b, e.tracks) && b.outcome.unmatchedVision[c] < |b.detections|
    ensures var i, id := b.outcome.unmatchedVision[c], TrackID(e.nextTrackID + c);
            && id !in e.tracks && id in AfterBatch(e, b).tracks && AfterBatch(e, b).tracks[id].id == id
            && StandsAt(AfterBatch(e, b).tracks[id], b.sensor, b.detections[i], b.births[i])
  {
    AdmissibleFits(b, e.tracks, azimuth);
    BatchEffect(e, b, azimuth);
    assert Born(b, e.nextTrackID, AfterBatch(e, b).tracks, c);
    NotYetIssued(e.nextTrackID, c);
    var i := b.outcome.unmatchedVision[c];
    NewStandsAt(TrackID(e.nextTrackID + c), b.sensor, b.detections[i], b.births[i]);
  }

  lemma GrownIsBorn(b: Batch, e: EngineView, r: EngineView, k: nat, id: string) returns (c: nat)
    requires UnmatchedFit(b) && k <= |b.outcome.unmatchedVision| && Invariant(e) && Grown(b, e, r, k)
    requires id in r.tracks && id !in e.tracks
    ensures c < k && id == TrackID(e.nextTrackID + c) && Born(b, e.nextTrackID, r.tracks, c)
  {
    c := IssuedSince(e.nextTrackID, k, id);
    assert Born(b, e.nextTrackID, r.tracks, c);
  }

  // A track that was not there before comes from an unmatched detection.
  lemma NewTrackIsBorn(e: EngineView, b: Batch, id: string) returns (c: nat)
    requires Invariant(e) && Fits(b, e.tracks) && id in AfterBatch(e, b).tracks && id !in e.tracks
    ensures c < |b.outcome.unmatchedVision| && id == TrackID(e.nextTrackID + c)
    ensures Born(b, e.nextTrackID, AfterBatch(e, b).tracks, c)
  {
    var mid := e.(tracks := Matched(b, e.tracks, |b.outcome.associations|));
    BatchGrows(e, b);
    c := GrownIsBorn(b, mid, AfterBatch(e, b), |b.outcome.unmatchedVision|, id);
  }

  // ------------------------------------------------------------------ every run

  ghost predicate RunEnabled(e: EngineView, vs: seq<Event>, azimuth: (real, real) -> real)
    decreases |vs|
  {
    vs == [] || (Enabled(e, vs[0], azimuth) && RunEnabled(After(e, vs[0], azimuth), vs[1..], azimuth))
  }

  ghost function Run(e: EngineView, vs: seq<Event>, azimuth: (real, real) -> real): EngineView
    requires RunEnabled(e, vs, azimuth)
    decreases |vs|
  {
    if vs == [] then e else Run(After(e, vs[0], azimuth), vs[1..], azimuth)
  }

  const EMPTY: EngineView := EngineView(map[], 1)

  // Detections minus associations, over all batches of a run.
  function Additions(vs: seq<Event>): int {
    if vs == [] then 0
    else Additions(vs[1..]) + match vs[0]
                              case Detections(b) => |b.detections| - |b.outcome.associations|
                              case Tick(_) => 0
  }

  // Through any batches and ticks, starting from the empty engine or any state
  // such a run reaches: the keys are exactly the identifiers 1 .. nextTrackID - 1,
  // the counter has grown by what the batches added, no missed frame is ever
  // counted, and tracks are never removed.
  lemma {:induction false} EveryRun(e: EngineView, vs: seq<Event>, azimuth: (real, real) -> real)
    requires (e == EMPTY || Invariant(e)) && RunEnabled(e, vs, azimuth)
    ensures Invariant(Run(e, vs, azimuth))
    ensures e.tracks.Keys <= Run(e, vs, azimuth).tracks.Keys
    ensures Run(e, vs, azimuth).nextTrackID == e.nextTrackID + Additions(vs)
    decreases |vs|
  {
    assert Invariant(EMPTY);
    if vs == [] {
    } else {
      StepInvariant(e, vs[0], azimuth);
      if vs[0].Detections? { BatchEffect(e, vs[0].b, azimuth); }
      EveryRun(After(e, vs[0], azimuth), vs[1..], azimuth);
    }
  }

  // ------------------------------------------------------------- classification

  // The two flags follow the confidences, and never both hold.
  ghost predicate Classified(t: TrackView) {
    && 0.0 <= t.camera <= 1.0 && 0.0 <= t.radar <= 1.0
    && (t.camera > 0.0 || t.radar > 0.0)
    && (t.radarOnly <==> t.camera == 0.0)
    && (t.visionOnly <==> t.radar == 0.0)
  }

  ghost predicate AllClassified(ts: Tracks) {
    forall id :: id in ts ==> Classified(ts[id])
  }

  predicate Sure(det: Detection) { 0.0 < det.confidence <= 1.0 }

  predicate Confident(ds: seq<Detection>) {
    forall i :: 0 <= i < |ds| ==> Sure(ds[i])
  }

  lemma ObserveClassifiedExactly(t: TrackView, s: Sensor, det: Detection, now: int)
    requires Classified(t)
    ensures Classified(Observe(t, s, det, now)) <==> Sure(det)
  {}

  lemma NewClassifiedExactly(id: string, s: Sensor, det: Detection, born: int)
    ensures Classified(NewTrack(id, s, det, born)) <==> Sure(det)
  {}

  // A camera detection of confidence 0 yields a track without any confidence that
  // is not radar-only.
  lemma ZeroConfidenceMisfiled(id: string, born: int)
    ensures var t := NewTrack(id, Camera, Detection(0.0, 1.0, 0.0, born), born);
            t.camera == 0.0 && t.radar == 0.0 && !t.radarOnly && t.visionOnly && !Classified(t)
  {}

  lemma ConfidentKeepsClassified(e: EngineView, b: Batch, azimuth: (real, real) -> real, id: string)
    requires Invariant(e) && AllClassified(e.tracks) && Admissible(b, e.tracks, azimuth) && Confident(b.detections)
    requires Fits(b, e.tracks) && id in AfterBatch(e, b).tracks
    ensures Classified(AfterBatch(e, b).tracks[id])
  {
    BatchEffect(e, b, azimuth);
    if id !in e.tracks {
      var c := NewTrackIsBorn(e, b, id);
      var i := b.outcome.unmatchedVision[c];
      NewClassifiedExactly(id, b.sensor, b.detections[i], b.births[i]);
    } else if id in Targets(b) {
      var a :| 0 <= a < |Targets(b)| && Targets(b)[a] == id;
      assert Paired(b, e.tracks, AfterBatch(e, b).tracks, a);
      ObserveClassifiedExactly(e.tracks[id], b.sensor, b.detections[b.outcome.associations[a].visionIdx], b.now);
    }
  }

  lemma PairedMeansSure(b: Batch, ts: Tracks, r: Tracks, a: nat)
    requires Fits(b, ts) && AllClassified(ts) && AllClassified(r)
    requires a < |b.outcome.associations| && Paired(b, ts, r, a)
    ensures Sure(b.detections[b.outcome.associations[a].visionIdx])
  {
    var id := Targets(b)[a];
    assert id in ts;
    ObserveClassifiedExactly(ts[id], b.sensor, b.detections[b.outcome.associations[a].visionIdx], b.now);
  }

  lemma BornMeansSure(b: Batch, next: nat, r: Tracks, c: nat)
    requires UnmatchedFit(b) && AllClassified(r) && c < |b.outcome.unmatchedVision| && Born(b, next, r, c)
    ensures Sure(b.detections[b.outcome.unmatchedVision[c]])
  {
    var i := b.outcome.unmatchedVision[c];
    NewClassifiedExactly(TrackID(next + c), b.sensor, b.detections[i], b.births[i]);
  }

  // Every detection is paired or unmatched.
  lemma PlaceOf(vision: seq<real>, radar: seq<real>, o: Outcome, i: nat) returns (paired: bool, k: nat)
    requires Partition(vision, radar, o) && i < |vision|
    ensures if paired then k < |o.associations| && o.associations[k].visionIdx == i
            else k < |o.unmatchedVision| && o.unmatchedVision[k] == i
  {
    if i in o.unmatchedVision {
      k :| 0 <= k < |o.unmatchedVision| && o.unmatchedVision[k] == i;
      paired := false;
    } else {
      var p :| p in o.associations && p.visionIdx == i;
      k :| 0 <= k < |o.associations| && o.associations[k] == p;
      paired := true;
    }
  }

  lemma ClassifiedMeansSure(e: EngineView, b: Batch, azimuth: (real, real) -> real, i: nat)
    requires Invariant(e) && AllClassified(e.tracks) && Admissible(b, e.tracks, azimuth) && i < |b.detections|
    requires Fits(b, e.tracks) && AllClassified(AfterBatch(e, b).tracks)
    ensures Sure(b.detections[i])
  {
    var vision, radar := DetectionAzimuths(b.detections, azimuth), TrackAzimuths(b.ids, e.tracks, azimuth);
    var paired, k := PlaceOf(vision, radar, b.outcome, i);
    BatchEffect(e, b, azimuth);
    if paired {
      PairedMeansSure(b, e.tracks, AfterBatch(e, b).tracks, k);
    } else {
      BornMeansSure(b, e.nextTrackID, AfterBatch(e, b).tracks, k);
    }
  }

  // A batch keeps all tracks classified exactly when all its confidences are
  // above 0 and at most 1: every detection leaves its mark on some track.
  lemma BatchClassifiedExactly(e: EngineView, b: Batch, azimuth: (real, real) -> real)
    requires Invariant(e) && AllClassified(e.tracks) && Admissible(b, e.tracks, azimuth)
    ensures Fits(b, e.tracks)
    ensures AllClassified(AfterBatch(e, b).tracks) <==> Confident(b.detections)
  {
    AdmissibleFits(b, e.tracks, azimuth);
    if Confident(b.detections) {
      forall id | id in AfterBatch(e, b).tracks ensures Classified(AfterBatch(e, b).tracks[id]) {
        ConfidentKeepsClassified(e, b, azimuth, id);
      }
    }
    if AllClassified(AfterBatch(e, b).tracks) {
      forall i | 0 <= i < |b.detections| ensures Sure(b.detections[i]) {
        ClassifiedMeansSure(e, b, azimuth, i);
      }
    }
  }

  lemma TickClassified(ts: Tracks, now: int)
    requires AllClassified(ts)
    ensures AllClassified(AfterTick(ts, now))
  {}

  ghost predicate ConfidentRun(vs: seq<Event>) {
    forall i :: 0 <= i < |vs| && vs[i].Detections? ==> Confident(vs[i].b.detections)
  }

  // At every moment of the run all tracks are classified.
  ghost predicate AlwaysClassified(e: EngineView, vs: seq<Event>, azimuth: (real, real) -> real)
    requires RunEnabled(e, vs, azimuth)
    decreases |vs|
  {
    AllClassified(e.tracks) && (vs == [] || AlwaysClassified(After(e, vs[0], azimuth), vs[1..], azimuth))
  }

  lemma ConfidentStep(vs: seq<Event>)
    requires vs != []
    ensures ConfidentRun(vs)
       <==> (vs[0].Detections? ==> Confident(vs[0].b.detections)) && ConfidentRun(vs[1..])
  {
    assert forall i :: 0 < i < |vs| ==> vs[i] == vs[1..][i - 1];
    if ConfidentRun(vs) {
      forall i | 0 <= i < |vs[1..]| && vs[1..][i].Detections? ensures Confident(vs[1..][i].b.detections) {
        assert vs[i + 1] == vs[1..][i];
      }
    }
  }

  // All tracks are classified throughout a run exactly when every confidence in
  // it is above 0 and at most 1.
  lemma {:induction false} ClassifiedExactly(e: EngineView, vs: seq<Event>, azimuth: (real, real) -> real)
    requires (e == EMPTY || Invariant(e)) && AllClassified(e.tracks) && RunEnabled(e, vs, azimuth)
    ensures AlwaysClassified(e, vs, azimuth) <==> ConfidentRun(vs)
    ensures ConfidentRun(vs) ==> AllClassified(Run(e, vs, azimuth).tracks)
    decreases |vs|
  {
    assert Invariant(EMPTY);
    if vs == [] {
    } else {
      var next := After(e, vs[0], azimuth);
      StepInvariant(e, vs[0], azimuth);
      ConfidentStep(vs);
      match vs[0] {
        case Detections(b) => BatchClassifiedExactly(e, b, azimuth);
        case Tick(now) => TickClassified(e.tracks, now);
      }
      if AllClassified(next.tracks) { ClassifiedExactly(next, vs[1..], azimuth); }
    }
  }

  // ------------------------------------------------------- who has seen a track

  // The batch is paired with this track or creates it.
  ghost predicate Touches(b: Batch, e: EngineView, id: string)
    requires Fits(b, e.tracks)
  {
    id in Targets(b) || (id !in e.tracks && id in AfterBatch(e, b).tracks)
  }

  ghost predicate SeenAt(e: EngineView, v: Event, azimuth: (real, real) -> real, s: Sensor, id: string)
    requires Enabled(e, v, azimuth)
  {
    match v
    case Detections(b) =>
      AdmissibleFits(b, e.tracks, azimuth);
      b.sensor == s && Touches(b, e, id)
    case Tick(_) => false
  }

  // Some batch of this sensor in the run is paired with the track or creates it.
  ghost predicate SeenBy(e: EngineView, vs: seq<Event>, azimuth: (real, real) -> real, s: Sensor, id: string)
    requires RunEnabled(e, vs, azimuth)
    decreases |vs|
  {
    vs != [] &&
    (SeenAt(e, vs[0], azimuth, s, id) || SeenBy(After(e, vs[0], azimuth), vs[1..], azimuth, s, id))
  }

  function Confidence(t: TrackView, s: Sensor): real { if s.Camera? then t.camera else t.radar }

  // This sensor's confidence in the track is positive.
  ghost predicate Seen(e: EngineView, s: Sensor, id: string) {
    id in e.tracks && Confidence(e.tracks[id], s) > 0.0
  }

  lemma SeenInMatched(b: Batch, ts: Tracks, s: Sensor, id: string)
    requires Fits(b, ts) && Confident(b.detections) && id in ts
    ensures var r := Matched(b, ts, |b.outcome.associations|);
            Confidence(r[id], s) > 0.0 <==> Confidence(ts[id], s) > 0.0 || (b.sensor == s && id in Targets(b))
  {
    MatchedEffect(b, ts);
    if id in Targets(b) {
      var a :| 0 <= a < |Targets(b)| && Targets(b)[a] == id;
      assert Paired(b, ts, Matched(b, ts, |b.outcome.associations|), a);
    }
  }

  lemma AfterBatchTracks(e: EngineView, b: Batch, id: string)
    requires Invariant(e) && Fits(b, e.tracks) && Confident(b.detections) && id in AfterBatch(e, b).tracks
    ensures var r, ts := AfterBatch(e, b).tracks, Matched(b, e.tracks, |b.outcome.associations|);
            if id in e.tracks then r[id] == ts[id]
            else forall s: Sensor :: Confidence(r[id], s) > 0.0 <==> s == b.sensor
  {
    BatchGrows(e, b);
    if id !in e.tracks {
      var c := NewTrackIsBorn(e, b, id);
      assert Sure(b.detections[b.outcome.unmatchedVision[c]]);
    }
  }

  lemma SeenInBatch(e: EngineView, b: Batch, s: Sensor, id: string)
    requires Invariant(e) && Fits(b, e.tracks) && Confident(b.detections) && id in AfterBatch(e, b).tracks
    ensures Seen(AfterBatch(e, b), s, id) <==> Seen(e, s, id) || (b.sensor == s && Touches(b, e, id))
  {
    AfterBatchTracks(e, b, id);
    if id in e.tracks {
      SeenInMatched(b, e.tracks, s, id);
    } else {
      assert Touches(b, e, id);
    }
  }

  lemma SeenInTick(e: EngineView, now: int, s: Sensor, id: string)
    requires Invariant(e) && id in e.tracks
    ensures id in AfterTick(e.tracks, now)
    ensures Confidence(AfterTick(e.tracks, now)[id], s) > 0.0 <==> Confidence(e.tracks[id], s) > 0.0
  {
    assert Sound(id, e.tracks[id]);
    TickDeletesExactly(e.tracks[id], now);
  }

  lemma SeenInStep(e: EngineView, v: Event, azimuth: (real, real) -> real, s: Sensor, id: string)
    requires Invariant(e) && Enabled(e, v, azimuth) && id in After(e, v, azimuth).tracks
    requires v.Detections? ==> Confident(v.b.detections)
    ensures Seen(After(e, v, azimuth), s, id) <==> Seen(e, s, id) || SeenAt(e, v, azimuth, s, id)
  {
    match v
    case Detections(b) =>
      AdmissibleFits(b, e.tracks, azimuth);
      SeenInBatch(e, b, s, id);
    case Tick(now) =>
      StepInvariant(e, v, azimuth);
      SeenInTick(e, now, s, id);
  }

  lemma NotSeenYet(e: EngineView, v: Event, azimuth: (real, real) -> real, s: Sensor, id: string)
    requires Enabled(e, v, azimuth) && id !in e.tracks && id !in After(e, v, azimuth).tracks
    ensures !SeenAt(e, v, azimuth, s, id)
  {
    if v.Detections? { AdmissibleFits(v.b, e.tracks, azimuth); }
  }

  lemma {:induction false} SeenInRun(e: EngineView, vs: seq<Event>, azimuth: (real, real) -> real, s: Sensor,
                                     id: string)
    requires Invariant(e) && RunEnabled(e, vs, azimuth) && ConfidentRun(vs) && id in Run(e, vs, azimuth).tracks
    ensures Seen(Run(e, vs, azimuth), s, id) <==> Seen(e, s, id) || SeenBy(e, vs, azimuth, s, id)
    decreases |vs|
  {
    if vs == [] {
    } else {
      var next := After(e, vs[0], azimuth);
      StepInvariant(e, vs[0], azimuth);
      ConfidentStep(vs);
      SeenInRun(next, vs[1..], azimuth, s, id);
      if id in next.tracks {
        SeenInStep(e, vs[0], azimuth, s, id);
      } else {
        assert id !in e.tracks;
        NotSeenYet(e, vs[0], azimuth, s, id);
      }
    }
  }

  // In every run of such confidences a track is radar-only exactly when no camera
  // batch has created it or been paired with it, and vision-only exactly when no
  // radar batch has.
  lemma FlagsTellHistory(vs: seq<Event>, azimuth: (real, real) -> real, id: string)
    requires RunEnabled(EMPTY, vs, azimuth) && ConfidentRun(vs) && id in Run(EMPTY, vs, azimuth).tracks
    ensures var t := Run(EMPTY, vs, azimuth).tracks[id];
            && (t.radarOnly <==> !SeenBy(EMPTY, vs, azimuth, Camera, id))
            && (t.visionOnly <==> !SeenBy(EMPTY, vs, azimuth, Radar, id))
  {
    EveryRun(EMPTY, vs, azimuth);
    SeenInRun(EMPTY, vs, azimuth, Camera, id);
    SeenInRun(EMPTY, vs, azimuth, Radar, id);
    ClassifiedExactly(EMPTY, vs, azimuth);
  }

  // ---------------------------------------------------------- reported confidence

  function FusedConfidence(camera: real, radar: real): real {
    var single := if radar > camera then radar else camera;
    if camera > 0.0 && radar > 0.0 then
      var boosted := (camera + radar) / 2.0 * 1.2;
      if boosted < 1.0 then boosted else 1.0
    else single
  }

  // A classified track's reported confidence is positive and at most 1.
  lemma ConfidenceInRange(t: TrackView)
    requires Classified(t)
    ensures 0.0 < FusedConfidence(t.camera, t.radar) <= 1.0
  {}

  // Two sensors report at least as much as the better one alone exactly when the
  // better one is at most one and a half times the other.
  lemma BoostExactly(camera: real, radar: real)
    requires 0.0 < camera <= 1.0 && 0.0 < radar <= 1.0
    ensures var hi, lo := if camera < radar then radar else camera, if camera < radar then camera else radar;
            FusedConfidence(camera, radar) >= hi <==> hi <= 1.5 * lo
  {}

  lemma BoostCanLower()
    ensures FusedConfidence(0.9, 0.1) == 0.6
  {}

  // --------------------------------------------------------------------- reports

  datatype FusedObject = FusedObject(id: string, x: real, y: real, velocityX: real, velocityY: real,
                                     confidence: real, camera: real, radar: real,
                                     radarOnly: bool, visionOnly: bool, lastSeen: int, firstSeen: int)

  function Report(t: TrackView, toRoom: (real, real) -> (real, real)): FusedObject {
    var (x, y) := toRoom(t.filter.x.p, t.filter.y.p);
    FusedObject(t.id, x, y, t.filter.x.v, t.filter.y.v, FusedConfidence(t.camera, t.radar), t.camera, t.radar,
                t.radarOnly, t.visionOnly, t.filter.last, t.firstSeen)
  }

  // One sensor is reported as it is, two by 0.6 times their sum, but never above 1.
  lemma ReportedConfidence(camera: real, radar: real)
    requires camera >= 0.0 && radar >= 0.0
    ensures radar == 0.0 ==> FusedConfidence(camera, radar) == camera
    ensures camera == 0.0 ==> FusedConfidence(camera, radar) == radar
    ensures camera > 0.0 && radar > 0.0 ==>
              FusedConfidence(camera, radar) == if 0.6 * (camera + radar) < 1.0 then 0.6 * (camera + radar) else 1.0
  {}

  // A track that a batch creates is reported at rest where its detection is, with
  // the detection's confidence.
  lemma NewTrackReported(e: EngineView, b: Batch, azimuth: (real, real) -> real, c: nat,
                         toRoom: (real, real) -> (real, real))
    requires Invariant(e) && Admissible(b, e.tracks, azimuth) && c < |b.outcome.unmatchedVision|
    requires Confident(b.detections)
    ensures Fits(b, e.tracks) && b.outcome.unmatchedVision[c] < |b.detections|
    ensures var i, id := b.outcome.unmatchedVision[c], TrackID(e.nextTrackID + c);
            && id in AfterBatch(e, b).tracks
            && var o, det := Report(AfterBatch(e, b).tracks[id], toRoom), b.detections[i];
               && o.id == id && (o.x, o.y) == toRoom(det.x, det.y) && o.velocityX == 0.0 == o.velocityY
               && o.confidence == det.confidence && o.lastSeen == b.births[i] && o.firstSeen == det.timestamp
               && o.camera == (if b.sensor.Camera? then det.confidence else 0.0)
               && o.radar == (if b.sensor.Radar? then det.confidence else 0.0)
               && (o.visionOnly <==> b.sensor.Camera?) && (o.radarOnly <==> b.sensor.Radar?)
  {
    BornAtDetection(e, b, azimuth, c);
    assert Sure(b.detections[b.outcome.unmatchedVision[c]]);
  }

  // After ticks a track is reported where constant velocity has taken it, with the
  // time of the latest tick.
  lemma FadedTrackReported(ts: Tracks, nows: seq<int>, id: string, toRoom: (real, real) -> (real, real))
    requires id in ts && ts[id].filter.missed == 0
    ensures id in Ticks(ts, nows)
    ensures var t, u, latest := ts[id], Ticks(ts, nows)[id], MaxTime(ts[id].filter.last, nows);
            var o := Report(u, toRoom);
            && Carried(t.filter, u.filter, latest) && (o.x, o.y) == toRoom(u.filter.x.p, u.filter.y.p)
            && o.velocityX == t.filter.x.v && o.velocityY == t.filter.y.v
            && o.lastSeen == latest && o.firstSeen == t.firstSeen && o.id == t.id
  {
    TicksFade(ts, nows, id);
  }

  // One report for each track that is not in rest, and no other.
  ghost predicate Reports(ts: Tracks, rest: set<string>, objects: seq<FusedObject>,
                          toRoom: (real, real) -> (real, real)) {
    && rest <= ts.Keys && |objects| == |ts.Keys| - |rest|
    && (forall id :: id in ts && id !in rest ==> Report(ts[id], toRoom) in objects)
    && forall o :: o in objects ==> o.id in ts && o == Report(ts[o.id], toRoom)
  }

  lemma ReportOneMore(ts: Tracks, rest: set<string>, objects: seq<FusedObject>, toRoom: (real, real) -> (real, real),
                      id: string)
    requires Reports(ts, rest, objects, toRoom) && id in rest && ts[id].id == id
    ensures Reports(ts, rest - {id}, objects + [Report(ts[id], toRoom)], toRoom)
  {
    var more := objects + [Report(ts[id], toRoom)];
    assert forall o :: o in more <==> o in objects || o == Report(ts[id], toRoom);
  }

  // In every state that such a run reaches, what is reported of a track is a
  // positive confidence of at most 1, and flags that say which sensor has never
  // seen it.
  lemma ReportsSound(e: EngineView, vs: seq<Event>, azimuth: (real, real) -> real, id: string,
                     toRoom: (real, real) -> (real, real))
    requires RunEnabled(EMPTY, vs, azimuth) && ConfidentRun(vs) && e == Run(EMPTY, vs, azimuth) && id in e.tracks
    ensures var o := Report(e.tracks[id], toRoom);
            && o.id == id && 0.0 < o.confidence <= 1.0
            && (o.radarOnly <==> o.camera == 0.0) && (o.visionOnly <==> o.radar == 0.0)
            && (o.radarOnly <==> !SeenBy(EMPTY, vs, azimuth, Camera, id))
            && (o.visionOnly <==> !SeenBy(EMPTY, vs, azimuth, Radar, id))
            && !(o.radarOnly && o.visionOnly)
  {
    EveryRun(EMPTY, vs, azimuth);
    assert Sound(id, e.tracks[id]);
    ClassifiedExactly(EMPTY, vs, azimuth);
    ConfidenceInRange(e.tracks[id]);
    FlagsTellHistory(vs, azimuth, id);
  }

  // Azimuths of an arctangent lie within half a turn of zero, so all of them are
  // comparable and only the number of detections and tracks is left to check.
  lemma AzimuthsComparable(ds: seq<Detection>, ids: seq<string>, ts: Tracks, azimuth: (real, real) -> real)
    requires forall x, y :: -180.0 <= azimuth(x, y) <= 180.0
    requires forall id :: id in ids ==> id in ts
    ensures Comparable(DetectionAzimuths(ds, azimuth), TrackAzimuths(ids, ts, azimuth))
       <==> MAX_ASSOCIATION_ANGLE * Assignments.Min(|ds|, |ids|) as real < NO_MATCH_COST
  {}
}
