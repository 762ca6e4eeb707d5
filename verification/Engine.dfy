// The fusion engine: a map of track objects, each with its own filter, updated
// in place.  Every method is proved to make the transition of FusionModel.dfy
// that bears its name.
module Engine {
  import opened FilterMath
  import opened Kalman
  import opened Association
  import opened MapFold
  import opened Wrappers
  import FM = FusionModel
  import TrackIds
  import Assignments

  class Track {
    const id: string
    const filter: KalmanFilter
    const firstSeen: int
    var camera: real
    var radar: real
    var radarOnly: bool
    var visionOnly: bool

    ghost predicate Valid()
      reads this, filter
    {
      filter.Valid()
    }

    ghost function View(): FM.TrackView
      requires Valid()
      reads this, filter
    {
      FM.TrackView(id, filter.View(), camera, radar, radarOnly, visionOnly, firstSeen)
    }

    constructor (id: string, sensor: FM.Sensor, det: FM.Detection, born: int)
      ensures Valid() && fresh(filter)
      ensures this.id == id && View() == FM.NewTrack(id, sensor, det, born)
    {
      this.id := id;
      filter := new KalmanFilter(det.x, det.y, born);
      firstSeen := det.timestamp;
      camera := if sensor.Camera? then det.confidence else 0.0;
      visionOnly := sensor.Camera?;
      radar := if sensor.Radar? then det.confidence else 0.0;
      radarOnly := sensor.Radar?;
    }

    method Report(toRoom: (real, real) -> (real, real)) returns (o: FM.FusedObject)
      requires Valid()
      ensures o == FM.Report(View(), toRoom)
    {
      var (x, y) := toRoom(filter.x.e0, filter.x.e1);
      var confidence := camera;
      if radar > confidence {
        confidence := radar;
      }
      if camera > 0.0 && radar > 0.0 {
        confidence := (camera + radar) / 2.0 * 1.2;
        if confidence > 1.0 {
          confidence := 1.0;
        }
      }
      o := FM.FusedObject(id, x, y, filter.x.e2, filter.x.e3, confidence, camera, radar,
                          radarOnly, visionOnly, filter.lastUpdate, firstSeen);
    }

    method Observe(sensor: FM.Sensor, det: FM.Detection, now: int)
      requires Valid()
      modifies this, filter
      ensures Valid() && View() == FM.Observe(old(View()), sensor, det, now)
      ensures FM.Moved(old(View()).filter, View().filter, det, now) && FM.Marked(old(View()), View(), sensor, det)
      ensures FM.Learned(FM.Advance(old(View()).filter, now), View().filter, det)
    {
      FM.ObserveMoves(View(), sensor, det, now);
      filter.Predict(now);
      filter.Update(det.x, det.y);
      match sensor {
        case Camera =>
          camera := det.confidence;
          visionOnly := radar == 0.0;
          radarOnly := false;
        case Radar =>
          radar := det.confidence;
          radarOnly := camera == 0.0;
          visionOnly := false;
      }
    }

    method CountMissed(now: int)
      requires Valid()
      modifies filter
      ensures Valid() && View() == FM.CountMissed(old(View()), now)
    {
      if now - filter.lastUpdate > FM.MISSED_AFTER {
        filter.MarkMissed();
      }
    }

    // Predict to now, look for staleness, decay; the result says whether to delete.
    method Age(now: int) returns (stale: bool)
      requires Valid()
      modifies this, filter
      ensures Valid() && View() == FM.Aged(old(View()), now) && stale == FM.Stale(View(), now)
    {
      filter.Predict(now);
      CountMissed(now);
      stale := filter.ShouldDelete();
      if now - filter.lastUpdate > FM.TIMEOUT {
        stale := true;
      }
      camera := camera * FM.DECAY;
      radar := radar * FM.DECAY;
    }
  }

  class Engine {
    const azimuth: (real, real) -> real
    var tracks: map<string, Track>
    var nextTrackID: nat
    ghost var views: FM.Tracks        // what the track objects stand for
    ghost var footprint: set<object>    // the tracks and their filters

    // Tracks are filed under their own identifiers and share no objects.
    ghost predicate Valid()
      reads this, footprint
    {
      && views.Keys == tracks.Keys && this !in footprint
      && (forall id :: id in tracks ==> tracks[id] in footprint && tracks[id].filter in footprint)
      && (forall id :: id in tracks ==> tracks[id].id == id && tracks[id].Valid() && views[id] == tracks[id].View())
      && (forall i, j :: i in tracks && j in tracks && i != j ==>
            tracks[i] != tracks[j] && tracks[i].filter != tracks[j].filter)
    }

    ghost function View(): FM.EngineView
      reads this
    {
      FM.EngineView(views, nextTrackID)
    }

    constructor (azimuth: (real, real) -> real)
      ensures Valid() && View() == FM.EMPTY && this.azimuth == azimuth
    {
      this.azimuth := azimuth;
      tracks := map[];
      nextTrackID := 1;
      views := map[];
      footprint := {};
    }

    // Only the track filed under id and its entry in views have changed.
    twostate lemma OneTrackChanged(id: string)
      requires old(Valid()) && tracks == old(tracks) && footprint == old(footprint)
      requires id in tracks && tracks[id].Valid()
      requires views == old(views)[id := tracks[id].View()]
      requires forall i :: i in tracks && i != id ==> unchanged(tracks[i]) && unchanged(tracks[i].filter)
      ensures Valid()
    {
      assert forall i :: i in tracks && i != id ==> tracks[i].Valid() && tracks[i].View() == old(tracks[i].View());
    }

    // A new track, sharing nothing with the old ones, is filed under id.
    twostate lemma OneTrackAdded(id: string, new track: Track)
      requires old(Valid()) && tracks == old(tracks)[id := track] && track.Valid() && track.id == id
      requires views == old(views)[id := track.View()] && footprint == old(footprint) + {track, track.filter}
      requires forall i :: i in old(tracks) ==> track != old(tracks)[i] && track.filter != old(tracks)[i].filter
      requires forall i :: i in old(tracks) ==> unchanged(old(tracks)[i]) && unchanged(old(tracks)[i].filter)
      ensures Valid()
    {
      assert forall i :: i in old(tracks) && i != id ==>
               tracks[i] == old(tracks)[i] && tracks[i].Valid() && tracks[i].View() == old(tracks[i].View());
    }

    method UpdateTrack(id: string, sensor: FM.Sensor, det: FM.Detection, now: int)
      requires Valid() && id in tracks
      modifies this`views, tracks[id], tracks[id].filter
      ensures Valid() && views == old(views)[id := FM.Observe(old(views)[id], sensor, det, now)]
    {
      tracks[id].Observe(sensor, det, now);
      views := views[id := tracks[id].View()];
      OneTrackChanged(id);
    }

    method AgeTrack(id: string, now: int) returns (stale: bool)
      requires Valid() && id in tracks
      modifies this`views, tracks[id], tracks[id].filter
      ensures Valid() && views == old(views)[id := FM.Aged(old(views)[id], now)]
      ensures stale == FM.Stale(views[id], now)
    {
      stale := tracks[id].Age(now);
      views := views[id := tracks[id].View()];
      OneTrackChanged(id);
    }

    method CreateTrack(det: FM.Detection, sensor: FM.Sensor, born: int)
      requires Valid()
      modifies this
      ensures Valid() && View() == FM.Create(old(View()), sensor, det, born)
      ensures fresh(footprint - old(footprint))
    {
      var id := TrackIds.TrackID(nextTrackID);
      nextTrackID := nextTrackID + 1;
      var track := new Track(id, sensor, det, born);
      tracks := tracks[id := track];
      views := views[id := track.View()];
      footprint := footprint + {track, track.filter};
      OneTrackAdded(id, track);
    }

    // The tracks in some iteration order, with their azimuths.
    method ListTracks() returns (ids: seq<string>, azimuths: seq<real>)
      requires Valid()
      ensures FM.Lists(ids, views) && azimuths == FM.TrackAzimuths(ids, views, azimuth)
    {
      ids, azimuths := [], [];
      var rest := tracks.Keys;
      while rest != {}
        invariant rest <= tracks.Keys && Distinct(ids)
        invariant forall id :: id in ids <==> id in tracks && id !in rest
        invariant azimuths == FM.TrackAzimuths(ids, views, azimuth)
        decreases rest
      {
        var id :| id in rest;
        rest := rest - {id};
        ids := ids + [id];
        azimuths := azimuths + [azimuth(tracks[id].filter.x.e0, tracks[id].filter.x.e1)];
      }
    }

    method UpdateOne(b: FM.Batch, p: Pair, ghost next: FM.Tracks)
      requires Valid() && FM.PairApplied(b, p, views, next)
      modifies this`views, footprint
      ensures Valid() && views == next
    {
      UpdateTrack(b.ids[p.radarIdx], b.sensor, b.detections[p.visionIdx], b.now);
    }

    method UpdateInTurn(b: FM.Batch, associations: seq<Pair>, ghost stages: seq<FM.Tracks>)
      requires Valid() && associations == b.outcome.associations
      requires FM.Stages(b, stages, |associations|) && stages[0] == views
      modifies this`views, footprint
      ensures Valid() && views == stages[|associations|]
    {
      for a := 0 to |associations|
        invariant Valid() && views == stages[a]
      {
        UpdateOne(b, associations[a], stages[a + 1]);
      }
    }

    method UpdateMatched(b: FM.Batch, associations: seq<Pair>)
      requires Valid() && FM.Fits(b, views) && associations == b.outcome.associations
      modifies this`views, footprint
      ensures Valid() && views == FM.Matched(b, old(views), |associations|)
    {
      ghost var stages := FM.MatchedStages(b, views, |associations|);
      UpdateInTurn(b, associations, stages);
    }

    method CreateUnmatched(b: FM.Batch, unmatchedDet: seq<nat>)
      requires Valid() && FM.UnmatchedFit(b) && unmatchedDet == b.outcome.unmatchedVision
      modifies this
      ensures Valid() && View() == FM.Created(b, old(View()), |unmatchedDet|)
      ensures fresh(footprint - old(footprint))
    {
      ghost var before := View();
      for a := 0 to |unmatchedDet|
        invariant Valid() && View() == FM.Created(b, before, a)
        invariant fresh(footprint - old(footprint))
      {
        ghost var view := View();
        var detIdx := unmatchedDet[a];
        CreateTrack(b.detections[detIdx], b.sensor, b.births[detIdx]);
        assert View() == FM.Creating(b)(a, view);
      }
    }

    // The association step of a batch; the engine is only read.
    method Associate(sensor: FM.Sensor, detections: seq<FM.Detection>, now: int, births: seq<int>, budget: nat)
      returns (b: Option<FM.Batch>, ghost trackIDs: seq<string>)
      requires Valid() && |births| == |detections|
      ensures FM.Lists(trackIDs, views)
      ensures b.Some? ==>
                Solvable(FM.DetectionAzimuths(detections, azimuth), FM.TrackAzimuths(trackIDs, views, azimuth))
      ensures b.None? && budget >= Assignments.Max(|detections|, |trackIDs|) ==>
                !Solvable(FM.DetectionAzimuths(detections, azimuth), FM.TrackAzimuths(trackIDs, views, azimuth))
      ensures b.Some? ==>
                && b.value == FM.Batch(sensor, detections, now, births, trackIDs, b.value.outcome)
                && FM.Admissible(b.value, views, azimuth)
                && FM.BestFor(b.value, views, azimuth)
    {
      var ids, trackAzimuths := ListTracks();
      trackIDs := ids;
      var detAzimuths := FM.DetectionAzimuths(detections, azimuth);
      var outcome := AssociateDetections(detAzimuths, trackAzimuths, budget);
      if outcome.None? { return None, trackIDs; }
      b := Some(FM.Batch(sensor, detections, now, births, ids, outcome.value));
    }

    method ApplyBatch(b: FM.Batch)
      requires Valid() && FM.Fits(b, views)
      modifies this, footprint
      ensures Valid() && View() == FM.AfterBatch(old(View()), b)
      ensures fresh(footprint - old(footprint))
    {
      UpdateMatched(b, b.outcome.associations);
      CreateUnmatched(b, b.outcome.unmatchedVision);
    }

    // None when the association has not returned within the budget of passes:
    // nothing has been touched yet, and the source would hold its lock for good.
    method ProcessDetections(sensor: FM.Sensor, detections: seq<FM.Detection>, now: int, births: seq<int>, budget: nat)
      returns (b: Option<FM.Batch>, ghost trackIDs: seq<string>)
      requires Valid() && |births| == |detections|
      modifies this, footprint
      ensures Valid() && FM.Lists(trackIDs, old(views))
      ensures fresh(footprint - old(footprint))
      ensures b.Some? ==>
                Solvable(FM.DetectionAzimuths(detections, azimuth), FM.TrackAzimuths(trackIDs, old(views), azimuth))
      ensures b.None? && budget >= Assignments.Max(|detections|, |trackIDs|) ==>
                !Solvable(FM.DetectionAzimuths(detections, azimuth), FM.TrackAzimuths(trackIDs, old(views), azimuth))
      ensures b.None? ==> View() == old(View())
      ensures b.Some? ==>
                && b.value == FM.Batch(sensor, detections, now, births, trackIDs, b.value.outcome)
                && FM.Admissible(b.value, old(views), azimuth) && FM.Fits(b.value, old(views))
                && FM.BestFor(b.value, old(views), azimuth)
                && View() == FM.AfterBatch(old(View()), b.value)
    {
      b, trackIDs := Associate(sensor, detections, now, births, budget);
      if b.None? { return; }
      FM.AdmissibleFits(b.value, views, azimuth);
      ApplyBatch(b.value);
    }

    // What the engine currently reports, one object per track in some order.
    method GetObjects(toRoom: (real, real) -> (real, real)) returns (objects: seq<FM.FusedObject>)
      requires Valid()
      ensures |objects| == |views|
      ensures forall id :: id in views ==> FM.Report(views[id], toRoom) in objects
      ensures forall o :: o in objects ==> o.id in views && o == FM.Report(views[o.id], toRoom)
    {
      objects := [];
      var rest := tracks.Keys;
      assert |views| == |views.Keys|;
      while rest != {}
        invariant FM.Reports(views, rest, objects, toRoom)
        decreases rest
      {
        var id :| id in rest;
        FM.ReportOneMore(views, rest, objects, toRoom, id);
        rest := rest - {id};
        var o := tracks[id].Report(toRoom);
        objects := objects + [o];
      }
    }

    // The whole table, aged, with the tracks found stale.
    method AgeAll(now: int) returns (toDelete: set<string>)
      requires Valid()
      modifies this`views, footprint
      ensures Valid() && FM.PartlyAged(old(views), views, {}, toDelete, now)
    {
      ghost var before := views;
      toDelete := {};
      var rest := tracks.Keys;
      while rest != {}
        invariant Valid() && FM.PartlyAged(before, views, rest, toDelete, now)
        decreases rest
      {
        var id :| id in rest;
        FM.AgeOneMore(before, views, rest, toDelete, now, id);
        rest := rest - {id};
        var stale := AgeTrack(id, now);
        if stale {
          toDelete := toDelete + {id};
        }
      }
    }

    method Drop(toDelete: set<string>)
      requires Valid()
      modifies this
      ensures Valid() && View() == old(View()).(tracks := old(views) - toDelete)
    {
      tracks := tracks - toDelete;
      views := views - toDelete;
    }

    // Advance every filter, then drop the stale tracks.
    method PredictAndCleanup(now: int)
      requires Valid()
      modifies this, footprint
      ensures Valid() && View() == old(View()).(tracks := FM.AfterTick(old(views), now))
    {
      var toDelete := AgeAll(now);
      FM.AgedCompletely(old(views), views, toDelete, now);
      Drop(toDelete);
    }
  }
}
