// The engine lists its tracks in map iteration order.  Two listings of the same
// tracks lead to the same decision whether the solver returns, and to batches
// that create the same number of tracks.
module ListingOrder {
  import opened Assignments
  import opened Association
  import opened FusionModel
  import opened MapFold
  import TrackOrder

  ghost predicate SameListing(ids: seq<string>, ids': seq<string>, p: seq<int>) {
    |ids| == |ids'| && Permutation(p, |ids|) && forall j :: 0 <= j < |ids| ==> ids'[j] == ids[p[j]]
  }

  // Where each entry of one listing stands in the other.
  lemma Positions(ids: seq<string>, ids': seq<string>, ts: Tracks) returns (p: seq<int>)
    requires Lists(ids, ts) && Lists(ids', ts)
    ensures PartialAssignment(p, |ids'|, |ids|) && |ids'| <= |ids|
    ensures forall j :: 0 <= j < |ids'| ==> p[j] != -1 && ids'[j] == ids[p[j]]
  {
    p := [];
    for k := 0 to |ids'|
      invariant |p| == k && forall j :: 0 <= j < k ==> 0 <= p[j] < |ids| && ids'[j] == ids[p[j]]
    {
      assert ids'[k] in ts;
      var i :| 0 <= i < |ids| && ids[i] == ids'[k];
      p := p + [i];
    }
    ColsSize(p, |ids'|, |ids|, |ids'|);
    CountFull(p, |ids'|);
    SubsetSize(Cols(p, |ids'|), Indices(|ids|));
  }

  lemma ListingsPermute(ids: seq<string>, ids': seq<string>, ts: Tracks) returns (p: seq<int>)
    requires Lists(ids, ts) && Lists(ids', ts)
    ensures SameListing(ids, ids', p)
  {
    var q := Positions(ids', ids, ts);
    p := Positions(ids, ids', ts);
  }

  lemma AzimuthsPermute(ids: seq<string>, ids': seq<string>, ts: Tracks, azimuth: (real, real) -> real, p: seq<int>)
    requires Lists(ids, ts) && Lists(ids', ts) && SameListing(ids, ids', p)
    ensures TrackAzimuths(ids', ts, azimuth) == TrackOrder.Reorder(TrackAzimuths(ids, ts, azimuth), p)
  {}

  // Whether a batch gets through does not depend on the listing.
  lemma HaltingIgnoresListing(ds: seq<Detection>, ids: seq<string>, ids': seq<string>, ts: Tracks,
                              azimuth: (real, real) -> real)
    requires Lists(ids, ts) && Lists(ids', ts)
    ensures Solvable(DetectionAzimuths(ds, azimuth), TrackAzimuths(ids, ts, azimuth))
       <==> Solvable(DetectionAzimuths(ds, azimuth), TrackAzimuths(ids', ts, azimuth))
  {
    var p := ListingsPermute(ids, ids', ts);
    AzimuthsPermute(ids, ids', ts, azimuth, p);
    TrackOrder.HaltingIgnoresOrder(DetectionAzimuths(ds, azimuth), TrackAzimuths(ids, ts, azimuth), p);
  }

  lemma ComparableReordered(vision: seq<real>, radar: seq<real>, p: seq<int>)
    requires Permutation(p, |radar|) && Comparable(vision, radar)
    ensures Comparable(vision, TrackOrder.Reorder(radar, p))
  {}

  // Nor do the number of associations and their total angle.
  lemma AssociationsIgnoreListing(ts: Tracks, b: Batch, b': Batch, azimuth: (real, real) -> real)
    requires Admissible(b, ts, azimuth) && Admissible(b', ts, azimuth) && b'.detections == b.detections
    requires BestFor(b, ts, azimuth) && BestFor(b', ts, azimuth)
    requires Comparable(DetectionAzimuths(b.detections, azimuth), TrackAzimuths(b.ids, ts, azimuth))
    ensures |b.outcome.associations| == |b'.outcome.associations|
    ensures TotalCost(b.outcome.associations) == TotalCost(b'.outcome.associations)
  {
    var p := ListingsPermute(b.ids, b'.ids, ts);
    var vision, radar := DetectionAzimuths(b.detections, azimuth), TrackAzimuths(b.ids, ts, azimuth);
    AzimuthsPermute(b.ids, b'.ids, ts, azimuth, p);
    ComparableReordered(vision, radar, p);
    TrackOrder.ResultIgnoresOrder(vision, radar, p, b.outcome, b'.outcome);
  }

  // Two best batches that differ in the listing only leave the same counter and
  // the same number of tracks.
  lemma BatchIgnoresListing(e: EngineView, b: Batch, b': Batch, azimuth: (real, real) -> real)
    requires Invariant(e)
    requires Admissible(b, e.tracks, azimuth) && Admissible(b', e.tracks, azimuth)
    requires b' == b.(ids := b'.ids, outcome := b'.outcome)
    requires BestFor(b, e.tracks, azimuth) && BestFor(b', e.tracks, azimuth)
    requires Comparable(DetectionAzimuths(b.detections, azimuth), TrackAzimuths(b.ids, e.tracks, azimuth))
    ensures Fits(b, e.tracks) && Fits(b', e.tracks)
    ensures AfterBatch(e, b').nextTrackID == AfterBatch(e, b).nextTrackID
    ensures |AfterBatch(e, b').tracks| == |AfterBatch(e, b).tracks|
  {
    AssociationsIgnoreListing(e.tracks, b, b', azimuth);
    BatchEffect(e, b, azimuth);
    BatchEffect(e, b', azimuth);
  }
}
