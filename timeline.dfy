/** Layout of the segment list on the 1440-minute day of the timeline, as
    integer minute intervals tagged with the segment id. */
module Timeline {
  import opened Clock
  import opened Schedule

  /** One block of the timeline: minutes [start, end) of the day. */
  datatype Block = Block(segmentId: int, start: int, end: int)

  predicate Covers(b: Block, t: int) {
    b.start <= t < b.end
  }

  /** Reference meaning of a segment on the 24-hour ring: minute t is scheduled
      when it lies in [start, end), or, for an overnight segment, in
      [start, 1440) or [0, end). */
  predicate Occupies(seg: Segment, t: int)
    requires WellFormedSegment(seg)
  {
    var s, e := TimeToMinutes(seg.startTime), TimeToMinutes(seg.endTime);
    if s <= e then s <= t < e else s <= t < TotalMinutes || 0 <= t < e
  }

  /** The blocks one segment contributes (the body of the loop in _renderTimeline). */
  function SegmentBlocks(seg: Segment): (bs: seq<Block>)
    requires WellFormedSegment(seg)
    ensures var s, e := TimeToMinutes(seg.startTime), TimeToMinutes(seg.endTime);
      && |bs| == (if s < e then 1 else if s > e then 2 else 0)
      && (|bs| > 0 ==> bs[0].start == s && bs[|bs| - 1].end == e)
      && (|bs| == 2 ==> bs[0].end == TotalMinutes && bs[1].start == 0)
    ensures forall i :: 0 <= i < |bs| ==>
      bs[i].segmentId == seg.segmentId && 0 <= bs[i].start <= bs[i].end <= TotalMinutes
    ensures forall i, j :: 0 <= i < j < |bs| ==> bs[j].end <= bs[i].start
  {
    var start := TimeToMinutes(seg.startTime);
    var end := TimeToMinutes(seg.endTime);
    if start == 0 && end == 0 then []
    else if start < end then [Block(seg.segmentId, start, end)]
    else if start > end then [Block(seg.segmentId, start, TotalMinutes), Block(seg.segmentId, 0, end)]
    else []
  }

  /** A minute of the day is covered by one of a segment's blocks exactly when
      the segment occupies it. */
  lemma SegmentBlocksCover(seg: Segment, t: int)
    requires WellFormedSegment(seg) && 0 <= t < TotalMinutes
    ensures (exists b :: b in SegmentBlocks(seg) && Covers(b, t)) <==> Occupies(seg, t)
  {
    var bs := SegmentBlocks(seg);
    if Occupies(seg, t) {
      if bs[0].start <= t < bs[0].end {
        assert bs[0] in bs && Covers(bs[0], t);
      } else {
        assert bs[1] in bs && Covers(bs[1], t);
      }
    }
  }

  /** A spare slot is invisible on the timeline. */
  lemma SpareSlotHasNoBlocks(seg: Segment)
    requires IsSpareSlot(seg)
    ensures WellFormedSegment(seg) && SegmentBlocks(seg) == []
  {
    assert WellFormedTime("00:00") && TimeToMinutes("00:00") == 0;
  }

  /** A segment that passes the save validation renders as one block of at
      least 5 minutes, never as an overnight pair. */
  lemma ValidatedSegmentIsOneBlock(seg: Segment)
    requires WellFormedSegment(seg) && PassesValidation(seg)
    ensures |SegmentBlocks(seg)| == 1
    ensures SegmentBlocks(seg)[0].end - SegmentBlocks(seg)[0].start >= MinSlotMinutes
  {
  }

  /** The blocks of the whole list, segment by segment in list order. */
  function Layout(segs: seq<Segment>): (bs: seq<Block>)
    requires AllWellFormed(segs)
    ensures forall i :: 0 <= i < |bs| ==> 0 <= bs[i].start <= bs[i].end <= TotalMinutes
    ensures |bs| <= 2 * |segs|
    decreases |segs|
  {
    if |segs| == 0 then []
    else Layout(segs[..|segs| - 1]) + SegmentBlocks(segs[|segs| - 1])
  }

  /** Laying out two lists one after the other gives their blocks one after the other. */
  lemma {:induction false} LayoutAppend(a: seq<Segment>, b: seq<Segment>)
    requires AllWellFormed(a) && AllWellFormed(b)
    ensures AllWellFormed(a + b) && Layout(a + b) == Layout(a) + Layout(b)
    decreases |b|
  {
    if |b| > 0 {
      var b' := b[..|b| - 1];
      LayoutAppend(a, b');
      assert (a + b)[..|a + b| - 1] == a + b';
      assert (a + b)[|a + b| - 1] == b[|b| - 1];
    } else {
      assert a + b == a;
    }
  }

  /** Removing a spare slot from anywhere in the list leaves the timeline as it was. */
  lemma SpareSlotsInvisible(a: seq<Segment>, spare: Segment, b: seq<Segment>)
    requires AllWellFormed(a) && AllWellFormed(b) && IsSpareSlot(spare)
    ensures AllWellFormed(a + [spare] + b)
    ensures Layout(a + [spare] + b) == Layout(a + b)
  {
    SpareSlotHasNoBlocks(spare);
    var one := [spare];
    assert AllWellFormed(one);
    assert Layout(one) == [] by {
      assert one[..0] == [];
    }
    LayoutAppend(a, one);
    assert Layout(a + one) == Layout(a) by {
      assert Layout(a) + [] == Layout(a);
    }
    LayoutAppend(a + one, b);
    LayoutAppend(a, b);
  }

  /** Some block of bs tagged id covers minute t. */
  predicate CoveredBy(bs: seq<Block>, id: int, t: int) {
    exists b :: b in bs && b.segmentId == id && Covers(b, t)
  }

  /** Some segment of segs with this id occupies minute t. */
  predicate OccupiedBy(segs: seq<Segment>, id: int, t: int)
    requires AllWellFormed(segs)
  {
    exists i :: 0 <= i < |segs| && segs[i].segmentId == id && Occupies(segs[i], t)
  }

  lemma CoveredByAppend(a: seq<Block>, b: seq<Block>, id: int, t: int)
    ensures CoveredBy(a + b, id, t) <==> CoveredBy(a, id, t) || CoveredBy(b, id, t)
  {
    if CoveredBy(a + b, id, t) {
      var x :| x in a + b && x.segmentId == id && Covers(x, t);
      assert x in a || x in b;
    }
    if CoveredBy(a, id, t) {
      var x :| x in a && x.segmentId == id && Covers(x, t);
      assert x in a + b;
    }
    if CoveredBy(b, id, t) {
      var x :| x in b && x.segmentId == id && Covers(x, t);
      assert x in a + b;
    }
  }

  lemma OccupiedBySnoc(segs: seq<Segment>, id: int, t: int)
    requires AllWellFormed(segs) && |segs| > 0
    ensures AllWellFormed(segs[..|segs| - 1])
    ensures OccupiedBy(segs, id, t) <==>
              || OccupiedBy(segs[..|segs| - 1], id, t)
              || (segs[|segs| - 1].segmentId == id && Occupies(segs[|segs| - 1], t))
  {
    var n := |segs| - 1;
    var prefix := segs[..n];
    if OccupiedBy(segs, id, t) {
      var i :| 0 <= i < |segs| && segs[i].segmentId == id && Occupies(segs[i], t);
      if i < n {
        assert prefix[i] == segs[i];
      }
    }
    if OccupiedBy(prefix, id, t) {
      var i :| 0 <= i < |prefix| && prefix[i].segmentId == id && Occupies(prefix[i], t);
      assert segs[i] == prefix[i];
    }
  }

  /** The blocks of one segment cover minute t under tag id exactly when the
      segment has that id and occupies t. */
  lemma SegmentCoveredBy(seg: Segment, id: int, t: int)
    requires WellFormedSegment(seg) && 0 <= t < TotalMinutes
    ensures CoveredBy(SegmentBlocks(seg), id, t) <==> seg.segmentId == id && Occupies(seg, t)
  {
    var bs := SegmentBlocks(seg);
    SegmentBlocksCover(seg, t);
    if CoveredBy(bs, id, t) {
      var x :| x in bs && x.segmentId == id && Covers(x, t);
      var i :| 0 <= i < |bs| && bs[i] == x;
    }
    if seg.segmentId == id && Occupies(seg, t) {
      var x :| x in bs && Covers(x, t);
      var i :| 0 <= i < |bs| && bs[i] == x;
    }
  }

  /** A minute is covered by a block tagged id exactly when some segment with
      that id occupies it: the timeline shows each segment at the minutes it
      schedules, and nowhere else. */
  lemma {:induction false} LayoutCover(segs: seq<Segment>, id: int, t: int)
    requires AllWellFormed(segs) && 0 <= t < TotalMinutes
    ensures CoveredBy(Layout(segs), id, t) <==> OccupiedBy(segs, id, t)
    decreases |segs|
  {
    if |segs| > 0 {
      var n := |segs| - 1;
      OccupiedBySnoc(segs, id, t);
      LayoutCover(segs[..n], id, t);
      SegmentCoveredBy(segs[n], id, t);
      CoveredByAppend(Layout(segs[..n]), SegmentBlocks(segs[n]), id, t);
    }
  }

  /** The two blocks of 22:00 to 02:00 span 1320 to 1440 and 0 to 120. */
  lemma OvernightExample()
    ensures AllWellFormed([Segment(1, "22:00", "02:00", GridFirst, true)])
    ensures Layout([Segment(1, "22:00", "02:00", GridFirst, true)])
         == [Block(1, 1320, 1440), Block(1, 0, 120)]
  {
    var seg := Segment(1, "22:00", "02:00", GridFirst, true);
    assert [seg][..0] == [];
    assert TimeToMinutes("22:00") == 1320 && TimeToMinutes("02:00") == 120;
  }
}
