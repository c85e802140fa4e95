/** Runs of the whole pipeline: drawing and copying on the server, requests,
    comparing and reporting, and updates to one viewer. */
module UpdateRuns {
  import opened Banding
  import opened PixelBuffers
  import opened RegionRects
  import opened RegionCopy
  import opened ShadowCompare
  import opened UpdateMessages
  import opened UpdateTracking
  import opened EncodeManagement
  import opened ViewerSide

  /** The contents of one update tracker. */
  datatype Pending = Pending(changed: seq<Box>, copied: seq<Box>, delta: Point)

  /** The framebuffer, what it showed at the last report, the server's comparing
      tracker with its shadow, and one viewer with what the server keeps for it. */
  datatype System = System(
    fb: Picture, base: Picture, server: Pending, shadow: Picture, firstCompare: bool, enabled: bool,
    client: Pending, requested: seq<Box>, continuous: bool, cuRegion: seq<Box>, view: Picture)

  datatype Event =
    | Draw(area: seq<Box>)
    | Copy(dest: seq<Box>, d: Point, mode: CopyMode)
    | Request(r: Rect, incremental: bool)
    | Continuous(enable: bool, r: Rect)
    | NoCopyRect
    | NoData
    | Idle
    | Blocked
    | Report(filter: bool, copied: seq<Box>, kept: seq<Box>, middle: Pending, mode: CopyMode)
    | NoUpdate
    | Update(req: seq<Box>, uiChanged: seq<Box>, uiCopied: seq<Box>, copies: seq<Rect>, rest: seq<Msg>)

  ghost predicate SamePicture(a: Picture, b: Picture, bounds: Rect) {
    forall x, y :: InBox(bounds, x, y) ==> a(x, y) == b(x, y)
  }

  ghost predicate Truthful(p: Pending, fb: Picture, shadow: Picture, bounds: Rect) {
    Tracks(fb, shadow, p.changed, p.copied, p.delta, bounds)
  }

  ghost predicate Invariant(s: System, bounds: Rect) {
    && Truthful(s.server, s.fb, s.base, bounds)
    && Truthful(s.client, s.base, s.view, bounds)
    && (!s.firstCompare ==> s.enabled && SamePicture(s.shadow, s.base, bounds))
  }

  // -------------------------------------------------------- steps of a tracker

  ghost predicate Recorded(mode: CopyMode, p: Pending, dest: seq<Box>, d: Point, p': Pending) {
    CopyRecorded(mode, p.changed, p.copied, p.delta, dest, d, p'.changed, p'.copied, p'.delta)
  }

  /** add_changed. */
  ghost predicate ChangeAdded(p: Pending, area: seq<Box>, p': Pending) {
    && p'.copied == p.copied && p'.delta == p.delta
    && forall x, y :: Covered(p'.changed, x, y) <==> Covered(p.changed, x, y) || Covered(area, x, y)
  }

  /** getUpdateInfo's part on the tracker: what changed is no longer copied. */
  ghost predicate CopiedLess(p: Pending, p': Pending) {
    && p'.changed == p.changed && p'.delta == p.delta
    && forall x, y {:trigger Covered(p'.copied, x, y)} ::
         Covered(p'.copied, x, y) <==> Covered(p.copied, x, y) && !Covered(p.changed, x, y)
  }

  /** What getUpdateInfo reports as changed. */
  ghost predicate ChangedWithin(p: Pending, clip: seq<Box>, uiChanged: seq<Box>) {
    forall x, y {:trigger Covered(uiChanged, x, y)} ::
      Covered(uiChanged, x, y) <==> Covered(p.changed, x, y) && Covered(clip, x, y)
  }

  /** What getUpdateInfo reports as copied. */
  ghost predicate CopiedWithin(p: Pending, clip: seq<Box>, uiCopied: seq<Box>) {
    forall x, y {:trigger Covered(uiCopied, x, y)} ::
      Covered(uiCopied, x, y) <==> Covered(p.copied, x, y) && !Covered(p.changed, x, y) && Covered(clip, x, y)
  }

  ghost predicate Cleared(p: Pending) {
    p.changed == [] && p.copied == []
  }

  // --------------------------------------------------------- steps of a system

  /** The application draws; nothing outside the reported area changes. */
  ghost predicate Draws(s: System, area: seq<Box>, s': System, bounds: Rect) {
    && s' == s.(fb := s'.fb, server := s'.server)
    && (forall x, y :: InBox(bounds, x, y) && !Covered(area, x, y) ==> s'.fb(x, y) == s.fb(x, y))
    && ChangeAdded(s.server, area, s'.server)
  }

  /** The application moves an area of the screen and reports the move. */
  ghost predicate Copies(s: System, dest: seq<Box>, d: Point, mode: CopyMode, s': System, bounds: Rect) {
    && s' == s.(fb := s'.fb, server := s'.server)
    && InBuffer(dest, d, bounds)
    && (forall x, y :: InBox(bounds, x, y) ==> s'.fb(x, y) == MovedRegion(s.fb, dest, d, x, y))
    && Recorded(mode, s.server, dest, d, s'.server)
  }

  /** framebufferUpdateRequest: the rectangle is taken as it comes. */
  ghost predicate Requests(s: System, r: Rect, incremental: bool, s': System) {
    && s' == s.(server := s'.server, client := s'.client, requested := s'.requested)
    && (if incremental && s.continuous then s'.requested == s.requested
        else forall x, y :: Covered(s'.requested, x, y) <==> Covered(s.requested, x, y) || InBox(r, x, y))
    && (if incremental then s'.server == s.server && s'.client == s.client
        else ChangeAdded(s.server, [r], s'.server) && ChangeAdded(s.client, [r], s'.client))
  }

  /** enableContinuousUpdates. */
  ghost predicate Switches(s: System, enable: bool, r: Rect, s': System) {
    && s' == s.(continuous := enable, cuRegion := s'.cuRegion, requested := if enable then [] else s.requested)
    && forall x, y :: Covered(s'.cuRegion, x, y) <==> InBox(r, x, y)
  }

  /** enable_copyrect for a viewer that knows no copies. */
  ghost predicate DropsCopies(s: System, s': System) {
    && s' == s.(client := s'.client)
    && s'.client.copied == [] && s'.client.delta == s.client.delta
    && forall x, y :: Covered(s'.client.changed, x, y) <==>
         Covered(s.client.changed, x, y) || Covered(s.client.copied, x, y)
  }

  /** Messages without pixels count as the answer to what was asked for. */
  ghost predicate Answers(s: System, s': System) {
    && (s.requested != [] || s.continuous)
    && s' == s.(requested := [])
  }

  /** checkUpdate with nothing inside the framebuffer to report. */
  ghost predicate Idles(s: System, s': System, bounds: Rect) {
    && s' == s.(base := s.fb, server := s'.server)
    && CopiedLess(s.server, s'.server)
    && NothingInside(s'.server, bounds)
  }

  ghost predicate NothingInside(p: Pending, bounds: Rect) {
    forall x, y :: InBox(bounds, x, y) ==> !Covered(p.changed, x, y) && !Covered(p.copied, x, y)
  }

  /** checkUpdate while updates are blocked or deferred. */
  ghost predicate Waits(s: System, s': System) {
    s' == s.(server := s'.server) && CopiedLess(s.server, s'.server)
  }

  /** checkUpdate: switch the comparer on or off, compare, pass what lies inside
      the framebuffer on to the viewer's tracker, start afresh. */
  ghost predicate Reports(s: System, filter: bool, copied: seq<Box>, kept: seq<Box>, middle: Pending, mode: CopyMode,
                          s': System, bounds: Rect)
  {
    && s' == s.(base := s.fb, server := s'.server, shadow := s'.shadow, firstCompare := !filter, enabled := filter,
                client := s'.client)
    && CopiedWithin(s.server, [bounds], copied)
    && Compares(s.server, s.firstCompare, s.shadow, s.fb, filter, copied, kept, s'.shadow, bounds)
    && Recorded(mode, s.client, copied, s.server.delta, middle)
    && ChangeAdded(middle, kept, s'.client)
    && Cleared(s'.server)
  }

  /** What compare() does in each of its three situations, and what lies inside of
      the changes it keeps. */
  ghost predicate Compares(p: Pending, first: bool, shadow: Picture, fb: Picture, filter: bool, copied: seq<Box>,
                           kept: seq<Box>, shadow': Picture, bounds: Rect)
  {
    if !filter then
      ChangedWithin(p, [bounds], kept) && shadow' == shadow
    else if first then
      ChangedWithin(p, [bounds], kept) && SamePicture(shadow', fb, bounds)
    else
      var shifted := CopiedPicture(shadow, bounds, copied, p.delta);
      && Filtered(shifted, fb, p.changed, bounds, kept)
      && forall x, y :: shadow'(x, y) == RefreshedAll(shifted, fb, p.changed, bounds, x, y)
  }

  /** The area an update may be sent for. */
  ghost predicate Asked(s: System, req: seq<Box>) {
    && (s.requested != [] || s.continuous)
    && forall x, y :: Covered(req, x, y) <==> Covered(s.requested, x, y) || (s.continuous && Covered(s.cuRegion, x, y))
  }

  /** Nothing asked for is pending: getUpdateInfo is all that happens. */
  ghost predicate SendsNothing(s: System, s': System) {
    s' == s.(client := s'.client) && CopiedLess(s.client, s'.client)
  }

  /** writeFramebufferUpdate right after checkUpdate, played by the viewer. */
  ghost predicate Sends(s: System, req: seq<Box>, uiChanged: seq<Box>, uiCopied: seq<Box>, copies: seq<Rect>,
                        rest: seq<Msg>, s': System, bounds: Rect)
  {
    && s' == s.(client := s'.client, requested := [], view := s'.view)
    && SamePicture(s.base, s.fb, bounds) && Asked(s, req)
    && ChangedWithin(s.client, req, uiChanged) && CopiedWithin(s.client, req, uiCopied)
    && InsideBuffer(uiChanged, bounds) && Banded(uiCopied)
    && Enumerates(copies, copies, uiCopied, s.client.delta.x <= 0, s.client.delta.y <= 0, 0)
    && Sent(rest, s.fb, uiChanged)
    && AllWellFormed(CopyMsgs(copies, s.client.delta) + rest)
    && (forall x, y :: InBox(bounds, x, y) ==>
        s'.view(x, y) == Play(s.view, CopyMsgs(copies, s.client.delta) + rest)(x, y))
    && Cleared(s'.client)
  }

  ghost predicate Step(s: System, e: Event, s': System, bounds: Rect) {
    match e
    case Draw(area) => Draws(s, area, s', bounds)
    case Copy(dest, d, mode) => Copies(s, dest, d, mode, s', bounds)
    case Request(r, incremental) => Requests(s, r, incremental, s')
    case Continuous(enable, r) => Switches(s, enable, r, s')
    case NoCopyRect => DropsCopies(s, s')
    case NoData => Answers(s, s')
    case Idle => Idles(s, s', bounds)
    case Blocked => Waits(s, s')
    case Report(filter, copied, kept, middle, mode) => Reports(s, filter, copied, kept, middle, mode, s', bounds)
    case NoUpdate => SendsNothing(s, s')
    case Update(req, uiChanged, uiCopied, copies, rest) => Sends(s, req, uiChanged, uiCopied, copies, rest, s', bounds)
  }

  // ----------------------------------------------------- trackers stay truthful

  lemma DrawTracks(p: Pending, fb: Picture, fb': Picture, shadow: Picture, area: seq<Box>, p': Pending, bounds: Rect)
    requires Truthful(p, fb, shadow, bounds) && ChangeAdded(p, area, p')
    requires forall x, y :: InBox(bounds, x, y) && !Covered(area, x, y) ==> fb'(x, y) == fb(x, y)
    ensures Truthful(p', fb', shadow, bounds)
  {
    hide Covered;
  }

  /** Dropping from `copied` what changed anyway loses nothing. */
  lemma LessTracks(p: Pending, fb: Picture, shadow: Picture, p': Pending, bounds: Rect)
    requires Truthful(p, fb, shadow, bounds) && CopiedLess(p, p')
    ensures Truthful(p', fb, shadow, bounds)
  {
    hide Covered;
  }

  lemma DropTracks(s: System, s': System, bounds: Rect)
    requires Truthful(s.client, s.base, s.view, bounds) && DropsCopies(s, s')
    ensures Truthful(s'.client, s.base, s.view, bounds)
  {
  }

  lemma InBounds(bounds: Rect)
    ensures forall x, y :: Covered([bounds], x, y) <==> InBox(bounds, x, y)
  {
    PartitionOne(bounds);
  }

  /** With nothing pending inside, the framebuffer is what it was. */
  lemma IdleTracks(s: System, s': System, bounds: Rect)
    requires Invariant(s, bounds) && Idles(s, s', bounds)
    ensures SamePicture(s.fb, s.base, bounds) && Truthful(s'.server, s.fb, s.fb, bounds)
  {
    LessTracks(s.server, s.fb, s.base, s'.server, bounds);
    hide Covered;
  }

  /** Comparing makes the report smaller but keeps it truthful. */
  lemma CompareTracks(s: System, filter: bool, copied: seq<Box>, kept: seq<Box>, s': System, bounds: Rect)
    requires Invariant(s, bounds) && CopiedWithin(s.server, [bounds], copied)
    requires Compares(s.server, s.firstCompare, s.shadow, s.fb, filter, copied, kept, s'.shadow, bounds)
    ensures Tracks(s.fb, s.base, kept, copied, s.server.delta, bounds)
    ensures InsideBuffer(kept, bounds) && forall x, y :: Covered(kept, x, y) ==> Covered(s.server.changed, x, y)
    ensures filter ==> SamePicture(s'.shadow, s.fb, bounds)
  {
    InBounds(bounds);
    if filter && !s.firstCompare {
      forall x, y ensures Covered(kept, x, y) ==> Covered(s.server.changed, x, y) && InBox(bounds, x, y) {
        FilteredBetween(CopiedPicture(s.shadow, bounds, copied, s.server.delta), s.fb, s.server.changed, bounds, kept,
                        x, y);
      }
      forall x, y | InBox(bounds, x, y)
        ensures s'.shadow(x, y) == s.fb(x, y)
        ensures !Covered(kept, x, y) ==> s.fb(x, y) == MovedRegion(s.base, copied, s.server.delta, x, y)
      {
        ComparedAt(s, copied, kept, s', bounds, x, y);
      }
    }
  }

  lemma ComparedAt(s: System, copied: seq<Box>, kept: seq<Box>, s': System, bounds: Rect, x: int, y: int)
    requires Truthful(s.server, s.fb, s.base, bounds) && CopiedWithin(s.server, [bounds], copied)
    requires SamePicture(s.shadow, s.base, bounds) && !s.firstCompare && InBox(bounds, x, y)
    requires Compares(s.server, s.firstCompare, s.shadow, s.fb, true, copied, kept, s'.shadow, bounds)
    ensures s'.shadow(x, y) == s.fb(x, y)
    ensures !Covered(kept, x, y) ==> s.fb(x, y) == MovedRegion(s.base, copied, s.server.delta, x, y)
  {
    InBounds(bounds);
    var shifted := CopiedPicture(s.shadow, bounds, copied, s.server.delta);
    FilteredBetween(shifted, s.fb, s.server.changed, bounds, kept, x, y);
    hide Filtered, Covered;
    assert shifted(x, y) == MovedRegion(s.base, copied, s.server.delta, x, y);
  }

  /** The report, replayed on the viewer's tracker: a move and then a drawing. */
  lemma ReportTracks(s: System, copied: seq<Box>, kept: seq<Box>, middle: Pending, mode: CopyMode, client': Pending,
                     bounds: Rect)
    requires Truthful(s.client, s.base, s.view, bounds)
    requires Tracks(s.fb, s.base, kept, copied, s.server.delta, bounds)
    requires Recorded(mode, s.client, copied, s.server.delta, middle)
    requires ChangeAdded(middle, kept, client')
    ensures Truthful(client', s.fb, s.view, bounds)
  {
    var moved: Picture := MovedPicture(s.base, copied, s.server.delta);
    CopyTracks(s.base, moved, s.view, mode, s.client.changed, s.client.copied, s.client.delta, copied, s.server.delta,
               middle.changed, middle.copied, middle.delta, bounds);
    hide Recorded, Covered;
    DrawTracks(middle, moved, s.fb, s.view, kept, client', bounds);
  }

  lemma TracksSame(p: Pending, fb: Picture, fb': Picture, shadow: Picture, bounds: Rect)
    requires Truthful(p, fb, shadow, bounds) && SamePicture(fb, fb', bounds)
    ensures Truthful(p, fb', shadow, bounds)
  {
    hide Covered;
  }

  /** An update brings the viewer, in the area asked for, to what the server shows. */
  lemma UpdateBringsUpToDate(s: System, e: Event, s': System, bounds: Rect)
    requires Truthful(s.client, s.base, s.view, bounds) && e.Update? && Step(s, e, s', bounds)
    ensures forall x, y :: InBox(bounds, x, y) ==> s'.view(x, y) == UpdatedIn(s.view, s.fb, e.req, x, y)
  {
    hide Covered, Sent, Enumerates, Banded;
    TracksSame(s.client, s.base, s.fb, s.view, bounds);
    UpdateForArea(s.view, s.fb, s.client.changed, s.client.copied, s.client.delta, bounds, e.req, e.uiChanged,
                  e.uiCopied, e.copies, e.rest);
  }

  /** Nothing is pending for the viewer outside the area an update is sent for. */
  ghost predicate NothingMissed(s: System, e: Event, bounds: Rect) {
    e.Update? ==> AllRequested(e.req, s.client.changed, s.client.copied, s.client.delta, bounds)
  }

  /** After such an update the viewer's whole screen is up to date. */
  lemma UpdateComplete(s: System, e: Event, s': System, bounds: Rect)
    requires Truthful(s.client, s.base, s.view, bounds) && e.Update? && Step(s, e, s', bounds)
    requires NothingMissed(s, e, bounds)
    ensures SamePicture(s'.view, s'.fb, bounds)
  {
    hide Covered, Sent, Enumerates, Banded;
    UpdateBringsUpToDate(s, e, s', bounds);
    TracksSame(s.client, s.base, s.fb, s.view, bounds);
    AllRequestedSuffices(e.req, s.client.changed, s.client.copied, s.client.delta, bounds, s.fb, s.view);
  }

  lemma ClearedTracks(p: Pending, fb: Picture, shadow: Picture, bounds: Rect)
    requires Cleared(p) && SamePicture(fb, shadow, bounds)
    ensures Truthful(p, fb, shadow, bounds)
  {
  }

  lemma StepKeepsInvariant(s: System, e: Event, s': System, bounds: Rect)
    requires Invariant(s, bounds) && Step(s, e, s', bounds) && NothingMissed(s, e, bounds)
    ensures Invariant(s', bounds)
  {
    hide Covered, Recorded, ChangeAdded, CopiedLess, Compares, Truthful, CopiedWithin, ChangedWithin, InBuffer, Sent;
    hide Enumerates;
    match e
    case Draw(area) =>
      DrawTracks(s.server, s.fb, s'.fb, s.base, area, s'.server, bounds);
    case Copy(dest, d, mode) =>
      CopyKeeps(s, e, s', bounds);
    case Request(r, incremental) =>
      if !incremental {
        DrawTracks(s.server, s.fb, s.fb, s.base, [r], s'.server, bounds);
        DrawTracks(s.client, s.base, s.base, s.view, [r], s'.client, bounds);
      }
    case Continuous(enable, r) =>
    case NoCopyRect =>
      DropTracks(s, s', bounds);
    case NoData =>
    case Idle =>
      IdleTracks(s, s', bounds);
      TracksSame(s.client, s.base, s.fb, s.view, bounds);
    case Blocked =>
      LessTracks(s.server, s.fb, s.base, s'.server, bounds);
    case Report(filter, copied, kept, middle, mode) =>
      CompareTracks(s, filter, copied, kept, s', bounds);
      ReportTracks(s, copied, kept, middle, mode, s'.client, bounds);
      ClearedTracks(s'.server, s.fb, s.fb, bounds);
    case NoUpdate =>
      LessTracks(s.client, s.base, s.view, s'.client, bounds);
    case Update(req, uiChanged, uiCopied, copies, rest) =>
      UpdateComplete(s, e, s', bounds);
      ClearedTracks(s'.client, s.base, s'.view, bounds);
  }

  lemma CopyKeeps(s: System, e: Event, s': System, bounds: Rect)
    requires Truthful(s.server, s.fb, s.base, bounds) && e.Copy? && Step(s, e, s', bounds)
    ensures Truthful(s'.server, s'.fb, s'.base, bounds)
  {
    CopyTracks(s.fb, s'.fb, s.base, e.mode, s.server.changed, s.server.copied, s.server.delta, e.dest, e.d,
               s'.server.changed, s'.server.copied, s'.server.delta, bounds);
  }

  // -------------------------------------------------- what is pending lies inside

  /** Everything pending for the viewer lies in the framebuffer. */
  ghost predicate Inside(s: System, bounds: Rect) {
    InsideBuffer(s.client.changed, bounds)
  }

  /** So do copies, with their sources. */
  ghost predicate CopiesInside(s: System, bounds: Rect) {
    InBuffer(s.server.copied, s.server.delta, bounds) && InBuffer(s.client.copied, s.client.delta, bounds)
  }

  /** What compare() keeps lies in the framebuffer. */
  lemma KeptInside(p: Pending, first: bool, shadow: Picture, fb: Picture, filter: bool, copied: seq<Box>,
                   kept: seq<Box>, shadow': Picture, bounds: Rect)
    requires Compares(p, first, shadow, fb, filter, copied, kept, shadow', bounds)
    ensures InsideBuffer(kept, bounds)
  {
    InBounds(bounds);
    if filter && !first {
      forall x, y | Covered(kept, x, y) ensures InBox(bounds, x, y) {
        FilteredBetween(CopiedPicture(shadow, bounds, copied, p.delta), fb, p.changed, bounds, kept, x, y);
      }
    }
  }

  /** add_copied of a copy inside leaves a copy inside. */
  lemma RecordedInside(mode: CopyMode, p: Pending, dest: seq<Box>, d: Point, p': Pending, bounds: Rect)
    requires Recorded(mode, p, dest, d, p') && InBuffer(p.copied, p.delta, bounds) && InBuffer(dest, d, bounds)
    ensures InBuffer(p'.copied, p'.delta, bounds)
    ensures forall x, y :: Covered(p'.changed, x, y) ==> Covered(p.changed, x, y) || InBox(bounds, x, y)
  {
    hide Covered;
    forall x, y | Covered(p'.copied, x, y)
      ensures InBox(bounds, x, y) && InBox(bounds, x - p'.delta.x, y - p'.delta.y)
    {
      assert CopiedAfter(mode, p.copied, dest, d, x, y);
    }
    forall x, y | Covered(p'.changed, x, y) ensures Covered(p.changed, x, y) || InBox(bounds, x, y) {
      assert ChangedAfter(mode, p.changed, p.copied, dest, d, x, y);
    }
  }

  lemma ReportCopiesInside(s: System, e: Event, s': System, bounds: Rect)
    requires CopiesInside(s, bounds) && e.Report? && Step(s, e, s', bounds)
    ensures CopiesInside(s', bounds)
    ensures forall x, y :: Covered(s'.client.changed, x, y) ==> Covered(s.client.changed, x, y) || InBox(bounds, x, y)
  {
    KeptInside(s.server, s.firstCompare, s.shadow, s.fb, e.filter, e.copied, e.kept, s'.shadow, bounds);
    NoPoints();
    hide Covered, Recorded, Compares;
    RecordedInside(e.mode, s.client, e.copied, s.server.delta, e.middle, bounds);
  }

  lemma StepKeepsCopiesInside(s: System, e: Event, s': System, bounds: Rect)
    requires CopiesInside(s, bounds) && Step(s, e, s', bounds)
    ensures CopiesInside(s', bounds)
  {
    NoPoints();
    if e.Report? {
      ReportCopiesInside(s, e, s', bounds);
    } else if e.Copy? {
      RecordedInside(e.mode, s.server, e.dest, e.d, s'.server, bounds);
    } else {
      hide Covered, Compares, Sent, Enumerates, Recorded;
    }
  }

  /** The test of framebufferUpdateRequest, or nothing is added for it. */
  predicate Harmless(r: Rect, incremental: bool, bounds: Rect) {
    incremental || EnclosedBy(r, bounds) || IsEmpty(r)
  }

  /** A request leaves what is pending inside the framebuffer exactly if it is
      incremental or passes the test that the code makes and then ignores. */
  lemma RequestInsideIff(s: System, r: Rect, incremental: bool, s': System, bounds: Rect)
    requires Inside(s, bounds) && Requests(s, r, incremental, s')
    ensures Inside(s', bounds) <==> Harmless(r, incremental, bounds)
  {
    PartitionOne(r);
    hide Covered;
    if !Harmless(r, incremental, bounds) {
      var x := if r.x1 < bounds.x1 then r.x1 else if r.x2 > bounds.x2 then r.x2 - 1 else r.x1;
      var y := if r.y1 < bounds.y1 then r.y1 else if r.y2 > bounds.y2 then r.y2 - 1 else r.y1;
      assert InBox(r, x, y) && !InBox(bounds, x, y);
      assert Covered(s'.client.changed, x, y);
    }
  }

  lemma StepKeepsInside(s: System, e: Event, s': System, bounds: Rect)
    requires CopiesInside(s, bounds) && Step(s, e, s', bounds) && Inside(s, bounds)
    requires e.Request? ==> Harmless(e.r, e.incremental, bounds)
    ensures Inside(s', bounds)
  {
    if e.Request? {
      RequestInsideIff(s, e.r, e.incremental, s', bounds);
    } else if e.Report? {
      ReportCopiesInside(s, e, s', bounds);
    } else if e.NoCopyRect? {
      assert InBuffer(s.client.copied, s.client.delta, bounds);
    }
  }

  /** Two pixels by two, and a request for three by two: what is sent for it
      leaves the framebuffer. */
  lemma OutsideRequest(bounds: Rect, r: Rect) returns (s: System, s': System)
    requires bounds == Box(0, 0, 2, 2) && r == Box(0, 0, 3, 2)
    ensures Initial(s, bounds) && Inside(s, bounds) && Step(s, Request(r, false), s', bounds)
    ensures forall req, uiChanged :: Asked(s', req) && ChangedWithin(s'.client, req, uiChanged) ==>
              Covered(uiChanged, 2, 0) && !InsideBuffer(uiChanged, bounds)
  {
    var img: Picture := (x, y) => [];
    var all, none := Pending([bounds], [], Point(0, 0)), Pending([], [], Point(0, 0));
    s := System(img, img, none, img, true, true, all, [], false, [], img);
    s' := s.(server := Pending([r], [], Point(0, 0)), client := Pending([bounds, r], [], Point(0, 0)),
             requested := [r]);
    PartitionOne(bounds);
    PartitionOne(r);
    AddCovered([bounds], r);
    assert [bounds] + [r] == [bounds, r];
    NoPoints();
    assert InBox(r, 2, 0) && !InBox(bounds, 2, 0);
    hide Covered;
    forall req, uiChanged | Asked(s', req) && ChangedWithin(s'.client, req, uiChanged)
      ensures Covered(uiChanged, 2, 0)
    {
      assert Covered(s'.requested, 2, 0) && Covered(s'.client.changed, 2, 0);
    }
  }

  // -------------------------------------------------------------------- runs

  ghost predicate Run(states: seq<System>, events: seq<Event>, bounds: Rect) {
    && |states| == |events| + 1
    && forall i :: 0 <= i < |events| ==> Step(states[i], events[i], states[i + 1], bounds)
  }

  /** Nothing reported yet; the viewer's whole screen still has to be sent. */
  ghost predicate Initial(s: System, bounds: Rect) {
    && s.base == s.fb && s.firstCompare
    && s.server.copied == [] && s.client.copied == []
    && s.requested == [] && !s.continuous
    && forall x, y :: Covered(s.client.changed, x, y) <==> InBox(bounds, x, y)
  }

  lemma {:induction false} RunInvariant(states: seq<System>, events: seq<Event>, bounds: Rect, i: nat)
    requires Run(states, events, bounds) && Initial(states[0], bounds) && i < |states|
    requires forall j :: 0 <= j < i ==> NothingMissed(states[j], events[j], bounds)
    ensures Invariant(states[i], bounds)
  {
    if i > 0 {
      hide Step, NothingMissed;
      RunInvariant(states, events, bounds, i - 1);
      StepKeepsInvariant(states[i - 1], events[i - 1], states[i], bounds);
    }
  }

  // ------------------------------------------------- requests and their answers

  function Answered(events: seq<Event>): nat {
    if events == [] then 0
    else
      var last := events[|events| - 1];
      Answered(events[..|events| - 1]) + if last.Update? || last.NoData? then 1 else 0
  }

  function AskedFor(events: seq<Event>): nat {
    if events == [] then 0
    else AskedFor(events[..|events| - 1]) + if events[|events| - 1].Request? then 1 else 0
  }

  /** Without continuous updates every answer takes a request of its own: a viewer
      never gets more updates than it asked for, and one fewer while a request is open. */
  lemma {:induction false} NoMoreThanAskedFor(states: seq<System>, events: seq<Event>, bounds: Rect)
    requires Run(states, events, bounds) && states[0].requested == [] && !states[0].continuous
    requires forall i :: 0 <= i < |events| && events[i].Continuous? ==> !events[i].enable
    ensures Answered(events) + (if states[|events|].requested == [] then 0 else 1) <= AskedFor(events)
    ensures !states[|events|].continuous
  {
    if events != [] {
      var n := |events| - 1;
      FirstSteps(states, events, bounds);
      NoMoreThanAskedFor(states[..n + 1], events[..n], bounds);
      AnsweredOnce(states[n], events[n], states[n + 1], bounds);
    }
  }

  lemma FirstSteps(states: seq<System>, events: seq<Event>, bounds: Rect)
    requires Run(states, events, bounds) && events != []
    ensures Run(states[..|events|], events[..|events| - 1], bounds)
    ensures Step(states[|events| - 1], events[|events| - 1], states[|events|], bounds)
  {
    hide Step;
  }

  /** An answer needs something asked for and leaves nothing; only a request opens one. */
  lemma AnsweredOnce(s: System, e: Event, s': System, bounds: Rect)
    requires Step(s, e, s', bounds) && !s.continuous && (e.Continuous? ==> !e.enable)
    ensures !s'.continuous
    ensures if e.Update? || e.NoData? then s.requested != [] && s'.requested == []
            else e.Request? || s'.requested == s.requested
  {
    hide Covered, Sent, Enumerates, AllWellFormed, Play;
  }

  /** A viewer that asks for half of its screen only: the update for it empties the
      tracker, and the other half is never sent. */
  lemma PartialRequestLoses(bounds: Rect, half: Rect)
    returns (states: seq<System>, events: seq<Event>)
    requires bounds == Box(0, 0, 2, 1) && half == Box(0, 0, 1, 1)
    ensures Run(states, events, bounds) && Initial(states[0], bounds)
    ensures events == [Request(half, true), Update([half], [half], [], [], [SolidMsg(half, [1])])]
    ensures Cleared(states[2].client) && states[2].view(1, 0) != states[2].fb(1, 0)
  {
    var before: Picture := (x, y) => [];
    var after: Picture := (x, y) => [1];
    var shown: Picture := (x, y) => if InBox(half, x, y) then [1] else [];
    var all, none := Pending([bounds], [], Point(0, 0)), Pending([], [], Point(0, 0));
    var s := System(after, after, none, after, true, true, all, [], false, [], before);
    var asked := s.(requested := [half]);
    var done := asked.(client := none, requested := [], view := shown);
    var sent := [SolidMsg(half, [1])];
    states, events := [s, asked, done], [Request(half, true), Update([half], [half], [], [], sent)];
    PartitionOne(bounds);
    PartitionOne(half);
    NoPoints();
    hide Covered, Sends, Play;
    HalfSent(asked, half, [1], done, bounds);
    assert Requests(s, half, true, asked);
    hide Step;
    TwoSteps(s, events[0], asked, events[1], done, bounds);
  }

  /** The viewer's first update, when it asked for `half` only and that has one colour. */
  lemma HalfSent(s: System, half: Rect, colour: Pixel, s': System, bounds: Rect)
    requires s.base == s.fb && s.requested == [half] && !s.continuous && NonEmptyBox(half)
    requires s.client == Pending([bounds], [], Point(0, 0)) && EnclosedBy(half, bounds)
    requires forall x, y :: InBox(half, x, y) ==> s.fb(x, y) == colour
    requires s' == s.(client := Pending([], [], Point(0, 0)), requested := [], view := s'.view)
    requires forall x, y :: s'.view(x, y) == if InBox(half, x, y) then colour else s.view(x, y)
    ensures Sends(s, [half], [half], [], [], [SolidMsg(half, colour)], s', bounds)
  {
    OneSolid(s.view, s.fb, half, colour);
    NothingEnumerated(true, true, 0);
    PartitionOne(bounds);
    PartitionOne(half);
    NoPoints();
    hide Covered, Sent, Enumerates, AllWellFormed, Play;
  }

  lemma TwoSteps(s: System, e: Event, s1: System, e1: Event, s2: System, bounds: Rect)
    requires Step(s, e, s1, bounds) && Step(s1, e1, s2, bounds)
    ensures Run([s, s1, s2], [e, e1], bounds)
  {
    hide Step;
  }

  /** One solid rectangle sent and played. */
  lemma OneSolid(before: Picture, fb: Picture, r: Rect, colour: Pixel)
    requires NonEmptyBox(r) && forall x, y :: InBox(r, x, y) ==> fb(x, y) == colour
    ensures var sent := [SolidMsg(r, colour)];
      && CopyMsgs([], Point(0, 0)) + sent == sent && AllWellFormed(sent) && Sent(sent, fb, [r])
      && forall x, y :: Play(before, sent)(x, y) == if InBox(r, x, y) then colour else before(x, y)
  {
    var sent := [SolidMsg(r, colour)];
    assert Rects(sent) == [r];
    PartitionOne(r);
    assert AllDeliver(sent, fb);
    hide Covered;
    forall x, y ensures Play(before, sent)(x, y) == if InBox(r, x, y) then colour else before(x, y) {
      PlayDelivered(before, sent, fb, x, y);
    }
  }

  /** In every run in which no earlier update was sent while something was pending
      elsewhere, an update leaves the viewer equal to the framebuffer in the area
      asked for, whatever was drawn, moved, filtered or switched before. */
  lemma ViewerCorrect(states: seq<System>, events: seq<Event>, bounds: Rect, i: nat)
    requires Run(states, events, bounds) && Initial(states[0], bounds)
    requires i < |events| && events[i].Update?
    requires forall j :: 0 <= j < i ==> NothingMissed(states[j], events[j], bounds)
    ensures forall x, y :: InBox(bounds, x, y) && Covered(events[i].req, x, y) ==>
              states[i + 1].view(x, y) == states[i + 1].fb(x, y)
    ensures NothingMissed(states[i], events[i], bounds) ==> SamePicture(states[i + 1].view, states[i + 1].fb, bounds)
  {
    RunInvariant(states, events, bounds, i);
    assert Step(states[i], events[i], states[i + 1], bounds);
    UpdateBringsUpToDate(states[i], events[i], states[i + 1], bounds);
    hide Covered, Sent, Enumerates;
    if NothingMissed(states[i], events[i], bounds) {
      UpdateComplete(states[i], events[i], states[i + 1], bounds);
    }
  }

  /** Where the viewer's requests stay inside the framebuffer, everything that
      can be sent does too, so that an update is always possible. */
  lemma {:induction false} PendingInside(states: seq<System>, events: seq<Event>, bounds: Rect, i: nat)
    requires Run(states, events, bounds) && Initial(states[0], bounds) && i < |states|
    requires forall j :: 0 <= j < i && events[j].Request? ==> Harmless(events[j].r, events[j].incremental, bounds)
    ensures Inside(states[i], bounds) && CopiesInside(states[i], bounds)
  {
    if i > 0 {
      hide Step, Harmless, Inside, CopiesInside;
      PendingInside(states, events, bounds, i - 1);
      StepKeepsInside(states[i - 1], events[i - 1], states[i], bounds);
      StepKeepsCopiesInside(states[i - 1], events[i - 1], states[i], bounds);
    } else {
      NoPoints();
      hide Covered;
    }
  }

  // ------------------------------------------------------ whole-screen requests

  /** The viewer asks for its whole screen, as CConn does. */
  predicate WholeScreen(e: Event, bounds: Rect) {
    && (e.Request? ==> EnclosedBy(bounds, e.r))
    && (e.Continuous? && e.enable ==> EnclosedBy(bounds, e.r))
  }

  ghost predicate Covers(rs: seq<Box>, bounds: Rect) {
    forall x, y :: InBox(bounds, x, y) ==> Covered(rs, x, y)
  }

  ghost predicate AsksForAll(s: System, bounds: Rect) {
    && (s.requested == [] || Covers(s.requested, bounds))
    && (s.continuous ==> Covers(s.cuRegion, bounds))
  }

  lemma StepAsksForAll(s: System, e: Event, s': System, bounds: Rect)
    requires AsksForAll(s, bounds) && Step(s, e, s', bounds) && WholeScreen(e, bounds)
    ensures AsksForAll(s', bounds) && NothingMissed(s, e, bounds)
  {
    hide Covered, Recorded, ChangeAdded, CopiedLess, Compares, Truthful, CopiedWithin, ChangedWithin, InBuffer, Sent;
    hide Enumerates;
  }

  lemma {:induction false} WholeScreenRun(states: seq<System>, events: seq<Event>, bounds: Rect, i: nat)
    requires Run(states, events, bounds) && Initial(states[0], bounds) && i < |states|
    requires forall j :: 0 <= j < |events| ==> WholeScreen(events[j], bounds)
    ensures AsksForAll(states[i], bounds) && forall j :: 0 <= j < i ==> NothingMissed(states[j], events[j], bounds)
  {
    if i > 0 {
      hide Step, NothingMissed, AsksForAll, WholeScreen;
      WholeScreenRun(states, events, bounds, i - 1);
      StepAsksForAll(states[i - 1], events[i - 1], states[i], bounds);
    }
  }

  /** In every run in which the viewer asks for its whole screen only, every
      update leaves it equal to the framebuffer. */
  lemma WholeScreenCorrect(states: seq<System>, events: seq<Event>, bounds: Rect, i: nat)
    requires Run(states, events, bounds) && Initial(states[0], bounds)
    requires forall j :: 0 <= j < |events| ==> WholeScreen(events[j], bounds)
    requires i < |events| && events[i].Update?
    ensures SamePicture(states[i + 1].view, states[i + 1].fb, bounds)
  {
    hide Step, NothingMissed, AsksForAll, WholeScreen;
    WholeScreenRun(states, events, bounds, i + 1);
    ViewerCorrect(states, events, bounds, i);
  }
}
