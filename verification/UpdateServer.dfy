/** The server's objects around an update: every method is a step of the runs. */
module UpdateServer {
  import opened Banding
  import opened XRegion
  import opened RegionAlgebra
  import opened RegionRects
  import opened PixelBuffers
  import opened RegionCopy
  import opened ShadowCompare
  import opened UpdateMessages
  import opened UpdateTracking
  import opened EncodeManagement
  import opened ViewerSide
  import opened UpdateRuns
  import opened ManyViewers

  ghost function PendingOf(t: SimpleUpdateTracker): Pending
    reads t, t.changed, t.copied
  {
    Pending(t.changed.rects, t.copied.rects, t.copyDelta)
  }

  // ------------------------------------------------------------------ server

  /** VNCServerST, as far as updates go. */
  class VNCServer {
    const pb: PixelBuffer
    const comparer: ComparingUpdateTracker
    /** What the framebuffer showed at the last report. */
    ghost var base: Picture

    ghost predicate Valid()
      reads this, pb, comparer, comparer.updates, comparer.updates.changed, comparer.updates.copied, comparer.oldFb
    {
      comparer.fb == pb && comparer.Valid()
    }

    constructor (buffer: PixelBuffer)
      requires buffer.Valid()
      ensures Valid() && pb == buffer && base == buffer.View() && comparer.firstCompare
      ensures fresh(comparer) && fresh(comparer.updates) && fresh(comparer.oldFb)
      ensures fresh(comparer.updates.changed) && fresh(comparer.updates.copied) && comparer.updates.copied.rects == []
    {
      pb := buffer;
      comparer := new ComparingUpdateTracker(buffer);
      base := buffer.View();
    }

    /** The comparer on or off, as the clients want it, and one comparison. */
    method SwitchAndCompare(filter: bool) returns (filtered: bool)
      requires Valid()
      modifies comparer, comparer.oldFb, comparer.oldFb.data, comparer.updates.changed
      ensures Valid() && comparer.enabled == filter && comparer.firstCompare == !filter
      ensures comparer.oldFb.data == old(comparer.oldFb.data) || fresh(comparer.oldFb.data)
      ensures Compared(old(PendingOf(comparer.updates)), old(comparer.firstCompare), old(comparer.oldFb.View()),
                       pb.View(), filter,
                       comparer.updates.changed.rects, comparer.oldFb.View(), filtered, pb.GetRect())
    {
      hide Covered, Canonical, PixelBuffer.View, Filtered, RefreshedAll, CopiedRegion;
      if filter { comparer.Enable(); } else { comparer.Disable(); }
      filtered := comparer.Compare();
    }

    /** The comparer's turn in checkUpdate: compare and, if that dropped something,
        see again what there is inside the framebuffer. */
    method CompareChanges(filter: bool, uiChanged0: Region, uiCopied0: Region, clip: Region, ghost p: Pending)
      returns (uiChanged: Region, uiCopied: Region)
      requires Valid() && clip.Valid() && uiChanged0.Valid() && uiCopied0.Valid()
      requires {clip, uiChanged0, uiCopied0} !! {comparer.updates.changed, comparer.updates.copied}
      requires uiChanged0 != uiCopied0
      requires forall x, y :: Covered(clip.rects, x, y) <==> Covered([pb.GetRect()], x, y)
      requires CopiedLess(p, PendingOf(comparer.updates))
      requires ChangedWithin(p, [pb.GetRect()], uiChanged0.rects) && CopiedWithin(p, [pb.GetRect()], uiCopied0.rects)
      modifies comparer, comparer.oldFb, comparer.oldFb.data, comparer.updates.changed, comparer.updates.copied
      ensures Valid() && uiChanged.Valid() && uiCopied.Valid() && uiChanged != uiCopied
      ensures {uiChanged, uiCopied} == {uiChanged0, uiCopied0} || (fresh(uiChanged) && fresh(uiCopied))
      ensures pb.View() == old(pb.View()) && comparer.enabled == filter && comparer.firstCompare == !filter
      ensures comparer.oldFb.data == old(comparer.oldFb.data) || fresh(comparer.oldFb.data)
      ensures CopiedWithin(p, [pb.GetRect()], uiCopied.rects)
      ensures Compares(p, old(comparer.firstCompare), old(comparer.oldFb.View()), pb.View(), filter,
                       uiCopied.rects, uiChanged.rects, comparer.oldFb.View(), pb.GetRect())
    {
      hide Covered, Canonical, PixelBuffer.View, Compared, Compares, CopiedLess, CopiedWithin, ChangedWithin;
      ghost var less, first := PendingOf(comparer.updates), comparer.firstCompare;
      ghost var shadow := comparer.oldFb.View();
      var filtered := SwitchAndCompare(filter);
      uiChanged, uiCopied := uiChanged0, uiCopied0;
      ghost var kept := comparer.updates.changed.rects;
      if filtered {
        ghost var delta;
        uiChanged, uiCopied, delta := comparer.updates.GetUpdateInfo(clip);
        SeenAgain(p, less, kept, comparer.updates.copied.rects, [pb.GetRect()], clip.rects, uiChanged.rects,
                  uiCopied.rects, first, shadow, pb.View(), filter, comparer.oldFb.View());
      } else {
        NothingDropped(p, less, kept, uiChanged.rects, first, shadow, pb.View(), filter, comparer.oldFb.View(),
                       pb.GetRect());
      }
      ComparedReported(p, less, first, shadow, pb.View(), filter, kept, uiChanged.rects, uiCopied.rects,
                       comparer.oldFb.View(), filtered, pb.GetRect());
    }

    /** The server's part of the state of the runs. */
    ghost function Alone(): System
      requires Valid()
      reads this, pb, pb.data, comparer, comparer.updates, comparer.updates.changed, comparer.updates.copied
      reads comparer.oldFb, comparer.oldFb.data
    {
      System(pb.View(), base, PendingOf(comparer.updates), comparer.oldFb.View(), comparer.firstCompare,
             comparer.enabled, Pending([], [], Point(0, 0)), [], false, [], base)
    }

    /** The state with each of some viewers and the trackers kept for them. */
    ghost function States(clients: seq<SimpleUpdateTracker>, vs: seq<Viewing>): seq<System>
      requires Valid() && |vs| == |clients|
      reads this, pb, pb.data, comparer, comparer.updates, comparer.updates.changed, comparer.updates.copied
      reads comparer.oldFb, comparer.oldFb.data, Trackers(clients), Regions(clients)
    {
      Together(Alone(), Pendings(clients), vs)
    }

    /** The tracker kept for a viewer is none of the server's own. */
    ghost predicate Apart(updates: SimpleUpdateTracker) {
      && updates != comparer.updates
      && updates.changed != comparer.updates.changed && updates.changed != comparer.updates.copied
      && updates.copied != comparer.updates.changed && updates.copied != comparer.updates.copied
    }

    /** The trackers kept for the viewers are none of the server's own, and no two
        of them share a region. */
    ghost predicate AllApart(clients: seq<SimpleUpdateTracker>) {
      NothingShared(clients) && forall k :: 0 <= k < |clients| ==> Apart(clients[k])
    }

    lemma OwnRegions(clients: seq<SimpleUpdateTracker>)
      requires AllApart(clients)
      ensures comparer.updates !in Trackers(clients)
      ensures comparer.updates.changed !in Regions(clients) && comparer.updates.copied !in Regions(clients)
    {
    }

    /** checkUpdate: see what is pending inside the framebuffer, compare, and pass
        the rest on to every viewer's tracker. */
    method CheckUpdate(filter: bool, blocked: bool, clients: seq<SimpleUpdateTracker>, ghost vs: seq<Viewing>)
      returns (ok: bool, ghost es: seq<Event>)
      requires Valid() && AllValid(clients) && AllApart(clients) && |vs| == |clients|
      modifies this, comparer, comparer.oldFb, comparer.oldFb.data, comparer.updates.changed, comparer.updates.copied
      modifies Trackers(clients), Regions(clients)
      ensures Valid() && AllValid(clients)
      ensures comparer.oldFb.data == old(comparer.oldFb.data) || fresh(comparer.oldFb.data)
      ensures TakeTurn(old(States(clients, vs)), ByServer(es), States(clients, vs), pb.GetRect())
      ensures forall k :: 0 <= k < |es| ==> CheckEvent(es[k], ok)
      ensures (!blocked ==> ok) && (ok ==> base == pb.View())
      ensures ok ==> NothingInside(PendingOf(comparer.updates), pb.GetRect())
      ensures blocked ==> Pendings(clients) == old(Pendings(clients))
    {
      hide Covered, Canonical, PixelBuffer.View, Compares, CopiedLess, CopiedWithin, ChangedWithin;
      hide NothingInside, TakeTurn, PassedToAll, Together, Pendings, AllValid;
      hide AllApart, Valid;
      ghost var s, ps := Alone(), Pendings(clients);
      var clip, uiChanged, uiCopied, delta := SeeFor(clients);
      if |uiChanged.rects| == 0 && |uiCopied.rects| == 0 {
        es := Settle(clients, vs, s);
        ok := true;
      } else if blocked {
        es := BlockedTurn(s, Alone(), ps, vs, pb.GetRect());
        ok := false;
      } else {
        es := ReportAll(filter, uiChanged, uiCopied, delta, clip, clients, vs, s);
        ok := true;
      }
    }

    /** Nothing to report: the framebuffer is what the viewers' trackers were told. */
    method Settle(clients: seq<SimpleUpdateTracker>, ghost vs: seq<Viewing>, ghost s: System)
      returns (ghost es: seq<Event>)
      requires Valid() && AllValid(clients) && |vs| == |clients|
      requires Alone() == s.(server := PendingOf(comparer.updates)) && CopiedLess(s.server, PendingOf(comparer.updates))
      requires NothingInside(PendingOf(comparer.updates), pb.GetRect())
      modifies this
      ensures Valid() && AllValid(clients) && base == pb.View() && Pendings(clients) == old(Pendings(clients))
      ensures TakeTurn(Together(s, old(Pendings(clients)), vs), ByServer(es), States(clients, vs), pb.GetRect())
      ensures forall k :: 0 <= k < |es| ==> CheckEvent(es[k], true)
    {
      hide Covered, PixelBuffer.View, CopiedLess, NothingInside, TakeTurn, Together;
      ghost var ps := Pendings(clients);
      base := pb.View();
      assert Pendings(clients) == ps;
      es := IdleTurn(s, Alone(), ps, vs, pb.GetRect());
    }

    /** SeePending; the viewers' trackers are left alone. */
    method SeeFor(clients: seq<SimpleUpdateTracker>)
      returns (clip: Region, uiChanged: Region, uiCopied: Region, delta: Point)
      requires Valid() && AllValid(clients) && AllApart(clients)
      modifies comparer.updates.copied
      ensures Valid() && AllValid(clients) && Pendings(clients) == old(Pendings(clients))
      ensures fresh(clip) && fresh(uiChanged) && fresh(uiCopied) && uiChanged != uiCopied
      ensures clip.Valid() && uiChanged.Valid() && uiCopied.Valid() && delta == comparer.updates.copyDelta
      ensures forall x, y :: Covered(clip.rects, x, y) <==> Covered([pb.GetRect()], x, y)
      ensures CopiedLess(old(PendingOf(comparer.updates)), PendingOf(comparer.updates))
      ensures ChangedWithin(old(PendingOf(comparer.updates)), [pb.GetRect()], uiChanged.rects)
      ensures CopiedWithin(old(PendingOf(comparer.updates)), [pb.GetRect()], uiCopied.rects)
      ensures uiChanged.rects == [] && uiCopied.rects == [] ==>
                NothingInside(PendingOf(comparer.updates), pb.GetRect())
    {
      hide Covered, Canonical, PixelBuffer.View, CopiedLess, CopiedWithin, ChangedWithin, Pendings, AllValid, Valid;
      OwnRegions(clients);
      hide AllApart;
      clip, uiChanged, uiCopied, delta := SeePending();
    }

    /** The rest of checkUpdate, as a turn from s. */
    method ReportAll(filter: bool, uiChanged: Region, uiCopied: Region, delta: Point, clip: Region,
                     clients: seq<SimpleUpdateTracker>, ghost vs: seq<Viewing>, ghost s: System)
      returns (ghost es: seq<Event>)
      requires Valid() && AllValid(clients) && AllApart(clients) && |vs| == |clients|
      requires clip.Valid() && uiChanged.Valid() && uiCopied.Valid() && uiChanged != uiCopied
      requires {clip, uiChanged, uiCopied} !! {comparer.updates.changed, comparer.updates.copied}
      requires {uiChanged, uiCopied} !! Regions(clients)
      requires forall x, y :: Covered(clip.rects, x, y) <==> Covered([pb.GetRect()], x, y)
      requires Alone() == s.(server := PendingOf(comparer.updates)) && delta == s.server.delta
      requires CopiedLess(s.server, PendingOf(comparer.updates))
      requires ChangedWithin(s.server, [pb.GetRect()], uiChanged.rects)
      requires CopiedWithin(s.server, [pb.GetRect()], uiCopied.rects)
      modifies this, comparer, comparer.oldFb, comparer.oldFb.data, comparer.updates.changed, comparer.updates.copied
      modifies Trackers(clients), Regions(clients)
      ensures Valid() && AllValid(clients) && base == pb.View()
      ensures NothingInside(PendingOf(comparer.updates), pb.GetRect())
      ensures comparer.oldFb.data == old(comparer.oldFb.data) || fresh(comparer.oldFb.data)
      ensures TakeTurn(Together(s, old(Pendings(clients)), vs), ByServer(es), States(clients, vs), pb.GetRect())
      ensures forall k :: 0 <= k < |es| ==> CheckEvent(es[k], true)
    {
      hide Covered, Canonical, PixelBuffer.View, Compares, CopiedLess, CopiedWithin, ChangedWithin;
      hide TakeTurn, PassedToAll, Together, Pendings, AllValid, AllApart, Valid;
      ghost var copied, kept;
      es, copied, kept := ReportChanges(filter, uiChanged, uiCopied, delta, clip, clients, s.server);
      NothingLeft(PendingOf(comparer.updates), pb.GetRect());
      ReportTurn(s, old(Pendings(clients)), filter, copied, kept, es, Alone(), Pendings(clients), vs, pb.GetRect());
    }

    /** getUpdateInfo for the whole framebuffer. */
    method SeePending() returns (clip: Region, uiChanged: Region, uiCopied: Region, delta: Point)
      requires Valid()
      modifies comparer.updates.copied
      ensures Valid() && fresh(clip) && fresh(uiChanged) && fresh(uiCopied) && uiChanged != uiCopied
      ensures clip.Valid() && uiChanged.Valid() && uiCopied.Valid() && delta == comparer.updates.copyDelta
      ensures forall x, y :: Covered(clip.rects, x, y) <==> Covered([pb.GetRect()], x, y)
      ensures CopiedLess(old(PendingOf(comparer.updates)), PendingOf(comparer.updates))
      ensures ChangedWithin(old(PendingOf(comparer.updates)), [pb.GetRect()], uiChanged.rects)
      ensures CopiedWithin(old(PendingOf(comparer.updates)), [pb.GetRect()], uiCopied.rects)
      ensures uiChanged.rects == [] && uiCopied.rects == [] ==>
                NothingInside(PendingOf(comparer.updates), pb.GetRect())
    {
      hide Covered, Canonical, PixelBuffer.View, CopiedLess, CopiedWithin, ChangedWithin;
      ghost var p := PendingOf(comparer.updates);
      clip := RectRegion(pb.GetRect());
      uiChanged, uiCopied, delta := comparer.updates.GetUpdateInfo(clip);
      SeenWithin(p, PendingOf(comparer.updates), pb.GetRect(), clip.rects, uiChanged.rects, uiCopied.rects);
    }

    /** The rest of checkUpdate: compare, pass on, start afresh. */
    method ReportChanges(filter: bool, uiChanged0: Region, uiCopied0: Region, delta: Point, clip: Region,
                         clients: seq<SimpleUpdateTracker>, ghost p: Pending)
      returns (ghost es: seq<Event>, ghost copied: seq<Box>, ghost kept: seq<Box>)
      requires Valid() && AllValid(clients) && AllApart(clients)
      requires clip.Valid() && uiChanged0.Valid() && uiCopied0.Valid() && uiChanged0 != uiCopied0
      requires {clip, uiChanged0, uiCopied0} !! {comparer.updates.changed, comparer.updates.copied}
      requires {uiChanged0, uiCopied0} !! Regions(clients)
      requires forall x, y :: Covered(clip.rects, x, y) <==> Covered([pb.GetRect()], x, y)
      requires CopiedLess(p, PendingOf(comparer.updates)) && delta == p.delta
      requires ChangedWithin(p, [pb.GetRect()], uiChanged0.rects) && CopiedWithin(p, [pb.GetRect()], uiCopied0.rects)
      modifies this, comparer, comparer.oldFb, comparer.oldFb.data, comparer.updates.changed, comparer.updates.copied
      modifies Trackers(clients), Regions(clients)
      ensures Valid() && AllValid(clients) && base == pb.View() == old(pb.View())
      ensures comparer.oldFb.data == old(comparer.oldFb.data) || fresh(comparer.oldFb.data)
      ensures comparer.enabled == filter && comparer.firstCompare == !filter && Cleared(PendingOf(comparer.updates))
      ensures CopiedWithin(p, [pb.GetRect()], copied)
      ensures Compares(p, old(comparer.firstCompare), old(comparer.oldFb.View()), pb.View(), filter,
                       copied, kept, comparer.oldFb.View(), pb.GetRect())
      ensures PassedToAll(es, filter, copied, kept, old(Pendings(clients)), delta, Pendings(clients))
    {
      hide Covered, Canonical, PixelBuffer.View, Compares, CopiedLess, CopiedWithin, ChangedWithin, PassedToAll;
      OwnRegions(clients);
      hide AllApart, Valid, AllValid, Pendings;
      var uiChanged, uiCopied := CompareChanges(filter, uiChanged0, uiCopied0, clip, p);
      copied, kept := uiCopied.rects, uiChanged.rects;
      es := FinishReport(filter, uiChanged, uiCopied, delta, clients);
    }

    method FinishReport(ghost filter: bool, uiChanged: Region, uiCopied: Region, delta: Point,
                        clients: seq<SimpleUpdateTracker>)
      returns (ghost es: seq<Event>)
      requires Valid() && AllValid(clients) && AllApart(clients) && uiChanged.Valid() && uiCopied.Valid()
      requires uiChanged !in Regions(clients) && uiCopied !in Regions(clients)
      modifies this, comparer.updates.changed, comparer.updates.copied, Trackers(clients), Regions(clients)
      ensures Valid() && AllValid(clients) && base == pb.View() == old(pb.View())
      ensures comparer.oldFb.View() == old(comparer.oldFb.View()) && Cleared(PendingOf(comparer.updates))
      ensures PassedToAll(es, filter, old(uiCopied.rects), old(uiChanged.rects), old(Pendings(clients)), delta,
                          Pendings(clients))
    {
      hide Covered, Canonical, PixelBuffer.View, PassedToAll, Pendings, AllValid;
      OwnRegions(clients);
      hide AllApart;
      es := PassToAll(filter, clients, uiChanged, uiCopied, delta);
      comparer.updates.Clear();
      base := pb.View();
    }
  }

  /** What a viewer's state holds beside the server and the tracker. */
  datatype Viewing = Viewing(requested: seq<Box>, continuous: bool, cuRegion: seq<Box>, view: Picture)

  /** The server of s with this tracker and viewer. */
  ghost function With(s: System, p: Pending, v: Viewing): System {
    System(s.fb, s.base, s.server, s.shadow, s.firstCompare, s.enabled, p, v.requested, v.continuous, v.cuRegion,
           v.view)
  }

  ghost function Together(s: System, ps: seq<Pending>, vs: seq<Viewing>): (all: seq<System>)
    requires |ps| == |vs|
    ensures |all| == |ps|
  {
    seq(|ps|, k requires 0 <= k < |ps| => With(s, ps[k], vs[k]))
  }

  ghost function Pendings(clients: seq<SimpleUpdateTracker>): (ps: seq<Pending>)
    reads Trackers(clients), Regions(clients)
    ensures |ps| == |clients|
  {
    seq(|clients|, k requires 0 <= k < |clients| reads Trackers(clients), Regions(clients) => PendingOf(clients[k]))
  }

  /** What checkUpdate can come to. */
  predicate CheckEvent(e: Event, ok: bool) {
    if ok then e.Idle? || e.Report? else e.Blocked?
  }

  ghost function Trackers(clients: seq<SimpleUpdateTracker>): set<SimpleUpdateTracker> {
    set t | t in clients
  }

  ghost function Regions(clients: seq<SimpleUpdateTracker>): set<Region> {
    (set t | t in clients :: t.changed) + (set t | t in clients :: t.copied)
  }

  lemma OneMore(t: SimpleUpdateTracker, others: seq<SimpleUpdateTracker>)
    ensures Trackers([t] + others) == {t} + Trackers(others)
    ensures Regions([t] + others) == {t.changed, t.copied} + Regions(others)
  {
  }

  lemma OneMoreValid(t: SimpleUpdateTracker, others: seq<SimpleUpdateTracker>)
    ensures t.Valid() && AllValid(others) <==> AllValid([t] + others)
  {
    hide SimpleUpdateTracker.Valid;
    var all := [t] + others;
    assert all[0] == t && forall k :: 0 <= k < |others| ==> all[k + 1] == others[k];
  }

  lemma OneMorePending(t: SimpleUpdateTracker, others: seq<SimpleUpdateTracker>)
    ensures Pendings([t] + others) == [PendingOf(t)] + Pendings(others)
  {
    hide PendingOf;
  }

  lemma OneMoreApart(t: SimpleUpdateTracker, others: seq<SimpleUpdateTracker>)
    requires NothingShared(others) && t !in Trackers(others)
    requires t.changed !in Regions(others) && t.copied !in Regions(others)
    ensures NothingShared([t] + others)
  {
    forall k | 0 <= k < |others| ensures Separate(t, others[k]) && Separate(others[k], t) {
      assert others[k] in Trackers(others);
    }
  }

  ghost predicate AllValid(clients: seq<SimpleUpdateTracker>)
    reads Trackers(clients), Regions(clients)
  {
    forall k :: 0 <= k < |clients| ==> clients[k].Valid()
  }

  ghost predicate NothingShared(clients: seq<SimpleUpdateTracker>) {
    forall j, k :: 0 <= j < |clients| && 0 <= k < |clients| && j != k ==> Separate(clients[j], clients[k])
  }

  ghost predicate Separate(a: SimpleUpdateTracker, b: SimpleUpdateTracker) {
    a != b && a.changed != b.changed && a.changed != b.copied && a.copied != b.changed && a.copied != b.copied
  }

  /** The report as it reached a viewer's tracker. */
  ghost predicate PassedOn(e: Event, filter: bool, copied: seq<Box>, kept: seq<Box>, p: Pending, delta: Point,
                           p': Pending) {
    && e.Report? && e.filter == filter && e.copied == copied && e.kept == kept
    && Recorded(e.mode, p, copied, delta, e.middle) && ChangeAdded(e.middle, kept, p')
  }

  ghost predicate PassedToAll(es: seq<Event>, filter: bool, copied: seq<Box>, kept: seq<Box>, ps: seq<Pending>,
                              delta: Point, ps': seq<Pending>)
  {
    && |es| == |ps| == |ps'|
    && forall k :: 0 <= k < |es| ==> PassedOn(es[k], filter, copied, kept, ps[k], delta, ps'[k])
  }

  /** The loop of checkUpdate over the clients. */
  method PassToAll(ghost filter: bool, clients: seq<SimpleUpdateTracker>, uiChanged: Region, uiCopied: Region,
                   delta: Point)
    returns (ghost es: seq<Event>)
    requires AllValid(clients) && NothingShared(clients) && uiChanged.Valid() && uiCopied.Valid()
    requires uiChanged !in Regions(clients) && uiCopied !in Regions(clients)
    modifies Trackers(clients), Regions(clients)
    ensures AllValid(clients)
    ensures PassedToAll(es, filter, uiCopied.rects, uiChanged.rects, old(Pendings(clients)), delta, Pendings(clients))
  {
    hide Covered, Canonical, PassedOn;
    es := [];
    for i := 0 to |clients|
      invariant AllValid(clients) && uiChanged.Valid() && uiCopied.Valid() && |es| == i
      invariant forall k :: 0 <= k < i ==>
                  PassedOn(es[k], filter, uiCopied.rects, uiChanged.rects, old(PendingOf(clients[k])), delta,
                           PendingOf(clients[k]))
      invariant forall k :: i <= k < |clients| ==> PendingOf(clients[k]) == old(PendingOf(clients[k]))
    {
      ghost var e := PassOn(filter, clients[i], uiChanged, uiCopied, delta);
      es := es + [e];
    }
  }

  lemma FirstOf(s: System, ps: seq<Pending>, vs: seq<Viewing>)
    requires |ps| == |vs| > 0
    ensures Together(s, ps, vs)[0] == With(s, ps[0], vs[0])
  {
  }

  /** checkUpdate as the first viewer sees it. */
  lemma OwnCheck(all: seq<System>, es: seq<Event>, all': seq<System>, ok: bool, bounds: Rect)
    requires TakeTurn(all, ByServer(es), all', bounds) && all != [] && Invariant(all[0], bounds)
    requires forall k :: 0 <= k < |es| ==> CheckEvent(es[k], ok)
    ensures all' != [] && Invariant(all'[0], bounds)
    ensures forall x, y :: Covered(all'[0].client.changed, x, y) ==>
              Covered(all[0].client.changed, x, y) || InBox(bounds, x, y)
  {
    hide Step, Invariant, Covered, OneServer;
    assert CheckEvent(es[0], ok);
    CheckAddsInside(all[0], es[0], all'[0], bounds);
    ServerMissesNothing(all[0], es[0], bounds);
    StepKeepsInvariant(all[0], es[0], all'[0], bounds);
  }

  lemma IdleTurn(s: System, s': System, ps: seq<Pending>, vs: seq<Viewing>, bounds: Rect) returns (es: seq<Event>)
    requires |ps| == |vs| && s' == s.(base := s.fb, server := s'.server, view := s'.view)
    requires CopiedLess(s.server, s'.server) && NothingInside(s'.server, bounds)
    ensures TakeTurn(Together(s, ps, vs), ByServer(es), Together(s', ps, vs), bounds)
    ensures forall k :: 0 <= k < |es| ==> CheckEvent(es[k], true)
  {
    hide CopiedLess, NothingInside;
    es := seq(|ps|, _ => Idle);
  }

  lemma NothingLeft(p: Pending, bounds: Rect)
    requires Cleared(p)
    ensures NothingInside(p, bounds)
  {
    NoPoints();
    hide Covered;
  }

  lemma BlockedTurn(s: System, s': System, ps: seq<Pending>, vs: seq<Viewing>, bounds: Rect) returns (es: seq<Event>)
    requires |ps| == |vs| && s' == s.(server := s'.server) && CopiedLess(s.server, s'.server)
    ensures TakeTurn(Together(s, ps, vs), ByServer(es), Together(s', ps, vs), bounds)
    ensures forall k :: 0 <= k < |es| ==> CheckEvent(es[k], false)
  {
    hide CopiedLess;
    es := seq(|ps|, _ => Blocked);
  }

  lemma ReportTurn(s: System, ps: seq<Pending>, filter: bool, copied: seq<Box>, kept: seq<Box>, es: seq<Event>,
                   s': System, ps': seq<Pending>, vs: seq<Viewing>, bounds: Rect)
    requires |ps| == |vs| && PassedToAll(es, filter, copied, kept, ps, s.server.delta, ps')
    requires s' == s.(base := s.fb, server := s'.server, shadow := s'.shadow, firstCompare := !filter,
                      enabled := filter, view := s'.view)
    requires CopiedWithin(s.server, [bounds], copied) && Cleared(s'.server)
    requires Compares(s.server, s.firstCompare, s.shadow, s.fb, filter, copied, kept, s'.shadow, bounds)
    ensures TakeTurn(Together(s, ps, vs), ByServer(es), Together(s', ps', vs), bounds)
    ensures forall k :: 0 <= k < |es| ==> CheckEvent(es[k], true)
  {
    hide CopiedWithin, Compares, Recorded, ChangeAdded, Cleared;
  }

  /** What is changed and copied, on to a viewer's tracker. */
  method PassOn(ghost filter: bool, updates: SimpleUpdateTracker, uiChanged: Region, uiCopied: Region, delta: Point)
    returns (ghost e: Event)
    requires updates.Valid() && uiChanged.Valid() && uiCopied.Valid()
    requires uiChanged !in {updates.changed, updates.copied} && uiCopied !in {updates.changed, updates.copied}
    modifies updates, updates.changed, updates.copied
    ensures updates.Valid()
    ensures PassedOn(e, filter, uiCopied.rects, uiChanged.rects, old(PendingOf(updates)), delta, PendingOf(updates))
  {
    hide Covered, Canonical, CopyRecorded;
    ghost var mode := updates.AddCopied(uiCopied, delta);
    e := Report(filter, uiCopied.rects, uiChanged.rects, PendingOf(updates), mode);
    updates.AddChanged(uiChanged);
  }

  /** getUpdateInfo for the whole framebuffer. */
  lemma SeenWithin(p: Pending, less: Pending, bounds: Rect, clip: seq<Box>, uiChanged: seq<Box>, uiCopied: seq<Box>)
    requires less.changed == p.changed && less.delta == p.delta
    requires forall x, y :: Covered(clip, x, y) <==> InBox(bounds, x, y)
    requires forall x, y :: Covered(less.copied, x, y) <==> Covered(p.copied, x, y) && !Covered(p.changed, x, y)
    requires forall x, y :: Covered(uiChanged, x, y) <==> Covered(p.changed, x, y) && Covered(clip, x, y)
    requires forall x, y :: Covered(uiCopied, x, y) <==> Covered(less.copied, x, y) && Covered(clip, x, y)
    ensures CopiedLess(p, less) && ChangedWithin(p, [bounds], uiChanged) && CopiedWithin(p, [bounds], uiCopied)
    ensures forall x, y :: Covered(clip, x, y) <==> Covered([bounds], x, y)
    ensures uiChanged == [] && uiCopied == [] ==> NothingInside(less, bounds)
  {
    InBounds(bounds);
    NoPoints();
    hide Covered;
  }

  /** compare() on a tracker with p pending. */
  ghost predicate Compared(p: Pending, first: bool, shadow: Picture, fb: Picture, filter: bool, kept: seq<Box>,
                           shadow': Picture, filtered: bool, bounds: Rect)
  {
    && (filtered <==> exists x, y :: Covered(p.changed, x, y) && !Covered(kept, x, y))
    && if !filter then kept == p.changed && shadow' == shadow
       else if first then kept == p.changed && SamePicture(shadow', fb, bounds)
       else
         var shifted := CopiedPicture(shadow, bounds, p.copied, p.delta);
         && Filtered(shifted, fb, p.changed, bounds, kept)
         && forall x, y :: shadow'(x, y) == RefreshedAll(shifted, fb, p.changed, bounds, x, y)
  }

  /** Clipping what is kept. */
  ghost predicate KeptWithin(kept: seq<Box>, clip: seq<Box>, uiChanged: seq<Box>) {
    forall x, y :: Covered(uiChanged, x, y) <==> Covered(kept, x, y) && Covered(clip, x, y)
  }

  lemma SeenAgain(p: Pending, less: Pending, kept: seq<Box>, copied: seq<Box>, bounds: seq<Box>, clip: seq<Box>,
                  uiChanged: seq<Box>, uiCopied: seq<Box>, first: bool, shadow: Picture, fb: Picture, filter: bool,
                  shadow': Picture)
    requires CopiedLess(p, less) && |bounds| == 1
    requires forall x, y :: Covered(clip, x, y) <==> Covered(bounds, x, y)
    requires Compared(less, first, shadow, fb, filter, kept, shadow', true, bounds[0])
    requires forall x, y :: Covered(copied, x, y) <==> Covered(less.copied, x, y) && !Covered(kept, x, y)
    requires forall x, y :: Covered(uiChanged, x, y) <==> Covered(kept, x, y) && Covered(clip, x, y)
    requires forall x, y :: Covered(uiCopied, x, y) <==> Covered(copied, x, y) && Covered(clip, x, y)
    ensures KeptWithin(kept, bounds, uiChanged) && CopiedWithin(p, bounds, uiCopied)
  {
    forall x, y ensures Covered(kept, x, y) ==> Covered(p.changed, x, y) {
      if filter && !first {
        FilteredBetween(CopiedPicture(shadow, bounds[0], less.copied, less.delta), fb, less.changed, bounds[0], kept, x,
                        y);
      }
    }
    hide Covered, Compared;
  }

  lemma NothingDropped(p: Pending, less: Pending, kept: seq<Box>, uiChanged: seq<Box>, first: bool, shadow: Picture,
                       fb: Picture, filter: bool, shadow': Picture, bounds: Rect)
    requires CopiedLess(p, less) && ChangedWithin(p, [bounds], uiChanged)
    requires Compared(less, first, shadow, fb, filter, kept, shadow', false, bounds)
    ensures KeptWithin(kept, [bounds], uiChanged)
  {
    forall x, y ensures Covered(kept, x, y) <==> Covered(p.changed, x, y) {
      if filter && !first {
        FilteredBetween(CopiedPicture(shadow, bounds, less.copied, less.delta), fb, less.changed, bounds, kept, x, y);
      }
    }
    hide Covered, Compared;
  }

  /** What compare() keeps, clipped, is still what it keeps. */
  lemma ComparedReported(p: Pending, less: Pending, first: bool, shadow: Picture, fb: Picture, filter: bool,
                         kept: seq<Box>,
                         uiChanged: seq<Box>, uiCopied: seq<Box>, shadow': Picture, filtered: bool, bounds: Rect)
    requires CopiedLess(p, less) && Compared(less, first, shadow, fb, filter, kept, shadow', filtered, bounds)
    requires KeptWithin(kept, [bounds], uiChanged) && CopiedWithin(p, [bounds], uiCopied)
    ensures Compares(p, first, shadow, fb, filter, uiCopied, uiChanged, shadow', bounds)
  {
    if !filter || first { hide Covered; return; }
    hide Covered, Filtered, RefreshedAll, CopiedWithin, CopiedPicture, CopiedLess;
    var shifted := CopiedPicture(shadow, bounds, less.copied, p.delta);
    var again := CopiedPicture(shadow, bounds, uiCopied, p.delta);
    SameShift(p, less, shadow, uiCopied, bounds);
    AllKeptWithin(shifted, fb, p.changed, bounds, kept, uiChanged);
    FilteredSame(shifted, again, fb, p.changed, bounds, kept);
    FilteredPoints(again, fb, p.changed, bounds, kept, uiChanged);
    SameRefresh(shifted, again, fb, p.changed, bounds);
  }

  /** Moving what is reported as copied does what moving all of it does. */
  lemma SameShift(p: Pending, less: Pending, shadow: Picture, uiCopied: seq<Box>, bounds: Rect)
    requires CopiedLess(p, less) && CopiedWithin(p, [bounds], uiCopied)
    ensures forall x, y ::
              CopiedPicture(shadow, bounds, less.copied, p.delta)(x, y)
              == CopiedPicture(shadow, bounds, uiCopied, p.delta)(x, y)
  {
    InBounds(bounds);
    hide Covered;
  }

  lemma AllKeptWithin(shifted: Picture, fb: Picture, changed: seq<Box>, bounds: Rect, kept: seq<Box>,
                      uiChanged: seq<Box>)
    requires Filtered(shifted, fb, changed, bounds, kept) && KeptWithin(kept, [bounds], uiChanged)
    ensures forall x, y :: Covered(uiChanged, x, y) <==> Covered(kept, x, y)
  {
    InBounds(bounds);
    hide Covered, Filtered;
    forall x, y ensures Covered(uiChanged, x, y) <==> Covered(kept, x, y) {
      FilteredBetween(shifted, fb, changed, bounds, kept, x, y);
    }
  }

  lemma SameRefresh(a: Picture, b: Picture, fb: Picture, changed: seq<Box>, bounds: Rect)
    requires forall x, y :: a(x, y) == b(x, y)
    ensures forall x, y :: RefreshedAll(a, fb, changed, bounds, x, y) == RefreshedAll(b, fb, changed, bounds, x, y)
  {
    hide Covered;
  }

  // -------------------------------------------------------------- connection

  /** What enableContinuousUpdates comes to: an exception, an update once the
      messages at hand are processed, or a message to the viewer. */
  datatype Answer = NotAllowed | UpdateFollows | EndOfContinuousUpdates

  /** VNCSConnectionST: what the server keeps for one viewer, and that viewer. */
  class VNCSConnection {
    const server: VNCServer
    const updates: SimpleUpdateTracker
    const requested: Region
    const cuRegion: Region
    const encodeManager: EncodeManager
    const viewer: Viewer
    var continuousUpdates: bool

    ghost predicate Valid()
      reads this, server, server.pb, server.comparer, server.comparer.updates, server.comparer.updates.changed
      reads server.comparer.updates.copied, server.comparer.oldFb, updates, updates.changed, updates.copied
      reads requested, cuRegion, viewer, viewer.fb, viewer.reader
    {
      && server.Valid() && updates.Valid() && server.Apart(updates)
      && requested.Valid() && cuRegion.Valid() && requested != cuRegion
      && InNone(requested, updates, server.comparer.updates) && InNone(cuRegion, updates, server.comparer.updates)
      && viewer.Valid() && SameShape(viewer.fb, server.pb) && viewer.fb != server.comparer.oldFb
      && viewer.fb.data != server.pb.data && viewer.fb.data != server.comparer.oldFb.data
      && viewer.reader.imageBuf != server.pb.data && viewer.reader.imageBuf != server.comparer.oldFb.data
    }

    ghost function State(): System
      requires Valid()
      reads this, server, server.pb, server.pb.data, server.comparer, server.comparer.updates
      reads server.comparer.updates.changed
      reads server.comparer.updates.copied, server.comparer.oldFb, server.comparer.oldFb.data, updates, updates.changed
      reads updates.copied, requested, cuRegion, viewer, viewer.fb, viewer.fb.data, viewer.reader
    {
      With(server.Alone(), PendingOf(updates), Seen())
    }

    ghost function Seen(): Viewing
      requires viewer.fb.Valid()
      reads this, requested, cuRegion, viewer, viewer.fb, viewer.fb.data
    {
      Viewing(requested.rects, continuousUpdates, cuRegion.rects, viewer.fb.View())
    }

    /** The framebuffer's bounds. */
    ghost function Bounds(): Rect
      reads server, server.pb
    {
      server.pb.GetRect()
    }

    /** A viewer comes in: its whole screen has to be sent. */
    constructor (s: VNCServer, v: Viewer, useCopyRect: bool, lastRect: bool)
      requires s.Valid() && v.Valid() && SameShape(v.fb, s.pb) && v.fb != s.comparer.oldFb
      requires {v.fb.data, v.reader.imageBuf} !! {s.pb.data, s.comparer.oldFb.data}
      ensures Valid() && server == s && viewer == v
      ensures s.base == s.pb.View() && s.comparer.firstCompare && s.comparer.updates.copied.rects == [] ==>
                Initial(State(), Bounds())
      ensures Newcomer(State(), Bounds())
    {
      hide Covered, Canonical, PixelBuffer.View;
      server, viewer := s, v;
      var tracker := WholeScreenTracker(s.pb.GetRect(), useCopyRect);
      updates := tracker;
      requested := new Region();
      cuRegion := new Region();
      encodeManager := new EncodeManager(lastRect);
      continuousUpdates := false;
      new;
      hide Initial, Newcomer;
      FirstOfAll(State(), Bounds());
    }

    /** The application has drawn on a framebuffer that showed `before`, and reports it. */
    method AddChanged(area: Region, ghost before: Picture)
      requires Valid() && area.Valid() && area != server.comparer.updates.changed
      requires forall x, y :: InBox(Bounds(), x, y) && !Covered(area.rects, x, y) ==>
                 server.pb.View()(x, y) == before(x, y)
      modifies server.comparer.updates.changed
      ensures Valid() && Step(old(State()).(fb := before), Draw(area.rects), State(), Bounds())
    {
      hide Covered, Canonical, PixelBuffer.View;
      server.comparer.updates.AddChanged(area);
    }

    /** The application has moved a part of the framebuffer, and reports it. */
    method AddCopied(dest: Region, delta: Point, ghost before: Picture) returns (ghost mode: CopyMode)
      requires Valid() && dest.Valid() && dest !in {server.comparer.updates.changed, server.comparer.updates.copied}
      requires dest !in {updates.changed, updates.copied, requested, cuRegion}
      requires InBuffer(dest.rects, delta, Bounds())
      requires forall x, y :: InBox(Bounds(), x, y) ==>
                 server.pb.View()(x, y) == MovedRegion(before, dest.rects, delta, x, y)
      modifies server.comparer.updates, server.comparer.updates.changed, server.comparer.updates.copied
      ensures Valid() && Step(old(State()).(fb := before), Copy(dest.rects, delta, mode), State(), Bounds())
    {
      hide Covered, Canonical, PixelBuffer.View, CopyRecorded;
      mode := server.comparer.updates.AddCopied(dest, delta);
    }

    /** framebufferUpdateRequest: the rectangle is tested against the framebuffer and
        then used as it is. */
    method FramebufferUpdateRequest(r: Rect, incremental: bool)
      requires Valid()
      modifies requested, updates.changed, server.comparer.updates.changed
      ensures Valid() && Step(old(State()), Request(r, incremental), State(), Bounds())
      ensures forall x, y :: Covered(requested.rects, x, y) <==>
                old(Covered(requested.rects, x, y)) || (InBox(r, x, y) && !(incremental && continuousUpdates))
      ensures forall x, y :: Covered(updates.changed.rects, x, y) <==>
                old(Covered(updates.changed.rects, x, y)) || (InBox(r, x, y) && !incremental)
      ensures forall x, y :: Covered(server.comparer.updates.changed.rects, x, y) <==>
                old(Covered(server.comparer.updates.changed.rects, x, y)) || (InBox(r, x, y) && !incremental)
    {
      hide Covered, Canonical, PixelBuffer.View, ChangeAdded, RequestAdded, Step, InBox;
      var safeRect := r;
      if !EnclosedBy(r, server.pb.GetRect()) {
        safeRect := Intersect(r, server.pb.GetRect());
      }
      ghost var s := State();
      var reqRgn := UseRequest(r, incremental);
      RequestStep(s, r, reqRgn.rects, incremental, State(), Bounds());
      NowAsked(s, r, reqRgn.rects, incremental, State());
    }

    method UseRequest(r: Rect, incremental: bool) returns (reqRgn: Region)
      requires Valid()
      modifies requested, updates.changed, server.comparer.updates.changed
      ensures Valid() && forall x, y :: Covered(reqRgn.rects, x, y) <==> InBox(r, x, y)
      ensures RequestAdded(old(requested.rects), reqRgn.rects, incremental && continuousUpdates, requested.rects)
      ensures incremental ==> PendingOf(updates) == old(PendingOf(updates))
      ensures incremental ==> PendingOf(server.comparer.updates) == old(PendingOf(server.comparer.updates))
      ensures !incremental ==> ChangeAdded(old(PendingOf(updates)), reqRgn.rects, PendingOf(updates))
      ensures !incremental ==>
                ChangeAdded(old(PendingOf(server.comparer.updates)), reqRgn.rects, PendingOf(server.comparer.updates))
    {
      hide Covered, Canonical, PixelBuffer.View, ChangeAdded, RequestAdded;
      reqRgn := RectRegion(r);
      Ask(reqRgn, incremental);
      if !incremental {
        AddRequested(reqRgn);
      }
    }

    /** The region is asked for, unless it is covered by continuous updates. */
    method Ask(reqRgn: Region, incremental: bool)
      requires Valid() && reqRgn.Valid() && reqRgn != requested
      modifies requested
      ensures Valid()
      ensures RequestAdded(old(requested.rects), reqRgn.rects, incremental && continuousUpdates, requested.rects)
    {
      hide Covered, Canonical;
      if !incremental || !continuousUpdates {
        UnionRegion(requested, reqRgn, requested);
      }
    }

    /** A full update: the area counts as changed for this viewer and for the comparer. */
    method AddRequested(reqRgn: Region)
      requires Valid() && reqRgn.Valid() && reqRgn != updates.changed && reqRgn != server.comparer.updates.changed
      modifies updates.changed, server.comparer.updates.changed
      ensures Valid()
      ensures ChangeAdded(old(PendingOf(updates)), reqRgn.rects, PendingOf(updates))
      ensures ChangeAdded(old(PendingOf(server.comparer.updates)), reqRgn.rects, PendingOf(server.comparer.updates))
    {
      hide Covered, Canonical;
      updates.AddChanged(reqRgn);
      server.comparer.updates.AddChanged(reqRgn);
    }

    /** enableContinuousUpdates.  It is called while messages are processed, so the
        update it asks for waits until they are: writeFramebufferUpdate is held. */
    method EnableContinuousUpdates(allowed: bool, enable: bool, r: Rect) returns (answer: Answer)
      requires Valid()
      modifies this`continuousUpdates, cuRegion, requested
      ensures Valid()
      ensures if allowed then Step(old(State()), Continuous(enable, r), State(), Bounds()) else State() == old(State())
      ensures answer == if !allowed then NotAllowed else if enable then UpdateFollows else EndOfContinuousUpdates
      ensures allowed ==> continuousUpdates == enable && requested.rects == if enable then [] else old(requested.rects)
      ensures allowed ==> forall x, y :: Covered(cuRegion.rects, x, y) <==> InBox(r, x, y)
    {
      hide Covered, Canonical, PixelBuffer.View, Step;
      if !allowed {
        return NotAllowed;
      }
      ghost var s := State();
      SetContinuous(enable, r);
      SwitchStep(s, enable, r, State(), Bounds());
      answer := if enable then UpdateFollows else EndOfContinuousUpdates;
    }

    method SetContinuous(enable: bool, r: Rect)
      requires Valid()
      modifies this`continuousUpdates, cuRegion, requested
      ensures Valid() && continuousUpdates == enable
      ensures forall x, y :: Covered(cuRegion.rects, x, y) <==> InBox(r, x, y)
      ensures requested.rects == if enable then [] else old(requested.rects)
    {
      hide Covered, Canonical;
      continuousUpdates := enable;
      ResetRegion(r);
      if enable {
        ForgetRequests();
      }
    }

    method ResetRegion(r: Rect)
      requires Valid()
      modifies cuRegion
      ensures Valid() && forall x, y :: Covered(cuRegion.rects, x, y) <==> InBox(r, x, y)
    {
      hide Covered, Canonical;
      var rect := RectRegion(r);
      Assign(cuRegion, rect);
    }

    method ForgetRequests()
      requires Valid()
      modifies requested
      ensures Valid() && requested.rects == []
    {
      ClearRegion(requested);
    }

    // ------------------------------------------------- writeFramebufferUpdate

    /** Is (x, y) in the area an update may be sent for? */
    ghost predicate Wanted(x: int, y: int)
      reads this, requested, cuRegion
    {
      Covered(requested.rects, x, y) || (continuousUpdates && Covered(cuRegion.rects, x, y))
    }

    /** What is pending in the area asked for lies in the framebuffer. */
    ghost predicate WantedInside()
      reads this, requested, cuRegion, updates, updates.changed, server, server.pb
    {
      forall x, y :: Covered(updates.changed.rects, x, y) && Wanted(x, y) ==> InBox(Bounds(), x, y)
    }

    /** enable_copyrect, as the viewer's encodings say. */
    method UseCopyRect(enable: bool) returns (ghost dropped: bool)
      requires Valid() && Invariant(State(), Bounds()) && WantedInside()
      modifies updates, updates.changed, updates.copied
      ensures Valid() && WantedInside()
      ensures if dropped then Step(old(State()), NoCopyRect, State(), Bounds()) else State() == old(State())
    {
      hide Covered, Canonical, PixelBuffer.View, Step;
      ghost var s := State();
      dropped := !enable && updates.copyEnabled;
      updates.EnableCopyrect(enable);
      if dropped {
        DropStep(s, State(), Bounds());
        hide Valid;
        assert InBuffer(s.client.copied, s.client.delta, Bounds());
      }
    }

    /** The trackers kept for the other viewers are apart from what is kept for this one. */
    ghost predicate Foreign(others: seq<SimpleUpdateTracker>) {
      && server.AllApart(others) && updates !in Trackers(others)
      && updates.changed !in Regions(others) && updates.copied !in Regions(others)
      && requested !in Regions(others) && cuRegion !in Regions(others)
    }

    /** The state of the runs with this viewer and the others. */
    ghost function All(others: seq<SimpleUpdateTracker>, vs: seq<Viewing>): (all: seq<System>)
      requires Valid() && |vs| == |others|
      reads this, server, server.pb, server.pb.data, server.comparer, server.comparer.updates
      reads server.comparer.updates.changed, server.comparer.updates.copied, server.comparer.oldFb
      reads server.comparer.oldFb.data, updates, updates.changed, updates.copied, requested, cuRegion
      reads viewer, viewer.fb, viewer.fb.data, viewer.reader, Trackers(others), Regions(others)
    {
      Together(server.Alone(), [PendingOf(updates)] + Pendings(others), [Seen()] + vs)
    }

    /** checkUpdate, for this viewer and the others. */
    method TellAll(filter: bool, blocked: bool, others: seq<SimpleUpdateTracker>, ghost vs: seq<Viewing>)
      returns (ok: bool, ghost es: seq<Event>)
      requires Valid() && AllValid(others) && Foreign(others) && |vs| == |others|
      modifies server, server.comparer, server.comparer.oldFb, server.comparer.oldFb.data
      modifies server.comparer.updates.changed, server.comparer.updates.copied
      modifies updates, updates.changed, updates.copied, Trackers(others), Regions(others)
      ensures Valid() && AllValid(others)
      ensures TakeTurn(old(All(others, vs)), ByServer(es), All(others, vs), Bounds())
      ensures forall k :: 0 <= k < |es| ==> CheckEvent(es[k], ok)
      ensures (!blocked ==> ok) && (ok ==> server.base == server.pb.View())
      ensures requested.rects == old(requested.rects) && cuRegion.rects == old(cuRegion.rects)
    {
      hide Covered, Canonical, PixelBuffer.View, TakeTurn, Together, Trackers, Regions, Pendings;
      OneMore(updates, others);
      OneMoreApart(updates, others);
      OneMoreValid(updates, others);
      OneMorePending(updates, others);
      ok, es := server.CheckUpdate(filter, blocked, [updates] + others, [Seen()] + vs);
      OneMoreValid(updates, others);
      OneMorePending(updates, others);
    }

    /** checkUpdate on the way to an update. */
    method Check(filter: bool, blocked: bool, others: seq<SimpleUpdateTracker>, ghost vs: seq<Viewing>)
      returns (ok: bool, ghost es: seq<Event>)
      requires Valid() && Invariant(State(), Bounds()) && WantedInside()
      requires AllValid(others) && Foreign(others) && |vs| == |others|
      modifies server, server.comparer, server.comparer.oldFb, server.comparer.oldFb.data
      modifies server.comparer.updates.changed, server.comparer.updates.copied
      modifies updates, updates.changed, updates.copied, Trackers(others), Regions(others)
      ensures Valid() && AllValid(others) && Invariant(State(), Bounds()) && WantedInside()
      ensures TakeTurn(old(All(others, vs)), ByServer(es), All(others, vs), Bounds())
      ensures (!blocked ==> ok) && (ok ==> server.base == server.pb.View())
      ensures requested.rects == old(requested.rects) && cuRegion.rects == old(cuRegion.rects)
    {
      hide Covered, Canonical, PixelBuffer.View, TakeTurn, Together, Trackers, Regions, Pendings, Invariant;
      ghost var s, all := State(), All(others, vs);
      ghost var ps, ws := [PendingOf(updates)] + Pendings(others), [Seen()] + vs;
      FirstOf(server.Alone(), ps, ws);
      ok, es := TellAll(filter, blocked, others, vs);
      FirstOf(server.Alone(), [PendingOf(updates)] + Pendings(others), [Seen()] + vs);
      OwnCheck(all, es, All(others, vs), ok, Bounds());
    }

    /** The area an update is written for. */
    method RequestedArea() returns (req: Region)
      requires Valid()
      ensures Valid() && fresh(req) && req.Valid()
      ensures forall x, y :: Covered(req.rects, x, y) <==> Wanted(x, y)
    {
      hide Covered, Canonical;
      req := new Region();
      NoPoints();
      if continuousUpdates {
        UnionRegion(cuRegion, requested, req);
      } else {
        UnionRegion(req, requested, req);
      }
    }

    /** An answer takes what was asked for; without one the request stays, and so does
        the viewer's picture. */
    ghost predicate Accounted(answered: bool, was: seq<Box>, view: Picture)
      requires viewer.fb.Valid()
      reads this, requested, viewer, viewer.fb, viewer.fb.data
    {
      && requested.rects == (if answered then [] else was)
      && (!answered ==> viewer.fb.View() == view)
    }

    /** The rest of writeFramebufferUpdate: send what is pending in the area asked for. */
    method WritePending() returns (ghost e: Event)
      requires Valid() && Invariant(State(), Bounds()) && WantedInside() && server.base == server.pb.View()
      requires requested.rects != [] || continuousUpdates
      modifies updates.changed, updates.copied, requested, encodeManager, viewer.fb.data, viewer.reader
      modifies viewer.reader.imageBuf
      ensures Valid() && Step(old(State()), e, State(), Bounds())
      ensures e.Update? || e.NoUpdate?
      ensures Accounted(e.Update?, old(requested.rects), old(viewer.fb.View()))
      ensures forall x, y :: InBox(Bounds(), x, y) && old(Wanted(x, y)) ==>
                viewer.fb.View()(x, y) == server.pb.View()(x, y)
    {
      hide Covered, Canonical, PixelBuffer.View, Step, Written, Truthful, CopiedWithin, ChangedWithin, InsideBuffer;
      hide WantedInside;
      ghost var s := State();
      var req, uiChanged, uiCopied, delta := Look();
      if |uiChanged.rects| == 0 && |uiCopied.rects| == 0 {
        return NoUpdate;
      }
      e := TransmitFor(req.rects, uiChanged, uiCopied, delta, s);
    }

    /** Transmit, as the step after s. */
    method TransmitFor(ghost req: seq<Box>, uiChanged: Region, uiCopied: Region, delta: Point, ghost s: System)
      returns (ghost e: Event)
      requires Valid() && State() == s.(client := PendingOf(updates)) && delta == s.client.delta == updates.copyDelta
      requires Truthful(PendingOf(updates), server.base, viewer.fb.View(), Bounds()) && server.base == server.pb.View()
      requires uiChanged.Valid() && uiCopied.Valid() && InsideBuffer(uiChanged.rects, Bounds()) && Asked(s, req)
      requires uiChanged !in {updates.changed, updates.copied, requested}
      requires uiCopied !in {updates.changed, updates.copied, requested}
      requires ChangedWithin(s.client, req, uiChanged.rects) && CopiedWithin(s.client, req, uiCopied.rects)
      requires ChangedWithin(PendingOf(updates), req, uiChanged.rects)
      requires CopiedWithin(PendingOf(updates), req, uiCopied.rects)
      modifies updates.changed, updates.copied, requested, encodeManager, viewer.fb.data, viewer.reader
      modifies viewer.reader.imageBuf
      ensures Valid() && e.Update? && Step(s, e, State(), Bounds()) && requested.rects == []
      ensures forall x, y :: InBox(Bounds(), x, y) && Covered(req, x, y) ==>
                viewer.fb.View()(x, y) == server.pb.View()(x, y)
    {
      hide Covered, Canonical, PixelBuffer.View, Step, Written, Truthful, CopiedWithin, ChangedWithin, InsideBuffer;
      hide Asked;
      ghost var s1 := State();
      e := Transmit(req, uiChanged, uiCopied, delta);
      SendStep(s, s1, e, uiCopied.extents, State(), Bounds());
    }

    /** getUpdateInfo for the area asked for. */
    method Look() returns (req: Region, uiChanged: Region, uiCopied: Region, delta: Point)
      requires Valid() && Truthful(PendingOf(updates), server.base, viewer.fb.View(), Bounds()) && WantedInside()
      modifies updates.copied
      ensures Valid() && fresh(uiChanged) && fresh(uiCopied) && uiChanged.Valid() && uiCopied.Valid()
      ensures delta == updates.copyDelta
      ensures fresh(req) && forall x, y :: Covered(req.rects, x, y) <==> Wanted(x, y)
      ensures Step(old(State()), NoUpdate, State(), Bounds())
      ensures Truthful(PendingOf(updates), server.base, viewer.fb.View(), Bounds())
      ensures InsideBuffer(uiChanged.rects, Bounds())
      ensures ChangedWithin(old(PendingOf(updates)), req.rects, uiChanged.rects)
      ensures ChangedWithin(PendingOf(updates), req.rects, uiChanged.rects)
      ensures CopiedWithin(old(PendingOf(updates)), req.rects, uiCopied.rects)
      ensures CopiedWithin(PendingOf(updates), req.rects, uiCopied.rects)
      ensures uiChanged.rects == [] && uiCopied.rects == [] ==>
                forall x, y :: InBox(Bounds(), x, y) && Wanted(x, y) ==> viewer.fb.View()(x, y) == server.base(x, y)
    {
      hide Covered, Canonical, PixelBuffer.View, Step, Truthful, CopiedWithin, ChangedWithin, InsideBuffer;
      ghost var s := State();
      req := RequestedArea();
      uiChanged, uiCopied, delta := updates.GetUpdateInfo(req);
      SeenInArea(s, State(), req.rects, uiChanged.rects, uiCopied.rects, Bounds());
    }

    /** Write the update, and forget what was asked for and what was pending. */
    method Transmit(ghost req: seq<Box>, uiChanged: Region, uiCopied: Region, delta: Point) returns (ghost e: Event)
      requires Valid() && Truthful(PendingOf(updates), server.pb.View(), viewer.fb.View(), Bounds())
      requires uiChanged.Valid() && uiCopied.Valid() && delta == updates.copyDelta
      requires InsideBuffer(uiChanged.rects, Bounds())
      requires uiChanged !in {updates.changed, updates.copied, requested}
      requires uiCopied !in {updates.changed, updates.copied, requested}
      requires ChangedWithin(PendingOf(updates), req, uiChanged.rects)
      requires CopiedWithin(PendingOf(updates), req, uiCopied.rects)
      modifies updates.changed, updates.copied, requested, encodeManager
      modifies viewer.fb.data, viewer.reader, viewer.reader.imageBuf
      ensures Valid() && Cleared(PendingOf(updates)) && requested.rects == []
      ensures e.Update? && e.req == req && e.uiChanged == uiChanged.rects && e.uiCopied == uiCopied.rects
      ensures Written(e, delta, server.pb.View(), old(viewer.fb.View()), viewer.fb.View())
      ensures forall x, y :: InBox(Bounds(), x, y) && Covered(req, x, y) ==>
                viewer.fb.View()(x, y) == server.pb.View()(x, y)
    {
      hide Covered, Canonical, PixelBuffer.View, Written, Truthful, InsideBuffer, ChangedWithin, CopiedWithin;
      e := Put(req, uiChanged, uiCopied, delta);
      ForgetPending();
    }

    method Put(ghost req: seq<Box>, uiChanged: Region, uiCopied: Region, delta: Point) returns (ghost e: Event)
      requires Valid() && Truthful(PendingOf(updates), server.pb.View(), viewer.fb.View(), Bounds())
      requires uiChanged.Valid() && uiCopied.Valid() && delta == updates.copyDelta
      requires InsideBuffer(uiChanged.rects, Bounds())
      requires ChangedWithin(PendingOf(updates), req, uiChanged.rects)
      requires CopiedWithin(PendingOf(updates), req, uiCopied.rects)
      modifies encodeManager, viewer.fb.data, viewer.reader, viewer.reader.imageBuf
      ensures Valid() && server.pb.View() == old(server.pb.View())
      ensures e.Update? && e.req == req && e.uiChanged == uiChanged.rects && e.uiCopied == uiCopied.rects
      ensures Written(e, delta, server.pb.View(), old(viewer.fb.View()), viewer.fb.View())
      ensures forall x, y :: InBox(Bounds(), x, y) && Covered(req, x, y) ==>
                viewer.fb.View()(x, y) == server.pb.View()(x, y)
    {
      hide Covered, Canonical, PixelBuffer.View, Sent, Enumerates, AllWellFormed;
      ghost var copies, rest := SendUpdate(updates, uiChanged, uiCopied, delta, req, server.pb, encodeManager, viewer);
      e := Update(req, uiChanged.rects, uiCopied.rects, copies, rest);
    }

    method ForgetPending()
      requires Valid()
      modifies updates.changed, updates.copied, requested
      ensures Valid() && Cleared(PendingOf(updates)) && requested.rects == []
      ensures server.pb.View() == old(server.pb.View()) && viewer.fb.View() == old(viewer.fb.View())
    {
      hide Covered, Canonical, PixelBuffer.View;
      ClearRegion(requested);
      updates.Clear();
    }

    // ------------------------------------------- one after the other, as a run

    /** A run so far, up to the present state. */
    ghost predicate SoFar(states: seq<seq<System>>, turns: seq<Turn>, others: seq<SimpleUpdateTracker>,
                          vs: seq<Viewing>)
      requires Valid() && |vs| == |others|
      reads this, server, server.pb, server.pb.data, server.comparer, server.comparer.updates
      reads server.comparer.updates.changed, server.comparer.updates.copied, server.comparer.oldFb
      reads server.comparer.oldFb.data, updates, updates.changed, updates.copied, requested, cuRegion
      reads viewer, viewer.fb, viewer.fb.data, viewer.reader, Trackers(others), Regions(others)
    {
      ManyRun(states, turns, Bounds()) && states[|turns|] == All(others, vs)
    }

    /** Messages without pixels go out, and what was asked for counts as answered. */
    method WriteNoData(others: seq<SimpleUpdateTracker>, ghost vs: seq<Viewing>,
                       ghost states: seq<seq<System>>, ghost turns: seq<Turn>)
      returns (ghost states': seq<seq<System>>, ghost turns': seq<Turn>)
      requires Valid() && Invariant(State(), Bounds()) && WantedInside()
      requires AllValid(others) && Foreign(others) && |vs| == |others| && SoFar(states, turns, others, vs)
      requires requested.rects != [] || continuousUpdates
      modifies requested
      ensures Valid() && Invariant(State(), Bounds()) && WantedInside() && AllValid(others)
      ensures SoFar(states', turns', others, vs) && states'[0] == states[0] && requested.rects == []
    {
      hide Covered, Canonical, PixelBuffer.View, Together, Pendings, Invariant, TakeTurn;
      ghost var s, p, v, ps := server.Alone(), PendingOf(updates), Seen(), Pendings(others);
      ForgetRequests();
      NoPoints();
      assert Pendings(others) == ps;
      states', turns' := OwnTurn(states, turns, s, p, v, NoData, s, p, Seen(), ps, vs, Bounds());
    }

    /** Copies the viewer does not take become changes. */
    method DropCopies(useCopyRect: bool, others: seq<SimpleUpdateTracker>, ghost vs: seq<Viewing>,
                      ghost states: seq<seq<System>>, ghost turns: seq<Turn>)
      returns (ghost states': seq<seq<System>>, ghost turns': seq<Turn>)
      requires Valid() && Invariant(State(), Bounds()) && WantedInside()
      requires AllValid(others) && Foreign(others) && |vs| == |others| && SoFar(states, turns, others, vs)
      modifies updates, updates.changed, updates.copied
      ensures Valid() && Invariant(State(), Bounds()) && WantedInside() && AllValid(others)
      ensures SoFar(states', turns', others, vs) && states'[0] == states[0]
    {
      hide Covered, Canonical, PixelBuffer.View, Together, Pendings, Invariant, TakeTurn, Step;
      ghost var s, p, v, ps := server.Alone(), PendingOf(updates), Seen(), Pendings(others);
      ghost var dropped := UseCopyRect(useCopyRect);
      states', turns' := states, turns;
      assert Pendings(others) == ps;
      if dropped {
        states', turns' := OwnTurn(states, turns, s, p, v, NoCopyRect, s, PendingOf(updates), v, ps, vs, Bounds());
      }
    }

    /** checkUpdate as the next turn. */
    method CheckNext(filter: bool, blocked: bool, others: seq<SimpleUpdateTracker>, ghost vs: seq<Viewing>,
                     ghost states: seq<seq<System>>, ghost turns: seq<Turn>)
      returns (ok: bool, ghost states': seq<seq<System>>, ghost turns': seq<Turn>)
      requires Valid() && Invariant(State(), Bounds()) && WantedInside()
      requires AllValid(others) && Foreign(others) && |vs| == |others| && SoFar(states, turns, others, vs)
      modifies server, server.comparer, server.comparer.oldFb, server.comparer.oldFb.data
      modifies server.comparer.updates.changed, server.comparer.updates.copied
      modifies updates, updates.changed, updates.copied, Trackers(others), Regions(others)
      ensures Valid() && Invariant(State(), Bounds()) && WantedInside() && AllValid(others)
      ensures SoFar(states', turns', others, vs) && states'[0] == states[0]
      ensures (!blocked ==> ok) && (ok ==> server.base == server.pb.View())
      ensures requested.rects == old(requested.rects) && cuRegion.rects == old(cuRegion.rects)
    {
      hide Covered, Canonical, PixelBuffer.View, Together, Trackers, Regions, Pendings, Invariant, ManyRun, TakeTurn;
      ghost var es;
      ok, es := Check(filter, blocked, others, vs);
      states', turns' := NextTurn(states, turns, ByServer(es), All(others, vs), Bounds());
    }

    /** What is pending in the area asked for is sent; the other viewers' trackers are
        left alone. */
    method WriteAlone(others: seq<SimpleUpdateTracker>) returns (ghost e: Event)
      requires Valid() && Invariant(State(), Bounds()) && WantedInside() && server.base == server.pb.View()
      requires (requested.rects != [] || continuousUpdates) && AllValid(others) && Foreign(others)
      modifies updates.changed, updates.copied, requested, encodeManager
      modifies viewer.fb.data, viewer.reader, viewer.reader.imageBuf
      ensures Valid() && AllValid(others) && Pendings(others) == old(Pendings(others))
      ensures Step(old(State()), e, State(), Bounds()) && (e.Update? || e.NoUpdate?)
      ensures Accounted(e.Update?, old(requested.rects), old(viewer.fb.View()))
      ensures forall x, y :: InBox(Bounds(), x, y) && old(Wanted(x, y)) ==>
                viewer.fb.View()(x, y) == server.pb.View()(x, y)
    {
      hide Covered, Canonical, PixelBuffer.View, Pendings, AllValid, VNCServer.AllApart, Invariant, Step, WantedInside;
      hide Wanted, Accounted;
      hide Valid, State;
      e := WritePending();
    }

    /** What is pending in the area asked for, sent as the next turn. */
    method WriteNext(others: seq<SimpleUpdateTracker>, ghost vs: seq<Viewing>,
                     ghost states: seq<seq<System>>, ghost turns: seq<Turn>)
      returns (ghost states': seq<seq<System>>, ghost turns': seq<Turn>, ghost sent: bool)
      requires Valid() && Invariant(State(), Bounds()) && WantedInside() && server.base == server.pb.View()
      requires requested.rects != [] || continuousUpdates
      requires AllValid(others) && Foreign(others) && |vs| == |others| && SoFar(states, turns, others, vs)
      modifies updates.changed, updates.copied, requested, encodeManager
      modifies viewer.fb.data, viewer.reader, viewer.reader.imageBuf
      ensures Valid() && AllValid(others) && SoFar(states', turns', others, vs) && states'[0] == states[0]
      ensures Accounted(sent, old(requested.rects), old(viewer.fb.View()))
      ensures forall x, y :: InBox(Bounds(), x, y) && old(Wanted(x, y)) ==>
                viewer.fb.View()(x, y) == server.pb.View()(x, y)
    {
      hide Covered, Canonical, PixelBuffer.View, Together, Pendings, Invariant, TakeTurn, Step, WantedInside, Wanted;
      hide AllValid, Foreign, Accounted;
      ghost var s, p, v, ps := server.Alone(), PendingOf(updates), Seen(), Pendings(others);
      ghost var e := WriteAlone(others);
      sent := e.Update?;
      states', turns' := OwnTurn(states, turns, s, p, v, e, server.Alone(), PendingOf(updates), Seen(), ps, vs,
                                    Bounds());
    }

    /** Is (x, y) in the area an update is due for, once messages without pixels are sent? */
    ghost predicate Due(noData: bool, x: int, y: int)
      reads this, requested, cuRegion
    {
      if noData then continuousUpdates && Covered(cuRegion.rects, x, y) else Wanted(x, y)
    }

    lemma WantedNow()
      requires requested.rects == [] && continuousUpdates
      ensures forall x, y :: Wanted(x, y) <==> Covered(cuRegion.rects, x, y)
    {
      NoPoints();
      hide Covered;
    }

    lemma NothingDue(held: bool, noData: bool)
      requires held || (requested.rects == [] && !continuousUpdates)
      ensures !held ==> forall x, y :: !Due(noData, x, y)
    {
      NoPoints();
      hide Covered;
    }

    /** What is due once nothing more has been asked for. */
    lemma DueAfter(noData: bool)
      ensures forall x, y :: Due(noData, x, y) <==>
                if noData then continuousUpdates && Covered(cuRegion.rects, x, y) else Wanted(x, y)
      ensures noData && !continuousUpdates ==> forall x, y :: !Due(noData, x, y)
    {
      hide Covered;
    }

    /** writeFramebufferUpdate: a run of at most four turns.  Unless the update is
        held back or blocked, the viewer then shows the server's pixels in the area
        it is due for. */
    method WriteFramebufferUpdate(held: bool, noData: bool, filter: bool, blocked: bool, useCopyRect: bool,
                                  others: seq<SimpleUpdateTracker>, ghost vs: seq<Viewing>)
      returns (ghost states: seq<seq<System>>, ghost turns: seq<Turn>, ghost answered: bool)
      requires Valid() && Invariant(State(), Bounds()) && WantedInside()
      requires AllValid(others) && Foreign(others) && |vs| == |others|
      modifies server, server.comparer, server.comparer.oldFb, server.comparer.oldFb.data
      modifies server.comparer.updates.changed, server.comparer.updates.copied
      modifies updates, updates.changed, updates.copied, requested, encodeManager
      modifies viewer.fb.data, viewer.reader, viewer.reader.imageBuf, Trackers(others), Regions(others)
      ensures Valid() && AllValid(others)
      ensures ManyRun(states, turns, Bounds()) && states[0] == old(All(others, vs))
      ensures states[|turns|] == All(others, vs)
      ensures Accounted(answered, old(requested.rects), old(viewer.fb.View()))
      ensures if held || (old(requested.rects) == [] && !continuousUpdates) then turns == [] && !answered
              else noData ==> answered
      ensures !held && !blocked ==> forall x, y :: InBox(Bounds(), x, y) && old(Due(noData, x, y)) ==>
                viewer.fb.View()(x, y) == server.pb.View()(x, y)
    {
      hide Covered, Canonical, PixelBuffer.View, Invariant, All, Trackers, Regions, ManyRun, Foreign, AllValid, State;
      hide WantedInside, Wanted, Due, Accounted, SoFar;
      states, turns, answered := [All(others, vs)], [], false;
      StartsHere(others, vs);
      if held || (|requested.rects| == 0 && !continuousUpdates) {
        NothingDue(held, noData);
        return;
      }
      states, turns, answered := AnswerRequest(noData, filter, blocked, useCopyRect, others, vs, states, turns);
      RunSoFar(states, turns, others, vs);
    }

    lemma StartsHere(others: seq<SimpleUpdateTracker>, vs: seq<Viewing>)
      requires Valid() && |vs| == |others|
      ensures SoFar([All(others, vs)], [], others, vs) && ManyRun([All(others, vs)], [], Bounds())
      ensures Accounted(false, requested.rects, viewer.fb.View())
    {
      hide All;
    }

    lemma RunSoFar(states: seq<seq<System>>, turns: seq<Turn>, others: seq<SimpleUpdateTracker>, vs: seq<Viewing>)
      requires Valid() && |vs| == |others| && SoFar(states, turns, others, vs)
      ensures ManyRun(states, turns, Bounds()) && states[|turns|] == All(others, vs)
    {
      hide All;
    }

    /** Something has been asked for: messages without pixels, then the update. */
    method AnswerRequest(noData: bool, filter: bool, blocked: bool, useCopyRect: bool,
                         others: seq<SimpleUpdateTracker>, ghost vs: seq<Viewing>,
                         ghost states: seq<seq<System>>, ghost turns: seq<Turn>)
      returns (ghost states': seq<seq<System>>, ghost turns': seq<Turn>, ghost answered: bool)
      requires Valid() && Invariant(State(), Bounds()) && WantedInside() && (requested.rects != [] || continuousUpdates)
      requires AllValid(others) && Foreign(others) && |vs| == |others| && SoFar(states, turns, others, vs)
      modifies server, server.comparer, server.comparer.oldFb, server.comparer.oldFb.data
      modifies server.comparer.updates.changed, server.comparer.updates.copied
      modifies updates, updates.changed, updates.copied, requested, encodeManager
      modifies viewer.fb.data, viewer.reader, viewer.reader.imageBuf, Trackers(others), Regions(others)
      ensures Valid() && AllValid(others) && SoFar(states', turns', others, vs) && states'[0] == states[0]
      ensures Accounted(answered, old(requested.rects), old(viewer.fb.View())) && (noData ==> answered)
      ensures !blocked ==> forall x, y :: InBox(Bounds(), x, y) && old(Due(noData, x, y)) ==>
                viewer.fb.View()(x, y) == server.pb.View()(x, y)
    {
      hide Covered, Canonical, PixelBuffer.View, Invariant, Trackers, Regions, Foreign, AllValid, State, SoFar;
      hide WantedInside, Wanted, Due;
      states', turns', answered := states, turns, false;
      DueAfter(noData);
      if noData {
        states', turns' := WriteNoData(others, vs, states', turns');
        answered := true;
        if !continuousUpdates { return; }
        WantedNow();
      }
      ghost var sent;
      states', turns', sent := CheckAndWrite(filter, blocked, useCopyRect, others, vs, states', turns');
      answered := answered || sent;
    }

    method CheckAndWrite(filter: bool, blocked: bool, useCopyRect: bool, others: seq<SimpleUpdateTracker>,
                         ghost vs: seq<Viewing>, ghost states: seq<seq<System>>, ghost turns: seq<Turn>)
      returns (ghost states': seq<seq<System>>, ghost turns': seq<Turn>, ghost sent: bool)
      requires Valid() && Invariant(State(), Bounds()) && WantedInside() && (requested.rects != [] || continuousUpdates)
      requires AllValid(others) && Foreign(others) && |vs| == |others| && SoFar(states, turns, others, vs)
      modifies server, server.comparer, server.comparer.oldFb, server.comparer.oldFb.data
      modifies server.comparer.updates.changed, server.comparer.updates.copied
      modifies updates, updates.changed, updates.copied, requested, encodeManager
      modifies viewer.fb.data, viewer.reader, viewer.reader.imageBuf, Trackers(others), Regions(others)
      ensures Valid() && AllValid(others) && SoFar(states', turns', others, vs) && states'[0] == states[0]
      ensures Accounted(sent, old(requested.rects), old(viewer.fb.View()))
      ensures !blocked ==> forall x, y :: InBox(Bounds(), x, y) && old(Wanted(x, y)) ==>
                viewer.fb.View()(x, y) == server.pb.View()(x, y)
    {
      hide Covered, Canonical, PixelBuffer.View, Invariant, SoFar, Trackers, Regions, Foreign, AllValid, State;
      states', turns' := DropCopies(useCopyRect, others, vs, states, turns);
      sent := false;
      var ok;
      ok, states', turns' := CheckNext(filter, blocked, others, vs, states', turns');
      if ok {
        states', turns', sent := WriteNext(others, vs, states', turns');
      }
    }
  }

  lemma NextTurn(states: seq<seq<System>>, turns: seq<Turn>, t: Turn, all: seq<System>, bounds: Rect)
    returns (states': seq<seq<System>>, turns': seq<Turn>)
    requires ManyRun(states, turns, bounds) && TakeTurn(states[|turns|], t, all, bounds)
    ensures ManyRun(states', turns', bounds) && states'[0] == states[0] && states'[|turns'|] == all
  {
    hide TakeTurn;
    states', turns' := states + [all], turns + [t];
  }

  /** A turn of the first viewer, which leaves what is kept for the others alone. */
  lemma OwnTurn(states: seq<seq<System>>, turns: seq<Turn>, s: System, p: Pending, v: Viewing, e: Event,
                s': System, p': Pending, v': Viewing, ps: seq<Pending>, vs: seq<Viewing>, bounds: Rect)
    returns (states': seq<seq<System>>, turns': seq<Turn>)
    requires |ps| == |vs| && ManyRun(states, turns, bounds) && states[|turns|] == Together(s, [p] + ps, [v] + vs)
    requires OfViewer(e) && Step(With(s, p, v), e, With(s', p', v'), bounds)
    ensures ManyRun(states', turns', bounds) && states'[0] == states[0]
    ensures states'[|turns'|] == Together(s', [p'] + ps, [v'] + vs)
    ensures !e.Update? && Invariant(With(s, p, v), bounds) ==> Invariant(With(s', p', v'), bounds)
  {
    hide ManyRun, Step, Invariant;
    states', turns' := NextTurn(states, turns, ByViewer(0, e), Together(s', [p'] + ps, [v'] + vs), bounds);
    if !e.Update? && Invariant(With(s, p, v), bounds) {
      StepKeepsInvariant(With(s, p, v), e, With(s', p', v'), bounds);
    }
  }

  /** A viewer that comes in while nothing has been reported. */
  lemma FirstOfAll(s: System, bounds: Rect)
    requires s.client.copied == [] && s.requested == [] && !s.continuous
    requires forall x, y :: Covered(s.client.changed, x, y) <==> InBox(bounds, x, y)
    ensures Newcomer(s, bounds)
    ensures s.base == s.fb && s.firstCompare && s.server.copied == [] ==> Initial(s, bounds)
  {
    NoPoints();
    hide Covered;
  }

  lemma DropStep(s: System, s': System, bounds: Rect)
    requires s' == s.(client := s'.client) && s'.client.copied == [] && s'.client.delta == s.client.delta
    requires forall x, y :: Covered(s'.client.changed, x, y) <==>
               Covered(s.client.changed, x, y) || Covered(s.client.copied, x, y)
    ensures Step(s, NoCopyRect, s', bounds)
  {
  }

  lemma CheckAddsInside(s: System, e: Event, s': System, bounds: Rect)
    requires Invariant(s, bounds) && Step(s, e, s', bounds) && (e.Idle? || e.Blocked? || e.Report?)
    ensures forall x, y :: Covered(s'.client.changed, x, y) ==> Covered(s.client.changed, x, y) || InBox(bounds, x, y)
  {
    if e.Report? { ReportCopiesInside(s, e, s', bounds); }
  }

  /** getUpdateInfo for the area asked for; if it finds nothing, the viewer is up
      to date there. */
  lemma SeenInArea(s: System, s1: System, req: seq<Box>, uiChanged: seq<Box>, uiCopied: seq<Box>, bounds: Rect)
    requires Truthful(s.client, s.base, s.view, bounds)
    requires s1 == s.(client := s.client.(copied := s1.client.copied))
    requires forall x, y :: Covered(s1.client.copied, x, y) <==>
               Covered(s.client.copied, x, y) && !Covered(s.client.changed, x, y)
    requires forall x, y :: Covered(uiChanged, x, y) <==> Covered(s.client.changed, x, y) && Covered(req, x, y)
    requires forall x, y :: Covered(uiCopied, x, y) <==> Covered(s1.client.copied, x, y) && Covered(req, x, y)
    requires forall x, y :: Covered(s.client.changed, x, y) && Covered(req, x, y) ==> InBox(bounds, x, y)
    ensures Step(s, NoUpdate, s1, bounds) && Truthful(s1.client, s.base, s.view, bounds)
    ensures ChangedWithin(s.client, req, uiChanged) && CopiedWithin(s.client, req, uiCopied)
    ensures InsideBuffer(uiChanged, bounds)
    ensures ChangedWithin(s1.client, req, uiChanged) && CopiedWithin(s1.client, req, uiCopied)
    ensures uiChanged == [] && uiCopied == [] ==>
              forall x, y :: InBox(bounds, x, y) && Covered(req, x, y) ==> s.view(x, y) == s.base(x, y)
  {
    NoPoints();
    hide Covered;
  }

  /** The messages of an update and what they make of the viewer's picture. */
  ghost predicate Written(e: Event, delta: Point, fb: Picture, view: Picture, view': Picture)
    requires e.Update?
  {
    && Enumerates(e.copies, e.copies, e.uiCopied, delta.x <= 0, delta.y <= 0, 0)
    && Sent(e.rest, fb, e.uiChanged) && AllWellFormed(CopyMsgs(e.copies, delta) + e.rest)
    && forall x, y :: view'(x, y) == Play(view, CopyMsgs(e.copies, delta) + e.rest)(x, y)
  }

  lemma SendStep(s: System, s1: System, e: Event, extents: Box, s': System, bounds: Rect)
    requires e.Update? && s1 == s.(client := s1.client) && s1.client.delta == s.client.delta
    requires s' == s.(client := s'.client, requested := [], view := s'.view) && Cleared(s'.client)
    requires s.base == s.fb && Asked(s, e.req) && Canonical(e.uiCopied, extents)
    requires ChangedWithin(s.client, e.req, e.uiChanged) && CopiedWithin(s.client, e.req, e.uiCopied)
    requires InsideBuffer(e.uiChanged, bounds) && Written(e, s.client.delta, s.fb, s.view, s'.view)
    ensures Step(s, e, s', bounds)
  {
    hide Covered, Enumerates, Sent, AllWellFormed, Play;
  }

  ghost predicate RequestAdded(was: seq<Box>, area: seq<Box>, continuous: bool, now: seq<Box>) {
    if continuous then now == was
    else forall x, y :: Covered(now, x, y) <==> Covered(was, x, y) || Covered(area, x, y)
  }

  /** A region made of one rectangle has the rectangle's points. */
  lemma RequestStep(s: System, r: Rect, area: seq<Box>, incremental: bool, s': System, bounds: Rect)
    requires forall x, y :: Covered(area, x, y) <==> InBox(r, x, y)
    requires s' == s.(server := s'.server, client := s'.client, requested := s'.requested)
    requires RequestAdded(s.requested, area, incremental && s.continuous, s'.requested)
    requires if incremental then s'.client == s.client && s'.server == s.server
             else ChangeAdded(s.client, area, s'.client) && ChangeAdded(s.server, area, s'.server)
    ensures Step(s, Request(r, incremental), s', bounds)
  {
    PartitionOne(r);
    hide Covered;
  }

  /** What a request adds, point by point. */
  lemma NowAsked(s: System, r: Rect, area: seq<Box>, incremental: bool, s': System)
    requires forall x, y :: Covered(area, x, y) <==> InBox(r, x, y)
    requires RequestAdded(s.requested, area, incremental && s.continuous, s'.requested)
    requires if incremental then s'.client == s.client && s'.server == s.server
             else ChangeAdded(s.client, area, s'.client) && ChangeAdded(s.server, area, s'.server)
    ensures forall x, y :: Covered(s'.requested, x, y) <==>
              Covered(s.requested, x, y) || (InBox(r, x, y) && !(incremental && s.continuous))
    ensures forall x, y :: Covered(s'.client.changed, x, y) <==>
              Covered(s.client.changed, x, y) || (InBox(r, x, y) && !incremental)
    ensures forall x, y :: Covered(s'.server.changed, x, y) <==>
              Covered(s.server.changed, x, y) || (InBox(r, x, y) && !incremental)
  {
    hide Covered, InBox;
  }

  /** A tracker in which a rectangle is still to be sent. */
  method WholeScreenTracker(r: Rect, useCopyRect: bool) returns (t: SimpleUpdateTracker)
    ensures fresh(t) && fresh(t.changed) && fresh(t.copied) && t.Valid() && t.copied.rects == []
    ensures forall x, y :: Covered(t.changed.rects, x, y) <==> InBox(r, x, y)
  {
    t := new SimpleUpdateTracker(useCopyRect);
    var all := RectRegion(r);
    NoPoints();
    t.AddChanged(all);
  }

  lemma SwitchStep(s: System, enable: bool, r: Rect, s': System, bounds: Rect)
    requires s' == s.(continuous := enable, cuRegion := s'.cuRegion, requested := s'.requested)
    requires s'.requested == if enable then [] else s.requested
    requires forall x, y :: Covered(s'.cuRegion, x, y) <==> InBox(r, x, y)
    ensures Step(s, Continuous(enable, r), s', bounds)
  {
  }

  ghost predicate InNone(r: Region, a: SimpleUpdateTracker, b: SimpleUpdateTracker) {
    r != a.changed && r != a.copied && r != b.changed && r != b.copied
  }

  ghost predicate SameShape(a: PixelBuffer, b: PixelBuffer)
    reads a, b
  {
    a != b && a.GetRect() == b.GetRect() && a.size == b.size
  }
}
