/** Runs of one server with any number of viewers. */
module ManyViewers {
  import opened Banding
  import opened PixelBuffers
  import opened RegionCopy
  import opened UpdateTracking
  import opened EncodeManagement
  import opened ViewerSide
  import opened UpdateRuns

  /** Two states show the same server. */
  ghost predicate SameServer(a: System, b: System) {
    && a.fb == b.fb && a.base == b.base && a.server == b.server
    && a.shadow == b.shadow && a.firstCompare == b.firstCompare && a.enabled == b.enabled
  }

  /** Two states show the same viewer, with what the server keeps for it. */
  ghost predicate SameViewer(a: System, b: System) {
    && a.client == b.client && a.requested == b.requested
    && a.continuous == b.continuous && a.cuRegion == b.cuRegion && a.view == b.view
  }

  /** One server, together with each of its viewers. */
  ghost predicate OneServer(all: seq<System>) {
    forall i, j :: 0 <= i < |all| && 0 <= j < |all| ==> SameServer(all[i], all[j])
  }

  /** A turn of one viewer or of the server; a further viewer comes in, or one leaves. */
  datatype Turn =
    | ByViewer(k: nat, e: Event)
    | ByServer(es: seq<Event>)
    | Joins(newcomer: System)
    | Leaves(gone: nat)

  /** The events that concern one viewer. */
  predicate OfViewer(e: Event) {
    e.Request? || e.Continuous? || e.NoCopyRect? || e.NoData? || e.NoUpdate? || e.Update?
  }

  /** A viewer's turn: the others are left alone, but a full request reaches the
      server's tracker, which all of them share. */
  ghost predicate ViewerTurn(all: seq<System>, k: nat, e: Event, all': seq<System>, bounds: Rect) {
    && k < |all| == |all'| && OfViewer(e) && Step(all[k], e, all'[k], bounds)
    && forall j :: 0 <= j < |all| && j != k ==> SameViewer(all[j], all'[j])
  }

  /** The server's turn: drawing, moving, and reporting to every viewer's tracker. */
  ghost predicate ServerTurn(all: seq<System>, es: seq<Event>, all': seq<System>, bounds: Rect) {
    && |es| == |all| == |all'|
    && forall j :: 0 <= j < |all| ==> !OfViewer(es[j]) && Step(all[j], es[j], all'[j], bounds)
  }

  ghost predicate TakeTurn(all: seq<System>, t: Turn, all': seq<System>, bounds: Rect) {
    && OneServer(all')
    && match t
       case ByViewer(k, e) => ViewerTurn(all, k, e, all', bounds)
       case ByServer(es) => ServerTurn(all, es, all', bounds)
       case Joins(newcomer) => Newcomer(newcomer, bounds) && all' == all + [newcomer] && all != []
       case Leaves(gone) => gone < |all| && all' == all[..gone] + all[gone + 1..]
  }

  /** A viewer whose whole screen still has to be sent. */
  ghost predicate Newcomer(s: System, bounds: Rect) {
    && InBuffer(s.client.copied, s.client.delta, bounds) && s.requested == [] && !s.continuous
    && forall x, y :: InBox(bounds, x, y) ==> Covered(s.client.changed, x, y)
  }

  /** A viewer's turn as another viewer sees it: nothing, or an area reported as
      drawn that still looks the same. */
  lemma OthersSee(all: seq<System>, k: nat, e: Event, all': seq<System>, bounds: Rect, j: nat)
    requires OneServer(all) && OneServer(all') && ViewerTurn(all, k, e, all', bounds)
    requires j < |all| && j != k
    ensures all'[j] == all[j] || (e.Request? && Step(all[j], Draw([e.r]), all'[j], bounds))
  {
    assert SameServer(all[j], all[k]) && SameServer(all'[j], all'[k]) && SameViewer(all[j], all'[j]);
    hide ChangeAdded, CopiedLess, Sent, Covered;
  }

  /** Every viewer's tracker, and the server's, is truthful. */
  ghost predicate AllTruthful(all: seq<System>, bounds: Rect) {
    OneServer(all) && forall j :: 0 <= j < |all| ==> Invariant(all[j], bounds)
  }

  /** An update leaves nothing pending outside the area it is sent for. */
  ghost predicate MissesNothing(all: seq<System>, t: Turn, bounds: Rect) {
    t.ByViewer? && t.k < |all| ==> NothingMissed(all[t.k], t.e, bounds)
  }

  lemma TurnKeepsTruthful(all: seq<System>, t: Turn, all': seq<System>, bounds: Rect)
    requires AllTruthful(all, bounds) && TakeTurn(all, t, all', bounds) && MissesNothing(all, t, bounds)
    ensures AllTruthful(all', bounds)
  {
    forall j | 0 <= j < |all'| ensures Invariant(all'[j], bounds) {
      ViewerKeepsTruthful(all, t, all', bounds, j);
    }
  }

  lemma ViewerKeepsTruthful(all: seq<System>, t: Turn, all': seq<System>, bounds: Rect, j: nat)
    requires AllTruthful(all, bounds) && TakeTurn(all, t, all', bounds) && MissesNothing(all, t, bounds)
    requires j < |all'|
    ensures Invariant(all'[j], bounds)
  {
    hide Step, Invariant, NothingMissed, Newcomer, SameServer, SameViewer;
    match t
    case ByViewer(k, e) =>
      if j == k {
        StepKeepsInvariant(all[k], e, all'[k], bounds);
      } else {
        OthersSee(all, k, e, all', bounds, j);
        if all'[j] != all[j] {
          DrawMissesNothing(all[j], [e.r], bounds);
          StepKeepsInvariant(all[j], Draw([e.r]), all'[j], bounds);
        }
      }
    case ByServer(es) =>
      ServerMissesNothing(all[j], es[j], bounds);
      StepKeepsInvariant(all[j], es[j], all'[j], bounds);
    case Joins(newcomer) =>
      if j == |all| {
        assert all'[0] == all[0] && SameServer(all'[0], all'[j]);
        NewcomerTruthful(all[0], newcomer, bounds);
      }
    case Leaves(gone) =>
      assert all'[j] == all[if j < gone then j else j + 1];
  }

  lemma DrawMissesNothing(s: System, area: seq<Box>, bounds: Rect)
    ensures NothingMissed(s, Draw(area), bounds)
  {
  }

  lemma ServerMissesNothing(s: System, e: Event, bounds: Rect)
    requires !OfViewer(e)
    ensures NothingMissed(s, e, bounds)
  {
  }

  lemma NewcomerTruthful(s: System, newcomer: System, bounds: Rect)
    requires Invariant(s, bounds) && SameServer(s, newcomer) && Newcomer(newcomer, bounds)
    ensures Invariant(newcomer, bounds)
  {
    hide Covered;
  }

  // -------------------------------------------------------------------- runs

  ghost predicate ManyRun(states: seq<seq<System>>, turns: seq<Turn>, bounds: Rect) {
    && |states| == |turns| + 1
    && forall i :: 0 <= i < |turns| ==> TakeTurn(states[i], turns[i], states[i + 1], bounds)
  }

  ghost predicate AllInitial(all: seq<System>, bounds: Rect) {
    OneServer(all) && forall j :: 0 <= j < |all| ==> Initial(all[j], bounds)
  }

  lemma {:induction false} ManyTruthful(states: seq<seq<System>>, turns: seq<Turn>, bounds: Rect, i: nat)
    requires ManyRun(states, turns, bounds) && AllInitial(states[0], bounds) && i < |states|
    requires forall j :: 0 <= j < i ==> MissesNothing(states[j], turns[j], bounds)
    ensures AllTruthful(states[i], bounds)
  {
    if i > 0 {
      hide TakeTurn, MissesNothing, AllTruthful;
      ManyTruthful(states, turns, bounds, i - 1);
      TurnKeepsTruthful(states[i - 1], turns[i - 1], states[i], bounds);
    } else {
      forall j | 0 <= j < |states[0]| ensures Invariant(states[0][j], bounds) {
        InitialTruthful(states[0][j], bounds);
      }
    }
  }

  lemma InitialTruthful(s: System, bounds: Rect)
    requires Initial(s, bounds)
    ensures Invariant(s, bounds)
  {
    NoPoints();
    hide Covered;
  }

  /** With any number of viewers coming and going, each asking for what it likes:
      as long as no update left something pending outside its area, every update
      leaves its viewer equal to the framebuffer in the area asked for. */
  lemma EveryViewerCorrect(states: seq<seq<System>>, turns: seq<Turn>, bounds: Rect, i: nat)
    requires ManyRun(states, turns, bounds) && AllInitial(states[0], bounds)
    requires i < |turns| && turns[i].ByViewer? && turns[i].e.Update?
    requires forall j :: 0 <= j < i ==> MissesNothing(states[j], turns[j], bounds)
    ensures turns[i].k < |states[i + 1]|
    ensures var s := states[i + 1][turns[i].k];
      forall x, y :: InBox(bounds, x, y) && Covered(turns[i].e.req, x, y) ==> s.view(x, y) == s.fb(x, y)
  {
    ManyTruthful(states, turns, bounds, i);
    hide MissesNothing;
    assert TakeTurn(states[i], turns[i], states[i + 1], bounds);
    ViewerUpdated(states[i][turns[i].k], turns[i].e, states[i + 1][turns[i].k], bounds);
  }

  lemma ViewerUpdated(s: System, e: Event, s': System, bounds: Rect)
    requires Invariant(s, bounds) && e.Update? && Step(s, e, s', bounds)
    ensures forall x, y :: InBox(bounds, x, y) && Covered(e.req, x, y) ==> s'.view(x, y) == s'.fb(x, y)
  {
    UpdateBringsUpToDate(s, e, s', bounds);
    hide Covered, Sent;
  }

  // ------------------------------------------------------ whole-screen requests

  predicate AllWholeScreen(t: Turn, bounds: Rect) {
    t.ByViewer? ==> WholeScreen(t.e, bounds)
  }

  ghost predicate EveryoneAsksForAll(all: seq<System>, bounds: Rect) {
    forall j :: 0 <= j < |all| ==> AsksForAll(all[j], bounds)
  }

  lemma TurnAsksForAll(all: seq<System>, t: Turn, all': seq<System>, bounds: Rect)
    requires OneServer(all) && EveryoneAsksForAll(all, bounds)
    requires TakeTurn(all, t, all', bounds) && AllWholeScreen(t, bounds)
    ensures EveryoneAsksForAll(all', bounds) && MissesNothing(all, t, bounds)
  {
    hide Step, WholeScreen, AsksForAll, NothingMissed, Newcomer;
    if t.ByViewer? { StepAsksForAll(all[t.k], t.e, all'[t.k], bounds); }
    forall j | 0 <= j < |all'| ensures AsksForAll(all'[j], bounds) {
      ViewerAsksForAll(all, t, all', bounds, j);
    }
  }

  lemma ViewerAsksForAll(all: seq<System>, t: Turn, all': seq<System>, bounds: Rect, j: nat)
    requires OneServer(all) && EveryoneAsksForAll(all, bounds) && j < |all'|
    requires TakeTurn(all, t, all', bounds) && AllWholeScreen(t, bounds)
    ensures AsksForAll(all'[j], bounds)
  {
    hide Step, WholeScreen, AsksForAll, NothingMissed, Newcomer, OneServer;
    match t
    case ByViewer(k, e) =>
      if j == k {
        StepAsksForAll(all[k], e, all'[k], bounds);
      } else {
        SameAsking(all[j], all'[j], bounds);
      }
    case ByServer(es) =>
      ServerAsksNothing(es[j], bounds);
      StepAsksForAll(all[j], es[j], all'[j], bounds);
    case Joins(newcomer) =>
      if j == |all| { NewcomerAsksNothing(newcomer, bounds); }
    case Leaves(gone) =>
      assert all'[j] == all[if j < gone then j else j + 1];
  }

  lemma SameAsking(s: System, s': System, bounds: Rect)
    requires AsksForAll(s, bounds) && SameViewer(s, s')
    ensures AsksForAll(s', bounds)
  {
  }

  lemma ServerAsksNothing(e: Event, bounds: Rect)
    requires !OfViewer(e)
    ensures WholeScreen(e, bounds)
  {
  }

  lemma NewcomerAsksNothing(s: System, bounds: Rect)
    requires Newcomer(s, bounds)
    ensures AsksForAll(s, bounds)
  {
  }

  lemma {:induction false} ManyAskForAll(states: seq<seq<System>>, turns: seq<Turn>, bounds: Rect, i: nat)
    requires ManyRun(states, turns, bounds) && AllInitial(states[0], bounds) && i < |states|
    requires forall j :: 0 <= j < |turns| ==> AllWholeScreen(turns[j], bounds)
    ensures EveryoneAsksForAll(states[i], bounds) && OneServer(states[i])
    ensures forall j :: 0 <= j < i ==> MissesNothing(states[j], turns[j], bounds)
  {
    if i > 0 {
      ManyAskForAll(states, turns, bounds, i - 1);
      hide AllWholeScreen, MissesNothing, EveryoneAsksForAll, OneServer, AllInitial;
      assert TakeTurn(states[i - 1], turns[i - 1], states[i], bounds);
      TurnAsksForAll(states[i - 1], turns[i - 1], states[i], bounds);
    }
  }

  /** If every viewer asks for its whole screen only, each update leaves its viewer
      equal to the framebuffer, whatever the others do. */
  lemma EveryScreenCorrect(states: seq<seq<System>>, turns: seq<Turn>, bounds: Rect, i: nat)
    requires ManyRun(states, turns, bounds) && AllInitial(states[0], bounds)
    requires forall j :: 0 <= j < |turns| ==> AllWholeScreen(turns[j], bounds)
    requires i < |turns| && turns[i].ByViewer? && turns[i].e.Update?
    ensures turns[i].k < |states[i + 1]|
    ensures var s := states[i + 1][turns[i].k]; SamePicture(s.view, s.fb, bounds)
  {
    hide AllWholeScreen, AllInitial, EveryoneAsksForAll;
    ManyAskForAll(states, turns, bounds, i + 1);
    ManyTruthful(states, turns, bounds, i);
    assert TakeTurn(states[i], turns[i], states[i + 1], bounds) && MissesNothing(states[i], turns[i], bounds);
    hide Step, Invariant;
    ScreenUpdated(states[i][turns[i].k], turns[i].e, states[i + 1][turns[i].k], bounds);
  }

  lemma ScreenUpdated(s: System, e: Event, s': System, bounds: Rect)
    requires Invariant(s, bounds) && e.Update? && Step(s, e, s', bounds) && NothingMissed(s, e, bounds)
    ensures SamePicture(s'.view, s'.fb, bounds)
  {
    UpdateComplete(s, e, s', bounds);
  }
}
