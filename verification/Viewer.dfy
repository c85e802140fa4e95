/** The viewer's side of an update, and one whole update from tracker to screen. */
module ViewerSide {
  import opened Arithmetic
  import opened Banding
  import opened XRegion
  import opened RegionRects
  import opened PixelBuffers
  import opened RegionCopy
  import opened UpdateMessages
  import opened RawEncoding
  import opened UpdateTracking
  import opened EncodeManagement

  /** The rectangle, and for a copy its source, lie inside the viewer's
      framebuffer; pixels have the size of those there. */
  predicate InView(m: Msg, bounds: Rect, size: nat) {
    && EnclosedBy(m.r, bounds)
    && (if m.CopyMsg? then EnclosedBy(Translate(m.r, Point(m.srcX - m.r.x1, m.srcY - m.r.y1)), bounds)
        else PixelSize(m) == size)
  }

  // ----------------------------------------------------------- solid colours

  /** memcpy of one pixel. */
  method PutPixel(fb: PixelBuffer, x: int, y: int, pix: Pixel)
    requires fb.Valid() && InBox(fb.GetRect(), x, y) && |pix| == fb.size
    modifies fb.data
    ensures forall u, v :: fb.View()(u, v) == if u == x && v == y then pix else old(fb.View())(u, v)
  {
    hide ByteCount, RowStart, BytesOf;
    ghost var was := fb.Memory();
    ByteRange(x, x + 1, fb.stride, fb.size);
    ByteCountNext(x, fb.size);
    PutRow(fb, ByteCount(x, fb.size), y, pix);
    forall u, v ensures fb.View()(u, v) == if u == x && v == y then pix else old(fb.View())(u, v) {
      OnePixelPut(was, fb.Memory(), fb.size, x, y, pix, u, v);
    }
  }

  lemma OnePixelPut(was: ByteMap, now: ByteMap, size: nat, x: int, y: int, pix: Pixel, u: int, v: int)
    requires |pix| == size && forall c, w :: now(c, w) == RowPut(was, ByteCount(x, size), y, pix, c, w)
    ensures PixelAt(now, size, u, v) == if u == x && v == y then pix else PixelAt(was, size, u, v)
  {
    ByteCountNext(x, size);
    hide ByteCount;
    var from := if u == x && v == y then pix else PixelAt(was, size, u, v);
    forall k | 0 <= k < size ensures PixelAt(now, size, u, v)[k] == from[k] {
      InColumns(u, x, x + 1, size, k);
    }
    assert PixelAt(now, size, u, v) == from;
  }

  /** fillRect. */
  method FillRect(fb: PixelBuffer, r: Rect, pix: Pixel)
    requires fb.Valid() && EnclosedBy(r, fb.GetRect()) && NonEmptyBox(r) && |pix| == fb.size
    modifies fb.data
    ensures forall x, y :: fb.View()(x, y) == if InBox(r, x, y) then pix else old(fb.View())(x, y)
  {
    hide PixelBuffer.View;
    ghost var was := fb.View();
    for y := r.y1 to r.y2
      invariant forall u, v :: fb.View()(u, v) == if InBox(r.(y2 := y), u, v) then pix else was(u, v)
    {
      for x := r.x1 to r.x2
        invariant forall u, v :: fb.View()(u, v) ==
                    if InBox(r.(y2 := y), u, v) || InBox(Box(r.x1, y, x, y + 1), u, v) then pix else was(u, v)
      {
        PutPixel(fb, x, y, pix);
      }
    }
  }

  // -------------------------------------------------------------- the viewer

  class Viewer {
    const fb: PixelBuffer
    const reader: MsgReader

    ghost predicate Valid()
      reads this, fb, reader
    {
      fb.Valid() && reader.Valid() && reader.imageBuf != fb.data
    }

    constructor (buffer: PixelBuffer)
      requires buffer.Valid()
      ensures Valid() && fb == buffer && fresh(reader) && fresh(reader.imageBuf)
    {
      fb := buffer;
      reader := new MsgReader(0);
    }

    /** One rectangle: CopyRectDecoder, a solid fill, or RawDecoder. */
    method ReadRect(m: Msg)
      requires Valid() && WellFormed(m) && InView(m, fb.GetRect(), fb.size)
      modifies fb.data, reader, reader.imageBuf
      ensures Valid() && (reader.imageBuf == old(reader.imageBuf) || fresh(reader.imageBuf))
      ensures forall x, y :: fb.View()(x, y) == Shown(old(fb.View()), m, x, y)
    {
      hide PixelBuffer.View, PixelAt, BytesOf;
      match m
      case CopyMsg(r, srcX, srcY) => CopyRectInside(fb, r, Point(r.x1 - srcX, r.y1 - srcY));
      case SolidMsg(r, colour) => FillRect(fb, r, colour);
      case DataMsg(r, size, bytes) => RawDecode(fb, r, bytes, reader);
    }

    /** The rectangles of one update, in order. */
    method ReadUpdate(msgs: seq<Msg>)
      requires Valid() && AllWellFormed(msgs)
      requires forall i :: 0 <= i < |msgs| ==> InView(msgs[i], fb.GetRect(), fb.size)
      modifies fb.data, reader, reader.imageBuf
      ensures Valid() && (reader.imageBuf == old(reader.imageBuf) || fresh(reader.imageBuf))
      ensures forall x, y :: fb.View()(x, y) == Play(old(fb.View()), msgs)(x, y)
    {
      hide PixelBuffer.View, WellFormed;
      ghost var was := fb.View();
      for k := 0 to |msgs|
        invariant Valid() && (reader.imageBuf == old(reader.imageBuf) || fresh(reader.imageBuf))
        invariant forall x, y :: fb.View()(x, y) == Play(was, msgs[..k])(x, y)
      {
        ghost var before := fb.View();
        ReadRect(msgs[k]);
        assert msgs[..k + 1][..k] == msgs[..k];
        forall x, y ensures Shown(before, msgs[k], x, y) == Play(was, msgs[..k + 1])(x, y) {
          ShownSame(before, Play(was, msgs[..k]), msgs[k], x, y);
        }
      }
      assert msgs[..|msgs|] == msgs;
    }
  }

  lemma ShownSame(a: Picture, b: Picture, m: Msg, x: int, y: int)
    requires WellFormed(m) && forall u, v :: a(u, v) == b(u, v)
    ensures Shown(a, m, x, y) == Shown(b, m, x, y)
  {
  }

  // ---------------------------------------- one update, from tracker to screen

  lemma CopiesInView(copies: seq<Rect>, copied: seq<Box>, delta: Point, bounds: Rect, size: nat)
    requires Enumerates(copies, copies, copied, delta.x <= 0, delta.y <= 0, 0)
    requires Banded(copied) && InBuffer(copied, delta, bounds)
    ensures forall i :: 0 <= i < |copies| ==> InView(CopyMsgs(copies, delta)[i], bounds, size)
  {
    forall i | 0 <= i < |copies| ensures InView(CopyMsgs(copies, delta)[i], bounds, size) {
      var r := copies[i];
      assert r in copied;
      assert InBox(r, r.x1, r.y1) && InBox(r, r.x2 - 1, r.y2 - 1);
      assert Covered(copies, r.x1, r.y1) && Covered(copies, r.x2 - 1, r.y2 - 1);
      assert InBox(bounds, r.x1 - delta.x, r.y1 - delta.y) && InBox(bounds, r.x2 - 1 - delta.x, r.y2 - 1 - delta.y);
    }
  }

  lemma DeliveredInView(rest: seq<Msg>, fb: Picture, changed: seq<Box>, bounds: Rect, size: nat)
    requires Sent(rest, fb, changed) && InsideBuffer(changed, bounds) && forall x, y :: |fb(x, y)| == size
    ensures forall i :: 0 <= i < |rest| ==> InView(rest[i], bounds, size)
  {
    forall i | 0 <= i < |rest| ensures InView(rest[i], bounds, size) {
      var r := rest[i].r;
      assert Delivers(rest[i], fb);
      DeliveredSize(rest[i], fb, size);
      assert Rects(rest)[i] == r && InBox(r, r.x1, r.y1) && InBox(r, r.x2 - 1, r.y2 - 1);
      assert Covered(Rects(rest), r.x1, r.y1) && Covered(Rects(rest), r.x2 - 1, r.y2 - 1);
    }
  }

  lemma AllInView(copies: seq<Rect>, copied: seq<Box>, delta: Point, rest: seq<Msg>, fb: Picture, changed: seq<Box>,
                  bounds: Rect, size: nat)
    requires Enumerates(copies, copies, copied, delta.x <= 0, delta.y <= 0, 0)
    requires Banded(copied) && InBuffer(copied, delta, bounds)
    requires Sent(rest, fb, changed) && InsideBuffer(changed, bounds) && forall x, y :: |fb(x, y)| == size
    ensures var msgs := CopyMsgs(copies, delta) + rest; forall i :: 0 <= i < |msgs| ==> InView(msgs[i], bounds, size)
  {
    CopiesInView(copies, copied, delta, bounds, size);
    DeliveredInView(rest, fb, changed, bounds, size);
  }

  /** What an update for the area `req` leaves on the viewer's screen: the area
      is up to date and the rest is as it was. */
  ghost function UpdatedIn(view: Picture, fb: Picture, req: seq<Box>, x: int, y: int): Pixel {
    if Covered(req, x, y) then fb(x, y) else view(x, y)
  }

  /** The part of the tracker's knowledge inside `req`, what changed taking
      precedence over what was copied, is enough to bring `req` up to date. */
  lemma UpdateForArea(view: Picture, fb: Picture, changed: seq<Box>, copied: seq<Box>, delta: Point, bounds: Rect,
                      req: seq<Box>, uiChanged: seq<Box>, uiCopied: seq<Box>, copies: seq<Rect>, rest: seq<Msg>)
    requires Tracks(fb, view, changed, copied, delta, bounds) && Banded(uiCopied)
    requires forall x, y {:trigger Covered(uiChanged, x, y)} ::
               Covered(uiChanged, x, y) <==> Covered(changed, x, y) && Covered(req, x, y)
    requires forall x, y {:trigger Covered(uiCopied, x, y)} ::
               Covered(uiCopied, x, y) <==> Covered(copied, x, y) && !Covered(changed, x, y) && Covered(req, x, y)
    requires Enumerates(copies, copies, uiCopied, delta.x <= 0, delta.y <= 0, 0) && Sent(rest, fb, uiChanged)
    ensures AllWellFormed(CopyMsgs(copies, delta) + rest)
    ensures forall x, y :: InBox(bounds, x, y) ==>
              Play(view, CopyMsgs(copies, delta) + rest)(x, y) == UpdatedIn(view, fb, req, x, y)
  {
    UpdateShown(view, copies, uiCopied, delta, rest, uiChanged, fb, 0, 0);
    hide Covered, Sent, Enumerates, Banded;
    forall x, y | InBox(bounds, x, y)
      ensures Play(view, CopyMsgs(copies, delta) + rest)(x, y) == UpdatedIn(view, fb, req, x, y)
    {
      UpdateShown(view, copies, uiCopied, delta, rest, uiChanged, fb, x, y);
    }
  }

  /** The rest of writeFramebufferUpdate for the requested area, received by the
      viewer.  Only what is pending there has to lie in the framebuffer. */
  method SendUpdate(updates: SimpleUpdateTracker, uiChanged: Region, uiCopied: Region, delta: Point,
                    ghost req: seq<Box>, pb: PixelBuffer, enc: EncodeManager, viewer: Viewer)
    returns (ghost copies: seq<Rect>, ghost rest: seq<Msg>)
    requires updates.Valid() && uiChanged.Valid() && uiCopied.Valid() && delta == updates.copyDelta
    requires pb.Valid() && viewer.Valid() && pb.data != viewer.fb.data && pb.data != viewer.reader.imageBuf
    requires pb.GetRect() == viewer.fb.GetRect() && pb.size == viewer.fb.size
    requires Tracks(pb.View(), viewer.fb.View(), updates.changed.rects, updates.copied.rects, updates.copyDelta,
                    pb.GetRect())
    requires InsideBuffer(uiChanged.rects, pb.GetRect())
    requires forall x, y {:trigger Covered(uiChanged.rects, x, y)} ::
               Covered(uiChanged.rects, x, y) <==> Covered(updates.changed.rects, x, y) && Covered(req, x, y)
    requires forall x, y {:trigger Covered(uiCopied.rects, x, y)} ::
               Covered(uiCopied.rects, x, y) <==>
               Covered(updates.copied.rects, x, y) && !Covered(updates.changed.rects, x, y) && Covered(req, x, y)
    modifies enc, viewer.fb.data, viewer.reader, viewer.reader.imageBuf
    ensures viewer.Valid() && (viewer.reader.imageBuf == old(viewer.reader.imageBuf) || fresh(viewer.reader.imageBuf))
    ensures Enumerates(copies, copies, uiCopied.rects, delta.x <= 0, delta.y <= 0, 0)
    ensures Sent(rest, pb.View(), uiChanged.rects) && AllWellFormed(CopyMsgs(copies, delta) + rest)
    ensures forall x, y :: viewer.fb.View()(x, y) == Play(old(viewer.fb.View()), CopyMsgs(copies, delta) + rest)(x, y)
    ensures forall x, y :: InBox(pb.GetRect(), x, y) ==>
              viewer.fb.View()(x, y) == UpdatedIn(old(viewer.fb.View()), pb.View(), req, x, y)
  {
    hide Covered, Canonical, PixelBuffer.View, Sent, Enumerates;
    copies, rest := enc.WriteUpdate(uiChanged, uiCopied, delta, pb, []);
    ViewSize(pb);
    SendFacts(viewer.fb.View(), pb.View(), updates.changed.rects, updates.copied.rects, delta, pb.GetRect(), req,
              uiChanged.rects, uiCopied.rects, uiCopied.extents, copies, rest, pb.size);
    assert enc.out == CopyMsgs(copies, delta) + rest;
    viewer.ReadUpdate(enc.out);
  }

  lemma ViewSize(pb: PixelBuffer)
    requires pb.Valid()
    ensures forall x, y :: |pb.View()(x, y)| == pb.size
  {
  }

  lemma SendFacts(view: Picture, fb: Picture, changed: seq<Box>, copied: seq<Box>, delta: Point, bounds: Rect,
                  req: seq<Box>,
                  uiChanged: seq<Box>, uiCopied: seq<Box>, e: Box, copies: seq<Rect>, rest: seq<Msg>, size: nat)
    requires Tracks(fb, view, changed, copied, delta, bounds) && Canonical(uiCopied, e)
    requires InsideBuffer(uiChanged, bounds) && forall x, y :: |fb(x, y)| == size
    requires forall x, y {:trigger Covered(uiChanged, x, y)} ::
               Covered(uiChanged, x, y) <==> Covered(changed, x, y) && Covered(req, x, y)
    requires forall x, y {:trigger Covered(uiCopied, x, y)} ::
               Covered(uiCopied, x, y) <==> Covered(copied, x, y) && !Covered(changed, x, y) && Covered(req, x, y)
    requires Enumerates(copies, copies, uiCopied, delta.x <= 0, delta.y <= 0, 0) && Sent(rest, fb, uiChanged)
    ensures var msgs := CopyMsgs(copies, delta) + rest;
      && AllWellFormed(msgs)
      && (forall i :: 0 <= i < |msgs| ==> InView(msgs[i], bounds, size))
      && (forall x, y :: InBox(bounds, x, y) ==> Play(view, msgs)(x, y) == UpdatedIn(view, fb, req, x, y))
  {
    hide Covered, Sent, Enumerates;
    UpdateForArea(view, fb, changed, copied, delta, bounds, req, uiChanged, uiCopied, copies, rest);
    AllInView(copies, uiCopied, delta, rest, fb, uiChanged, bounds, size);
  }

  // ------------------------------------------------ after a request for a part

  /** Everything pending lies in `req`; a copy from a point to itself is nothing. */
  ghost predicate AllRequested(req: seq<Box>, changed: seq<Box>, copied: seq<Box>, delta: Point, bounds: Rect) {
    forall x, y :: InBox(bounds, x, y) && !Covered(req, x, y) ==>
      !Covered(changed, x, y) && (Covered(copied, x, y) ==> delta == Point(0, 0))
  }

  /** After such an update the viewer shows the framebuffer. */
  ghost predicate UpToDate(view: Picture, fb: Picture, req: seq<Box>, bounds: Rect) {
    forall x, y :: InBox(bounds, x, y) ==> UpdatedIn(view, fb, req, x, y) == fb(x, y)
  }

  /** writeFramebufferUpdate clears the tracker although it sent only what was
      requested.  The empty tracker is right about the viewer, whatever the
      pictures, exactly when nothing was pending outside the request. */
  lemma ClearedIsRightIff(req: seq<Box>, changed: seq<Box>, copied: seq<Box>, delta: Point, bounds: Rect)
    requires InBuffer(copied, delta, bounds)
    ensures AllRequested(req, changed, copied, delta, bounds) <==>
      forall fb: Picture, view: Picture :: Tracks(fb, view, changed, copied, delta, bounds) ==>
        UpToDate(view, fb, req, bounds)
  {
    hide Covered;
    if AllRequested(req, changed, copied, delta, bounds) {
      forall fb: Picture, view: Picture | Tracks(fb, view, changed, copied, delta, bounds)
        ensures UpToDate(view, fb, req, bounds)
      {
        AllRequestedSuffices(req, changed, copied, delta, bounds, fb, view);
      }
    } else {
      var x, y :| InBox(bounds, x, y) && !Covered(req, x, y)
        && (Covered(changed, x, y) || (Covered(copied, x, y) && delta != Point(0, 0)));
      var fb, view := StalePoint(req, changed, copied, delta, bounds, x, y);
      assert UpdatedIn(view, fb, req, x, y) != fb(x, y);
    }
  }

  lemma AllRequestedSuffices(req: seq<Box>, changed: seq<Box>, copied: seq<Box>, delta: Point, bounds: Rect,
                             fb: Picture, view: Picture)
    requires AllRequested(req, changed, copied, delta, bounds) && Tracks(fb, view, changed, copied, delta, bounds)
    ensures UpToDate(view, fb, req, bounds)
  {
    hide Covered;
  }

  /** Pictures between which one pending point outside the request goes stale. */
  lemma StalePoint(req: seq<Box>, changed: seq<Box>, copied: seq<Box>, delta: Point, bounds: Rect, x: int, y: int)
    returns (fb: Picture, view: Picture)
    requires InBuffer(copied, delta, bounds) && InBox(bounds, x, y) && !Covered(req, x, y)
    requires Covered(changed, x, y) || (Covered(copied, x, y) && delta != Point(0, 0))
    ensures Tracks(fb, view, changed, copied, delta, bounds) && fb(x, y) != view(x, y)
  {
    hide Covered;
    if Covered(changed, x, y) {
      view := (u, v) => [];
      fb := (u, v) => if u == x && v == y then [0] else [];
    } else {
      view := (u, v) => if u == x - delta.x && v == y - delta.y then [0] else [];
      var img := view;
      fb := MovedPicture(img, copied, delta);
    }
  }
}
