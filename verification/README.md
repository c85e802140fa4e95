# The framebuffer-update pipeline of TigerVNC

TigerVNC keeps the area of a screen that has to be sent as an X region: boxes in
horizontal bands, in a canonical form that the code rewrites in place. A server
tracks what was drawn and what merely moved, compares it with a shadow copy,
cuts the rest into solid areas and tiles and sends rectangles; a viewer plays
them onto its own framebuffer. This project models that pipeline from the
region code to the bytes a viewer applies, together with the two protocol state
machines and the streams underneath, and proves what they are for.

The code that works in place is modelled in place: regions, pixel buffers,
trackers, the palette, both ends of a connection and the streams are classes
whose methods follow the loops and branches of the source. Data structures are
proved against specifications that do not mention the representation: sets of
points, pictures, a colour-to-count map, a sequence of bytes. The handlers of
the two protocols state what holds after a message, and are at the same time
shown to be the steps of machines about whose runs the theorems speak; the
objects are then run against each other (`Pair`, `Peer`, `VNCSConnection`).

## Parts

- `Banding`, `RegionSweep`, `XRegion`, `RegionAlgebra`, `RegionShrink`,
  `RegionRects`: the region algebra. A region means the set of its points. The
  canonical form is stated by scanlines: the boxes are banded, and the spans of a
  band differ from those of the line above it.
- `PixelBuffer`, `RegionCopy`: framebuffers with a stride, overlapping copies,
  and moving a region rectangle by rectangle.
- `ShadowCompare`, `UpdateTracker`: the update trackers and the comparison with
  the shadow framebuffer.
- `UpdateMessages`, `RawEncoding`, `SolidSearch`, `EncodeManager`, `Viewer`,
  `UpdateRuns`, `ManyViewers`, `UpdateServer`: writing an update, playing it, runs
  of the whole pipeline with requests of any kind, with one viewer and with any
  number that come and go, and the server's objects that go through them. A pixel
  is the bytes that hold it.
- `Palette`, `AnalyseRect`: the colour index and the analysis that fills it.
- `PixelFormat`, `PixelConversion`, `ConvertBuffers`, `ByteShuffle`: formats on the
  wire, their equality, and conversion to, from and between 888 formats.
- `CConn`, `FormatRuns`: the viewer's pixel format switch against a server that
  handles messages in order. Each message queue is part of the state, an update
  is read rectangle by rectangle, and the user may change options at any time.
- `Handshake`, `Connections`: CConnection and SConnection as one product machine
  (section 7.1 of RFC 6143).
- `Bytes`, `FdOutStream`, `FdInStream`, `Transfer`, `HexStreams`: the buffered
  streams. The descriptor accepts or delivers any number of bytes at a time.
- `Arithmetic`: a few facts about products and quotients.

## Where the code does less than one might expect

- miCoalesce returns a stale index when several bands were appended and the
  first of them merged (`XRegion.Region.Coalesce` says when). The only such call
  is the last one of a sweep, which ignores the index.
- `PixelFormat::equal` never recognises byte-swapped 16-bit formats
  (`PixelFormats.EqualIsSameLayout`).
- `CConn::handleOptions` compares the choice with the format in use instead of
  the one asked for last. A choice taken back while a switch is on its way is
  lost (`FormatRuns.OptionLostIff`, `FormatRuns.OptionCanBeLost`).
- A server that asks its user before approving a connection takes the ClientInit
  of a client before 3.8 that chose None for an error when it arrives while the
  user is being asked (`Handshakes.HastyCanFail`).
- `VNCSConnectionST::writeFramebufferUpdate` clears the whole tracker after
  sending the requested part of it. `ViewerSide.ClearedIsRightIff` says exactly
  when that is right; requests for the whole screen always are
  (`UpdateRuns.WholeScreenCorrect`), and `UpdateRuns.PartialRequestLoses` is a run
  in which a request for half a screen is not.
- `VNCSConnectionST::framebufferUpdateRequest` computes the part of a request that
  lies in the framebuffer and then uses the whole. After a full request that
  sticks out, the area to be sent leaves the framebuffer
  (`UpdateRuns.OutsideRequest`); `UpdateRuns.RequestInsideIff` says exactly when
  it does not.
- When the blocking flush inside `FdOutStream::overrun` times out, the stream
  stays blocking (`FdOutStreams.FdOutStream.Overrun`).
- A `HexOutStream` made with a buffer of one byte has no buffer at all and
  refuses every write (`HexStreams.HexOutStream.WriteBytes`).

## Model

| member | source | states |
|---|---|---|
| Banding.CanonicalUnique | common/Xregion/Region.c:1571-1590 | Two coalesced, banded box lists that cover the same points are the same list, so a comparison of fields decides equality of point sets |
| Banding.SameRowsSameBoxes | common/Xregion/Region.c:50-73 | Box lists in the form the file's head describes with the same spans on every scanline are identical |
| Banding.SpansUnique | common/Xregion/Region.c:50-73 | Separated spans that cover the same x coordinates are the same list of spans |
| Banding.RowCovers | common/Xregion/Region.c:50-73 | A point is covered exactly when the spans of its scanline cover its x coordinate |
| XRegion.Region.Coalesce | common/Xregion/Region.c:672-794 | miCoalesce keeps every point, leaves the whole array banded and coalesced even when several bands were appended and only the first merges, and returns the start of the last band except in exactly that case |
| XRegion.Region.MergeBands | common/Xregion/Region.c:752-789 | The in-place rewriting of y2 and the moving down of the boxes give the array with the two bands merged |
| XRegion.Region.UnionO | common/Xregion/Region.c:1163-1227 | Over a band where both regions have boxes the appended strip covers the union of the two bands and no two of its boxes touch |
| XRegion.Region.IntersectO | common/Xregion/Region.c:397-459 | The appended strip covers the intersection of the two bands and no two of its boxes touch |
| XRegion.Region.SubtractO | common/Xregion/Region.c:1363-1495 | The appended strip covers the first band without the second, through every way a subtrahend can lie on a minuend |
| XRegion.Region.CopyBand | common/Xregion/Region.c:1110-1143 | The callback for a band of one region alone appends that band between the given scanlines |
| XRegion.RegionOp | common/Xregion/Region.c:823-1090 | The generic sweep leaves a banded, coalesced result whose points are exactly the combination of the old contents of both sources, also when the destination is one of them |
| XRegion.SweepStep | common/Xregion/Region.c:904-1015 | One turn of the sweep extends the finished part of the result to a lower scanline and moves on in at least one source |
| XRegion.SweepTail | common/Xregion/Region.c:1017-1056 | The boxes left over when one source is used up are copied or dropped, clipped at the sweep line, and coalesced onto the rest |
| RegionSweep.NotMergedCoalesced | common/Xregion/Region.c:672-794 | A band that differs from the one above it may be appended without losing the coalesced form |
| RegionSweep.MergedRows | common/Xregion/Region.c:752-789 | Merging two bands with equal spans leaves every scanline as it was |
| RegionAlgebra.SetExtents | common/Xregion/Region.c:164-211 | miSetExtents computes the smallest enclosing box of a banded list, and the zero box for an empty one |
| RegionAlgebra.IntersectRegion | common/Xregion/Region.c:462-484 | Canonical result with exactly the common points, shortcuts included, destination possibly a source |
| RegionAlgebra.UnionRegion | common/Xregion/Region.c:1230-1294 | Canonical result with exactly the points of either, through each of the five shortcut branches and the sweep; extents exact |
| RegionAlgebra.SubtractRegion | common/Xregion/Region.c:1513-1538 | Canonical result with exactly the points of the first that are not in the second |
| RegionAlgebra.XorRegion | common/Xregion/Region.c:1541-1554 | Canonical result with exactly the points in one of the two |
| RegionAlgebra.EqualRegion | common/Xregion/Region.c:1572-1590 | The field-by-field comparison answers true exactly when the point sets are equal |
| RegionAlgebra.PointInRegion | common/Xregion/Region.c:1593-1609 | True exactly for the covered points |
| RegionAlgebra.RectInRegion | common/Xregion/Region.c:1612-1691 | RectangleIn exactly when every point of the rectangle is inside and RectangleOut exactly when none is, in spite of skipped boxes and early exits |
| RegionShrink.OffsetRegion | common/Xregion/Region.c:263-287 | Translation moves every point and keeps the canonical form |
| RegionShrink.Compress | common/Xregion/Region.c:316-336 | Doubling reaches runs of dx + 1 points, all of them covered or one of them, for every dx, with at most five region operations for each binary digit of dx |
| RegionShrink.ShrinkRegion | common/Xregion/Region.c:338-360 | Erosion by the (2|dx|+1) by (2|dy|+1) box on axes with a positive argument, dilation on axes with a negative one, with a number of region operations logarithmic in dx and dy |
| RegionRects.GetRects | common/rfb/Region.cxx:184-227 | The list has exactly the region's points, visits bands and boxes in the order asked for, and slices of one box top to bottom; a slice that ends above its box's bottom edge would exceed the area limit with one row more, and none is larger than the limit unless one row of it is; without a limit it is a rearrangement of the boxes |
| RegionRects.AllRects | common/rfb/Region.cxx:184-227 | With default arguments the boxes come as they are stored |
| RegionRects.RectRegion | common/rfb/Region.cxx:37-51 | The temporary one-box region of a rectangle is canonical and covers the rectangle |
| RegionRects.SetOrderedRects | common/rfb/Region.cxx:105-112 | Any list of rectangles, overlapping or not, becomes the canonical region of their union |
| RegionRects.ClearRegion | common/rfb/Region.cxx:81-87 | The cleared region is canonical and has no boxes |
| PixelBuffers.Intersect | common/rfb/Rect.h:75-82 | The intersection of two rectangles has exactly the common points and is never inside out |
| PixelBuffers.ClipExact | common/rfb/PixelBuffer.cxx:235-252 | Clipping the destination, then its source, then the destination again leaves exactly the points of the request whose two ends lie in the buffer |
| PixelBuffers.PixelBuffer.CopyRect | common/rfb/PixelBuffer.cxx:226-289 | Every point whose source is inside receives the old pixel of its source, for every overlap; no other pixel changes |
| PixelBuffers.PixelBuffer.CopyRows | common/rfb/PixelBuffer.cxx:260-286 | Row by row from the safe end the loops move a rectangle onto itself as if all at once |
| PixelBuffers.ViewAt | common/rfb/PixelBuffer.cxx:335-338 | Byte k of the pixel at (x, y) is the one at (y * stride + x) * size + k of the buffer's memory |
| RegionCopy.DirectionSafe | common/rfb/EncodeManager.cxx:295-305 | In the order chosen from the signs of the delta no rectangle reads what an earlier one wrote |
| RegionCopy.CopyRegionRects | common/rfb/ComparingUpdateTracker.cxx:65-67 | Copying rectangle by rectangle equals moving the whole region at once from the old contents, clipped at the framebuffer as copyRect does |
| UpdateTracking.CopyTracks | common/rfb/UpdateTracker.cxx:82-134 | Whichever way add_copied records a move of the screen, outside its changed region the new screen is the shadow with the new copied region moved |
| UpdateTracking.SimpleUpdateTracker.AddCopied | common/rfb/UpdateTracker.cxx:82-134 | The new changed and copied regions point by point, and exactly when a copy continues, replaces or is given up for the pending one |
| UpdateTracking.SimpleUpdateTracker.EnableCopyrect | common/rfb/UpdateTracker.cxx:70-76 | Switching copies off turns what was copied into what changed |
| UpdateTracking.SimpleUpdateTracker.AddChanged | common/rfb/UpdateTracker.cxx:78-80 | Exactly the given points are added |
| UpdateTracking.SimpleUpdateTracker.GetUpdateInfo | common/rfb/UpdateTracker.cxx:141-147 | The reported regions are disjoint, what changed taking precedence, and clipped to the request |
| ShadowCompare.CompareBlock | common/rfb/ComparingUpdateTracker.cxx:125-155 | A block counts as changed exactly when some pixel differs, and afterwards the shadow has the framebuffer's pixels there |
| ShadowCompare.CompareRect | common/rfb/ComparingUpdateTracker.cxx:96-167 | The new region gains exactly the blocks, in the 64 by 64 grid from the corner of the cropped rectangle, that hold a differing pixel; the shadow is refreshed |
| ShadowCompare.CompareRects | common/rfb/ComparingUpdateTracker.cxx:69-73 | Over the whole changed region: kept are exactly the blocks with a difference, each rectangle with its own grid |
| UpdateTracking.ComparingUpdateTracker.Compare | common/rfb/ComparingUpdateTracker.cxx:40-81 | Copies all the first time; later it carries out the pending copy on the shadow, wherever that lies, refreshes what was reported and keeps of it exactly the blocks that really changed; true exactly when something was dropped |
| UpdateTracking.ComparingUpdateTracker.Disable | common/rfb/ComparingUpdateTracker.cxx:88-94 | The next comparison starts from a fresh copy |
| UpdateMessages.PlayDelivered | common/rfb/EncodeManager.cxx:111-152 | Rectangles that carry the framebuffer's pixels bring exactly their area up to date |
| UpdateMessages.PlayCopies | common/rfb/EncodeManager.cxx:295-305 | Copy rectangles played one after another move the whole region at once |
| RawEncoding.RawEncode | common/rfb/RawEncoder.cxx:42-61 | Lines of bytes taken from a buffer with a stride deliver exactly the pixels of the rectangle, for every pixel size |
| RawEncoding.PackedAt | common/rfb/RawEncoder.cxx:53-58 | Byte k of the pixel at (x, y) stands where row by row and pixel by pixel counting puts it |
| RawEncoding.RawDecode | common/rfb/RawDecoder.cxx:34-52 | Whole rows at a time, as many as the image buffer holds, put the bytes into the rectangle and touch nothing else |
| RawEncoding.ImageRect | common/rfb/PixelBuffer.cxx:124-143 | The rows of an image with any stride become the pixels of the rectangle, and nothing else changes |
| RawEncoding.MsgReader.GetImageBuf | common/rfb/CMsgReader.cxx:246-264 | There is room for the pixels required, whatever their size and whatever the buffer was last used for; the buffer grows for those requested only up to the ideal size; the number of pixels reported is the largest that fits |
| SolidSearch.CheckSolidTile | common/rfb/EncodeManagerBPP.cxx:26-51 | True exactly when every pixel of the tile has the colour |
| SolidSearch.ExtendSolidAreaByBlock | common/rfb/EncodeManager.cxx:533-587 | The area found has only the colour and starts at the corner given, and no single-coloured area of whole blocks at that corner is larger |
| SolidSearch.ExtendSolidAreaByPixel | common/rfb/EncodeManager.cxx:589-627 | The area found has only the colour, contains its seed, lies in the rectangle and can be extended by no row or column |
| EncodeManagement.EncodeManager.FindSolid | common/rfb/EncodeManager.cxx:307-392 | A single-coloured area that cannot be extended and is the whole rectangle or at least 2048 pixels; when none is found, the rectangle has several colours and no area of whole blocks at any seed of the search has 2048 pixels of one colour |
| EncodeManagement.EncodeManager.WriteSolidRects | common/rfb/EncodeManager.cxx:307-392 | For each box of the changed region, one of two things: exactly one solid rectangle in it, with its colour, that can be extended by no row or column and is the whole box or at least 2048 pixels; or none in it, the box has several colours, and no area of whole blocks at any seed of the search is large enough. The rectangles are disjoint and exactly their points leave the changed region |
| EncodeManagement.EncodeManager.WriteOneRect | common/rfb/EncodeManager.cxx:394-434 | Tiles of at most 2048 pixels in width and 65536 in area partition the rectangle and carry its pixels, as many as counted |
| EncodeManagement.EncodeManager.WriteRects | common/rfb/EncodeManager.cxx:394-434 | The same for a region, with the number of tiles computeNumRects gives |
| EncodeManagement.EncodeManager.ComputeNumRects | common/rfb/EncodeManager.cxx:261-293 | The quotients rounded up count the tiles the splitting loops step through |
| EncodeManagement.EncodeManager.WriteCopyRects | common/rfb/EncodeManager.cxx:295-305 | The copied region is sent in the order that is safe for its delta |
| EncodeManagement.EncodeManager.WriteUpdate | common/rfb/EncodeManager.cxx:111-152 | Copies, then disjoint rectangles that cover exactly the changed region and carry its pixels, then the cursor; with LastRect the search for solid areas has been made in every box of the changed region, without it all are data rectangles and the announced number is the number written |
| EncodeManagement.UpdateShown | common/rfb/EncodeManager.cxx:111-152 | Played on any picture, an update shows the framebuffer in the changed area, the moved old pixels in the copied area and leaves the rest |
| ViewerSide.FillRect | common/rfb/PixelBuffer.cxx:99-122 | Exactly the rectangle gets the colour |
| ViewerSide.Viewer.ReadRect | common/rfb/CopyRectDecoder.cxx:33-38 | The decoder of a copy, solid or raw rectangle does to the bytes of the viewer's framebuffer what the rectangle says |
| ViewerSide.UpdateForArea | common/rfb/VNCSConnectionST.cxx:962-971 | The part of a truthful tracker inside the request suffices to bring the request up to date |
| ViewerSide.SendUpdate | common/rfb/VNCSConnectionST.cxx:1037-1051 | End to end: after one update the viewer has the server's pixels in the area asked for and what it had elsewhere; only what is pending there has to lie in the framebuffer |
| ViewerSide.ClearedIsRightIff | common/rfb/VNCSConnectionST.cxx:1035-1051 | Clearing the tracker after an update is right for all pictures exactly when nothing was pending outside the requested area |
| UpdateRuns.CompareTracks | common/rfb/ComparingUpdateTracker.cxx:40-81 | In every state of a run, comparing leaves the shadow equal to the framebuffer and a smaller report that is still truthful |
| UpdateRuns.ReportTracks | common/rfb/VNCServerST.cxx:617-632 | Passing the report on with add_copied and add_changed keeps the viewer's tracker truthful |
| UpdateRuns.StepKeepsInvariant | common/rfb/VNCServerST.cxx:576-635 | Drawing, moving, requests, continuous updates, switching the comparer, reporting and updating all keep both trackers truthful, as long as no update leaves something pending outside its area |
| UpdateRuns.ViewerCorrect | common/rfb/VNCSConnectionST.cxx:908-1055 | In every run in which no earlier update left something pending outside its area, an update leaves the viewer equal to the framebuffer in the area asked for, and everywhere if it leaves nothing either |
| UpdateRuns.WholeScreenCorrect | common/rfb/VNCSConnectionST.cxx:908-1055 | In every run in which the viewer asks for its whole screen only, every update leaves it equal to the framebuffer |
| UpdateRuns.NoMoreThanAskedFor | common/rfb/VNCSConnectionST.cxx:924-1050 | In every run without continuous updates there are at most as many answers as requests, and one fewer while a request is open |
| UpdateRuns.PartialRequestLoses | common/rfb/VNCSConnectionST.cxx:1048-1051 | A run of a request for half a screen and its update, after which nothing is pending and the other half is still wrong |
| UpdateRuns.RequestInsideIff | common/rfb/VNCSConnectionST.cxx:556-573 | A request leaves what is pending inside the framebuffer exactly if it is incremental, lies inside, or is empty |
| UpdateRuns.OutsideRequest | common/rfb/VNCSConnectionST.cxx:556-573 | A full request one column too wide: what is reported for the next update covers a point outside the framebuffer |
| UpdateRuns.PendingInside | common/rfb/VNCSConnectionST.cxx:547-583 | With requests that pass the test, everything that can be sent lies in the framebuffer in every state of a run |
| ManyViewers.OthersSee | common/rfb/VNCSConnectionST.cxx:547-583 | What one viewer asks for leaves every other viewer's state as it was, or, after a full request, as if the same area had been drawn again |
| ManyViewers.TurnKeepsTruthful | common/rfb/VNCServerST.cxx:576-635 | A turn of one viewer or of the server, a viewer that comes in and one that leaves: every viewer's tracker stays truthful against its own viewer, and the server's against the last report |
| ManyViewers.EveryViewerCorrect | common/rfb/VNCSConnectionST.cxx:908-1055 | In every run with any number of viewers in which no earlier update left something pending outside its area, an update leaves its viewer equal to the framebuffer in the area asked for |
| ManyViewers.EveryScreenCorrect | common/rfb/VNCSConnectionST.cxx:908-1055 | In every run in which all viewers ask for their whole screens only, every update leaves its viewer equal to the framebuffer, whatever the others do |
| UpdateServer.PassToAll | common/rfb/VNCServerST.cxx:628-633 | The loop over the clients records the same copy and the same change in every tracker, whichever way each of them takes the copy |
| UpdateServer.VNCServer.CheckUpdate | common/rfb/VNCServerST.cxx:576-635 | checkUpdate is one turn of the runs with any number of viewers: compare, and pass what lies in the framebuffer on to every client's tracker; it is refused only while blocked, when no client's tracker changes, and after it nothing in the framebuffer is left to report |
| UpdateServer.VNCSConnection.FramebufferUpdateRequest | common/rfb/VNCSConnectionST.cxx:547-583 | A request is one step of the runs: the rectangle is tested and then used as it is; exactly its points are added to what is asked for, unless continuous updates cover an incremental one, and to what has changed for this viewer and for the comparer, unless it is incremental |
| UpdateServer.VNCSConnection.EnableContinuousUpdates | common/rfb/VNCSConnectionST.cxx:661-680 | Refused, with nothing changed, unless the client announced both extensions; otherwise one step of the runs after which continuous updates are on or off as asked, in exactly the rectangle given; switching on forgets what was asked for, switching off is answered with EndOfContinuousUpdates |
| UpdateServer.VNCSConnection.constructor | common/rfb/VNCSConnectionST.cxx:383-402 | A viewer that comes in has its whole screen still to be sent |
| UpdateServer.VNCSConnection.WriteFramebufferUpdate | common/rfb/VNCSConnectionST.cxx:908-1055 | The objects, with the trackers of all other clients, go through a run of at most four turns, of none if the update is held back or nothing was asked for; unless it is held back or blocked, the viewer's bytes then equal the server's in the area asked for, whether something was sent or not, and in the continuous area if messages without pixels answered the request; the request is taken by an answer and stays without one, and then so does the viewer's picture |
| Palettes.Palette.Insert | common/rfb/Palette.h:70-146 | Refused exactly for a new colour in a full palette; otherwise the colour-to-total map grows by the pixels given and hash chains, ranks and back indices stay consistent |
| Palettes.Palette.Find | common/rfb/Palette.h:76-110 | Walking a chain ends at the colour's node exactly when the colour is stored, else behind the last node of its chain |
| Palettes.Palette.Shift | common/rfb/Palette.h:128-136 | Moving lesser entries up keeps both directions of the indices and the order, and changes no count |
| Palettes.Palette.LinkColour | common/rfb/Palette.h:116-126 | The new node becomes the end of its own hash chain and no other chain changes |
| Palettes.Palette.Clear | common/rfb/Palette.h:36-36 | The palette stands for the empty map |
| Palettes.Palette.Lookup | common/rfb/Palette.h:148-166 | The index whose colour is the one asked for |
| Palettes.Palette.GetColour | common/rfb/Palette.h:168-171 | The colour at a position of the ranking |
| Palettes.Palette.GetCount | common/rfb/Palette.h:173-176 | The total of the colour at a position of the ranking |
| Palettes.Palette.RankingIsTotals | common/rfb/Palette.h:46-66 | The ranking lists every stored colour once, by non-increasing total, so lookup(getColour(i)) is i |
| RectAnalysis.AnalyseRect | common/rfb/EncodeManagerBPP.cxx:53-101 | True exactly when the image has at most min(maxColours, 256) colours; then the palette holds every colour with its number of pixels and rleRuns is the number of colour changes in scan order |
| RectAnalysis.AllPixelsCounted | common/rfb/EncodeManagerBPP.cxx:53-101 | The counts of the palette add up to width times height |
| RectAnalysis.ScanAt | common/rfb/EncodeManagerBPP.cxx:70-90 | The scan has the pixels row after row, each from left to right, whatever the stride |
| RectAnalysis.ChangesCounted | common/rfb/EncodeManagerBPP.cxx:82-83 | The number of runs counted is the number of places where the colour differs from that of the pixel before, line ends included |
| PixelFormats.WriteAt | common/rfb/PixelFormat.cxx:172-186 | Each of the sixteen bytes: sizes and flags in the first four, maximums in bytes 4 to 9, most significant byte first, shifts of red, green and blue in bytes 10, 11 and 12, then three zeros |
| PixelFormats.ReadAt | common/rfb/PixelFormat.cxx:140-170 | The format read has its fields from those places, a colour map is replaced by its stand-in, and what is sane is accepted, all else refused |
| PixelFormats.AcceptedIff | common/rfb/PixelFormat.cxx:645-690 | Of the true-colour formats whose channels are masks of 1 to 8 bits inside the pixel exactly those are accepted that have 8, 16 or 32 bits, a depth no larger, and channels without a common bit |
| PixelFormats.ColourMapAcceptedIff | common/rfb/PixelFormat.cxx:154-168 | A colour map is accepted exactly for pixels of 8, 16 or 32 bits and depth 8 |
| PixelFormats.Refused | common/rfb/PixelFormat.cxx:645-675 | Other pixel sizes, larger depths, channels above 8 bits and channels that are not masks are refused |
| PixelFormats.ReadWrite | common/rfb/PixelFormat.cxx:140-185 | A format survives write and read exactly when it is sane and not a colour map format with channels of its own |
| PixelFormats.EqualIsSameLayout | common/rfb/PixelFormat.cxx:91-138 | equal() answers true exactly when every bit of every channel is at the same place in the buffer, except that byte-swapped 16-bit formats are never recognised |
| PixelConversion.CountBits | common/rfb/PixelFormat.cxx:592-616 | bits() is the number of significant bits, and one for zero |
| PixelConversion.UpDown | common/rfb/PixelFormat.cxx:46-69 | A channel stretched by the table and shifted back is the channel |
| PixelConversion.ComposedChannels | common/rfb/PixelFormatBPP.cxx:67-69 | Channels put side by side in a sane pixel can each be read back |
| PixelConversion.ComposedByOr | common/rfb/PixelFormatBPP.cxx:66-69 | Or-ing the shifted channels of a sane format is adding them, for every order of the channels |
| PixelConversion.SwapTwice | common/rfb/PixelFormatBPP.cxx:25-30 | Swapping the bytes of a pixel twice gives the pixel |
| PixelConversion.NativeIsValue | common/rfb/PixelFormatBPP.cxx:128-134 | The number a pixel's bytes make on the machine, swapped if the orders differ, is the number its bytes make in the order of its format; likewise on the way back, for one, two and four bytes |
| PixelConversion.To888Stretches | common/rfb/PixelFormatBPP.cxx:94-153 | Each byte of the 888 pixel is the stretched channel of the number that the bytes of the source pixel make in its own order, and the byte left over is zero |
| PixelConversion.From888Takes | common/rfb/PixelFormatBPP.cxx:34-88 | Each channel of the number that the bytes left make in the order of their format is the top bits of the matching byte of the 888 pixel |
| PixelConversion.UpIs | common/rfb/PixelFormat.cxx:56-64 | A stretched channel is 255 times its share of the maximum, rounded down |
| PixelConversion.PixelRoundTrip | common/rfb/PixelFormatBPP.cxx:34-153 | One pixel to any byte-aligned 888 format and back keeps all three channels, for every sane format, size and byte order |
| BufferConversion.InitUpconvTable | common/rfb/PixelFormat.cxx:46-69 | The table holds the stretched value for each channel size and, repeated, for every index up to 255 |
| BufferConversion.DirectTo888 | common/rfb/PixelFormatBPP.cxx:94-153 | Every pixel of the rectangle comes out with its three channels, read in the byte order of its format whatever that of the machine, stretched to 8 bits; nothing outside the rows changes |
| BufferConversion.DirectFrom888 | common/rfb/PixelFormatBPP.cxx:34-88 | Every pixel of the rectangle, read in the byte order of its format, has the top bits of the channels of the 888 pixel; nothing outside the rows changes |
| BufferConversion.RowRoundTrip | common/rfb/PixelFormatBPP.cxx:34-153 | A row there and back has the same channels, pixel by pixel |
| BufferConversion.ThereAndBack | common/rfb/PixelFormatBPP.cxx:34-153 | A rectangle through an 888 buffer, with any three strides, comes back with every channel; padding stays as it was |
| ByteShuffling.ShuffleBuffer | common/rfb/PixelFormat.cxx:374-420 | Between two 888 formats every row of the rectangle is shuffled at its place through the table of pointers, and nothing outside the rows changes |
| ByteShuffling.ShuffleKeepsChannels | common/rfb/PixelFormat.cxx:374-420 | The three channels of a shuffled pixel are those of the pixel, for every pair of byte-aligned 888 formats and byte orders |
| ByteShuffling.RowShuffledBack | common/rfb/PixelFormat.cxx:374-420 | Shuffling a row there and back gives every byte of it, those of no channel included |
| ViewerConnection.CConn.ServerInit | vncviewer/CConn.cxx:280-305 | The format wanted is set, first on the wire and in force before the first update, followed by encodings and a full request; nothing stays planned |
| ViewerConnection.CConn.RequestNewUpdate | vncviewer/CConn.cxx:585-639 | No change stays planned, an update is asked for or continuous updates are on, the format in use is untouched; a new format goes out first, behind a fence that reads back as that format if fences work, and else is due at the end of the update |
| ViewerConnection.CConn.FramebufferUpdateStart | vncviewer/CConn.cxx:341-347 | Once an update starts the next one is asked for or continuous updates are on; the format for decoding is kept, and a planned one is announced |
| ViewerConnection.CConn.FramebufferUpdateEnd | vncviewer/CConn.cxx:353-381 | The announced format, if any, is now in force and none is due; the probe goes out after the first update only; a change of format is planned exactly if one was or the automatic choice changed the colours |
| ViewerConnection.CConn.Fence | vncviewer/CConn.cxx:455-487 | An empty reply changes no format and turns on fences, and continuous updates if known, exactly if it is a SyncNext reply; any other reply changes only the format, to the one it carries, or fails |
| ViewerConnection.CConn.HandleOptions | vncviewer/CConn.cxx:641-694 | Nothing happens if the choice is the format in use; else a change is planned without fences, and with fences the chosen format goes out at once behind a fence that carries it; the format in use is kept |
| ViewerConnection.CConn.RefreshFramebuffer | vncviewer/CConn.cxx:149-157 | With fences a full request is the last thing sent; without, nothing is sent and the next request will be a full one; the format in use is kept |
| ViewerConnection.CConn.ReadMsg | common/rfb/CMsgReader.cxx:54-114 | For each message what it does and nothing else: EndOfContinuousUpdates records the extension; a fence asked for is answered by one message, a reply is handled; any rectangle lowers the count by one and LastRect sets it to 0, and at 0 the update ends; a resize with continuous updates on sends EnableContinuousUpdates; a header asks for the next update; other messages change nothing |
| ViewerConnection.AnnouncementMeans | vncviewer/CConn.cxx:604-613 | The fence sent ahead of a format reads back as that very format |
| FormatRuns.InStepFormat | vncviewer/CConn.cxx:604-625 | A fence with the format and then the format keep the two sides in step |
| FormatRuns.InStepSwitch | vncviewer/CConn.cxx:614-625 | Without fences a format may be set while nothing can be sent |
| FormatRuns.ServerHandlesKeeps | common/rfb/VNCSConnectionST.cxx:147-188 | Handling the next message, with the reply to a pending fence behind it, keeps the invariant; continuous updates take the place of the requests made so far |
| FormatRuns.ServerUpdatesKeeps | common/rfb/VNCSConnectionST.cxx:908-1055 | Sending an update keeps the invariant |
| FormatRuns.StepKeepsInvariant | vncviewer/CConn.cxx:280-694 | Every step of viewer, server or user keeps the invariant |
| FormatRuns.RunInvariant | vncviewer/CConn.cxx:280-694 | The invariant holds in every state of every run |
| FormatRuns.DecodedAsEncoded | vncviewer/CConn.cxx:424-447 | In every reachable state the viewer can handle the next message, and pixels to be decoded come in the format used for decoding |
| FormatRuns.UpdateAlwaysDue | vncviewer/CConn.cxx:632-638 | In every reachable state a request is outstanding or continuous updates are on or about to be |
| FormatRuns.ContinuousIff | vncviewer/CConn.cxx:455-487 | In every run continuous updates are on exactly if the announcement of the extension has been read and after it the reply to the probe; then they are on, or about to be, on the server's side as well |
| FormatRuns.SettledFormatsAgree | vncviewer/CConn.cxx:585-629 | Once all messages are handled both sides use the same format |
| FormatRuns.OptionLostIff | vncviewer/CConn.cxx:673-693 | A choice is neither requested nor planned exactly when it is the format in use while another one has been asked for |
| FormatRuns.OptionCanBeLost | vncviewer/CConn.cxx:673-693 | A run in which everything settles in another format than the one chosen last |
| FormatRuns.StepKeepsHonoured | vncviewer/CConn.cxx:585-693 | Apart from a choice taken back while a switch is on its way, no step of viewer, server or user loses the format chosen |
| FormatRuns.SettledAsChosen | vncviewer/CConn.cxx:585-693 | In every run without such a choice both sides end up in the format chosen once everything is handled |
| FormatRuns.Peer.Deliver | common/rfb/CMsgReader.cxx:54-114 | Against a server that handles messages in order, the CConn object reads whatever arrives next, and pixels come in the format it decodes |
| FormatRuns.Peer.Choose | vncviewer/CConn.cxx:641-694 | Options may be changed on the object at any moment of a run, with its assertion holding |
| FormatRuns.Peer.Take | common/rfb/VNCSConnectionST.cxx:147-185 | The server's handling of the object's next message stays within the runs |
| FormatRuns.Peer.Send | common/rfb/VNCSConnectionST.cxx:908-1055 | An update goes out exactly if it is one the server may send, and leaves the object able to read it |
| FormatRuns.Peer.Refresh | vncviewer/CConn.cxx:149-157 | A refresh may be asked for at any moment of a run |
| Handshakes.Answer | common/rfb/CConnection.cxx:98-110 | The version answered is the newest of 3.3, 3.7 and 3.8 that is no newer than the offer, or 3.3 if so configured |
| Handshakes.FirstCommonIsFirst | common/rfb/CConnection.cxx:156-178 | The type chosen is enabled and nothing before it in the server's order is |
| Connections.CConnection.ProcessMsg | common/rfb/CConnection.cxx:68-83 | One step of the client's handshake |
| Connections.CConnection.ProcessVersionMsg | common/rfb/CConnection.cxx:85-117 | An offer before 3.3 is refused; any other is answered, with the newest official version no newer than it or with 3.3 if so configured |
| Connections.CConnection.ProcessSecurityTypesMsg | common/rfb/CConnection.cxx:120-197 | One U32 type for 3.3, a counted list of U8 types otherwise, each with its refusal; a list is answered with its first type that is enabled, and if there is none the connection fails with nothing sent |
| Connections.LegacyTypeMeans | common/rfb/CConnection.cxx:129-150 | From a 3.3 server 0 is a refusal with its reason, 1 and 2 are taken if enabled, and any other type fails |
| Connections.TypeListMeans | common/rfb/CConnection.cxx:152-196 | A count of 0 is a refusal; otherwise the first type listed that is enabled is sent back, or the connection fails |
| Connections.CConnection.ProcessSecurityMsg | common/rfb/CConnection.cxx:199-206 | Type 1 exchanges nothing, any other type one challenge and one response |
| Connections.CConnection.ChooseType | common/rfb/CConnection.cxx:156-178 | The two nested loops find the first type of the list that is enabled, or 0 |
| Connections.CConnection.ProcessSecurityResultMsg | common/rfb/CConnection.cxx:208-238 | Without a result due security is over; with one exactly if the field is U32 0. A result is due except before 3.8 with type 1; a failure takes its reason off the wire exactly from 3.8 on and for the codes 1 and 2 |
| Connections.SConnection.ProcessMsg | common/rfb/SConnection.cxx:94-110 | One step of the server's handshake |
| Connections.SConnection.ProcessVersionMsg | common/rfb/SConnection.cxx:112-185 | Goes on only for major version 3, with the newest official version no newer than the client's; sends 3.3 clients one type of its own that they know as a U32, the others its whole list in order with a U8 count |
| Connections.SConnection.FindLegacyType | common/rfb/SConnection.cxx:155-165 | The first of the types 1 and 2 in the server's order |
| Connections.SConnection.ProcessSecurityTypeMsg | common/rfb/SConnection.cxx:188-219 | A type on offer is taken, and challenged unless it is None; any other fails with nothing sent and the type kept |
| Connections.SConnection.ApproveConnection | common/rfb/SConnection.cxx:302-329 | Something is sent exactly if the version is 3.8 or the type is not 1; it starts with U32 0 for an acceptance and U32 1 for a refusal, and a reason follows only a refusal from 3.8 on; accepting leads to initialisation, refusing to failure |
| Connections.Pair.Act | common/rfb/CConnection.cxx:68-83 | Joined by a wire, the two objects act as one step of the product machine, and nothing is misread |
| Connections.Pair.Converse | common/rfb/SConnection.cxx:94-110 | After any turns and then rounds, the two objects come to rest; sides that fit are then both normal unless the client is hasty; whenever both are normal, the sides fit, versions and types agree and the type is the first that both enable |
| Handshakes.StepKeepsInvariant | common/rfb/CConnection.cxx:85-238 | Every step keeps the joint state of both sides and the fields under way among the listed ones, and misreads nothing |
| Handshakes.NothingMisread | common/rfb/CConnection.cxx:85-238 | In every reachable state the next field a side reads is of the kind it expects |
| Handshakes.BothAgree | common/rfb/SConnection.cxx:112-239 | Past security both use the same version and type, the first on offer that the client enables |
| Handshakes.NeverStuck | common/rfb/CConnection.cxx:85-238 | Until both are done or one has failed somebody can act, or the user is being asked |
| Handshakes.RunBounded | common/rfb/CConnection.cxx:85-238 | However the sides take turns, at most twelve steps do something |
| Handshakes.FittingSidesFinish | common/rfb/SConnection.cxx:112-329 | A run of sides that fit, without a hasty client, that cannot go on has both in the normal state |
| Handshakes.FittingSidesDoNotFail | common/rfb/SConnection.cxx:112-329 | Sides with a common version and type and an accepting server never fail, unless a user is asked about a client that chose None before 3.8 |
| Handshakes.OthersDoNotFinish | common/rfb/SConnection.cxx:112-329 | Sides that do not fit never both get to the normal state |
| Handshakes.HastyCanFail | common/rfb/SConnection.cxx:94-110 | For every such pair with a user being asked there is a run in which the server takes the early ClientInit for an error |
| FdOutStreams.FdOutStream.Length | common/rdr/FdOutStream.cxx:83-86 | The length is the number of bytes written, sent or not |
| FdOutStreams.FdOutStream.Flush | common/rdr/FdOutStream.cxx:98-134 | However the descriptor splits the data, sent plus buffered stays the same; a blocking flush sends all, and so does any flush as long as the descriptor does not stall |
| FdOutStreams.FdOutStream.Overrun | common/rdr/FdOutStream.cxx:137-171 | Nothing is lost and there is room for an item afterwards, unless the item exceeds the buffer or the descriptor stalls; a time-out leaves the stream blocking |
| Bytes.FittingFits | common/rdr/FdOutStream.cxx:166-170 | The number of items reported is the largest that is asked for and fits |
| FdOutStreams.FdOutStream.WriteBytes | common/rdr/OutStream.h:92-101 | The data follows what was written; a first part of it only if the descriptor stalls |
| FdOutStreams.FdOutStream.WriteU32 | common/rdr/OutStream.h:61-62 | Four bytes, most significant first, or nothing, and that only if the descriptor stalls or the buffer is too small |
| Bytes.U32At | common/rdr/OutStream.h:61-62 | Four bytes are those of a number exactly if they make it with the most significant one first |
| FdInStreams.FdInStream.Overrun | common/rdr/FdInStream.cxx:130-163 | The position stays and the bytes of an item are in the buffer afterwards, for every way of arriving, unless the source ends or the descriptor stalls |
| FdInStreams.FdInStream.ReadBytes | common/rdr/FdInStream.cxx:104-127 | Exactly the next bytes of the source, through the buffer or past it, and the position behind them; if they are there it fails only on a stall |
| FdInStreams.FdInStream.CheckNoWait | common/rdr/InStream.h:59-59 | True means the bytes are in the buffer |
| FdInStreams.FdInStream.ReadU32 | common/rdr/InStream.h:66-68 | The number whose four bytes come next |
| Transfers.WriteString | common/rdr/OutStream.h:72-76 | A U32 length and the data; it fails only on a stall or without room for a length |
| Transfers.ReadString | common/rdr/InStream.cxx:26-35 | The string whose length and data come next; if it is there and no longer than 65535 bytes it fails only on a stall or without room for a length |
| Transfers.ThroughDescriptor | common/rdr/FdOutStream.cxx:98-171 | A string that gets through both streams arrives unchanged, for all buffer sizes, and one of at most 65535 bytes does get through unless a descriptor stalls |
| HexStreams.HexRoundTrip | common/rdr/HexInStream.cxx:42-51 | Decoding the digits of any bytes gives the bytes |
| HexStreams.BinToHexStr | common/rdr/HexOutStream.cxx:51-63 | Two digits for each byte, the high half first, 0 to 9 and a to f |
| HexStreams.HexStrToBin | common/rdr/HexInStream.cxx:53-76 | Accepted exactly when the length is even and every character is a digit, of either case; then the bytes of the pairs, high half first |
| HexStreams.HexOutStream.WriteBuffer | common/rdr/HexOutStream.cxx:66-85 | Afterwards the digits of everything written are out, in whatever pieces |
| HexStreams.HexOutStream.WriteBytes | common/rdr/HexOutStream.cxx:98-109 | All the data is taken, or none when there is no buffer |
| HexStreams.HexInStream.Overrun | common/rdr/HexInStream.cxx:83-117 | The position stays and decoded bytes of an item are in the buffer, for every way of arriving |
| HexStreams.HexInStream.ReadBytes | common/rdr/HexInStream.cxx:83-117 | Exactly the next bytes of the decoded source |
| HexStreams.ThroughHex | common/rdr/HexInStream.cxx:83-117 | Writing, flushing and reading is the identity for all buffer sizes but an output buffer of one byte |

## Left out

- RegionOp: destination and both sources must not all be the same object, since the size is computed after the destination has been emptied (common/Xregion/Region.c:869-878); the same holds for IntersectRegion and SubtractRegion.
- Canonical: says nothing of the extents of a region without boxes, because translating one moves its extents away from the origin.
- Coordinates are unbounded integers; the 16-bit fields of BOX and overflow are not modelled, and neither are allocation, MEMCHECK and the size heuristics.
- setExtentsAndOrderedRects: it trusts its caller for the canonical form.
- GetRects: a negative maximum area is not modelled; no caller passes one.
- The two framebuffers of an update have pixels of one size and format; conversion on the way is modelled apart, in PixelFormat, PixelConversion and ConvertBuffers.
- Encoders and decoders other than Raw and solid rectangles: a lossless encoder is taken to deliver its pixels exactly; JPEG is lossy.
- WriteUpdate: the rendered cursor is passed in as a ready message, and SendUpdate and WriteFramebufferUpdate send none; a client that is not given LastRect and an update of more than 65535 rectangles are not told apart.
- UpdateRuns: a copy the application reports has source and destination in the framebuffer, as it would otherwise not say what the screen shows.
- WriteFramebufferUpdate: what is pending in the area asked for lies in the framebuffer, which PendingInside shows for runs with requests that pass the test; the code reads outside its buffer otherwise. The rendered cursor is left out. A synchronised fence, messages being processed, a state other than normal and congestion are one input, blocking and deferring another, and whether messages without pixels are waiting a third; fake updates are messages without effect on the picture.
- CheckUpdate: the rendered cursor is left out, and so is grabRegion, as the framebuffer is taken to show what is reported.
- Region, screen size and framebuffer changes during a run (setPixelBuffer, desktop resizing) are not modelled.
- Insert: counts are non-negative, as every caller passes them.
- Palette: a node's address is its index in the list of nodes.
- ReadMsg: the probe, the format fences and the fences a server asks for are told apart by their payload; fences of more than 64 bytes are not modelled. Colour maps, bells, clipboard and desktop names are messages without effect on formats.
- FormatRuns: the server sends at least one rectangle in each update, as a header that announces none would never end; it writes updates whole and answers a fence together with the message after it, as VNCSConnectionST does.
- AutoSelectFormatAndEncoding: the bandwidth measurement is an input.
- Handshakes: fields are read whole, and reading blocks until they are there; types other than None exchange one challenge and one response, so the inner exchanges of VeNCrypt and TLS are not modelled. The password check and the user's answer are inputs. ConnParams::readVersion's tolerance for oddly spaced digits is not modelled.
- DirectTo888: formats have three channels with bits inside the pixel, and 888 formats have byte-aligned shifts; is888 itself does not check that. The same holds for ShuffleBuffer.
- IsSane: shifts are not truncated to the width of an int.
- EnableContinuousUpdates: it is called while messages are processed, when writeFramebufferUpdate returns at once, so the update it asks for is the one written after them. The viewer modelled never switches continuous updates off, so the runs of FormatRuns have no such message; in UpdateRuns they may go on and off.
- Streams: timeouts, select, errno and the clock are the environment, which may stall any number of times; FdInStream's speed measurement and block callback are not modelled.
- HexInStream: characters that are not digits are decoded as the code does, leaving the value alone.
- The user interfaces, sockets, TLS, zlib, configuration, logging and the HTTP server.
