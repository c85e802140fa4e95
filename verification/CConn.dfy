/** The viewer's side of a connection: when it switches pixel format and when
    it asks for updates. Messages are handled one at a time; an update is read
    rectangle by rectangle, so options may change in the middle of one. */
module ViewerConnection {
  import opened Bytes
  import opened PixelFormats

  // --------------------------------------------------------------- messages

  datatype ClientMsg =
    | SetPixelFormat(pf: PixelFormat)
    | UpdateRequest(incremental: bool)
    | SyncNextFence(payload: seq<Byte>)      // Request | SyncNext
    | EnableContinuousUpdates
    | OtherClientMsg

  datatype ServerMsg =
    | UpdateHeader(nRects: nat)
    | DataRect(pf: PixelFormat)              // pixels or a cursor, in this format
    | ResizeRect                             // DesktopSize, ExtendedDesktopSize
    | NameRect                               // a pseudo-rectangle without pixels
    | LastRect
    | FenceRequest
    | FenceReply(syncNext: bool, payload: seq<Byte>)
    | EndOfContinuousUpdates
    | OtherServerMsg

  predicate IsRect(m: ServerMsg) {
    m.DataRect? || m.ResizeRect? || m.NameRect? || m.LastRect?
  }

  // ------------------------------------------------------------------ state

  const VERY_LOW_COLOUR := PixelFormat(8, 3, false, true, 1, 1, 1, 2, 1, 0)
  const LOW_COLOUR := PixelFormat(8, 6, false, true, 3, 3, 3, 4, 2, 0)
  const MEDIUM_COLOUR := PixelFormat(8, 8, false, true, 7, 7, 3, 5, 2, 0)

  datatype Client = Client(
    pf: PixelFormat,                         // cp.pf(), used for decoding
    nUpdateRectsLeft: nat,
    pendingPFChange: bool, pendingPF: PixelFormat,
    formatChange: bool, encodingChange: bool,
    firstUpdate: bool, pendingUpdate: bool, continuousUpdates: bool,
    forceNonincremental: bool, supportsSyncFence: bool,
    supportsFence: bool, supportsContinuousUpdates: bool,
    fullColour: bool, lowColourLevel: int, fullColourPF: PixelFormat,
    out: seq<ClientMsg>)                     // written, not yet handled by the server

  /** Formats the viewer may ask for. */
  predicate GoodFormat(pf: PixelFormat) {
    WireSized(pf) && IsSane(pf) && pf.trueColour
  }

  predicate Matches(wanted: PixelFormat, pf: PixelFormat)
    requires GoodFormat(wanted) && WireSized(pf)
  {
    Equal(wanted, pf)
  }

  function Wanted(c: Client): (pf: PixelFormat)
    requires GoodFormat(c.fullColourPF)
    ensures GoodFormat(pf)
    ensures pf == if c.fullColour then c.fullColourPF
                  else if c.lowColourLevel == 0 then PixelFormat(8, 3, false, true, 1, 1, 1, 2, 1, 0)
                  else if c.lowColourLevel == 1 then PixelFormat(8, 6, false, true, 3, 3, 3, 4, 2, 0)
                  else PixelFormat(8, 8, false, true, 7, 7, 3, 5, 2, 0)
  {
    if c.fullColour then c.fullColourPF
    else if c.lowColourLevel == 0 then VERY_LOW_COLOUR
    else if c.lowColourLevel == 1 then LOW_COLOUR
    else MEDIUM_COLOUR
  }

  // --------------------------------------------- handlers, as specifications

  /** The assertion in requestNewUpdate. */
  predicate MayRequest(c: Client) {
    c.formatChange ==> !c.pendingUpdate || c.supportsSyncFence
  }

  function Announced(c: Client): Client
    requires GoodFormat(c.fullColourPF)
  {
    AnnouncedAs(c, Wanted(c))
  }

  /** Without fences the switch waits for the end of the current update; with
      fences it waits for the fence to come back. */
  function AnnouncedAs(c: Client, pf: PixelFormat): Client
    requires WireSized(pf)
  {
    c.(out := c.out + Announcement(c.supportsSyncFence, pf),
       pendingPFChange := c.pendingPFChange || !c.supportsSyncFence,
       pendingPF := if c.supportsSyncFence then c.pendingPF else pf,
       formatChange := false)
  }

  function Announcement(withFence: bool, pf: PixelFormat): seq<ClientMsg>
    requires WireSized(pf)
  {
    (if withFence then [SyncNextFence(Write(pf))] else []) + [SetPixelFormat(pf)]
  }

  function Switching(c: Client): Client
    requires GoodFormat(c.fullColourPF)
  {
    if c.formatChange then Announced(c) else c
  }

  function EncodingsSent(c: Client): Client {
    c.(out := c.out + if c.encodingChange then [OtherClientMsg] else [], encodingChange := false)
  }

  function Requesting(c: Client): Client {
    var asking := c.forceNonincremental || !c.continuousUpdates;
    c.(out := c.out + if asking then [UpdateRequest(!c.forceNonincremental)] else [],
       pendingUpdate := c.pendingUpdate || asking,
       forceNonincremental := false)
  }

  function Requested(c: Client): Client
    requires GoodFormat(c.fullColourPF)
  {
    Requesting(EncodingsSent(Switching(c)))
  }

  /** The request that goes out, if any. */
  function RequestSent(c: Client): seq<ClientMsg> {
    if c.forceNonincremental || !c.continuousUpdates then [UpdateRequest(!c.forceNonincremental)] else []
  }

  /** What goes out behind a new format. */
  function Tail(c: Client): (msgs: seq<ClientMsg>)
    ensures RequestSent(c) != [] ==> msgs != [] && msgs[|msgs| - 1] == RequestSent(c)[0]
  {
    (if c.encodingChange then [OtherClientMsg] else []) + RequestSent(c)
  }

  function FormatPart(c: Client): seq<ClientMsg>
    requires GoodFormat(c.fullColourPF)
  {
    if c.formatChange then Announcement(c.supportsSyncFence, Wanted(c)) else []
  }

  /** What requestNewUpdate achieves: nothing is planned any more, an update is on
      its way, and format, encodings and request went out in this order. */
  lemma RequestedMeans(c: Client)
    requires GoodFormat(c.fullColourPF)
    ensures var c' := Requested(c);
      && c'.out == c.out + FormatPart(c) + Tail(c)
      && (c'.pendingUpdate || c'.continuousUpdates)
      && c'.pendingUpdate == (c.pendingUpdate || RequestSent(c) != [])
      && c' == c.(out := c'.out, pendingUpdate := c'.pendingUpdate, formatChange := false, encodingChange := false,
                  forceNonincremental := false, pendingPFChange := c'.pendingPFChange, pendingPF := c'.pendingPF)
      && (if c.formatChange && !c.supportsSyncFence then c'.pendingPFChange && c'.pendingPF == Wanted(c)
          else c'.pendingPFChange == c.pendingPFChange && c'.pendingPF == c.pendingPF)
  {
    hide Wanted, GoodFormat, Announcement, Switching, EncodingsSent, Requesting, Requested;
    RequestedIs(c);
    SwitchingMeans(c);
    EncodingsMeans(Switching(c));
    RequestingMeans(EncodingsSent(Switching(c)));
    assert RequestSent(EncodingsSent(Switching(c))) == RequestSent(c);
    assert EncodingsSent(Switching(c)).out + RequestSent(c) == c.out + FormatPart(c) + Tail(c);
  }

  lemma SwitchingMeans(c: Client)
    requires GoodFormat(c.fullColourPF)
    ensures var c' := Switching(c);
      && c'.out == c.out + (if c.formatChange then Announcement(c.supportsSyncFence, Wanted(c)) else [])
      && c' ==
           c.(out := c'.out, formatChange := false, pendingPFChange := c'.pendingPFChange, pendingPF := c'.pendingPF)
      && (if c.formatChange && !c.supportsSyncFence then c'.pendingPFChange && c'.pendingPF == Wanted(c)
          else c'.pendingPFChange == c.pendingPFChange && c'.pendingPF == c.pendingPF)
  {
    hide Wanted, IsSane, Announcement;
  }

  lemma EncodingsMeans(c: Client)
    ensures EncodingsSent(c) ==
              c.(out := c.out + (if c.encodingChange then [OtherClientMsg] else []), encodingChange := false)
  {
  }

  lemma RequestingMeans(c: Client)
    ensures var c' := Requesting(c);
      && c'.out == c.out + RequestSent(c)
      && c' == c.(out := c'.out, pendingUpdate := c'.pendingUpdate, forceNonincremental := false)
      && c'.pendingUpdate == (c.pendingUpdate || RequestSent(c) != [])
      && (c'.pendingUpdate || c'.continuousUpdates)
  {
  }

  lemma RequestedIs(c: Client)
    requires GoodFormat(c.fullColourPF)
    ensures Requested(c) == Requesting(EncodingsSent(Switching(c)))
  {
  }

  /** The format wanted depends on the options alone. */
  lemma WantedBy(c: Client, c': Client)
    requires GoodFormat(c.fullColourPF) && GoodFormat(c'.fullColourPF)
    ensures c'.fullColour == c.fullColour && c'.lowColourLevel == c.lowColourLevel
            && c'.fullColourPF == c.fullColourPF ==>
              Wanted(c') == Wanted(c)
  {
    hide GoodFormat;
  }

  /** The messages start with the format; with fences, with a fence that carries it
      and then the format. */
  predicate FormatAnnounced(msgs: seq<ClientMsg>, withFence: bool, pf: PixelFormat) {
    if withFence then
      && |msgs| >= 2 && msgs[0].SyncNextFence? && msgs[0].payload != [] && Read(msgs[0].payload) == Ok(pf)
      && msgs[1] == SetPixelFormat(pf)
    else |msgs| >= 1 && msgs[0] == SetPixelFormat(pf)
  }

  lemma RequestFacts(c: Client)
    requires GoodFormat(c.fullColourPF)
    ensures var c' := Requested(c);
      && (c.formatChange ==> |c'.out| > |c.out| && FormatAnnounced(c'.out[|c.out|..], c.supportsSyncFence, Wanted(c)))
      && (c.formatChange && !c.supportsSyncFence ==> c'.pendingPFChange && c'.pendingPF == Wanted(c))
      && (RequestSent(c) != [] ==> c'.pendingUpdate && |c'.out| > |c.out| && c'.out[|c'.out| - 1] == RequestSent(c)[0])
      && (c'.pendingUpdate || c'.continuousUpdates) && !c'.formatChange
      && c'.pendingUpdate == (c.pendingUpdate || RequestSent(c) != [])
  {
    RequestedMeans(c);

    if c.formatChange { Announces(c.out, c.supportsSyncFence, Wanted(c), Tail(c)); }
    hide Requested, Wanted, GoodFormat, Announcement, FormatAnnounced, Tail, RequestSent;
  }

  /** The message is among those written since. */
  ghost predicate Added(out: seq<ClientMsg>, out': seq<ClientMsg>, m: ClientMsg) {
    out <= out' && exists k :: |out| <= k < |out'| && out'[k] == m
  }

  /** The list of encodings goes out if it has changed. */
  lemma EncodingsAnnounced(c: Client)
    requires GoodFormat(c.fullColourPF)
    ensures !Requested(c).encodingChange && (c.encodingChange ==> Added(c.out, Requested(c).out, OtherClientMsg))
  {
    RequestedMeans(c);
    hide Requested, Wanted, GoodFormat, Announcement, RequestSent;
    if c.encodingChange {
      assert Requested(c).out[|c.out| + |FormatPart(c)|] == Tail(c)[0] == OtherClientMsg;
    }
  }

  lemma Announces(before: seq<ClientMsg>, withFence: bool, pf: PixelFormat, after: seq<ClientMsg>)
    requires GoodFormat(pf)
    ensures var out := before + Announcement(withFence, pf) + after;
      && |out| > |before| && FormatAnnounced(out[|before|..], withFence, pf)
  {
    var added := Announcement(withFence, pf);
    AnnouncementMeans(withFence, pf);
    hide Announcement, Read, GoodFormat;
    assert (before + added + after)[|before|..] == added + after;
  }

  lemma EndFacts(c: Client, auto: AutoSelect)
    ensures var c' := UpdateEnded(c, auto);
      && c'.pf == (if c.pendingPFChange then c.pendingPF else c.pf) && !c'.pendingPFChange && !c'.firstUpdate
      && c'.out == c.out + (if c.firstUpdate && c.supportsFence then [SyncNextFence([])] else [])
      && (c'.formatChange <==> c.formatChange || c'.fullColour != c.fullColour)
      && c'.fullColour == (if auto.AutoSelect? then auto.fullColour else c.fullColour)
      && (c'.encodingChange <==> c.encodingChange || (auto.AutoSelect? && auto.newEncoding))
  {
  }

  /** A fence carries the very format that follows it. */
  lemma AnnouncementMeans(withFence: bool, pf: PixelFormat)
    requires GoodFormat(pf)
    ensures var msgs := Announcement(withFence, pf);
      && msgs[|msgs| - 1] == SetPixelFormat(pf)
      && |msgs| == (if withFence then 2 else 1)
      && (withFence ==> msgs[0].SyncNextFence? && Read(msgs[0].payload) == Ok(pf) && msgs[0].payload != [])
  {
    ReadWrite(pf);
  }

  function UpdateStarted(c: Client, nRects: nat): Client
    requires GoodFormat(c.fullColourPF)
  {
    Requested(c.(nUpdateRectsLeft := nRects, pendingUpdate := false))
  }

  /** What autoSelectFormatAndEncoding decides; fullColour as it is for no change. */
  datatype AutoSelect = Off | AutoSelect(newEncoding: bool, fullColour: bool)

  function AutoSelected(c: Client, auto: AutoSelect): Client {
    c.(encodingChange := c.encodingChange || (auto.AutoSelect? && auto.newEncoding),
       fullColour := if auto.AutoSelect? then auto.fullColour else c.fullColour,
       formatChange := c.formatChange || (auto.AutoSelect? && auto.fullColour != c.fullColour))
  }

  function UpdateEnded(c: Client, auto: AutoSelect): Client {
    AutoSelected(Switched(Probed(c)), auto)
  }

  function Probed(c: Client): Client {
    c.(out := c.out + if c.firstUpdate && c.supportsFence then [SyncNextFence([])] else [], firstUpdate := false)
  }

  /** The switch to the format announced at the start of the update. */
  function Switched(c: Client): Client {
    c.(pf := if c.pendingPFChange then c.pendingPF else c.pf, pendingPFChange := false)
  }

  function Resized(c: Client): Client {
    c.(out := c.out + if c.continuousUpdates then [EnableContinuousUpdates] else [])
  }

  function RectRead(c: Client, m: ServerMsg, auto: AutoSelect): Client
    requires IsRect(m) && c.nUpdateRectsLeft > 0
  {
    var left := if m.LastRect? then 0 else c.nUpdateRectsLeft - 1;
    var after := (if m.ResizeRect? then Resized(c) else c).(nUpdateRectsLeft := left);
    if left == 0 then UpdateEnded(after, auto) else after
  }

  /** The reply to the probe. */
  function FencesWork(c: Client): Client {
    c.(supportsSyncFence := true,
       continuousUpdates := c.continuousUpdates || c.supportsContinuousUpdates,
       out := c.out + if c.supportsContinuousUpdates then [EnableContinuousUpdates] else [])
  }

  /** Fence replies: the probe's is empty, the others carry the new format. */
  function FenceReplied(c: Client, syncNext: bool, payload: seq<Byte>): Result<Client> {
    var known := c.(supportsFence := true);
    if payload == [] then
      Ok(if syncNext then FencesWork(known) else known)
    else
      match Read(payload)
      case Ok(pf) => Ok(known.(pf := pf))
      case EndOfStream => EndOfStream
      case InvalidFormat => InvalidFormat
  }

  /** Can the reader make sense of m now? */
  predicate Expects(c: Client, m: ServerMsg) {
    IsRect(m) <==> c.nUpdateRectsLeft > 0
  }

  function MsgRead(c: Client, m: ServerMsg, auto: AutoSelect): Result<Client>
    requires GoodFormat(c.fullColourPF) && Expects(c, m)
  {
    if c.nUpdateRectsLeft > 0 then Ok(RectRead(c, m, auto)) else
    match m
    case UpdateHeader(n) => Ok(UpdateStarted(c, n))
    case FenceRequest => Ok(c.(supportsFence := true, out := c.out + [OtherClientMsg]))
    case FenceReply(syncNext, payload) => FenceReplied(c, syncNext, payload)
    case EndOfContinuousUpdates => Ok(c.(supportsContinuousUpdates := true))
    case OtherServerMsg => Ok(c)
  }

  /** What a resize sends: the area of continuous updates anew, if they are on. */
  function ResizeSent(c: Client, m: ServerMsg): seq<ClientMsg> {
    if m.ResizeRect? && c.continuousUpdates then [EnableContinuousUpdates] else []
  }

  /** The end of an update: the format announced is in force, the first time the
      probe goes out, and what is known of the server stays. */
  ghost predicate UpdateOver(c: Client, m: ServerMsg, c': Client) {
    && c'.nUpdateRectsLeft == 0 && !c'.pendingPFChange && !c'.firstUpdate
    && c'.pf == (if c.pendingPFChange then c.pendingPF else c.pf)
    && c'.out == c.out + ResizeSent(c, m) + (if c.firstUpdate && c.supportsFence then [SyncNextFence([])] else [])
    && c'.continuousUpdates == c.continuousUpdates && c'.pendingUpdate == c.pendingUpdate
    && c'.supportsSyncFence == c.supportsSyncFence && c'.supportsFence == c.supportsFence
    && c'.supportsContinuousUpdates == c.supportsContinuousUpdates
  }

  /** Inside an update a rectangle changes nothing else. */
  ghost predicate UpdateGoesOn(c: Client, m: ServerMsg, c': Client) {
    c' == c.(nUpdateRectsLeft := c'.nUpdateRectsLeft, out := c.out + ResizeSent(c, m))
  }

  /** The reply to the probe: fences work, and continuous updates go on if the server
      has announced them.  Without SyncNext it says no more than that there are fences. */
  ghost predicate ProbeAnswered(c: Client, syncNext: bool, c': Client) {
    var enabling := syncNext && c.supportsContinuousUpdates;
    c' == c.(supportsFence := true, supportsSyncFence := c.supportsSyncFence || syncNext,
             continuousUpdates := c.continuousUpdates || enabling,
             out := c.out + if enabling then [EnableContinuousUpdates] else [])
  }

  lemma FenceMeans(c: Client, syncNext: bool, payload: seq<Byte>)
    ensures var r := FenceReplied(c, syncNext, payload);
      && (payload == [] ==> r.Ok? && ProbeAnswered(c, syncNext, r.value))
      && (payload != [] ==>
            if Read(payload).Ok? then r == Ok(c.(supportsFence := true, pf := Read(payload).value)) else !r.Ok?)
  {
    hide Read, FencesWork, ProbeAnswered;
    if payload == [] {
      if syncNext { FencesWorkMeans(c); } else { NoSyncMeans(c); }
    }
  }

  lemma FencesWorkMeans(c: Client)
    ensures ProbeAnswered(c, true, FencesWork(c.(supportsFence := true)))
  {
  }

  lemma NoSyncMeans(c: Client)
    ensures ProbeAnswered(c, false, c.(supportsFence := true))
  {
    assert c.out + [] == c.out;
  }

  /** A rectangle is counted; the last one ends the update. */
  lemma RectMeans(c: Client, m: ServerMsg, auto: AutoSelect)
    requires IsRect(m) && c.nUpdateRectsLeft > 0
    ensures var c' := RectRead(c, m, auto);
      && c'.nUpdateRectsLeft == (if m.LastRect? then 0 else c.nUpdateRectsLeft - 1)
      && if c'.nUpdateRectsLeft > 0 then UpdateGoesOn(c, m, c') else UpdateOver(c, m, c')
  {
    var left := if m.LastRect? then 0 else c.nUpdateRectsLeft - 1;
    CountedIs(c, m, left);
    RectReadIs(c, m, auto, left);
    hide RectRead, Resized;
    if left == 0 { CountedOver(c, m, auto); }
  }

  /** After a rectangle and before the end of the update, if that is due. */
  function Counted(c: Client, m: ServerMsg, left: nat): Client {
    c.(nUpdateRectsLeft := left, out := c.out + ResizeSent(c, m))
  }

  lemma CountedIs(c: Client, m: ServerMsg, left: nat)
    ensures (if m.ResizeRect? then Resized(c) else c).(nUpdateRectsLeft := left) == Counted(c, m, left)
  {
    assert c.out + [] == c.out;
  }

  lemma RectReadIs(c: Client, m: ServerMsg, auto: AutoSelect, left: nat)
    requires IsRect(m) && c.nUpdateRectsLeft > 0 && left == if m.LastRect? then 0 else c.nUpdateRectsLeft - 1
    ensures RectRead(c, m, auto) == if left == 0 then UpdateEnded(Counted(c, m, left), auto) else Counted(c, m, left)
  {
    CountedIs(c, m, left);
    hide UpdateEnded, Counted, Resized;
  }

  lemma CountedOver(c: Client, m: ServerMsg, auto: AutoSelect)
    ensures UpdateOver(c, m, UpdateEnded(Counted(c, m, 0), auto))
  {
    EndFacts(Counted(c, m, 0), auto);
    EndKeeps(Counted(c, m, 0), auto);
    hide UpdateEnded, ResizeSent;
  }

  lemma EndKeeps(c: Client, auto: AutoSelect)
    ensures var c' := UpdateEnded(c, auto);
      && c'.nUpdateRectsLeft == c.nUpdateRectsLeft && c'.continuousUpdates == c.continuousUpdates
      && c'.pendingUpdate == c.pendingUpdate && c'.supportsSyncFence == c.supportsSyncFence
      && c'.supportsFence == c.supportsFence && c'.supportsContinuousUpdates == c.supportsContinuousUpdates
  {
  }

  function Refreshed(c: Client): Client
    requires GoodFormat(c.fullColourPF)
  {
    var c1 := c.(forceNonincremental := true);
    if c.supportsSyncFence then Requested(c1) else c1
  }

  function ParamsSet(c: Client, fullColour: bool, lowColourLevel: int): Client {
    c.(fullColour := fullColour, lowColourLevel := lowColourLevel, encodingChange := true)
  }

  function OptionsSet(c: Client, fullColour: bool, lowColourLevel: int): Client
    requires GoodFormat(c.fullColourPF) && WireSized(c.pf)
  {
    var c1 := ParamsSet(c, fullColour, lowColourLevel);
    if Matches(Wanted(c1), c1.pf) then c1 else FormatChanged(c1)
  }

  function FormatChanged(c: Client): Client
    requires GoodFormat(c.fullColourPF)
  {
    var c1 := c.(formatChange := true);
    if c.supportsSyncFence then Requested(c1) else c1
  }

  /** On entry to serverInit, with the request for a format and encodings. */
  function Connected(fullColour: bool, lowColourLevel: int, fullColourPF: PixelFormat, pf: PixelFormat): Client {
    Client(pf, 0, false, pf, true, true, true, false, false, true, false,
           false, false, fullColour, lowColourLevel, fullColourPF, [])
  }

  /** After serverInit the wanted format is in force, ahead of the first update. */
  function Initial(fullColour: bool, lowColourLevel: int, fullColourPF: PixelFormat, pf: PixelFormat): Client
    requires GoodFormat(fullColourPF)
  {
    var asked := Requested(Connected(fullColour, lowColourLevel, fullColourPF, pf));
    asked.(pf := asked.pendingPF, pendingPFChange := false)
  }

  lemma FirstFormatPending(fullColour: bool, lowColourLevel: int, fullColourPF: PixelFormat, pf: PixelFormat)
    requires GoodFormat(fullColourPF)
    ensures Requested(Connected(fullColour, lowColourLevel, fullColourPF, pf)).pendingPFChange
  {
    hide Wanted, GoodFormat;
  }

  // ------------------------------------------------------------------ class

  class CConn {
    var pf: PixelFormat
    var nUpdateRectsLeft: nat
    var pendingPFChange: bool
    var pendingPF: PixelFormat
    var formatChange: bool
    var encodingChange: bool
    var firstUpdate: bool
    var pendingUpdate: bool
    var continuousUpdates: bool
    var forceNonincremental: bool
    var supportsSyncFence: bool
    var supportsFence: bool
    var supportsContinuousUpdates: bool
    var fullColour: bool
    var lowColourLevel: int
    var fullColourPF: PixelFormat
    var out: seq<ClientMsg>

    ghost function State(): Client
      reads this
    {
      Client(pf, nUpdateRectsLeft, pendingPFChange, pendingPF, formatChange, encodingChange, firstUpdate,
             pendingUpdate, continuousUpdates, forceNonincremental, supportsSyncFence, supportsFence,
             supportsContinuousUpdates, fullColour, lowColourLevel, fullColourPF, out)
    }

    constructor (full: bool, level: int, serverPF: PixelFormat)
      ensures State() == Connected(full, level, serverPF, serverPF).(formatChange := false, encodingChange := false)
      ensures firstUpdate && !supportsFence && !supportsSyncFence && !supportsContinuousUpdates
      ensures !pendingUpdate && !continuousUpdates && nUpdateRectsLeft == 0 && out == []
    {
      pf, pendingPF, fullColourPF := serverPF, serverPF, serverPF;
      nUpdateRectsLeft := 0;
      pendingPFChange, formatChange, encodingChange, firstUpdate := false, false, false, true;
      pendingUpdate, continuousUpdates, forceNonincremental, supportsSyncFence := false, false, true, false;
      supportsFence, supportsContinuousUpdates := false, false;
      fullColour, lowColourLevel := full, level;
      out := [];
    }

    method ServerInit(preferredPF: PixelFormat)
      requires GoodFormat(preferredPF)
      requires var c := Connected(fullColour, lowColourLevel, fullColourPF, pf);
        State() == c.(formatChange := false, encodingChange := false)
      modifies this
      ensures State() == old(Initial(fullColour, lowColourLevel, preferredPF, pf))
      ensures pf == Wanted(State()) && !formatChange && !pendingPFChange && fullColourPF == preferredPF
      ensures out == [SetPixelFormat(pf), OtherClientMsg, UpdateRequest(false)] && pendingUpdate && firstUpdate
    {
      hide Requested, GoodFormat, Wanted;
      ghost var c := Connected(fullColour, lowColourLevel, preferredPF, pf);
      fullColourPF := preferredPF;
      formatChange, encodingChange := true, true;
      assert State() == c;
      FirstFormatPending(fullColour, lowColourLevel, fullColourPF, pf);
      RequestNewUpdate();
      assert pendingPFChange;
      SwitchPending();
      RequestedMeans(c);
      WantedBy(c, State());
    }

    method RequestNewUpdate()
      requires GoodFormat(fullColourPF) && MayRequest(State())
      modifies this`pendingPFChange, this`pendingPF, this`formatChange, this`encodingChange
      modifies this`out, this`pendingUpdate, this`forceNonincremental
      ensures State() == Requested(old(State()))
      ensures !formatChange && !encodingChange && (pendingUpdate || continuousUpdates) && pf == old(pf)
      ensures old(encodingChange) ==> Added(old(out), out, OtherClientMsg)
      ensures old(formatChange) ==>
                |out| > |old(out)| && FormatAnnounced(out[|old(out)|..], supportsSyncFence, Wanted(old(State())))
      ensures old(formatChange) && !supportsSyncFence ==> pendingPFChange && pendingPF == Wanted(old(State()))
      ensures old(forceNonincremental) || !continuousUpdates ==>
                pendingUpdate && |out| > |old(out)| && out[|out| - 1] == UpdateRequest(!old(forceNonincremental))
      ensures continuousUpdates && !old(forceNonincremental) ==> pendingUpdate == old(pendingUpdate)
    {
      hide Switching, EncodingsSent, Requesting, Wanted, FormatAnnounced, Requested, GoodFormat, Added;
      RequestedIs(State());
      EncodingsAnnounced(State());
      RequestFacts(State());
      if formatChange {
        assert !pendingUpdate || supportsSyncFence;
      }
      SwitchFormat();
      CheckEncodings();
      SendRequest();
    }

    method WantedFormat() returns (wanted: PixelFormat)
      requires GoodFormat(fullColourPF)
      ensures wanted == Wanted(State())
    {
      if fullColour {
        wanted := fullColourPF;
      } else if lowColourLevel == 0 {
        wanted := VERY_LOW_COLOUR;
      } else if lowColourLevel == 1 {
        wanted := LOW_COLOUR;
      } else {
        wanted := MEDIUM_COLOUR;
      }
    }

    method SwitchFormat()
      requires GoodFormat(fullColourPF)
      modifies this`pendingPFChange, this`pendingPF, this`formatChange, this`out
      ensures State() == Switching(old(State()))
    {
      if formatChange {
        var next := WantedFormat();
        hide AnnouncedAs, GoodFormat, Wanted;
        AnnounceFormat(next);
      }
    }

    method AnnounceFormat(next: PixelFormat)
      requires WireSized(next)
      modifies this`pendingPFChange, this`pendingPF, this`formatChange, this`out
      ensures State() == AnnouncedAs(old(State()), next)
    {
      hide WireSized, Announcement;
      PutOff(next);
      WriteFormat(next);
      formatChange := false;
    }

    /** Without fences the switch is due at the end of the current update. */
    method PutOff(next: PixelFormat)
      modifies this`pendingPFChange, this`pendingPF
      ensures pendingPFChange == (old(pendingPFChange) || !supportsSyncFence)
      ensures pendingPF == if supportsSyncFence then old(pendingPF) else next
    {
      if !supportsSyncFence {
        pendingPFChange := true;
        pendingPF := next;
      }
    }

    /** The format goes out right behind the fence that carries it. */
    method WriteFormat(next: PixelFormat)
      requires WireSized(next)
      modifies this`out
      ensures out == old(out) + Announcement(supportsSyncFence, next)
    {
      hide Write, WireSized;
      if supportsSyncFence {
        out := out + [SyncNextFence(Write(next))];
      }
      out := out + [SetPixelFormat(next)];
    }

    method SendRequest()
      modifies this`out, this`pendingUpdate, this`forceNonincremental
      ensures State() == Requesting(old(State()))
    {
      if forceNonincremental || !continuousUpdates {
        pendingUpdate := true;
        out := out + [UpdateRequest(!forceNonincremental)];
      }
      forceNonincremental := false;
    }

    method CheckEncodings()
      modifies this`out, this`encodingChange
      ensures State() == EncodingsSent(old(State()))
    {
      if encodingChange {
        out := out + [OtherClientMsg];
        encodingChange := false;
      }
    }

    /** The first of the messages written leaves for the server. */
    method Leaves() returns (m: ClientMsg)
      requires out != []
      modifies this`out
      ensures m == old(out)[0] && State() == old(State()).(out := old(out)[1..])
    {
      m := out[0];
      out := out[1..];
    }

    method FramebufferUpdateStart(nRects: nat)
      requires GoodFormat(fullColourPF)
      modifies this`pendingPFChange, this`pendingPF, this`formatChange, this`encodingChange
      modifies this`out, this`pendingUpdate, this`forceNonincremental, this`nUpdateRectsLeft
      ensures State() == UpdateStarted(old(State()), nRects)
      ensures nUpdateRectsLeft == nRects && pf == old(pf) && !formatChange
      ensures pendingUpdate || continuousUpdates
      ensures pendingUpdate ==> |out| > |old(out)| && out[|out| - 1].UpdateRequest?
      ensures old(formatChange) && !supportsSyncFence ==> pendingPFChange && pendingPF == Wanted(old(State()))
    {
      hide Requested, Wanted, GoodFormat, FormatAnnounced;
      WantedBy(State(), State().(nUpdateRectsLeft := nRects, pendingUpdate := false));
      nUpdateRectsLeft := nRects;
      pendingUpdate := false;
      RequestNewUpdate();
    }

    method FramebufferUpdateEnd(auto: AutoSelect)
      modifies this`out, this`firstUpdate, this`pf, this`pendingPFChange
      modifies this`encodingChange, this`fullColour, this`formatChange
      ensures State() == UpdateEnded(old(State()), auto)
      ensures pf == (if old(pendingPFChange) then old(pendingPF) else old(pf)) && !pendingPFChange
      ensures out == old(out) + (if old(firstUpdate) && supportsFence then [SyncNextFence([])] else []) && !firstUpdate
      ensures fullColour == if auto.AutoSelect? then auto.fullColour else old(fullColour)
      ensures formatChange <==> old(formatChange) || fullColour != old(fullColour)
      ensures encodingChange <==> old(encodingChange) || (auto.AutoSelect? && auto.newEncoding)
      ensures pendingUpdate == old(pendingUpdate) && continuousUpdates == old(continuousUpdates)
    {
      EndFacts(State(), auto);
      hide Probed, Switched, AutoSelected;
      ProbeFences();
      SwitchPending();
      AutoSelectFormatAndEncoding(auto);
    }

    method ProbeFences()
      modifies this`out, this`firstUpdate
      ensures State() == Probed(old(State()))
    {
      if firstUpdate {
        if supportsFence { out := out + [SyncNextFence([])]; }
        firstUpdate := false;
      }
    }

    method SwitchPending()
      modifies this`pf, this`pendingPFChange
      ensures State() == Switched(old(State()))
    {
      if pendingPFChange {
        pf := pendingPF;
        pendingPFChange := false;
      }
    }

    method AutoSelectFormatAndEncoding(auto: AutoSelect)
      modifies this`encodingChange, this`fullColour, this`formatChange
      ensures State() == AutoSelected(old(State()), auto)
    {
      if auto.AutoSelect? {
        encodingChange := encodingChange || auto.newEncoding;
        if auto.fullColour != fullColour {
          fullColour := auto.fullColour;
          formatChange := true;
        }
      }
    }

    method Fence(syncNext: bool, payload: seq<Byte>) returns (r: Result<()>)
      modifies this`supportsFence, this`supportsSyncFence, this`continuousUpdates, this`out, this`pf
      ensures r.Ok? <==> FenceReplied(old(State()), syncNext, payload).Ok?
      ensures r.Ok? ==> Ok(State()) == FenceReplied(old(State()), syncNext, payload)
      ensures supportsFence && pendingPFChange == old(pendingPFChange) && nUpdateRectsLeft == old(nUpdateRectsLeft)
      ensures payload == [] ==> r.Ok? && pf == old(pf) && supportsSyncFence == (old(supportsSyncFence) || syncNext)
      ensures payload == [] ==> continuousUpdates == (old(continuousUpdates) || (syncNext && supportsContinuousUpdates))
      ensures payload != [] ==>
                (r.Ok? <==> Read(payload).Ok?) && (if r.Ok? then Read(payload) == Ok(pf) else pf == old(pf))
      ensures payload != [] ==>
                supportsSyncFence == old(supportsSyncFence) && continuousUpdates == old(continuousUpdates)
      ensures var enabling := payload == [] && syncNext && supportsContinuousUpdates;
        out == old(out) + (if enabling then [EnableContinuousUpdates] else [])
    {
      assert out + [] == out;
      hide Read;
      supportsFence := true;
      if payload == [] {
        if syncNext { EnableFences(); }
      } else {
        var format := Read(payload);
        match format {
          case Ok(next) => pf := next;
          case EndOfStream => return EndOfStream;
          case InvalidFormat => return InvalidFormat;
        }
      }
      r := Ok(());
    }

    method EnableFences()
      modifies this`supportsSyncFence, this`continuousUpdates, this`out
      ensures State() == FencesWork(old(State()))
    {
      supportsSyncFence := true;
      if supportsContinuousUpdates {
        continuousUpdates := true;
        out := out + [EnableContinuousUpdates];
      }
    }

    method ResizeFramebuffer()
      modifies this`out
      ensures State() == Resized(old(State()))
    {
      if continuousUpdates { out := out + [EnableContinuousUpdates]; }
    }

    /** One step of the reader: a message, or a rectangle of the current update. */
    method ReadMsg(m: ServerMsg, auto: AutoSelect) returns (r: Result<()>)
      requires GoodFormat(fullColourPF) && Expects(State(), m)
      modifies this
      ensures r.Ok? <==> MsgRead(old(State()), m, auto).Ok?
      ensures r.Ok? ==> Ok(State()) == MsgRead(old(State()), m, auto)
      ensures !m.FenceReply? ==> r.Ok?
      ensures m.OtherServerMsg? ==> State() == old(State())
      ensures m.EndOfContinuousUpdates? ==> State() == old(State()).(supportsContinuousUpdates := true)
      ensures m.FenceRequest? ==> State() == old(State()).(supportsFence := true, out := old(out) + [OtherClientMsg])
      ensures m.UpdateHeader? ==> nUpdateRectsLeft == m.nRects && pf == old(pf)
      ensures m.UpdateHeader? ==> pendingUpdate || continuousUpdates
      ensures m.FenceReply? && m.payload == [] ==> r.Ok? && ProbeAnswered(old(State()), m.syncNext, State())
      ensures m.FenceReply? && m.payload != [] ==> (r.Ok? <==> Read(m.payload).Ok?)
      ensures m.FenceReply? && m.payload != [] && r.Ok? ==>
                State() == old(State()).(supportsFence := true, pf := Read(m.payload).value)
      ensures IsRect(m) ==> nUpdateRectsLeft == if m.LastRect? then 0 else old(nUpdateRectsLeft) - 1
      ensures IsRect(m) ==>
                if nUpdateRectsLeft > 0 then UpdateGoesOn(old(State()), m, State())
                else UpdateOver(old(State()), m, State())
    {
      hide UpdateStarted, RectRead, FenceReplied, GoodFormat, Read, UpdateOver, UpdateGoesOn, ProbeAnswered;
      r := Ok(());
      if nUpdateRectsLeft > 0 {
        RectMeans(State(), m, auto);
        ReadRect(m, auto);
      } else {
        r := ReadMessage(m);
      }
    }

    /** Between updates: a message that is not a rectangle. */
    method ReadMessage(m: ServerMsg) returns (r: Result<()>)
      requires GoodFormat(fullColourPF) && nUpdateRectsLeft == 0 && !IsRect(m)
      modifies this
      ensures r.Ok? <==> MsgRead(old(State()), m, Off).Ok?
      ensures r.Ok? ==> Ok(State()) == MsgRead(old(State()), m, Off)
      ensures !m.FenceReply? ==> r.Ok?
      ensures m.UpdateHeader? ==> nUpdateRectsLeft == m.nRects && pf == old(pf) && (pendingUpdate || continuousUpdates)
      ensures m.FenceReply? && m.payload == [] ==> r.Ok? && ProbeAnswered(old(State()), m.syncNext, State())
      ensures m.FenceReply? && m.payload != [] ==> (r.Ok? <==> Read(m.payload).Ok?)
      ensures m.FenceReply? && m.payload != [] && r.Ok? ==>
                State() == old(State()).(supportsFence := true, pf := Read(m.payload).value)
    {
      hide UpdateStarted, FenceReplied, GoodFormat, Read, ProbeAnswered;
      r := Ok(());
      match m {
        case UpdateHeader(n) => FramebufferUpdateStart(n);
        case FenceRequest => EchoFence();
        case FenceReply(syncNext, payload) =>
          FenceMeans(State(), syncNext, payload);
          r := Fence(syncNext, payload);
        case EndOfContinuousUpdates => supportsContinuousUpdates := true;
        case OtherServerMsg =>
      }
    }

    method EchoFence()
      modifies this`supportsFence, this`out
      ensures State() == old(State()).(supportsFence := true, out := old(out) + [OtherClientMsg])
    {
      supportsFence := true;
      out := out + [OtherClientMsg];
    }

    method ReadRect(m: ServerMsg, auto: AutoSelect)
      requires IsRect(m) && nUpdateRectsLeft > 0
      modifies this
      ensures State() == RectRead(old(State()), m, auto)
    {
      hide UpdateEnded;
      if m.LastRect? { nUpdateRectsLeft := 1; }
      if m.ResizeRect? { ResizeFramebuffer(); }
      nUpdateRectsLeft := nUpdateRectsLeft - 1;
      if nUpdateRectsLeft == 0 { FramebufferUpdateEnd(auto); }
    }

    method RefreshFramebuffer()
      requires GoodFormat(fullColourPF)
      modifies this`pendingPFChange, this`pendingPF, this`formatChange, this`encodingChange
      modifies this`out, this`pendingUpdate, this`forceNonincremental
      ensures State() == Refreshed(old(State()))
      ensures !supportsSyncFence ==> forceNonincremental && out == old(out) && formatChange == old(formatChange)
      ensures supportsSyncFence ==>
                pendingUpdate && out != [] && out[|out| - 1] == UpdateRequest(false) && !formatChange
      ensures pf == old(pf)
    {
      hide Requested, GoodFormat, Wanted;
      forceNonincremental := true;
      if supportsSyncFence { RequestNewUpdate(); }
    }

    method HandleOptions(full: bool, level: int)
      requires GoodFormat(fullColourPF) && WireSized(pf)
      modifies this`pendingPFChange, this`pendingPF, this`formatChange, this`encodingChange, this`out
      modifies this`pendingUpdate, this`forceNonincremental, this`fullColour, this`lowColourLevel
      ensures State() == OptionsSet(old(State()), full, level)
      ensures fullColour == full && lowColourLevel == level && fullColourPF == old(fullColourPF) && pf == old(pf)
      ensures Matches(Wanted(State()), pf) ==> formatChange == old(formatChange) && out == old(out) && encodingChange
      ensures !Matches(Wanted(State()), pf) && !supportsSyncFence ==> formatChange && out == old(out) && encodingChange
      ensures !Matches(Wanted(State()), pf) && supportsSyncFence ==>
                !formatChange && |out| > |old(out)| && FormatAnnounced(out[|old(out)|..], true, Wanted(State()))
    {
      SetParams(full, level);
      var wanted := WantedFormat();
      hide Wanted, Matches, FormatChanged, GoodFormat, WireSized;
      ghost var c := State();
      if !Matches(wanted, pf) { ChangeFormat(); }
      WantedBy(c, State());
    }

    method SetParams(full: bool, level: int)
      modifies this`fullColour, this`lowColourLevel, this`encodingChange
      ensures State() == ParamsSet(old(State()), full, level)
    {
      fullColour, lowColourLevel := full, level;
      encodingChange := true;
    }

    method ChangeFormat()
      requires GoodFormat(fullColourPF)
      modifies this`pendingPFChange, this`pendingPF, this`formatChange, this`encodingChange
      modifies this`out, this`pendingUpdate, this`forceNonincremental
      ensures State() == FormatChanged(old(State()))
      ensures fullColour == old(fullColour) && lowColourLevel == old(lowColourLevel)
      ensures fullColourPF == old(fullColourPF) && pf == old(pf) && supportsSyncFence == old(supportsSyncFence)
      ensures !supportsSyncFence ==> formatChange && out == old(out) && encodingChange == old(encodingChange)
      ensures supportsSyncFence ==>
                !formatChange && |out| > |old(out)| && FormatAnnounced(out[|old(out)|..], true, Wanted(old(State())))
    {
      ghost var c := State().(formatChange := true);
      WantedBy(State(), c);
      RequestedMeans(c);
      hide Requested, GoodFormat, Wanted, FormatAnnounced;
      formatChange := true;
      if supportsSyncFence { RequestNewUpdate(); }
    }
  }
}
