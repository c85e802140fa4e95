/** The viewer against a server that handles messages in order: every update is
    decoded in the pixel format it was encoded in, over any run. */
module FormatRuns {
  import opened Bytes
  import opened PixelFormats
  import opened ViewerConnection

  // ----------------------------------------------------------------- server

  datatype SyncFence = NoFence | Waiting(payload: seq<Byte>)

  datatype Server = Server(pf: PixelFormat, requests: nat, continuous: bool, syncFence: SyncFence)

  /** Continuous updates take the place of incremental requests. */
  function Asked(s: Server, m: ClientMsg): nat {
    if m.EnableContinuousUpdates? then 0
    else if m.UpdateRequest? && !(m.incremental && s.continuous) then s.requests + 1
    else s.requests
  }

  /** A fence is answered together with the message after it. */
  function Handled(s: Server, m: ClientMsg): Server {
    Server(if m.SetPixelFormat? then m.pf else s.pf,
           Asked(s, m),
           s.continuous || m.EnableContinuousUpdates?,
           if m.SyncNextFence? then Waiting(m.payload) else NoFence)
  }

  function Replies(s: Server, m: ClientMsg): seq<ServerMsg> {
    if s.syncFence.NoFence? then []
    else [FenceReply(true, if m.SyncNextFence? then m.payload else s.syncFence.payload)]
  }

  predicate CanSend(s: Server) {
    s.requests > 0 || s.continuous
  }

  /** An update in one format, of a known number of rectangles or closed by LastRect. */
  predicate IsUpdate(msgs: seq<ServerMsg>, pf: PixelFormat) {
    && |msgs| >= 2 && msgs[0].UpdateHeader?
    && (forall k :: 1 <= k < |msgs| - 1 ==> IsPart(msgs[k], pf))
    && if msgs[|msgs| - 1].LastRect? then msgs[0].nRects > |msgs| - 2
       else IsPart(msgs[|msgs| - 1], pf) && msgs[0].nRects == |msgs| - 1
  }

  predicate IsPart(m: ServerMsg, pf: PixelFormat) {
    m == DataRect(pf) || m.ResizeRect? || m.NameRect?
  }

  // ----------------------------------------------------------------- system

  /** inbox: written by the server, not yet read; client.out goes the other way. */
  datatype System = System(client: Client, server: Server, inbox: seq<ServerMsg>)

  datatype Event =
    | ServerHandles
    | ServerUpdates(update: seq<ServerMsg>, answered: nat)
    | ServerSays(m: ServerMsg)
    | ClientReads(auto: AutoSelect)
    | ClientSays
    | OptionsChanged(fullColour: bool, lowColourLevel: int)
    | RefreshAsked

  ghost predicate Enabled(s: System, e: Event) {
    match e
    case ServerHandles => s.client.out != []
    case ServerUpdates(update, answered) =>
      && CanSend(s.server) && IsUpdate(update, s.server.pf)
      && answered <= s.server.requests && (answered > 0 || s.server.continuous)
    case ServerSays(m) => m.FenceRequest? || m.EndOfContinuousUpdates? || m.OtherServerMsg?
    case ClientReads(auto) =>
      && s.inbox != [] && Expects(s.client, s.inbox[0])
      && GoodFormat(s.client.fullColourPF) && MsgRead(s.client, s.inbox[0], auto).Ok?
    case ClientSays => true
    case OptionsChanged(_, _) => GoodFormat(s.client.fullColourPF) && WireSized(s.client.pf)
    case RefreshAsked => GoodFormat(s.client.fullColourPF)
  }

  ghost function Next(s: System, e: Event): System
    requires Enabled(s, e)
  {
    var c := s.client;
    match e
    case ServerHandles =>
      System(c.(out := c.out[1..]), Handled(s.server, c.out[0]), s.inbox + Replies(s.server, c.out[0]))
    case ServerUpdates(update, answered) =>
      System(c, s.server.(requests := s.server.requests - answered), s.inbox + update)
    case ServerSays(m) => s.(inbox := s.inbox + [m])
    case ClientReads(auto) => System(MsgRead(c, s.inbox[0], auto).value, s.server, s.inbox[1..])
    case ClientSays => s.(client := c.(out := c.out + [OtherClientMsg]))
    case OptionsChanged(fullColour, level) => s.(client := OptionsSet(c, fullColour, level))
    case RefreshAsked => s.(client := Refreshed(c))
  }

  /** Once serverInit has run. */
  ghost predicate Start(s: System) {
    && s.inbox == [] && s.server == Server(s.server.pf, 0, false, NoFence)
    && exists fullColour, level, preferred, pf :: GoodFormat(preferred) && WireSized(pf) &&
         s.client == Initial(fullColour, level, preferred, pf)
  }

  ghost predicate Run(states: seq<System>, events: seq<Event>) {
    && |states| == |events| + 1
    && Start(states[0])
    && forall k :: 0 <= k < |events| ==> Enabled(states[k], events[k]) && states[k + 1] == Next(states[k], events[k])
  }

  ghost predicate Reachable(s: System) {
    exists states, events :: Run(states, events) && states[|states| - 1] == s
  }

  // ---------------------------------------------------------- what is to come

  datatype Outcome = Reads(pf: PixelFormat) | Fails

  /** Read all of msgs, starting in format pf with so many rectangles left of an
      update after which the format is `after`: the format at the end, or a failure
      when a rectangle comes in another format or where none is due. */
  ghost function Outlook(msgs: seq<ServerMsg>, pf: PixelFormat, after: PixelFormat, left: nat): Outcome {
    if msgs == [] then
      if left == 0 then Reads(pf) else Fails
    else
      var m, rest := msgs[0], msgs[1..];
      if left == 0 then
        if m.UpdateHeader? then (if m.nRects == 0 then Fails else Outlook(rest, pf, pf, m.nRects))
        else if IsRect(m) then Fails
        else if m.FenceReply? && m.payload != [] then
          var r := Read(m.payload);
          if r.Ok? then Outlook(rest, r.value, r.value, 0) else Fails
        else Outlook(rest, pf, pf, 0)
      else if !IsRect(m) || (m.DataRect? && m.pf != pf) then Fails
      else if m.LastRect? || left == 1 then Outlook(rest, after, after, 0)
      else Outlook(rest, pf, after, left - 1)
  }

  ghost function After(c: Client): PixelFormat {
    if c.pendingPFChange then c.pendingPF else c.pf
  }

  ghost function OutlookOf(c: Client, inbox: seq<ServerMsg>): Outcome {
    Outlook(inbox, c.pf, After(c), c.nUpdateRectsLeft)
  }

  /** The server handles all of `out`; a viewer that will have read everything sent
      so far is then in format pf. Whenever the server may send, the formats agree. */
  ghost predicate InStep(out: seq<ClientMsg>, s: Server, pf: PixelFormat) {
    && (CanSend(s) ==> s.pf == pf)
    && (CarriesFormat(s.syncFence) ==> out != [] && out[0].SetPixelFormat?)
    && if out == [] then s.pf == pf else
         var r := Outlook(Replies(s, out[0]), pf, pf, 0);
         r.Reads? && InStep(out[1..], Handled(s, out[0]), r.pf)
  }

  predicate CarriesFormat(f: SyncFence) {
    f.Waiting? && f.payload != []
  }

  // ---------------------------------------------------------------- counting

  ghost function Count<T>(s: seq<T>, p: T -> bool): nat {
    if s == [] then 0 else (if p(s[0]) then 1 else 0) + Count(s[1..], p)
  }

  lemma {:induction false} CountAppend<T>(a: seq<T>, b: seq<T>, p: T -> bool)
    ensures Count(a + b, p) == Count(a, p) + Count(b, p)
  {
    if a == [] {
      assert a + b == b;
    } else {
      assert (a + b)[1..] == a[1..] + b;
      CountAppend(a[1..], b, p);
    }
  }

  predicate IsRequest(m: ClientMsg) { m.UpdateRequest? }
  predicate IsHeader(m: ServerMsg) { m.UpdateHeader? }
  predicate IsProbe(m: ClientMsg) { m == SyncNextFence([]) }
  predicate IsProbeReply(m: ServerMsg) { m.FenceReply? && m.payload == [] }
  predicate IsSwitch(m: ServerMsg) { m.FenceReply? && m.payload != [] }
  /** Messages a viewer without working fences never sends. */
  predicate NeedsFences(m: ClientMsg) { m.EnableContinuousUpdates? || (m.SyncNextFence? && m.payload != []) }

  /** Requests on the way or at the server, and updates on the way back. */
  ghost function Outstanding(c: Client, s: Server, inbox: seq<ServerMsg>): nat {
    Count(c.out, IsRequest) + s.requests + Count(inbox, IsHeader)
  }

  ghost function Probes(c: Client, s: Server, inbox: seq<ServerMsg>): nat {
    Count(c.out, IsProbe) + (if s.syncFence == Waiting([]) then 1 else 0) + Count(inbox, IsProbeReply)
  }

  // --------------------------------------------------------------- invariant

  /** The two sides agree on formats. */
  ghost predicate Agreed(c: Client, s: Server, inbox: seq<ServerMsg>) {
    var o := OutlookOf(c, inbox);
    o.Reads? && InStep(c.out, s, o.pf)
  }

  /** Before fences are known to work there is no use of them. */
  ghost predicate Quiet(c: Client, s: Server, inbox: seq<ServerMsg>) {
    !c.supportsSyncFence ==>
      && !s.continuous && !c.continuousUpdates && !CarriesFormat(s.syncFence)
      && Count(c.out, NeedsFences) == 0 && Count(inbox, IsSwitch) == 0
  }

  /** There is one probe, after the first update. */
  ghost predicate OneProbe(c: Client, s: Server, inbox: seq<ServerMsg>) {
    && Probes(c, s, inbox) <= 1
    && (c.firstUpdate || c.supportsSyncFence ==> Probes(c, s, inbox) == 0)
    && !(c.firstUpdate && c.supportsSyncFence)
  }

  ghost predicate Sound(c: Client) {
    && GoodFormat(c.fullColourPF) && WireSized(c.pf) && WireSized(c.pendingPF)
    && (c.pendingPFChange ==> !c.supportsSyncFence && c.nUpdateRectsLeft > 0)
  }

  ghost predicate Base(c: Client, s: Server, inbox: seq<ServerMsg>) {
    Sound(c) && Agreed(c, s, inbox) && Quiet(c, s, inbox) && OneProbe(c, s, inbox)
  }

  /** Continuous updates are on, or about to be. */
  ghost predicate Continuing(c: Client, s: Server) {
    s.continuous || EnableContinuousUpdates in c.out
  }

  /** An update is due. */
  ghost predicate Due(c: Client, s: Server, inbox: seq<ServerMsg>) {
    && (c.pendingUpdate || c.continuousUpdates)
    && (c.pendingUpdate ==> Outstanding(c, s, inbox) >= 1 || Continuing(c, s))
    && (c.continuousUpdates ==> Continuing(c, s))
    && (!c.supportsSyncFence ==> Outstanding(c, s, inbox) == 1)
  }

  ghost predicate Invariant(s: System) {
    Base(s.client, s.server, s.inbox) && Due(s.client, s.server, s.inbox)
  }

  // ------------------------------------------------------- lemmas on outlooks

  lemma {:induction false} OutlookAppend(a: seq<ServerMsg>, b: seq<ServerMsg>, pf: PixelFormat, after: PixelFormat,
                                         left: nat)
    requires Outlook(a, pf, after, left).Reads?
    ensures var o := Outlook(a, pf, after, left); Outlook(a + b, pf, after, left) == Outlook(b, o.pf, o.pf, 0)
  {
    hide Read;
    if a == [] {
      assert a + b == b;
    } else {
      var m, rest := a[0], a[1..];
      assert (a + b)[0] == m && (a + b)[1..] == rest + b;
      if left == 0 {
        if m.UpdateHeader? {
          OutlookAppend(rest, b, pf, pf, m.nRects);
        } else if IsSwitch(m) {
          OutlookAppend(rest, b, Read(m.payload).value, Read(m.payload).value, 0);
        } else {
          OutlookAppend(rest, b, pf, pf, 0);
        }
      } else if m.LastRect? || left == 1 {
        OutlookAppend(rest, b, after, after, 0);
      } else {
        OutlookAppend(rest, b, pf, after, left - 1);
      }
    }
  }

  /** A whole update in the format of the reader. */
  lemma {:induction false} OutlookOfUpdate(update: seq<ServerMsg>, pf: PixelFormat)
    requires IsUpdate(update, pf)
    ensures Outlook(update, pf, pf, 0) == Reads(pf)
  {
    hide Read;
    var n := |update| - 1;
    assert update[1..] == update[1..n] + [update[n]];
    OutlookAppendParts(update[1..n], update[n], pf, update[0].nRects);
  }

  lemma {:induction false} OutlookAppendParts(parts: seq<ServerMsg>, last: ServerMsg, pf: PixelFormat, left: nat)
    requires |parts| < left && forall k :: 0 <= k < |parts| ==> IsPart(parts[k], pf)
    requires last.LastRect? || (IsPart(last, pf) && left == |parts| + 1)
    ensures Outlook(parts + [last], pf, pf, left) == Reads(pf)
  {
    hide Read;
    if parts == [] {
      assert parts + [last] == [last] && [last][1..] == [];
    } else {
      assert (parts + [last])[1..] == parts[1..] + [last];
      OutlookAppendParts(parts[1..], last, pf, left - 1);
    }
  }

  /** With no further update and no switch ahead, the format stays. */
  lemma {:induction false} OutlookQuiet(msgs: seq<ServerMsg>, pf: PixelFormat, pf': PixelFormat)
    requires Outlook(msgs, pf, pf, 0).Reads? && Count(msgs, IsHeader) == 0 && Count(msgs, IsSwitch) == 0
    ensures Outlook(msgs, pf', pf', 0) == Reads(pf')
  {
    if msgs != [] { OutlookQuiet(msgs[1..], pf, pf'); }
  }

  /** During an update, a later format can still be announced. */
  lemma {:induction false} OutlookPending(msgs: seq<ServerMsg>, pf: PixelFormat, next: PixelFormat, left: nat)
    requires Outlook(msgs, pf, pf, left).Reads? && left > 0
    requires Count(msgs, IsHeader) == 0 && Count(msgs, IsSwitch) == 0
    ensures Outlook(msgs, pf, next, left) == Reads(next)
  {
    if msgs[0].LastRect? || left == 1 {
      OutlookQuiet(msgs[1..], pf, next);
    } else {
      OutlookPending(msgs[1..], pf, next, left - 1);
    }
  }

  // --------------------------------------------------- lemmas on being in step

  lemma {:induction false} InStepAppend(out: seq<ClientMsg>, s: Server, pf: PixelFormat, m: ClientMsg)
    requires InStep(out, s, pf) && !m.SetPixelFormat? && (m.SyncNextFence? ==> m.payload == [])
    ensures InStep(out + [m], s, pf)
  {
    hide Read;
    if out == [] {
      assert out + [m] == [m] && [m][1..] == [];
      assert Outlook(Replies(s, m), pf, pf, 0) == Reads(pf);
    } else {
      assert (out + [m])[1..] == out[1..] + [m];
      InStepAppend(out[1..], Handled(s, out[0]), Outlook(Replies(s, out[0]), pf, pf, 0).pf, m);
    }
  }

  lemma {:induction false} InStepFormat(out: seq<ClientMsg>, s: Server, pf: PixelFormat, next: PixelFormat)
    requires InStep(out, s, pf) && GoodFormat(next) && Count(out, IsProbe) == 0 && s.syncFence != Waiting([])
    ensures InStep(out + [SyncNextFence(Write(next)), SetPixelFormat(next)], s, pf)
  {
    hide Read, Write;
    var both := [SyncNextFence(Write(next)), SetPixelFormat(next)];
    if out == [] {
      assert out + both == both && both[1..] == [SetPixelFormat(next)] && both[1..][1..] == [];
      ReadWrite(next);
      var s1 := Handled(s, both[0]);
      assert Replies(s, both[0]) == [];
      assert Replies(s1, both[1]) == [FenceReply(true, Write(next))];
      assert Replies(s1, both[1])[1..] == [];
      assert Outlook(Replies(s1, both[1]), pf, pf, 0) == Reads(next);
      assert InStep([], Handled(s1, both[1]), next);
      assert InStep(both[1..], s1, pf);
    } else {
      assert (out + both)[1..] == out[1..] + both;
      InStepFormat(out[1..], Handled(s, out[0]), Outlook(Replies(s, out[0]), pf, pf, 0).pf, next);
    }
  }

  /** When nothing can be sent meanwhile, a format may be set without a fence. */
  lemma {:induction false} InStepSwitch(out: seq<ClientMsg>, s: Server, pf: PixelFormat, next: PixelFormat)
    requires InStep(out, s, pf) && Count(out, NeedsFences) == 0 && Count(out, IsRequest) == 0
    requires !CanSend(s) && !CarriesFormat(s.syncFence)
    ensures InStep(out + [SetPixelFormat(next)], s, next)
  {
    hide Read;
    var m := SetPixelFormat(next);
    if out == [] {
      assert out + [m] == [m] && [m][1..] == [];
      assert Outlook(Replies(s, m), next, next, 0) == Reads(next);
    } else {
      assert (out + [m])[1..] == out[1..] + [m];
      assert Outlook(Replies(s, out[0]), pf, pf, 0) == Reads(pf);
      assert Outlook(Replies(s, out[0]), next, next, 0) == Reads(next);
      InStepSwitch(out[1..], Handled(s, out[0]), pf, next);
    }
  }

  // ------------------------------------------------------------ server steps

  lemma CountOne<T>(a: seq<T>, m: T, p: T -> bool)
    ensures Count(a + [m], p) == Count(a, p) + if p(m) then 1 else 0
  {
    CountAppend(a, [m], p);
    assert [m][1..] == [];
  }

  lemma RepliesCounted(s: Server, m: ClientMsg, inbox: seq<ServerMsg>)
    ensures var replies := Replies(s, m);
      && Count(inbox + replies, IsHeader) == Count(inbox, IsHeader)
      && Count(inbox + replies, IsProbeReply)
         == Count(inbox, IsProbeReply) + (if replies != [] && IsProbeReply(replies[0]) then 1 else 0)
      && Count(inbox + replies, IsSwitch)
         == Count(inbox, IsSwitch) + (if replies != [] && IsSwitch(replies[0]) then 1 else 0)
  {
    var replies := Replies(s, m);
    if replies == [] {
      assert inbox + replies == inbox;
    } else {
      CountOne(inbox, replies[0], IsHeader);
      CountOne(inbox, replies[0], IsProbeReply);
      CountOne(inbox, replies[0], IsSwitch);
    }
  }

  lemma HandledAgreed(c: Client, s: Server, inbox: seq<ServerMsg>, m: ClientMsg, rest: seq<ClientMsg>)
    requires Agreed(c, s, inbox) && c.out == [m] + rest
    ensures Agreed(c.(out := rest), Handled(s, m), inbox + Replies(s, m))
  {
    hide Outlook, Handled, Replies;
    OutlookAppend(inbox, Replies(s, m), c.pf, After(c), c.nUpdateRectsLeft);
    assert c.out[0] == m && c.out[1..] == rest;
    assert After(c.(out := rest)) == After(c);
  }

  lemma HeadCounted<T>(m: T, rest: seq<T>, p: T -> bool)
    ensures Count([m] + rest, p) == (if p(m) then 1 else 0) + Count(rest, p)
  {
    assert ([m] + rest)[1..] == rest;
  }

  /** What is asked for, probed and switched, before and after a message is handled. */
  lemma HandledCounted(c: Client, s: Server, inbox: seq<ServerMsg>, m: ClientMsg, rest: seq<ClientMsg>)
    requires c.out == [m] + rest && (CarriesFormat(s.syncFence) ==> m.SetPixelFormat?)
    ensures var c', s', inbox' := c.(out := rest), Handled(s, m), inbox + Replies(s, m);
      && Probes(c', s', inbox') <= Probes(c, s, inbox)
      && (Outstanding(c', s', inbox') == Outstanding(c, s, inbox) || s.continuous || m.EnableContinuousUpdates?)
      && Count(c.out, NeedsFences) == (if NeedsFences(m) then 1 else 0) + Count(rest, NeedsFences)
      && (CarriesFormat(s.syncFence) || NeedsFences(m) || Count(inbox', IsSwitch) == Count(inbox, IsSwitch))
  {
    RepliesCounted(s, m, inbox);
    HeadCounted(m, rest, IsRequest);
    HeadCounted(m, rest, IsProbe);
    HeadCounted(m, rest, NeedsFences);
    hide Count;
  }

  lemma FormatFollows(out: seq<ClientMsg>, s: Server, pf: PixelFormat)
    requires InStep(out, s, pf) && CarriesFormat(s.syncFence)
    ensures out != [] && out[0].SetPixelFormat?
  {
    hide Outlook;
  }

  lemma ServerHandlesKeeps(s: System)
    requires Invariant(s) && s.client.out != []
    ensures Invariant(Next(s, ServerHandles))
  {
    hide Outlook, Read, Count;
    var c, m, rest := s.client, s.client.out[0], s.client.out[1..];
    assert c.out == [m] + rest;
    HandledAgreed(c, s.server, s.inbox, m, rest);
    if CarriesFormat(s.server.syncFence) { FormatFollows(c.out, s.server, OutlookOf(c, s.inbox).pf); }
    hide InStep, Agreed, Probes, Outstanding;
    HandledCounted(c, s.server, s.inbox, m, rest);
    assert EnableContinuousUpdates in c.out ==> m == EnableContinuousUpdates || EnableContinuousUpdates in rest;
  }

  lemma {:induction false} PartsCounted(msgs: seq<ServerMsg>)
    requires forall m :: m in msgs ==> IsRect(m)
    ensures Count(msgs, IsHeader) == Count(msgs, IsProbeReply) == Count(msgs, IsSwitch) == 0
  {
    if msgs != [] {
      assert IsRect(msgs[0]);
      PartsCounted(msgs[1..]);
    }
  }

  lemma UpdateCounted(inbox: seq<ServerMsg>, update: seq<ServerMsg>, pf: PixelFormat)
    requires IsUpdate(update, pf)
    ensures Count(inbox + update, IsHeader) == Count(inbox, IsHeader) + 1
    ensures Count(inbox + update, IsProbeReply) == Count(inbox, IsProbeReply)
    ensures Count(inbox + update, IsSwitch) == Count(inbox, IsSwitch)
  {
    CountAppend(inbox, update, IsHeader);
    CountAppend(inbox, update, IsProbeReply);
    CountAppend(inbox, update, IsSwitch);
    PartsCounted(update[1..]);
  }

  lemma ServerUpdatesKeeps(s: System, update: seq<ServerMsg>, answered: nat)
    requires Invariant(s) && Enabled(s, ServerUpdates(update, answered))
    ensures Invariant(Next(s, ServerUpdates(update, answered)))
  {
    hide Outlook, IsUpdate, Count;
    var c := s.client;
    UpdateCounted(s.inbox, update, s.server.pf);
    OutlookAppend(s.inbox, update, c.pf, After(c), c.nUpdateRectsLeft);
    OutlookOfUpdate(update, s.server.pf);
    FewerRequests(c.out, s.server, OutlookOf(c, s.inbox).pf, s.server.requests - answered);
  }

  /** Answering requests does not put the formats out of step. */
  lemma {:induction false} FewerRequests(out: seq<ClientMsg>, s: Server, pf: PixelFormat, left: nat)
    requires InStep(out, s, pf) && left <= s.requests
    ensures InStep(out, s.(requests := left), pf)
  {
    hide Outlook;
    if out != [] {
      var s' := s.(requests := left);
      FewerRequests(out[1..], Handled(s, out[0]), Outlook(Replies(s, out[0]), pf, pf, 0).pf,
                    Handled(s', out[0]).requests);
      assert Handled(s', out[0]) == Handled(s, out[0]).(requests := Handled(s', out[0]).requests);
      assert Replies(s', out[0]) == Replies(s, out[0]);
    }
  }

  lemma ServerSaysKeeps(s: System, m: ServerMsg)
    requires Invariant(s) && Enabled(s, ServerSays(m))
    ensures Invariant(Next(s, ServerSays(m)))
  {
    hide InStep, Count;
    var c := s.client;
    OutlookAppend(s.inbox, [m], c.pf, After(c), c.nUpdateRectsLeft);
    CountOne(s.inbox, m, IsHeader);
    CountOne(s.inbox, m, IsProbeReply);
    CountOne(s.inbox, m, IsSwitch);
    assert [m][1..] == [];
  }

  // ------------------------------------------------------------ client steps

  function Says(c: Client, m: ClientMsg): Client {
    c.(out := c.out + [m])
  }

  /** Messages without a format and without a fence. */
  lemma SaysKeeps(c: Client, s: Server, inbox: seq<ServerMsg>, m: ClientMsg)
    requires Base(c, s, inbox) && !m.SetPixelFormat? && !m.SyncNextFence?
    requires m.EnableContinuousUpdates? ==> c.supportsSyncFence
    ensures Base(Says(c, m), s, inbox)
    ensures Outstanding(Says(c, m), s, inbox) == Outstanding(c, s, inbox) + if m.UpdateRequest? then 1 else 0
  {
    hide Outlook, InStep, Count;
    InStepAppend(c.out, s, OutlookOf(c, inbox).pf, m);
    CountOne(c.out, m, IsRequest);
    CountOne(c.out, m, IsProbe);
    CountOne(c.out, m, NeedsFences);
  }

  lemma TwoCounted(a: seq<ClientMsg>, m: ClientMsg, m': ClientMsg, p: ClientMsg -> bool)
    ensures Count(a + [m, m'], p) == Count(a, p) + (if p(m) then 1 else 0) + if p(m') then 1 else 0
  {
    assert a + [m, m'] == a + [m] + [m'];
    CountOne(a + [m], m', p);
    CountOne(a, m, p);
  }

  lemma AnnouncedFields(c: Client, next: PixelFormat)
    requires WireSized(next)
    ensures var c' := AnnouncedAs(c, next);
      && c'.out == c.out + Announcement(c.supportsSyncFence, next)
      && c'.pendingPFChange == (c.pendingPFChange || !c.supportsSyncFence)
      && c'.pendingPF == (if c.supportsSyncFence then c.pendingPF else next)
      && c'.pf == c.pf && c'.nUpdateRectsLeft == c.nUpdateRectsLeft && c'.supportsSyncFence == c.supportsSyncFence
      && c'.continuousUpdates == c.continuousUpdates && c'.firstUpdate == c.firstUpdate
      && c'.fullColourPF == c.fullColourPF
  {
    hide Announcement, WireSized;
  }

  lemma AnnouncedWithFence(c: Client, s: Server, inbox: seq<ServerMsg>, next: PixelFormat)
    requires Base(c, s, inbox) && c.supportsSyncFence && GoodFormat(next)
    ensures Base(AnnouncedAs(c, next), s, inbox)
    ensures Outstanding(AnnouncedAs(c, next), s, inbox) == Outstanding(c, s, inbox)
  {
    hide Outlook, InStep, Count, Write, IsSane, WireSized, AnnouncedAs;
    var fence, set' := SyncNextFence(Write(next)), SetPixelFormat(next);
    InStepFormat(c.out, s, OutlookOf(c, inbox).pf, next);
    AnnouncedFields(c, next);
    assert Announcement(true, next) == [fence, set'];
    TwoCounted(c.out, fence, set', IsRequest);
    TwoCounted(c.out, fence, set', IsProbe);
  }

  lemma AnnouncedWithoutFence(c: Client, s: Server, inbox: seq<ServerMsg>, next: PixelFormat)
    requires Base(c, s, inbox) && !c.supportsSyncFence && GoodFormat(next)
    requires Outstanding(c, s, inbox) == 0 && c.nUpdateRectsLeft > 0 && !c.pendingPFChange
    ensures Base(AnnouncedAs(c, next), s, inbox)
    ensures Outstanding(AnnouncedAs(c, next), s, inbox) == 0
  {
    hide Outlook, InStep, Count, Write, IsSane, WireSized, AnnouncedAs;
    InStepSwitch(c.out, s, OutlookOf(c, inbox).pf, next);
    OutlookPending(inbox, c.pf, next, c.nUpdateRectsLeft);
    AnnouncedFields(c, next);
    assert Announcement(false, next) == [SetPixelFormat(next)];
    CountOne(c.out, SetPixelFormat(next), IsRequest);
    CountOne(c.out, SetPixelFormat(next), IsProbe);
    CountOne(c.out, SetPixelFormat(next), NeedsFences);
  }

  /** May requestNewUpdate be called in this state? */
  ghost predicate RequestDue(c: Client, s: Server, inbox: seq<ServerMsg>) {
    c.supportsSyncFence
    || (Outstanding(c, s, inbox) == 0 && c.nUpdateRectsLeft > 0 && !c.pendingPFChange)
  }

  lemma RequestedKeeps(c: Client, s: Server, inbox: seq<ServerMsg>)
    requires Base(c, s, inbox) && RequestDue(c, s, inbox)
    requires c.pendingUpdate ==> Outstanding(c, s, inbox) >= 1 || Continuing(c, s)
    requires c.continuousUpdates ==> Continuing(c, s)
    ensures Invariant(System(Requested(c), s, inbox))
  {
    assert GoodFormat(c.fullColourPF);
    var c1 := Switching(c);
    SwitchingKeeps(c, s, inbox);
    SwitchingFields(c);
    hide Base, Outstanding, Switching, GoodFormat, RequestDue;
    var c2 := EncodingsSent(c1);
    EncodingsKeep(c1, s, inbox);
    hide EncodingsSent;
    EncodingsFields(c1);
    hide Requesting;
    RequestingKeeps(c2, s, inbox);
  }

  lemma SwitchingKeeps(c: Client, s: Server, inbox: seq<ServerMsg>)
    requires Base(c, s, inbox) && RequestDue(c, s, inbox)
    ensures Base(Switching(c), s, inbox)
    ensures Outstanding(Switching(c), s, inbox) == Outstanding(c, s, inbox)
  {
    hide Agreed, Quiet, OneProbe, Outstanding, AnnouncedAs, Wanted, GoodFormat;
    if c.formatChange {
      if c.supportsSyncFence {
        AnnouncedWithFence(c, s, inbox, Wanted(c));
      } else {
        AnnouncedWithoutFence(c, s, inbox, Wanted(c));
      }
    }
  }

  lemma EncodingsFields(c: Client)
    ensures var c' := EncodingsSent(c);
      && c'.pendingUpdate == c.pendingUpdate && c'.continuousUpdates == c.continuousUpdates
      && c'.supportsSyncFence == c.supportsSyncFence && c.out <= c'.out
  {
  }

  lemma SwitchingFields(c: Client)
    requires GoodFormat(c.fullColourPF)
    ensures var c' := Switching(c);
      && c'.pendingUpdate == c.pendingUpdate && c'.continuousUpdates == c.continuousUpdates
      && c'.supportsSyncFence == c.supportsSyncFence && c.out <= c'.out
  {
    SwitchingMeans(c);
    hide Wanted, Announcement, GoodFormat, Switching;
  }

  lemma FieldsDoNotMatter(c: Client, c': Client, s: Server, inbox: seq<ServerMsg>)
    requires Base(c, s, inbox) && c'.out == c.out && c'.pf == c.pf && c'.nUpdateRectsLeft == c.nUpdateRectsLeft
    requires c'.pendingPFChange == c.pendingPFChange && c'.pendingPF == c.pendingPF
    requires c'.fullColourPF == c.fullColourPF
    requires c'.supportsSyncFence == c.supportsSyncFence && c'.firstUpdate == c.firstUpdate
    requires c'.continuousUpdates == c.continuousUpdates
    ensures Base(c', s, inbox)
    ensures Outstanding(c', s, inbox) == Outstanding(c, s, inbox)
  {
  }

  lemma EncodingsKeep(c: Client, s: Server, inbox: seq<ServerMsg>)
    requires Base(c, s, inbox)
    ensures Base(EncodingsSent(c), s, inbox)
    ensures Outstanding(EncodingsSent(c), s, inbox) == Outstanding(c, s, inbox)
  {
    hide Base, Outstanding;
    var c1 := if c.encodingChange then Says(c, OtherClientMsg) else c;
    if c.encodingChange { SaysKeeps(c, s, inbox, OtherClientMsg); }
    assert EncodingsSent(c).out == c1.out;
    FieldsDoNotMatter(c1, EncodingsSent(c), s, inbox);
  }

  lemma RequestingKeeps(c: Client, s: Server, inbox: seq<ServerMsg>)
    requires Base(c, s, inbox) && (c.supportsSyncFence || Outstanding(c, s, inbox) == 0)
    requires c.pendingUpdate ==> Outstanding(c, s, inbox) >= 1 || Continuing(c, s)
    requires c.continuousUpdates ==> Continuing(c, s)
    ensures Invariant(System(Requesting(c), s, inbox))
  {
    hide Sound, Agreed, OneProbe, Outstanding;
    var m := UpdateRequest(!c.forceNonincremental);
    var asking := c.forceNonincremental || !c.continuousUpdates;
    var c1 := if asking then Says(c, m) else c;
    if asking { SaysKeeps(c, s, inbox, m); }
    assert Requesting(c).out == c1.out;
    FieldsDoNotMatter(c1, Requesting(c), s, inbox);
  }

  // ---------------------------------------------------------- reading a message

  lemma HeaderReadKeeps(s: System, n: nat)
    requires Invariant(s) && s.client.nUpdateRectsLeft == 0 && s.inbox != [] && s.inbox[0] == UpdateHeader(n)
    ensures Invariant(System(UpdateStarted(s.client, n), s.server, s.inbox[1..]))
  {
    hide InStep, Requested, Read;
    var c1 := s.client.(nUpdateRectsLeft := n, pendingUpdate := false);
    RequestedKeeps(c1, s.server, s.inbox[1..]);
  }

  lemma FenceReadKeeps(s: System, syncNext: bool, payload: seq<Byte>)
    requires Invariant(s) && s.client.nUpdateRectsLeft == 0
    requires s.inbox != [] && s.inbox[0] == FenceReply(syncNext, payload)
    ensures FenceReplied(s.client, syncNext, payload).Ok?
    ensures Invariant(System(FenceReplied(s.client, syncNext, payload).value, s.server, s.inbox[1..]))
  {
    if payload == [] { ProbeReplyKeeps(s, syncNext); } else { SwitchReplyKeeps(s, syncNext, payload); }
  }

  lemma SwitchReplyKeeps(s: System, syncNext: bool, payload: seq<Byte>)
    requires Invariant(s) && s.client.nUpdateRectsLeft == 0 && payload != []
    requires s.inbox != [] && s.inbox[0] == FenceReply(syncNext, payload)
    ensures FenceReplied(s.client, syncNext, payload).Ok?
    ensures Invariant(System(FenceReplied(s.client, syncNext, payload).value, s.server, s.inbox[1..]))
  {
    SwitchPopped(s.inbox, s.client.pf, After(s.client));
    hide InStep, Read, FencesWork, Outlook, Count;
  }

  lemma SwitchPopped(inbox: seq<ServerMsg>, pf: PixelFormat, after: PixelFormat)
    requires inbox != [] && IsSwitch(inbox[0]) && Outlook(inbox, pf, after, 0).Reads?
    ensures var r := Read(inbox[0].payload);
      r.Ok? && WireSized(r.value) && Outlook(inbox[1..], r.value, r.value, 0) == Outlook(inbox, pf, after, 0)
    ensures Count(inbox[1..], IsHeader) == Count(inbox, IsHeader)
    ensures Count(inbox[1..], IsProbeReply) == Count(inbox, IsProbeReply)
    ensures Count(inbox, IsSwitch) > 0
  {
    hide Read;
  }

  lemma ProbeReplyKeeps(s: System, syncNext: bool)
    requires Invariant(s) && s.client.nUpdateRectsLeft == 0
    requires s.inbox != [] && s.inbox[0] == FenceReply(syncNext, [])
    ensures Invariant(System(FenceReplied(s.client, syncNext, []).value, s.server, s.inbox[1..]))
  {
    hide InStep, Read, GoodFormat, WireSized;
    var c, rest := s.client, s.inbox[1..];
    var c1 := c.(supportsFence := true, supportsSyncFence := c.supportsSyncFence || syncNext);
    assert Base(c1, s.server, rest);
    hide Outlook, Count;
    var c2 := if syncNext && c.supportsContinuousUpdates then Says(c1, EnableContinuousUpdates) else c1;
    if syncNext && c.supportsContinuousUpdates { SaysKeeps(c1, s.server, rest, EnableContinuousUpdates); }
    assert FencesWork(c.(supportsFence := true)).out ==
      if c.supportsContinuousUpdates then c.out + [EnableContinuousUpdates] else c.out;
  }

  lemma RectReadKeeps(s: System, auto: AutoSelect)
    requires Invariant(s) && s.client.nUpdateRectsLeft > 0 && s.inbox != [] && IsRect(s.inbox[0])
    ensures Invariant(System(RectRead(s.client, s.inbox[0], auto), s.server, s.inbox[1..]))
  {
    hide UpdateEnded, Base, Due, Resized;
    var c, m := s.client, s.inbox[0];
    var left := if m.LastRect? then 0 else c.nUpdateRectsLeft - 1;
    ResizedKeeps(c, s.server, s.inbox);
    var c1 := if m.ResizeRect? then Resized(c) else c;
    assert c1.nUpdateRectsLeft == c.nUpdateRectsLeft by { ResizedLeft(c); }
    if left == 0 {
      LastRectKeeps(System(c1, s.server, s.inbox), auto);
    } else {
      RectGoneKeeps(System(c1, s.server, s.inbox));
    }
  }

  lemma ResizedLeft(c: Client)
    ensures Resized(c).nUpdateRectsLeft == c.nUpdateRectsLeft
  {
  }

  /** One rectangle of several read. */
  lemma RectGoneKeeps(s: System)
    requires Invariant(s) && s.client.nUpdateRectsLeft > 1 && s.inbox != [] && IsRect(s.inbox[0])
    requires !s.inbox[0].LastRect?
    ensures Invariant(System(s.client.(nUpdateRectsLeft := s.client.nUpdateRectsLeft - 1), s.server, s.inbox[1..]))
  {
    RectPopped(s.inbox);
    RectOutlook(s.inbox, s.client.pf, After(s.client), s.client.nUpdateRectsLeft);
    hide InStep, Read, GoodFormat, WireSized, Count, Outlook;
  }

  lemma RectOutlook(inbox: seq<ServerMsg>, pf: PixelFormat, after: PixelFormat, left: nat)
    requires inbox != [] && left > 1 && IsRect(inbox[0]) && !inbox[0].LastRect?
    requires Outlook(inbox, pf, after, left).Reads?
    ensures Outlook(inbox[1..], pf, after, left - 1) == Outlook(inbox, pf, after, left)
  {
  }

  lemma ResizedKeeps(c: Client, s: Server, inbox: seq<ServerMsg>)
    requires Base(c, s, inbox) && Due(c, s, inbox)
    ensures Base(Resized(c), s, inbox) && Due(Resized(c), s, inbox)
  {
    hide Sound, Agreed, OneProbe;
    var m := EnableContinuousUpdates;
    var c1 := if c.continuousUpdates then Says(c, m) else c;
    if c.continuousUpdates { SaysKeeps(c, s, inbox, m); }
    assert Resized(c).out == c1.out;
    assert Resized(c) == c1;
  }

  lemma LastRectKeeps(s: System, auto: AutoSelect)
    requires Invariant(s) && s.client.nUpdateRectsLeft > 0 && s.inbox != [] && IsRect(s.inbox[0])
    requires s.inbox[0].LastRect? || s.client.nUpdateRectsLeft == 1
    ensures Invariant(System(UpdateEnded(s.client.(nUpdateRectsLeft := 0), auto), s.server, s.inbox[1..]))
  {
    hide Base, Due;
    var c := s.client.(nUpdateRectsLeft := 0);
    SwitchedKeeps(s);
    hide Switched, Probed, AutoSelected;
    ProbedKeeps(Switched(c), s.server, s.inbox[1..]);
    SwitchedProbed(c);
    AutoSelectedKeeps(Switched(Probed(c)), s.server, s.inbox[1..], auto);
  }

  lemma SwitchedProbed(c: Client)
    ensures Switched(Probed(c)) == Probed(Switched(c))
  {
  }

  lemma RectPopped(inbox: seq<ServerMsg>)
    requires inbox != [] && IsRect(inbox[0])
    ensures Count(inbox[1..], IsHeader) == Count(inbox, IsHeader)
    ensures Count(inbox[1..], IsProbeReply) == Count(inbox, IsProbeReply)
    ensures Count(inbox[1..], IsSwitch) == Count(inbox, IsSwitch)
  {
  }

  /** The update is over and the next one is read in the format announced. */
  lemma SwitchedKeeps(s: System)
    requires Invariant(s) && s.client.nUpdateRectsLeft > 0 && s.inbox != [] && IsRect(s.inbox[0])
    requires s.inbox[0].LastRect? || s.client.nUpdateRectsLeft == 1
    ensures Base(Switched(s.client.(nUpdateRectsLeft := 0)), s.server, s.inbox[1..])
    ensures Due(Switched(s.client.(nUpdateRectsLeft := 0)), s.server, s.inbox[1..])
  {
    hide InStep, Read, GoodFormat, WireSized, Count, Outlook;
    RectPopped(s.inbox);
    LastRectOutlook(s.inbox, s.client.pf, After(s.client), s.client.nUpdateRectsLeft);
  }

  lemma LastRectOutlook(inbox: seq<ServerMsg>, pf: PixelFormat, after: PixelFormat, left: nat)
    requires inbox != [] && left > 0 && IsRect(inbox[0]) && (inbox[0].LastRect? || left == 1)
    requires Outlook(inbox, pf, after, left).Reads?
    ensures Outlook(inbox[1..], after, after, 0) == Outlook(inbox, pf, after, left)
  {
  }

  lemma AutoSelectedKeeps(c: Client, s: Server, inbox: seq<ServerMsg>, auto: AutoSelect)
    requires Base(c, s, inbox) && Due(c, s, inbox)
    ensures Base(AutoSelected(c, auto), s, inbox) && Due(AutoSelected(c, auto), s, inbox)
  {
    hide Base, Outstanding;
    FieldsDoNotMatter(c, AutoSelected(c, auto), s, inbox);
  }

  lemma ProbedKeeps(c: Client, s: Server, inbox: seq<ServerMsg>)
    requires Base(c, s, inbox) && Due(c, s, inbox)
    ensures Base(Probed(c), s, inbox) && Due(Probed(c), s, inbox)
  {
    hide Outlook, InStep, Count;
    var m := SyncNextFence([]);
    if c.firstUpdate && c.supportsFence {
      InStepAppend(c.out, s, OutlookOf(c, inbox).pf, m);
      CountOne(c.out, m, IsRequest);
      CountOne(c.out, m, IsProbe);
      CountOne(c.out, m, NeedsFences);
    } else {
      assert c.out + [] == c.out;
    }
  }

  // ------------------------------------------------------------------ options

  lemma ChangedKeeps(s: System)
    requires Invariant(s)
    ensures Invariant(s.(client := FormatChanged(s.client)))
  {
    hide Base, Outstanding, Requested;
    assert GoodFormat(s.client.fullColourPF) by { BaseIsSound(s.client, s.server, s.inbox); }
    var c1 := s.client.(formatChange := true);
    FieldsDoNotMatter(s.client, c1, s.server, s.inbox);
    if c1.supportsSyncFence { RequestedKeeps(c1, s.server, s.inbox); }
  }

  lemma BaseIsSound(c: Client, s: Server, inbox: seq<ServerMsg>)
    requires Base(c, s, inbox)
    ensures Sound(c)
  {
  }

  lemma OptionsKeep(s: System, fullColour: bool, level: int)
    requires Invariant(s)
    ensures GoodFormat(s.client.fullColourPF) && WireSized(s.client.pf)
    ensures Invariant(s.(client := OptionsSet(s.client, fullColour, level)))
  {
    hide Base, Outstanding, FormatChanged, Matches;
    BaseIsSound(s.client, s.server, s.inbox);
    hide GoodFormat, WireSized;
    var c1 := ParamsSet(s.client, fullColour, level);
    FieldsDoNotMatter(s.client, c1, s.server, s.inbox);
    var s1 := s.(client := c1);
    assert Due(c1, s.server, s.inbox);
    ChangedKeeps(s1);
  }

  lemma RefreshKeeps(s: System)
    requires Invariant(s)
    ensures GoodFormat(s.client.fullColourPF)
    ensures Invariant(s.(client := Refreshed(s.client)))
  {
    hide Base, Outstanding, Requested;
    BaseIsSound(s.client, s.server, s.inbox);
    var c1 := s.client.(forceNonincremental := true);
    FieldsDoNotMatter(s.client, c1, s.server, s.inbox);
    if c1.supportsSyncFence { RequestedKeeps(c1, s.server, s.inbox); }
  }

  lemma ClientSaysKeeps(s: System)
    requires Invariant(s)
    ensures Invariant(Next(s, ClientSays))
  {
    hide Base, Outstanding;
    SaysKeeps(s.client, s.server, s.inbox, OtherClientMsg);
  }

  // ---------------------------------------------------------------- all runs

  lemma ReadKeeps(s: System, auto: AutoSelect)
    requires Invariant(s) && Enabled(s, ClientReads(auto))
    ensures Invariant(Next(s, ClientReads(auto)))
  {
    hide UpdateStarted, RectRead, FenceReplied;
    var c, m := s.client, s.inbox[0];
    if c.nUpdateRectsLeft > 0 {
      RectReadKeeps(s, auto);
    } else {
      match m {
        case UpdateHeader(n) => HeaderReadKeeps(s, n);
        case FenceReply(syncNext, payload) => FenceReadKeeps(s, syncNext, payload);
        case _ => PlainReadKeeps(s, auto);
      }
    }
  }

  /** What a message without an effect on formats leaves of the client. */
  lemma PlainFields(c: Client, m: ServerMsg, auto: AutoSelect)
    requires c.nUpdateRectsLeft == 0 && GoodFormat(c.fullColourPF)
    requires m.FenceRequest? || m.EndOfContinuousUpdates? || m.OtherServerMsg?
    ensures MsgRead(c, m, auto).Ok?
    ensures var c' := MsgRead(c, m, auto).value;
      && c'.out == (if m.FenceRequest? then Says(c, OtherClientMsg) else c).out
      && c'.pf == c.pf && c'.nUpdateRectsLeft == c.nUpdateRectsLeft && c'.pendingPFChange == c.pendingPFChange
      && c'.pendingPF == c.pendingPF && c'.fullColourPF == c.fullColourPF && c'.pendingUpdate == c.pendingUpdate
      && c'.supportsSyncFence == c.supportsSyncFence && c'.firstUpdate == c.firstUpdate
      && c'.continuousUpdates == c.continuousUpdates
  {
    hide GoodFormat;
  }

  lemma PlainInbox(c: Client, s: Server, inbox: seq<ServerMsg>)
    requires Base(c, s, inbox) && Due(c, s, inbox) && c.nUpdateRectsLeft == 0 && inbox != []
    requires inbox[0].FenceRequest? || inbox[0].EndOfContinuousUpdates? || inbox[0].OtherServerMsg?
    ensures Base(c, s, inbox[1..]) && Due(c, s, inbox[1..])
  {
    hide InStep, Read, GoodFormat, WireSized;
  }

  lemma PlainReadKeeps(s: System, auto: AutoSelect)
    requires Invariant(s) && Enabled(s, ClientReads(auto)) && s.client.nUpdateRectsLeft == 0
    requires s.inbox[0].FenceRequest? || s.inbox[0].EndOfContinuousUpdates? || s.inbox[0].OtherServerMsg?
    ensures Invariant(Next(s, ClientReads(auto)))
  {
    hide Base, Outstanding, MsgRead, GoodFormat, Expects;
    var c, m, rest := s.client, s.inbox[0], s.inbox[1..];
    PlainInbox(c, s.server, s.inbox);
    BaseGoodFormat(c, s.server, rest);
    PlainFields(c, m, auto);
    SaysKeeps(c, s.server, rest, OtherClientMsg);
    var c1 := if m.FenceRequest? then Says(c, OtherClientMsg) else c;
    FieldsDoNotMatter(c1, MsgRead(c, m, auto).value, s.server, rest);
  }

  lemma BaseGoodFormat(c: Client, s: Server, inbox: seq<ServerMsg>)
    requires Base(c, s, inbox)
    ensures GoodFormat(c.fullColourPF)
  {
    hide Agreed, Quiet, OneProbe, GoodFormat;
  }

  lemma StepKeepsInvariant(s: System, e: Event)
    requires Invariant(s) && Enabled(s, e)
    ensures Invariant(Next(s, e))
  {
    hide Invariant;
    match e {
      case ServerHandles => ServerHandlesKeeps(s);
      case ServerUpdates(update, answered) => ServerUpdatesKeeps(s, update, answered);
      case ServerSays(m) => ServerSaysKeeps(s, m);
      case ClientReads(auto) => ReadKeeps(s, auto);
      case ClientSays => ClientSaysKeeps(s);
      case OptionsChanged(fullColour, level) => OptionsKeep(s, fullColour, level);
      case RefreshAsked => RefreshKeeps(s);
    }
  }

  lemma StartInvariant(s: System)
    requires Start(s)
    ensures Invariant(s)
  {
    hide Outlook, InStep, Wanted, GoodFormat, WireSized, IsSane;
    var fullColour, level, preferred, pf :| GoodFormat(preferred) && WireSized(pf) &&
      s.client == Initial(fullColour, level, preferred, pf);
    FirstMessages(fullColour, level, preferred, pf, s.server);
  }

  lemma FirstMessages(fullColour: bool, level: int, preferred: PixelFormat, pf: PixelFormat, server: Server)
    requires GoodFormat(preferred) && WireSized(pf) && server == Server(server.pf, 0, false, NoFence)
    ensures Invariant(System(Initial(fullColour, level, preferred, pf), server, []))
  {
    var c := Initial(fullColour, level, preferred, pf);
    InitialMeans(fullColour, level, preferred, pf);
    hide Initial, Wanted, GoodFormat, WireSized, Write;
    FirstInStep(server, c.pf, c.out);
  }

  /** The viewer's first messages: format, encodings, request. */
  lemma InitialMeans(fullColour: bool, level: int, preferred: PixelFormat, pf: PixelFormat)
    requires GoodFormat(preferred)
    ensures var c := Initial(fullColour, level, preferred, pf);
      && c.out == [SetPixelFormat(c.pf)] + [OtherClientMsg] + [UpdateRequest(false)]
      && GoodFormat(c.pf) && c.pendingPF == c.pf && !c.pendingPFChange && c.fullColourPF == preferred
      && c.pendingUpdate && !c.continuousUpdates && !c.supportsSyncFence && c.firstUpdate && c.nUpdateRectsLeft == 0
  {
    var c := Connected(fullColour, level, preferred, pf);
    RequestedMeans(c);
    hide Requested, Wanted, GoodFormat;
    assert FormatPart(c) == [SetPixelFormat(Wanted(c))];
    assert c.out + FormatPart(c) + Tail(c) == [SetPixelFormat(Wanted(c))] + [OtherClientMsg] + [UpdateRequest(false)];
  }

  lemma FirstInStep(server: Server, w: PixelFormat, out: seq<ClientMsg>)
    requires GoodFormat(w) && server == Server(server.pf, 0, false, NoFence)
    requires out == [SetPixelFormat(w)] + [OtherClientMsg] + [UpdateRequest(false)]
    ensures InStep(out, server, w)
    ensures Count(out, IsRequest) == 1 && Count(out, IsProbe) == 0 && Count(out, NeedsFences) == 0
  {
    var set', other, request := SetPixelFormat(w), OtherClientMsg, UpdateRequest(false);
    hide GoodFormat;
    assert out == [] + [set'] + [other] + [request];
    InStepSwitch([], server, server.pf, w);
    InStepAppend([] + [set'], server, w, other);
    InStepAppend([] + [set'] + [other], server, w, request);
    CountSeveral(set', other, request, IsRequest);
    CountSeveral(set', other, request, IsProbe);
    CountSeveral(set', other, request, NeedsFences);
  }

  lemma CountSeveral(a: ClientMsg, b: ClientMsg, c: ClientMsg, p: ClientMsg -> bool)
    ensures Count([] + [a] + [b] + [c], p) == (if p(a) then 1 else 0) + (if p(b) then 1 else 0) + if p(c) then 1 else 0
  {
    CountOne([] + [a] + [b], c, p);
    CountOne([] + [a], b, p);
    CountOne([], a, p);
  }

  lemma {:induction false} RunInvariant(states: seq<System>, events: seq<Event>, n: nat)
    requires Run(states, events) && n < |states|
    ensures Invariant(states[n])
    decreases n
  {
    hide Invariant, Next, Enabled, Start;
    if n == 0 {
      StartInvariant(states[0]);
    } else {
      RunInvariant(states, events, n - 1);
      StepKeepsInvariant(states[n - 1], events[n - 1]);
    }
  }

  lemma ReachableInvariant(s: System)
    requires Reachable(s)
    ensures Invariant(s)
  {
    hide Start, Next, Enabled, Invariant;
    var states, events :| Run(states, events) && states[|states| - 1] == s;
    RunInvariant(states, events, |states| - 1);
  }

  /** Whatever comes next, the viewer is ready for it, and pixels come in the
      format the viewer decodes. */
  lemma DecodedAsEncoded(s: System, auto: AutoSelect)
    requires Reachable(s) && s.inbox != []
    ensures Enabled(s, ClientReads(auto))
    ensures s.inbox[0].DataRect? ==> s.inbox[0].pf == s.client.pf
  {
    hide InStep, GoodFormat, WireSized, Reachable;
    ReachableInvariant(s);
  }

  /** The viewer never waits for an update that nobody owes it. */
  lemma UpdateAlwaysDue(s: System)
    requires Reachable(s)
    ensures
      || (s.client.pendingUpdate && Outstanding(s.client, s.server, s.inbox) >= 1)
      || Continuing(s.client, s.server)
  {
    hide Base, Outstanding, Reachable;
    ReachableInvariant(s);
  }

  /** When all messages have been handled the two sides use the same format. */
  lemma SettledFormatsAgree(s: System)
    requires Reachable(s) && s.client.out == [] && s.inbox == []
    ensures s.client.pf == s.server.pf && s.client.nUpdateRectsLeft == 0
  {
    hide Due, GoodFormat, WireSized, Reachable;
    ReachableInvariant(s);
  }

  // ----------------------------------------------- continuous updates go on

  /** The event is the reading of this message. */
  ghost predicate Gets(s: System, e: Event, m: ServerMsg) {
    e.ClientReads? && s.inbox != [] && s.inbox[0] == m
  }

  ghost predicate ProbeReply(s: System, e: Event) {
    Gets(s, e, FenceReply(true, []))
  }

  ghost predicate Announces(s: System, e: Event) {
    Gets(s, e, EndOfContinuousUpdates)
  }

  /** What the client knows of the server's extensions. */
  lemma RequestedFlags(c: Client)
    requires GoodFormat(c.fullColourPF)
    ensures var c' := Requested(c);
      c'.supportsContinuousUpdates == c.supportsContinuousUpdates && c'.continuousUpdates == c.continuousUpdates
  {
    RequestedMeans(c);
    hide Requested, GoodFormat, Wanted, Announcement, RequestSent;
  }

  lemma OptionsFlags(c: Client, fullColour: bool, level: int)
    requires GoodFormat(c.fullColourPF) && WireSized(c.pf)
    ensures var c' := OptionsSet(c, fullColour, level);
      c'.supportsContinuousUpdates == c.supportsContinuousUpdates && c'.continuousUpdates == c.continuousUpdates
  {
    RequestedFlags(ParamsSet(c, fullColour, level).(formatChange := true));
    hide Requested, GoodFormat, Wanted, Matches, WireSized;
  }

  lemma RefreshFlags(c: Client)
    requires GoodFormat(c.fullColourPF)
    ensures var c' := Refreshed(c);
      c'.supportsContinuousUpdates == c.supportsContinuousUpdates && c'.continuousUpdates == c.continuousUpdates
  {
    RequestedFlags(c.(forceNonincremental := true));
    hide Requested, GoodFormat;
  }

  lemma ReadFlags(c: Client, m: ServerMsg, auto: AutoSelect)
    requires GoodFormat(c.fullColourPF) && Expects(c, m) && MsgRead(c, m, auto).Ok?
    ensures var c' := MsgRead(c, m, auto).value;
      && c'.supportsContinuousUpdates == (c.supportsContinuousUpdates || m.EndOfContinuousUpdates?)
      && c'.continuousUpdates ==
           (c.continuousUpdates || (m == FenceReply(true, []) && c.supportsContinuousUpdates))
  {
    hide RectRead, UpdateStarted, GoodFormat, FenceReplied, MsgRead;
    if c.nUpdateRectsLeft > 0 {
      ReadIsRect(c, m, auto);
      RectFlags(c, m, auto);
    } else if m.UpdateHeader? {
      ReadIsHeader(c, m.nRects, auto);
      HeaderFlags(c, m.nRects);
    } else if m.FenceReply? {
      ReadIsFence(c, m.syncNext, m.payload, auto);
      FenceFlags(c, m.syncNext, m.payload);
    } else {
      PlainFlags(c, m, auto);
    }
  }

  lemma ReadIsRect(c: Client, m: ServerMsg, auto: AutoSelect)
    requires GoodFormat(c.fullColourPF) && Expects(c, m) && c.nUpdateRectsLeft > 0
    ensures IsRect(m) && MsgRead(c, m, auto) == Ok(RectRead(c, m, auto))
  {
    hide RectRead, UpdateStarted, GoodFormat, FenceReplied;
  }

  lemma ReadIsHeader(c: Client, n: nat, auto: AutoSelect)
    requires GoodFormat(c.fullColourPF) && c.nUpdateRectsLeft == 0
    ensures MsgRead(c, UpdateHeader(n), auto) == Ok(UpdateStarted(c, n))
  {
    hide RectRead, UpdateStarted, GoodFormat, FenceReplied;
  }

  lemma ReadIsFence(c: Client, syncNext: bool, payload: seq<Byte>, auto: AutoSelect)
    requires GoodFormat(c.fullColourPF) && c.nUpdateRectsLeft == 0
    ensures MsgRead(c, FenceReply(syncNext, payload), auto) == FenceReplied(c, syncNext, payload)
  {
    hide RectRead, UpdateStarted, GoodFormat, FenceReplied;
  }

  lemma PlainFlags(c: Client, m: ServerMsg, auto: AutoSelect)
    requires GoodFormat(c.fullColourPF) && c.nUpdateRectsLeft == 0
    requires m.FenceRequest? || m.EndOfContinuousUpdates? || m.OtherServerMsg?
    ensures MsgRead(c, m, auto).Ok?
    ensures var c' := MsgRead(c, m, auto).value;
      && c'.supportsContinuousUpdates == (c.supportsContinuousUpdates || m.EndOfContinuousUpdates?)
      && c'.continuousUpdates == c.continuousUpdates
  {
    hide RectRead, UpdateStarted, GoodFormat, FenceReplied;
  }

  lemma RectFlags(c: Client, m: ServerMsg, auto: AutoSelect)
    requires IsRect(m) && c.nUpdateRectsLeft > 0
    ensures var c' := RectRead(c, m, auto);
      c'.supportsContinuousUpdates == c.supportsContinuousUpdates && c'.continuousUpdates == c.continuousUpdates
  {
    hide RectRead, UpdateGoesOn, UpdateOver;
    var c' := RectRead(c, m, auto);
    RectMeans(c, m, auto);
    if c'.nUpdateRectsLeft > 0 { GoesOnFlags(c, m, c'); } else { OverFlags(c, m, c'); }
  }

  lemma GoesOnFlags(c: Client, m: ServerMsg, c': Client)
    requires UpdateGoesOn(c, m, c')
    ensures c'.supportsContinuousUpdates == c.supportsContinuousUpdates && c'.continuousUpdates == c.continuousUpdates
  {
    hide ResizeSent;
  }

  lemma OverFlags(c: Client, m: ServerMsg, c': Client)
    requires UpdateOver(c, m, c')
    ensures c'.supportsContinuousUpdates == c.supportsContinuousUpdates && c'.continuousUpdates == c.continuousUpdates
  {
    hide ResizeSent;
  }

  lemma FenceFlags(c: Client, syncNext: bool, payload: seq<Byte>)
    ensures var r := FenceReplied(c, syncNext, payload);
      r.Ok? ==>
        && r.value.supportsContinuousUpdates == c.supportsContinuousUpdates
        && r.value.continuousUpdates ==
             (c.continuousUpdates || (syncNext && payload == [] && c.supportsContinuousUpdates))
  {
    FenceMeans(c, syncNext, payload);
    hide FenceReplied, Read;
  }

  lemma HeaderFlags(c: Client, n: nat)
    requires GoodFormat(c.fullColourPF)
    ensures var c' := UpdateStarted(c, n);
      c'.supportsContinuousUpdates == c.supportsContinuousUpdates && c'.continuousUpdates == c.continuousUpdates
  {
    RequestedFlags(c.(nUpdateRectsLeft := n, pendingUpdate := false));
    hide Requested, GoodFormat;
  }

  /** A step changes what is known and what is on by the two messages alone. */
  lemma StepFlags(s: System, e: Event)
    requires Enabled(s, e)
    ensures var c, c' := s.client, Next(s, e).client;
      && c'.supportsContinuousUpdates == (c.supportsContinuousUpdates || Announces(s, e))
      && c'.continuousUpdates == (c.continuousUpdates || (ProbeReply(s, e) && c.supportsContinuousUpdates))
  {
    hide GoodFormat, MsgRead, OptionsSet, Refreshed, IsUpdate, CanSend, WireSized, Expects;
    var c := s.client;
    match e {
      case ClientReads(auto) => ReadFlags(c, s.inbox[0], auto);
      case OptionsChanged(fullColour, level) => OptionsFlags(c, fullColour, level);
      case RefreshAsked => RefreshFlags(c);
      case ServerHandles =>
      case ServerUpdates(_, _) =>
      case ServerSays(_) =>
      case ClientSays =>
    }
  }

  /** The announcement has been read before state n. */
  ghost predicate AnnouncedBefore(states: seq<System>, events: seq<Event>, n: nat)
    requires n <= |events| && |events| <= |states|
  {
    exists i :: 0 <= i < n && Announces(states[i], events[i])
  }

  /** So has, after an announcement, the reply to the probe. */
  ghost predicate ProbedAfter(states: seq<System>, events: seq<Event>, n: nat)
    requires n <= |events| && |events| <= |states|
  {
    exists j :: 0 <= j < n && ProbeReply(states[j], events[j]) && AnnouncedBefore(states, events, j)
  }

  lemma {:induction false} RunFlags(states: seq<System>, events: seq<Event>, n: nat)
    requires Run(states, events) && n < |states|
    ensures states[n].client.supportsContinuousUpdates <==> AnnouncedBefore(states, events, n)
    ensures states[n].client.continuousUpdates <==> ProbedAfter(states, events, n)
    decreases n
  {
    hide Next, Enabled, ProbeReply, Announces;
    if n > 0 {
      RunFlags(states, events, n - 1);
      StepFlags(states[n - 1], events[n - 1]);
      hide Start;
    } else {
      StartFlags(states[0]);
      hide Start;
    }
  }

  lemma StartFlags(s: System)
    requires Start(s)
    ensures !s.client.supportsContinuousUpdates && !s.client.continuousUpdates
  {
    var fullColour, level, preferred, pf :| GoodFormat(preferred) && WireSized(pf) &&
      s.client == Initial(fullColour, level, preferred, pf);
    RequestedFlags(Connected(fullColour, level, preferred, pf));
    hide Requested, GoodFormat, WireSized;
  }

  /** Continuous updates are on exactly if the viewer has read the server's
      announcement and, later, the reply to its probe; then the server sends them
      or is about to be asked to. */
  lemma ContinuousIff(states: seq<System>, events: seq<Event>, n: nat)
    requires Run(states, events) && n < |states|
    ensures states[n].client.continuousUpdates <==> ProbedAfter(states, events, n)
    ensures states[n].client.continuousUpdates ==> Continuing(states[n].client, states[n].server)
  {
    hide Next, Enabled, Start, Base, ProbedAfter, Outstanding;
    RunFlags(states, events, n);
    RunInvariant(states, events, n);
  }

  // --------------------------------------------------------- a lost option

  /** The format after all that has been sent to the server. */
  ghost function LastSet(out: seq<ClientMsg>, pf: PixelFormat): PixelFormat {
    if out == [] then pf else LastSet(out[1..], if out[0].SetPixelFormat? then out[0].pf else pf)
  }

  lemma {:induction false} LastSetAppend(out: seq<ClientMsg>, m: ClientMsg, pf: PixelFormat)
    ensures LastSet(out + [m], pf) == if m.SetPixelFormat? then m.pf else LastSet(out, pf)
  {
    if out == [] {
      assert out + [m] == [m] && [m][1..] == [];
    } else {
      assert (out + [m])[1..] == out[1..] + [m];
      LastSetAppend(out[1..], m, if out[0].SetPixelFormat? then out[0].pf else pf);
    }
  }

  /** The format chosen has been asked for or is going to be. */
  ghost predicate Honoured(c: Client, s: Server)
    requires GoodFormat(c.fullColourPF)
  {
    c.formatChange || LastSet(c.out, s.pf) == Wanted(c)
  }

  lemma LastSetSwitching(c: Client, pf: PixelFormat)
    requires GoodFormat(c.fullColourPF)
    ensures LastSet(Switching(c).out, pf) == if c.formatChange then Wanted(c) else LastSet(c.out, pf)
  {
    hide LastSet, Write, Wanted;
    var fence, set' := SyncNextFence(Write(Wanted(c))), SetPixelFormat(Wanted(c));
    var before := if c.supportsSyncFence then c.out + [fence] else c.out;
    assert c.formatChange ==> Switching(c).out == before + [set'];
    LastSetAppend(before, set', pf);
  }

  lemma LastSetOthers(c: Client, pf: PixelFormat)
    ensures LastSet(EncodingsSent(c).out, pf) == LastSet(Requesting(c).out, pf) == LastSet(c.out, pf)
  {
    hide LastSet;
    var request := UpdateRequest(!c.forceNonincremental);
    LastSetAppend(c.out, OtherClientMsg, pf);
    LastSetAppend(c.out, request, pf);
    assert c.out + [] == c.out;
  }

  lemma LastSetRequested(c: Client, pf: PixelFormat)
    requires GoodFormat(c.fullColourPF)
    ensures LastSet(Requested(c).out, pf) == if c.formatChange then Wanted(c) else LastSet(c.out, pf)
    ensures !Requested(c).formatChange && Wanted(Requested(c)) == Wanted(c)
  {
    RequestedFields(c);
    hide LastSet, Switching, EncodingsSent, Requesting, Wanted;
    LastSetSwitching(c, pf);
    LastSetOthers(Switching(c), pf);
    LastSetOthers(EncodingsSent(Switching(c)), pf);
  }

  lemma RequestedFields(c: Client)
    requires GoodFormat(c.fullColourPF)
    ensures !Requested(c).formatChange && Wanted(Requested(c)) == Wanted(c)
  {
    hide Write, IsSane, WireSized;
  }

  /** handleOptions compares the choice with the format in use, not with the one
      asked for last: the choice is lost exactly when it is the format in use
      while a switch to another format is on its way. */
  lemma OptionLostIff(s: System, fullColour: bool, level: int)
    requires GoodFormat(s.client.fullColourPF) && WireSized(s.client.pf)
    ensures var c := s.client;
      var wanted := Wanted(ParamsSet(c, fullColour, level));
      !Honoured(OptionsSet(c, fullColour, level), s.server) <==>
        Matches(wanted, c.pf) && !c.formatChange && LastSet(c.out, s.server.pf) != wanted
  {
    hide Requested, LastSet, Matches, GoodFormat, WireSized;
    var c1 := ParamsSet(s.client, fullColour, level);
    LastSetRequested(c1.(formatChange := true), s.server.pf);
  }

  // ------------------------------------------------- the choice stays honoured

  /** Options are not taken back while a switch is on its way. */
  ghost predicate NotTakenBack(s: System, e: Event)
    requires Enabled(s, e)
  {
    e.OptionsChanged? ==>
      var wanted := Wanted(ParamsSet(s.client, e.fullColour, e.lowColourLevel));
      !(Matches(wanted, s.client.pf) && !s.client.formatChange && LastSet(s.client.out, s.server.pf) != wanted)
  }

  /** The client's step asks for no other format and forgets none: what is chosen
      stays, or a change is planned. */
  ghost predicate Keeps(c: Client, c': Client, pf: PixelFormat) {
    && c'.fullColourPF == c.fullColourPF && c'.lowColourLevel == c.lowColourLevel
    && (c'.formatChange
        || (!c.formatChange && c'.fullColour == c.fullColour && LastSet(c'.out, pf) == LastSet(c.out, pf)))
  }

  lemma KeptHonoured(c: Client, c': Client, s: Server)
    requires GoodFormat(c.fullColourPF) && Honoured(c, s) && Keeps(c, c', s.pf)
    ensures GoodFormat(c'.fullColourPF) && Honoured(c', s)
  {
    hide GoodFormat, Wanted, LastSet;
    WantedBy(c, c');
  }

  lemma KeepsBoth(c: Client, c1: Client, c2: Client, pf: PixelFormat)
    requires Keeps(c, c1, pf) && Keeps(c1, c2, pf) && (c1.formatChange ==> c2.formatChange)
    ensures Keeps(c, c2, pf)
  {
    hide LastSet;
  }

  lemma SaysOther(c: Client, c': Client, m: ClientMsg, pf: PixelFormat)
    requires c'.fullColourPF == c.fullColourPF && c'.lowColourLevel == c.lowColourLevel && c'.fullColour == c.fullColour
    requires c'.formatChange == c.formatChange && (c'.out == c.out || c'.out == c.out + [m]) && !m.SetPixelFormat?
    ensures Keeps(c, c', pf)
  {
    hide LastSet;
    LastSetAppend(c.out, m, pf);
  }

  lemma HonouredRequested(c: Client, s: Server)
    requires GoodFormat(c.fullColourPF) && Honoured(c, s)
    ensures GoodFormat(Requested(c).fullColourPF) && Honoured(Requested(c), s)
  {
    hide LastSet, Wanted, Requested, GoodFormat;
    LastSetRequested(c, s.pf);
    RequestedMeans(c);
  }

  lemma ResizedSays(c: Client, pf: PixelFormat)
    ensures Keeps(c, Resized(c), pf) && Resized(c).formatChange == c.formatChange
  {
    hide LastSet;
    assert c.out + [] == c.out;
    SaysOther(c, Resized(c), EnableContinuousUpdates, pf);
  }

  lemma EndedKeeps(c: Client, auto: AutoSelect, pf: PixelFormat)
    ensures Keeps(c, UpdateEnded(c, auto), pf)
  {
    hide LastSet, Keeps, AutoSelected;
    var c1 := Switched(Probed(c));
    assert c.out + [] == c.out;
    SaysOther(c, c1, SyncNextFence([]), pf);
    AutoKeeps(c1, auto, pf);
    KeepsBoth(c, c1, AutoSelected(c1, auto), pf);
  }

  lemma AutoKeeps(c: Client, auto: AutoSelect, pf: PixelFormat)
    ensures Keeps(c, AutoSelected(c, auto), pf)
    ensures c.formatChange ==> AutoSelected(c, auto).formatChange
  {
    hide LastSet;
  }

  lemma RectKeeps(c: Client, m: ServerMsg, auto: AutoSelect, pf: PixelFormat)
    requires IsRect(m) && c.nUpdateRectsLeft > 0
    ensures Keeps(c, RectRead(c, m, auto), pf)
  {
    hide LastSet, UpdateEnded, Resized;
    var left := if m.LastRect? then 0 else c.nUpdateRectsLeft - 1;
    var c1 := if m.ResizeRect? then Resized(c) else c;
    var c2 := c1.(nUpdateRectsLeft := left);
    ResizedSays(c, pf);
    SaysOther(c1, c2, OtherClientMsg, pf);
    KeepsBoth(c, c1, c2, pf);
    EndedKeeps(c2, auto, pf);
    EndedPlans(c2, auto);
    KeepsBoth(c, c2, UpdateEnded(c2, auto), pf);
  }

  lemma EndedPlans(c: Client, auto: AutoSelect)
    ensures c.formatChange ==> UpdateEnded(c, auto).formatChange
  {
  }

  lemma FenceKeeps(c: Client, syncNext: bool, payload: seq<Byte>, pf: PixelFormat)
    requires FenceReplied(c, syncNext, payload).Ok?
    ensures Keeps(c, FenceReplied(c, syncNext, payload).value, pf)
  {
    hide LastSet, Read, FencesWork, Keeps;
    if payload != [] {
      SwitchKeeps(c, syncNext, payload, pf);
    } else if syncNext {
      WorkKeeps(c.(supportsFence := true), pf);
      KeepsSame(c, c.(supportsFence := true), FencesWork(c.(supportsFence := true)), pf);
    } else {
      SaysOther(c, c.(supportsFence := true), OtherClientMsg, pf);
    }
  }

  lemma SwitchKeeps(c: Client, syncNext: bool, payload: seq<Byte>, pf: PixelFormat)
    requires FenceReplied(c, syncNext, payload).Ok? && payload != []
    ensures Keeps(c, FenceReplied(c, syncNext, payload).value, pf)
  {
    hide LastSet, Read, FencesWork, Keeps;
    SaysOther(c, FenceReplied(c, syncNext, payload).value, OtherClientMsg, pf);
  }

  lemma WorkKeeps(c: Client, pf: PixelFormat)
    ensures Keeps(c, FencesWork(c), pf)
  {
    hide LastSet, Keeps;
    assert c.out + [] == c.out;
    SaysOther(c, FencesWork(c), EnableContinuousUpdates, pf);
  }

  lemma KeepsSame(c: Client, c1: Client, c2: Client, pf: PixelFormat)
    requires c1 == c.(supportsFence := true) && Keeps(c1, c2, pf)
    ensures Keeps(c, c2, pf)
  {
    hide LastSet;
  }

  lemma HonouredHeader(c: Client, n: nat, s: Server)
    requires GoodFormat(c.fullColourPF) && Honoured(c, s)
    ensures GoodFormat(UpdateStarted(c, n).fullColourPF) && Honoured(UpdateStarted(c, n), s)
  {
    hide LastSet, Requested, GoodFormat, Wanted, Keeps, Honoured;
    var c1 := c.(nUpdateRectsLeft := n, pendingUpdate := false);
    SaysOther(c, c1, OtherClientMsg, s.pf);
    KeptHonoured(c, c1, s);
    HonouredRequested(c1, s);
  }

  lemma PlainKeeps(c: Client, m: ServerMsg, auto: AutoSelect, pf: PixelFormat)
    requires GoodFormat(c.fullColourPF) && c.nUpdateRectsLeft == 0
    requires m.FenceRequest? || m.EndOfContinuousUpdates? || m.OtherServerMsg?
    ensures Expects(c, m) && MsgRead(c, m, auto).Ok? && Keeps(c, MsgRead(c, m, auto).value, pf)
  {
    hide LastSet, GoodFormat, Keeps;
    SaysOther(c, MsgRead(c, m, auto).value, OtherClientMsg, pf);
  }

  lemma HonouredRead(c: Client, m: ServerMsg, auto: AutoSelect, s: Server)
    requires GoodFormat(c.fullColourPF) && Expects(c, m) && MsgRead(c, m, auto).Ok? && Honoured(c, s)
    ensures var c' := MsgRead(c, m, auto).value; GoodFormat(c'.fullColourPF) && Honoured(c', s)
  {
    hide GoodFormat, RectRead, FenceReplied, UpdateStarted, Keeps, Honoured;
    if c.nUpdateRectsLeft > 0 {
      RectKeeps(c, m, auto, s.pf);
      KeptHonoured(c, RectRead(c, m, auto), s);
    } else if m.UpdateHeader? {
      HonouredHeader(c, m.nRects, s);
    } else if m.FenceReply? {
      FenceKeeps(c, m.syncNext, m.payload, s.pf);
      KeptHonoured(c, FenceReplied(c, m.syncNext, m.payload).value, s);
    } else {
      PlainKeeps(c, m, auto, s.pf);
      KeptHonoured(c, MsgRead(c, m, auto).value, s);
    }
  }

  lemma HonouredRefresh(c: Client, s: Server)
    requires GoodFormat(c.fullColourPF) && Honoured(c, s)
    ensures GoodFormat(Refreshed(c).fullColourPF) && Honoured(Refreshed(c), s)
  {
    hide LastSet, Requested, GoodFormat, Wanted, Keeps, Honoured;
    var c1 := c.(forceNonincremental := true);
    SaysOther(c, c1, OtherClientMsg, s.pf);
    KeptHonoured(c, c1, s);
    HonouredRequested(c1, s);
  }

  /** Every step but a choice taken back keeps the choice honoured. */
  lemma StepKeepsHonoured(s: System, e: Event)
    requires GoodFormat(s.client.fullColourPF) && Enabled(s, e) && Honoured(s.client, s.server) && NotTakenBack(s, e)
    ensures var s' := Next(s, e); GoodFormat(s'.client.fullColourPF) && Honoured(s'.client, s'.server)
  {
    hide LastSet, GoodFormat, Wanted, MsgRead, OptionsSet, Refreshed, IsUpdate, Honoured, NotTakenBack, CanSend;
    hide WireSized, Expects;
    var c := s.client;
    match e {
      case ServerHandles => HonouredHandled(c, s.server);
      case ServerUpdates(_, answered) => HonouredByServer(c, s.server, s.server.requests - answered);
      case ServerSays(_) =>
      case ClientReads(auto) => HonouredRead(c, s.inbox[0], auto, s.server);
      case ClientSays => HonouredSays(c, s.server);
      case OptionsChanged(fullColour, level) => HonouredOptions(s, fullColour, level);
      case RefreshAsked => HonouredRefresh(c, s.server);
    }
  }

  lemma HonouredByServer(c: Client, s: Server, requests: nat)
    requires GoodFormat(c.fullColourPF) && Honoured(c, s)
    ensures Honoured(c, s.(requests := requests))
  {
    hide LastSet, GoodFormat, Wanted;
  }

  lemma HonouredSays(c: Client, s: Server)
    requires GoodFormat(c.fullColourPF) && Honoured(c, s)
    ensures GoodFormat(Says(c, OtherClientMsg).fullColourPF) && Honoured(Says(c, OtherClientMsg), s)
  {
    hide GoodFormat, Keeps, Honoured;
    SaysOther(c, Says(c, OtherClientMsg), OtherClientMsg, s.pf);
    KeptHonoured(c, Says(c, OtherClientMsg), s);
  }

  lemma HonouredOptions(s: System, fullColour: bool, level: int)
    requires Enabled(s, OptionsChanged(fullColour, level)) && NotTakenBack(s, OptionsChanged(fullColour, level))
    ensures var c := OptionsSet(s.client, fullColour, level); GoodFormat(c.fullColourPF) && Honoured(c, s.server)
  {
    hide LastSet, GoodFormat, Wanted, Matches, OptionsSet, Honoured, WireSized;
    OptionsKeepFullColour(s.client, fullColour, level);
    OptionLostIff(s, fullColour, level);
  }

  lemma OptionsKeepFullColour(c: Client, fullColour: bool, level: int)
    requires GoodFormat(c.fullColourPF) && WireSized(c.pf)
    ensures OptionsSet(c, fullColour, level).fullColourPF == c.fullColourPF
  {
    hide Requested, GoodFormat, Wanted, Matches;
    RequestedMeans(ParamsSet(c, fullColour, level).(formatChange := true));
  }

  lemma HonouredHandled(c: Client, s: Server)
    requires GoodFormat(c.fullColourPF) && Honoured(c, s) && c.out != []
    ensures Honoured(c.(out := c.out[1..]), Handled(s, c.out[0]))
  {
    hide GoodFormat, Wanted;
    WantedBy(c, c.(out := c.out[1..]));
  }

  lemma HonouredStart(s: System)
    requires Start(s)
    ensures GoodFormat(s.client.fullColourPF) && Honoured(s.client, s.server)
  {
    var fullColour, level, preferred, pf :| GoodFormat(preferred) && WireSized(pf) &&
      s.client == Initial(fullColour, level, preferred, pf);
    var c := Connected(fullColour, level, preferred, pf);
    LastSetRequested(c, s.server.pf);
    RequestedMeans(c);
    hide Requested, LastSet, GoodFormat, Wanted;
    WantedBy(c, s.client);
  }

  lemma {:induction false} RunHonours(states: seq<System>, events: seq<Event>, n: nat)
    requires Run(states, events) && n < |states|
    requires forall k :: 0 <= k < n ==> NotTakenBack(states[k], events[k])
    ensures GoodFormat(states[n].client.fullColourPF) && Honoured(states[n].client, states[n].server)
    decreases n
  {
    hide Next, Enabled, Start, Honoured, NotTakenBack, GoodFormat;
    if n == 0 {
      HonouredStart(states[0]);
    } else {
      RunHonours(states, events, n - 1);
      StepKeepsHonoured(states[n - 1], events[n - 1]);
    }
  }

  /** In every run in which no choice is taken back while a switch is on its way,
      both sides end up in the format chosen once everything is handled. */
  lemma SettledAsChosen(states: seq<System>, events: seq<Event>, n: nat)
    requires Run(states, events) && n < |states|
    requires forall k :: 0 <= k < n ==> NotTakenBack(states[k], events[k])
    requires states[n].client.out == [] && states[n].inbox == [] && !states[n].client.formatChange
    ensures GoodFormat(states[n].client.fullColourPF)
    ensures states[n].client.pf == states[n].server.pf == Wanted(states[n].client)
  {
    hide Next, Enabled, Start, NotTakenBack, GoodFormat, Wanted;
    RunHonours(states, events, n);
    assert Run(states[..n + 1], events[..n]);
    assert states[..n + 1][n] == states[n];
    SettledFormatsAgree(states[n]);
  }

  lemma Reach(s: System, e: Event)
    requires Reachable(s) && Enabled(s, e)
    ensures Reachable(Next(s, e))
  {
    hide Enabled, Next, Start;
    var states, events :| Run(states, events) && states[|states| - 1] == s;
    assert Run(states + [Next(s, e)], events + [e]);
  }

  lemma ReachStart(s: System)
    requires Start(s)
    ensures Reachable(s)
  {
    hide Start;
    assert Run([s], []);
  }

  lemma HandleOne(c: Client, server: Server, m: ClientMsg, rest: seq<ClientMsg>)
    requires Reachable(System(c.(out := [m] + rest), server, []))
    requires server.syncFence == NoFence && !m.SyncNextFence?
    ensures Reachable(System(c.(out := rest), Handled(server, m), []))
  {
    hide Reachable;
    assert ([m] + rest)[1..] == rest && [] + Replies(server, m) == [];
    Reach(System(c.(out := [m] + rest), server, []), ServerHandles);
  }

  /** The server sets a format and takes a request. */
  lemma ThreeHandled(c: Client, server: Server, pf: PixelFormat, incremental: bool)
    requires server.syncFence == NoFence && !server.continuous
    requires Reachable(System(c.(out := [SetPixelFormat(pf), OtherClientMsg, UpdateRequest(incremental)]), server, []))
    ensures Reachable(System(c.(out := []), Server(pf, server.requests + 1, server.continuous, NoFence), []))
  {
    hide Reachable;
    var m1, m2, m3 := SetPixelFormat(pf), OtherClientMsg, UpdateRequest(incremental);
    assert [m1, m2, m3] == [m1] + [m2, m3] && [m2, m3] == [m2] + [m3] && [m3] == [m3] + [];
    HandleOne(c, server, m1, [m2, m3]);
    HandleOne(c, Handled(server, m1), m2, [m3]);
    HandleOne(c, Handled(Handled(server, m1), m2), m3, []);
  }

  /** A viewer without fences whose full format is MEDIUM_COLOUR. */
  function Plain(pf: PixelFormat, pendingPF: PixelFormat, left: nat, formatChange: bool, encodingChange: bool,
                 firstUpdate: bool, fullColour: bool, out: seq<ClientMsg>): Client {
    Client(pf, left, left > 0, pendingPF, formatChange, encodingChange, firstUpdate, true, false,
           false, false, false, false, fullColour, 0, MEDIUM_COLOUR, out)
  }

  lemma LostStart()
    ensures GoodFormat(MEDIUM_COLOUR) && GoodFormat(VERY_LOW_COLOUR)
    ensures Initial(true, 0, MEDIUM_COLOUR, MEDIUM_COLOUR) ==
      Plain(MEDIUM_COLOUR, MEDIUM_COLOUR, 0, false, false, true, true,
            [SetPixelFormat(MEDIUM_COLOUR), OtherClientMsg, UpdateRequest(false)])
  {
  }

  lemma LostOptions()
    ensures GoodFormat(MEDIUM_COLOUR)
    ensures OptionsSet(Plain(MEDIUM_COLOUR, MEDIUM_COLOUR, 0, false, false, true, true, []), false, 0) ==
      Plain(MEDIUM_COLOUR, MEDIUM_COLOUR, 0, true, true, true, false, [])
    ensures forall out ::
      var c := Plain(MEDIUM_COLOUR, VERY_LOW_COLOUR, 1, false, false, true, false, out);
      OptionsSet(c, true, 0) == Plain(MEDIUM_COLOUR, VERY_LOW_COLOUR, 1, false, true, true, true, out)
  {
  }

  lemma LostReads()
    ensures GoodFormat(MEDIUM_COLOUR)
    ensures UpdateStarted(Plain(MEDIUM_COLOUR, MEDIUM_COLOUR, 0, true, true, true, false, []), 1) ==
      Plain(MEDIUM_COLOUR, VERY_LOW_COLOUR, 1, false, false, true, false,
            [SetPixelFormat(VERY_LOW_COLOUR), OtherClientMsg, UpdateRequest(true)])
    ensures forall out ::
      var c := Plain(MEDIUM_COLOUR, VERY_LOW_COLOUR, 1, false, true, true, true, out);
      RectRead(c, NameRect, Off) == Plain(VERY_LOW_COLOUR, VERY_LOW_COLOUR, 0, false, true, false, true, out)
  {
  }

  /** It happens: a choice is taken back while the switch is pending. Everything
      settles in the other format, and no change of format is planned. */
  lemma OptionCanBeLost() returns (s: System)
    ensures Reachable(s)
    ensures s.client.out == [] && s.inbox == [] && !s.client.formatChange
    ensures s.client.pf == s.server.pf && s.client.fullColour && s.client.pf != s.client.fullColourPF
  {
    LostStart();
    LostOptions();
    LostReads();
    hide IsSane, GoodFormat, Initial, OptionsSet, UpdateStarted, RectRead, Reachable;
    var c0, server0 := Initial(true, 0, MEDIUM_COLOUR, MEDIUM_COLOUR), Server(MEDIUM_COLOUR, 0, false, NoFence);
    ReachStart(System(c0, server0, []));
    ThreeHandled(c0, server0, MEDIUM_COLOUR, false);
    s := System(c0.(out := []), Server(MEDIUM_COLOUR, 1, false, NoFence), []);
    s := Step(s, OptionsChanged(false, 0));
    var update := [UpdateHeader(1), NameRect];
    s := Step(s, ServerUpdates(update, 1));
    assert [] + update == update && update[1..] == [NameRect] && [NameRect][1..] == [];
    s := Step(s, ClientReads(Off));
    s := Step(s, OptionsChanged(true, 0));
    s := Step(s, ClientReads(Off));
    ThreeHandled(s.client, s.server, VERY_LOW_COLOUR, true);
    s := System(s.client.(out := []), Server(VERY_LOW_COLOUR, s.server.requests + 1, s.server.continuous, NoFence), []);
  }

  lemma Step(s: System, e: Event) returns (s': System)
    requires Reachable(s) && Enabled(s, e)
    ensures Reachable(s') && s' == Next(s, e)
  {
    hide Reachable;
    Reach(s, e);
    s' := Next(s, e);
  }

  // ------------------------------------------------------ the object itself

  /** What the server and the wire hold while a CConn is at the other end. */
  class Peer {
    var server: Server
    var inbox: seq<ServerMsg>

    constructor (server: Server)
      ensures this.server == server && inbox == []
    {
      this.server := server;
      inbox := [];
    }

    ghost function With(conn: CConn): System
      reads this, conn
    {
      System(conn.State(), server, inbox)
    }

    /** The viewer reads what has arrived: it always can, and pixels are in its format. */
    method Deliver(conn: CConn, auto: AutoSelect)
      requires Reachable(With(conn)) && inbox != []
      modifies this`inbox, conn
      ensures Reachable(With(conn)) && inbox == old(inbox)[1..] && server == old(server)
      ensures old(inbox)[0].DataRect? ==> old(inbox)[0].pf == old(conn.pf)
    {
      hide Reachable, MsgRead, GoodFormat;
      ghost var s := With(conn);
      DecodedAsEncoded(s, auto);
      Reach(s, ClientReads(auto));
      var r := conn.ReadMsg(inbox[0], auto);
      inbox := inbox[1..];
      assert With(conn) == Next(s, ClientReads(auto));
    }

    /** The server takes the next message of the viewer. */
    method Take(conn: CConn)
      requires Reachable(With(conn)) && conn.out != []
      modifies this, conn`out
      ensures Reachable(With(conn))
    {
      hide Reachable, Handled, Replies;
      ghost var s := AfterHandling(With(conn));
      var m := conn.Leaves();
      Answer(m);
      assert With(conn) == s;
    }

    method Answer(m: ClientMsg)
      modifies this
      ensures server == Handled(old(server), m) && inbox == old(inbox) + Replies(old(server), m)
    {
      hide Handled, Replies;
      inbox := inbox + Replies(server, m);
      server := Handled(server, m);
    }

    /** The server sends an update, if it may. */
    method Send(conn: CConn, update: seq<ServerMsg>, answered: nat) returns (sent: bool)
      requires Reachable(With(conn))
      modifies this
      ensures Reachable(With(conn))
      ensures sent <==> CanSend(old(server)) && IsUpdate(update, old(server.pf)) && answered <= old(server.requests)
                        && (answered > 0 || old(server.continuous))
      ensures sent ==> inbox == old(inbox) + update
    {
      hide Reachable, IsUpdate;
      ghost var s := With(conn);
      sent := CanSend(server) && IsUpdate(update, server.pf) && answered <= server.requests
        && (answered > 0 || server.continuous);
      if sent {
        Reach(s, ServerUpdates(update, answered));
        inbox := inbox + update;
        server := server.(requests := server.requests - answered);
        assert With(conn) == Next(s, ServerUpdates(update, answered));
      }
    }

    /** The user changes options. */
    method Choose(conn: CConn, full: bool, level: int)
      requires Reachable(With(conn))
      modifies conn
      ensures Reachable(With(conn)) && conn.fullColour == full && conn.lowColourLevel == level
    {
      hide Reachable, OptionsSet, GoodFormat, WireSized, Wanted, Matches, FormatAnnounced;
      OptionsAllowed(With(conn));
      ghost var s := AfterChoosing(With(conn), full, level);
      conn.HandleOptions(full, level);
      assert With(conn) == s;
    }

    /** The user asks for everything anew. */
    method Refresh(conn: CConn)
      requires Reachable(With(conn))
      modifies conn
      ensures Reachable(With(conn))
    {
      hide Reachable, Refreshed, GoodFormat;
      OptionsAllowed(With(conn));
      ghost var s := AfterRefreshing(With(conn));
      conn.RefreshFramebuffer();
      assert With(conn) == s;
    }
  }

  lemma AfterHandling(s: System) returns (s': System)
    requires Reachable(s) && s.client.out != []
    ensures Reachable(s')
    ensures s' == System(s.client.(out := s.client.out[1..]), Handled(s.server, s.client.out[0]),
                         s.inbox + Replies(s.server, s.client.out[0]))
  {
    hide Reachable;
    s' := Step(s, ServerHandles);
  }

  lemma AfterChoosing(s: System, full: bool, level: int) returns (s': System)
    requires Reachable(s) && GoodFormat(s.client.fullColourPF) && WireSized(s.client.pf)
    ensures Reachable(s') && s' == s.(client := OptionsSet(s.client, full, level))
  {
    hide Reachable, OptionsSet, GoodFormat, WireSized;
    s' := Step(s, OptionsChanged(full, level));
  }

  lemma AfterRefreshing(s: System) returns (s': System)
    requires Reachable(s) && GoodFormat(s.client.fullColourPF)
    ensures Reachable(s') && s' == s.(client := Refreshed(s.client))
  {
    hide Reachable, Refreshed, GoodFormat;
    s' := Step(s, RefreshAsked);
  }

  lemma OptionsAllowed(s: System)
    requires Reachable(s)
    ensures GoodFormat(s.client.fullColourPF) && WireSized(s.client.pf)
  {
    hide Reachable, Agreed, Quiet, OneProbe, Due;
    ReachableInvariant(s);
  }
}
