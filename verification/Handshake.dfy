/** The two sides of the handshake up to ServerInit, each with the fields it
    reads and writes. Reading a field of another kind than the one due is a
    misreading. */
module Handshakes {

  const INVALID := 0
  const NONE := 1
  const VNC_AUTH := 2

  const RESULT_OK := 0
  const RESULT_FAILED := 1
  const RESULT_TOO_MANY := 2

  datatype Version = Version(major: nat, minor: nat) {
    predicate Before(M: nat, m: nat) {
      major < M || (major == M && minor < m)
    }

    predicate After(M: nat, m: nat) {
      !Before(M, m + 1)
    }
  }

  const V33 := Version(3, 3)
  const V37 := Version(3, 7)
  const V38 := Version(3, 8)

  /** What goes over the wire; U8 and U32 differ in width. */
  datatype Field =
    | VersionField(version: Version)
    | U8Field(value: nat)
    | U32Field(value: nat)
    | ReasonField
    | ChallengeField
    | ResponseField
    | ClientInitField
    | ServerInitField

  datatype State =
    | ProtocolVersion | SecurityTypes | SecurityType | Security | Querying | SecurityResult
    | Initialisation | Normal | Invalid

  datatype Outcome = Going | Waiting | Failed | Misread

  /** One side: its state, what it has agreed to, and its two streams. */
  datatype Side = Side(state: State, version: Version, secType: nat, input: seq<Field>, output: seq<Field>)

  datatype Step = Step(side: Side, outcome: Outcome)

  function Thrown(s: Side): Step { Step(s.(state := Invalid), Failed) }

  /** The step of a reader that wants one field of the given kind next. */
  function Took(s: Side, n: nat): Side
    requires n <= |s.input|
  {
    s.(input := s.input[n..])
  }

  // ----------------------------------------------------------------- client

  datatype ClientConfig = ClientConfig(useProtocol3_3: bool, secTypes: seq<nat>)

  predicate NoNewer(v: Version, w: Version) {
    v.major < w.major || (v.major == w.major && v.minor <= w.minor)
  }

  predicate OfficialVersion(v: Version) {
    v.major == 3 && v.minor in {3, 7, 8}
  }

  /** The newest of the official versions that is no newer than `limit`. */
  ghost predicate Newest(v: Version, limit: Version) {
    && OfficialVersion(v) && NoNewer(v, limit)
    && forall w :: OfficialVersion(w) && NoNewer(w, limit) ==> NoNewer(w, v)
  }

  /** The version this client answers a supported offer with. */
  function Answer(offer: Version, useProtocol3_3: bool): (v: Version)
    requires !offer.Before(3, 3)
    ensures if useProtocol3_3 then v == Version(3, 3) else Newest(v, offer)
  {
    if useProtocol3_3 || offer.Before(3, 7) then V33
    else if offer.After(3, 8) then V38
    else offer
  }

  function ClientVersion(c: Side, config: ClientConfig): Step {
    if c.input == [] then Step(c, Waiting)
    else if !c.input[0].VersionField? then Step(c, Misread)
    else if c.input[0].version.Before(3, 3) then Thrown(Took(c, 1))
    else
      var v := Answer(c.input[0].version, config.useProtocol3_3);
      Step(Took(c, 1).(state := SecurityTypes, version := v, output := c.output + [VersionField(v)]), Going)
  }

  /** The first offer that is enabled. */
  function FirstCommon(offers: seq<nat>, enabled: seq<nat>): nat {
    if offers == [] then INVALID
    else if offers[0] in enabled then offers[0]
    else FirstCommon(offers[1..], enabled)
  }

  function U8s(values: seq<nat>): (fields: seq<Field>)
    ensures |fields| == |values|
  {
    seq(|values|, i requires 0 <= i < |values| => U8Field(values[i]))
  }

  /** The list of a 3.7 or 3.8 server: a count and as many types. */
  predicate IsList(fields: seq<Field>) {
    && fields != [] && fields[0].U8Field? && fields[0].value < |fields|
    && forall k :: 1 <= k <= fields[0].value ==> fields[k].U8Field?
  }

  function Offers(fields: seq<Field>): (offers: seq<nat>)
    requires IsList(fields)
    ensures |offers| == fields[0].value
  {
    seq(fields[0].value, k requires 0 <= k < fields[0].value => fields[k + 1].value)
  }

  function ClientTypes(c: Side, config: ClientConfig): Step {
    if c.input == [] then Step(c, Waiting)
    else if c.version == V33 then
      if !c.input[0].U32Field? then Step(c, Misread)
      else if c.input[0].value == INVALID then ClientRefused(c)
      else if c.input[0].value != NONE && c.input[0].value != VNC_AUTH then Thrown(Took(c, 1))
      else if c.input[0].value !in config.secTypes then Thrown(Took(c, 1))
      else ClientSecurity(Took(c, 1).(secType := c.input[0].value))
    else
      if !c.input[0].U8Field? then Step(c, Misread)
      else if c.input[0].value == 0 then ClientRefused(c)
      else if c.input[0].value >= |c.input| then Step(c, Waiting)
      else if !IsList(c.input) then Step(c, Misread)
      else
        var offers := Offers(c.input);
        var t := FirstCommon(offers, config.secTypes);
        var c1 := Took(c, 1 + |offers|);
        if t == INVALID then Thrown(c1)
        else ClientSecurity(c1.(secType := t, output := c.output + [U8Field(t)]))
  }

  /** A count or type of zero is followed by a reason. */
  function ClientRefused(c: Side): Step
    requires c.input != []
  {
    if |c.input| < 2 then Step(c, Waiting)
    else if !c.input[1].ReasonField? then Step(c, Misread)
    else Thrown(Took(c, 2))
  }

  /** None needs no exchange; the others answer one challenge. */
  function ClientSecurity(c: Side): Step {
    var c1 := c.(state := Security);
    if c.secType == NONE then ClientResult(c1)
    else if c.input == [] then Step(c1, Waiting)
    else if !c.input[0].ChallengeField? then Step(c1, Misread)
    else ClientResult(Took(c1, 1).(output := c.output + [ResponseField]))
  }

  function ClientResult(c: Side): Step {
    var c1 := c.(state := SecurityResult);
    if c.version.Before(3, 8) && c.secType == NONE then SecurityCompleted(c1)
    else if c.input == [] then Step(c1, Waiting)
    else if !c.input[0].U32Field? then Step(c1, Misread)
    else if c.input[0].value == RESULT_OK then SecurityCompleted(Took(c1, 1))
    else if c.input[0].value != RESULT_FAILED && c.input[0].value != RESULT_TOO_MANY then Thrown(Took(c1, 1))
    else if c.version.Before(3, 8) then Thrown(Took(c1, 1))
    else ClientRefused(c1)
  }

  function SecurityCompleted(c: Side): Step {
    Step(c.(state := Initialisation, output := c.output + [ClientInitField]), Going)
  }

  function ClientInit(c: Side): Step {
    if c.input == [] then Step(c, Waiting)
    else if !c.input[0].ServerInitField? then Step(c, Misread)
    else Step(Took(c, 1).(state := Normal), Going)
  }

  function ClientStep(c: Side, config: ClientConfig): Step {
    match c.state
    case ProtocolVersion => ClientVersion(c, config)
    case SecurityTypes => ClientTypes(c, config)
    case Security => ClientSecurity(c)
    case SecurityResult => ClientResult(c)
    case Initialisation => ClientInit(c)
    case _ => Step(c, Waiting)
  }

  // ----------------------------------------------------------------- server

  /** asks: a user is asked, and answers `accepts`, before a connection is approved. */
  datatype ServerConfig = ServerConfig(offer: Version, secTypes: seq<nat>, passwordOk: bool, asks: bool, accepts: bool)

  /** Unofficial minor versions count as the nearest official one below. */
  function Official(v: Version): (o: Version)
    ensures v.major == 3 ==> if v.minor < 3 then o == Version(3, 3) else Newest(o, v)
  {
    if v.minor == 3 || v.minor == 7 || v.minor == 8 then v
    else if v.minor >= 8 then Version(v.major, 8)
    else Version(v.major, 3)
  }

  function LegacyTypes(secTypes: seq<nat>): nat {
    FirstCommon(secTypes, [NONE, VNC_AUTH])
  }

  /** throwConnFailedException while the version is being negotiated. */
  function Refused(s: Side): Step {
    var zero := if s.version == V33 then U32Field(0) else U8Field(0);
    Thrown(s.(output := s.output + [zero, ReasonField]))
  }

  function ServerVersion(s: Side, config: ServerConfig): Step {
    if s.input == [] then Step(s, Waiting)
    else if !s.input[0].VersionField? then Step(s, Misread)
    else
      var s1 := Took(s, 1).(version := s.input[0].version);
      if s1.version.major != 3 then Refused(s1)
      else
        TypesOffered(s1.(version := Official(s1.version)), config)
  }

  function TypesOffered(s: Side, config: ServerConfig): Step {
    if s.version == V33 then
      var t := LegacyTypes(config.secTypes);
      if t == INVALID then Refused(s)
      else ServerSecurity(s.(secType := t, output := s.output + [U32Field(t)]), config)
    else if config.secTypes == [] then Refused(s)
    else
      Step(s.(state := SecurityType, output := s.output + [U8Field(|config.secTypes|)] + U8s(config.secTypes)), Going)
  }

  function ServerType(s: Side, config: ServerConfig): Step {
    if s.input == [] then Step(s, Waiting)
    else if !s.input[0].U8Field? then Step(s, Misread)
    else if s.input[0].value !in config.secTypes then Thrown(Took(s, 1))
    else ServerSecurity(Took(s, 1).(secType := s.input[0].value), config)
  }

  /** First call of the security handler: None is done, the others challenge. */
  function ServerSecurity(s: Side, config: ServerConfig): Step {
    var s1 := s.(state := Security);
    if s.secType == NONE then Queried(s1, config)
    else Step(s1.(output := s.output + [ChallengeField]), Going)
  }

  /** Later calls: the response. */
  function ServerResponse(s: Side, config: ServerConfig): Step {
    if s.input == [] then Step(s, Waiting)
    else if !s.input[0].ResponseField? then Step(s, Misread)
    else if config.passwordOk then Queried(Took(s, 1), config)
    else
      Thrown(Took(s, 1).(output := s.output + FailureFields(s.version)))
  }

  function FailureFields(version: Version): seq<Field> {
    [U32Field(RESULT_FAILED)] + if version.Before(3, 8) then [] else [ReasonField]
  }

  function Queried(s: Side, config: ServerConfig): Step {
    var s1 := s.(state := Querying);
    if config.asks then Step(s1, Going) else Approved(s1, true)
  }

  function Approved(s: Side, accept: bool): Step {
    var told := !s.version.Before(3, 8) || s.secType != NONE;
    var result :=
      if !told then [] else if accept then [U32Field(RESULT_OK)] else FailureFields(s.version);
    var s1 := s.(output := s.output + result);
    if accept then Step(s1.(state := Initialisation), Going) else Thrown(s1)
  }

  function ServerInit(s: Side): Step {
    if s.input == [] then Step(s, Waiting)
    else if !s.input[0].ClientInitField? then Step(s, Misread)
    else Step(Took(s, 1).(state := Normal, output := s.output + [ServerInitField]), Going)
  }

  /** While the user is asked, data from the client is an error. */
  function ServerStep(s: Side, config: ServerConfig): Step {
    match s.state
    case ProtocolVersion => ServerVersion(s, config)
    case SecurityType => ServerType(s, config)
    case Security => ServerResponse(s, config)
    case Querying => if s.input == [] then Step(s, Waiting) else Thrown(s)
    case Initialisation => ServerInit(s)
    case _ => Step(s, Waiting)
  }

  // ----------------------------------------------------------------- system

  datatype System = System(client: Side, server: Side)

  datatype Event = ClientActs | ServerActs | UserAnswers

  predicate Enabled(s: System, e: Event) {
    e.UserAnswers? ==> s.server.state == Querying
  }

  function StepOf(s: System, e: Event, client: ClientConfig, server: ServerConfig): Step {
    match e
    case ClientActs => ClientStep(s.client, client)
    case ServerActs => ServerStep(s.server, server)
    case UserAnswers => Approved(s.server, server.accepts)
  }

  /** What one side has written the other may read. */
  function Next(s: System, e: Event, client: ClientConfig, server: ServerConfig): System {
    var side := StepOf(s, e, client, server).side;
    if e.ClientActs? then
      System(side.(output := []), s.server.(input := s.server.input + side.output))
    else
      System(s.client.(input := s.client.input + side.output), side.(output := []))
  }

  function Start(server: ServerConfig): System {
    System(Side(ProtocolVersion, Version(0, 0), INVALID, [VersionField(server.offer)], []),
           Side(ProtocolVersion, server.offer, INVALID, [], []))
  }

  ghost predicate Run(states: seq<System>, events: seq<Event>, client: ClientConfig, server: ServerConfig) {
    && |states| == |events| + 1 && states[0] == Start(server)
    && forall k :: 0 <= k < |events| ==>
         Enabled(states[k], events[k]) && states[k + 1] == Next(states[k], events[k], client, server)
  }

  ghost predicate Reachable(s: System, client: ClientConfig, server: ServerConfig) {
    exists states, events :: Run(states, events, client, server) && states[|states| - 1] == s
  }

  /** Real servers and clients do not list the invalid type. */
  predicate Sensible(client: ClientConfig, server: ServerConfig) {
    INVALID !in client.secTypes && INVALID !in server.secTypes
  }

  // --------------------------------------------------------------- agreement

  /** The version both will use, when the offer is supported. */
  function Agreed(client: ClientConfig, server: ServerConfig): (v: Version)
    requires !server.offer.Before(3, 3)
  {
    Answer(server.offer, client.useProtocol3_3)
  }

  /** What the server puts on offer in that version. */
  function Offered(version: Version, server: ServerConfig): seq<nat> {
    if version != V33 then server.secTypes
    else if LegacyTypes(server.secTypes) == INVALID then []
    else [LegacyTypes(server.secTypes)]
  }

  function Chosen(version: Version, client: ClientConfig, server: ServerConfig): nat {
    FirstCommon(Offered(version, server), client.secTypes)
  }

  ghost predicate IsFirst(t: nat, offers: seq<nat>, enabled: seq<nat>) {
    exists k :: 0 <= k < |offers| && offers[k] == t && forall j :: 0 <= j < k ==> offers[j] !in enabled
  }

  /** The first in the server's order that the client enables. */
  lemma {:induction false} FirstCommonIsFirst(offers: seq<nat>, enabled: seq<nat>)
    requires INVALID !in enabled
    ensures var t := FirstCommon(offers, enabled);
      && (t == INVALID <==> forall o :: o in offers ==> o !in enabled)
      && (t != INVALID ==> t in enabled && IsFirst(t, offers, enabled))
  {
    var t := FirstCommon(offers, enabled);
    if offers != [] {
      var rest := offers[1..];
      FirstCommonIsFirst(rest, enabled);
      if offers[0] in enabled {
        assert offers[0] == t;
      } else if t != INVALID {
        var k :| 0 <= k < |rest| && rest[k] == t && forall j :: 0 <= j < k ==> rest[j] !in enabled;
        assert offers[k + 1] == t;
        forall j | 0 <= j < k + 1 ensures offers[j] !in enabled {
          if j > 0 { assert offers[j] == rest[j - 1]; }
        }
      }
      assert forall o :: o in offers <==> o == offers[0] || o in rest;
    }
  }

  // --------------------------------------------------------------- invariant

  /** Where the two sides can be relative to each other, and what is under way. */
  ghost predicate Joint(c: Side, s: Side, v: Version, t: nat, server: ServerConfig) {
    var offers := Offered(v, server);
    match c.state
    case ProtocolVersion =>
      c.input == [VersionField(server.offer)] && s.state == ProtocolVersion && s.input == []
    case SecurityTypes =>
      || (c.input == [] && s.state == ProtocolVersion && s.input == [VersionField(v)])
      || (offers == [] && c.input == [if v == V33 then U32Field(0) else U8Field(0), ReasonField]
          && s.state == Invalid && s.input == [])
      || (v == V33 && offers == [NONE] && c.input == [U32Field(NONE)]
          && s.state in {Querying, Initialisation, Invalid} && s.input == [])
      || (v == V33 && offers == [VNC_AUTH] && c.input == [U32Field(VNC_AUTH), ChallengeField]
          && s.state == Security && s.input == [])
      || (v != V33 && offers != [] && c.input == [U8Field(|offers|)] + U8s(offers)
          && s.state == SecurityType && s.input == [])
    case Security =>
      && t != NONE && v != V33
      && ((c.input == [] && s.state == SecurityType && s.input == [U8Field(t)])
          || (c.input == [ChallengeField] && s.state == Security && s.input == []))
    case SecurityResult =>
      && (t != NONE || v == V38)
      && ((t == NONE && c.input == [] && s.state == SecurityType && s.input == [U8Field(t)])
          || (t != NONE && c.input == [] && s.state == Security && s.input == [ResponseField])
          || (c.input == [] && s.state == Querying && s.input == [])
          || (c.input == [U32Field(RESULT_OK)] && s.state == Initialisation && s.input == [])
          || (c.input == FailureFields(v) && s.state == Invalid && s.input == []))
    case Initialisation =>
      || (Early(v, t) && v == V37 && c.input == [] && s.state == SecurityType
          && s.input == [U8Field(t), ClientInitField])
      || (Early(v, t) && c.input == [] && s.state == Querying && s.input == [ClientInitField])
      || (Early(v, t) && c.input == [] && s.state == Invalid)
      || (c.input == [] && s.state == Initialisation && s.input == [ClientInitField])
      || (c.input == [ServerInitField] && s.state == Normal && s.input == [])
    case Normal => c.input == [] && s.state == Normal && s.input == []
    case Invalid => s.input == [] && s.state !in {SecurityTypes, SecurityResult, Normal}
    case _ => false
  }

  /** Before 3.8 a client that chose None does not wait for a result. */
  predicate Early(v: Version, t: nat) {
    t == NONE && v != V38
  }

  /** What each side has agreed to. */
  ghost predicate Known(c: Side, s: Side, v: Version, t: nat, server: ServerConfig) {
    && (c.state in {SecurityTypes, Security, SecurityResult, Initialisation, Normal} ==> c.version == v)
    && (c.state in {Security, SecurityResult, Initialisation, Normal} ==> c.secType == t && t != INVALID)
    && (s.state in {SecurityType, Security, Querying, Initialisation, Normal} ==> s.version == v)
    && (s.state in {Security, Querying, Initialisation, Normal} ==>
          s.secType == if v == V33 then LegacyTypes(server.secTypes) else t)
    && (s.state in {Querying, Initialisation, Normal} && s.secType != NONE ==> server.passwordOk)
    && (s.state == Querying ==> server.asks)
    && (s.state in {Initialisation, Normal} && server.asks ==> server.accepts)
  }

  /** There is a version and a type for both, and the server lets the client in. */
  predicate Compatible(client: ClientConfig, server: ServerConfig) {
    && !server.offer.Before(3, 3)
    && var t := Chosen(Agreed(client, server), client, server);
       && t != INVALID && (t != NONE ==> server.passwordOk) && (server.asks ==> server.accepts)
  }

  /** A connection can fail although the two sides fit. */
  predicate Hasty(client: ClientConfig, server: ServerConfig)
    requires !server.offer.Before(3, 3)
  {
    server.asks && Early(Agreed(client, server), Chosen(Agreed(client, server), client, server))
  }

  ghost predicate Invariant(s: System, client: ClientConfig, server: ServerConfig) {
    && s.client.output == [] && s.server.output == []
    && if server.offer.Before(3, 3) then
         && s.server.state == ProtocolVersion && s.server.input == []
         && (s.client.state == Invalid
             || (s.client.state == ProtocolVersion && s.client.input == [VersionField(server.offer)]))
       else
         var v := Agreed(client, server);
         var t := Chosen(v, client, server);
         && Joint(s.client, s.server, v, t, server)
         && Known(s.client, s.server, v, t, server)
         && (s.client.state == Invalid || s.server.state == Invalid ==>
               !Compatible(client, server) || Hasty(client, server))
  }

  lemma LegacyOffer(server: ServerConfig, client: ClientConfig)
    ensures var t := LegacyTypes(server.secTypes);
      && t in {INVALID, NONE, VNC_AUTH}
      && (t != INVALID ==> t in server.secTypes)
      && Offered(V33, server) == (if t == INVALID then [] else [t])
      && Chosen(V33, client, server) == if t != INVALID && t in client.secTypes then t else INVALID
  {
    FirstCommonIsFirst(server.secTypes, [NONE, VNC_AUTH]);
    var t := LegacyTypes(server.secTypes);
    if t != INVALID {
      assert [t][1..] == [];
      assert FirstCommon([t], client.secTypes) == if t in client.secTypes then t else FirstCommon([], client.secTypes);
    }
  }

  lemma ListRead(offers: seq<nat>)
    ensures var fields := [U8Field(|offers|)] + U8s(offers);
      && IsList(fields) && Offers(fields) == offers && |fields| == 1 + |offers| && fields[1 + |offers|..] == []
  {
  }

  lemma StartInvariant(client: ClientConfig, server: ServerConfig)
    ensures Invariant(Start(server), client, server)
  {
  }

  ghost predicate ClientOk(s: System, client: ClientConfig, server: ServerConfig) {
    && Invariant(Next(s, ClientActs, client, server), client, server)
    && StepOf(s, ClientActs, client, server).outcome != Misread
  }

  lemma ClientVersionKeeps(s: System, client: ClientConfig, server: ServerConfig)
    requires Invariant(s, client, server) && s.client.state == ProtocolVersion
    ensures ClientOk(s, client, server)
  {
    hide Chosen, Offered, Compatible, Hasty, LegacyTypes;
  }

  lemma ClientRefusedKeeps(s: System, client: ClientConfig, server: ServerConfig)
    requires Invariant(s, client, server) && s.client.state == SecurityTypes && s.client.input != []
    requires Offered(s.client.version, server) == []
    ensures ClientOk(s, client, server)
  {
  }

  lemma ClientLegacyKeeps(s: System, client: ClientConfig, server: ServerConfig)
    requires Invariant(s, client, server) && s.client.state == SecurityTypes && s.client.version == V33
    requires Offered(V33, server) != [] && s.client.input != []
    ensures ClientOk(s, client, server)
  {
    LegacyOffer(server, client);
    if LegacyTypes(server.secTypes) !in client.secTypes {
      LegacyRejected(s, client, server);
    } else if LegacyTypes(server.secTypes) == NONE {
      LegacyNone(s, client, server);
    } else {
      LegacyVnc(s, client, server);
    }
  }

  lemma LegacyRejected(s: System, client: ClientConfig, server: ServerConfig)
    requires Invariant(s, client, server) && s.client.state == SecurityTypes && s.client.version == V33
    requires Offered(V33, server) != [] && s.client.input != [] && LegacyTypes(server.secTypes) !in client.secTypes
    ensures ClientOk(s, client, server)
  {
    LegacyOffer(server, client);
    hide LegacyTypes, FirstCommon, Chosen, Offered;
  }

  lemma LegacyNone(s: System, client: ClientConfig, server: ServerConfig)
    requires Invariant(s, client, server) && s.client.state == SecurityTypes && s.client.version == V33
    requires Offered(V33, server) != [] && s.client.input != []
    requires LegacyTypes(server.secTypes) == NONE && NONE in client.secTypes
    ensures ClientOk(s, client, server)
  {
    LegacyOffer(server, client);
    hide LegacyTypes, FirstCommon, Chosen, Offered, Compatible, Hasty, ClientStep;
    NoneTaken(s.client, client);
    assert s.server.input + [ClientInitField] == [ClientInitField];
  }

  lemma NoneTaken(c: Side, client: ClientConfig)
    requires c.state == SecurityTypes && c.version == V33 && c.input != [] && NONE in client.secTypes
    ensures c.input == [U32Field(NONE)] ==>
              ClientStep(c, client) ==
                Step(c.(state := Initialisation, secType := NONE, input := [], output := c.output + [ClientInitField]),
                     Going)
  {
  }

  lemma LegacyVnc(s: System, client: ClientConfig, server: ServerConfig)
    requires Invariant(s, client, server) && s.client.state == SecurityTypes && s.client.version == V33
    requires Offered(V33, server) != [] && s.client.input != []
    requires LegacyTypes(server.secTypes) == VNC_AUTH && VNC_AUTH in client.secTypes
    ensures ClientOk(s, client, server)
  {
    LegacyOffer(server, client);
    hide LegacyTypes, FirstCommon, Chosen, Offered;
  }

  lemma ClientListKeeps(s: System, client: ClientConfig, server: ServerConfig)
    requires Invariant(s, client, server) && s.client.state == SecurityTypes && s.client.version != V33
    requires Offered(s.client.version, server) != []
    ensures ClientOk(s, client, server)
  {
    ListRead(server.secTypes);
    hide LegacyTypes, FirstCommon, Offers, U8s, IsList;
  }

  lemma ClientSecurityKeeps(s: System, client: ClientConfig, server: ServerConfig)
    requires Invariant(s, client, server) && s.client.state == Security
    ensures ClientOk(s, client, server)
  {
    hide Chosen, Offered, Compatible, Hasty, LegacyTypes;
  }

  lemma ClientResultKeeps(s: System, client: ClientConfig, server: ServerConfig)
    requires Invariant(s, client, server) && s.client.state == SecurityResult
    ensures ClientOk(s, client, server)
  {
    hide Chosen, Offered, Compatible, Hasty, LegacyTypes;
  }

  lemma ClientInitKeeps(s: System, client: ClientConfig, server: ServerConfig)
    requires Invariant(s, client, server) && s.client.state in {Initialisation, Normal, Invalid}
    ensures ClientOk(s, client, server)
  {
    hide Chosen, Offered, Compatible, Hasty, LegacyTypes;
  }

  /** One action of the client. */
  lemma ClientKeeps(s: System, client: ClientConfig, server: ServerConfig)
    requires Invariant(s, client, server) && Sensible(client, server)
    ensures ClientOk(s, client, server)
  {
    hide ClientOk, Invariant;
    JointStates(s, client, server);
    if s.client.state == ProtocolVersion { ClientVersionKeeps(s, client, server); }
    else if s.client.state == Security { ClientSecurityKeeps(s, client, server); }
    else if s.client.state == SecurityResult { ClientResultKeeps(s, client, server); }
    else if s.client.state == SecurityTypes {
      if s.client.input == [] { ClientWaits(s, client, server); }
      else if Offered(s.client.version, server) == [] { ClientRefusedKeeps(s, client, server); }
      else if s.client.version == V33 { ClientLegacyKeeps(s, client, server); }
      else { ClientListKeeps(s, client, server); }
    } else { ClientInitKeeps(s, client, server); }
  }

  lemma ClientWaits(s: System, client: ClientConfig, server: ServerConfig)
    requires Invariant(s, client, server) && s.client.state == SecurityTypes && s.client.input == []
    ensures ClientOk(s, client, server)
  {
    hide Chosen, Offered, Compatible, Hasty, LegacyTypes;
    assert s.server.input + [] == s.server.input;
  }

  lemma JointStates(s: System, client: ClientConfig, server: ServerConfig)
    requires Invariant(s, client, server)
    ensures s.client.state !in {SecurityType, Querying} && s.server.state !in {SecurityTypes, SecurityResult}
  {
    hide Chosen, Offered, Compatible, Hasty, LegacyTypes;
  }

  ghost predicate ServerOk(s: System, client: ClientConfig, server: ServerConfig) {
    && Invariant(Next(s, ServerActs, client, server), client, server)
    && StepOf(s, ServerActs, client, server).outcome != Misread
  }

  lemma ServerVersionKeeps(s: System, client: ClientConfig, server: ServerConfig)
    requires Invariant(s, client, server) && s.server.state == ProtocolVersion && Sensible(client, server)
    ensures ServerOk(s, client, server)
  {
    LegacyOffer(server, client);
    assert s.client.input + [] == s.client.input;
    hide ServerOk, Invariant;
    if server.offer.Before(3, 3) || s.server.input == [] {
      ServerVersionWaits(s, client, server);
    } else if Offered(Agreed(client, server), server) == [] {
      ServerRefuses(s, client, server);
    } else if Agreed(client, server) == V33 {
      ServerLegacyKeeps(s, client, server);
    } else {
      ServerListKeeps(s, client, server);
    }
  }

  lemma ServerVersionWaits(s: System, client: ClientConfig, server: ServerConfig)
    requires Invariant(s, client, server) && s.server.state == ProtocolVersion
    requires server.offer.Before(3, 3) || s.server.input == []
    ensures ServerOk(s, client, server)
  {
    assert s.client.input + [] == s.client.input;
    hide Chosen, Offered, Compatible, Hasty, LegacyTypes;
  }

  lemma ServerRefuses(s: System, client: ClientConfig, server: ServerConfig)
    requires Invariant(s, client, server) && s.server.state == ProtocolVersion && s.server.input != []
    requires !server.offer.Before(3, 3) && Offered(Agreed(client, server), server) == []
    ensures ServerOk(s, client, server)
  {
    LegacyOffer(server, client);
  }

  lemma ServerLegacyKeeps(s: System, client: ClientConfig, server: ServerConfig)
    requires Invariant(s, client, server) && s.server.state == ProtocolVersion && s.server.input != []
    requires !server.offer.Before(3, 3) && Agreed(client, server) == V33 && Offered(V33, server) != []
    ensures ServerOk(s, client, server)
  {
    LegacyOffer(server, client);
    hide LegacyTypes, FirstCommon, U8s, Chosen, Offered;
  }

  lemma ServerListKeeps(s: System, client: ClientConfig, server: ServerConfig)
    requires Invariant(s, client, server) && s.server.state == ProtocolVersion && s.server.input != []
    requires !server.offer.Before(3, 3) && Agreed(client, server) != V33
    requires Offered(Agreed(client, server), server) != []
    ensures ServerOk(s, client, server)
  {
    hide LegacyTypes, FirstCommon, U8s, Compatible, Hasty;
  }

  lemma ServerTypeKeeps(s: System, client: ClientConfig, server: ServerConfig)
    requires Invariant(s, client, server) && s.server.state == SecurityType && Sensible(client, server)
    ensures ServerOk(s, client, server)
  {
    if s.server.input == [] {
      TypeAwaited(s, client, server);
    } else {
      TypeSent(s, client, server);
      hide Invariant, ServerOk, Chosen;
      if Chosen(Agreed(client, server), client, server) == NONE {
        TypeNone(s, client, server);
      } else {
        TypeExchanged(s, client, server);
      }
    }
  }

  lemma TypeAwaited(s: System, client: ClientConfig, server: ServerConfig)
    requires Invariant(s, client, server) && s.server.state == SecurityType && s.server.input == []
    ensures ServerOk(s, client, server)
  {
    assert s.client.input + [] == s.client.input;
    hide Chosen, Offered, Compatible, Hasty, LegacyTypes, FirstCommon, U8s;
  }

  /** The type a client has sent is one on offer. */
  lemma TypeSent(s: System, client: ClientConfig, server: ServerConfig)
    requires Invariant(s, client, server) && s.server.state == SecurityType && Sensible(client, server)
    requires s.server.input != []
    ensures !server.offer.Before(3, 3) && Agreed(client, server) != V33
    ensures var t := Chosen(Agreed(client, server), client, server);
      t != INVALID && t in server.secTypes && s.server.input[0] == U8Field(t)
  {
    FirstCommonIsFirst(Offered(Agreed(client, server), server), client.secTypes);
    hide LegacyTypes, FirstCommon, U8s, Compatible, Hasty;
  }

  lemma TypeNone(s: System, client: ClientConfig, server: ServerConfig)
    requires Invariant(s, client, server) && s.server.state == SecurityType && Sensible(client, server)
    requires !server.offer.Before(3, 3) && Agreed(client, server) != V33
    requires Chosen(Agreed(client, server), client, server) == NONE
    requires s.server.input != [] && s.server.input[0] == U8Field(NONE) && NONE in server.secTypes
    ensures ServerOk(s, client, server)
  {
    assert s.client.input + [] == s.client.input;
    hide Chosen, Offered, LegacyTypes, FirstCommon, U8s;
  }

  lemma TypeExchanged(s: System, client: ClientConfig, server: ServerConfig)
    requires Invariant(s, client, server) && s.server.state == SecurityType && Sensible(client, server)
    requires !server.offer.Before(3, 3) && Agreed(client, server) != V33
    requires var t := Chosen(Agreed(client, server), client, server);
      t !in {INVALID, NONE} && t in server.secTypes && s.server.input != [] && s.server.input[0] == U8Field(t)
    ensures ServerOk(s, client, server)
  {
    assert s.client.input + [] == s.client.input;
    hide Chosen, Offered, LegacyTypes, FirstCommon, U8s;
  }

  lemma ServerResponseKeeps(s: System, client: ClientConfig, server: ServerConfig)
    requires Invariant(s, client, server) && s.server.state == Security
    ensures ServerOk(s, client, server)
  {
    if s.server.input == [] {
      ServerWaits(s, client, server);
    } else {
      ServerResponds(s, client, server);
    }
  }

  lemma ServerWaits(s: System, client: ClientConfig, server: ServerConfig)
    requires Invariant(s, client, server) && s.server.state == Security && s.server.input == []
    ensures ServerOk(s, client, server)
  {
    NothingHeldBack(s, client, server);
    assert s.client.input + [] == s.client.input;
    hide Joint, Known;
  }

  lemma ServerResponds(s: System, client: ClientConfig, server: ServerConfig)
    requires Invariant(s, client, server) && s.server.state == Security && s.server.input != []
    ensures ServerOk(s, client, server)
  {
    if !server.passwordOk {
      ResponseRefused(s, client, server);
    } else if server.asks {
      ResponseAsks(s, client, server);
    } else {
      ResponseAccepted(s, client, server);
    }
  }

  lemma RespondsWhere(s: System, client: ClientConfig, server: ServerConfig)
    requires Invariant(s, client, server) && s.server.state == Security && s.server.input != []
    ensures !server.offer.Before(3, 3) && s.client.state == SecurityResult
    ensures s.server.input == [ResponseField] && s.client.input == [] && s.client.input + [] == []
    ensures var v := Agreed(client, server);
      var t := Chosen(v, client, server);
      s.client.version == s.server.version == v && s.client.secType == s.server.secType == t && t !in {NONE, INVALID}
  {
    LegacyOffer(server, client);
    hide LegacyTypes, FirstCommon, U8s;
  }

  lemma ResponseRefused(s: System, client: ClientConfig, server: ServerConfig)
    requires Invariant(s, client, server) && s.server.state == Security && s.server.input != [] && !server.passwordOk
    ensures ServerOk(s, client, server)
  {
    RespondsWhere(s, client, server);
    hide LegacyTypes, FirstCommon, U8s, Offered, Chosen, Agreed;
  }

  lemma ResponseAsks(s: System, client: ClientConfig, server: ServerConfig)
    requires Invariant(s, client, server) && s.server.state == Security && s.server.input != [] && server.passwordOk
    requires server.asks
    ensures ServerOk(s, client, server)
  {
    RespondsWhere(s, client, server);
    LegacyOffer(server, client);
    hide LegacyTypes, FirstCommon, U8s, Offered, Agreed;
  }

  lemma ResponseAccepted(s: System, client: ClientConfig, server: ServerConfig)
    requires Invariant(s, client, server) && s.server.state == Security && s.server.input != [] && server.passwordOk
    requires !server.asks
    ensures ServerOk(s, client, server)
  {
    RespondsWhere(s, client, server);
    LegacyOffer(server, client);
    hide LegacyTypes, FirstCommon, U8s, Offered, Agreed;
  }

  lemma ServerQueryKeeps(s: System, client: ClientConfig, server: ServerConfig)
    requires Invariant(s, client, server) && s.server.state == Querying
    ensures ServerOk(s, client, server)
  {
    assert s.client.input + [] == s.client.input;
    hide LegacyTypes, FirstCommon, U8s, Offered, Compatible;
  }

  lemma UserAnswersKeeps(s: System, client: ClientConfig, server: ServerConfig)
    requires Invariant(s, client, server) && s.server.state == Querying
    ensures Invariant(Next(s, UserAnswers, client, server), client, server)
  {
    hide Invariant, Next;
    if s.client.state == SecurityResult {
      ToldOfAnswer(s, client, server);
    } else {
      NotToldOfAnswer(s, client, server);
    }
  }

  /** Where a client can be while the server asks its user. */
  lemma AskedWhere(s: System, client: ClientConfig, server: ServerConfig)
    requires Invariant(s, client, server) && s.server.state == Querying
    ensures !server.offer.Before(3, 3)
    ensures s.client.state in {SecurityTypes, SecurityResult, Initialisation, Invalid}
    ensures var v := Agreed(client, server);
      && s.server.version == v
      && (s.client.state == SecurityResult ==> s.client.input == [] && (Chosen(v, client, server) != NONE || v == V38))
      && (s.client.state in {SecurityTypes, Initialisation} ==>
          s.server.version.Before(3, 8) && s.server.secType == NONE)
  {
    LegacyOffer(server, client);
    hide LegacyTypes, FirstCommon, U8s;
  }

  lemma ToldOfAnswer(s: System, client: ClientConfig, server: ServerConfig)
    requires Invariant(s, client, server) && s.server.state == Querying && s.client.state == SecurityResult
    ensures Invariant(Next(s, UserAnswers, client, server), client, server)
  {
    AskedWhere(s, client, server);
    LegacyOffer(server, client);
    hide LegacyTypes, FirstCommon, U8s, ServerStep, ClientStep, Offered, Chosen, Agreed;
  }

  lemma NotToldOfAnswer(s: System, client: ClientConfig, server: ServerConfig)
    requires Invariant(s, client, server) && s.server.state == Querying && s.client.state != SecurityResult
    ensures Invariant(Next(s, UserAnswers, client, server), client, server)
  {
    AskedWhere(s, client, server);
    if s.client.state == Invalid {
      AnsweredAfterFailure(s, client, server);
    } else {
      AnsweredSilently(s, client, server);
    }
  }

  lemma AnsweredAfterFailure(s: System, client: ClientConfig, server: ServerConfig)
    requires Invariant(s, client, server) && s.server.state == Querying && s.client.state == Invalid
    ensures Invariant(Next(s, UserAnswers, client, server), client, server)
  {
    AskedWhere(s, client, server);
    hide LegacyTypes, FirstCommon, U8s, ServerStep, ClientStep, Offered, Chosen, Agreed;
  }

  lemma AnsweredSilently(s: System, client: ClientConfig, server: ServerConfig)
    requires Invariant(s, client, server) && s.server.state == Querying
    requires s.client.state in {SecurityTypes, Initialisation}
    ensures Invariant(Next(s, UserAnswers, client, server), client, server)
  {
    AskedWhere(s, client, server);
    LegacyOffer(server, client);
    assert s.client.input + [] == s.client.input;
    hide LegacyTypes, FirstCommon, U8s, ServerStep, ClientStep, Offered, Chosen, Agreed;
  }

  lemma ServerInitKeeps(s: System, client: ClientConfig, server: ServerConfig)
    requires Invariant(s, client, server) && s.server.state in {Initialisation, Normal, Invalid}
    ensures ServerOk(s, client, server)
  {
    assert s.client.input + [] == s.client.input;
    hide Chosen, Offered, Compatible, Hasty, LegacyTypes;
  }

  /** Nothing is ever misread, whoever acts next. */
  lemma StepKeepsInvariant(s: System, e: Event, client: ClientConfig, server: ServerConfig)
    requires Invariant(s, client, server) && Enabled(s, e) && Sensible(client, server)
    ensures Invariant(Next(s, e, client, server), client, server)
    ensures StepOf(s, e, client, server).outcome != Misread
  {
    JointStates(s, client, server);
    hide Invariant, ClientStep, ServerStep;
    match e {
      case ClientActs => ClientKeeps(s, client, server);
      case ServerActs =>
        if s.server.state == ProtocolVersion { ServerVersionKeeps(s, client, server); }
        else if s.server.state == SecurityType { ServerTypeKeeps(s, client, server); }
        else if s.server.state == Security { ServerResponseKeeps(s, client, server); }
        else if s.server.state == Querying { ServerQueryKeeps(s, client, server); }
        else { ServerInitKeeps(s, client, server); }
      case UserAnswers => UserAnswersKeeps(s, client, server);
    }
  }

  // ---------------------------------------------------------------- all runs

  lemma {:induction false} RunInvariant(states: seq<System>, events: seq<Event>, client: ClientConfig,
                                        server: ServerConfig, n: nat)
    requires Run(states, events, client, server) && n < |states| && Sensible(client, server)
    ensures Invariant(states[n], client, server)
    decreases n
  {
    hide Invariant, Next, Enabled, Start, StepOf;
    if n == 0 {
      StartInvariant(client, server);
    } else {
      RunInvariant(states, events, client, server, n - 1);
      StepKeepsInvariant(states[n - 1], events[n - 1], client, server);
    }
  }

  lemma ReachableInvariant(s: System, client: ClientConfig, server: ServerConfig)
    requires Reachable(s, client, server) && Sensible(client, server)
    ensures Invariant(s, client, server)
  {
    hide Invariant, Next, Enabled, Start;
    var states, events :| Run(states, events, client, server) && states[|states| - 1] == s;
    RunInvariant(states, events, client, server, |states| - 1);
  }

  /** Every field read is of the kind that was written. */
  lemma NothingMisread(s: System, e: Event, client: ClientConfig, server: ServerConfig)
    requires Reachable(s, client, server) && Sensible(client, server) && Enabled(s, e)
    ensures StepOf(s, e, client, server).outcome != Misread
  {
    hide Invariant, Reachable, StepOf, Next;
    ReachableInvariant(s, client, server);
    StepKeepsInvariant(s, e, client, server);
  }

  /** Once both are past the security phase they use the same version and type,
      and the type is the first of the server's that the client enables. */
  lemma BothAgree(s: System, client: ClientConfig, server: ServerConfig)
    requires Reachable(s, client, server) && Sensible(client, server)
    requires s.client.state in {Initialisation, Normal} && s.server.state in {Initialisation, Normal}
    ensures s.client.version == s.server.version && s.client.version in {V33, V37, V38}
    ensures s.client.secType == s.server.secType && s.client.secType in client.secTypes
    ensures s.client.version != V33 ==> IsFirst(s.client.secType, server.secTypes, client.secTypes)
    ensures s.client.version == V33 ==> IsFirst(s.client.secType, server.secTypes, [NONE, VNC_AUTH])
  {
    ReachableInvariant(s, client, server);
    hide Reachable, Joint;
    var v := Agreed(client, server);
    LegacyOffer(server, client);
    FirstCommonIsFirst(server.secTypes, [NONE, VNC_AUTH]);
    FirstCommonIsFirst(server.secTypes, client.secTypes);
  }

  /** Until both are done or one has failed, somebody can act. */
  lemma NeverStuck(s: System, client: ClientConfig, server: ServerConfig)
    requires Reachable(s, client, server) && Sensible(client, server)
    requires s.client.state != Invalid && s.server.state != Invalid
    requires !(s.client.state == Normal && s.server.state == Normal)
    ensures
      || Next(s, ClientActs, client, server) != s
      || Next(s, ServerActs, client, server) != s
      || s.server.state == Querying
  {
    ReachableInvariant(s, client, server);
    hide Reachable;
    if s.client.input != [] && s.client.state == SecurityTypes {
      ListedCanAct(s, client, server);
    } else {
      InputOrQuery(s, client, server);
      hide Invariant;
      if s.client.input != [] {
        ClientCanAct(s, client, server);
      } else if s.server.state != Querying {
        ServerCanAct(s, client, server);
      }
    }
  }

  lemma ClientCanAct(s: System, client: ClientConfig, server: ServerConfig)
    requires s.client.input != []
    requires s.client.state in {ProtocolVersion, Security, SecurityResult, Initialisation}
    requires s.client.state == SecurityResult ==> s.client.input == [U32Field(RESULT_OK)]
    requires s.client.state == ProtocolVersion ==> s.client.input == [VersionField(server.offer)]
    requires s.client.state == Security ==> s.client.input == [ChallengeField]
    requires s.client.state == Initialisation ==> s.client.input == [ServerInitField]
    ensures Next(s, ClientActs, client, server) != s
  {
    hide Chosen, Compatible, Hasty, LegacyTypes, FirstCommon, U8s, Offers, IsList;
  }

  lemma ServerCanAct(s: System, client: ClientConfig, server: ServerConfig)
    requires s.server.input != [] && s.server.state in {ProtocolVersion, SecurityType, Security, Initialisation}
    requires match s.server.state
      case ProtocolVersion => s.server.input[0].VersionField?
      case SecurityType => s.server.input[0].U8Field?
      case Security => s.server.input[0].ResponseField?
      case _ => s.server.input[0].ClientInitField?
    ensures Next(s, ServerActs, client, server) != s
  {
    hide Chosen, Compatible, Hasty, LegacyTypes, FirstCommon, U8s, Offers, IsList;
  }

  /** A list to choose from that has all arrived. */
  predicate ListArrived(c: Side) {
    && c.input != [] && (if c.version == V33 then c.input[0].U32Field? else c.input[0].U8Field?)
    && if c.input[0].value == 0 then |c.input| > 1 && c.input[1].ReasonField?
       else c.version == V33 || (c.input[0].value < |c.input| && IsList(c.input))
  }

  lemma InputListed(s: System, client: ClientConfig, server: ServerConfig)
    requires Invariant(s, client, server) && s.client.state == SecurityTypes && s.client.input != []
    ensures ListArrived(s.client)
  {
    if !server.offer.Before(3, 3) { ListRead(Offered(Agreed(client, server), server)); }
    hide Chosen, Offered, Compatible, Hasty, LegacyTypes, FirstCommon, U8s, Offers, IsList;
  }

  lemma ListedCanAct(s: System, client: ClientConfig, server: ServerConfig)
    requires Invariant(s, client, server) && s.client.state == SecurityTypes && s.client.input != []
    ensures Next(s, ClientActs, client, server) != s
  {
    InputListed(s, client, server);
    hide Invariant, Chosen, Compatible, Hasty, LegacyTypes, FirstCommon, U8s, Offers, IsList;
  }

  /** Apart from the list, one field is enough to act on. */
  lemma InputOrQuery(s: System, client: ClientConfig, server: ServerConfig)
    requires Invariant(s, client, server) && s.client.state != Invalid && s.server.state != Invalid
    requires !(s.client.state == Normal && s.server.state == Normal)
    ensures s.client.input != [] || s.server.input != [] || s.server.state == Querying
    ensures s.client.input != [] && s.client.state == SecurityResult ==> s.client.input == [U32Field(RESULT_OK)]
    ensures s.client.input != [] ==>
              s.client.state in {ProtocolVersion, SecurityTypes, Security, SecurityResult, Initialisation}
    ensures s.client.input != [] && s.client.state == ProtocolVersion ==> s.client.input == [VersionField(server.offer)]
    ensures s.client.input != [] && s.client.state == Security ==> s.client.input == [ChallengeField]
    ensures s.client.input != [] && s.client.state == Initialisation ==> s.client.input == [ServerInitField]
    ensures s.client.input == [] && s.server.input != [] ==>
      match s.server.state
      case ProtocolVersion => s.server.input[0].VersionField?
      case SecurityType => s.server.input[0].U8Field?
      case Security => s.server.input[0].ResponseField?
      case Initialisation => s.server.input[0].ClientInitField?
      case state => state == Querying
  {
    hide Chosen, Offered, Compatible, Hasty, LegacyTypes, FirstCommon, U8s, Offers, IsList;
  }

  // ------------------------------------------------------------- termination

  /** How much of the handshake is ahead of a side. */
  function Rank(state: State): nat {
    match state
    case ProtocolVersion => 6
    case SecurityTypes => 5
    case SecurityType => 5
    case Security => 4
    case SecurityResult => 3
    case Querying => 3
    case Initialisation => 2
    case Normal => 1
    case Invalid => 0
  }

  function RankOf(s: System): nat {
    Rank(s.client.state) + Rank(s.server.state)
  }

  /** From a side in state `from` to what a step makes of it. */
  predicate Advances(c: Side, step: Step, from: State) {
    step.outcome != Misread ==> step.side == c || Rank(step.side.state) < Rank(from)
  }

  lemma ResultAdvances(c: Side)
    requires c.state in {SecurityTypes, Security, SecurityResult}
    ensures Advances(c, ClientResult(c), c.state)
    ensures ClientResult(c).outcome != Misread ==> Rank(ClientResult(c).side.state) <= 3
  {
  }

  lemma SecurityAdvances(c: Side)
    requires c.state in {SecurityTypes, Security}
    ensures Advances(c, ClientSecurity(c), c.state)
    ensures ClientSecurity(c).outcome != Misread ==> Rank(ClientSecurity(c).side.state) <= 4
  {
    var c1 := c.(state := Security);
    ResultAdvances(c1);
    if c.input != [] { ResultAdvances(Took(c1, 1).(output := c.output + [ResponseField])); }
    hide ClientResult;
  }

  lemma TypesAdvances(c: Side, config: ClientConfig)
    requires c.state == SecurityTypes
    ensures Advances(c, ClientTypes(c, config), SecurityTypes)
  {
    hide FirstCommon, Offers, ClientSecurity;
    if c.input != [] {
      if c.version == V33 {
        if c.input[0].U32Field? { SecurityAdvances(Took(c, 1).(secType := c.input[0].value)); }
      } else if IsList(c.input) {
        var offers := Offers(c.input);
        var t := FirstCommon(offers, config.secTypes);
        SecurityAdvances(Took(c, 1 + |offers|).(secType := t, output := c.output + [U8Field(t)]));
      }
    }
  }

  lemma ClientAdvances(c: Side, config: ClientConfig)
    ensures Advances(c, ClientStep(c, config), c.state)
  {
    hide ClientTypes, ClientSecurity, ClientResult;
    match c.state {
      case SecurityTypes => TypesAdvances(c, config);
      case Security => SecurityAdvances(c);
      case SecurityResult => ResultAdvances(c);
      case _ =>
    }
  }

  lemma ServerAdvances(s: Side, config: ServerConfig)
    ensures Advances(s, ServerStep(s, config), s.state)
  {
    hide FirstCommon, LegacyTypes, U8s, Official;
  }

  /** Every step that does something brings the end closer. */
  lemma StepAdvances(s: System, e: Event, client: ClientConfig, server: ServerConfig)
    requires Invariant(s, client, server) && Enabled(s, e) && Sensible(client, server)
    ensures Next(s, e, client, server) == s || RankOf(Next(s, e, client, server)) < RankOf(s)
  {
    StepKeepsInvariant(s, e, client, server);
    NothingHeldBack(s, client, server);
    hide Invariant, ClientStep, ServerStep;
    match e {
      case ClientActs => ClientAdvances(s.client, client);
      case ServerActs => ServerAdvances(s.server, server);
      case UserAnswers =>
    }
    assert s.client.input + [] == s.client.input && s.server.input + [] == s.server.input;
  }

  lemma NothingHeldBack(s: System, client: ClientConfig, server: ServerConfig)
    requires Invariant(s, client, server)
    ensures s.client.output == [] && s.server.output == []
  {
    hide Joint, Known;
  }

  /** However the two sides take turns, after twelve steps there is nothing left to do. */
  lemma {:induction false} RunBounded(states: seq<System>, events: seq<Event>, client: ClientConfig,
                                      server: ServerConfig, n: nat)
    requires Run(states, events, client, server) && Sensible(client, server) && n < |states|
    requires forall k :: 0 <= k < n ==> states[k + 1] != states[k]
    ensures RankOf(states[n]) + n <= 12
    decreases n
  {
    hide Invariant, Next, Enabled;
    if n > 0 {
      RunBounded(states, events, client, server, n - 1);
      RunInvariant(states, events, client, server, n - 1);
      StepAdvances(states[n - 1], events[n - 1], client, server);
    }
  }

  /** Nobody can do anything any more. */
  ghost predicate Settled(s: System, client: ClientConfig, server: ServerConfig) {
    forall e :: Enabled(s, e) ==> Next(s, e, client, server) == s
  }

  /** Sides that fit end in the normal state, both of them, unless the client is hasty. */
  lemma FittingSidesFinish(s: System, client: ClientConfig, server: ServerConfig)
    requires Reachable(s, client, server) && Sensible(client, server) && Settled(s, client, server)
    requires Compatible(client, server) && !Hasty(client, server)
    ensures s.client.state == Normal && s.server.state == Normal
  {
    FittingSidesDoNotFail(s, client, server);
    hide Next, Reachable, Compatible, Hasty, Enabled;
    if !(s.client.state == Normal && s.server.state == Normal) {
      NotSettled(s, client, server);
    }
  }

  lemma NotSettled(s: System, client: ClientConfig, server: ServerConfig)
    requires Reachable(s, client, server) && Sensible(client, server)
    requires s.client.state != Invalid && s.server.state != Invalid
    requires !(s.client.state == Normal && s.server.state == Normal)
    ensures !Settled(s, client, server)
  {
    NeverStuck(s, client, server);
    AnswerMoves(s, client, server);
    hide Next, Reachable;
    if Next(s, ClientActs, client, server) != s {
      assert Enabled(s, ClientActs);
    } else if Next(s, ServerActs, client, server) != s {
      assert Enabled(s, ServerActs);
    } else {
      assert Enabled(s, UserAnswers);
    }
  }

  lemma AnswerMoves(s: System, client: ClientConfig, server: ServerConfig)
    ensures s.server.state == Querying ==> Next(s, UserAnswers, client, server) != s
  {
  }

  /** Sides that fit do not fail, unless the client is hasty. */
  lemma FittingSidesDoNotFail(s: System, client: ClientConfig, server: ServerConfig)
    requires Reachable(s, client, server) && Sensible(client, server)
    requires Compatible(client, server) && !Hasty(client, server)
    ensures s.client.state != Invalid && s.server.state != Invalid
  {
    hide Reachable, Joint, Hasty;
    ReachableInvariant(s, client, server);
  }

  /** Sides that do not fit never finish. */
  lemma OthersDoNotFinish(s: System, client: ClientConfig, server: ServerConfig)
    requires Reachable(s, client, server) && Sensible(client, server) && !Compatible(client, server)
    ensures !(s.client.state == Normal && s.server.state == Normal)
  {
    ReachableInvariant(s, client, server);
    LegacyOffer(server, client);
    hide Reachable, Joint;
  }

  lemma Reach(s: System, e: Event, client: ClientConfig, server: ServerConfig) returns (s': System)
    requires Reachable(s, client, server) && Enabled(s, e)
    ensures s' == Next(s, e, client, server) && Reachable(s', client, server)
  {
    hide Enabled, Next, Start;
    s' := Next(s, e, client, server);
    var states, events :| Run(states, events, client, server) && states[|states| - 1] == s;
    assert Run(states + [s'], events + [e], client, server);
  }

  /** Both versions sent: the client waits for types, the server has the version. */
  function VersionSent(server: ServerConfig, v: Version): System {
    System(Side(SecurityTypes, v, INVALID, [], []), Side(ProtocolVersion, server.offer, INVALID, [VersionField(v)], []))
  }

  lemma SendsVersion(client: ClientConfig, server: ServerConfig)
    requires !server.offer.Before(3, 3)
    ensures Next(Start(server), ClientActs, client, server) == VersionSent(server, Agreed(client, server))
  {
    assert [] + [VersionField(Agreed(client, server))] == [VersionField(Agreed(client, server))];
  }

  /** The client is done, the user is being asked, and ClientInit is there. */
  function TooEarly(v: Version): System {
    System(Side(Initialisation, v, NONE, [], []), Side(Querying, v, NONE, [ClientInitField], []))
  }

  lemma LegacyTooEarly(client: ClientConfig, server: ServerConfig) returns (s: System)
    requires Sensible(client, server) && Compatible(client, server) && Hasty(client, server)
    requires Agreed(client, server) == V33 && Reachable(VersionSent(server, V33), client, server)
    ensures s == TooEarly(V33) && Reachable(s, client, server)
  {
    LegacyOffer(server, client);
    hide Reachable, FirstCommon, LegacyTypes, IsList, Offers, U8s;
    s := Reach(VersionSent(server, V33), ServerActs, client, server);
    s := Reach(s, ClientActs, client, server);
  }

  function Listed(server: ServerConfig): System {
    System(Side(SecurityTypes, V37, INVALID, [U8Field(|server.secTypes|)] + U8s(server.secTypes), []),
           Side(SecurityType, V37, INVALID, [], []))
  }

  function ChosenEarly(): System {
    System(Side(Initialisation, V37, NONE, [], []),
           Side(SecurityType, V37, INVALID, [U8Field(NONE), ClientInitField], []))
  }

  lemma ListTaken(client: ClientConfig, server: ServerConfig)
    requires server.secTypes != [] && FirstCommon(server.secTypes, client.secTypes) == NONE
    ensures Next(Listed(server), ClientActs, client, server) == ChosenEarly()
  {
    ListRead(server.secTypes);
    hide FirstCommon, IsList, Offers, U8s;
    assert [] + [U8Field(NONE)] + [ClientInitField] == [U8Field(NONE), ClientInitField];
  }

  lemma ListTooEarly(client: ClientConfig, server: ServerConfig) returns (s: System)
    requires Sensible(client, server) && Compatible(client, server) && Hasty(client, server)
    requires Agreed(client, server) == V37 && Reachable(VersionSent(server, V37), client, server)
    ensures s == TooEarly(V37) && Reachable(s, client, server)
  {
    FirstCommonIsFirst(server.secTypes, client.secTypes);
    hide Reachable, FirstCommon, LegacyTypes, U8s;
    ListTaken(client, server);
    hide ClientStep;
    s := Reach(VersionSent(server, V37), ServerActs, client, server);
    assert s == Listed(server);
    s := Reach(s, ClientActs, client, server);
    assert [U8Field(NONE), ClientInitField][1..] == [ClientInitField];
    s := Reach(s, ServerActs, client, server);
  }

  /** A client that chose None before 3.8 sends its ClientInit at once; a server
      that is still asking its user takes that for an error. So two sides that fit
      can fail, whatever the user answers. */
  lemma HastyCanFail(client: ClientConfig, server: ServerConfig) returns (s: System)
    requires Sensible(client, server) && Compatible(client, server) && Hasty(client, server)
    ensures Reachable(s, client, server)
    ensures s.client.state == Initialisation && s.server.state == Invalid
  {
    var v := Agreed(client, server);
    assert Run([Start(server)], [], client, server);
    SendsVersion(client, server);
    hide Reachable, Start, Compatible;
    s := Reach(Start(server), ClientActs, client, server);
    if v == V33 { s := LegacyTooEarly(client, server); } else { s := ListTooEarly(client, server); }
    s := Reach(s, ServerActs, client, server);
  }
}
