/** CConnection and SConnection: the handshake as the objects that run it. */
module Connections {
  import opened Handshakes

  lemma {:induction false} FirstCommonAppend(offers: seq<nat>, more: nat, enabled: seq<nat>)
    requires INVALID !in enabled
    ensures FirstCommon(offers + [more], enabled) ==
      var t := FirstCommon(offers, enabled); if t != INVALID then t else if more in enabled then more else INVALID
  {
    if offers == [] {
      assert offers + [more] == [more] && [more][1..] == [];
    } else {
      assert (offers + [more])[1..] == offers[1..] + [more];
      FirstCommonAppend(offers[1..], more, enabled);
    }
  }

  /** Only a client before 3.8 that chose type 1, None, is sent no result. */
  predicate ResultDue(version: Version, secType: nat) {
    NoNewer(Version(3, 8), version) || secType != 1
  }

  /** A failure known to the protocol, 1 or 2, comes with a reason since 3.8. */
  predicate ReasonDue(version: Version, result: Field) {
    NoNewer(Version(3, 8), version) && result in {U32Field(1), U32Field(2)}
  }

  /** A result that is neither a success nor one whose reason is still missing. */
  predicate FailureThere(version: Version, input: seq<Field>) {
    && input != [] && input[0].U32Field? && input[0].value != 0
    && (ReasonDue(version, input[0]) ==> |input| > 1 && input[1].ReasonField?)
  }

  /** What a type in a 3.3 server's message leads to. */
  lemma LegacyTypeMeans(c: Side, config: ClientConfig)
    requires c.version == Version(3, 3) && c.input != [] && c.input[0].U32Field?
    ensures var t, step := c.input[0].value, ClientTypes(c, config);
      && (t == 0 ==> step.outcome != Going && step.side.secType == c.secType && step.side.output == c.output)
      && (t == 0 && step.outcome == Failed ==>
          |c.input| > 1 && c.input[1].ReasonField? && step.side.input == c.input[2..])
      && (t != 0 && !(t in {1, 2} && t in config.secTypes) ==>
            step.outcome == Failed && step.side == c.(state := Invalid, input := c.input[1..]))
      && (t in {1, 2} && t in config.secTypes ==>
            step == ClientSecurity(c.(secType := t, input := c.input[1..])))
  {
    hide ClientSecurity;
  }

  /** None of the listed types is enabled. */
  predicate NonePicked(list: seq<Field>, enabled: seq<nat>)
    requires IsList(list)
  {
    forall k :: 1 <= k <= list[0].value ==> list[k].value !in enabled
  }

  /** t is enabled, and in the list no enabled type comes before it. */
  ghost predicate PickedFirst(t: nat, list: seq<Field>, enabled: seq<nat>)
    requires IsList(list)
  {
    && t in enabled
    && exists k :: 1 <= k <= list[0].value && list[k].value == t && forall j :: 1 <= j < k ==> list[j].value !in enabled
  }

  lemma FirstIsPicked(list: seq<Field>, enabled: seq<nat>)
    requires IsList(list) && INVALID !in enabled
    ensures var t := FirstCommon(Offers(list), enabled);
      if NonePicked(list, enabled) then t == 0 else t != 0 && PickedFirst(t, list, enabled)
  {
    var offers := Offers(list);
    FirstCommonIsFirst(offers, enabled);
    var t := FirstCommon(offers, enabled);
    hide FirstCommon;
    if t != INVALID {
      var k :| 0 <= k < |offers| && offers[k] == t && forall j :: 0 <= j < k ==> offers[j] !in enabled;
      assert list[k + 1].value == t;
      forall j | 1 <= j < k + 1 ensures list[j].value !in enabled {
        assert offers[j - 1] !in enabled;
      }
    } else {
      forall k | 1 <= k <= list[0].value ensures list[k].value !in enabled {
        assert offers[k - 1] in offers;
      }
    }
  }

  /** The list a server sends: its length and then its types in their order. */
  lemma ListSent(out: seq<Field>, types: seq<nat>)
    ensures var sent := out + [U8Field(|types|)] + U8s(types);
      && |sent| == |out| + 1 + |types| && sent[|out|] == U8Field(|types|)
      && forall i :: 0 <= i < |types| ==> sent[|out| + 1 + i] == U8Field(types[i])
  {
  }

  /** What the list of a newer server leads to. */
  lemma TypeListMeans(c: Side, config: ClientConfig)
    requires c.version != Version(3, 3) && c.input != [] && c.input[0].U8Field? && INVALID !in config.secTypes
    ensures var step := ClientTypes(c, config);
      && (c.input[0].value == 0 ==>
            step.outcome != Going && step.side.secType == c.secType && step.side.output == c.output)
      && (c.input[0].value != 0 && IsList(c.input) ==>
            var rest := c.input[1 + c.input[0].value..];
            if NonePicked(c.input, config.secTypes) then
              step.outcome == Failed && step.side == c.(state := Invalid, input := rest)
            else
              exists t :: PickedFirst(t, c.input, config.secTypes)
                && step == ClientSecurity(c.(secType := t, input := rest, output := c.output + [U8Field(t)])))
  {
    if c.input[0].value != 0 && IsList(c.input) {
      FirstIsPicked(c.input, config.secTypes);
    }
    hide ClientSecurity, FirstCommon, NonePicked, PickedFirst, Offers;
  }

  /** What a version from a client leads to. */
  lemma VersionMeans(s: Side, config: ServerConfig)
    requires s.input != [] && s.input[0].VersionField?
    ensures var step := ServerVersion(s, config);
      var asked := s.input[0].version;
      && step.outcome in {Going, Failed} && step.side.input == s.input[1..]
      && |step.side.output| > |s.output| && step.side.output[..|s.output|] == s.output
      && (step.outcome == Going ==>
            && asked.major == 3
                 && (if asked.minor < 3 then step.side.version == Version(3, 3) else Newest(step.side.version, asked))
            && (if step.side.version == Version(3, 3)
                then step.side.output[|s.output|] == U32Field(LegacyTypes(config.secTypes))
                  && step.side.secType in config.secTypes
                else step.side.output == s.output + [U8Field(|config.secTypes|)] + U8s(config.secTypes)
                     && step.side.state == SecurityType))
  {
    FirstCommonIsFirst(config.secTypes, [NONE, VNC_AUTH]);
    hide FirstCommon, U8s, Newest;
  }

  /** What a type from a client leads to. */
  lemma TypeMeans(s: Side, config: ServerConfig)
    requires s.input != [] && s.input[0].U8Field?
    ensures var step := ServerType(s, config);
      if s.input[0].value in config.secTypes then
        && step.outcome == Going && step.side.secType == s.input[0].value && step.side.input == s.input[1..]
        && (step.side.secType != 1 ==>
            step.side.state == Security && step.side.output == s.output + [ChallengeField])
        && (step.side.secType == 1 ==> step.side.state in {Querying, Initialisation})
      else
        step.outcome == Failed && step.side == s.(state := Invalid, input := s.input[1..])
  {
  }

  // ----------------------------------------------------------------- client

  class CConnection {
    var state: State
    var version: Version
    var secType: nat
    var input: seq<Field>
    var output: seq<Field>
    const useProtocol3_3: bool
    const secTypes: seq<nat>

    ghost function Now(): Side
      reads this
    {
      Side(state, version, secType, input, output)
    }

    ghost function Config(): ClientConfig {
      ClientConfig(useProtocol3_3, secTypes)
    }

    constructor (useProtocol3_3: bool, secTypes: seq<nat>)
      ensures Config() == ClientConfig(useProtocol3_3, secTypes)
      ensures Now() == Side(ProtocolVersion, Version(0, 0), INVALID, [], [])
    {
      this.useProtocol3_3 := useProtocol3_3;
      this.secTypes := secTypes;
      state, version, secType := ProtocolVersion, Version(0, 0), INVALID;
      input, output := [], [];
    }

    method ProcessMsg() returns (outcome: Outcome)
      requires INVALID !in secTypes
      modifies this
      ensures Step(Now(), outcome) == ClientStep(old(Now()), Config())
    {
      hide ClientVersion, ClientTypes, ClientSecurity, ClientResult, Handshakes.ClientInit;
      match state {
        case ProtocolVersion => outcome := ProcessVersionMsg();
        case SecurityTypes => outcome := ProcessSecurityTypesMsg();
        case Security => outcome := ProcessSecurityMsg();
        case SecurityResult => outcome := ProcessSecurityResultMsg();
        case Initialisation => outcome := ProcessInitMsg();
        case _ => outcome := Waiting;
      }
    }

    method ProcessVersionMsg() returns (outcome: Outcome)
      requires state == ProtocolVersion
      modifies this
      ensures Step(Now(), outcome) == ClientVersion(old(Now()), Config())
      ensures outcome == Going ==>
                && state == SecurityTypes && input == old(input)[1..] && output == old(output) + [VersionField(version)]
                && old(input)[0].VersionField?
                && if useProtocol3_3 then version == Version(3, 3) else Newest(version, old(input)[0].version)
      ensures outcome == Failed <==>
                old(input) != [] && old(input)[0].VersionField? && old(input)[0].version.Before(3, 3)
      ensures outcome == Failed ==> state == Invalid && output == old(output)
    {
      if input == [] { return Waiting; }
      if !input[0].VersionField? { return Misread; }
      var offer := input[0].version;
      input := input[1..];
      if offer.Before(3, 3) {
        state := Invalid;
        return Failed;
      } else if useProtocol3_3 || offer.Before(3, 7) {
        version := V33;
      } else if offer.After(3, 8) {
        version := V38;
      } else {
        version := offer;
      }
      output := output + [VersionField(version)];
      state := SecurityTypes;
      outcome := Going;
    }

    method ProcessSecurityTypesMsg() returns (outcome: Outcome)
      requires INVALID !in secTypes
      modifies this
      ensures Step(Now(), outcome) == ClientTypes(old(Now()), Config())
      ensures version != Version(3, 3) && IsList(old(input)) && old(input)[0].value != 0 ==>
                ListAnswered(outcome, old(input), old(output))
    {
      hide ClientSecurity, ClientRefused, FirstCommon, ListAnswered;
      if input == [] { return Waiting; }
      if version == V33 {
        outcome := ProcessLegacyType();
      } else {
        outcome := ProcessTypeList();
      }
    }

    method ProcessLegacyType() returns (outcome: Outcome)
      requires input != [] && version == V33
      modifies this
      ensures Step(Now(), outcome) == ClientTypes(old(Now()), Config())
    {
      hide ClientSecurity, ClientRefused;
      if !input[0].U32Field? { return Misread; }
      var offer := input[0].value;
      if offer == INVALID {
        outcome := ThrowConnFailed();
        return;
      }
      input := input[1..];
      if (offer != NONE && offer != VNC_AUTH) || offer !in secTypes {
        state := Invalid;
        return Failed;
      }
      secType := offer;
      outcome := ProcessSecurityMsg();
    }

    /** The first type of the list that is enabled has been answered, or there is none. */
    ghost predicate ListAnswered(outcome: Outcome, list: seq<Field>, was: seq<Field>)
      requires IsList(list)
      reads this
    {
      if NonePicked(list, secTypes) then outcome == Failed && output == was
      else PickedFirst(secType, list, secTypes) && |output| > |was| && output[..|was| + 1] == was + [U8Field(secType)]
    }

    method ProcessTypeList() returns (outcome: Outcome)
      requires input != [] && version != V33 && INVALID !in secTypes
      modifies this
      ensures version == old(version) && Step(Now(), outcome) == ClientTypes(old(Now()), Config())
      ensures IsList(old(input)) && old(input)[0].value != 0 ==> ListAnswered(outcome, old(input), old(output))
    {
      hide ClientSecurity, ClientRefused, FirstCommon, NonePicked, PickedFirst;
      if !input[0].U8Field? { return Misread; }
      var n := input[0].value;
      if n == 0 {
        outcome := ThrowConnFailed();
        return;
      }
      if n >= |input| { return Waiting; }
      if !IsList(input) { return Misread; }
      var t := ChooseType(input);
      input := input[1 + n..];
      if t == INVALID {
        state := Invalid;
        return Failed;
      }
      secType := t;
      output := output + [U8Field(t)];
      outcome := ProcessSecurityMsg();
    }

    /** The first type sent by the server that matches one of the client's. */
    method ChooseType(fields: seq<Field>) returns (t: nat)
      requires IsList(fields) && INVALID !in secTypes
      ensures t == FirstCommon(Offers(fields), secTypes)
      ensures if NonePicked(fields, secTypes) then t == 0 else t != 0 && PickedFirst(t, fields, secTypes)
    {
      t := INVALID;
      ghost var offers := Offers(fields);
      for i := 0 to fields[0].value
        invariant t == FirstCommon(offers[..i], secTypes)
      {
        var offer := fields[i + 1].value;
        FirstCommonAppend(offers[..i], offer, secTypes);
        assert offers[..i + 1] == offers[..i] + [offer];
        if t == INVALID {
          var j := 0;
          while j < |secTypes| && secTypes[j] != offer
            invariant j <= |secTypes| && offer !in secTypes[..j]
          {
            j := j + 1;
          }
          if j < |secTypes| {
            t := secTypes[j];
          } else {
            assert secTypes[..j] == secTypes;
          }
        }
      }
      assert offers[..fields[0].value] == offers;
      FirstIsPicked(fields, secTypes);
    }

    /** Type 1 exchanges nothing, any other type one challenge and one response. */
    method ProcessSecurityMsg() returns (outcome: Outcome)
      modifies this
      ensures Step(Now(), outcome) == ClientSecurity(old(Now()))
      ensures version == old(version) && secType == old(secType)
      ensures secType == 1 ==> output == old(output) + if outcome == Going then [ClientInitField] else []
      ensures secType == 1 && !ResultDue(version, secType) ==> outcome == Going && input == old(input)
      ensures secType != 1 && old(input) == [] ==> outcome == Waiting && state == Security && output == old(output)
      ensures secType != 1 && old(input) != [] && old(input)[0] != ChallengeField ==>
                outcome == Misread && output == old(output)
      ensures secType != 1 && old(input) != [] && old(input)[0] == ChallengeField ==>
                output == old(output) + [ResponseField] + if outcome == Going then [ClientInitField] else []
    {
      assert output + [] == output && output + [ResponseField] + [] == output + [ResponseField];
      hide ClientResult;
      state := Security;
      if secType != NONE {
        if input == [] { return Waiting; }
        if !input[0].ChallengeField? { return Misread; }
        input := input[1..];
        output := output + [ResponseField];
      }
      outcome := ProcessSecurityResultMsg();
    }

    method ProcessSecurityResultMsg() returns (outcome: Outcome)
      modifies this
      ensures Step(Now(), outcome) == ClientResult(old(Now()))
      ensures version == old(version) && secType == old(secType)
      ensures outcome == Going <==>
                !ResultDue(version, secType) || (old(input) != [] && old(input)[0] == U32Field(0))
      ensures outcome == Failed <==> ResultDue(version, secType) && FailureThere(version, old(input))
      ensures outcome != Going ==> output == old(output)
      ensures outcome == Going ==> state == Initialisation && output == old(output) + [ClientInitField]
      ensures outcome == Going ==> input == if ResultDue(version, secType) then old(input)[1..] else old(input)
      ensures outcome == Failed ==> ResultDue(version, secType) && state == Invalid && output == old(output)
      ensures outcome == Failed ==> input == old(input)[if ReasonDue(version, old(input)[0]) then 2 else 1..]
    {
      state := SecurityResult;
      var result := RESULT_OK;
      if !(version.Before(3, 8) && secType == NONE) {
        if input == [] { return Waiting; }
        if !input[0].U32Field? { return Misread; }
        result := input[0].value;
        if result != RESULT_OK {
          outcome := ThrowAuthFailure(result);
          return;
        }
        input := input[1..];
      }
      state := Initialisation;
      output := output + [ClientInitField];
      outcome := Going;
    }

    method ThrowAuthFailure(result: nat) returns (outcome: Outcome)
      requires input != [] && input[0] == U32Field(result)
      modifies this
      ensures Step(Now(), outcome) ==
        if (result == RESULT_FAILED || result == RESULT_TOO_MANY) && !version.Before(3, 8)
        then ClientRefused(old(Now()))
        else Thrown(Took(old(Now()), 1))
    {
      if (result == RESULT_FAILED || result == RESULT_TOO_MANY) && !version.Before(3, 8) {
        outcome := ThrowConnFailed();
        return;
      }
      input := input[1..];
      state := Invalid;
      outcome := Failed;
    }

    /** Read the reason behind the field at the head, and give up. */
    method ThrowConnFailed() returns (outcome: Outcome)
      requires input != []
      modifies this
      ensures version == old(version)
      ensures Step(Now(), outcome) == ClientRefused(old(Now()))
    {
      if |input| < 2 { return Waiting; }
      if !input[1].ReasonField? { return Misread; }
      input := input[2..];
      state := Invalid;
      outcome := Failed;
    }

    method ProcessInitMsg() returns (outcome: Outcome)
      modifies this
      ensures Step(Now(), outcome) == Handshakes.ClientInit(old(Now()))
    {
      if input == [] { return Waiting; }
      if !input[0].ServerInitField? { return Misread; }
      input := input[1..];
      state := Normal;
      outcome := Going;
    }
  }

  // ----------------------------------------------------------------- server

  class SConnection {
    var state: State
    var version: Version
    var secType: nat
    var input: seq<Field>
    var output: seq<Field>
    const config: ServerConfig

    ghost function Now(): Side
      reads this
    {
      Side(state, version, secType, input, output)
    }

    /** initialiseProtocol: the version is on offer. */
    constructor (config: ServerConfig)
      ensures this.config == config
      ensures Now() == Side(ProtocolVersion, config.offer, INVALID, [], [VersionField(config.offer)])
    {
      this.config := config;
      state, version, secType := ProtocolVersion, config.offer, INVALID;
      input, output := [], [VersionField(config.offer)];
    }

    method ProcessMsg() returns (outcome: Outcome)
      modifies this
      ensures Step(Now(), outcome) == ServerStep(old(Now()), config)
    {
      hide ServerVersion, ServerType, ServerResponse, ServerInit;
      match state {
        case ProtocolVersion => outcome := ProcessVersionMsg();
        case SecurityType => outcome := ProcessSecurityTypeMsg();
        case Security => outcome := ProcessResponse();
        case Querying =>
          if input == [] { return Waiting; }
          state := Invalid;
          outcome := Failed;
        case Initialisation => outcome := ProcessInitMsg();
        case _ => outcome := Waiting;
      }
    }

    method ProcessVersionMsg() returns (outcome: Outcome)
      requires state == ProtocolVersion
      modifies this
      ensures Step(Now(), outcome) == ServerVersion(old(Now()), config)
      ensures outcome != Waiting && outcome != Misread ==>
                && old(input)[0].VersionField? && input == old(input)[1..] && |output| > |old(output)|
                && output[..|old(output)|] == old(output)
      ensures outcome == Going ==>
                && var asked := old(input)[0].version;
                && asked.major == 3 && (if asked.minor < 3 then version == Version(3, 3) else Newest(version, asked))
                && (if version == Version(3, 3)
                    then output[|old(output)|] == U32Field(LegacyTypes(config.secTypes))
                         && secType in config.secTypes
                    else output == old(output) + [U8Field(|config.secTypes|)] + U8s(config.secTypes)
                         && (forall i :: 0 <= i < |config.secTypes| ==>
                             output[|old(output)| + 1 + i] == U8Field(config.secTypes[i]))
                         && state == SecurityType)
    {
      if input == [] { return Waiting; }
      if !input[0].VersionField? { return Misread; }
      VersionMeans(Now(), config);
      ListSent(output, config.secTypes);
      hide ServerSecurity, FirstCommon, Refused, Newest, LegacyTypes, TypesOffered, U8s;
      version := input[0].version;
      input := input[1..];
      if version.major != 3 {
        outcome := ThrowConnFailed();
        return;
      }
      AssumeOfficial();
      outcome := OfferTypes();
    }

    method AssumeOfficial()
      modifies this`version
      ensures version == Official(old(version))
    {
      if version.minor != 3 && version.minor != 7 && version.minor != 8 {
        if version.minor >= 8 {
          version := Version(version.major, 8);
        } else {
          version := Version(version.major, 3);
        }
      }
    }

    method OfferTypes() returns (outcome: Outcome)
      requires state == ProtocolVersion
      modifies this
      ensures Step(Now(), outcome) == TypesOffered(old(Now()), config)
    {
      hide ServerSecurity, FirstCommon, Refused;
      if version == V33 {
        var t := FindLegacyType();
        if t == INVALID {
          outcome := ThrowConnFailed();
        } else {
          output := output + [U32Field(t)];
          secType := t;
          outcome := StartSecurity();
        }
        return;
      }
      if config.secTypes == [] {
        outcome := ThrowConnFailed();
        return;
      }
      output := output + [U8Field(|config.secTypes|)] + U8s(config.secTypes);
      state := SecurityType;
      outcome := Going;
    }

    /** The first of the server's types that a 3.3 client knows. */
    method FindLegacyType() returns (t: nat)
      ensures t == LegacyTypes(config.secTypes)
      ensures if 1 in config.secTypes || 2 in config.secTypes then t in {1, 2} && IsFirst(t, config.secTypes, [1, 2])
              else t == 0
    {
      FirstCommonIsFirst(config.secTypes, [1, 2]);
      var types := config.secTypes;
      var known := [NONE, VNC_AUTH];
      for i := 0 to |types|
        invariant FirstCommon(types[..i], known) == INVALID
      {
        FirstCommonAppend(types[..i], types[i], known);
        assert types[..i + 1] == types[..i] + [types[i]];
        if types[i] == NONE || types[i] == VNC_AUTH {
          FirstCommonPrefix(types, i + 1, known);
          return types[i];
        }
      }
      assert types[..|types|] == types;
      t := INVALID;
    }

    method ProcessSecurityTypeMsg() returns (outcome: Outcome)
      modifies this
      ensures Step(Now(), outcome) == ServerType(old(Now()), config)
      ensures outcome == Going ==>
                && old(input)[0] == U8Field(secType) && secType in config.secTypes && input == old(input)[1..]
                && (secType != 1 ==> state == Security && output == old(output) + [ChallengeField])
                && (secType == 1 ==> state in {Querying, Initialisation})
      ensures old(input) != [] && old(input)[0].U8Field? && old(input)[0].value !in config.secTypes ==>
                outcome == Failed && state == Invalid && output == old(output) && secType == old(secType)
    {
      if input == [] { return Waiting; }
      if !input[0].U8Field? { return Misread; }
      TypeMeans(Now(), config);
      hide ServerSecurity;
      var t := input[0].value;
      input := input[1..];
      if t !in config.secTypes {
        state := Invalid;
        return Failed;
      }
      secType := t;
      outcome := StartSecurity();
    }

    method StartSecurity() returns (outcome: Outcome)
      modifies this
      ensures Step(Now(), outcome) == ServerSecurity(old(Now()), config)
      ensures secType == old(secType) && outcome == Going
      ensures secType != 1 ==> state == Security && output == old(output) + [ChallengeField]
      ensures secType == 1 ==> state in {Querying, Initialisation}
    {
      hide Queried;
      state := Security;
      if secType == NONE {
        outcome := QueryConnection();
        return;
      }
      output := output + [ChallengeField];
      outcome := Going;
    }

    method ProcessResponse() returns (outcome: Outcome)
      requires state == Security
      modifies this
      ensures Step(Now(), outcome) == ServerResponse(old(Now()), config)
      ensures outcome == Failed <==> old(input) != [] && old(input)[0] == ResponseField && !config.passwordOk
      ensures outcome == Failed ==>
                output == old(output)
                          + (if NoNewer(Version(3, 8), version) then [U32Field(1), ReasonField] else [U32Field(1)])
      ensures outcome == Going ==> old(input)[0] == ResponseField && state in {Querying, Initialisation}
    {
      hide Queried;
      if input == [] { return Waiting; }
      if !input[0].ResponseField? { return Misread; }
      input := input[1..];
      if config.passwordOk {
        outcome := QueryConnection();
        return;
      }
      output := output + FailureFields(version);
      state := Invalid;
      outcome := Failed;
    }

    method QueryConnection() returns (outcome: Outcome)
      modifies this
      ensures Step(Now(), outcome) == Queried(old(Now()), config)
      ensures outcome == Going && secType == old(secType) && input == old(input)
      ensures state == if config.asks then Querying else Initialisation
      ensures output == old(output) + if !config.asks && ResultDue(version, secType) then [U32Field(0)] else []
    {
      assert output + [] == output;
      hide Approved;
      state := Querying;
      if config.asks { return Going; }
      outcome := ApproveConnection(true);
    }

    method ApproveConnection(accept: bool) returns (outcome: Outcome)
      requires state == Querying
      modifies this
      ensures Step(Now(), outcome) == Approved(old(Now()), accept)
      ensures version == old(version) && secType == old(secType) && input == old(input)
      ensures output == old(output) +
                (if !ResultDue(version, secType) then [] else if accept then [U32Field(0)]
                 else if NoNewer(Version(3, 8), version) then [U32Field(1), ReasonField] else [U32Field(1)])
      ensures accept <==> state == Initialisation
      ensures outcome == if accept then Going else Failed
    {
      if !version.Before(3, 8) || secType != NONE {
        output := output + if accept then [U32Field(RESULT_OK)] else FailureFields(version);
      }
      if accept {
        state := Initialisation;
        outcome := Going;
      } else {
        state := Invalid;
        outcome := Failed;
      }
    }

    method ThrowConnFailed() returns (outcome: Outcome)
      modifies this
      ensures Step(Now(), outcome) == Refused(old(Now()))
      ensures outcome == Failed && state == Invalid
      ensures output == old(output) + [if version == Version(3, 3) then U32Field(0) else U8Field(0), ReasonField]
    {
      if version == V33 {
        output := output + [U32Field(0), ReasonField];
      } else {
        output := output + [U8Field(0), ReasonField];
      }
      state := Invalid;
      outcome := Failed;
    }

    method ProcessInitMsg() returns (outcome: Outcome)
      modifies this
      ensures Step(Now(), outcome) == ServerInit(old(Now()))
    {
      if input == [] { return Waiting; }
      if !input[0].ClientInitField? { return Misread; }
      input := input[1..];
      output := output + [ServerInitField];
      state := Normal;
      outcome := Going;
    }
  }

  /** A match in a prefix is the match. */
  lemma {:induction false} FirstCommonPrefix(offers: seq<nat>, n: nat, enabled: seq<nat>)
    requires n <= |offers| && FirstCommon(offers[..n], enabled) != INVALID
    ensures FirstCommon(offers, enabled) == FirstCommon(offers[..n], enabled)
  {
    if n > 0 && offers[0] !in enabled {
      assert offers[..n][1..] == offers[1..][..n - 1];
      FirstCommonPrefix(offers[1..], n - 1, enabled);
    }
  }

  // ------------------------------------------- the two connections, joined

  /** Both ends of one handshake, and the wire between them. */
  class Pair {
    const client: CConnection
    const server: SConnection

    ghost function Both(): System
      reads client, server
    {
      System(client.Now(), server.Now())
    }

    ghost predicate Valid()
      reads client, server
    {
      && Sensible(client.Config(), server.config)
      && Reachable(Both(), client.Config(), server.config)
    }

    /** The server has put its version on the wire. */
    constructor (useProtocol3_3: bool, clientTypes: seq<nat>, config: ServerConfig)
      requires INVALID !in clientTypes && INVALID !in config.secTypes
      ensures Valid() && client.Config() == ClientConfig(useProtocol3_3, clientTypes) && server.config == config
      ensures fresh(client) && fresh(server)
    {
      var c := new CConnection(useProtocol3_3, clientTypes);
      var s := new SConnection(config);
      c.input, s.output := s.output, [];
      client, server := c, s;
      StartReached(ClientConfig(useProtocol3_3, clientTypes), config);
    }

    /** One side acts, or the user answers, and what was written goes over the wire. */
    method Act(e: Event)
      requires Valid() && Enabled(Both(), e)
      modifies client, server
      ensures Valid() && Both() == Next(old(Both()), e, client.Config(), server.config)
      ensures Both() == old(Both()) || RankOf(Both()) < RankOf(old(Both()))
    {
      hide Reachable, ClientStep, ServerStep, Approved;
      ghost var s := Both();
      NothingMisread(s, e, client.Config(), server.config);
      ReachableAdvances(s, e, client.Config(), server.config);
      ghost var s' := Reach(s, e, client.Config(), server.config);
      var outcome;
      match e {
        case ClientActs => outcome := client.ProcessMsg();
        case ServerActs => outcome := server.ProcessMsg();
        case UserAnswers => outcome := server.ApproveConnection(server.config.accepts);
      }
      assert outcome != Misread;
      if e == ClientActs {
        server.input, client.output := server.input + client.output, [];
      } else {
        client.input, server.output := client.input + server.output, [];
      }
    }

    /** One round: everybody who can does something. */
    method Round() returns (moved: bool)
      requires Valid()
      modifies client, server
      ensures Valid()
      ensures moved ==> RankOf(Both()) < RankOf(old(Both()))
      ensures !moved ==> Settled(Both(), client.Config(), server.config)
    {
      hide Reachable, Next, Sensible;
      var c, s := client.state, server.state;
      ghost var before := Both();
      Act(ClientActs);
      Act(ServerActs);
      var asking := server.state == Querying;
      if asking {
        Act(UserAnswers);
      }
      moved := client.state != c || server.state != s;
      if !moved {
        assert Both() == before;
        assert forall e :: Enabled(before, e) ==> e == ClientActs || e == ServerActs || (asking && e == UserAnswers);
      }
    }

    /** The handshake: any turns at first, then rounds until nobody can do anything.
        Sides that fit are then both in the normal state, unless the client is
        hasty, and agree on the version and on the first type both enable. */
    method Converse(turns: seq<Event>)
      requires Valid()
      modifies client, server
      ensures Valid() && Settled(Both(), client.Config(), server.config)
      ensures Compatible(client.Config(), server.config) && !Hasty(client.Config(), server.config) ==>
                client.state == Normal && server.state == Normal
      ensures client.state == Normal && server.state == Normal ==>
                && Compatible(client.Config(), server.config)
                && client.version == server.version && client.version in {V33, V37, V38}
                && client.secType == server.secType && client.secType in client.secTypes
                && IsFirst(client.secType, server.config.secTypes,
                           if client.version == V33 then [NONE, VNC_AUTH] else client.secTypes)
    {
      hide Reachable, Settled, Sensible, Compatible, Hasty, IsFirst;
      for k := 0 to |turns|
        invariant Valid()
      {
        if turns[k] != UserAnswers || server.state == Querying {
          Act(turns[k]);
        }
      }
      var moved := true;
      while moved
        invariant Valid() && (!moved ==> Settled(Both(), client.Config(), server.config))
        decreases moved, RankOf(Both())
      {
        moved := Round();
      }
      Concluded(Both(), client.Config(), server.config);
    }
  }

  lemma Concluded(s: System, client: ClientConfig, server: ServerConfig)
    requires Reachable(s, client, server) && Sensible(client, server) && Settled(s, client, server)
    ensures Compatible(client, server) && !Hasty(client, server) ==>
              s.client.state == Normal && s.server.state == Normal
    ensures s.client.state == Normal && s.server.state == Normal ==>
              && Compatible(client, server)
              && s.client.version == s.server.version && s.client.version in {V33, V37, V38}
              && s.client.secType == s.server.secType && s.client.secType in client.secTypes
              && IsFirst(s.client.secType, server.secTypes,
                         if s.client.version == V33 then [NONE, VNC_AUTH] else client.secTypes)
  {
    hide Reachable, Settled, IsFirst, Sensible;
    if s.client.state == Normal && s.server.state == Normal {
      BothAgree(s, client, server);
      if !Compatible(client, server) { OthersDoNotFinish(s, client, server); }
    } else if Compatible(client, server) && !Hasty(client, server) {
      FittingSidesFinish(s, client, server);
    }
  }

  lemma ReachableAdvances(s: System, e: Event, client: ClientConfig, server: ServerConfig)
    requires Reachable(s, client, server) && Sensible(client, server) && Enabled(s, e)
    ensures Next(s, e, client, server) == s || RankOf(Next(s, e, client, server)) < RankOf(s)
  {
    hide Invariant, Reachable, Next;
    ReachableInvariant(s, client, server);
    StepAdvances(s, e, client, server);
  }

  lemma StartReached(client: ClientConfig, server: ServerConfig)
    ensures Reachable(Start(server), client, server)
  {
    assert Run([Start(server)], [], client, server);
  }
}
