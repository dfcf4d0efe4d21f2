/** Channel configurations of a tenant
    (src/public/channels-configs/channel-configs.service.ts): the stored
    configuration JSON is built from the payload, inserted under the store's
    unique key, and returned with the SMTP password masked.
 */
module ChannelConfigsService {
  import opened Wrappers
  import opened JsValues
  import opened Store
  import opened ChannelConfigDto
  import ApiKeyGuard

  const MissingEmailFields: string := "BadRequest: missing smtpHost/smtpPort/from"
  const MissingProjectId: string := "BadRequest: missing projectId"
  const UnsupportedChannel: string := "BadRequest: unsupported channel"
  const ConfigExists: string := "ConfigExists"
  const Mask: string := "********"

  /** The `isEmailConfig` type guard: a plain object whose `smtpHost` and
      `from` are strings and whose `smtpPort` is a number. */
  predicate IsEmailConfig(v: Value)
    ensures IsEmailConfig(v) <==>
      v.Obj? && Prop(v, "smtpHost").Str? && Prop(v, "smtpPort").Num? && Prop(v, "from").Str?
  {
    IsRecord(v)
    && TypeOf(Prop(v, "smtpHost")) == "string"
    && TypeOf(Prop(v, "smtpPort")) == "number"
    && TypeOf(Prop(v, "from")) == "string"
  }

  /** The `isExpoConfig` type guard: a plain object whose `projectId` is a string. */
  predicate IsExpoConfig(v: Value)
    ensures IsExpoConfig(v) <==> v.Obj? && Prop(v, "projectId").Str?
  {
    IsRecord(v) && TypeOf(Prop(v, "projectId")) == "string"
  }

  /** The channel column a payload's channel is stored as. */
  function ChannelOf(name: string): (r: Option<Channel>)
    ensures r == Some(EMAIL) <==> name == ChannelEmail
    ensures r == Some(EXPO_PUSH) <==> name == ChannelExpoPush
    ensures r.None? <==> name != ChannelEmail && name != ChannelExpoPush
  {
    if name == ChannelEmail then Some(EMAIL)
    else if name == ChannelExpoPush then Some(EXPO_PUSH)
    else None
  }

  /** `toConfigJson`: the JSON stored for a payload. An EMAIL config needs a
      truthy host, port and sender (so port 0 is refused) and gets `null`
      for a missing user or password; an EXPO_PUSH config keeps only its
      project id; any other channel is refused. */
  function ToConfigJson(dto: CreateChannelConfig): (r: Result<Value>)
    ensures dto.channel == ChannelEmail ==>
      (r.Ok? <==> Truthy(Prop(dto.email, "smtpHost")) && Truthy(Prop(dto.email, "smtpPort")) && Truthy(Prop(dto.email, "from")))
    ensures dto.channel == ChannelEmail && r.Ok? ==>
      && r.value.Obj? && r.value.fields.Keys == EmailFields
      && (forall f :: f in {"smtpHost", "smtpPort", "from"} ==> Prop(r.value, f) == Prop(dto.email, f))
      && (forall f :: f in {"user", "pass"} ==> Prop(r.value, f) == (if Nullish(Prop(dto.email, f)) then Null else Prop(dto.email, f)))
    ensures dto.channel == ChannelExpoPush ==> (r.Ok? <==> Truthy(Prop(dto.expoPush, "projectId")))
    ensures dto.channel == ChannelExpoPush && r.Ok? ==>
      r.value.Obj? && r.value.fields.Keys == ExpoFields && Prop(r.value, "projectId") == Prop(dto.expoPush, "projectId")
    ensures ChannelOf(dto.channel).None? ==> r == Err(BadRequest(UnsupportedChannel))
    ensures r.Err? ==> r.error.BadRequest?
  {
    if dto.channel == ChannelEmail then
      var c := dto.email;
      if !Truthy(Prop(c, "smtpHost")) || !Truthy(Prop(c, "smtpPort")) || !Truthy(Prop(c, "from")) then
        Err(BadRequest(MissingEmailFields))
      else
        Ok(Obj(map[
          "smtpHost" := Prop(c, "smtpHost"),
          "smtpPort" := Prop(c, "smtpPort"),
          "user" := Coalesce(Prop(c, "user"), Null),
          "pass" := Coalesce(Prop(c, "pass"), Null),
          "from" := Prop(c, "from")]))
    else if dto.channel == ChannelExpoPush then
      var c := dto.expoPush;
      if !Truthy(Prop(c, "projectId")) then Err(BadRequest(MissingProjectId))
      else Ok(Obj(map["projectId" := Prop(c, "projectId")]))
    else
      Err(BadRequest(UnsupportedChannel))
  }

  /** `sanitizeConfig`: an EMAIL row whose JSON passes `isEmailConfig` is
      returned with a truthy password replaced by the mask and a falsy one by
      `null`; every other row is returned as stored. */
  function SanitizeConfig(row: ChannelConfig): (r: ChannelConfig)
    ensures r.(configJson := row.configJson) == row
    ensures !(row.channel == EMAIL && IsEmailConfig(row.configJson)) ==> r == row
    ensures row.channel == EMAIL && IsEmailConfig(row.configJson) ==>
      && r.configJson.Obj?
      && r.configJson.fields.Keys == row.configJson.fields.Keys + {"pass"}
      && (forall f :: f in row.configJson.fields && f != "pass" ==> r.configJson.fields[f] == row.configJson.fields[f])
      && Prop(r.configJson, "pass") == (if Truthy(Prop(row.configJson, "pass")) then Str(Mask) else Null)
  {
    if row.channel == EMAIL && IsEmailConfig(row.configJson) then
      var cfg := row.configJson;
      row.(configJson := Obj(cfg.fields["pass" := if Truthy(Prop(cfg, "pass")) then Str(Mask) else Null]))
    else
      row
  }

  /** A password in a response: masked, absent, or left as stored. */
  predicate PasswordMasked(row: ChannelConfig) {
    row.channel == EMAIL ==> Prop(row.configJson, "pass") in {Str(Mask), Null}
  }

  /** Masking twice is masking once. */
  lemma SanitizeIdempotent(row: ChannelConfig)
    ensures SanitizeConfig(SanitizeConfig(row)) == SanitizeConfig(row)
  {
    var r := SanitizeConfig(row);
    if row.channel == EMAIL && IsEmailConfig(row.configJson) {
      assert IsEmailConfig(r.configJson);
      assert r.configJson.fields["pass" := Prop(r.configJson, "pass")] == r.configJson.fields;
    }
  }

  /** The mask hides the password of every row that passes the type guard. */
  lemma SanitizeHidesPassword(row: ChannelConfig)
    requires row.channel == EMAIL && IsEmailConfig(row.configJson)
    ensures PasswordMasked(SanitizeConfig(row))
  {
  }

  /** The reply to a created configuration: the stored row, sanitized. */
  datatype ConfigCreated = ConfigCreated(store: Store, reply: ChannelConfig)

  /** `createForTenant`: builds the JSON, then inserts the row; a unique
      violation becomes Conflict "ConfigExists", any other store fault is
      rethrown. `allowOverrides` is false unless the payload says true.
      `sameSlot` is the unique key of the table, which the model leaves open. */
  function CreateForTenant(st: Store, tenantId: string, dto: CreateChannelConfig, configId: string,
                           sameSlot: (ChannelConfig, ChannelConfig) -> bool): (r: Result<ConfigCreated>)
    ensures ToConfigJson(dto).Err? ==> r == Err(ToConfigJson(dto).error)
    ensures r.Ok? ==>
      && ToConfigJson(dto).Ok? && ChannelOf(dto.channel).Some?
      && var row := ChannelConfig(configId, tenantId, ChannelOf(dto.channel).value, ToConfigJson(dto).value,
                                  dto.allowOverrides == Some(true), st.clock);
      && r.value.store == st.(channelConfigs := st.channelConfigs + [row], clock := st.clock + 1)
      && r.value.reply == SanitizeConfig(row)
    ensures ToConfigJson(dto).Ok? && ChannelOf(dto.channel).Some? ==>
      var row := ChannelConfig(configId, tenantId, ChannelOf(dto.channel).value, ToConfigJson(dto).value,
                               dto.allowOverrides == Some(true), st.clock);
      && (r == Err(Conflict(ConfigExists)) <==> ConfigClash(st, row, sameSlot))
      && (r.Ok? <==> !ConfigClash(st, row, sameSlot) && HasTenant(st, tenantId))
    ensures r.Err? ==> r.error.BadRequest? || r.error == Conflict(ConfigExists) || r.error == Unhandled(ForeignKeyViolation)
  {
    var json :- ToConfigJson(dto);
    var channel := ChannelOf(dto.channel);
    if channel.None? then Err(BadRequest(UnsupportedChannel))
    else
      var row := ChannelConfig(configId, tenantId, channel.value, json, dto.allowOverrides.Some? && dto.allowOverrides.value, st.clock);
      match InsertChannelConfig(st, row, sameSlot)
      case Err(e) => if e == Unhandled(UniqueViolation) then Err(Conflict(ConfigExists)) else Err(e)
      case Ok(st2) => Ok(ConfigCreated(st2, SanitizeConfig(row)))
  }

  /** An insert keeps the store valid when the id is new: the row's tenant
      exists, or the insert is refused. */
  lemma CreateKeepsValid(st: Store, tenantId: string, dto: CreateChannelConfig, configId: string,
                         sameSlot: (ChannelConfig, ChannelConfig) -> bool)
    requires Valid(st)
    requires CreateForTenant(st, tenantId, dto, configId, sameSlot).Ok?
    ensures Valid(CreateForTenant(st, tenantId, dto, configId, sameSlot).value.store)
  {
    var st2 := CreateForTenant(st, tenantId, dto, configId, sameSlot).value.store;
    var row := st2.channelConfigs[|st.channelConfigs|];
    assert forall t :: HasTenant(st, t) ==> HasTenant(st2, t);
    assert forall u :: HasUser(st, u) ==> HasUser(st2, u);
    assert forall c :: c in st.channelConfigs ==> c.id != row.id;
  }

  /** `POST /channel-configs` with the payload validated as the payload
      class is written: the guard, then the pipe, then the service. */
  function CreateRouteAsWritten(st: Store, apiKey: Value, body: map<string, Value>, configId: string,
                                sameSlot: (ChannelConfig, ChannelConfig) -> bool): (r: Result<ConfigCreated>)
    ensures ApiKeyGuard.CanActivate(st, apiKey).Err? ==> r == Err(ApiKeyGuard.CanActivate(st, apiKey).error)
    ensures ApiKeyGuard.CanActivate(st, apiKey).Ok? && !ShallowValid(body) ==> r.Err? && r.error.BadRequest?
    ensures r.Ok? ==>
      && ApiKeyGuard.CanActivate(st, apiKey).Ok? && ValidateAsWritten(body).Ok?
      && r == CreateForTenant(st, ApiKeyGuard.CanActivate(st, apiKey).value.id, ValidateAsWritten(body).value, configId, sameSlot)
  {
    var tenant :- ApiKeyGuard.CanActivate(st, apiKey);
    var dto :- ValidateAsWritten(body);
    CreateForTenant(st, tenant.id, dto, configId, sameSlot)
  }

  /** `POST /channel-configs` with the nested configuration validated too.
      Every EMAIL configuration it stores has a port in range, and every
      reply masks the password. */
  function CreateRoute(st: Store, apiKey: Value, body: map<string, Value>, configId: string,
                       sameSlot: (ChannelConfig, ChannelConfig) -> bool): (r: Result<ConfigCreated>)
    ensures ApiKeyGuard.CanActivate(st, apiKey).Err? ==> r == Err(ApiKeyGuard.CanActivate(st, apiKey).error)
    ensures ApiKeyGuard.CanActivate(st, apiKey).Ok? && !FullyValid(body) ==> r.Err? && r.error.BadRequest?
    ensures r.Ok? ==> FullyValid(body) && PasswordMasked(r.value.reply)
    ensures r.Ok? ==> |r.value.store.channelConfigs| == |st.channelConfigs| + 1
    ensures r.Ok? && r.value.reply.channel == EMAIL ==>
      var port := Prop(r.value.store.channelConfigs[|st.channelConfigs|].configJson, "smtpPort");
      port.Num? && MinPort <= port.n <= MaxPort
  {
    var tenant :- ApiKeyGuard.CanActivate(st, apiKey);
    var dto :- Validate(body);
    ValidatedEmailPassesGuard(body);
    var r := CreateForTenant(st, tenant.id, dto, configId, sameSlot);
    if r.Ok? && r.value.reply.channel == EMAIL then
      SanitizeHidesPassword(r.value.store.channelConfigs[|st.channelConfigs|]);
      r
    else r
  }

  /** What the corrected pipe admits on the EMAIL channel builds a JSON that
      the type guard recognises, with the payload's port. */
  lemma ValidatedEmailPassesGuard(body: map<string, Value>)
    requires FullyValid(body)
    ensures Validate(body).Ok?
    ensures Validate(body).value.channel == ChannelEmail ==>
      && ToConfigJson(Validate(body).value).Ok?
      && IsEmailConfig(ToConfigJson(Validate(body).value).value)
      && Prop(ToConfigJson(Validate(body).value).value, "smtpPort") == Prop(Member(body, "email"), "smtpPort")
  {
  }

  /** Any tenant's first configuration built from the EMAIL body of
      `PortAsStringBody` is stored and echoed with its password in clear. */
  lemma PasswordEchoedAsWritten(st: Store, tenantId: string, configId: string,
                                sameSlot: (ChannelConfig, ChannelConfig) -> bool)
    requires HasTenant(st, tenantId)
    requires st.channelConfigs == []
    ensures ValidateAsWritten(PortAsStringBody()).Ok?
    ensures CreateForTenant(st, tenantId, ValidateAsWritten(PortAsStringBody()).value, configId, sameSlot).Ok?
    ensures Prop(CreateForTenant(st, tenantId, ValidateAsWritten(PortAsStringBody()).value, configId, sameSlot).value.reply.configJson, "pass")
            == Str("secret")
  {
    NestedConstraintsSkipped();
    var dto := ValidateAsWritten(PortAsStringBody()).value;
    assert dto.email == PortAsStringBody()["email"];
    assert Prop(dto.email, "smtpHost") == Num(1);
  }
}
