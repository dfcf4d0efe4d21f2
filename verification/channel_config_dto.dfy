/** The body of `POST /channel-configs` (src/public/channels-configs/dto/create-channel-config.dto.ts)
    under the global validation pipe.

    The payload class declares `email` and `expoPush` with `@IsObject()` only:
    without `@ValidateNested()` and a `@Type()` the pipe never instantiates
    the nested config classes, so their constraints are not applied.
    `ValidateAsWritten` is that behaviour, and the route as written
    (`ChannelConfigsService.CreateRouteAsWritten`) runs it. `Validate` also
    applies the nested classes' constraints, as their declarations intend,
    and the corrected route (`ChannelConfigsService.CreateRoute`) runs it.
 */
module ChannelConfigDto {
  import opened Wrappers
  import opened JsValues

  const ChannelEmail: string := "EMAIL"
  const ChannelExpoPush: string := "EXPO_PUSH"
  const MinPort: int := 1
  const MaxPort: int := 65535

  const BodyFields: set<string> := {"channel", "email", "expoPush", "allowOverrides"}
  const EmailFields: set<string> := {"smtpHost", "smtpPort", "user", "pass", "from"}
  const ExpoFields: set<string> := {"projectId"}

  /** A validated payload. `channel` is one of the enum's values. */
  datatype CreateChannelConfig = CreateChannelConfig(channel: string, email: Value, expoPush: Value, allowOverrides: Option<bool>)

  /** `@IsEnum(Channel)`. */
  predicate IsChannel(v: Value) {
    v.Str? && (v.s == ChannelEmail || v.s == ChannelExpoPush)
  }

  /** `@IsString() @IsNotEmpty()`. */
  predicate NonEmptyString(v: Value) {
    v.Str? && v.s != ""
  }

  /** `@IsOptional() @IsString()`. */
  predicate OptionalString(v: Value) {
    Nullish(v) || v.Str?
  }

  /** The checks the payload class itself declares. */
  predicate ShallowValid(body: map<string, Value>) {
    && body.Keys <= BodyFields
    && IsChannel(Member(body, "channel"))
    && (Member(body, "channel").s == ChannelEmail ==> Member(body, "email").Obj?)
    && (Member(body, "channel").s == ChannelExpoPush ==> Member(body, "expoPush").Obj?)
    && (Nullish(Member(body, "allowOverrides")) || Member(body, "allowOverrides").Bool?)
  }

  /** The constraints of `EmailConfigDto`, unknown properties refused. */
  predicate EmailConfigValid(v: Value) {
    && v.Obj?
    && v.fields.Keys <= EmailFields
    && NonEmptyString(Member(v.fields, "smtpHost"))
    && Member(v.fields, "smtpPort").Num?
    && MinPort <= Member(v.fields, "smtpPort").n <= MaxPort
    && OptionalString(Member(v.fields, "user"))
    && OptionalString(Member(v.fields, "pass"))
    && NonEmptyString(Member(v.fields, "from"))
  }

  /** The constraints of `ExpoPushConfigDto`, unknown properties refused. */
  predicate ExpoConfigValid(v: Value) {
    && v.Obj?
    && v.fields.Keys <= ExpoFields
    && NonEmptyString(Member(v.fields, "projectId"))
  }

  /** Every declared constraint, the nested ones included. The nested object
      of the other channel is skipped, as `@ValidateIf` skips it. */
  predicate FullyValid(body: map<string, Value>) {
    && ShallowValid(body)
    && (Member(body, "channel").s == ChannelEmail ==> EmailConfigValid(Member(body, "email")))
    && (Member(body, "channel").s == ChannelExpoPush ==> ExpoConfigValid(Member(body, "expoPush")))
  }

  /** The payload a body that passed validation becomes. */
  function Payload(body: map<string, Value>): (d: CreateChannelConfig)
    requires IsChannel(Member(body, "channel"))
    requires Nullish(Member(body, "allowOverrides")) || Member(body, "allowOverrides").Bool?
    ensures d.channel == Member(body, "channel").s
    ensures d.email == Member(body, "email") && d.expoPush == Member(body, "expoPush")
    ensures d.allowOverrides.None? <==> Nullish(Member(body, "allowOverrides"))
    ensures d.allowOverrides.Some? ==> Member(body, "allowOverrides") == Bool(d.allowOverrides.value)
  {
    var ao := Member(body, "allowOverrides");
    CreateChannelConfig(Member(body, "channel").s, Member(body, "email"), Member(body, "expoPush"),
                        if Nullish(ao) then None else Some(ao.b))
  }

  /** The shallow checks in the order the payload class declares them. */
  function CheckShallow(body: map<string, Value>): (r: Result<CreateChannelConfig>)
    ensures r.Ok? <==> ShallowValid(body)
    ensures r.Ok? ==> r.value == Payload(body)
    ensures r.Err? ==> r.error.BadRequest?
  {
    var channel := Member(body, "channel");
    var ao := Member(body, "allowOverrides");
    if !(body.Keys <= BodyFields) then Err(BadRequest("property should not exist"))
    else if !IsChannel(channel) then Err(BadRequest("channel must be one of the following values: EMAIL, EXPO_PUSH"))
    else if channel.s == ChannelEmail && !Member(body, "email").Obj? then Err(BadRequest("email must be an object"))
    else if channel.s == ChannelExpoPush && !Member(body, "expoPush").Obj? then Err(BadRequest("expoPush must be an object"))
    else if !(Nullish(ao) || ao.Bool?) then Err(BadRequest("allowOverrides must be a boolean value"))
    else Ok(Payload(body))
  }

  /** The pipe as the payload class is written: only the shallow checks. */
  function ValidateAsWritten(body: map<string, Value>): (r: Result<CreateChannelConfig>)
    ensures r.Ok? <==> ShallowValid(body)
    ensures r.Ok? ==> r.value == Payload(body)
    ensures r.Err? ==> r.error.BadRequest?
  {
    CheckShallow(body)
  }

  /** The pipe with the nested config classes validated as well. */
  function Validate(body: map<string, Value>): (r: Result<CreateChannelConfig>)
    ensures r.Ok? <==> FullyValid(body)
    ensures r.Ok? ==> r.value == Payload(body)
    ensures r.Err? ==> r.error.BadRequest?
  {
    var dto :- CheckShallow(body);
    if dto.channel == ChannelEmail && !EmailConfigValid(dto.email) then Err(BadRequest("email is not a valid EmailConfigDto"))
    else if dto.channel == ChannelExpoPush && !ExpoConfigValid(dto.expoPush) then Err(BadRequest("expoPush is not a valid ExpoPushConfigDto"))
    else Ok(dto)
  }

  /** The corrected pipe refuses more than the written one and never less,
      and what both accept becomes the same payload. */
  lemma ValidateRefinesAsWritten(body: map<string, Value>)
    ensures Validate(body).Ok? ==> ValidateAsWritten(body) == Validate(body)
  {
  }

  /** An EMAIL body whose port is out of range and given as a string, with
      a numeric host: the written pipe lets it through. */
  function PortAsStringBody(): map<string, Value> {
    map[
      "channel" := Str(ChannelEmail),
      "email" := Obj(map[
        "smtpHost" := Num(1),
        "smtpPort" := Str("587"),
        "from" := Str("noreply@example.com"),
        "pass" := Str("secret")])]
  }

  /** The written pipe accepts a body that breaks every nested constraint it
      names; the corrected one refuses it. */
  lemma NestedConstraintsSkipped()
    ensures ValidateAsWritten(PortAsStringBody()).Ok?
    ensures Validate(PortAsStringBody()).Err?
  {
    var body := PortAsStringBody();
    assert Member(body, "channel") == Str(ChannelEmail);
    assert body.Keys == {"channel", "email"};
    var email := Member(body, "email");
    assert Member(email.fields, "smtpHost") == Num(1);
  }
}
