/** The AWS Secrets Manager secret store: how a secret reference becomes a
    GetSecretValue request, how the answer is turned into bytes, and how a
    property path is resolved inside the payload. The AWS client, the
    credential loader and the JSON library are parameters. */
module SecretsManager {
  import opened Wrappers
  import opened GoStrings
  import opened Api
  import opened Secrets

  /** The version stage requested when the reference names no version. */
  const AwsCurrent: Bytes := "AWSCURRENT"

  /** Marks a version that is an explicit version id rather than a stage. */
  const UuidPrefix: Bytes := "uuid/"

  /** A GetSecretValue request: exactly one of the two selectors is set. */
  datatype GetSecretValueInput = GetSecretValueInput(
    secretId: Bytes,
    versionId: Option<Bytes>,
    versionStage: Option<Bytes>)

  /** A GetSecretValue response: a string payload, a binary one, or either. */
  datatype GetSecretValueOutput = GetSecretValueOutput(
    secretString: Option<Bytes>,
    secretBinary: Option<Bytes>)

  /** What the AWS client answers: the resource-not-found error, any other
      error, or a response. */
  datatype ClientAnswer =
    | ResourceNotFound
    | Failed(cause: Cause)
    | Answered(output: GetSecretValueOutput)

  /** The AWS client's `GetSecretValue` call. */
  type Client = GetSecretValueInput -> ClientAnswer

  /** `gjson.Get(payload, path)`: the string form of the addressed value, or
      `None` when it does not exist. */
  type Lookup = (Bytes, Bytes) -> Option<Bytes>

  /** Loading an AWS configuration for a region and a profile and building a
      client from it. */
  type Session = (Bytes, Bytes) -> Result<Client, Cause>

  /** The request for `ref`: the secret named `ref.name`; an empty version
      asks for the AWSCURRENT stage, a `uuid/` version asks for the version id
      after the prefix, and any other version asks for that stage. */
  function BuildGetSecretValueInput(ref: ExternalSecretRef): (input: GetSecretValueInput)
    ensures input.secretId == ref.name
    ensures input.versionId.Some? != input.versionStage.Some?
    ensures ref.version == [] ==> input.versionStage == Some(AwsCurrent) && input.versionId.None?
    ensures HasPrefix(ref.version, UuidPrefix) ==>
              input.versionId == Some(ref.version[|UuidPrefix|..]) && input.versionStage.None?
    ensures ref.version != [] && !HasPrefix(ref.version, UuidPrefix) ==>
              input.versionStage == Some(ref.version) && input.versionId.None?
  {
    var version := if ref.version != [] then ref.version else AwsCurrent;
    assert AwsCurrent[0] != UuidPrefix[0];
    if HasPrefix(version, UuidPrefix) then
      GetSecretValueInput(ref.name, Some(TrimPrefix(version, UuidPrefix)), None)
    else
      GetSecretValueInput(ref.name, None, Some(version))
  }

  /** The version selector a request stands for, written the way a reference
      writes it. */
  function RequestedVersion(input: GetSecretValueInput): Bytes
  {
    match input.versionId
    case Some(id) => UuidPrefix + id
    case None => if input.versionStage.Some? then input.versionStage.value else []
  }

  /** The request loses nothing of the reference: its selector gives back the
      reference's version, or AWSCURRENT when none was given. */
  lemma BuildGetSecretValueInputRoundTrip(ref: ExternalSecretRef)
    ensures RequestedVersion(BuildGetSecretValueInput(ref)) ==
              if ref.version == [] then AwsCurrent else ref.version
  {
    var input := BuildGetSecretValueInput(ref);
    if HasPrefix(ref.version, UuidPrefix) {
      assert UuidPrefix + ref.version[|UuidPrefix|..] == ref.version;
    }
  }

  /** The payload searched for a property: the binary payload when there is
      one, since it is assigned after the string payload; else the string
      payload; else empty. */
  function GjsonPayload(output: GetSecretValueOutput): (payload: Bytes)
    ensures output.secretBinary.Some? ==> payload == output.secretBinary.value
    ensures output.secretBinary.None? && output.secretString.Some? ==>
              payload == output.secretString.value
    ensures output.secretBinary.None? && output.secretString.None? ==> payload == []
  {
    var payload := if output.secretString.Some? then output.secretString.value else [];
    if output.secretBinary.Some? then output.secretBinary.value else payload
  }

  /** `property` with every `.` escaped, so that gjson reads it as one key. */
  function EscapeDots(property: Bytes): (escaped: Bytes)
    ensures |escaped| == |property| + Count(property, '.')
    ensures escaped == property <==> '.' !in property
  {
    ReplaceAllLength(property, '.', "\\.");
    ReplaceAll(property, '.', "\\.")
  }

  /** Resolves `property` in the payload: the escaped, literal key first,
      and the property as a nested path only when the literal key is absent.
      A property without dots is its own escaped form. */
  function ConvertSecretToGjson(output: GetSecretValueOutput, property: Bytes, lookup: Lookup): (r: Option<Bytes>)
    ensures var payload := GjsonPayload(output);
            && (lookup(payload, EscapeDots(property)).Some? ==> r == lookup(payload, EscapeDots(property)))
            && (lookup(payload, EscapeDots(property)).None? ==> r == lookup(payload, property))
    ensures r.Some? <==> lookup(GjsonPayload(output), EscapeDots(property)).Some?
                         || lookup(GjsonPayload(output), property).Some?
    ensures '.' !in property ==> r == lookup(GjsonPayload(output), property)
  {
    var payload := GjsonPayload(output);
    var current :=
      if Index(property, '.') > -1 then
        var escaped := EscapeDots(property);
        if lookup(payload, escaped).Some? then escaped else property
      else property;
    lookup(payload, current)
  }

  /** A store built by `NewSecretStore`, holding its AWS client. */
  datatype SmSecretStore = SmSecretStore(client: Client) {

    /** Fetches the value `ref` names. A missing secret is no value and no
        error; any other client error is returned as it is. Without a
        property the string payload is returned, else the binary one, else
        an error naming the secret. With a property the resolved value's
        string form is returned, or an error naming property and secret. */
    function GetSecret(ref: ExternalSecretRef, lookup: Lookup): (r: Result<Option<Bytes>, Error>)
      ensures var answer := client(BuildGetSecretValueInput(ref));
              && (answer.ResourceNotFound? ==> r == Success(None))
              && (answer.Failed? ==> r == Failure(Backend(answer.cause)))
              && (answer.Answered? && ref.property == [] ==>
                    var out := answer.output;
                    && (out.secretString.Some? ==> r == Success(Some(out.secretString.value)))
                    && (out.secretString.None? && out.secretBinary.Some? ==>
                          r == Success(Some(out.secretBinary.value)))
                    && (out.secretString.None? && out.secretBinary.None? ==>
                          r == Failure(NoSecretData(ref.name))))
              && (answer.Answered? && ref.property != [] ==>
                    var value := ConvertSecretToGjson(answer.output, ref.property, lookup);
                    && (value.None? ==> r == Failure(KeyNotFound(ref.property, ref.name)))
                    && (value.Some? ==> r == Success(Some(value.value))))
    {
      var input := BuildGetSecretValueInput(ref);
      match client(input)
      case ResourceNotFound => Success(None)
      case Failed(cause) => Failure(Backend(cause))
      case Answered(out) =>
        if ref.property == [] then
          if out.secretString.Some? then Success(Some(out.secretString.value))
          else if out.secretBinary.Some? then Success(Some(out.secretBinary.value))
          else Failure(NoSecretData(ref.name))
        else
          var value := ConvertSecretToGjson(out, ref.property, lookup);
          if value.None? then Failure(KeyNotFound(ref.property, ref.name))
          else Success(Some(value.value))
    }

    /** Writing is not supported by this store. */
    function SetSecret(ref: ExternalSecretRef, secretValue: Bytes): (err: Option<Error>)
      ensures err == Some(MethodNotImplemented("AWS Secret Manager", "SetSecret"))
    {
      Some(MethodNotImplemented("AWS Secret Manager", "SetSecret"))
    }
  }

  /** No value without an error happens exactly when the client reports that
      the secret does not exist. */
  lemma GetSecretNilIffNotFound(store: SmSecretStore, ref: ExternalSecretRef, lookup: Lookup)
    ensures store.GetSecret(ref, lookup) == Success(None) <==>
              store.client(BuildGetSecretValueInput(ref)).ResourceNotFound?
  {
  }

  /** Every error of `GetSecret` is the client's own error or names the
      secret `ref.name`. */
  lemma GetSecretErrorsNameTheSecret(store: SmSecretStore, ref: ExternalSecretRef, lookup: Lookup)
    requires store.GetSecret(ref, lookup).Failure?
    ensures var e := store.GetSecret(ref, lookup).error;
            e.Backend? || (e.NoSecretData? && e.name == ref.name)
            || (e == KeyNotFound(ref.property, ref.name))
  {
  }

  /** The result of `SetSecret` depends on nothing: not on the client, the
      reference or the value. */
  lemma SetSecretIgnoresEverything(s1: SmSecretStore, s2: SmSecretStore, r1: ExternalSecretRef,
                                   r2: ExternalSecretRef, v1: Bytes, v2: Bytes)
    ensures s1.SetSecret(r1, v1) == s2.SetSecret(r2, v2)
    ensures s1.SetSecret(r1, v1).Some?
  {
  }

  /** The factory of Secrets Manager stores. */
  datatype DefaultSecretStoreProvider = DefaultSecretStoreProvider {

    /** Builds a store from `spec`: a missing provider is reported first,
        then a missing AWS field; only then is a session created from the
        AWS region and profile, and its failure is wrapped. */
    function NewSecretStore(spec: SecretStoreSpec, session: Session): (r: Result<SmSecretStore, Error>)
      ensures spec.provider.None? ==> r == Failure(MissingProviderSpec)
      ensures spec.provider.Some? && spec.provider.value.aws.None? ==> r == Failure(MissingAwsProvider)
      ensures spec.provider.Some? && spec.provider.value.aws.Some? ==>
                var aws := spec.provider.value.aws.value;
                match session(aws.region, aws.profile)
                case Failure(cause) => r == Failure(SessionFailed(cause))
                case Success(client) => r == Success(SmSecretStore(client))
    {
      if spec.provider.None? then Failure(MissingProviderSpec)
      else if spec.provider.value.aws.None? then Failure(MissingAwsProvider)
      else
        var aws := spec.provider.value.aws.value;
        match session(aws.region, aws.profile)
        case Failure(cause) => Failure(SessionFailed(cause))
        case Success(client) => Success(SmSecretStore(client))
    }
  }

  /** Both checks of `NewSecretStore` come before the session: a spec that
      fails them gives the same error whatever the session would do. */
  lemma NewSecretStoreValidatesBeforeSession(p: DefaultSecretStoreProvider, spec: SecretStoreSpec,
                                             s1: Session, s2: Session)
    requires spec.provider.None? || spec.provider.value.aws.None?
    ensures p.NewSecretStore(spec, s1) == p.NewSecretStore(spec, s2)
    ensures p.NewSecretStore(spec, s1).Failure?
  {
  }

  /** The package's `init`: registers the Secrets Manager factory under the
      AWS variant's key. */
  method Init(registry: Registry<DefaultSecretStoreProvider>)
    modifies registry
    ensures registry.providers == old(registry.providers)["aws" := DefaultSecretStoreProvider]
  {
    var spec := ProviderSpec(Some(AwsProvider([], [])), None);
    registry.Register(DefaultSecretStoreProvider, spec);
  }
}
