# Secret retrieval: AWS Secrets Manager store and provider registry

A Dafny model of two parts of the secret-retrieval layer:

- the **AWS Secrets Manager secret store** (`pkg/secrets/providers/aws/secretsmanager/secretsmanager.go`):
  validation in `NewSecretStore`, the request built from an `ExternalSecretRef`
  (`AWSCURRENT` by default, `uuid/<id>` as a version id, anything else as a
  version stage), the normalisation of the client's answer in `GetSecret`
  (not-found is "no value, no error"; string payload before binary payload;
  an error when there is neither), the property resolution of
  `convertSecretToGjson` (binary payload over string payload; a dotted
  property tried first as one literal key with every `.` escaped as `\.`,
  then as a nested path), the always-failing `SetSecret`, and the `init`
  self-registration;
- the **provider registry** as its test states it (`pkg/secrets/providers_test.go`):
  a spec with exactly one variant is registered under `"aws"` for the AWS
  variant and under the variant's `Name` for the on-premises one, a spec
  without a variant is refused, and `GetProviderByName` then finds the
  provider; plus the test's fake store and fake factory.

Files and modules:

| file | module | contents |
|---|---|---|
| `wrappers.dfy` | `Wrappers` | `Option`, `Result` |
| `go_strings.dfy` | `GoStrings` | bytes, `HasPrefix`, `TrimPrefix`, `Index`, `ReplaceAll` |
| `api.dfy` | `Api` | `ExternalSecretRef`, `ProviderSpec` and its variants, `SecretStoreSpec` |
| `secrets.dfy` | `Secrets` | error values, registry key of a spec, `Registry` class |
| `gjson.dfy` | `Gjson` | a small JSON document type and gjson's path syntax, used for examples |
| `secretsmanager.dfy` | `SecretsManager` | the Secrets Manager store |
| `providers_test.dfy` | `ProvidersTest` | fakes and the registration scenario |
| `secretsmanager_examples.dfy` | `SecretsManagerExamples` | concrete references and payloads |

Go strings and byte slices are both modelled as `Bytes` (a sequence of
one-byte characters), so `[]byte(s)` and `string(b)` are the identity. The
nil-able pointer fields the code tests (`spec.Provider`,
`providerSpec.AWS`, `SecretString`, `SecretBinary`) are `Option`s, and Go's `(value, error)` results
are `Result`s. The AWS client (`GetSecretValue`), the credential loader
(`auth.NewV2Config` followed by `secretsmanager.NewFromConfig`) and gjson's
`Get` are parameters of type `Client`, `Session` and `Lookup`.

The two payloads are ranked differently on the two paths of `GetSecret`.
With an empty property the string payload comes first
(`secretsmanager.go:69-74`). With a property the code searches the
**binary** payload when both are set, because `secretsmanager.go:113-118`
assigns the binary one last. The model keeps both orders as written.

## Model

| member | source | states |
|---|---|---|
| `GoStrings.HasPrefix` | pkg/secrets/providers/aws/secretsmanager/secretsmanager.go:96 | true exactly when the string is at least as long as the prefix and agrees with it byte by byte |
| `GoStrings.TrimPrefix` | pkg/secrets/providers/aws/secretsmanager/secretsmanager.go:97 | with the prefix present, prefix + result is the input; otherwise the input is unchanged |
| `GoStrings.Index` | pkg/secrets/providers/aws/secretsmanager/secretsmanager.go:121-123 | -1 exactly when the byte is absent; otherwise the position of its first occurrence |
| `GoStrings.ReplaceAll` | pkg/secrets/providers/aws/secretsmanager/secretsmanager.go:124 | a string without the byte is unchanged; when the replacement lacks the byte, no occurrence is left |
| `GoStrings.ReplaceAllMatch` | pkg/secrets/providers/aws/secretsmanager/secretsmanager.go:124 | a lone occurrence of the byte becomes the replacement |
| `GoStrings.ReplaceAllOther` | pkg/secrets/providers/aws/secretsmanager/secretsmanager.go:124 | a lone other byte is copied unchanged |
| `GoStrings.ReplaceAllAppend` | pkg/secrets/providers/aws/secretsmanager/secretsmanager.go:124 | replacement distributes over concatenation, so with the two one-byte lemmas it fixes the result for every string: each occurrence becomes the replacement, every other byte is copied, in order |
| `GoStrings.ReplaceAllLength` | pkg/secrets/providers/aws/secretsmanager/secretsmanager.go:124 | the result's length is the input's, minus one per occurrence, plus the replacement's length per occurrence |
| `SecretsManager.EscapeDots` | pkg/secrets/providers/aws/secretsmanager/secretsmanager.go:124 | the escaped property is one byte longer per dot, and equals the property exactly when it has no dot |
| `Secrets.ProviderName` | pkg/secrets/providers_test.go:41-64 | a key exists exactly when one variant is set: "aws" for the AWS variant, the on-premises variant's name otherwise; no variant or several is an error carrying the count |
| `Secrets.Registry.Register` | pkg/secrets/providers_test.go:71-81 | requires a spec with exactly one variant (the source panics otherwise); the map gains or overwrites only that key, which then finds the factory; every other key's lookup is unchanged |
| `Secrets.Registry.GetProviderByName` | pkg/secrets/providers_test.go:80-81 | found exactly when the key is registered, and then yields the registered factory |
| `Gjson.Get` | pkg/secrets/providers/aws/secretsmanager/secretsmanager.go:125-131 | stand-in for `gjson.Get`, used only by the examples: a path without dots or backslashes reads the top-level member of that name |
| `Gjson.SplitPlain` | pkg/secrets/providers/aws/secretsmanager/secretsmanager.go:126-131 | in the stand-in's path syntax, a path without dots or backslashes is looked up as one key |
| `Gjson.SplitAtDot` | pkg/secrets/providers/aws/secretsmanager/secretsmanager.go:126-131 | in the stand-in's path syntax, an unescaped dot ends one key and starts the next, so the raw dotted property is a nested path |
| `Gjson.SplitEscaped` | pkg/secrets/providers/aws/secretsmanager/secretsmanager.go:124-125 | in the stand-in's path syntax, the escaped form of a backslash-free property is read back as exactly that property, whatever key was read before |
| `Gjson.EscapedPathIsOneKey` | pkg/secrets/providers/aws/secretsmanager/secretsmanager.go:124-125 | in the stand-in's path syntax, escaping every dot turns a backslash-free property into a path of one component, the property itself (not true of gjson for properties with wildcards, pipes or modifiers) |
| `Gjson.EscapedLookupIsTopLevel` | pkg/secrets/providers/aws/secretsmanager/secretsmanager.go:124-125 | in the stand-in, looking up the escaped property reads the top-level key spelled like the property, dots included (not true of gjson for properties with wildcards, pipes or modifiers) |
| `SecretsManager.BuildGetSecretValueInput` | pkg/secrets/providers/aws/secretsmanager/secretsmanager.go:90-109 | the secret id is always the reference's name and exactly one selector is set: stage AWSCURRENT for an empty version, the id after `uuid/` for a `uuid/` version, the version itself as stage otherwise |
| `SecretsManager.BuildGetSecretValueInputRoundTrip` | pkg/secrets/providers/aws/secretsmanager/secretsmanager.go:91-107 | the request's selector, written back as a version, is the reference's version, or AWSCURRENT when none was given |
| `SecretsManager.GjsonPayload` | pkg/secrets/providers/aws/secretsmanager/secretsmanager.go:112-118 | the searched payload is the binary one whenever it is set, else the string one, else empty |
| `SecretsManager.ConvertSecretToGjson` | pkg/secrets/providers/aws/secretsmanager/secretsmanager.go:111-132 | the literal (escaped) key's value when it exists, else the nested path's; found exactly when either is; a property without dots is looked up as is |
| `SecretsManager.SmSecretStore.GetSecret` | pkg/secrets/providers/aws/secretsmanager/secretsmanager.go:58-82 | for the request built from the reference: not-found gives no value and no error; other client errors pass through; without a property, string payload, else binary, else an error naming the secret; with one, the resolved value or an error naming property and secret |
| `SecretsManager.GetSecretNilIffNotFound` | pkg/secrets/providers/aws/secretsmanager/secretsmanager.go:61-81 | "no value, no error" happens if and only if the client reports resource-not-found |
| `SecretsManager.GetSecretErrorsNameTheSecret` | pkg/secrets/providers/aws/secretsmanager/secretsmanager.go:65-80 | every error is the client's own or names the requested secret (and the property, when it is a missing key) |
| `SecretsManager.SmSecretStore.SetSecret` | pkg/secrets/providers/aws/secretsmanager/secretsmanager.go:85-87 | always the "method not implemented" error for provider "AWS Secret Manager" and method "SetSecret" |
| `SecretsManager.SetSecretIgnoresEverything` | pkg/secrets/providers/aws/secretsmanager/secretsmanager.go:85-87 | the result of SetSecret does not depend on the client, the reference or the value, and is always an error |
| `SecretsManager.DefaultSecretStoreProvider.NewSecretStore` | pkg/secrets/providers/aws/secretsmanager/secretsmanager.go:34-51 | a missing provider is reported first, then a missing AWS field; otherwise a session failure is wrapped, and a session's client becomes the store's client |
| `SecretsManager.NewSecretStoreValidatesBeforeSession` | pkg/secrets/providers/aws/secretsmanager/secretsmanager.go:35-43 | a spec failing either check fails whatever the session collaborator would do, so no session is needed |
| `SecretsManager.Init` | pkg/secrets/providers/aws/secretsmanager/secretsmanager.go:134-138 | the Secrets Manager factory is registered under "aws", nothing else changes |
| `ProvidersTest.FakeSecretStore.GetSecret` | pkg/secrets/providers_test.go:16-18 | always "NOOP" with no error |
| `ProvidersTest.FakeSecretStore.SetSecret` | pkg/secrets/providers_test.go:21-23 | always no error |
| `ProvidersTest.FakeSecretStoreProvider.NewSecretStore` | pkg/secrets/providers_test.go:29-31 | always succeeds with a fake store, whatever the spec |
| `ProvidersTest.EmptySpecHasNoKey` | pkg/secrets/providers_test.go:41-45 | a spec with no variant has no key, so it cannot be registered |
| `ProvidersTest.TestRegister` | pkg/secrets/providers_test.go:33-84 | registering the AWS spec and then the "customplaform" on-premises spec on one registry, both "aws" and "customplaform" are found afterwards |
| `SecretsManagerExamples.UuidVersionIsVersionId` | pkg/secrets/providers/aws/secretsmanager/secretsmanager.go:96-101 | version `uuid/abc123` is sent as version id `abc123` with no stage |
| `SecretsManagerExamples.OtherVersionIsStage` | pkg/secrets/providers/aws/secretsmanager/secretsmanager.go:102-106 | version `AWSPREVIOUS` is sent as that stage with no id |
| `SecretsManagerExamples.NoVersionIsCurrentStage` | pkg/secrets/providers/aws/secretsmanager/secretsmanager.go:91-94 | no version is sent as stage AWSCURRENT |
| `SecretsManagerExamples.LiteralKeyWins` | pkg/secrets/providers/aws/secretsmanager/secretsmanager.go:120-131 | in `{"a.b":"x","a":{"b":"y"}}` property `a.b` yields "x" |
| `SecretsManagerExamples.NestedPathFallback` | pkg/secrets/providers/aws/secretsmanager/secretsmanager.go:126-131 | in `{"a":{"b":"y"}}` property `a.b` yields "y" |
| `SecretsManagerExamples.MissingPropertyIsError` | pkg/secrets/providers/aws/secretsmanager/secretsmanager.go:77-80 | in `{"a":1}` property `missing` is an error naming the property and the secret |

## Left out

- The AWS SDK client and its network call: the client is a function from request to answer (resource-not-found, another error, or a response), with no cancellation through `context.Context`.
- `auth.NewV2Config` and `secretsmanager.NewFromConfig`: one `Session` parameter from region and profile to a client or an opaque cause.
- gjson: `Lookup` is a parameter. The `Gjson` module is a small stand-in used only for the concrete examples and the escaping lemmas: no arrays, wildcards, modifiers or other path syntax, and strings are rendered without JSON escapes.
- The escaping lemmas hold for the stand-in's path syntax only, and only for properties without backslashes. In gjson's own syntax, other characters also keep the escaped property from being read as one literal key: `\` escapes the next byte; `*` and `?` are wildcards and `|` is a pipe anywhere in a component; and a component starting with `@`, `!`, `[`, `{` or `..` has its own meaning. For example, on `{"a.bc":"1"}` the property `a.b*` is escaped to `a\.b*`, which gjson matches as a wildcard, so `GetSecret` returns "1".
- Error messages: error values are datatype variants carrying the names the message would contain, not formatted text.
- The registry's own source file (`pkg/secrets/providers.go`) is not part of this model; its contract is taken from its test. Only the AWS and on-premises variants of `ProviderSpec` are modelled.
- Secrets.Registry.Register: panics in the source on a spec without exactly one variant; the model makes that a precondition, so the panic itself is not modelled.
- The process-wide registry global and concurrent lookups: the registry is an explicit object, and `init` is a method that registers into it.
- A nil `spec` passed to `NewSecretStore` (`secretsmanager.go:34-35`): the code dereferences it and panics. The model's `SecretStoreSpec` is always present, so that panic is not modelled. Only the nil `Provider` and nil `AWS` fields, which the code tests, are `Option`s.
- Go's distinction between a nil and an empty byte slice: "no value" is `None`; an empty payload is `Some([])`.
