/** The fakes of the `secrets` package's tests and the registration
    scenario its registry test runs. */
module ProvidersTest {
  import opened Wrappers
  import opened GoStrings
  import opened Api
  import opened Secrets

  /** A store that answers every read with "NOOP" and accepts every write. */
  datatype FakeSecretStore = FakeSecretStore {

    function GetSecret(ref: ExternalSecretRef): (r: Result<Option<Bytes>, Error>)
      ensures r == Success(Some("NOOP"))
    {
      Success(Some("NOOP"))
    }

    function SetSecret(ref: ExternalSecretRef, secretValue: Bytes): (err: Option<Error>)
      ensures err.None?
    {
      None
    }
  }

  /** A factory that builds a fake store from any spec. */
  datatype FakeSecretStoreProvider = FakeSecretStoreProvider {

    function NewSecretStore(spec: SecretStoreSpec): (r: Result<FakeSecretStore, Error>)
      ensures r == Success(FakeSecretStore)
    {
      Success(FakeSecretStore)
    }
  }

  /** A spec with no variant set has no registry key, so registering it is
      refused (the source panics). */
  lemma EmptySpecHasNoKey()
    ensures ProviderName(ProviderSpec(None, None)) == Failure(InvalidProviderSpec(0))
  {
  }

  /** The registry test's valid cases, in order, on one shared registry: an
      AWS spec is then found under "aws", and an on-premises spec named
      "customplaform" under that name, the first still being there. */
  method TestRegister() returns (awsFound: bool, onPremisesFound: bool)
    ensures awsFound && onPremisesFound
  {
    var registry := new Registry<FakeSecretStoreProvider>();
    var fake := FakeSecretStoreProvider;

    registry.Register(fake, ProviderSpec(Some(AwsProvider([], [])), None));
    awsFound := registry.GetProviderByName("aws").Some?;

    registry.Register(fake, ProviderSpec(None, Some(OnPremisesProvider("customplaform"))));
    onPremisesFound := registry.GetProviderByName("customplaform").Some?;
    awsFound := awsFound && registry.GetProviderByName("aws").Some?;
  }
}
