/** The configuration records of the `v1` API package that the secret
    stores read. A Go pointer field that may be nil is an `Option`. */
module Api {
  import opened Wrappers
  import opened GoStrings

  /** Identifies one secret value: the secret's name, an optional dotted
      property path into its JSON payload, and an optional version selector
      (empty means "not given"). */
  datatype ExternalSecretRef = ExternalSecretRef(name: Bytes, property: Bytes, version: Bytes)

  /** Connection parameters of the AWS variant. */
  datatype AwsProvider = AwsProvider(region: Bytes, profile: Bytes)

  /** The on-premises variant, identified by its own name. */
  datatype OnPremisesProvider = OnPremisesProvider(name: Bytes)

  /** `v1.ProviderSpec`: meant to have exactly one variant set. */
  datatype ProviderSpec = ProviderSpec(aws: Option<AwsProvider>, onPremises: Option<OnPremisesProvider>)

  /** `v1.SecretStore`: the spec a store is built from. */
  datatype SecretStoreSpec = SecretStoreSpec(provider: Option<ProviderSpec>)
}
