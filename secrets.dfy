/** The `secrets` package: the error values shared by every store, and the
    registry that maps a provider kind to the factory that builds its
    stores. */
module Secrets {
  import opened Wrappers
  import opened GoStrings
  import opened Api

  /** An error produced by a collaborator the model does not look into (the
      AWS client, the credential loader); only its identity matters. */
  datatype Cause = Cause(message: Bytes)

  /** Every error value a store or the registry can produce. */
  datatype Error =
    | InvalidProviderSpec(variants: nat)
    | MissingProviderSpec
    | MissingAwsProvider
    | SessionFailed(cause: Cause)
    | MethodNotImplemented(provider: Bytes, operation: Bytes)
    | NoSecretData(name: Bytes)
    | KeyNotFound(property: Bytes, name: Bytes)
    | Backend(cause: Cause)

  /** How many variants of `spec` are set. */
  function VariantCount(spec: ProviderSpec): nat
  {
    (if spec.aws.Some? then 1 else 0) + (if spec.onPremises.Some? then 1 else 0)
  }

  /** The registry key of a provider spec: "aws" for the AWS variant, the
      variant's own name for the on-premises one. A spec with no variant or
      with several has no key. */
  function ProviderName(spec: ProviderSpec): (r: Result<Bytes, Error>)
    ensures r.Success? <==> VariantCount(spec) == 1
    ensures r.Failure? ==> r.error == InvalidProviderSpec(VariantCount(spec))
    ensures r.Success? && spec.aws.Some? ==> r.value == "aws"
    ensures r.Success? && spec.onPremises.Some? ==> r.value == spec.onPremises.value.name
  {
    match (spec.aws, spec.onPremises)
    case (Some(_), None) => Success("aws")
    case (None, Some(onPremises)) => Success(onPremises.name)
    case _ => Failure(InvalidProviderSpec(VariantCount(spec)))
  }

  /** The provider registry: a map from kind key to factory. Registration
      overwrites an earlier factory under the same key. */
  class Registry<F> {
    var providers: map<Bytes, F>

    constructor ()
      ensures providers == map[]
    {
      providers := map[];
    }

    /** Registers `factory` under the key of `spec`. The source panics on a
        spec without exactly one variant; here that is a precondition. */
    method Register(factory: F, spec: ProviderSpec)
      requires ProviderName(spec).Success?
      modifies this
      ensures providers == old(providers)[ProviderName(spec).value := factory]
      ensures GetProviderByName(ProviderName(spec).value) == Some(factory)
      ensures forall name :: name != ProviderName(spec).value ==>
                GetProviderByName(name) == old(GetProviderByName(name))
    {
      var name := ProviderName(spec).value;
      providers := providers[name := factory];
    }

    /** The factory registered under `name`; `None` plays the role of the
        source's `false` found flag. */
    function GetProviderByName(name: Bytes): (r: Option<F>)
      reads this
      ensures r.Some? <==> name in providers
      ensures r.Some? ==> r.value == providers[name]
    {
      if name in providers then Some(providers[name]) else None
    }
  }
}
