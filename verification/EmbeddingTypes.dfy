/** Route decisions, profiles and cache keys of embedding requests. */
module EmbeddingTypes {
  import opened Wrappers

  datatype Route = UnknownRoute | Cloud | Ollama | DeterministicHash

  type Vector = seq<real>

  const MAX_DIMENSION: nat := 32_768

  /** What a request has been decided to do; the Ollama path rewrites model and artifact. */
  datatype Decision = Decision(
    route: Route,
    provider: string,
    endpoint: Option<string>,
    model: string,
    expectedDimension: Option<nat>,
    deployment: Option<string>,
    artifact: Option<string>)

  /** The identity of a vector space; its id is a digest of the other fields. */
  datatype Profile =
    | UnknownProfile
    | Profile(route: Route, provider: string, model: string, deployment: string, artifact: string, dimension: nat)

  /** The fields the key string is put together from; the text enters by its digest. */
  datatype CacheKey = CacheKey(
    route: Route,
    provider: string,
    endpoint: Option<string>,
    model: string,
    expectedDimension: Option<nat>,
    deployment: Option<string>,
    artifact: Option<string>,
    text: string)

  datatype Cached = Cached(vector: Vector, profile: Profile, stabilityVerified: bool)

  function KeyFor(d: Decision, text: string): CacheKey {
    CacheKey(d.route, d.provider, d.endpoint, d.model, d.expectedDimension, d.deployment, d.artifact, text)
  }
}
