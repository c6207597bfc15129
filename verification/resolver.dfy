/** The memoising compartment-name lookup of `get_compartment_name`.
    The per-analyzer cache is threaded explicitly; the identity service's
    `get_compartment` is a pure function that answers `None` when it raises. */
module Resolver {
  import opened Maybe
  import opened Text

  /** Compartment identifier to display name. */
  type Cache = map<String, String>

  /** What the resolver needs from the analyzer: the tenancy identifier from
      the configuration, and the `get_compartment(id).data.name` call. */
  datatype Env = Env(tenancy: String, lookup: String -> Option<String>)

  /** The name returned, the cache afterwards, and whether the identity
      service was called. */
  datatype Resolved = Resolved(name: String, cache: Cache, queried: bool)

  /** The display name of the tenancy's root compartment. */
  const RootName: String := "root"

  /** The name an identifier stands for when nothing is cached: "root" for
      the tenancy, the service's answer, or the raw identifier when the
      service fails. */
  function NameOf(env: Env, id: String): String {
    if id == env.tenancy then RootName else env.lookup(id).GetOr(id)
  }

  /** `after` keeps every entry of `before` unchanged. */
  ghost predicate Extends(before: Cache, after: Cache) {
    forall k :: k in before ==> k in after && after[k] == before[k]
  }

  /** Every cached entry is what a fresh lookup yields: the tenancy maps to
      "root" and every other key to the service's successful answer (so a
      failure's fallback is never cached). */
  ghost predicate Faithful(env: Env, cache: Cache) {
    forall k :: k in cache ==>
      if k == env.tenancy then cache[k] == RootName else env.lookup(k) == Some(cache[k])
  }

  /** `get_compartment_name`: the cache first, then the tenancy root, then
      the identity service; only the first two outcomes and a successful
      call are remembered. */
  function Resolve(cache: Cache, env: Env, id: String): (r: Resolved)
    ensures Extends(cache, r.cache)
    ensures r.cache.Keys <= cache.Keys + {id}
    ensures id in cache ==> r.name == cache[id] && r.cache == cache
    ensures r.queried <==> id !in cache && id != env.tenancy
    ensures id !in cache ==> r.name == NameOf(env, id)
    ensures id in r.cache <==> id in cache || id == env.tenancy || env.lookup(id).Some?
    ensures id in r.cache ==> r.cache[id] == r.name
    ensures Faithful(env, cache) ==> Faithful(env, r.cache) && r.name == NameOf(env, id)
  {
    if id in cache then Resolved(cache[id], cache, false)
    else if id == env.tenancy then Resolved(RootName, cache[id := RootName], false)
    else
      match env.lookup(id)
      case Some(name) => Resolved(name, cache[id := name], true)
      case None => Resolved(id, cache, true)
  }

  /** Once a lookup has been remembered, asking again answers the same name,
      leaves the cache alone and does not call the identity service. */
  lemma ResolveAgain(cache: Cache, env: Env, id: String)
    requires id in Resolve(cache, env, id).cache
    ensures var first := Resolve(cache, env, id);
            Resolve(first.cache, env, id) == Resolved(first.name, first.cache, false)
  {
  }

  /** A failing lookup leaves the cache as it was, so every later request
      for the same identifier calls the service again and again falls back
      to the raw identifier. */
  lemma FailureIsRetried(cache: Cache, env: Env, id: String)
    requires id !in cache && id != env.tenancy && env.lookup(id).None?
    ensures var first := Resolve(cache, env, id);
            first == Resolved(id, cache, true) && Resolve(first.cache, env, id) == first
  {
  }

  /** The tenancy identifier resolves to "root" without a service call,
      whatever the service would have said about it. */
  lemma TenancyIsRoot(cache: Cache, env: Env)
    requires Faithful(env, cache)
    ensures var r := Resolve(cache, env, env.tenancy);
            r.name == RootName && !r.queried && r.cache[env.tenancy] == RootName
  {
  }

  /** The empty cache of a fresh analyzer is faithful. */
  lemma EmptyIsFaithful(env: Env)
    ensures Faithful(env, map[])
  {
  }
}
