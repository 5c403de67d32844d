/** Data access rights derived from an authenticated scope (internal/datacas/cas). */
module Access {
  import opened Base

  datatype Scope = ScopeAdmin | ScopeUser

  datatype AccessContext = AccessContext(scope: Scope, allowed: set<Bytes>)

  /** Builds the owner set; empty owner hashes are dropped. */
  method NewAccessContext(scope: Scope, owners: seq<Bytes>) returns (a: AccessContext)
    ensures a == ContextFor(scope, owners)
  {
    var allowed: set<Bytes> := {};
    for i := 0 to |owners|
      invariant allowed == set h | h in owners[..i] && h != []
    {
      if owners[i] != [] {
        allowed := allowed + {owners[i]};
      }
    }
    assert owners[..|owners|] == owners;
    return AccessContext(scope, allowed);
  }

  function ContextFor(scope: Scope, owners: seq<Bytes>): AccessContext {
    AccessContext(scope, set h | h in owners && h != [])
  }

  predicate CanAccessData(a: AccessContext, owner: Bytes) {
    a.scope == ScopeAdmin || (owner != [] && owner in a.allowed)
  }
}
