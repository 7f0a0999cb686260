/** The one-entry cache in front of the policy hash (src/config.rs). */
module HashCache {
  import opened Basics

  /** What a lookup leaves in the cache, returns, and whether it had to compute. */
  function Lookup(inner: Option<(string, string)>, material: string, compute: string -> string)
    : (Option<(string, string)>, string, bool)
  {
    if inner.Some? && inner.value.0 == material then (inner, inner.value.1, false)
    else (Some((material, compute(material))), compute(material), true)
  }

  class PolicyHashCache {
    var inner: Option<(string, string)>

    constructor ()
      ensures inner == None
    {
      inner := None;
    }

    /** `get_or_compute`; `computed` reports whether the function ran. */
    method GetOrCompute(material: string, compute: string -> string) returns (hash: string, computed: bool)
      modifies this
      ensures (inner, hash, computed) == Lookup(old(inner), material, compute)
    {
      if inner.Some? && inner.value.0 == material {
        return inner.value.1, false;
      }
      hash := compute(material);
      inner := Some((material, hash));
      computed := true;
    }
  }

  /** The cache after a run of lookups. */
  function After(materials: seq<string>, compute: string -> string): Option<(string, string)> {
    if materials == [] then None
    else Lookup(After(materials[..|materials| - 1], compute), materials[|materials| - 1], compute).0
  }

  /** How often a run computes. */
  function Computations(materials: seq<string>, compute: string -> string): nat {
    if materials == [] then 0
    else
      var before := materials[..|materials| - 1];
      Computations(before, compute) + if Lookup(After(before, compute), materials[|materials| - 1], compute).2 then 1 else 0
  }

  /** How often the material differs from the one before it, the first counting as a change. */
  function Changes(materials: seq<string>): nat {
    if materials == [] then 0
    else
      var n := |materials| - 1;
      Changes(materials[..n]) + if n == 0 || materials[n] != materials[n - 1] then 1 else 0
  }

  lemma CacheHoldsLast(materials: seq<string>, compute: string -> string)
    requires materials != []
    ensures var last := materials[|materials| - 1]; After(materials, compute) == Some((last, compute(last)))
  {
  }

  /** Over every run each lookup returns what a fresh computation would, and computes only on a change. */
  lemma {:induction false} CacheIsTransparent(materials: seq<string>, compute: string -> string, next: string)
    ensures Lookup(After(materials, compute), next, compute).1 == compute(next)
    ensures Computations(materials, compute) == Changes(materials)
  {
    if materials == [] {
    } else {
      var before := materials[..|materials| - 1];
      CacheIsTransparent(before, compute, next);
      CacheHoldsLast(materials, compute);
      if before != [] { CacheHoldsLast(before, compute); }
    }
  }
}
