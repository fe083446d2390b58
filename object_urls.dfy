/**
 * The browser's object-URL store as the client page uses it: `URL.createObjectURL` hands
 * out a new handle that stays live until `URL.revokeObjectURL` releases it. Handles are
 * numbered in creation order; every revocation is logged so that "released exactly once"
 * can be stated.
 */
module ObjectUrls {

  /** `next` is the number of handles created so far; `revocations` lists releases in order. */
  datatype Registry = Registry(next: nat, live: set<nat>, revocations: seq<nat>)

  /** No handle appears twice in `xs`. */
  predicate Distinct(xs: seq<nat>)
  {
    forall i, j :: 0 <= i < j < |xs| ==> xs[i] != xs[j]
  }

  /**
   * The store's invariant: live and revoked handles were all created, none is both,
   * none was revoked twice, and every created handle is either still live or revoked.
   */
  ghost predicate Valid(r: Registry)
  {
    (forall h :: h in r.live ==> h < r.next)
    && (forall i :: 0 <= i < |r.revocations| ==> r.revocations[i] < r.next && r.revocations[i] !in r.live)
    && Distinct(r.revocations)
    && (forall h :: 0 <= h < r.next ==> h in r.live || h in r.revocations)
  }

  /** The store before the page has created anything. */
  function Empty(): (r: Registry)
    ensures Valid(r) && r.live == {} && r.revocations == []
  {
    Registry(0, {}, [])
  }

  /** `URL.createObjectURL`: a handle never handed out before, now live. */
  function Create(r: Registry): (res: (Registry, nat))
    requires Valid(r)
    ensures Valid(res.0)
    ensures res.1 !in r.live && res.1 !in r.revocations && res.1 < res.0.next
    ensures res.0.live == r.live + {res.1} && res.0.revocations == r.revocations
  {
    (Registry(r.next + 1, r.live + {r.next}, r.revocations), r.next)
  }

  /** `URL.revokeObjectURL` on a live handle: it is released and logged, once. */
  function Revoke(r: Registry, h: nat): (res: Registry)
    requires Valid(r) && h in r.live
    ensures Valid(res)
    ensures res.next == r.next && res.live == r.live - {h} && res.revocations == r.revocations + [h]
  {
    Registry(r.next, r.live - {h}, r.revocations + [h])
  }

  /** In a list without repeats, a member occurs exactly once. */
  lemma {:induction false} DistinctCount(xs: seq<nat>, x: nat)
    requires Distinct(xs) && x in xs
    ensures multiset(xs)[x] == 1
  {
    if xs[0] == x {
      assert x !in xs[1..];
    } else {
      DistinctCount(xs[1..], x);
    }
    assert xs == [xs[0]] + xs[1..];
  }

  /** Once nothing is live any more, every handle ever created was released exactly once. */
  lemma ReleasedExactlyOnce(r: Registry, h: nat)
    requires Valid(r) && r.live == {} && h < r.next
    ensures multiset(r.revocations)[h] == 1
  {
    DistinctCount(r.revocations, h);
  }
}
