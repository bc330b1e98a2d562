/** The events of one key among a part's. */
module Keyed {
  function EventsFor<E, K>(es: seq<E>, has: (E, K) -> bool, k: K): seq<E> {
    if es == [] then []
    else EventsFor(es[..|es| - 1], has, k) + if has(es[|es| - 1], k) then [es[|es| - 1]] else []
  }

  /** The events of a key in two parts, one after the other. */
  lemma {:induction false} EventsForConcat<E, K>(a: seq<E>, b: seq<E>, has: (E, K) -> bool, k: K)
    ensures EventsFor(a + b, has, k) == EventsFor(a, has, k) + EventsFor(b, has, k)
  {
    if b == [] {
      assert a + b == a;
    } else {
      assert (a + b)[..|a + b| - 1] == a + b[..|b| - 1];
      EventsForConcat(a, b[..|b| - 1], has, k);
    }
  }

  lemma {:induction false} EventsForOne<E, K>(e: E, has: (E, K) -> bool, k: K)
    ensures EventsFor([e], has, k) == if has(e, k) then [e] else []
  {
    assert [e][..0] == [];
  }
}
