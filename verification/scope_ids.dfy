/** `get_scope_id` of `src/receiver.rs`: a global counter, starting at 0,
    that hands out scope ids and never hands out the id 0 reserved for the
    root scope. The atomic `fetch_add` is a sequential counter here, wrapping
    at 2^64 as `usize` arithmetic on a 64-bit target does. */
module ScopeIds {
  import opened Base

  datatype Allocator = Allocator(next: U64)

  /** The counter before the first call. */
  const Initial: Allocator := Allocator(0)

  /** `fetch_add(1)`: the current value, and the counter one step on. */
  function FetchAdd(a: Allocator): (U64, Allocator) {
    (a.next, Allocator((a.next + 1) % U64_LIMIT))
  }

  /** The id `get_scope_id` returns and the counter it leaves behind. */
  function NextId(a: Allocator): (r: (U64, Allocator))
    ensures r.0 != 0
  {
    var (value, a') := FetchAdd(a);
    if value != 0 then (value, a') else FetchAdd(a')
  }

  /** `get_scope_id` as written: draw values until one is not 0. */
  method GetScopeId(a: Allocator) returns (id: U64, r: Allocator)
    ensures id != 0
    ensures (id, r) == NextId(a)
  {
    var counter := a;
    while true
      invariant counter == a || (a.next == 0 && counter == Allocator(1))
      decreases if counter.next == 0 then 1 else 0
    {
      var value;
      value, counter := FetchAdd(counter).0, FetchAdd(counter).1;
      if value != 0 {
        return value, counter;
      }
    }
  }

  /** The ids of `n` successive calls. */
  function Allocate(a: Allocator, n: nat): (ids: seq<U64>)
    ensures |ids| == n
    decreases n
  {
    if n == 0 then [] else [NextId(a).0] + Allocate(NextId(a).1, n - 1)
  }

  /** No call ever yields the reserved id. */
  lemma {:induction false} AllocateNonZero(a: Allocator, n: nat)
    ensures forall i :: 0 <= i < n ==> Allocate(a, n)[i] != 0
    decreases n
  {
    if n > 0 {
      AllocateNonZero(NextId(a).1, n - 1);
      assert forall i :: 1 <= i < n ==> Allocate(a, n)[i] == Allocate(NextId(a).1, n - 1)[i - 1];
    }
  }

  /** Until the counter wraps, successive ids strictly increase and are
      therefore distinct: from a counter at `k`, the `i`-th id is
      `max(k, 1) + i`. */
  lemma {:induction false} AllocateIncreasing(a: Allocator, n: nat)
    requires (if a.next == 0 then 1 else a.next) + n < U64_LIMIT
    ensures forall i :: 0 <= i < n ==> Allocate(a, n)[i] == (if a.next == 0 then 1 else a.next) + i
    ensures forall i, j :: 0 <= i < j < n ==> Allocate(a, n)[i] < Allocate(a, n)[j]
    decreases n
  {
    if n > 0 {
      var start := if a.next == 0 then 1 else a.next;
      assert NextId(a) == (start, Allocator(start + 1));
      AllocateIncreasing(Allocator(start + 1), n - 1);
      assert forall i :: 1 <= i < n ==> Allocate(a, n)[i] == Allocate(Allocator(start + 1), n - 1)[i - 1];
    }
  }

  /** At the wrap-around the counter passes through 0, which is skipped. */
  lemma WrapSkipsZero()
    ensures Allocate(Allocator(U64_LIMIT - 1), 2) == [U64_LIMIT - 1, 1]
  {
    assert NextId(Allocator(U64_LIMIT - 1)) == (U64_LIMIT - 1, Allocator(0));
  }
}
