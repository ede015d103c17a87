/** The listener registry of the engine: a map from priority to the handles
    registered at that priority, in registration order. Handles are weak: the
    registry never keeps a listener alive, and whether a handle still reaches
    its listener is a fact about the application, passed in as `alive`. */
module Listeners {
  import opened Ints

  /** A weak handle to an application listener. Two registrations of the same
      listener are two entries of the registry. */
  datatype Handle = Handle(listener: nat)

  /** Priority to bucket; the buckets keep registration order. */
  type Registry = map<i64, seq<Handle>>

  /** The bucket at `p`, or the empty bucket when `p` has none. */
  function Bucket(reg: Registry, p: i64): seq<Handle>
  {
    if p in reg then reg[p] else []
  }

  /** The handles of `hs` that still reach a listener, in their original order. */
  function Survivors(alive: Handle -> bool, hs: seq<Handle>): (r: seq<Handle>)
    ensures |r| <= |hs|
    ensures forall h :: h in r <==> h in hs && alive(h)
    decreases |hs|
  {
    if hs == [] then []
    else (if alive(hs[0]) then [hs[0]] else []) + Survivors(alive, hs[1..])
  }

  /** `Survivors` works piecewise, so the survivors of a sequence keep the
      relative order they had in it. */
  lemma {:induction false} SurvivorsAppend(alive: Handle -> bool, xs: seq<Handle>, ys: seq<Handle>)
    ensures Survivors(alive, xs + ys) == Survivors(alive, xs) + Survivors(alive, ys)
    decreases |xs|
  {
    if xs == [] {
      assert xs + ys == ys;
    } else {
      assert (xs + ys)[1..] == xs[1..] + ys;
      SurvivorsAppend(alive, xs[1..], ys);
    }
  }

  /** Every surviving handle survives as often as it occurred; a dead one does not at all. */
  lemma {:induction false} SurvivorsCount(alive: Handle -> bool, hs: seq<Handle>, h: Handle)
    ensures multiset(Survivors(alive, hs))[h] == if alive(h) then multiset(hs)[h] else 0
    decreases |hs|
  {
    if hs != [] {
      SurvivorsCount(alive, hs[1..], h);
      assert hs == [hs[0]] + hs[1..];
    }
  }

  /** A bucket with no dead handle is kept as it is. */
  lemma {:induction false} SurvivorsOfLive(alive: Handle -> bool, hs: seq<Handle>)
    requires forall i :: 0 <= i < |hs| ==> alive(hs[i])
    ensures Survivors(alive, hs) == hs
    decreases |hs|
  {
    if hs != [] {
      SurvivorsOfLive(alive, hs[1..]);
      assert hs == [hs[0]] + hs[1..];
    }
  }

  /** Pruning twice prunes nothing more. */
  lemma SurvivorsIdempotent(alive: Handle -> bool, hs: seq<Handle>)
    ensures Survivors(alive, Survivors(alive, hs)) == Survivors(alive, hs)
  {
    var s := Survivors(alive, hs);
    assert forall i :: 0 <= i < |s| ==> s[i] in s;
    SurvivorsOfLive(alive, s);
  }

  /** `Engine::add`: appends `l` to the bucket for `priority`, creating the
      bucket when the priority is new. */
  function Add(reg: Registry, priority: i64, l: Handle): (r: Registry)
    ensures r.Keys == reg.Keys + {priority}
    ensures |r[priority]| == |Bucket(reg, priority)| + 1
    ensures r[priority][..|Bucket(reg, priority)|] == Bucket(reg, priority)
    ensures r[priority][|Bucket(reg, priority)|] == l
    ensures forall p :: p in reg && p != priority ==> r[p] == reg[p]
  {
    reg[priority := Bucket(reg, priority) + [l]]
  }

  /** `Engine::clean`: removes from every bucket the handles that no longer
      reach a listener. Every priority stays, even one whose bucket empties. */
  function Clean(reg: Registry, alive: Handle -> bool): (r: Registry)
    ensures r.Keys == reg.Keys
    ensures forall p, h :: p in reg ==> (h in r[p] <==> h in reg[p] && alive(h))
    ensures forall p :: p in reg ==> r[p] == Survivors(alive, reg[p])
  {
    map p | p in reg :: Survivors(alive, reg[p])
  }

  /** Cleaning an already clean registry changes nothing. */
  lemma CleanIdempotent(reg: Registry, alive: Handle -> bool)
    ensures Clean(Clean(reg, alive), alive) == Clean(reg, alive)
  {
    var once := Clean(reg, alive);
    forall p | p in once
      ensures Survivors(alive, once[p]) == once[p]
    {
      SurvivorsIdempotent(alive, reg[p]);
    }
  }

  /** The in-place pass of `drain_filter` over one bucket: keeps the handles
      whose strong count is positive, in order. */
  method CleanBucket(bucket: seq<Handle>, alive: Handle -> bool) returns (kept: seq<Handle>)
    ensures kept == Survivors(alive, bucket)
  {
    kept := [];
    var i := 0;
    while i < |bucket|
      invariant 0 <= i <= |bucket|
      invariant kept == Survivors(alive, bucket[..i])
    {
      assert bucket[..i + 1] == bucket[..i] + [bucket[i]];
      SurvivorsAppend(alive, bucket[..i], [bucket[i]]);
      if alive(bucket[i]) {
        kept := kept + [bucket[i]];
      }
      i := i + 1;
    }
    assert bucket[..|bucket|] == bucket;
  }

  /** The loop of `Engine::clean` over every bucket of the registry. */
  method CleanRegistry(reg: Registry, alive: Handle -> bool) returns (r: Registry)
    ensures r == Clean(reg, alive)
  {
    r := map[];
    var todo := reg.Keys;
    while todo != {}
      invariant todo <= reg.Keys
      invariant r.Keys == reg.Keys - todo
      invariant forall p :: p in r ==> r[p] == Survivors(alive, reg[p])
      decreases |todo|
    {
      var p :| p in todo;
      var kept := CleanBucket(reg[p], alive);
      r := r[p := kept];
      todo := todo - {p};
    }
  }
}
