/** One dispatch of an event to the registry, as the worker loop performs it:
    buckets in ascending priority, each bucket in registration order, dead
    handles skipped (and left in place), and the whole walk abandoned at the
    first listener whose `on_event` answers `true`.

    The listener's answer is an oracle `onEvent(handle, event)`; liveness of a
    handle is the predicate `alive`. Both are fixed for the duration of one
    dispatch. */
module Dispatch {
  import opened Ints
  import opened Events
  import opened Listeners

  /** `k` is the least of `keys`. */
  predicate IsLeast(k: i64, keys: set<i64>)
  {
    k in keys && forall j :: j in keys ==> k <= j
  }

  /** A non-empty set of priorities has a least element. */
  lemma {:induction false} MinKeyExists(keys: set<i64>)
    requires keys != {}
    ensures exists k :: IsLeast(k, keys)
    decreases |keys|
  {
    var x :| x in keys;
    var rest := keys - {x};
    if rest == {} {
      forall j | j in keys
        ensures x <= j
      {
        assert j !in rest;
      }
      assert IsLeast(x, keys);
    } else {
      MinKeyExists(rest);
      var m :| IsLeast(m, rest);
      var least := if x < m then x else m;
      forall j | j in keys
        ensures least <= j
      {
        if j != x {
          assert j in rest;
        }
      }
      assert IsLeast(least, keys);
    }
  }

  /** The least priority present: where the ordered map's iteration starts. */
  function MinKey(keys: set<i64>): (k: i64)
    requires keys != {}
    ensures k in keys
    ensures forall j :: j in keys ==> k <= j
  {
    MinKeyExists(keys);
    var k :| IsLeast(k, keys);
    k
  }

  /** All entries of the registry in the order the worker visits them. */
  function Flatten(reg: Registry): seq<Handle>
    decreases |reg|
  {
    if reg == map[] then []
    else
      var k := MinKey(reg.Keys);
      reg[k] + Flatten(reg - {k})
  }

  /** The listeners one dispatch may reach: the live entries, in visiting order. */
  function Reachable(reg: Registry, alive: Handle -> bool): seq<Handle>
  {
    Survivors(alive, Flatten(reg))
  }

  /** The visiting order contains exactly the handles registered somewhere. */
  lemma {:induction false} FlattenMembers(reg: Registry, h: Handle)
    ensures h in Flatten(reg) <==> exists p :: p in reg && h in reg[p]
    decreases |reg|
  {
    if reg != map[] {
      var k := MinKey(reg.Keys);
      FlattenMembers(reg - {k}, h);
      if h in Flatten(reg - {k}) {
        var p :| p in reg - {k} && h in (reg - {k})[p];
        assert p in reg && h in reg[p];
      }
      if exists p :: p in reg && h in reg[p] {
        var p :| p in reg && h in reg[p];
        if p != k {
          assert p in reg - {k} && h in (reg - {k})[p];
        }
      }
    }
  }

  /** The buckets strictly below priority `t`. */
  function Below(reg: Registry, t: int): (r: Registry)
    ensures forall p :: p in r <==> p in reg && p < t
  {
    map p | p in reg && p < t :: reg[p]
  }

  /** The buckets at priority `t` or above. */
  function AtLeast(reg: Registry, t: int): (r: Registry)
    ensures forall p :: p in r <==> p in reg && t <= p
  {
    map p | p in reg && t <= p :: reg[p]
  }

  /** The lower priorities are visited first, then the higher ones. */
  lemma {:induction false} FlattenSplit(reg: Registry, t: int)
    ensures Flatten(reg) == Flatten(Below(reg, t)) + Flatten(AtLeast(reg, t))
    decreases |reg|
  {
    if reg == map[] {
      assert Below(reg, t) == map[];
      assert AtLeast(reg, t) == map[];
    } else {
      var k := MinKey(reg.Keys);
      var rest := reg - {k};
      if k < t {
        var lo := Below(reg, t);
        assert k in lo;
        assert MinKey(lo.Keys) == k;
        assert lo - {k} == Below(rest, t);
        assert AtLeast(reg, t) == AtLeast(rest, t);
        FlattenSplit(rest, t);
      } else {
        assert Below(reg, t) == map[];
        assert AtLeast(reg, t) == reg;
      }
    }
  }

  /** The bucket at `p` is visited after every lower priority and before every
      higher one. */
  lemma FlattenAround(reg: Registry, p: i64)
    ensures Flatten(reg) == Flatten(Below(reg, p)) + Bucket(reg, p) + Flatten(AtLeast(reg, p + 1))
  {
    FlattenSplit(reg, p);
    var hi := AtLeast(reg, p);
    if p in reg {
      assert MinKey(hi.Keys) == p;
      assert hi - {p} == AtLeast(reg, p + 1);
      assert Flatten(hi) == reg[p] + Flatten(AtLeast(reg, p + 1));
    } else {
      assert hi == AtLeast(reg, p + 1);
    }
  }

  /** `add(p, l)` makes `l` the last listener visited at priority `p`: after
      every listener already registered at `p` or below, before every
      listener registered above `p`. */
  lemma AddVisitOrder(reg: Registry, p: i64, l: Handle)
    ensures Flatten(Add(reg, p, l))
         == Flatten(Below(reg, p)) + Bucket(reg, p) + [l] + Flatten(AtLeast(reg, p + 1))
  {
    var r := Add(reg, p, l);
    FlattenAround(r, p);
    assert Below(r, p) == Below(reg, p);
    assert AtLeast(r, p + 1) == AtLeast(reg, p + 1);
    assert Bucket(r, p) == Bucket(reg, p) + [l];
  }

  /** Cleaning the registry does not change whom a dispatch can reach: the
      walk skips exactly the handles that `clean` removes. */
  lemma {:induction false} CleanKeepsReachable(reg: Registry, alive: Handle -> bool)
    ensures Reachable(Clean(reg, alive), alive) == Reachable(reg, alive)
    decreases |reg|
  {
    var c := Clean(reg, alive);
    if reg != map[] {
      var k := MinKey(reg.Keys);
      assert MinKey(c.Keys) == k;
      assert c - {k} == Clean(reg - {k}, alive);
      CleanKeepsReachable(reg - {k}, alive);
      SurvivorsAppend(alive, c[k], Flatten(c - {k}));
      SurvivorsAppend(alive, reg[k], Flatten(reg - {k}));
      SurvivorsIdempotent(alive, reg[k]);
    } else {
      assert c == map[];
    }
  }

  /** Whether `hs` holds a listener that consumes `e`. */
  predicate AnyConsumes(hs: seq<Handle>, onEvent: (Handle, Event) -> bool, e: Event)
  {
    exists i :: 0 <= i < |hs| && onEvent(hs[i], e)
  }

  /** The reference order of invocations: `hs` up to and including the first
      listener that consumes `e`, or all of `hs` when none does. */
  function UpToFirst(hs: seq<Handle>, onEvent: (Handle, Event) -> bool, e: Event): (r: seq<Handle>)
    ensures r <= hs
    ensures forall i :: 0 <= i < |r| - 1 ==> !onEvent(r[i], e)
    ensures |r| < |hs| ==> |r| > 0 && onEvent(r[|r| - 1], e)
    ensures !AnyConsumes(hs, onEvent, e) ==> r == hs
    ensures AnyConsumes(hs, onEvent, e) ==> |r| > 0 && onEvent(r[|r| - 1], e)
    decreases |hs|
  {
    if hs == [] then []
    else if onEvent(hs[0], e) then [hs[0]]
    else
      var rest := UpToFirst(hs[1..], onEvent, e);
      assert AnyConsumes(hs, onEvent, e) ==> AnyConsumes(hs[1..], onEvent, e) by {
        if AnyConsumes(hs, onEvent, e) {
          var i :| 0 <= i < |hs| && onEvent(hs[i], e);
          assert hs[1..][i - 1] == hs[i];
        }
      }
      [hs[0]] + rest
  }

  /** A sequence holds a consumer when its head consumes or its tail holds one. */
  lemma AnyConsumesCons(hs: seq<Handle>, onEvent: (Handle, Event) -> bool, e: Event)
    requires hs != []
    ensures AnyConsumes(hs, onEvent, e) <==> onEvent(hs[0], e) || AnyConsumes(hs[1..], onEvent, e)
  {
    if AnyConsumes(hs, onEvent, e) && !onEvent(hs[0], e) {
      var i :| 0 <= i < |hs| && onEvent(hs[i], e);
      assert hs[1..][i - 1] == hs[i];
    }
    if AnyConsumes(hs[1..], onEvent, e) {
      var i :| 0 <= i < |hs[1..]| && onEvent(hs[1..][i], e);
      assert hs[i + 1] == hs[1..][i];
    }
  }

  /** A concatenation holds a consumer exactly when one of its parts does. */
  lemma AnyConsumesAppend(xs: seq<Handle>, ys: seq<Handle>, onEvent: (Handle, Event) -> bool, e: Event)
    ensures AnyConsumes(xs + ys, onEvent, e) <==> AnyConsumes(xs, onEvent, e) || AnyConsumes(ys, onEvent, e)
  {
    var zs := xs + ys;
    if AnyConsumes(zs, onEvent, e) {
      var i :| 0 <= i < |zs| && onEvent(zs[i], e);
      if i < |xs| {
        assert xs[i] == zs[i];
      } else {
        assert ys[i - |xs|] == zs[i];
      }
    }
    if AnyConsumes(xs, onEvent, e) {
      var i :| 0 <= i < |xs| && onEvent(xs[i], e);
      assert zs[i] == xs[i];
    }
    if AnyConsumes(ys, onEvent, e) {
      var i :| 0 <= i < |ys| && onEvent(ys[i], e);
      assert zs[|xs| + i] == ys[i];
    }
  }

  /** On a concatenation, the reference order stops in the first part if it
      can, and otherwise goes through all of it into the second. */
  lemma {:induction false} UpToFirstAppend(xs: seq<Handle>, ys: seq<Handle>, onEvent: (Handle, Event) -> bool, e: Event)
    ensures AnyConsumes(xs, onEvent, e) ==> UpToFirst(xs + ys, onEvent, e) == UpToFirst(xs, onEvent, e)
    ensures !AnyConsumes(xs, onEvent, e) ==> UpToFirst(xs + ys, onEvent, e) == xs + UpToFirst(ys, onEvent, e)
    decreases |xs|
  {
    if xs == [] {
      assert xs + ys == ys;
    } else {
      var zs := xs + ys;
      assert zs[0] == xs[0];
      assert zs[1..] == xs[1..] + ys;
      AnyConsumesCons(xs, onEvent, e);
      UpToFirstAppend(xs[1..], ys, onEvent, e);
      if !onEvent(xs[0], e) {
        var tail := UpToFirst(xs[1..] + ys, onEvent, e);
        assert UpToFirst(zs, onEvent, e) == [xs[0]] + tail;
        if !AnyConsumes(xs, onEvent, e) {
          assert tail == xs[1..] + UpToFirst(ys, onEvent, e);
          assert [xs[0]] + (xs[1..] + UpToFirst(ys, onEvent, e)) == xs + UpToFirst(ys, onEvent, e);
        }
      }
    }
  }

  /** The outcome of a walk: whom it invoked, and whether one of them consumed the event. */
  datatype Walk = Walk(invoked: seq<Handle>, consumed: bool)

  /** The inner loop of the worker over one bucket. */
  function WalkBucket(bucket: seq<Handle>, alive: Handle -> bool, onEvent: (Handle, Event) -> bool, e: Event): (w: Walk)
    ensures w.invoked == UpToFirst(Survivors(alive, bucket), onEvent, e)
    ensures w.consumed <==> AnyConsumes(Survivors(alive, bucket), onEvent, e)
    decreases |bucket|
  {
    if bucket == [] then Walk([], false)
    else
      var rest := WalkBucket(bucket[1..], alive, onEvent, e);
      assert bucket == [bucket[0]] + bucket[1..];
      SurvivorsAppend(alive, [bucket[0]], bucket[1..]);
      UpToFirstAppend(Survivors(alive, [bucket[0]]), Survivors(alive, bucket[1..]), onEvent, e);
      AnyConsumesAppend(Survivors(alive, [bucket[0]]), Survivors(alive, bucket[1..]), onEvent, e);
      if !alive(bucket[0]) then rest
      else if onEvent(bucket[0], e) then Walk([bucket[0]], true)
      else Walk([bucket[0]] + rest.invoked, rest.consumed)
  }

  /** The outer loop of the worker over the buckets, least priority first;
      a consuming listener breaks out of both loops. */
  function WalkRegistry(reg: Registry, alive: Handle -> bool, onEvent: (Handle, Event) -> bool, e: Event): (w: Walk)
    ensures w.invoked == UpToFirst(Reachable(reg, alive), onEvent, e)
    ensures w.consumed <==> AnyConsumes(Reachable(reg, alive), onEvent, e)
    decreases |reg|
  {
    if reg == map[] then Walk([], false)
    else
      var k := MinKey(reg.Keys);
      var first := WalkBucket(reg[k], alive, onEvent, e);
      var rest := WalkRegistry(reg - {k}, alive, onEvent, e);
      SurvivorsAppend(alive, reg[k], Flatten(reg - {k}));
      UpToFirstAppend(Survivors(alive, reg[k]), Reachable(reg - {k}, alive), onEvent, e);
      AnyConsumesAppend(Survivors(alive, reg[k]), Reachable(reg - {k}, alive), onEvent, e);
      if first.consumed then first
      else Walk(first.invoked + rest.invoked, rest.consumed)
  }

  /** The listeners one dispatch of `e` invokes, in invocation order. */
  function Deliver(reg: Registry, alive: Handle -> bool, onEvent: (Handle, Event) -> bool, e: Event): (invoked: seq<Handle>)
    // Only live handles are invoked, in visiting order, each reachable one at most once.
    ensures invoked <= Reachable(reg, alive)
    ensures forall i :: 0 <= i < |invoked| ==> alive(invoked[i])
    // Every invoked listener but the last declined the event ...
    ensures forall i :: 0 <= i < |invoked| - 1 ==> !onEvent(invoked[i], e)
    // ... and the walk stops early only at a consumer.
    ensures |invoked| < |Reachable(reg, alive)| ==> |invoked| > 0 && onEvent(invoked[|invoked| - 1], e)
    // When nobody consumes the event, every live listener is invoked.
    ensures !AnyConsumes(Reachable(reg, alive), onEvent, e) ==> invoked == Reachable(reg, alive)
  {
    var w := WalkRegistry(reg, alive, onEvent, e);
    assert forall i :: 0 <= i < |w.invoked| ==> w.invoked[i] in Reachable(reg, alive);
    w.invoked
  }

  /** A live listener that consumes the event at priority `p` hides it from a
      listener registered only at priorities above `p`. */
  lemma LowerPriorityConsumerShadows(reg: Registry, alive: Handle -> bool, onEvent: (Handle, Event) -> bool, e: Event,
                                     p: i64, a: Handle, b: Handle)
    requires p in reg && a in reg[p] && alive(a) && onEvent(a, e)
    requires forall q :: q in reg && b in reg[q] ==> p < q
    ensures b !in Deliver(reg, alive, onEvent, e)
  {
    var lo := Below(reg, p + 1);
    var hi := AtLeast(reg, p + 1);
    FlattenSplit(reg, p + 1);
    SurvivorsAppend(alive, Flatten(lo), Flatten(hi));
    var xs := Survivors(alive, Flatten(lo));
    FlattenMembers(lo, a);
    assert p in lo && a in lo[p];
    var i :| 0 <= i < |xs| && xs[i] == a;
    assert AnyConsumes(xs, onEvent, e);
    UpToFirstAppend(xs, Survivors(alive, Flatten(hi)), onEvent, e);
    FlattenMembers(lo, b);
    assert b !in Flatten(lo);
    assert b !in UpToFirst(xs, onEvent, e);
  }

  /** The two-listener case: priority 0 consuming silences priority 1; priority
      0 declining lets priority 1 see the event. */
  lemma TwoPriorities(alive: Handle -> bool, onEvent: (Handle, Event) -> bool, e: Event, a: Handle, b: Handle)
    requires a != b && alive(a) && alive(b)
    ensures onEvent(a, e) ==> Deliver(map[0 := [a], 1 := [b]], alive, onEvent, e) == [a]
    ensures !onEvent(a, e) ==> b in Deliver(map[0 := [a], 1 := [b]], alive, onEvent, e)
  {
    var reg: Registry := map[0 := [a], 1 := [b]];
    assert 0 in reg.Keys;
    assert MinKey(reg.Keys) == 0;
    var rest := reg - {0};
    assert rest == map[1 := [b]];
    assert 1 in rest.Keys;
    assert MinKey(rest.Keys) == 1;
    assert rest - {1} == map[];
    assert Flatten(rest) == [b];
    assert Flatten(reg) == [a, b];
    assert Survivors(alive, [b]) == [b];
    assert Reachable(reg, alive) == [a, b];
    if !onEvent(a, e) {
      assert UpToFirst([a, b], onEvent, e) == [a] + UpToFirst([b], onEvent, e);
    }
  }
}
