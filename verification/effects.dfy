/**
 * Transient ripple markers drawn where the player clicked in either
 * click-speed test. Each render pass drops the markers older than the
 * lifetime and recomputes the radius and opacity of the rest from their age.
 */
module ClickEffects {

  /** One marker; `createdAt` is the wall-clock time of the click in milliseconds. */
  datatype Effect = Effect(x: real, y: real, radius: real, maxRadius: real, opacity: real, createdAt: int)

  /** The marker pushed by a counted click: zero radius, fully opaque. */
  function Spawn(x: real, y: real, maxRadius: real, now: int): Effect {
    Effect(x, y, 0.0, maxRadius, 1.0, now)
  }

  /** A marker survives a render pass while its age is at most the lifetime. */
  predicate Alive(e: Effect, now: int, lifetime: nat) {
    now - e.createdAt <= lifetime
  }

  /** Radius within [0, maxRadius] and opacity within [0, 1]. */
  predicate Bounded(e: Effect) {
    0.0 <= e.radius <= e.maxRadius && 0.0 <= e.opacity <= 1.0
  }

  /**
   * The marker as drawn at `now`: radius grows and opacity fades linearly
   * with age. Only the age-derived fields change, and for an age inside the
   * lifetime both stay in range.
   */
  function Refresh(e: Effect, now: int, lifetime: nat): (r: Effect)
    requires lifetime > 0
    ensures r.x == e.x && r.y == e.y && r.maxRadius == e.maxRadius && r.createdAt == e.createdAt
    ensures e.maxRadius >= 0.0 && 0 <= now - e.createdAt <= lifetime ==> Bounded(r)
  {
    var frac := (now - e.createdAt) as real / lifetime as real;
    assert 0 <= now - e.createdAt <= lifetime ==> 0.0 <= frac <= 1.0;
    e.(radius := frac * e.maxRadius, opacity := 1.0 - frac)
  }

  /** Of two markers of the same size, the older one is drawn at least as wide and at most as opaque. */
  lemma RefreshMonotone(e: Effect, f: Effect, now: int, lifetime: nat)
    requires lifetime > 0 && e.maxRadius == f.maxRadius >= 0.0
    requires e.createdAt <= f.createdAt
    ensures Refresh(f, now, lifetime).radius <= Refresh(e, now, lifetime).radius
    ensures Refresh(e, now, lifetime).opacity <= Refresh(f, now, lifetime).opacity
  {
    var fe := (now - e.createdAt) as real / lifetime as real;
    var ff := (now - f.createdAt) as real / lifetime as real;
    assert ff <= fe;
    assert ff * e.maxRadius <= fe * e.maxRadius;
  }

  /**
   * One render pass's `filter`: keeps the live markers, in order, each
   * refreshed to `now`; what is kept is stated by `PruneKeepsLive`.
   */
  function Prune(es: seq<Effect>, now: int, lifetime: nat): (r: seq<Effect>)
    requires lifetime > 0
    ensures |r| <= |es|
    ensures forall i :: 0 <= i < |r| ==> Alive(r[i], now, lifetime)
  {
    if es == [] then []
    else
      var rest := Prune(es[1..], now, lifetime);
      if Alive(es[0], now, lifetime) then [Refresh(es[0], now, lifetime)] + rest else rest
  }

  /**
   * Pruning keeps exactly the live markers: every kept marker is the refresh
   * of a live input marker, every live input marker is kept, and a kept
   * marker created no later than `now` is drawn within range.
   */
  lemma {:induction false} PruneKeepsLive(es: seq<Effect>, now: int, lifetime: nat)
    requires lifetime > 0
    ensures forall e :: e in Prune(es, now, lifetime) ==>
      exists d :: d in es && Alive(d, now, lifetime) && e == Refresh(d, now, lifetime)
    ensures forall d :: d in es && Alive(d, now, lifetime) ==> Refresh(d, now, lifetime) in Prune(es, now, lifetime)
    ensures forall e :: e in Prune(es, now, lifetime) && e.createdAt <= now && e.maxRadius >= 0.0 ==> Bounded(e)
  {
    if es != [] {
      PruneKeepsLive(es[1..], now, lifetime);
      assert es == [es[0]] + es[1..];
      assert forall d :: d in es[1..] ==> d in es;
      assert forall d :: d in es ==> d == es[0] || d in es[1..];
    }
  }

  /** Pruning a concatenation prunes each part. */
  lemma {:induction false} PruneAppend(a: seq<Effect>, b: seq<Effect>, now: int, lifetime: nat)
    requires lifetime > 0
    ensures Prune(a + b, now, lifetime) == Prune(a, now, lifetime) + Prune(b, now, lifetime)
  {
    if a != [] {
      var ab := a + b;
      assert ab != [] && ab[0] == a[0] && ab[1..] == a[1..] + b;
      PruneAppend(a[1..], b, now, lifetime);
      var pa, pb, pr := Prune(a, now, lifetime), Prune(b, now, lifetime), Prune(a[1..], now, lifetime);
      if Alive(a[0], now, lifetime) {
        var h := [Refresh(a[0], now, lifetime)];
        assert Prune(ab, now, lifetime) == h + (pr + pb);
        assert pa == h + pr;
        assert h + (pr + pb) == (h + pr) + pb;
      } else {
        assert Prune(ab, now, lifetime) == pr + pb;
      }
    } else {
      assert a + b == b;
    }
  }

  /** A second render pass at the same time changes nothing: redrawing is idempotent. */
  lemma {:induction false} PruneIdempotent(es: seq<Effect>, now: int, lifetime: nat)
    requires lifetime > 0
    ensures Prune(Prune(es, now, lifetime), now, lifetime) == Prune(es, now, lifetime)
  {
    if es != [] {
      PruneIdempotent(es[1..], now, lifetime);
      var rest := Prune(es[1..], now, lifetime);
      if Alive(es[0], now, lifetime) {
        var head := [Refresh(es[0], now, lifetime)];
        PruneAppend(head, rest, now, lifetime);
        var h := head[0];
        assert Refresh(h, now, lifetime) == h;
        assert head[1..] == [];
        assert Prune(head, now, lifetime) == head;
      }
    }
  }

  /** Markers as a render pass at `now` leaves them: all of one size, not from the future, live and in range. */
  ghost predicate Settled(es: seq<Effect>, now: int, lifetime: nat, maxRadius: real) {
    forall e :: e in es ==>
      e.maxRadius == maxRadius && e.createdAt <= now && Alive(e, now, lifetime) && Bounded(e)
  }

  /** A render pass settles markers of one size that were created no later than `now`. */
  lemma PruneSettles(es: seq<Effect>, now: int, lifetime: nat, maxRadius: real)
    requires lifetime > 0 && maxRadius >= 0.0
    requires forall e :: e in es ==> e.maxRadius == maxRadius && e.createdAt <= now
    ensures Settled(Prune(es, now, lifetime), now, lifetime, maxRadius)
  {
    PruneKeepsLive(es, now, lifetime);
    var r := Prune(es, now, lifetime);
    forall e | e in r
      ensures e.maxRadius == maxRadius && e.createdAt <= now && Alive(e, now, lifetime) && Bounded(e)
    {
      var d :| d in es && Alive(d, now, lifetime) && e == Refresh(d, now, lifetime);
    }
  }

  /** The marker a click spawns survives a render pass at the same time unchanged. */
  lemma PruneAfterSpawn(es: seq<Effect>, x: real, y: real, maxRadius: real, now: int, lifetime: nat)
    requires lifetime > 0
    ensures Prune(es + [Spawn(x, y, maxRadius, now)], now, lifetime) == Prune(es, now, lifetime) + [Spawn(x, y, maxRadius, now)]
  {
    var spawn := Spawn(x, y, maxRadius, now);
    PruneAppend(es, [spawn], now, lifetime);
    assert Refresh(spawn, now, lifetime) == spawn;
    assert [spawn][1..] == [];
  }
}
