/** The radar blip container: five seeded blips, then one new blip per
    interval tick, the oldest evicted once the container holds more than
    eight. */
module RadarBlips {

  /** Where a blip sits: one of the fixed seed placements (percent of the
      radar, animation delay in tenths of a second), or a random position
      the model does not follow. */
  datatype Placement = Seeded(left: nat, top: nat, delayTenths: nat) | Random

  /** A child of the container; `id` records creation order. */
  datatype Blip = Blip(id: nat, placement: Placement)

  const Seeds: seq<Placement> := [
    Seeded(25, 30, 0), Seeded(70, 45, 5), Seeded(40, 70, 10), Seeded(60, 25, 15), Seeded(35, 55, 20)
  ]

  const SeedCount: nat := 5

  /** A tick evicts only when the container holds more than this many children. */
  const EvictAbove: nat := 8

  /** The most children the container ever holds. */
  const Cap: nat := EvictAbove + 1

  /** The seeded children, ids 0 to 4 in order. */
  function SeedChildren(): (cs: seq<Blip>)
    ensures |cs| == SeedCount
  {
    seq(|Seeds|, i requires 0 <= i < |Seeds| => Blip(i, Seeds[i]))
  }

  /** One tick on the children: drop the front if more than eight, then
      append `b`. What remains of the old children keeps its order. */
  function TickChildren(cs: seq<Blip>, b: Blip): (r: seq<Blip>)
    ensures |cs| > EvictAbove ==> |r| == |cs|
    ensures |cs| <= EvictAbove ==> |r| == |cs| + 1
    ensures r[|r| - 1] == b
    ensures forall i :: 0 <= i < |r| - 1 ==> r[i] == cs[i + |cs| + 1 - |r|]
  {
    (if |cs| > EvictAbove then cs[1..] else cs) + [b]
  }

  /** The children after k ticks following the seeding; the k-th tick
      (counting from 0) appends the blip with id SeedCount + k. */
  function AfterTicks(k: nat): seq<Blip> {
    if k == 0 then SeedChildren()
    else TickChildren(AfterTicks(k - 1), Blip(SeedCount + k - 1, Random))
  }

  /** The container holds the min(next, 9) newest of the blips created so
      far, whose ids run from 0 to next - 1: oldest at the front, with
      consecutive ids. */
  ghost predicate Shape(cs: seq<Blip>, next: nat) {
    |cs| == (if next < Cap then next else Cap) &&
    forall i :: 0 <= i < |cs| ==> cs[i].id == next - |cs| + i
  }

  /** A tick keeps the shape: the count grows to nine and then stays, and
      the front is always the oldest blip. */
  lemma TickKeepsShape(cs: seq<Blip>, next: nat)
    requires Shape(cs, next)
    ensures Shape(TickChildren(cs, Blip(next, Random)), next + 1)
  {
    var r := TickChildren(cs, Blip(next, Random));
    forall i | 0 <= i < |r|
      ensures r[i].id == next + 1 - |r| + i
    {
      if i < |r| - 1 {
        assert r[i] == cs[i + |cs| + 1 - |r|];
      }
    }
  }

  /** From the seeding on, every number of ticks leaves the container in shape. */
  lemma {:induction false} AfterTicksShape(k: nat)
    ensures Shape(AfterTicks(k), SeedCount + k)
  {
    if k > 0 {
      AfterTicksShape(k - 1);
      TickKeepsShape(AfterTicks(k - 1), SeedCount + k - 1);
    }
  }

  /** The container never holds more than nine children. */
  lemma CapHolds(k: nat)
    ensures |AfterTicks(k)| <= Cap
  {
    AfterTicksShape(k);
  }

  /** The #radarBlips element. The container is taken to be empty in the
      markup, so its children are exactly the blips created here. */
  class Container {
    var children: seq<Blip>
    var nextId: nat

    ghost predicate Valid()
      reads this
    {
      nextId >= SeedCount && Shape(children, nextId)
    }

    /** Appends the five seeded blips in order. */
    constructor ()
      ensures Valid() && children == SeedChildren() && nextId == SeedCount
    {
      children := [];
      nextId := 0;
      new;
      var i := 0;
      while i < SeedCount
        invariant i <= SeedCount && nextId == i
        invariant children == SeedChildren()[..i]
      {
        children := children + [Blip(nextId, Seeds[i])];
        nextId := nextId + 1;
        i := i + 1;
      }
      assert children == SeedChildren()[..SeedCount];
    }

    /** One firing of the three-second interval. */
    method Tick()
      requires Valid()
      modifies this
      ensures Valid()
      ensures nextId == old(nextId) + 1
      ensures children == TickChildren(old(children), Blip(old(nextId), Random))
      ensures |children| <= Cap
    {
      ghost var before := children;
      var b := Blip(nextId, Random);
      if |children| > EvictAbove {
        children := children[1..];
      }
      children := children + [b];
      assert children == TickChildren(before, b);
      TickKeepsShape(before, nextId);
      nextId := nextId + 1;
    }
  }
}
