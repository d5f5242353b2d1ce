/**
 * The falling items and the two list updates that touch them: spawning (one
 * item appended) and the move/collide tick (every item advanced, then caught,
 * lost through the floor, or kept).
 */
module Falling {
  import opened Wrappers
  import opened Geometry

  /** Side of the square box, in pixels, used for the catch test. */
  const ItemSize: real := 30.0
  /** The vertical percentage at which an uncaught item is lost. */
  const Floor: real := 100.0
  /** Spawned items start this far from the left edge, in percent... */
  const SpawnMinLeft: real := 10.0
  /** ...over a band this wide. */
  const SpawnBand: real := 80.0
  /** The number of visual kinds an item can have. */
  const Kinds: int := 3

  /** One falling item: positions are percentages of the play area. */
  datatype Item = Item(id: int, left: real, top: real, kind: int)

  /** The ranges every item on the board lies in. */
  predicate WellFormed(it: Item) {
    SpawnMinLeft <= it.left < SpawnMinLeft + SpawnBand &&
    0.0 <= it.top < Floor &&
    0 <= it.kind < Kinds
  }

  /**
   * The item a spawn creates. `id` is the clock reading and `leftDraw`,
   * `kindDraw` the two random draws, each in [0, 1).
   */
  function NewItem(id: int, leftDraw: real, kindDraw: real): (it: Item)
    requires 0.0 <= leftDraw < 1.0 && 0.0 <= kindDraw < 1.0
    ensures it.id == id && it.top == 0.0
    ensures WellFormed(it)
  {
    Item(id, SpawnMinLeft + leftDraw * SpawnBand, 0.0, (kindDraw * Kinds as real).Floor)
  }

  /** A spawn: the new item goes to the end, everything already there stays as it was. */
  function Spawn(items: seq<Item>, id: int, leftDraw: real, kindDraw: real): (r: seq<Item>)
    requires 0.0 <= leftDraw < 1.0 && 0.0 <= kindDraw < 1.0
    ensures |r| == |items| + 1
    ensures r[..|items|] == items
    ensures r[|items|].top == 0.0 && WellFormed(r[|items|])
    ensures (forall i :: 0 <= i < |items| ==> WellFormed(items[i])) ==>
              forall i :: 0 <= i < |r| ==> WellFormed(r[i])
  {
    items + [NewItem(id, leftDraw, kindDraw)]
  }

  /** What one tick reads besides the list: the speed and the two rectangles. */
  datatype Scene = Scene(speed: real, bin: Option<Rect>, area: Option<Rect>) {
    predicate Measured() { bin.Some? && area.Some? }
  }

  /** The item one tick further down. */
  function Advance(it: Item, speed: real): Item {
    it.(top := it.top + speed)
  }

  /**
   * The box test: the item's 30-pixel box, placed in pixels from its
   * percentages and the play area, overlaps the catcher's rectangle.
   */
  predicate Overlaps(it: Item, newTop: real, bin: Rect, area: Rect) {
    var itemLeft := area.left + area.width * it.left / 100.0;
    var itemTop := area.top + area.height * newTop / 100.0;
    itemLeft < bin.Right() &&
    itemLeft + ItemSize > bin.left &&
    itemTop + ItemSize > bin.top &&
    itemTop < bin.Bottom()
  }

  /** What a tick does to one item. */
  datatype Fate = Caught | Breached | Falls

  /**
   * The fate of one item in a tick. The catch test is made first, so an item
   * that overlaps the catcher is caught even when it has also reached the
   * floor; without both rectangles there is no catch test at all.
   */
  function FateOf(it: Item, sc: Scene): (f: Fate)
    ensures f == Caught <==> sc.Measured() && Overlaps(it, it.top + sc.speed, sc.bin.value, sc.area.value)
    ensures f == Breached <==> !(f == Caught) && it.top + sc.speed >= Floor
    ensures f == Falls ==> it.top + sc.speed < Floor
  {
    var newTop := it.top + sc.speed;
    if sc.Measured() && Overlaps(it, newTop, sc.bin.value, sc.area.value) then Caught
    else if newTop >= Floor then Breached
    else Falls
  }

  /** The outcome of a tick: the list that remains and how many items were caught and lost. */
  datatype TickResult = TickResult(kept: seq<Item>, caught: nat, breached: nat)

  /**
   * The move/collide tick over the whole list: every item is advanced by the
   * speed, caught and lost items are dropped, the others are kept with their
   * new top, in their original order.
   */
  function Tick(items: seq<Item>, sc: Scene): (r: TickResult)
    ensures |r.kept| + r.caught + r.breached == |items|
    ensures !sc.Measured() ==> r.caught == 0
    ensures r.breached > 0 ==> items != []
    decreases |items|
  {
    if items == [] then TickResult([], 0, 0)
    else
      var rest := Tick(items[1..], sc);
      match FateOf(items[0], sc)
      case Caught => rest.(caught := rest.caught + 1)
      case Breached => rest.(breached := rest.breached + 1)
      case Falls => rest.(kept := [Advance(items[0], sc.speed)] + rest.kept)
  }

  /** The indices from `i` on whose item meets fate `f`, in increasing order. */
  function Where(items: seq<Item>, sc: Scene, f: Fate, i: nat): (r: seq<nat>)
    requires i <= |items|
    ensures forall k :: 0 <= k < |r| ==> i <= r[k] < |items| && FateOf(items[r[k]], sc) == f
    ensures forall j, k :: 0 <= j < k < |r| ==> r[j] < r[k]
    ensures forall j :: i <= j < |items| && FateOf(items[j], sc) == f ==> j in r
    decreases |items| - i
  {
    if i == |items| then []
    else (if FateOf(items[i], sc) == f then [i] else []) + Where(items, sc, f, i + 1)
  }

  /** One tick on the suffix from `i`: the first item's fate decides, the rest is the tick from `i + 1`. */
  lemma TickUnfold(items: seq<Item>, sc: Scene, i: nat)
    requires i < |items|
    ensures var rest := Tick(items[i + 1..], sc);
            Tick(items[i..], sc) ==
              match FateOf(items[i], sc)
              case Caught => rest.(caught := rest.caught + 1)
              case Breached => rest.(breached := rest.breached + 1)
              case Falls => rest.(kept := [Advance(items[i], sc.speed)] + rest.kept)
  {
  }

  /** The counts of a tick on the suffix from `i` are the numbers of items caught and lost. */
  lemma {:induction false} TickCountsFrom(items: seq<Item>, sc: Scene, i: nat)
    requires i <= |items|
    ensures Tick(items[i..], sc).caught == |Where(items, sc, Caught, i)|
    ensures Tick(items[i..], sc).breached == |Where(items, sc, Breached, i)|
    decreases |items| - i
  {
    if i < |items| {
      TickCountsFrom(items, sc, i + 1);
      TickUnfold(items, sc, i);
    }
  }

  /** The kept list of a tick on the suffix from `i`, index by index. */
  lemma {:induction false} TickKeptFrom(items: seq<Item>, sc: Scene, i: nat)
    requires i <= |items|
    ensures |Tick(items[i..], sc).kept| == |Where(items, sc, Falls, i)|
    ensures forall k :: 0 <= k < |Where(items, sc, Falls, i)| ==>
              Tick(items[i..], sc).kept[k] == Advance(items[Where(items, sc, Falls, i)[k]], sc.speed)
    decreases |items| - i
  {
    if i < |items| {
      TickKeptFrom(items, sc, i + 1);
      TickUnfold(items, sc, i);
      var kept := Tick(items[i..], sc).kept;
      var rest := Tick(items[i + 1..], sc).kept;
      var idx := Where(items, sc, Falls, i);
      var restIdx := Where(items, sc, Falls, i + 1);
      if FateOf(items[i], sc) == Falls {
        assert idx == [i] + restIdx;
        assert kept == [Advance(items[i], sc.speed)] + rest;
        forall k | 0 <= k < |idx|
          ensures kept[k] == Advance(items[idx[k]], sc.speed)
        {
          if k > 0 {
            assert kept[k] == rest[k - 1] && idx[k] == restIdx[k - 1];
          }
        }
      } else {
        assert idx == restIdx;
        assert kept == rest;
      }
    }
  }

  /**
   * What a tick does, stated index by index: exactly the items that fall on
   * are kept, in their original order, each one `speed` lower with every
   * other field unchanged; `caught` and `breached` count the items with
   * those fates.
   */
  lemma TickSpec(items: seq<Item>, sc: Scene)
    ensures var r := Tick(items, sc);
            var kept := Where(items, sc, Falls, 0);
            && r.caught == |Where(items, sc, Caught, 0)|
            && r.breached == |Where(items, sc, Breached, 0)|
            && |r.kept| == |kept|
            && (forall k :: 0 <= k < |kept| ==> r.kept[k] == Advance(items[kept[k]], sc.speed))
            && (r.breached > 0 <==> exists j :: 0 <= j < |items| && FateOf(items[j], sc) == Breached)
  {
    TickCountsFrom(items, sc, 0);
    TickKeptFrom(items, sc, 0);
    assert items[0..] == items;
    var r := Tick(items, sc);
    var lost := Where(items, sc, Breached, 0);
    if r.breached > 0 {
      assert FateOf(items[lost[0]], sc) == Breached;
    }
  }

  /**
   * A tick keeps the list well formed when the speed is positive.
   */
  lemma TickKeepsWellFormed(items: seq<Item>, sc: Scene)
    requires sc.speed > 0.0
    requires forall i :: 0 <= i < |items| ==> WellFormed(items[i])
    ensures forall k :: 0 <= k < |Tick(items, sc).kept| ==> WellFormed(Tick(items, sc).kept[k])
  {
  }

  /**
   * When the catcher lies inside the play area, an item that reaches the floor
   * cannot overlap it: the catch-before-floor order only matters for
   * rectangles that stick out below the play area.
   */
  lemma FloorIsBelowInnerBin(it: Item, sc: Scene)
    requires sc.Measured() && sc.area.value.height >= 0.0
    requires sc.bin.value.Bottom() <= sc.area.value.Bottom()
    requires it.top + sc.speed >= Floor
    ensures FateOf(it, sc) == Breached
  {
    var area := sc.area.value;
    var newTop := it.top + sc.speed;
    var itemTop := area.top + area.height * newTop / 100.0;
    assert area.height * newTop / 100.0 - area.height == area.height * (newTop - 100.0) / 100.0;
    assert area.height * (newTop - 100.0) >= 0.0;
    assert itemTop >= area.Bottom();
    assert !Overlaps(it, newTop, sc.bin.value, area);
  }
}
