/**
 * The decorative orbit of icons around the profile picture: its radius and
 * compactness follow the viewport width, and the number of icons follows the
 * reduced-motion preference and compactness.
 */
module OrbitLayout {

  /** The radius (in pixels) and compactness that `updateRadius` stores. */
  datatype Band = Band(radius: nat, compact: bool)

  /** The values the orbit state starts with, before the first `updateRadius`. */
  const InitialBand: Band := Band(190, false)

  /** `updateRadius`: the band of `innerWidth`, with breakpoints at 768 and 1024 pixels. */
  function RadiusBand(innerWidth: int): (b: Band)
    ensures b.compact <==> innerWidth < 768
    ensures b.radius == 120 || b.radius == 150 || b.radius == 190
    ensures innerWidth < 1024 <==> b.radius < 190
  {
    if innerWidth < 768 then Band(120, true)
    else if innerWidth < 1024 then Band(150, false)
    else Band(190, false)
  }

  /** The initial state already is the band of every wide viewport. */
  lemma InitialBandIsWide(innerWidth: int)
    requires 1024 <= innerWidth
    ensures RadiusBand(innerWidth) == InitialBand
  {
  }

  /** The three bands, each with its radius and compactness. */
  lemma ThreeBands(innerWidth: int)
    ensures innerWidth < 768 ==> RadiusBand(innerWidth) == Band(120, true)
    ensures 768 <= innerWidth < 1024 ==> RadiusBand(innerWidth) == Band(150, false)
    ensures 1024 <= innerWidth ==> RadiusBand(innerWidth) == Band(190, false)
  {
  }

  /** A wider viewport never has a smaller orbit. */
  lemma RadiusMonotone(w1: int, w2: int)
    requires w1 <= w2
    ensures RadiusBand(w1).radius <= RadiusBand(w2).radius
    ensures RadiusBand(w2).compact ==> RadiusBand(w1).compact
  {
  }

  /** The icon components of `orbitIcons`, in their order. */
  datatype Icon = Figma | Code2 | Cloud | Shield | Network | Globe | Layers | Brush

  const OrbitIcons: seq<Icon> := [Figma, Code2, Cloud, Shield, Network, Globe, Layers, Brush]

  /** An icon of the orbit with its angle in degrees. */
  datatype OrbitItem = OrbitItem(icon: Icon, angle: int)

  /** How many icons circle: 4 with reduced motion, else 5 when compact, else all of them. */
  function ItemCount(reduceMotion: bool, compact: bool): (n: nat)
    ensures 0 < n <= |OrbitIcons|
    ensures 360 % n == 0
    ensures reduceMotion ==> n == 4
    ensures !reduceMotion ==> (n == 5 <==> compact)
    ensures !reduceMotion && !compact ==> n == |OrbitIcons|
  {
    if reduceMotion then 4 else if compact then 5 else |OrbitIcons|
  }

  /** Reduced motion takes precedence: compactness does not matter then. */
  lemma ReducedMotionWins(compact: bool)
    ensures ItemCount(true, compact) == ItemCount(true, !compact) == 4
  {
  }

  /**
   * For the counts that occur, the angle `(360 / n) * i` is an exact
   * integer, below a full turn, and one step of `360 / n` ahead of the
   * previous one.
   */
  lemma {:induction false} AngleFacts(n: nat, i: nat)
    requires n == 4 || n == 5 || n == 8
    requires i < n
    ensures (360 / n) * i * n == 360 * i
    ensures 0 <= (360 / n) * i < 360
    ensures 0 < i ==> (360 / n) * i - (360 / n) * (i - 1) == 360 / n
  {
    if n == 4 {
      assert 360 / n == 90;
    } else if n == 5 {
      assert 360 / n == 72;
    } else {
      assert 360 / n == 45;
    }
  }

  /** `orbitItems`: the first `ItemCount` icons, spread evenly over the circle. */
  function OrbitItems(reduceMotion: bool, compact: bool): (items: seq<OrbitItem>)
    ensures |items| == ItemCount(reduceMotion, compact)
    ensures forall i :: 0 <= i < |items| ==> items[i].icon == OrbitIcons[i]
    ensures items[0].angle == 0
    ensures forall i :: 0 <= i < |items| ==> items[i].angle * |items| == 360 * i
    ensures forall i :: 0 <= i < |items| ==> 0 <= items[i].angle < 360
    ensures forall i :: 0 < i < |items| ==> items[i].angle - items[i - 1].angle == 360 / |items|
  {
    var slice := OrbitIcons[..ItemCount(reduceMotion, compact)];
    var n := |slice|;
    var items := seq(n, i requires 0 <= i < n => OrbitItem(slice[i], (360 / n) * i));
    assert forall i :: 0 <= i < n ==> items[i].angle == (360 / n) * i;
    assert forall i :: 0 <= i < n ==>
      (360 / n) * i * n == 360 * i && 0 <= (360 / n) * i < 360 &&
      (0 < i ==> (360 / n) * i - (360 / n) * (i - 1) == 360 / n)
    by {
      forall i | 0 <= i < n
        ensures (360 / n) * i * n == 360 * i && 0 <= (360 / n) * i < 360
        ensures 0 < i ==> (360 / n) * i - (360 / n) * (i - 1) == 360 / n
      {
        AngleFacts(n, i);
      }
    }
    items
  }

  /** The layouts named for three viewports. */
  lemma LayoutExamples()
    ensures RadiusBand(500) == Band(120, true) && ItemCount(false, RadiusBand(500).compact) == 5
    ensures RadiusBand(900) == Band(150, false) && ItemCount(false, RadiusBand(900).compact) == 8
    ensures RadiusBand(1200) == Band(190, false) && ItemCount(true, RadiusBand(1200).compact) == 4
  {
  }
}
