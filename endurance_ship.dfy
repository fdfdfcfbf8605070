/**
 * The layout arithmetic of the Endurance ship drawing: twelve modules on a
 * ring, twelve connectors between them, which slot is marked corrupted,
 * which slots are mirrored or carry docking hubs, and the outline of a
 * chamfered panel. Trigonometry and SVG output are not modelled; angles
 * are in degrees.
 */
module EnduranceShip {
  import opened Wrappers

  const RingSize := 12
  const DefaultCorruptedIndex := 8

  const ModuleMaps: seq<string> := [
    "cryo-lab", "landing-pod", "main-engine", "command-module", "main-engine", "landing-pod",
    "cryo-lab", "landing-pod", "main-engine", "cryo-lab", "main-engine", "landing-pod"
  ]

  const ConnectionMaps: seq<string> := [
    "tunnel", "tunnel", "airlock", "tunnel", "airlock", "tunnel",
    "tunnel", "tunnel", "airlock", "tunnel", "airlock", "tunnel"
  ]

  datatype ModuleKind = CryoLab | LandingPod | MainEngine | CommandModule
  datatype ConnectionKind = Tunnel | Airlock

  /** The module drawn for a key; an unknown key draws a cryo lab. */
  function ModuleFor(key: string): (m: ModuleKind)
    ensures m == LandingPod <==> key == "landing-pod"
    ensures m == MainEngine <==> key == "main-engine"
    ensures m == CommandModule <==> key == "command-module"
    ensures key == "cryo-lab" ==> m == CryoLab
    ensures key !in {"cryo-lab", "landing-pod", "main-engine", "command-module"} ==> m == CryoLab
  {
    if key == "landing-pod" then LandingPod
    else if key == "main-engine" then MainEngine
    else if key == "command-module" then CommandModule
    else CryoLab
  }

  /** The connector drawn for a key; an unknown key draws a tunnel. */
  function ConnectionFor(key: string): (c: ConnectionKind)
    ensures c == Airlock <==> key == "airlock"
  {
    if key == "airlock" then Airlock else Tunnel
  }

  // ---------------------------------------------------------------------
  // The corrupted slot

  /** JavaScript's `%`: the remainder takes the sign of the dividend. */
  function JsRem(a: int, n: int): (r: int)
    requires n > 0
    ensures a >= 0 ==> r == a % n
    ensures -n < r < n
    ensures a >= 0 ==> r >= 0
    ensures a <= 0 ==> r <= 0
    ensures r == a - n * TruncDiv(a, n)
  {
    if a >= 0 then a % n else -((-a) % n)
  }

  /** `Math.trunc(a / n)`: the quotient rounded toward zero. */
  function TruncDiv(a: int, n: int): int
    requires n > 0
  {
    if a >= 0 then a / n else -((-a) / n)
  }

  /** The `corruptedModuleIndex` prop: left out (the default, 8), `null`, or a number. */
  datatype CorruptedArg = Unset | Null | Index(k: int)

  /**
   * The ring slot marked corrupted: `(9 + (k - 1)) % 12`. For `k` below
   * -8 the remainder is negative and marks no slot, except when `8 + k` is
   * a multiple of 12: JavaScript's `-0` then equals slot 0
   * (`CorruptedBelowRange`).
   */
  function CorruptedInternal(arg: CorruptedArg): (r: Option<int>)
    ensures r.None? <==> arg.Null?
    ensures arg.Unset? ==> r == Some(4)
  {
    match arg
    case Unset => Some(JsRem(9 + (DefaultCorruptedIndex - 1), RingSize))
    case Null => None
    case Index(k) => Some(JsRem(9 + (k - 1), RingSize))
  }

  /** Below the range the slot is negative, or slot 0 when `8 + k` is a multiple of 12. */
  lemma CorruptedBelowRange(k: int)
    requires k < -8
    ensures (8 + k) % 12 == 0 ==> CorruptedInternal(Index(k)) == Some(0)
    ensures (8 + k) % 12 != 0 ==> CorruptedInternal(Index(k)).value < 0
  {
  }

  /** For an index in 1..12 the remainder is a plain shift: 1..3 go to 9..11, 4..12 to 0..8. */
  lemma CorruptedFormula(k: int)
    requires 1 <= k <= 12
    ensures CorruptedInternal(Index(k)) == Some(if k <= 3 then k + 8 else k - 4)
  {
    if k <= 3 {
      assert (k + 8) % 12 == k + 8;
    } else {
      assert k + 8 == 12 + (k - 4);
      assert (k + 8) % 12 == k - 4;
    }
  }

  /** The number, counted from 1 at three o'clock, of ring slot `i`. */
  function SlotNumber(i: int): int {
    if i >= 9 then i - 8 else i + 4
  }

  /**
   * Numbering from 1 at three o'clock: `k` in 1..12 maps onto the slots
   * 0..11, one to one, with 1 at slot 9; `SlotNumber` is its inverse.
   */
  lemma CorruptedBijection()
    ensures forall k :: 1 <= k <= 12 ==> 0 <= CorruptedInternal(Index(k)).value < 12
    ensures forall k1, k2 :: 1 <= k1 <= 12 && 1 <= k2 <= 12 && k1 != k2 ==>
              CorruptedInternal(Index(k1)) != CorruptedInternal(Index(k2))
    ensures forall i :: 0 <= i < 12 ==> 1 <= SlotNumber(i) <= 12 && CorruptedInternal(Index(SlotNumber(i))) == Some(i)
    ensures CorruptedInternal(Index(1)) == Some(9)
  {
    forall k | 1 <= k <= 12 ensures CorruptedInternal(Index(k)) == Some(if k <= 3 then k + 8 else k - 4) {
      CorruptedFormula(k);
    }
    forall i | 0 <= i < 12 ensures CorruptedInternal(Index(SlotNumber(i))) == Some(i) {
      CorruptedFormula(SlotNumber(i));
    }
  }

  /** The angle of ring slot `idx`, in degrees. */
  function SlotAngle(idx: int): int {
    90 + idx * 30
  }

  /** The angle of connector `idx`, in degrees: 15 past module `idx`. */
  function ConnectorAngle(idx: int): int {
    105 + idx * 30
  }

  /**
   * Corrupted index 1 is the slot at 360 degrees (three o'clock), and each
   * step up in the index moves the mark one slot clockwise, 30 degrees on,
   * wrapping from 12 back to 1.
   */
  lemma CorruptedAngles(k: int)
    requires 1 <= k <= 12
    ensures SlotAngle(CorruptedInternal(Index(1)).value) == 360
    ensures SlotAngle(CorruptedInternal(Index(k % 12 + 1)).value) % 360 ==
            (SlotAngle(CorruptedInternal(Index(k)).value) + 30) % 360
  {
    CorruptedFormula(1);
    CorruptedFormula(k);
    CorruptedFormula(k % 12 + 1);
  }

  // ---------------------------------------------------------------------
  // The rings

  /** The slots with a mirrored module (the seven, six, five and three o'clock slots). */
  const MirroredSlots: set<int> := {5, 6, 7, 9}

  datatype Slot = Slot(angle: int, kind: ModuleKind, mirrored: bool, corrupted: bool, hubs: nat)

  /** One ring slot. */
  function SlotAt(idx: nat, corrupted: Option<int>): Slot
    requires idx < |ModuleMaps|
  {
    Slot(SlotAngle(idx), ModuleFor(ModuleMaps[idx]), idx in MirroredSlots,
         corrupted == Some(idx as int), if idx == 9 then 4 else 0)
  }

  /** The module ring, one slot per entry of the module map. */
  function RingSlots(arg: CorruptedArg): (r: seq<Slot>)
    ensures |r| == |ModuleMaps| == RingSize
    ensures forall i :: 0 <= i < |r| ==> r[i] == SlotAt(i, CorruptedInternal(arg))
  {
    seq(|ModuleMaps|, i requires 0 <= i < |ModuleMaps| => SlotAt(i, CorruptedInternal(arg)))
  }

  /**
   * The ring's shape: slots 30 degrees apart from six o'clock, exactly
   * slots 5, 6, 7 and 9 mirrored, only slot 9 with its four docking hubs,
   * at most one slot corrupted (exactly one for an index in 1..12), and
   * no module key falling back.
   */
  lemma RingShape(arg: CorruptedArg)
    ensures forall i :: 0 <= i < 12 ==> RingSlots(arg)[i].angle == 90 + 30 * i
    ensures forall i :: 0 <= i < 12 ==> (RingSlots(arg)[i].mirrored <==> i == 5 || i == 6 || i == 7 || i == 9)
    ensures forall i :: 0 <= i < 12 ==> (RingSlots(arg)[i].hubs > 0 <==> i == 9)
    ensures forall i, j :: 0 <= i < 12 && 0 <= j < 12 && RingSlots(arg)[i].corrupted && RingSlots(arg)[j].corrupted ==> i == j
    ensures arg.Index? && 1 <= arg.k <= 12 ==> exists i :: 0 <= i < 12 && RingSlots(arg)[i].corrupted
    ensures arg.Null? ==> forall i :: 0 <= i < 12 ==> !RingSlots(arg)[i].corrupted
    ensures forall i :: 0 <= i < 12 ==> ModuleMaps[i] in {"cryo-lab", "landing-pod", "main-engine", "command-module"}
  {
    if arg.Index? && 1 <= arg.k <= 12 {
      CorruptedBijection();
      var i := CorruptedInternal(arg).value;
      assert RingSlots(arg)[i].corrupted;
    }
  }

  datatype Connector = Connector(angle: int, kind: ConnectionKind)

  /** The connector ring, one connector per entry of the connection map. */
  function Connectors(): (r: seq<Connector>)
    ensures |r| == |ConnectionMaps| == RingSize
    ensures forall i :: 0 <= i < |r| ==> r[i].angle == SlotAngle(i) + 15
    ensures forall i :: 0 <= i < |r| ==> (r[i].kind == Airlock <==> i in {2, 4, 8, 10})
  {
    seq(|ConnectionMaps|, i requires 0 <= i < |ConnectionMaps| =>
      Connector(ConnectorAngle(i), ConnectionFor(ConnectionMaps[i])))
  }

  /** Each connector sits halfway between its module and the next one, and the last closes the ring. */
  lemma ConnectorsBetweenSlots()
    ensures forall i :: 0 <= i < 12 ==> 2 * Connectors()[i].angle == SlotAngle(i) + SlotAngle(i + 1)
    ensures SlotAngle(12) % 360 == SlotAngle(0) % 360
  {
  }

  // ---------------------------------------------------------------------
  // ChamferedPanel

  /**
   * The outline of a `ChamferedPanel`: the rectangle centred on the
   * origin, clockwise from the top edge, with its top-left corner cut
   * `chamfer` along each edge.
   */
  function ChamferedPanel(width: real, height: real, chamfer: real): (r: seq<(real, real)>)
    ensures |r| == 5
    ensures r[1] == (width / 2.0, -height / 2.0) && r[2] == (width / 2.0, height / 2.0) && r[3] == (-width / 2.0, height / 2.0)
    ensures r[0].1 == -height / 2.0 && r[0].0 - (-width / 2.0) == chamfer
    ensures r[4].0 == -width / 2.0 && r[4].1 - (-height / 2.0) == chamfer
  {
    var hw := width / 2.0;
    var hh := height / 2.0;
    [(-hw + chamfer, -hh), (hw, -hh), (hw, hh), (-hw, hh), (-hw, -hh + chamfer)]
  }

  /**
   * With a chamfer no longer than either side every vertex lies on the
   * rectangle's border, and with no chamfer the cut closes on the corner.
   */
  lemma ChamferInsideRectangle(width: real, height: real, chamfer: real)
    requires 0.0 <= chamfer <= width && chamfer <= height
    ensures forall k :: 0 <= k < 5 ==>
              -width / 2.0 <= ChamferedPanel(width, height, chamfer)[k].0 <= width / 2.0 &&
              -height / 2.0 <= ChamferedPanel(width, height, chamfer)[k].1 <= height / 2.0
    ensures chamfer == 0.0 ==> ChamferedPanel(width, height, chamfer)[0] == ChamferedPanel(width, height, chamfer)[4]
  {
  }
}
