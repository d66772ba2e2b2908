/** The ship catalogue `ShipSpec.from_type` (ship.py): speed class, hold
    size and armament of each of the 24 ship types. */
module ShipSpecs {

  /** MIN_SHIP_SPEED_IN_KM_PER_DAY */
  const MinShipSpeed: int := 1

  /** `ShipSpeed`: kilometres per iteration, a multiple of the minimum. */
  datatype Speed = VerySlow | Slow | Moderate | Fast | VeryFast {
    function Km(): (k: int)
      ensures MinShipSpeed <= k <= 5 * MinShipSpeed
    {
      match this
      case VerySlow => MinShipSpeed
      case Slow => 2 * MinShipSpeed
      case Moderate => 3 * MinShipSpeed
      case Fast => 4 * MinShipSpeed
      case VeryFast => 5 * MinShipSpeed
    }
  }

  datatype ShipType =
    | WarCanoe | Pinnace | MailRunner
    | Sloop | SloopOfWar | RoyalSloop
    | Brigantine | Brig | BrigOfWar
    | CoastalBarque | Barque | OceanBarque
    | Fluyt | LargeFluyt | WestIndianman
    | Merchantman | LargeMerchantman | EastIndianman
    | FastGalleon | WarGalleon | FlagGalleon
    | Frigate | LargeFrigate | ShipOfTheLine

  datatype ShipSpec = ShipSpec(kind: ShipType, speed: Speed, maxHold: int, maxCannons: int)

  /** `ShipSpec.from_type`. The match is exhaustive, so the source's
      "unknown ship type" error cannot arise. */
  function FromType(t: ShipType): (s: ShipSpec)
    ensures s.kind == t
    ensures 20 <= s.maxHold <= 140 && 8 <= s.maxCannons <= 48
    ensures MinShipSpeed <= s.speed.Km() <= 5 * MinShipSpeed
  {
    match t
    case WarCanoe => ShipSpec(t, VeryFast, 20, 8)
    case Pinnace => ShipSpec(t, VeryFast, 25, 10)
    case MailRunner => ShipSpec(t, VeryFast, 30, 12)
    case Sloop => ShipSpec(t, Fast, 40, 12)
    case SloopOfWar => ShipSpec(t, Fast, 50, 16)
    case RoyalSloop => ShipSpec(t, Fast, 60, 20)
    case Brigantine => ShipSpec(t, Moderate, 60, 20)
    case Brig => ShipSpec(t, Moderate, 80, 24)
    case BrigOfWar => ShipSpec(t, Moderate, 80, 32)
    case CoastalBarque => ShipSpec(t, Slow, 60, 12)
    case Barque => ShipSpec(t, Slow, 70, 16)
    case OceanBarque => ShipSpec(t, Slow, 80, 16)
    case Fluyt => ShipSpec(t, VerySlow, 80, 8)
    case LargeFluyt => ShipSpec(t, VerySlow, 100, 12)
    case WestIndianman => ShipSpec(t, VerySlow, 120, 16)
    case Merchantman => ShipSpec(t, Slow, 100, 16)
    case LargeMerchantman => ShipSpec(t, Slow, 120, 20)
    case EastIndianman => ShipSpec(t, Slow, 140, 20)
    case FastGalleon => ShipSpec(t, Slow, 80, 24)
    case WarGalleon => ShipSpec(t, Slow, 90, 32)
    case FlagGalleon => ShipSpec(t, Slow, 100, 40)
    case Frigate => ShipSpec(t, Fast, 80, 32)
    case LargeFrigate => ShipSpec(t, Fast, 90, 40)
    case ShipOfTheLine => ShipSpec(t, Fast, 100, 48)
  }
}
