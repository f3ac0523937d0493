/** The fixed garden zones that select prompts, inspiration folders and output names. */
module Zones {
  import opened Wrappers

  datatype Zone = Shade | Seating | Plants | PlayArea | Full

  /** `ZONES`, in the order the scripts list and search them. */
  const ZONES: seq<Zone> := [Shade, Seating, Plants, PlayArea, Full]

  /** The string the scripts use for a zone (prompt file stem, folder name, output prefix). */
  function ZoneName(z: Zone): string
  {
    match z
    case Shade => "shade"
    case Seating => "seating"
    case Plants => "plants"
    case PlayArea => "play-area"
    case Full => "full"
  }

  /** `zone in ZONES` for a name given by a caller: the zone it names, if any. */
  function ParseZone(name: string): (r: Option<Zone>)
    ensures r.Some? ==> ZoneName(r.value) == name
    ensures r.None? ==> forall z :: ZoneName(z) != name
  {
    if name == "shade" then Some(Shade)
    else if name == "seating" then Some(Seating)
    else if name == "plants" then Some(Plants)
    else if name == "play-area" then Some(PlayArea)
    else if name == "full" then Some(Full)
    else None
  }

  /** Every zone is listed in `ZONES`. */
  lemma ZonesComplete(z: Zone)
    ensures z in ZONES
  {
  }
}
