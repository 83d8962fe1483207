/** A station as the line topology sees it: an identity plus a display name.
    Stations are created and stored elsewhere; the topology only compares them. */
module Stations {

  /** `Station`: the identity is the `id`; two stations are the same station
      when they are equal values. */
  datatype Station = Station(id: int, name: string)

  /** `isSameStation`: does this station carry the raw identity `id`? */
  predicate IsSameStation(station: Station, id: int)
  {
    station.id == id
  }
}
