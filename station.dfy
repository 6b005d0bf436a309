/** A map node (src/ch/epfl/tchu/game/Station.java). The constructor's `id >= 0` check is the
    type of `id`; `toString` is `name`. Stations are compared as values. */
module Stations {

  datatype Station = Station(id: nat, name: string)

  /** `StationConnectivity`: whether two stations are linked. */
  type Connectivity = (Station, Station) -> bool
}
