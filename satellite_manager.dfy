/** The dispatcher's satellite registry (`SatelliteManager`): a `Hashtable` from
    satellite name to that satellite's connectivity information. */
module SatelliteRegistry {
  import opened Comm

  /** The state behind the Java class's static `Hashtable`. */
  class SatelliteManager {
    var satellites: map<string, ConnectivityInfo>

    /** Every entry is filed under the name it carries. */
    ghost predicate Valid()
      reads this
    {
      forall n :: n in satellites ==> satellites[n].name == Some(n)
    }

    /** A new manager starts from an empty table. */
    constructor ()
      ensures Valid()
      ensures satellites == map[]
    {
      satellites := map[];
    }

    /** `getSatelliteForName`: the registered descriptor, `null` (None) for a name
        that was never registered, and a NullPointerException for a `null` name,
        which `Hashtable` refuses as a key. */
    function GetSatelliteForName(satelliteName: Option<string>): (r: Outcome<Option<ConnectivityInfo>>)
      reads this
      ensures r.Threw? <==> satelliteName.None?
      ensures r.Threw? ==> r.thrown == NullPointerException
      ensures r == Returned(None) <==> satelliteName.Some? && satelliteName.value !in satellites
      ensures Valid() && r.Returned? && r.value.Some? ==> r.value.value.name == satelliteName
    {
      match satelliteName
      case None => Threw(NullPointerException)
      case Some(n) => Returned(if n in satellites then Some(satellites[n]) else None)
    }

    /** `registerSatellite`: files the descriptor under its own name, replacing any
        earlier descriptor of that name and leaving every other name alone. A
        descriptor without a name makes `Hashtable.put` throw and changes nothing. */
    method RegisterSatellite(satelliteInfo: ConnectivityInfo) returns (r: Outcome<()>)
      requires Valid()
      modifies this
      ensures Valid()
      ensures satelliteInfo.name.None? ==>
                r == Threw(NullPointerException) && satellites == old(satellites)
      ensures satelliteInfo.name.Some? ==>
                r == Returned(()) && satellites == old(satellites)[satelliteInfo.name.value := satelliteInfo]
      ensures satelliteInfo.name.Some? ==> GetSatelliteForName(satelliteInfo.name) == Returned(Some(satelliteInfo))
      ensures forall n :: Some(n) != satelliteInfo.name ==>
                GetSatelliteForName(Some(n)) == old(GetSatelliteForName(Some(n)))
    {
      match satelliteInfo.name
      case None =>
        r := Threw(NullPointerException);
      case Some(n) =>
        satellites := satellites[n := satelliteInfo];
        r := Returned(());
    }
  }
}
