/** The dispatcher (`Server`): one incoming connection is handled by decoding one
    message and routing it on its type. The connection to the client and the
    forwarding connection to a satellite are the two network legs; the first is
    the `incoming` message and the `reply` written back, the second is the
    `satelliteLeg` function together with the `contacted` satellite. */
module Dispatch {
  import opened Comm
  import opened LoadManagement
  import opened SatelliteRegistry

  /** How the forwarding leg ends: the satellite's reply object; an `IOException` or
      `ClassNotFoundException` while connecting, writing or reading, which the handler
      catches; or an unchecked exception on the way, which nothing catches. */
  datatype LegResult = LegReply(result: Value) | LegFailed | LegAborted

  /** `new Socket(host, port)` accepts only ports in [0, 65535]; any other port throws
      `IllegalArgumentException` before the satellite is contacted. */
  predicate ValidPort(port: int32)
  {
    0 <= port <= 65535
  }

  /** What the dispatcher writes back to the client after the forwarding leg: `null`
      after a caught failure, the reply when it is an `Integer` or `null`. A reply of
      any other class fails the `(Integer)` cast, and that exception, like any other
      unchecked one, ends the thread with nothing written. */
  function Relay(leg: LegResult): (r: Option<Value>)
    ensures leg.LegFailed? ==> r == Some(NullValue)
    ensures r.Some? && leg.LegReply? ==> r.value == leg.result
    ensures r.None? <==> leg.LegAborted? || (leg.LegReply? && leg.result.OtherObject?)
  {
    match leg
    case LegFailed => Some(NullValue)
    case LegAborted => None
    case LegReply(v) => if v.OtherObject? then None else Some(v)
  }

  class Server {
    const satelliteManager: SatelliteManager
    const loadManager: LoadManager

    /** Every name the balancer can pick is registered: registration fills the registry
        before it appends to the balancer, and both only grow. */
    ghost predicate Valid()
      reads this, satelliteManager, loadManager
    {
      satelliteManager.Valid() && loadManager.Valid() &&
      forall i :: 0 <= i < |loadManager.satellites| ==> loadManager.satellites[i] in satelliteManager.satellites
    }

    /** The server's construction: a new registry and a new balancer. */
    constructor ()
      ensures Valid()
      ensures fresh(satelliteManager) && fresh(loadManager)
      ensures satelliteManager.satellites == map[]
      ensures loadManager.satellites == [] && loadManager.lastSatelliteIndex == -1
    {
      satelliteManager := new SatelliteManager();
      loadManager := new LoadManager();
    }

    /** `ServerThread.run` for one connection, each step atomic.
        REGISTER_SATELLITE records the descriptor, then appends its name to the balancer,
        and answers nothing. JOB_REQUEST picks the next satellite, looks it up, forwards
        the message unchanged and writes back what the leg produced (`null` after a
        failed leg); with no satellites the lookup of a `null` name throws and nothing is
        written, and a registered port outside [0, 65535] makes the socket constructor
        throw, so nobody is contacted and nothing is written. Any other type changes
        nothing and answers nothing. */
    method HandleConnection(incoming: Option<Message>, satelliteLeg: (ConnectivityInfo, Message) -> LegResult)
      returns (reply: Option<Value>, contacted: Option<ConnectivityInfo>)
      requires Valid()
      modifies satelliteManager, loadManager
      ensures Valid()
      ensures contacted.Some? ==>
                incoming.Some? && incoming.value.messageType == JobRequest &&
                reply == Relay(satelliteLeg(contacted.value, incoming.value))
      ensures incoming.None? || incoming.value.messageType.OtherType? ==>
                reply.None? && contacted.None? && unchanged(satelliteManager, loadManager)
      ensures incoming.Some? && incoming.value.messageType == RegisterSatellite ==>
                var content := incoming.value.content;
                reply.None? && contacted.None? &&
                loadManager.lastSatelliteIndex == old(loadManager.lastSatelliteIndex) &&
                if content.InfoPayload? && content.info.name.Some? then
                  satelliteManager.satellites == old(satelliteManager.satellites)[content.info.name.value := content.info] &&
                  loadManager.satellites == old(loadManager.satellites) + [content.info.name.value]
                else
                  satelliteManager.satellites == old(satelliteManager.satellites) &&
                  loadManager.satellites == old(loadManager.satellites)
      ensures incoming.Some? && incoming.value.messageType == JobRequest ==>
                satelliteManager.satellites == old(satelliteManager.satellites) &&
                loadManager.satellites == old(loadManager.satellites) &&
                (|loadManager.satellites| == 0 ==>
                   reply.None? && contacted.None? &&
                   loadManager.lastSatelliteIndex == old(loadManager.lastSatelliteIndex)) &&
                (|loadManager.satellites| > 0 ==>
                   loadManager.lastSatelliteIndex == (old(loadManager.lastSatelliteIndex) + 1) % |loadManager.satellites| &&
                   var picked := satelliteManager.satellites[loadManager.satellites[loadManager.lastSatelliteIndex]];
                   (ValidPort(picked.port) ==> contacted == Some(picked)) &&
                   (!ValidPort(picked.port) ==> contacted.None? && reply.None?))
    {
      reply, contacted := None, None;
      if incoming.None? {
        return;  // message.getType() on a null message
      }
      var message := incoming.value;
      match message.messageType {
        case RegisterSatellite =>
          if !message.content.InfoPayload? {
            return;  // (ConnectivityInfo) cast fails
          }
          var connectivityInfo := message.content.info;
          var registered := satelliteManager.RegisterSatellite(connectivityInfo);
          if registered.Threw? {
            return;  // Hashtable.put with a null name
          }
          loadManager.SatelliteAdded(connectivityInfo.name.value);
        case JobRequest =>
          var satelliteName: Option<string> := None;
          var next := loadManager.NextSatellite();
          if next.Returned? {
            satelliteName := Some(next.value);
          }
          var lookup := satelliteManager.GetSatelliteForName(satelliteName);
          if lookup.Threw? {
            return;  // Hashtable.get with a null name
          }
          if lookup.value.None? {
            return;  // connectivityInfo.getHost() on null; Valid() rules this out
          }
          var connectivityInfo := lookup.value.value;
          if !ValidPort(connectivityInfo.port) {
            return;  // IllegalArgumentException from new Socket, not caught
          }
          contacted := Some(connectivityInfo);
          reply := Relay(satelliteLeg(connectivityInfo, message));
        case OtherType(_) =>
      }
    }
  }
}
