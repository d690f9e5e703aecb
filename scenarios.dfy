/** Whole-system runs, each step one atomic handling of a connection. */
module Scenarios {
  import opened Comm
  import opened Dispatch
  import opened Worker
  import opened FibonacciTool

  /** A leg to a satellite whose tool echoes the job's parameter. */
  function EchoLeg(info: ConnectivityInfo, message: Message): (r: LegResult)
  {
    if message.content.JobPayload? then LegReply(message.content.job.parameters) else LegFailed
  }

  /** Two satellites register in the order S1, S2; three job requests then go to
      S1, S2 and S1, and each client gets the tool's answer for its job. */
  method RoundRobinRouting() returns (routes: seq<ConnectivityInfo>, replies: seq<Option<Value>>)
    ensures |routes| == 3 && routes[0].name == Some("S1") && routes[1].name == Some("S2") && routes[2] == routes[0]
    ensures replies == [Some(IntValue(5)), Some(IntValue(5)), Some(IntValue(5))]
  {
    var s1 := ConnectivityInfo(Some("S1"), "host-1", 5001);
    var s2 := ConnectivityInfo(Some("S2"), "host-2", 5002);
    var request := Message(JobRequest, JobPayload(Job("Echo", IntValue(5))));
    var server := new Server();
    var reply, contacted := server.HandleConnection(Some(Message(RegisterSatellite, InfoPayload(s1))), EchoLeg);
    reply, contacted := server.HandleConnection(Some(Message(RegisterSatellite, InfoPayload(s2))), EchoLeg);
    assert server.loadManager.satellites == ["S1", "S2"];
    var reply1, route1 := server.HandleConnection(Some(request), EchoLeg);
    var reply2, route2 := server.HandleConnection(Some(request), EchoLeg);
    var reply3, route3 := server.HandleConnection(Some(request), EchoLeg);
    routes := [route1.value, route2.value, route3.value];
    replies := [reply1, reply2, reply3];
  }

  /** The tool a satellite runs for a class name: the Fibonacci tool for its class
      name, an exception for anything else. */
  function RunTool(tool: Tool, parameters: Value): (r: Outcome<Value>)
  {
    if tool.className == FIBONACCI_CLASS then FibonacciGo(parameters) else Threw(ClassCastException)
  }

  /** A satellite whose code server delivers the Fibonacci class answers a request for
      n in [0, 46] with the n-th Fibonacci number, and loads the class only for the
      first such request. */
  method FibonacciJobs(satellite: Satellite, n: int32, m: int32) returns (first: Option<Value>, second: Option<Value>)
    requires satellite.Valid()
    requires satellite.classLoader(FIBONACCI_CLASS) && satellite.construct(FIBONACCI_CLASS) == Constructed
    requires 0 <= n <= MAX_CLIENT_ARGUMENT && 0 <= m <= MAX_CLIENT_ARGUMENT
    modifies satellite
    ensures satellite.Valid()
    ensures first.Some? && first.value.IntValue? && first.value.i as int == Fib(n as nat)
    ensures second.Some? && second.value.IntValue? && second.value.i as int == Fib(m as nat)
    ensures FIBONACCI_CLASS in satellite.toolsCache
    ensures |satellite.loadRequests| <= |old(satellite.loadRequests)| + 1
  {
    first := satellite.ServeConnection(Some(Message(JobRequest, JobPayload(Job(FIBONACCI_CLASS, IntValue(n))))), RunTool);
    second := satellite.ServeConnection(Some(Message(JobRequest, JobPayload(Job(FIBONACCI_CLASS, IntValue(m))))), RunTool);
  }
}
