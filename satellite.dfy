/** A satellite's job handling: the lazily filled tool cache (`getToolObject`) and
    the per-connection dispatch on the message type (`SatelliteThread.run`). The
    class loader, the reflective constructor call and `Tool.go` are foreign code;
    they enter the model as functions the satellite is given. */
module Worker {
  import opened Comm

  /** An instance of a loaded tool class; its identity is that of the Java object. */
  class Tool {
    const className: string

    constructor (className: string)
      ensures this.className == className
    {
      this.className := className;
    }
  }

  /** How `getDeclaredConstructor().newInstance()`, followed by the cast to `Tool`,
      ends for a class the loader delivered. */
  datatype Construction =
    | Constructed
    | NoSuchMethod        // caught and logged; the tool object stays null
    | SecurityViolation   // caught and logged; the tool object stays null
    | ConstructorThrew    // InvocationTargetException, caught; the tool object stays null
    | NotInstantiable     // InstantiationException, propagated
    | NotAccessible       // IllegalAccessException, propagated
    | NotATool            // the (Tool) cast fails: ClassCastException, propagated

  /** The exception a cache miss ends in, or None when the tool was loaded and built.
      A swallowed construction failure leaves `null`, which `Hashtable.put` refuses. */
  function MissFailure(classFound: bool, c: Construction): (r: Option<Throwable>)
    ensures r.None? <==> classFound && c == Constructed
  {
    if !classFound then Some(ClassNotFoundException)
    else match c
      case Constructed => None
      case NoSuchMethod => Some(NullPointerException)
      case SecurityViolation => Some(NullPointerException)
      case ConstructorThrew => Some(NullPointerException)
      case NotInstantiable => Some(InstantiationException)
      case NotAccessible => Some(IllegalAccessException)
      case NotATool => Some(ClassCastException)
  }

  /** A value the satellite can write back: `(Integer) object` succeeds only on an
      `Integer` or on `null`. */
  predicate Writable(result: Outcome<Value>)
  {
    result.Returned? && (result.value.IntValue? || result.value.NullValue?)
  }

  class Satellite {
    /** `classLoader.loadClass`: true when the code server delivers the class. */
    const classLoader: string -> bool
    /** The reflective construction of a delivered class. */
    const construct: string -> Construction
    var toolsCache: map<string, Tool>
    /** Every class name passed to the class loader, in order. */
    ghost var loadRequests: seq<string>

    /** Every cached tool is an instance of the class it is filed under. */
    ghost predicate Valid()
      reads this
    {
      forall name :: name in toolsCache ==> toolsCache[name].className == name
    }

    /** The satellite's start-up, as far as the cache is concerned: the cache is empty. */
    constructor (classLoader: string -> bool, construct: string -> Construction)
      ensures Valid()
      ensures this.classLoader == classLoader && this.construct == construct
      ensures toolsCache == map[] && loadRequests == []
    {
      this.classLoader := classLoader;
      this.construct := construct;
      toolsCache := map[];
      loadRequests := [];
    }

    /** `getToolObject`. A hit returns the cached instance without asking the class
        loader. A miss asks the loader once; on success a new instance is cached under
        the name and returned, on failure the exception propagates and the cache is
        left as it was. No entry is ever overwritten. */
    method GetToolObject(toolClassString: string) returns (r: Outcome<Tool>)
      requires Valid()
      modifies this
      ensures Valid()
      ensures toolClassString in old(toolsCache) ==>
                r == Returned(old(toolsCache)[toolClassString]) &&
                toolsCache == old(toolsCache) && loadRequests == old(loadRequests)
      ensures toolClassString !in old(toolsCache) ==>
                loadRequests == old(loadRequests) + [toolClassString]
      ensures toolClassString !in old(toolsCache) && r.Returned? ==>
                MissFailure(classLoader(toolClassString), construct(toolClassString)).None? &&
                fresh(r.value) && r.value.className == toolClassString &&
                toolsCache == old(toolsCache)[toolClassString := r.value]
      ensures r.Threw? ==>
                toolClassString !in old(toolsCache) && toolsCache == old(toolsCache) &&
                MissFailure(classLoader(toolClassString), construct(toolClassString)) == Some(r.thrown)
    {
      if toolClassString in toolsCache {
        return Returned(toolsCache[toolClassString]);
      }
      loadRequests := loadRequests + [toolClassString];
      var failure := MissFailure(classLoader(toolClassString), construct(toolClassString));
      if failure.Some? {
        return Threw(failure.value);
      }
      var toolObject := new Tool(toolClassString);
      toolsCache := toolsCache[toolClassString := toolObject];
      r := Returned(toolObject);
    }

    /** `SatelliteThread.run`: for a job request, resolve the tool, run it on the job's
        parameters and write its result back; every other message, and every failure
        on the way, ends the connection without a reply. `incoming` is None when no
        message could be read; `go` stands for `Tool.go`. */
    method ServeConnection(incoming: Option<Message>, go: (Tool, Value) -> Outcome<Value>)
      returns (reply: Option<Value>)
      requires Valid()
      modifies this
      ensures Valid()
      ensures incoming.None? || incoming.value.messageType != JobRequest || !incoming.value.content.JobPayload? ==>
                reply.None? && toolsCache == old(toolsCache) && loadRequests == old(loadRequests)
      ensures incoming.Some? && incoming.value.messageType == JobRequest && incoming.value.content.JobPayload? ==>
                var job := incoming.value.content.job;
                (reply.Some? <==> job.toolName in toolsCache && Writable(go(toolsCache[job.toolName], job.parameters))) &&
                (reply.Some? ==> go(toolsCache[job.toolName], job.parameters) == Returned(reply.value)) &&
                loadRequests == old(loadRequests) + (if job.toolName in old(toolsCache) then [] else [job.toolName]) &&
                (job.toolName in toolsCache <==>
                   job.toolName in old(toolsCache) || MissFailure(classLoader(job.toolName), construct(job.toolName)).None?) &&
                (toolsCache == old(toolsCache) ||
                 (job.toolName !in old(toolsCache) && job.toolName in toolsCache && fresh(toolsCache[job.toolName]) &&
                  toolsCache == old(toolsCache)[job.toolName := toolsCache[job.toolName]]))
    {
      reply := None;
      if incoming.None? {
        return;  // message.getType() on a null message
      }
      var message := incoming.value;
      match message.messageType {
        case JobRequest =>
          if !message.content.JobPayload? {
            return;  // (Job) cast fails
          }
          var job := message.content.job;
          var tool := GetToolObject(job.toolName);
          if tool.Threw? {
            return;
          }
          var result := go(tool.value, job.parameters);
          if Writable(result) {
            reply := Some(result.value);
          }
        case RegisterSatellite =>
        case OtherType(_) =>
      }
    }
  }

  /** Resolving the same name twice: if the first call succeeds, the second returns the
      identical instance, and the class loader was asked at most once. A failure is not
      remembered: the second call asks the class loader again. */
  method ResolveTwice(satellite: Satellite, toolClassString: string) returns (first: Outcome<Tool>, second: Outcome<Tool>)
    requires satellite.Valid()
    modifies satellite
    ensures satellite.Valid()
    ensures first.Returned? ==> second == first
    ensures first.Returned? ==> |satellite.loadRequests| <= |old(satellite.loadRequests)| + 1
    ensures first.Threw? ==>
              satellite.loadRequests == old(satellite.loadRequests) + [toolClassString, toolClassString]
  {
    first := satellite.GetToolObject(toolClassString);
    second := satellite.GetToolObject(toolClassString);
  }
}
