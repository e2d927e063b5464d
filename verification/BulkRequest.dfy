/**
 The parts of a bulk request (section 3.7 of RFC 7644) that the scheduler and the
 executor look at, the table of bulkId producers, and the paths of operations.
 */
module BulkRequest {
  import opened Text

  type ResourceId = nat

  /** A resource in a path: nowhere, by its identifier, or by a bulkId that stands for one. */
  datatype Address = Nowhere | ById(id: ResourceId) | ByRef(r: string)

  /**
   One element of Operations. An element that is not a JSON object is NotAnObject.
   - pathRefs and otherRefs are the bulkId tokens found in the path and in the data;
   - deferrable are the tokens r standing alone as "bulkId:r" in members[].value of a
     group or in the manager of a user; they are part of the data as well;
   - address is the resource that the path leads to.
   */
  datatype Operation =
    | NotAnObject
    | Operation(verb: string, bulkId: string, path: string, hasData: bool, isGroup: bool,
                pathRefs: seq<string>, otherRefs: seq<string>, deferrable: seq<string>, address: Address)
  {
    function DataRefs(): seq<string>
      requires Operation?
    {
      otherRefs + deferrable
    }

    function Refs(): seq<string>
      requires Operation?
    {
      pathRefs + DataRefs()
    }

    /** The method as the executor and the cycle breaker see it. */
    predicate IsPost() {
      Operation? && EqualFold(TrimSpace(verb), "POST")
    }

    /** The bulkId this operation offers to others; here the method is not trimmed. */
    function Declares(): Option<string> {
      if Operation? && EqualFold(verb, "POST") && TrimSpace(bulkId) != "" then Some(TrimSpace(bulkId)) else None
    }
  }

  lemma DeclaringIsPost(op: Operation)
    requires op.Declares().Some?
    ensures op.IsPost()
  {
    assert ToLower(op.verb) == ToLower("POST");
    assert ToLower("POST")[0] == 'p' && ToLower("POST")[3] == 't';
    assert |op.verb| == |ToLower(op.verb)| == 4;
    assert LowerChar(op.verb[0]) == 'p' && LowerChar(op.verb[3]) == 't';
  }

  // ----- paths

  /** The segments of a path, or None when a segment is "." or "..". */
  function Segments(path: string): Option<seq<string>> {
    var segments := DropEmpty(Split(Trim(TrimSpace(path), c => c == '/'), '/'));
    if "." in segments || ".." in segments then None else Some(segments)
  }

  /** The key under which operations on one resource are kept in order. */
  function ResourceKey(path: string): Option<string> {
    match Segments(path)
    case Some(segs) => if |segs| >= 2 then Some(ToLower(segs[0]) + "/" + segs[1]) else None
    case None => None
  }

  // ----- what the scheduler reads of an operation

  datatype Task = Task(post: bool, declares: Option<string>, key: Option<string>, refs: seq<string>)

  function View(op: Operation): (task: Task)
    ensures task.declares.Some? ==> task.post
  {
    match op
    case NotAnObject => Task(false, None, None, [])
    case Operation(_, _, _, _, _, _, _, _, _) =>
      if op.Declares().Some? then DeclaringIsPost(op); Task(op.IsPost(), op.Declares(), ResourceKey(op.path), op.Refs())
      else Task(op.IsPost(), op.Declares(), ResourceKey(op.path), op.Refs())
  }

  /** A producer is a POST. */
  predicate Sound(tasks: seq<Task>) {
    forall i | 0 <= i < |tasks| && tasks[i].declares.Some? :: tasks[i].post
  }

  function Views(ops: seq<Operation>): (tasks: seq<Task>)
    ensures |tasks| == |ops| && Sound(tasks)
    ensures forall i | 0 <= i < |ops| :: tasks[i] == View(ops[i])
  {
    seq(|ops|, i requires 0 <= i < |ops| => View(ops[i]))
  }

  // ----- producers: the first POST that declares a bulkId

  function Producers(tasks: seq<Task>): map<string, nat> {
    if tasks == [] then map[]
    else
      var last := |tasks| - 1;
      var before := Producers(tasks[..last]);
      match tasks[last].declares
      case None => before
      case Some(b) => if b in before then before else before[b := last]
  }

  lemma {:induction false} ProducersAreFirst(tasks: seq<Task>)
    ensures forall b :: b in Producers(tasks) ==>
              && Producers(tasks)[b] < |tasks|
              && tasks[Producers(tasks)[b]].declares == Some(b)
              && forall j | 0 <= j < Producers(tasks)[b] :: tasks[j].declares != Some(b)
    ensures forall i | 0 <= i < |tasks| && tasks[i].declares.Some? :: tasks[i].declares.value in Producers(tasks)
  {
    if tasks != [] {
      ProducersAreFirst(tasks[..|tasks| - 1]);
    }
  }

  method CollectProducers(tasks: seq<Task>) returns (producers: map<string, nat>)
    ensures producers == Producers(tasks)
  {
    producers := map[];
    for i := 0 to |tasks|
      invariant producers == Producers(tasks[..i])
    {
      assert tasks[..i + 1][..i] == tasks[..i];
      var declared := tasks[i].declares;
      if declared.Some? && declared.value !in producers {
        producers := producers[declared.value := i];
      }
    }
    assert tasks[..|tasks|] == tasks;
  }

  // ----- the last operation before i on the resource named by key

  function LastOn(tasks: seq<Task>, key: string, i: nat): (last: Option<nat>)
    requires i <= |tasks|
    ensures last.None? ==> forall j | 0 <= j < i :: tasks[j].key != Some(key)
    ensures last.Some? ==>
              && last.value < i && tasks[last.value].key == Some(key)
              && forall j | last.value < j < i :: tasks[j].key != Some(key)
  {
    if i == 0 then None
    else if tasks[i - 1].key == Some(key) then Some(i - 1)
    else LastOn(tasks, key, i - 1)
  }

  // ----- what the executor reads of an operation

  datatype Verb = Post | Put | Patch | Delete | Unsupported

  /** Where a result points: at a resource the request created, or at an addressed one. */
  datatype Location = OfCreated(id: ResourceId) | OfTarget(path: string)

  datatype Call =
    | NoCall
    | Call(verb: Verb, bulkId: string, blankId: bool, target: Option<Location>, hasData: bool, isGroup: bool,
           otherRefs: seq<string>, deferrable: seq<string>, address: Address)
  {
    predicate IsPost() {
      Call? && verb == Post
    }

    function DataRefs(): seq<string>
      requires Call?
    {
      otherRefs + deferrable
    }
  }

  function VerbOf(op: Operation): Verb
    requires op.Operation?
  {
    var verb := TrimSpace(op.verb);
    if EqualFold(verb, "POST") then Post
    else if EqualFold(verb, "PUT") then Put
    else if EqualFold(verb, "PATCH") then Patch
    else if EqualFold(verb, "DELETE") then Delete
    else Unsupported
  }

  /** The location of an addressed resource; a path of slashes and spaces has none. */
  function TargetOf(op: Operation): Option<Location>
    requires op.Operation?
  {
    if Trim(TrimSpace(op.path), c => c == '/') == "" then None else Some(OfTarget(op.path))
  }

  function CallOf(op: Operation): Call {
    match op
    case NotAnObject => NoCall
    case Operation(_, _, _, _, _, _, _, _, _) =>
      Call(VerbOf(op), op.bulkId, TrimSpace(op.bulkId) == "", TargetOf(op), op.hasData, op.isGroup, op.otherRefs, op.deferrable,
           op.address)
  }

  function Calls(ops: seq<Operation>): (calls: seq<Call>)
    ensures |calls| == |ops| && forall i | 0 <= i < |ops| :: calls[i] == CallOf(ops[i])
  {
    seq(|ops|, i requires 0 <= i < |ops| => CallOf(ops[i]))
  }
}
