/**
 * The marketplace page (app/marketplace/page.tsx): the node listing, the
 * owner / non-owner action on each node, the price-update and
 * job-submission handlers with their guards and request bodies, and the
 * page state they change.
 */
module Marketplace {
  import opened JsValues
  import opened JsNumber

  /** One entry of `/gpu-nodes/details`; `null` and absent are both `None`. */
  datatype Node = Node(
    id: int,
    ownerId: int,
    location: string,
    gpuModel: string,
    gpuCount: int,
    isOnline: bool,
    pricePerHour: Option<real>,
    currency: Option<string>,
    lastActive: Option<string>,
    nodeKey: Option<string>)

  /** The button rendered on a node card. */
  datatype Action = SetPrice | SubmitJob

  /**
   * `userId && userId === n.owner_id`: the owner's button for a signed-in
   * user (id present and not 0) who owns the node, "Submit Job" otherwise.
   */
  function ActionFor(userId: Option<int>, n: Node): (a: Action)
    ensures a == SetPrice <==> userId.Some? && userId.value != 0 && userId.value == n.ownerId
  {
    if userId.Some? && userId.value != 0 && userId.value == n.ownerId then SetPrice else SubmitJob
  }

  /** The buttons of all cards, in list order. */
  function ActionsFor(userId: Option<int>, nodes: seq<Node>): (actions: seq<Action>)
    ensures |actions| == |nodes|
    ensures forall i :: 0 <= i < |nodes| ==> actions[i] == ActionFor(userId, nodes[i])
  {
    seq(|nodes|, i requires 0 <= i < |nodes| => ActionFor(userId, nodes[i]))
  }

  /** Without a known user (or with id 0) every card offers "Submit Job". */
  lemma AnonymousOnlySubmits(userId: Option<int>, nodes: seq<Node>)
    requires userId.None? || userId.value == 0
    ensures forall a :: a in ActionsFor(userId, nodes) ==> a == SubmitJob
  {
  }

  // ---------------------------------------------------------------- responses

  /** What a POST came back with: unreachable, an OK body, or a refusal. */
  datatype Response = Unreachable | Ok(body: Body) | NotOk(body: Body, statusText: string)

  const FailedPrefix := "❌ Failed: "

  /**
   * `❌ Failed: ${err?.detail || res.statusText}` where `err` is the parsed
   * body, or `null` when the body is not JSON.
   */
  function FailedAlert(body: Body, statusText: string, r: Render): (alert: string)
    ensures |alert| >= |FailedPrefix| && alert[..|FailedPrefix|] == FailedPrefix
    ensures body.Parsed? && Truthy(Member(Some(body.value), "detail")) ==>
              alert[|FailedPrefix|..] == Text(Member(Some(body.value), "detail").value, r)
    ensures !(body.Parsed? && Truthy(Member(Some(body.value), "detail"))) ==>
              alert[|FailedPrefix|..] == statusText
  {
    var err: Slot := if body.Parsed? then Some(body.value) else Some(JNull);
    var detail := Member(err, "detail");
    FailedPrefix + (if Truthy(detail) then Text(detail.value, r) else statusText)
  }

  // ------------------------------------------------------------- price update

  /** The body sent to `/pricing/{nodeId}`. */
  datatype PriceRequest = PriceRequest(nodeId: int, pricePerHour: real, currency: string)

  /** Where `handlePriceUpdate` stops before or at its request. */
  datatype PriceStep =
    | PriceLoginRequired
    | PriceCancelled
    | InvalidPrice
    | SendPrice(request: PriceRequest)

  /**
   * The guards of `handlePriceUpdate`: a token, a non-empty answer to the
   * prompt (`None`: cancelled), and `parseFloat` of it a number above 0;
   * then the request for the chosen node in "INR".
   */
  function PriceUpdate(token: Option<string>, input: Option<string>, nodeId: int): (step: PriceStep)
    ensures step == PriceLoginRequired <==> Falsy(token)
    ensures step == PriceCancelled <==> !Falsy(token) && Falsy(input)
    ensures step == InvalidPrice <==>
              !Falsy(token) && !Falsy(input)
              && (ParseFloat(input.value).None? || ParseFloat(input.value).value <= 0.0)
    ensures step.SendPrice? ==>
              !Falsy(token) && !Falsy(input)
              && step.request == PriceRequest(nodeId, ParseFloat(input.value).value, "INR")
              && step.request.pricePerHour > 0.0
  {
    if Falsy(token) then PriceLoginRequired
    else if Falsy(input) then PriceCancelled
    else
      match ParseFloat(input.value)
      case None => InvalidPrice
      case Some(price) => if price <= 0.0 then InvalidPrice
                          else SendPrice(PriceRequest(nodeId, price, "INR"))
  }

  /** A well-formed positive price is sent as it was typed. */
  lemma WholePriceIsSent(token: string, n: nat, nodeId: int)
    requires token != "" && n > 0
    ensures PriceUpdate(Some(token), Some(NatText(n)), nodeId)
            == SendPrice(PriceRequest(nodeId, n as real, "INR"))
  {
    NatTextReadsBack(n);
  }

  /** The alert `handlePriceUpdate` shows, and whether it re-fetches the nodes. */
  datatype Outcome = Outcome(alert: Option<string>, refetch: bool)

  function PriceOutcome(step: PriceStep, response: Response, r: Render): (o: Outcome)
    ensures o.refetch <==> step.SendPrice? && response.Ok?
    ensures step == PriceCancelled <==> o.alert.None?
    ensures step == PriceLoginRequired ==> o.alert == Some("Login required!")
    ensures step == InvalidPrice ==> o.alert == Some("Invalid price")
    ensures step.SendPrice? && response.Ok? ==> o.alert == Some("✅ Price updated successfully!")
    ensures step.SendPrice? && response.NotOk? ==>
              o.alert == Some(FailedAlert(response.body, response.statusText, r))
    ensures step.SendPrice? && response.Unreachable? ==>
              o.alert == Some("Error updating price. Backend unreachable.")
  {
    match step
    case PriceLoginRequired => Outcome(Some("Login required!"), false)
    case PriceCancelled => Outcome(None, false)
    case InvalidPrice => Outcome(Some("Invalid price"), false)
    case SendPrice(_) =>
      match response
      case Ok(_) => Outcome(Some("✅ Price updated successfully!"), true)
      case NotOk(body, statusText) => Outcome(Some(FailedAlert(body, statusText, r)), false)
      case Unreachable => Outcome(Some("Error updating price. Backend unreachable."), false)
  }

  // ----------------------------------------------------------- job submission

  /** The position where `nodes.find(n => n.id === id)` stops: the first node with that id. */
  function FindIndex(nodes: seq<Node>, id: int): (r: Option<nat>)
    ensures r.None? <==> forall j :: 0 <= j < |nodes| ==> nodes[j].id != id
    ensures r.Some? ==> r.value < |nodes| && nodes[r.value].id == id
                        && forall j :: 0 <= j < r.value ==> nodes[j].id != id
  {
    if nodes == [] then None
    else if nodes[0].id == id then Some(0)
    else
      match FindIndex(nodes[1..], id)
      case None => None
      case Some(k) => Some(k + 1)
  }

  /** `nodes.find(n => n.id === id)`. */
  function FindNode(nodes: seq<Node>, id: int): (r: Option<Node>)
    ensures r.None? <==> forall j :: 0 <= j < |nodes| ==> nodes[j].id != id
    ensures r.Some? ==> r.value.id == id && r.value in nodes
    ensures r.Some? ==> FindIndex(nodes, id).Some? && r.value == nodes[FindIndex(nodes, id).value]
  {
    match FindIndex(nodes, id)
    case None => None
    case Some(k) => Some(nodes[k])
  }

  /** The body sent to `/submit-job`. */
  datatype JobRequest = JobRequest(nodeId: int, nodeKey: string, command: string)

  /** Where `handleSubmitJob` stops before or at its request. */
  datatype JobStep =
    | JobLoginRequired
    | JobCancelled
    | NodeNotFound
    | NoNodeKey
    | SendJob(request: JobRequest)

  /**
   * The guard chain of `handleSubmitJob`: a token, a non-empty command
   * (`None`: prompt cancelled), a node with that id in the current list,
   * and a non-empty `node_key` on it; then the request carries that node's
   * own id and key and the command as typed.
   */
  function JobSubmission(token: Option<string>, command: Option<string>, nodes: seq<Node>, nodeId: int)
    : (step: JobStep)
    ensures step == JobLoginRequired <==> Falsy(token)
    ensures step == JobCancelled <==> !Falsy(token) && Falsy(command)
    ensures step == NodeNotFound <==>
              !Falsy(token) && !Falsy(command) && forall j :: 0 <= j < |nodes| ==> nodes[j].id != nodeId
    ensures step == NoNodeKey <==>
              !Falsy(token) && !Falsy(command) && FindNode(nodes, nodeId).Some?
              && Falsy(FindNode(nodes, nodeId).value.nodeKey)
    ensures step.SendJob? ==>
              exists n :: n in nodes && n.id == nodeId && !Falsy(n.nodeKey)
                          && step.request == JobRequest(n.id, n.nodeKey.value, command.value)
    ensures step.SendJob? ==> step.request.nodeKey == FindNode(nodes, nodeId).value.nodeKey.value
  {
    if Falsy(token) then JobLoginRequired
    else if Falsy(command) then JobCancelled
    else
      match FindNode(nodes, nodeId)
      case None => NodeNotFound
      case Some(node) =>
        if Falsy(node.nodeKey) then NoNodeKey
        else SendJob(JobRequest(node.id, node.nodeKey.value, command.value))
  }

  const JobRunningMessage := "Job running... balance debited!"
  const JobUnreachable := "Backend unreachable."

  /**
   * The alert after the job request. An OK body that is not JSON, or is
   * `null`, makes `res.json()` or `data.id` throw, which the page reports
   * as an unreachable backend.
   */
  function JobAlert(step: JobStep, response: Response, r: Render): (alert: Option<string>)
    ensures step == JobCancelled <==> alert.None?
    ensures step == JobLoginRequired ==> alert == Some("Please login first.")
    ensures step == NodeNotFound ==> alert == Some("Node not found.")
    ensures step == NoNodeKey ==> alert == Some("Node key not available for this node.")
    ensures step.SendJob? && response.NotOk? ==>
              alert == Some(FailedAlert(response.body, response.statusText, r))
    ensures step.SendJob? && (response.Unreachable? || (response.Ok? && !JobAccepted(response))) ==>
              alert == Some(JobUnreachable)
    ensures step.SendJob? && JobAccepted(response) ==>
              alert == Some("✅ Job submitted successfully!\nJob ID: "
                            + TemplateText(Member(Some(response.body.value), "id"), r)
                            + "\nCommand: " + TemplateText(Member(Some(response.body.value), "command"), r))
  {
    match step
    case JobLoginRequired => Some("Please login first.")
    case JobCancelled => None
    case NodeNotFound => Some("Node not found.")
    case NoNodeKey => Some("Node key not available for this node.")
    case SendJob(_) =>
      match response
      case Unreachable => Some(JobUnreachable)
      case NotOk(body, statusText) => Some(FailedAlert(body, statusText, r))
      case Ok(body) =>
        if JobAccepted(response) then
          var data := Some(body.value);
          Some("✅ Job submitted successfully!\nJob ID: " + TemplateText(Member(data, "id"), r)
               + "\nCommand: " + TemplateText(Member(data, "command"), r))
        else Some(JobUnreachable)
  }

  /** An OK response whose body the page can read `id` and `command` from. */
  predicate JobAccepted(response: Response) {
    response.Ok? && response.body.Parsed? && !response.body.value.JNull?
  }

  // ---------------------------------------------------------------- page state

  /** The body of `/me` when it was read: its `id`, if any. */
  datatype UserResult = UserLoaded(id: Option<int>) | UserNotLoaded

  /** The body of `/gpu-nodes/details`, or a failed request. */
  datatype NodesResult = NodesLoaded(list: seq<Node>) | NodesFailed

  class MarketplacePage {
    var nodes: seq<Node>
    var loading: bool
    var userId: Option<int>
    var msg: string

    /** The state of a freshly mounted page. */
    constructor ()
      ensures nodes == [] && loading && userId == None && msg == ""
    {
      nodes := [];
      loading := true;
      userId := None;
      msg := "";
    }

    /** `fetchUser`: with a token and an OK `/me`, the user's id replaces the old one. */
    method FetchUser(token: Option<string>, result: UserResult) returns (requested: bool)
      modifies this`userId
      ensures requested <==> !Falsy(token)
      ensures requested && result.UserLoaded? ==> userId == result.id
      ensures !(requested && result.UserLoaded?) ==> userId == old(userId)
    {
      requested := !Falsy(token);
      if requested && result.UserLoaded? {
        userId := result.id;
      }
    }

    /**
     * `fetchNodes` once settled: a listing replaces the whole list, a
     * failure keeps the previous one; loading ends either way.
     */
    method FetchNodes(result: NodesResult)
      modifies this`nodes, this`loading
      ensures !loading
      ensures result.NodesLoaded? ==> nodes == result.list
      ensures result.NodesFailed? ==> nodes == old(nodes)
    {
      if result.NodesLoaded? {
        nodes := result.list;
      }
      loading := false;
    }

    /** The buttons on screen: none while loading, one per node otherwise. */
    function Actions(): (actions: seq<Action>)
      reads this
      ensures loading ==> actions == []
      ensures !loading ==> |actions| == |nodes|
      ensures !loading ==> forall i :: 0 <= i < |nodes| ==>
                (actions[i] == SetPrice <==> userId.Some? && userId.value != 0 && userId.value == nodes[i].ownerId)
    {
      if loading then [] else ActionsFor(userId, nodes)
    }

    /**
     * `handleSubmitJob` against the current node list. Returns the step it
     * reached (and so the request it sent) and the alert it showed; only an
     * accepted submission sets the running-job notice.
     */
    method SubmitJob(token: Option<string>, command: Option<string>, nodeId: int,
                     response: Response, r: Render) returns (step: JobStep, alert: Option<string>)
      modifies this`msg
      ensures step == JobSubmission(token, command, nodes, nodeId)
      ensures alert == JobAlert(step, response, r)
      ensures step.SendJob? && JobAccepted(response) ==> msg == JobRunningMessage
      ensures !(step.SendJob? && JobAccepted(response)) ==> msg == old(msg)
    {
      step := JobSubmission(token, command, nodes, nodeId);
      alert := JobAlert(step, response, r);
      if step.SendJob? && JobAccepted(response) {
        msg := JobRunningMessage;
      }
    }
  }
}
