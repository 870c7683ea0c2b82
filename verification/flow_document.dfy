/**
 * The parsed proxy-endpoint document (apiproxy/proxies/default.xml) as the
 * dict-and-list tree that xmltodict produces, and the head insertion of one
 * step reference into a flow, which both prepare_bundle.py variants perform
 * with the same helper `_inject_shared_flow`.
 */
module FlowDocument {
  import opened Wrappers

  /** A `<Step>` element: a reference to a policy by name, with an optional `<Condition>`. */
  datatype Step = Step(name: string, condition: Option<string>)

  /**
   * The `Step` entry of a direction: absent (or None), a lone dict when the
   * element occurs once, or a list when it occurs several times.
   */
  datatype Steps = NoStep | OneStep(step: Step) | StepList(steps: seq<Step>)

  /** A `<Request>` or `<Response>` entry of a flow: absent (or None), or a dict holding `Step`. */
  datatype Direction = NoDirection | Direction(steps: Steps)

  /** A `<Flow>`, `<PreFlow>` or `<PostFlow>` element. */
  datatype Flow = Flow(name: string, condition: Option<string>, request: Direction, response: Direction)

  /** The `Flow` entry inside `<Flows>`: absent, a lone dict, or a list. */
  datatype FlowField = FlowAbsent | OneFlow(flow: Flow) | FlowList(flows: seq<Flow>)

  /** The `Flows` entry of the endpoint: absent, None (an empty `<Flows/>`), or a dict. */
  datatype FlowsNode = FlowsAbsent | FlowsEmpty | FlowsPresent(field: FlowField)

  /** The `ProxyEndpoint` dict; a missing or empty `<PreFlow>`/`<PostFlow>` is None. */
  datatype Endpoint = Endpoint(preFlow: Option<Flow>, postFlow: Option<Flow>, flows: FlowsNode)

  /** The two values of `flow_type` that the source accepts. */
  const REQUEST := "Request"
  const RESPONSE := "Response"

  predicate IsFlowType(flowType: string) {
    flowType == REQUEST || flowType == RESPONSE
  }

  /** The steps of a direction in execution order, whatever their cardinality. */
  function StepsOf(d: Direction): seq<Step> {
    match d
    case NoDirection => []
    case Direction(NoStep) => []
    case Direction(OneStep(s)) => [s]
    case Direction(StepList(ss)) => ss
  }

  /** The direction of `flow` that `flow_type` names. */
  function DirectionOf(flow: Flow, flowType: string): Direction
    requires IsFlowType(flowType)
  {
    if flowType == REQUEST then flow.request else flow.response
  }

  /** `flow` with the direction that `flow_type` names replaced by `d`. */
  function WithDirection(flow: Flow, flowType: string, d: Direction): (r: Flow)
    requires IsFlowType(flowType)
    ensures DirectionOf(r, flowType) == d
    ensures r.name == flow.name && r.condition == flow.condition
    ensures flowType == REQUEST ==> r.response == flow.response
    ensures flowType == RESPONSE ==> r.request == flow.request
  {
    if flowType == REQUEST then flow.(request := d) else flow.(response := d)
  }

  /** The step that the source inserts: `{'Name': policy}`, without a condition. */
  function CalloutStep(policy: string): Step {
    Step(policy, None)
  }

  /**
   * Specification of a head insertion: the direction becomes a list whose
   * first step references `policy`, followed by every step it had before.
   */
  function WithHead(flow: Flow, flowType: string, policy: string): (r: Flow)
    requires IsFlowType(flowType)
  {
    WithDirection(flow, flowType, Direction(StepList([CalloutStep(policy)] + StepsOf(DirectionOf(flow, flowType)))))
  }

  /**
   * `_inject_shared_flow`: create the direction and its `Step` list when they
   * are missing or None, wrap a lone Step dict into a list, then insert the
   * callout step at position 0.
   */
  method InjectSharedFlow(flow: Flow, policy: string, flowType: string) returns (r: Flow)
    requires IsFlowType(flowType)
    ensures StepsOf(DirectionOf(r, flowType)) == [CalloutStep(policy)] + StepsOf(DirectionOf(flow, flowType))
    ensures DirectionOf(r, flowType).Direction? && DirectionOf(r, flowType).steps.StepList?
    ensures r.name == flow.name && r.condition == flow.condition
    ensures flowType == REQUEST ==> r.response == flow.response
    ensures flowType == RESPONSE ==> r.request == flow.request
    ensures r == WithHead(flow, flowType, policy)
  {
    var d := DirectionOf(flow, flowType);
    if d.NoDirection? {
      d := Direction(NoStep);
    }
    if d.steps.NoStep? {
      d := Direction(StepList([]));
    }
    if d.steps.OneStep? {
      d := Direction(StepList([d.steps.step]));
    }
    d := Direction(StepList([CalloutStep(policy)] + d.steps.steps));
    r := WithDirection(flow, flowType, d);
  }

  /**
   * The reading of a direction does not depend on how xmltodict shaped it: a
   * lone Step dict reads like a one-element list, and a missing direction, a
   * missing `Step` and an empty list all read as no steps. So head insertion
   * gives the same flow for each shape.
   */
  lemma StepsOfCardinality(flow: Flow, flowType: string, policy: string, s: Step)
    requires IsFlowType(flowType)
    ensures StepsOf(Direction(OneStep(s))) == StepsOf(Direction(StepList([s]))) == [s]
    ensures StepsOf(NoDirection) == StepsOf(Direction(NoStep)) == StepsOf(Direction(StepList([]))) == []
    ensures WithHead(WithDirection(flow, flowType, Direction(OneStep(s))), flowType, policy)
         == WithHead(WithDirection(flow, flowType, Direction(StepList([s]))), flowType, policy)
    ensures WithHead(WithDirection(flow, flowType, NoDirection), flowType, policy)
         == WithHead(WithDirection(flow, flowType, Direction(NoStep)), flowType, policy)
         == WithHead(WithDirection(flow, flowType, Direction(StepList([]))), flowType, policy)
  {
  }

  /** Head insertion puts the callout first, keeps the earlier steps in order and grows the direction by one. */
  lemma WithHeadPrepends(flow: Flow, flowType: string, policy: string)
    requires IsFlowType(flowType)
    ensures var s := StepsOf(DirectionOf(WithHead(flow, flowType, policy), flowType));
      && |s| == |StepsOf(DirectionOf(flow, flowType))| + 1
      && s[0] == CalloutStep(policy)
      && s[1..] == StepsOf(DirectionOf(flow, flowType))
  {
  }

  /**
   * There is no check for a step already referencing `policy`: injecting the
   * same policy twice leaves two references at the head.
   */
  lemma WithHeadNotIdempotent(flow: Flow, flowType: string, policy: string)
    requires IsFlowType(flowType)
    ensures var twice := WithHead(WithHead(flow, flowType, policy), flowType, policy);
      StepsOf(DirectionOf(twice, flowType)) == [CalloutStep(policy), CalloutStep(policy)] + StepsOf(DirectionOf(flow, flowType))
      && twice != WithHead(flow, flowType, policy)
  {
    var once := WithHead(flow, flowType, policy);
    var twice := WithHead(once, flowType, policy);
    assert |StepsOf(DirectionOf(twice, flowType))| == |StepsOf(DirectionOf(once, flowType))| + 1;
  }

  /** The position of the first occurrence of `x` in `names`. */
  function IndexOf(names: seq<string>, x: string): (i: nat)
    requires x in names
    ensures i < |names| && names[i] == x && x !in names[..i]
  {
    if names[0] == x then 0
    else
      assert x in names[1..] by { assert names == [names[0]] + names[1..]; }
      var j := IndexOf(names[1..], x);
      assert names[..j + 1] == [names[0]] + names[1..][..j];
      j + 1
  }

  /**
   * `list.remove(x)`: drop the first occurrence of `x` and keep the other
   * names in their order; the caller only calls it when `x` occurs.
   */
  function RemoveFirst(names: seq<string>, x: string): (r: seq<string>)
    requires x in names
    ensures |r| == |names| - 1
  {
    if names[0] == x then names[1..]
    else
      assert x in names[1..] by { assert names == [names[0]] + names[1..]; }
      [names[0]] + RemoveFirst(names[1..], x)
  }

  /** Removing cuts the names at the first occurrence of `x`: what precedes it and what follows it stay, in order. */
  lemma {:induction false} RemoveFirstKeepsOrder(names: seq<string>, x: string)
    requires x in names
    ensures RemoveFirst(names, x) == names[..IndexOf(names, x)] + names[IndexOf(names, x) + 1..]
  {
    if names[0] != x {
      assert x in names[1..] by { assert names == [names[0]] + names[1..]; }
      var tail := names[1..];
      var j := IndexOf(tail, x);
      RemoveFirstKeepsOrder(tail, x);
      assert names[..j + 1] == [names[0]] + tail[..j];
      assert names[j + 2..] == tail[j + 1..];
    }
  }

  /** Removing takes exactly one copy of `x` out of the names. */
  lemma RemoveFirstCount(names: seq<string>, x: string)
    requires x in names
    ensures multiset(RemoveFirst(names, x)) == multiset(names) - multiset{x}
  {
    var i := IndexOf(names, x);
    var before, after := names[..i], names[i + 1..];
    RemoveFirstKeepsOrder(names, x);
    assert names == before + [x] + after;
    assert multiset(names) == multiset(before) + multiset{x} + multiset(after);
    assert multiset(RemoveFirst(names, x)) == multiset(before) + multiset(after);
  }
}
