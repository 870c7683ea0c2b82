/**
 * The parts of `inject_shared_flow_to_flows` that both prepare_bundle.py
 * variants share: injecting into the PreFlow/PostFlow singletons when the
 * caller names them, and injecting into every conditional flow whose
 * `@name` the caller lists.
 */
module FlowInjection {
  import opened Wrappers
  import opened FlowDocument

  const PRE_FLOW: string := "PreFlow"
  const POST_FLOW: string := "PostFlow"

  /** How a run of `main` ends, as far as the bundle work is concerned. */
  datatype RunOutcome =
    | ArgumentsRejected  // `sys.exit(1)` after the override-argument check
    | Crashed            // an uncaught TypeError: `get_all_flows` returned None
    | Routed             // routing finished; the bundle is zipped and validated next

  /** The `@name` of each conditional flow, in document order. */
  function NamesOf(fs: seq<Flow>): (r: seq<string>)
    ensures |r| == |fs| && forall i :: 0 <= i < |fs| ==> r[i] == fs[i].name
  {
    seq(|fs|, i requires 0 <= i < |fs| => fs[i].name)
  }

  /** No two conditional flows share a name. */
  predicate DistinctNames(fs: seq<Flow>) {
    forall i, j :: 0 <= i < j < |fs| ==> fs[i].name != fs[j].name
  }

  /** No conditional flow is named like a singleton. */
  predicate NoSingletonNames(fs: seq<Flow>) {
    forall i :: 0 <= i < |fs| ==> fs[i].name != PRE_FLOW && fs[i].name != POST_FLOW
  }

  /**
   * The specification of the conditional-flow loop: every flow whose name
   * is listed gets the callout at the head of `flowType`, the others stay as
   * they are.
   */
  function InjectIntoNamed(fs: seq<Flow>, names: seq<string>, policy: string, flowType: string): seq<Flow>
    requires IsFlowType(flowType)
  {
    seq(|fs|, i requires 0 <= i < |fs| => if fs[i].name in names then WithHead(fs[i], flowType, policy) else fs[i])
  }

  /** The loop `for flow in flows: if flow['@name'] in flow_names: ...`, updating each flow in place. */
  method InjectIntoNamedFlows(fs: seq<Flow>, names: seq<string>, policy: string, flowType: string) returns (r: seq<Flow>)
    requires IsFlowType(flowType)
    ensures |r| == |fs|
    ensures forall i :: 0 <= i < |fs| && fs[i].name in names ==>
      StepsOf(DirectionOf(r[i], flowType)) == [CalloutStep(policy)] + StepsOf(DirectionOf(fs[i], flowType))
    ensures forall i :: 0 <= i < |fs| && fs[i].name !in names ==> r[i] == fs[i]
    ensures r == InjectIntoNamed(fs, names, policy, flowType)
  {
    r := fs;
    var i := 0;
    while i < |r|
      invariant 0 <= i <= |r| == |fs|
      invariant forall k :: 0 <= k < i ==> r[k] == InjectIntoNamed(fs, names, policy, flowType)[k]
      invariant forall k :: i <= k < |r| ==> r[k] == fs[k]
    {
      if r[i].name in names {
        var f := InjectSharedFlow(r[i], policy, flowType);
        r := r[i := f];
      }
      i := i + 1;
    }
  }

  /**
   * The singleton handling: when "PreFlow" (then "PostFlow") is listed, the
   * singleton element gets the callout and the name is removed from the
   * list. None when a listed singleton is missing or empty, which raises
   * before anything is written.
   */
  function InjectSingletons(doc: Endpoint, policy: string, names: seq<string>, flowType: string): Option<(Endpoint, seq<string>)>
    requires IsFlowType(flowType)
  {
    if PRE_FLOW in names && doc.preFlow.None? then None
    else
      var d1 := if PRE_FLOW in names then doc.(preFlow := Some(WithHead(doc.preFlow.value, flowType, policy))) else doc;
      var n1 := if PRE_FLOW in names then RemoveFirst(names, PRE_FLOW) else names;
      if POST_FLOW in n1 && d1.postFlow.None? then None
      else
        var d2 := if POST_FLOW in n1 then d1.(postFlow := Some(WithHead(d1.postFlow.value, flowType, policy))) else d1;
        var n2 := if POST_FLOW in n1 then RemoveFirst(n1, POST_FLOW) else n1;
        Some((d2, n2))
  }

  /** A singleton that is present gets the callout at its head; a missing one stays missing. */
  function HeadIfPresent(flow: Option<Flow>, flowType: string, policy: string): (r: Option<Flow>)
    requires IsFlowType(flowType)
    ensures r.Some? <==> flow.Some?
    ensures flow.Some? ==> StepsOf(DirectionOf(r.value, flowType)) == [CalloutStep(policy)] + StepsOf(DirectionOf(flow.value, flowType))
  {
    if flow.Some? then Some(WithHead(flow.value, flowType, policy)) else None
  }

  /** A list naming no singleton leaves the document and the list as they are. */
  lemma InjectSingletonsNoop(doc: Endpoint, policy: string, names: seq<string>, flowType: string)
    requires IsFlowType(flowType)
    requires PRE_FLOW !in names && POST_FLOW !in names
    ensures InjectSingletons(doc, policy, names, flowType) == Some((doc, names))
  {
  }

  /** Injecting into flows none of which is listed changes nothing. */
  lemma InjectIntoNoneNamed(fs: seq<Flow>, names: seq<string>, policy: string, flowType: string)
    requires IsFlowType(flowType)
    requires forall i :: 0 <= i < |fs| ==> fs[i].name !in names
    ensures InjectIntoNamed(fs, names, policy, flowType) == fs
  {
  }

  /** The flows once a routing loop has applied `route` to the first `k` of them, in place. */
  function RoutedPrefix(fs: seq<Flow>, k: nat, route: Flow -> Flow): (r: seq<Flow>)
    ensures |r| == |fs|
    ensures forall i :: 0 <= i < |fs| ==> r[i] == if i < k then route(fs[i]) else fs[i]
  {
    seq(|fs|, i requires 0 <= i < |fs| => if i < k then route(fs[i]) else fs[i])
  }
}
