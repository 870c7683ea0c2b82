/**
 * terraform/.../scripts/prepare_bundle.py: flow lookup that accepts a lone
 * `Flow` dict, the injection call, `get_all_flows`, the override-argument
 * check and the routing block of `main`.
 */
module TerraformBundle {
  import opened Wrappers
  import opened FlowDocument
  import opened FlowInjection
  import opened BundleFiles
  import opened FlowCallout
  import opened OverrideArgs

  const BASE_REQUEST: string := "FC-base-request-process"
  const BASE_RESPONSE: string := "FC-base-response-process"
  const OVERRIDE_REQUEST: string := "FC-override-request-process"
  const OVERRIDE_RESPONSE: string := "FC-override-response-process"

  /**
   * `proxy_dict.get('ProxyEndpoint', {}).get('Flows', {}).get('Flow', [])`,
   * with a lone dict wrapped into a list. None when `Flows` is None: `.get`
   * on None raises.
   */
  function ConditionalFlows(node: FlowsNode): Option<seq<Flow>> {
    match node
    case FlowsAbsent => Some([])
    case FlowsEmpty => None
    case FlowsPresent(FlowAbsent) => Some([])
    case FlowsPresent(OneFlow(f)) => Some([f])
    case FlowsPresent(FlowList(fs)) => Some(fs)
  }

  /**
   * The flows read do not depend on how xmltodict shaped them: a lone `Flow`
   * dict reads like a one-element list, and a missing `Flows`, a missing
   * `Flow` and an empty list all read as no flows, while an empty `<Flows/>`
   * raises.
   */
  lemma LoneFlowLikeList(f: Flow)
    ensures ConditionalFlows(FlowsPresent(OneFlow(f))) == ConditionalFlows(FlowsPresent(FlowList([f]))) == Some([f])
    ensures ConditionalFlows(FlowsAbsent) == ConditionalFlows(FlowsPresent(FlowAbsent))
         == ConditionalFlows(FlowsPresent(FlowList([]))) == Some([])
    ensures ConditionalFlows(FlowsEmpty) == None
  {
  }

  /**
   * The wrapping list shares the lone dict, so the document keeps its shape:
   * the updated flows go back where they were read from.
   */
  function ReplaceFlows(node: FlowsNode, fs: seq<Flow>): (r: FlowsNode)
    requires ConditionalFlows(node).Some? && |fs| == |ConditionalFlows(node).value|
    ensures ConditionalFlows(r) == Some(fs)
    ensures r.FlowsPresent? <==> node.FlowsPresent?
    ensures r.FlowsPresent? ==> r.field.OneFlow? == node.field.OneFlow? && r.field.FlowList? == node.field.FlowList?
  {
    match node
    case FlowsPresent(OneFlow(_)) => assert fs == [fs[0]]; FlowsPresent(OneFlow(fs[0]))
    case FlowsPresent(FlowList(_)) => FlowsPresent(FlowList(fs))
    case _ => node
  }

  lemma ReplaceFlowsSame(node: FlowsNode)
    requires ConditionalFlows(node).Some?
    ensures ReplaceFlows(node, ConditionalFlows(node).value) == node
  {
  }

  lemma ReplaceFlowsTwice(node: FlowsNode, fs1: seq<Flow>, fs2: seq<Flow>)
    requires ConditionalFlows(node).Some? && |fs1| == |fs2| == |ConditionalFlows(node).value|
    ensures ReplaceFlows(ReplaceFlows(node, fs1), fs2) == ReplaceFlows(node, fs2)
  {
  }

  /**
   * The document that one `inject_shared_flow_to_flows` call writes back, or
   * None when it writes nothing: an invalid `flow_type`, a listed but missing
   * PreFlow/PostFlow, or `Flows` being None.
   */
  function InjectCall(doc: Endpoint, policy: string, names: seq<string>, flowType: string): Option<Endpoint> {
    if !IsFlowType(flowType) then None
    else match InjectSingletons(doc, policy, names, flowType)
      case None => None
      case Some((d, rest)) =>
        match ConditionalFlows(d.flows)
        case None => None
        case Some(fs) => Some(d.(flows := ReplaceFlows(d.flows, InjectIntoNamed(fs, rest, policy, flowType))))
  }

  /** The proxy document after a call: the call's result if it wrote one, otherwise unchanged. */
  function AfterCall(doc: Endpoint, policy: string, names: seq<string>, flowType: string): Endpoint {
    var r := InjectCall(doc, policy, names, flowType);
    if r.Some? then r.value else doc
  }

  /**
   * `inject_shared_flow_to_flows`: reject an invalid `flow_type` before
   * reading, inject into the listed singletons, then into the listed
   * conditional flows, and write the document back only if nothing raised.
   */
  method InjectSharedFlowToFlows(b: BundleDir, policy: string, flowNames: seq<string>, flowType: string) returns (written: bool)
    modifies b
    ensures b.files == old(b.files)
    ensures written == InjectCall(old(b.proxy), policy, flowNames, flowType).Some?
    ensures b.proxy == AfterCall(old(b.proxy), policy, flowNames, flowType)
    ensures !IsFlowType(flowType) ==> !written
  {
    if !IsFlowType(flowType) {
      return false;
    }
    var doc := b.proxy;
    var names := flowNames;
    if PRE_FLOW in names {
      if doc.preFlow.None? {
        return false;
      }
      var pre := InjectSharedFlow(doc.preFlow.value, policy, flowType);
      doc := doc.(preFlow := Some(pre));
      names := RemoveFirst(names, PRE_FLOW);
    }
    if POST_FLOW in names {
      if doc.postFlow.None? {
        return false;
      }
      var post := InjectSharedFlow(doc.postFlow.value, policy, flowType);
      doc := doc.(postFlow := Some(post));
      names := RemoveFirst(names, POST_FLOW);
    }
    var flows := ConditionalFlows(doc.flows);
    if flows.None? {
      return false;
    }
    var updated := InjectIntoNamedFlows(flows.value, names, policy, flowType);
    b.proxy := doc.(flows := ReplaceFlows(doc.flows, updated));
    written := true;
  }

  /** `get_all_flows`: the conditional flow names in document order, or None when `Flows` is None. */
  method GetAllFlows(b: BundleDir) returns (names: Option<seq<string>>)
    ensures names.None? <==> b.proxy.flows.FlowsEmpty?
    ensures names.Some? ==> names.value == NamesOf(ConditionalFlows(b.proxy.flows).value)
  {
    var flows := ConditionalFlows(b.proxy.flows);
    if flows.None? {
      return None;
    }
    var acc: seq<string> := [];
    for i := 0 to |flows.value|
      invariant |acc| == i
      invariant forall k :: 0 <= k < i ==> acc[k] == flows.value[k].name
    {
      acc := acc + [flows.value[i].name];
    }
    names := Some(acc);
  }

  /** The callout pair a conditional flow gets: the override pair when its name is listed, else the base pair. */
  function PairFor(name: string, overrides: seq<string>): (string, string) {
    if name in overrides then (OVERRIDE_REQUEST, OVERRIDE_RESPONSE) else (BASE_REQUEST, BASE_RESPONSE)
  }

  /** One conditional flow after per-flow routing: its pair at the head of Request and of Response. */
  function RoutedFlow(f: Flow, overrides: seq<string>): Flow {
    var pair := PairFor(f.name, overrides);
    WithHead(WithHead(f, REQUEST, pair.0), RESPONSE, pair.1)
  }

  /** The per-flow routing loop: for each name, a Request call and a Response call with its pair. */
  function RoutePerFlow(doc: Endpoint, allFlows: seq<string>, overrides: seq<string>): Endpoint
    decreases |allFlows|
  {
    if allFlows == [] then doc
    else
      var pair := PairFor(allFlows[0], overrides);
      var d := AfterCall(AfterCall(doc, pair.0, [allFlows[0]], REQUEST), pair.1, [allFlows[0]], RESPONSE);
      RoutePerFlow(d, allFlows[1..], overrides)
  }

  /** The routing without overrides: base request callout into PreFlow, base response callout into PostFlow. */
  function RouteGlobal(doc: Endpoint): Endpoint {
    AfterCall(AfterCall(doc, BASE_REQUEST, [PRE_FLOW], REQUEST), BASE_RESPONSE, [POST_FLOW], RESPONSE)
  }

  /** The check at line 637, as written: it only aborts when the request shared flow is empty and the response one is not. */
  predicate OverrideArgsRejected(overrideFlowNames: string, overrideSfPre: string, overrideSfPost: string) {
    |OverrideFlowNames(overrideFlowNames)| > 0 && |overrideSfPre| == 0 && |overrideSfPost| > 0
  }

  /** The policy files written by `main`: the base pair always, the override pair when overrides are given. */
  function PolicyFiles(files: map<string, string>, withOverrides: bool, baseSfPre: string, baseSfPost: string,
                       overrideSfPre: string, overrideSfPost: string): map<string, string>
  {
    var base := CalloutWritten(CalloutWritten(files, BASE_REQUEST, baseSfPre), BASE_RESPONSE, baseSfPost);
    if withOverrides then
      CalloutWritten(CalloutWritten(base, OVERRIDE_REQUEST, overrideSfPre), OVERRIDE_RESPONSE, overrideSfPost)
    else base
  }

  /** The four policy names are distinct and hold no double quote. */
  lemma PolicyNamesWellFormed()
    ensures '"' !in BASE_REQUEST && '"' !in BASE_RESPONSE && '"' !in OVERRIDE_REQUEST && '"' !in OVERRIDE_RESPONSE
    ensures |BASE_REQUEST| < |BASE_RESPONSE| < |OVERRIDE_REQUEST| < |OVERRIDE_RESPONSE|
  {
  }

  /**
   * The bundle work of `main` once the bundle is unpacked: render and write
   * the policies, list the flows, then route either per flow (overrides
   * given) or through PreFlow/PostFlow (no overrides).
   */
  method PrepareBundle(b: BundleDir, overrideFlowNames: string, baseSfPre: string, baseSfPost: string,
                       overrideSfPre: string, overrideSfPost: string) returns (outcome: RunOutcome)
    modifies b
    ensures outcome.ArgumentsRejected? <==> OverrideArgsRejected(overrideFlowNames, overrideSfPre, overrideSfPost)
    ensures outcome.ArgumentsRejected? ==> b.files == old(b.files) && b.proxy == old(b.proxy)
    ensures !outcome.ArgumentsRejected? ==>
      b.files == PolicyFiles(old(b.files), |OverrideFlowNames(overrideFlowNames)| > 0, baseSfPre, baseSfPost, overrideSfPre, overrideSfPost)
    ensures outcome.Crashed? <==>
      !OverrideArgsRejected(overrideFlowNames, overrideSfPre, overrideSfPost)
      && |OverrideFlowNames(overrideFlowNames)| > 0 && old(b.proxy).flows.FlowsEmpty?
    ensures outcome.Crashed? ==> b.proxy == old(b.proxy)
    ensures outcome.Routed? && |OverrideFlowNames(overrideFlowNames)| == 0 ==> b.proxy == RouteGlobal(old(b.proxy))
    ensures outcome.Routed? && |OverrideFlowNames(overrideFlowNames)| > 0 ==>
              b.proxy == RoutePerFlow(old(b.proxy), NamesOf(ConditionalFlows(old(b.proxy).flows).value), OverrideFlowNames(overrideFlowNames))
  {
    var overrides := OverrideFlowNames(overrideFlowNames);
    if |overrides| > 0 && |overrideSfPre| == 0 && |overrideSfPost| > 0 {
      return ArgumentsRejected;
    }
    b.InjectPolicy(BASE_REQUEST, FlowCalloutTemplate(BASE_REQUEST, baseSfPre));
    b.InjectPolicy(BASE_RESPONSE, FlowCalloutTemplate(BASE_RESPONSE, baseSfPost));
    var allFlows := GetAllFlows(b);
    if |overrides| > 0 {
      b.InjectPolicy(OVERRIDE_REQUEST, FlowCalloutTemplate(OVERRIDE_REQUEST, overrideSfPre));
      b.InjectPolicy(OVERRIDE_RESPONSE, FlowCalloutTemplate(OVERRIDE_RESPONSE, overrideSfPost));
      if allFlows.None? {
        return Crashed;
      }
      var names := allFlows.value;
      ghost var start := b.proxy;
      ghost var files := b.files;
      for i := 0 to |names|
        invariant b.files == files
        invariant RoutePerFlow(start, names, overrides) == RoutePerFlow(b.proxy, names[i..], overrides)
      {
        var name := names[i];
        assert names[i..][0] == name && names[i..][1..] == names[i + 1..];
        var written: bool;
        if name in overrides {
          written := InjectSharedFlowToFlows(b, OVERRIDE_REQUEST, [name], REQUEST);
          written := InjectSharedFlowToFlows(b, OVERRIDE_RESPONSE, [name], RESPONSE);
        } else {
          written := InjectSharedFlowToFlows(b, BASE_REQUEST, [name], REQUEST);
          written := InjectSharedFlowToFlows(b, BASE_RESPONSE, [name], RESPONSE);
        }
      }
      assert names[|names|..] == [];
    } else {
      var written := InjectSharedFlowToFlows(b, BASE_REQUEST, [PRE_FLOW], REQUEST);
      written := InjectSharedFlowToFlows(b, BASE_RESPONSE, [POST_FLOW], RESPONSE);
    }
    outcome := Routed;
  }

  /** One call naming only "PreFlow": the PreFlow gets the callout, unless it is missing or `Flows` is None. */
  lemma PreFlowCall(doc: Endpoint, policy: string, flowType: string)
    requires IsFlowType(flowType)
    ensures AfterCall(doc, policy, [PRE_FLOW], flowType) ==
      if doc.flows.FlowsEmpty? then doc else doc.(preFlow := HeadIfPresent(doc.preFlow, flowType, policy))
  {
    if doc.preFlow.Some? && !doc.flows.FlowsEmpty? {
      assert RemoveFirst([PRE_FLOW], PRE_FLOW) == [];
      var fs := ConditionalFlows(doc.flows).value;
      InjectIntoNoneNamed(fs, [], policy, flowType);
      ReplaceFlowsSame(doc.flows);
    }
  }

  /** One call naming only "PostFlow": the PostFlow gets the callout, unless it is missing or `Flows` is None. */
  lemma PostFlowCall(doc: Endpoint, policy: string, flowType: string)
    requires IsFlowType(flowType)
    ensures AfterCall(doc, policy, [POST_FLOW], flowType) ==
      if doc.flows.FlowsEmpty? then doc else doc.(postFlow := HeadIfPresent(doc.postFlow, flowType, policy))
  {
    assert PRE_FLOW !in [POST_FLOW];
    if doc.postFlow.Some? && !doc.flows.FlowsEmpty? {
      assert RemoveFirst([POST_FLOW], POST_FLOW) == [];
      var fs := ConditionalFlows(doc.flows).value;
      InjectIntoNoneNamed(fs, [], policy, flowType);
      ReplaceFlowsSame(doc.flows);
    }
  }

  /**
   * Routing without overrides: the base request callout heads the PreFlow
   * Request and the base response callout heads the PostFlow Response, each
   * only where the singleton exists, and conditional flows are untouched.
   * When `Flows` is None both calls raise after the singleton update and the
   * document keeps neither injection.
   */
  lemma GlobalRouting(doc: Endpoint)
    ensures doc.flows.FlowsEmpty? ==> RouteGlobal(doc) == doc
    ensures !doc.flows.FlowsEmpty? ==>
              RouteGlobal(doc) == doc.(preFlow := HeadIfPresent(doc.preFlow, REQUEST, BASE_REQUEST),
                                       postFlow := HeadIfPresent(doc.postFlow, RESPONSE, BASE_RESPONSE))
  {
    PreFlowCall(doc, BASE_REQUEST, REQUEST);
    var d := AfterCall(doc, BASE_REQUEST, [PRE_FLOW], REQUEST);
    PostFlowCall(d, BASE_RESPONSE, RESPONSE);
  }

  /** A call naming one conditional flow injects into every flow of that name and nowhere else. */
  lemma NamedCall(doc: Endpoint, name: string, policy: string, flowType: string)
    requires IsFlowType(flowType)
    requires ConditionalFlows(doc.flows).Some?
    requires name != PRE_FLOW && name != POST_FLOW
    ensures AfterCall(doc, policy, [name], flowType) ==
      doc.(flows := ReplaceFlows(doc.flows, InjectIntoNamed(ConditionalFlows(doc.flows).value, [name], policy, flowType)))
  {
    InjectSingletonsNoop(doc, policy, [name], flowType);
  }

  /** Per-flow routing as a function on flows. */
  function Router(overrides: seq<string>): Flow -> Flow {
    f => RoutedFlow(f, overrides)
  }


  /** Handling the `k`-th name routes exactly the `k`-th flow, given distinct names. */
  lemma RoutedPrefixStep(fs: seq<Flow>, k: nat, overrides: seq<string>)
    requires k < |fs| && DistinctNames(fs)
    ensures var pair := PairFor(fs[k].name, overrides);
      InjectIntoNamed(InjectIntoNamed(RoutedPrefix(fs, k, Router(overrides)), [fs[k].name], pair.0, REQUEST), [fs[k].name], pair.1, RESPONSE)
      == RoutedPrefix(fs, k + 1, Router(overrides))
  {
    var pair := PairFor(fs[k].name, overrides);
    var a := RoutedPrefix(fs, k, Router(overrides));
    var b := InjectIntoNamed(a, [fs[k].name], pair.0, REQUEST);
    var c := InjectIntoNamed(b, [fs[k].name], pair.1, RESPONSE);
    var e := RoutedPrefix(fs, k + 1, Router(overrides));
    forall i | 0 <= i < |fs|
      ensures c[i] == e[i]
    {
      if i != k {
        assert fs[i].name != fs[k].name by {
          if i < k { assert fs[i].name != fs[k].name; } else { assert fs[k].name != fs[i].name; }
        }
      }
    }
  }

  /** The per-flow loop from its `k`-th name onwards completes the routing of every flow. */
  lemma {:induction false} RoutePerFlowFrom(doc: Endpoint, k: nat, overrides: seq<string>)
    requires ConditionalFlows(doc.flows).Some?
    requires var fs := ConditionalFlows(doc.flows).value;
      k <= |fs| && DistinctNames(fs) && NoSingletonNames(fs)
    ensures var fs := ConditionalFlows(doc.flows).value;
      RoutePerFlow(doc.(flows := ReplaceFlows(doc.flows, RoutedPrefix(fs, k, Router(overrides)))), NamesOf(fs)[k..], overrides)
      == doc.(flows := ReplaceFlows(doc.flows, RoutedPrefix(fs, |fs|, Router(overrides))))
    decreases |ConditionalFlows(doc.flows).value| - k
  {
    var fs := ConditionalFlows(doc.flows).value;
    var names := NamesOf(fs);
    var dk := doc.(flows := ReplaceFlows(doc.flows, RoutedPrefix(fs, k, Router(overrides))));
    if k == |fs| {
      assert names[k..] == [];
    } else {
      var name := fs[k].name;
      var pair := PairFor(name, overrides);
      assert names[k..][0] == name && names[k..][1..] == names[k + 1..];
      var a := RoutedPrefix(fs, k, Router(overrides));
      var b := InjectIntoNamed(a, [name], pair.0, REQUEST);
      NamedCall(dk, name, pair.0, REQUEST);
      var d1 := AfterCall(dk, pair.0, [name], REQUEST);
      ReplaceFlowsTwice(doc.flows, a, b);
      assert d1 == doc.(flows := ReplaceFlows(doc.flows, b));
      NamedCall(d1, name, pair.1, RESPONSE);
      ReplaceFlowsTwice(doc.flows, b, InjectIntoNamed(b, [name], pair.1, RESPONSE));
      RoutedPrefixStep(fs, k, overrides);
      RoutePerFlowFrom(doc, k + 1, overrides);
    }
  }

  /**
   * Routing with overrides, for a document whose conditional flows have
   * distinct names none of which is "PreFlow" or "PostFlow": every
   * conditional flow is routed once with its own pair, in place and in
   * document order, and the singletons are untouched.
   */
  lemma PerFlowRouting(doc: Endpoint, overrides: seq<string>)
    requires ConditionalFlows(doc.flows).Some?
    requires DistinctNames(ConditionalFlows(doc.flows).value) && NoSingletonNames(ConditionalFlows(doc.flows).value)
    ensures var fs := ConditionalFlows(doc.flows).value;
      RoutePerFlow(doc, NamesOf(fs), overrides) ==
      doc.(flows := ReplaceFlows(doc.flows, seq(|fs|, i requires 0 <= i < |fs| => RoutedFlow(fs[i], overrides))))
  {
    var fs := ConditionalFlows(doc.flows).value;
    assert RoutedPrefix(fs, 0, Router(overrides)) == fs;
    ReplaceFlowsSame(doc.flows);
    assert NamesOf(fs)[0..] == NamesOf(fs);
    RoutePerFlowFrom(doc, 0, overrides);
    assert RoutedPrefix(fs, |fs|, Router(overrides)) == seq(|fs|, i requires 0 <= i < |fs| => RoutedFlow(fs[i], overrides));
  }

  /** A routed flow keeps its name and gets its pair at the head of Request and of Response. */
  lemma RoutedFlowSteps(f: Flow, overrides: seq<string>)
    ensures var r := RoutedFlow(f, overrides);
      && r.name == f.name && r.condition == f.condition
      && StepsOf(r.request) == [CalloutStep(PairFor(f.name, overrides).0)] + StepsOf(f.request)
      && StepsOf(r.response) == [CalloutStep(PairFor(f.name, overrides).1)] + StepsOf(f.response)
  {
  }

  /** Override names that match no conditional flow have no effect: only membership of the flow names matters. */
  lemma {:induction false} UnmatchedOverridesIgnored(doc: Endpoint, allFlows: seq<string>, o1: seq<string>, o2: seq<string>)
    requires forall i :: 0 <= i < |allFlows| ==> (allFlows[i] in o1 <==> allFlows[i] in o2)
    ensures RoutePerFlow(doc, allFlows, o1) == RoutePerFlow(doc, allFlows, o2)
    decreases |allFlows|
  {
    if allFlows != [] {
      var pair := PairFor(allFlows[0], o1);
      assert pair == PairFor(allFlows[0], o2);
      var d := AfterCall(AfterCall(doc, pair.0, [allFlows[0]], REQUEST), pair.1, [allFlows[0]], RESPONSE);
      assert forall i :: 0 <= i < |allFlows[1..]| ==> allFlows[1..][i] == allFlows[i + 1];
      UnmatchedOverridesIgnored(d, allFlows[1..], o1, o2);
    }
  }

  /**
   * A lone `Flow` dict is routed like a one-element list and stays a lone
   * dict in the written document.
   */
  lemma SingleFlowRouting(doc: Endpoint, overrides: seq<string>)
    requires doc.flows.FlowsPresent? && doc.flows.field.OneFlow?
    requires doc.flows.field.flow.name != PRE_FLOW && doc.flows.field.flow.name != POST_FLOW
    ensures RoutePerFlow(doc, [doc.flows.field.flow.name], overrides) ==
      doc.(flows := FlowsPresent(OneFlow(RoutedFlow(doc.flows.field.flow, overrides))))
  {
    var f := doc.flows.field.flow;
    PerFlowRouting(doc, overrides);
    assert NamesOf([f]) == [f.name];
    var routed := seq(1, i requires 0 <= i < 1 => RoutedFlow([f][i], overrides));
    assert routed == [RoutedFlow(f, overrides)];
  }

  /**
   * The override-argument check as written rejects only an empty request
   * override shared flow with a non-empty response one; overrides with both
   * empty, or with only the response one empty, go through.
   */
  lemma OverrideCheckAsWritten(overrideFlowNames: string, overrideSfPre: string, overrideSfPost: string)
    ensures OverrideArgsRejected(overrideFlowNames, overrideSfPre, overrideSfPost) <==>
      |overrideFlowNames| > 0 && overrideSfPre == [] && overrideSfPost != []
  {
    OverrideFlowNamesSpec(overrideFlowNames);
  }

  /** The base callouts read back as calling the base shared flows given for them, with or without overrides. */
  lemma BasePoliciesReference(files: map<string, string>, withOverrides: bool, baseSfPre: string, baseSfPost: string,
                              overrideSfPre: string, overrideSfPost: string)
    ensures var p := PolicyFiles(files, withOverrides, baseSfPre, baseSfPost, overrideSfPre, overrideSfPost);
      && ParseFlowCallout(p[PolicyPath(BASE_REQUEST)]) == Some((BASE_REQUEST, baseSfPre))
      && ParseFlowCallout(p[PolicyPath(BASE_RESPONSE)]) == Some((BASE_RESPONSE, baseSfPost))
  {
    PolicyNamesWellFormed();
    var m1 := CalloutWritten(files, BASE_REQUEST, baseSfPre);
    var m2 := CalloutWritten(m1, BASE_RESPONSE, baseSfPost);
    var m3 := CalloutWritten(m2, OVERRIDE_REQUEST, overrideSfPre);
    CalloutReadsBack(files, BASE_REQUEST, baseSfPre);
    CalloutKeepsOthers(m1, BASE_RESPONSE, baseSfPost, BASE_REQUEST);
    CalloutReadsBack(m1, BASE_RESPONSE, baseSfPost);
    if withOverrides {
      CalloutKeepsOthers(m2, OVERRIDE_REQUEST, overrideSfPre, BASE_REQUEST);
      CalloutKeepsOthers(m2, OVERRIDE_REQUEST, overrideSfPre, BASE_RESPONSE);
      CalloutKeepsOthers(m3, OVERRIDE_RESPONSE, overrideSfPost, BASE_REQUEST);
      CalloutKeepsOthers(m3, OVERRIDE_RESPONSE, overrideSfPost, BASE_RESPONSE);
    }
  }

  /** With overrides, the override callouts read back as calling the override shared flows given for them. */
  lemma OverridePoliciesReference(files: map<string, string>, baseSfPre: string, baseSfPost: string,
                                  overrideSfPre: string, overrideSfPost: string)
    ensures var p := PolicyFiles(files, true, baseSfPre, baseSfPost, overrideSfPre, overrideSfPost);
      && ParseFlowCallout(p[PolicyPath(OVERRIDE_REQUEST)]) == Some((OVERRIDE_REQUEST, overrideSfPre))
      && ParseFlowCallout(p[PolicyPath(OVERRIDE_RESPONSE)]) == Some((OVERRIDE_RESPONSE, overrideSfPost))
  {
    PolicyNamesWellFormed();
    var base := CalloutWritten(CalloutWritten(files, BASE_REQUEST, baseSfPre), BASE_RESPONSE, baseSfPost);
    var m3 := CalloutWritten(base, OVERRIDE_REQUEST, overrideSfPre);
    CalloutReadsBack(base, OVERRIDE_REQUEST, overrideSfPre);
    CalloutKeepsOthers(m3, OVERRIDE_RESPONSE, overrideSfPost, OVERRIDE_REQUEST);
    CalloutReadsBack(m3, OVERRIDE_RESPONSE, overrideSfPost);
  }

}
