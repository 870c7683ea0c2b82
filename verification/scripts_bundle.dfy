/**
 * scripts/prepare_bundle.py: the variant that indexes `Flows`/`Flow`
 * directly, writes fixed base callout policies and routes overridden flows
 * through a single request-side override callout.
 */
module ScriptsBundle {
  import opened Wrappers
  import opened FlowDocument
  import opened FlowInjection
  import opened BundleFiles
  import opened FlowCallout
  import opened OverrideArgs
  import TerraformBundle

  const BASE_PRE: string := "FC-Base-Pre"
  const BASE_POST: string := "FC-Base-Post"
  const OVERRIDE: string := "FC-override"
  const SF_PRE: string := "SF-spitfire-pre"
  const SF_POST: string := "SF-spitfire-post"

  /**
   * `proxy_dict['ProxyEndpoint']['Flows']['Flow']` as the loop uses it:
   * only a list of flows can be walked. A missing entry raises KeyError,
   * None raises TypeError, and iterating a lone dict yields its keys, on
   * which `['@name']` raises TypeError.
   */
  function WalkableFlows(node: FlowsNode): Option<seq<Flow>> {
    match node
    case FlowsPresent(FlowList(fs)) => Some(fs)
    case _ => None
  }

  /**
   * Where the two variants part: whatever this variant can walk, the other
   * reads the same; the documents only the other can read are those without
   * `Flows`, without `Flow`, or with a lone `Flow` dict.
   */
  lemma WalkableFlowsDiverge(node: FlowsNode)
    ensures WalkableFlows(node).Some? ==> WalkableFlows(node) == TerraformBundle.ConditionalFlows(node)
    ensures WalkableFlows(node).None? && TerraformBundle.ConditionalFlows(node).Some? <==>
      node.FlowsAbsent? || (node.FlowsPresent? && !node.field.FlowList?)
  {
  }

  /** The document one `inject_shared_flow_to_flows` call writes back, or None when it raises or rejects. */
  function InjectCall(doc: Endpoint, policy: string, names: seq<string>, flowType: string): Option<Endpoint> {
    if !IsFlowType(flowType) then None
    else match InjectSingletons(doc, policy, names, flowType)
      case None => None
      case Some((d, rest)) =>
        match WalkableFlows(d.flows)
        case None => None
        case Some(fs) => Some(d.(flows := FlowsPresent(FlowList(InjectIntoNamed(fs, rest, policy, flowType)))))
  }

  /** The proxy document after a call: the call's result if it wrote one, otherwise unchanged. */
  function AfterCall(doc: Endpoint, policy: string, names: seq<string>, flowType: string): Endpoint {
    var r := InjectCall(doc, policy, names, flowType);
    if r.Some? then r.value else doc
  }

  /**
   * `inject_shared_flow_to_flows`: the same steps as the other variant, but
   * the conditional-flow loop raises unless `Flow` is a list, which
   * discards the singleton injection made just before.
   */
  method InjectSharedFlowToFlows(b: BundleDir, policy: string, flowNames: seq<string>, flowType: string) returns (written: bool)
    modifies b
    ensures b.files == old(b.files)
    ensures written == InjectCall(old(b.proxy), policy, flowNames, flowType).Some?
    ensures b.proxy == AfterCall(old(b.proxy), policy, flowNames, flowType)
    ensures written ==> b.proxy.flows.FlowsPresent? && b.proxy.flows.field.FlowList?
  {
    if !IsFlowType(flowType) {
      return false;
    }
    var doc := b.proxy;
    var names := flowNames;
    if PRE_FLOW in names {
      if doc.preFlow.None? {
        return false;
      }
      var pre := InjectSharedFlow(doc.preFlow.value, policy, flowType);
      doc := doc.(preFlow := Some(pre));
      names := RemoveFirst(names, PRE_FLOW);
    }
    if POST_FLOW in names {
      if doc.postFlow.None? {
        return false;
      }
      var post := InjectSharedFlow(doc.postFlow.value, policy, flowType);
      doc := doc.(postFlow := Some(post));
      names := RemoveFirst(names, POST_FLOW);
    }
    var flows := WalkableFlows(doc.flows);
    if flows.None? {
      return false;
    }
    var updated := InjectIntoNamedFlows(flows.value, names, policy, flowType);
    b.proxy := doc.(flows := FlowsPresent(FlowList(updated)));
    written := true;
  }

  /** `get_all_flows`: the conditional flow names in document order, or None unless `Flow` is a list. */
  method GetAllFlows(b: BundleDir) returns (names: Option<seq<string>>)
    ensures names.None? <==> !(b.proxy.flows.FlowsPresent? && b.proxy.flows.field.FlowList?)
    ensures names.Some? ==> names.value == NamesOf(b.proxy.flows.field.flows)
  {
    var flows := WalkableFlows(b.proxy.flows);
    if flows.None? {
      return None;
    }
    var acc: seq<string> := [];
    for i := 0 to |flows.value|
      invariant |acc| == i
      invariant forall k :: 0 <= k < i ==> acc[k] == flows.value[k].name
    {
      acc := acc + [flows.value[i].name];
    }
    names := Some(acc);
  }

  /** One conditional flow after per-flow routing. */
  function RoutedFlow(f: Flow, overrides: seq<string>): Flow {
    if f.name in overrides then WithHead(f, REQUEST, OVERRIDE)
    else WithHead(WithHead(f, REQUEST, BASE_PRE), RESPONSE, BASE_POST)
  }

  /** The per-flow routing loop: the override callout on Request only, or the base pair. */
  function RoutePerFlow(doc: Endpoint, allFlows: seq<string>, overrides: seq<string>): Endpoint
    decreases |allFlows|
  {
    if allFlows == [] then doc
    else
      var name := allFlows[0];
      var d := if name in overrides then AfterCall(doc, OVERRIDE, [name], REQUEST)
               else AfterCall(AfterCall(doc, BASE_PRE, [name], REQUEST), BASE_POST, [name], RESPONSE);
      RoutePerFlow(d, allFlows[1..], overrides)
  }

  /** The routing without overrides: base pre callout into PreFlow, base post callout into PostFlow. */
  function RouteGlobal(doc: Endpoint): Endpoint {
    AfterCall(AfterCall(doc, BASE_PRE, [PRE_FLOW], REQUEST), BASE_POST, [POST_FLOW], RESPONSE)
  }

  /** The check at lines 409-413: overrides without an override shared flow abort the run. */
  predicate OverrideArgsRejected(overrideFlowNames: string, overrideSfName: string) {
    |OverrideFlowNames(overrideFlowNames)| > 0 && |overrideSfName| == 0
  }

  /** The policy files written by `main`: the two fixed base callouts, and the override callout when overrides are given. */
  function PolicyFiles(files: map<string, string>, withOverrides: bool, overrideSfName: string): map<string, string> {
    var base := CalloutWritten(CalloutWritten(files, BASE_PRE, SF_PRE), BASE_POST, SF_POST);
    if withOverrides then CalloutWritten(base, OVERRIDE, overrideSfName) else base
  }

  /** The three policy names are distinct and hold no double quote. */
  lemma PolicyNamesWellFormed()
    ensures '"' !in BASE_PRE && '"' !in BASE_POST && '"' !in OVERRIDE
    ensures BASE_PRE != BASE_POST && BASE_PRE != OVERRIDE && BASE_POST != OVERRIDE
  {
    assert BASE_PRE[3] != OVERRIDE[3];
  }

  /**
   * The bundle work of `main` once the bundle is unpacked. The source then
   * zips, validates and exits with status 1 whatever happened.
   */
  method PrepareBundle(b: BundleDir, overrideFlowNames: string, overrideSfName: string) returns (outcome: RunOutcome)
    modifies b
    ensures outcome.ArgumentsRejected? <==> OverrideArgsRejected(overrideFlowNames, overrideSfName)
    ensures outcome.ArgumentsRejected? ==> b.files == old(b.files) && b.proxy == old(b.proxy)
    ensures !outcome.ArgumentsRejected? ==>
      b.files == PolicyFiles(old(b.files), |OverrideFlowNames(overrideFlowNames)| > 0, overrideSfName)
    ensures outcome.Crashed? <==>
      !OverrideArgsRejected(overrideFlowNames, overrideSfName) && |OverrideFlowNames(overrideFlowNames)| > 0
      && WalkableFlows(old(b.proxy).flows).None?
    ensures outcome.Crashed? ==> b.proxy == old(b.proxy)
    ensures outcome.Routed? && |OverrideFlowNames(overrideFlowNames)| == 0 ==> b.proxy == RouteGlobal(old(b.proxy))
    ensures outcome.Routed? && |OverrideFlowNames(overrideFlowNames)| > 0 ==>
              b.proxy == RoutePerFlow(old(b.proxy), NamesOf(old(b.proxy).flows.field.flows), OverrideFlowNames(overrideFlowNames))
  {
    var overrides := OverrideFlowNames(overrideFlowNames);
    if |overrides| > 0 && |overrideSfName| == 0 {
      return ArgumentsRejected;
    }
    b.InjectPolicy(BASE_PRE, FlowCalloutTemplate(BASE_PRE, SF_PRE));
    b.InjectPolicy(BASE_POST, FlowCalloutTemplate(BASE_POST, SF_POST));
    var allFlows := GetAllFlows(b);
    if |overrides| > 0 {
      b.InjectPolicy(OVERRIDE, FlowCalloutTemplate(OVERRIDE, overrideSfName));
      if allFlows.None? {
        return Crashed;
      }
      var names := allFlows.value;
      ghost var start := b.proxy;
      ghost var files := b.files;
      for i := 0 to |names|
        invariant b.files == files
        invariant RoutePerFlow(start, names, overrides) == RoutePerFlow(b.proxy, names[i..], overrides)
      {
        var name := names[i];
        assert names[i..][0] == name && names[i..][1..] == names[i + 1..];
        var written: bool;
        if name in overrides {
          written := InjectSharedFlowToFlows(b, OVERRIDE, [name], REQUEST);
        } else {
          written := InjectSharedFlowToFlows(b, BASE_PRE, [name], REQUEST);
          written := InjectSharedFlowToFlows(b, BASE_POST, [name], RESPONSE);
        }
      }
      assert names[|names|..] == [];
    } else {
      var written := InjectSharedFlowToFlows(b, BASE_PRE, [PRE_FLOW], REQUEST);
      written := InjectSharedFlowToFlows(b, BASE_POST, [POST_FLOW], RESPONSE);
    }
    outcome := Routed;
  }

  /** A call naming only "PreFlow" keeps its PreFlow injection only when `Flow` is a list. */
  lemma PreFlowCall(doc: Endpoint, policy: string, flowType: string)
    requires IsFlowType(flowType)
    ensures AfterCall(doc, policy, [PRE_FLOW], flowType) ==
      if WalkableFlows(doc.flows).None? then doc else doc.(preFlow := HeadIfPresent(doc.preFlow, flowType, policy))
  {
    if doc.preFlow.Some? && WalkableFlows(doc.flows).Some? {
      assert RemoveFirst([PRE_FLOW], PRE_FLOW) == [];
      InjectIntoNoneNamed(doc.flows.field.flows, [], policy, flowType);
    }
  }

  /** A call naming only "PostFlow" keeps its PostFlow injection only when `Flow` is a list. */
  lemma PostFlowCall(doc: Endpoint, policy: string, flowType: string)
    requires IsFlowType(flowType)
    ensures AfterCall(doc, policy, [POST_FLOW], flowType) ==
      if WalkableFlows(doc.flows).None? then doc else doc.(postFlow := HeadIfPresent(doc.postFlow, flowType, policy))
  {
    assert PRE_FLOW !in [POST_FLOW];
    if doc.postFlow.Some? && WalkableFlows(doc.flows).Some? {
      assert RemoveFirst([POST_FLOW], POST_FLOW) == [];
      InjectIntoNoneNamed(doc.flows.field.flows, [], policy, flowType);
    }
  }

  /**
   * Routing without overrides: a document without a list of conditional
   * flows (no `Flows`, an empty one, no `Flow`, or a lone `Flow`) is left
   * exactly as it was, because both calls raise after touching the
   * singleton; otherwise the base callouts head PreFlow and PostFlow.
   */
  lemma GlobalRouting(doc: Endpoint)
    ensures WalkableFlows(doc.flows).None? ==> RouteGlobal(doc) == doc
    ensures WalkableFlows(doc.flows).Some? ==>
              RouteGlobal(doc) == doc.(preFlow := HeadIfPresent(doc.preFlow, REQUEST, BASE_PRE),
                                       postFlow := HeadIfPresent(doc.postFlow, RESPONSE, BASE_POST))
  {
    PreFlowCall(doc, BASE_PRE, REQUEST);
    var d := AfterCall(doc, BASE_PRE, [PRE_FLOW], REQUEST);
    PostFlowCall(d, BASE_POST, RESPONSE);
  }

  /** A call naming one conditional flow injects into every listed flow of that name. */
  lemma NamedCall(doc: Endpoint, name: string, policy: string, flowType: string)
    requires IsFlowType(flowType)
    requires WalkableFlows(doc.flows).Some?
    requires name != PRE_FLOW && name != POST_FLOW
    ensures AfterCall(doc, policy, [name], flowType) ==
      doc.(flows := FlowsPresent(FlowList(InjectIntoNamed(doc.flows.field.flows, [name], policy, flowType))))
  {
    InjectSingletonsNoop(doc, policy, [name], flowType);
  }

  /** Per-flow routing as a function on flows. */
  function Router(overrides: seq<string>): Flow -> Flow {
    f => RoutedFlow(f, overrides)
  }


  /** The `k`-th name's calls route exactly the `k`-th flow, given distinct names. */
  lemma {:induction false} RoutePerFlowFrom(doc: Endpoint, k: nat, overrides: seq<string>)
    requires WalkableFlows(doc.flows).Some?
    requires var fs := doc.flows.field.flows; k <= |fs| && DistinctNames(fs) && NoSingletonNames(fs)
    ensures var fs := doc.flows.field.flows;
      RoutePerFlow(doc.(flows := FlowsPresent(FlowList(RoutedPrefix(fs, k, Router(overrides))))), NamesOf(fs)[k..], overrides)
      == doc.(flows := FlowsPresent(FlowList(RoutedPrefix(fs, |fs|, Router(overrides)))))
    decreases |doc.flows.field.flows| - k
  {
    var fs := doc.flows.field.flows;
    var names := NamesOf(fs);
    var a := RoutedPrefix(fs, k, Router(overrides));
    var dk := doc.(flows := FlowsPresent(FlowList(a)));
    if k == |fs| {
      assert names[k..] == [];
    } else {
      var name := fs[k].name;
      assert names[k..][0] == name && names[k..][1..] == names[k + 1..];
      var c;
      if name in overrides {
        NamedCall(dk, name, OVERRIDE, REQUEST);
        c := InjectIntoNamed(a, [name], OVERRIDE, REQUEST);
      } else {
        NamedCall(dk, name, BASE_PRE, REQUEST);
        var b := InjectIntoNamed(a, [name], BASE_PRE, REQUEST);
        NamedCall(dk.(flows := FlowsPresent(FlowList(b))), name, BASE_POST, RESPONSE);
        c := InjectIntoNamed(b, [name], BASE_POST, RESPONSE);
      }
      assert c == RoutedPrefix(fs, k + 1, Router(overrides)) by {
        forall i | 0 <= i < |fs|
          ensures c[i] == RoutedPrefix(fs, k + 1, Router(overrides))[i]
        {
          if i != k {
            assert fs[i].name != fs[k].name by {
              if i < k { assert fs[i].name != fs[k].name; } else { assert fs[k].name != fs[i].name; }
            }
          }
        }
      }
      RoutePerFlowFrom(doc, k + 1, overrides);
    }
  }

  /**
   * Routing with overrides, for a list of conditional flows with distinct
   * names none of which is "PreFlow" or "PostFlow": an overridden flow gets
   * the override callout on its Request only, every other flow gets the
   * base pair, and the singletons are untouched.
   */
  lemma PerFlowRouting(doc: Endpoint, overrides: seq<string>)
    requires WalkableFlows(doc.flows).Some?
    requires DistinctNames(doc.flows.field.flows) && NoSingletonNames(doc.flows.field.flows)
    ensures var fs := doc.flows.field.flows;
      RoutePerFlow(doc, NamesOf(fs), overrides) ==
      doc.(flows := FlowsPresent(FlowList(seq(|fs|, i requires 0 <= i < |fs| => RoutedFlow(fs[i], overrides)))))
  {
    var fs := doc.flows.field.flows;
    assert RoutedPrefix(fs, 0, Router(overrides)) == fs;
    assert doc.(flows := FlowsPresent(FlowList(fs))) == doc;
    assert NamesOf(fs)[0..] == NamesOf(fs);
    RoutePerFlowFrom(doc, 0, overrides);
    assert RoutedPrefix(fs, |fs|, Router(overrides)) == seq(|fs|, i requires 0 <= i < |fs| => RoutedFlow(fs[i], overrides));
  }

  /** An overridden flow's Response is untouched: only the request side is routed to the override shared flow. */
  lemma OverriddenFlowResponseUntouched(f: Flow, overrides: seq<string>)
    requires f.name in overrides
    ensures RoutedFlow(f, overrides).response == f.response
    ensures StepsOf(RoutedFlow(f, overrides).request) == [CalloutStep(OVERRIDE)] + StepsOf(f.request)
  {
  }

  /**
   * The policies `main` writes read back as FC-Base-Pre calling
   * SF-spitfire-pre, FC-Base-Post calling SF-spitfire-post and, with
   * overrides, FC-override calling the override shared flow; every other
   * file is left alone.
   */
  lemma PolicyFilesReferences(files: map<string, string>, withOverrides: bool, overrideSfName: string)
    ensures var p := PolicyFiles(files, withOverrides, overrideSfName);
      && ParseFlowCallout(p[PolicyPath(BASE_PRE)]) == Some((BASE_PRE, SF_PRE))
      && ParseFlowCallout(p[PolicyPath(BASE_POST)]) == Some((BASE_POST, SF_POST))
      && (withOverrides ==> ParseFlowCallout(p[PolicyPath(OVERRIDE)]) == Some((OVERRIDE, overrideSfName)))
  {
    PolicyNamesWellFormed();
    var m1 := CalloutWritten(files, BASE_PRE, SF_PRE);
    var m2 := CalloutWritten(m1, BASE_POST, SF_POST);
    CalloutReadsBack(files, BASE_PRE, SF_PRE);
    CalloutKeepsOthers(m1, BASE_POST, SF_POST, BASE_PRE);
    CalloutReadsBack(m1, BASE_POST, SF_POST);
    if withOverrides {
      CalloutKeepsOthers(m2, OVERRIDE, overrideSfName, BASE_PRE);
      CalloutKeepsOthers(m2, OVERRIDE, overrideSfName, BASE_POST);
      CalloutReadsBack(m2, OVERRIDE, overrideSfName);
    }
  }
}
