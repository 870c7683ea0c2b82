# Apigee OAS CI/CD: flow augmentation, Mongo reconciliation and JWK encoding

This project models three pieces of the apigee-oas-cicd repository in Dafny and proves properties of them.

**Flow augmentation of an API proxy bundle.** Both variants of `prepare_bundle.py` take a proxy bundle and do the following:
- they read the proxy endpoint document (`apiproxy/proxies/default.xml`), parsed into the dict-and-list tree that xmltodict produces;
- they write FlowCallout policies into `apiproxy/policies/`;
- they insert a `<Step>` reference to those policies at the head of the Request or Response of:
  - the PreFlow and PostFlow (no override flows given), or
  - every conditional flow (override flows given).

Each conditional flow gets either the override callouts or the base callouts. The two variants differ in several ways:
- The terraform variant accepts a lone `Flow` dict and routes a request/response pair of override callouts.
- The scripts variant can only walk a list of flows and sends overridden flows through a single request-side callout.

xmltodict gives a lone dict, not a one-element list, for a proxy with exactly one conditional flow. So the scripts variant raises on every such proxy, and a one-element `Flow` list or `Step` list never comes out of parsing. The model still represents them, and the lemmas show they read like the lone dict.

These parts of the bundle work are modelled:
- the document as datatypes (`FlowDocument`);
- the bundle directory as a class whose methods update its document and files (`BundleFiles.BundleDir`);
- each `inject_shared_flow_to_flows` call as a method proved against a function of the old document (`TerraformBundle`, `ScriptsBundle`);
- the routing loop of `main` as a loop proved against a fold over the flow names;
- the policy text, with a reader that recovers the policy and shared-flow names (`FlowCallout`);
- the path rules of `unzip_bundle`, `inject_policy` and `zip_bundle`.

**Collection and index reconciliation** (`EngineIac`). `engine-iac.rendered.js` brings the `engine-iac` database in line with a fixed configuration:
- it creates missing collections and indexes;
- it drops indexes that are not desired, never `_id_`;
- it drops collections that are not configured.

The database is a class holding a map from collection name to the set of its index names. The script's loops are methods over it, taking their snapshots where the script takes them. One consequence of the configuration is proved: the `iac` index is compared under one name and created under another, so on a collection with no index named `_ftsx` successive runs alternately create it and drop it.

**JWK encoding** (`Base64Url`, `Jwk`). `generate_jwk.py` turns each RSA public number into its minimal big-endian octet string and encodes it as unpadded base64url. This is the Base64urlUInt encoding of sections 2 and 6.3.1 of RFC 7518, using the alphabet of section 5 of RFC 4648. The model has the following parts:
- the encoder;
- a strict reference decoder, with the round trip proved;
- the fixed members of the JWK;
- the key-set loop.

## Model

| member | source | states |
|---|---|---|
| FlowDocument.StepsOfCardinality | terraform/monitor/spitfire/apigee-oas-deployment/scripts/prepare_bundle.py:260-265 | A lone Step dict reads as the one-element list holding it. An absent direction, an absent `Step` and an empty list all read as no steps. Head insertion gives the same flow whichever of these equivalent shapes the direction had. |
| FlowDocument.InjectSharedFlow | terraform/monitor/spitfire/apigee-oas-deployment/scripts/prepare_bundle.py:282-292 | The chosen direction becomes a list whose steps are the callout step followed by the previous steps in order. The flow's name, condition and other direction are unchanged. |
| FlowDocument.WithHeadPrepends | terraform/monitor/spitfire/apigee-oas-deployment/scripts/prepare_bundle.py:266 | Head insertion grows the step list by exactly one: the callout is first and the old steps follow unchanged. |
| FlowDocument.WithHeadNotIdempotent | terraform/monitor/spitfire/apigee-oas-deployment/scripts/prepare_bundle.py:282-292 | There is no check for an existing reference: injecting the same policy twice leaves two references and differs from injecting it once. |
| FlowDocument.RemoveFirst | terraform/monitor/spitfire/apigee-oas-deployment/scripts/prepare_bundle.py:247 | `list.remove` drops one name, so the list is one shorter. |
| FlowDocument.RemoveFirstKeepsOrder | terraform/monitor/spitfire/apigee-oas-deployment/scripts/prepare_bundle.py:247 | The name removed is its first occurrence: the names before it and after it stay, in order. |
| FlowDocument.RemoveFirstCount | terraform/monitor/spitfire/apigee-oas-deployment/scripts/prepare_bundle.py:247 | Exactly one copy of the name is taken out: the multiset of names loses that one element. |
| FlowInjection.InjectIntoNamedFlows | terraform/monitor/spitfire/apigee-oas-deployment/scripts/prepare_bundle.py:257-266 | Every conditional flow whose `@name` is listed gets the callout at the head of the chosen direction. Every other flow is unchanged, and the list keeps its length and order. |
| FlowInjection.InjectSingletonsNoop | terraform/monitor/spitfire/apigee-oas-deployment/scripts/prepare_bundle.py:244-251 | A name list without "PreFlow" and "PostFlow" leaves both singletons and the list as they were. |
| FlowInjection.InjectIntoNoneNamed | terraform/monitor/spitfire/apigee-oas-deployment/scripts/prepare_bundle.py:257-258 | When no conditional flow is listed, the flows are unchanged. |
| FlowInjection.HeadIfPresent | terraform/monitor/spitfire/apigee-oas-deployment/scripts/prepare_bundle.py:244-251 | A singleton is present afterwards exactly when it was present before. A present one then has the callout step first in the chosen direction, followed by its old steps in order. |
| Separated.SplitJoin | terraform/monitor/spitfire/apigee-oas-deployment/scripts/prepare_bundle.py:635 | `split(',')` loses nothing: joining the pieces with ',' gives the argument back, and no piece holds ','. |
| OverrideArgs.OverrideFlowNamesSpec | terraform/monitor/spitfire/apigee-oas-deployment/scripts/prepare_bundle.py:635 | The override list is non-empty exactly when the argument is non-empty, and it joins back to the argument. |
| OverrideArgs.OverrideNamesKeepSpaces | scripts/prepare_bundle.py:409 | Pieces are not trimmed: "a, b" yields "a" and " b". |
| FlowCallout.FlowCalloutTemplate | terraform/monitor/spitfire/apigee-oas-deployment/scripts/prepare_bundle.py:586-593 | The text is the fixed frame plus the policy name twice and the shared-flow name once. That it carries exactly these names is stated by `FlowCallout.FlowCalloutRoundTrip` and `FlowCallout.FlowCalloutInjective`. |
| FlowCallout.FlowCalloutRoundTrip | terraform/monitor/spitfire/apigee-oas-deployment/scripts/prepare_bundle.py:586-593 | For a policy name without a double quote, the rendered text reads back as that policy name (the `name` attribute, repeated in `DisplayName`) and the shared flow in `SharedFlowBundle`. |
| FlowCallout.FlowCalloutInjective | terraform/monitor/spitfire/apigee-oas-deployment/scripts/prepare_bundle.py:586-593 | Two renderings are equal exactly when both names are equal. |
| BundleFiles.PolicyPathInjective | terraform/monitor/spitfire/apigee-oas-deployment/scripts/prepare_bundle.py:177-183 | Distinct policy names go to distinct files, and no policy file is the proxy document. |
| BundleFiles.CalloutReadsBack | terraform/monitor/spitfire/apigee-oas-deployment/scripts/prepare_bundle.py:183-187 | After a policy is written, its file exists and reads back as the policy calling its shared flow. |
| BundleFiles.CalloutKeepsOthers | terraform/monitor/spitfire/apigee-oas-deployment/scripts/prepare_bundle.py:183-187 | Writing one policy leaves every other policy's file as it was. |
| BundleFiles.BundleDir.InjectPolicy | terraform/monitor/spitfire/apigee-oas-deployment/scripts/prepare_bundle.py:167-190 | The policy file is written or overwritten at `apiproxy/policies/<name>.xml`. No other file changes, and the proxy document is untouched. |
| BundleFiles.SplitExt | terraform/monitor/spitfire/apigee-oas-deployment/scripts/prepare_bundle.py:152-153 | `os.path.splitext` splits a path into a root and an extension that concatenate back to it. The extension is empty, or starts with the only '.' in it and has no '/'. |
| BundleFiles.RFindAppendZip | terraform/monitor/spitfire/apigee-oas-deployment/scripts/prepare_bundle.py:205-206 | Appending ".zip" makes its '.' the last one and leaves the last '/' where it was. |
| BundleFiles.SplitZipName | terraform/monitor/spitfire/apigee-oas-deployment/scripts/prepare_bundle.py:141-164 | A bundle "x.zip" whose last component is not all dots extracts to "x". `zip_bundle` given "x.zip" writes the file it returns. |
| BundleFiles.ZipReturnedPathCanDiffer | terraform/monitor/spitfire/apigee-oas-deployment/scripts/prepare_bundle.py:192-219 | `zip_bundle` returns the path it is given, but `make_archive` always writes a ".zip" file: "out.tar" is returned while "out.zip" is written. |
| TerraformBundle.LoneFlowLikeList | terraform/monitor/spitfire/apigee-oas-deployment/scripts/prepare_bundle.py:254-256 | A lone `Flow` dict reads as the one-element list holding it. A missing `Flows`, a missing `Flow` and an empty list all read as no flows. An empty `<Flows/>` (None) raises. |
| TerraformBundle.ReplaceFlows | terraform/monitor/spitfire/apigee-oas-deployment/scripts/prepare_bundle.py:254-266 | Writing the updated flows back keeps the document's shape (a lone dict stays a lone dict), and the new flows are what is read back. |
| TerraformBundle.ReplaceFlowsSame | terraform/monitor/spitfire/apigee-oas-deployment/scripts/prepare_bundle.py:254-256 | Writing back the flows just read leaves the document unchanged. |
| TerraformBundle.ReplaceFlowsTwice | terraform/monitor/spitfire/apigee-oas-deployment/scripts/prepare_bundle.py:254-256 | A second write-back supersedes the first. |
| TerraformBundle.InjectSharedFlowToFlows | terraform/monitor/spitfire/apigee-oas-deployment/scripts/prepare_bundle.py:221-280 | An invalid `flow_type` writes nothing, before the document is read. Otherwise the document is updated as `InjectCall` describes, if no step raises, and is unchanged if one does. The policy files are untouched. |
| TerraformBundle.GetAllFlows | terraform/monitor/spitfire/apigee-oas-deployment/scripts/prepare_bundle.py:294-328 | The result is the conditional flows' `@name` values in document order (a lone dict counts as one flow), or None exactly when `Flows` is None. |
| TerraformBundle.PrepareBundle | terraform/monitor/spitfire/apigee-oas-deployment/scripts/prepare_bundle.py:635-795 | The run ends in one of three ways: (1) rejected arguments leave the bundle untouched; (2) with overrides and `Flows` None, it crashes after writing the four policies; (3) otherwise it routes globally (no overrides) or per flow (overrides). |
| TerraformBundle.PreFlowCall | terraform/monitor/spitfire/apigee-oas-deployment/scripts/prepare_bundle.py:244-247 | A call naming "PreFlow" adds the callout at the PreFlow's head, if present. When `Flows` is None the call raises and nothing is kept. |
| TerraformBundle.PostFlowCall | terraform/monitor/spitfire/apigee-oas-deployment/scripts/prepare_bundle.py:248-251 | A call naming "PostFlow" adds the callout at the PostFlow's head, if present. When `Flows` is None the call raises and nothing is kept. |
| TerraformBundle.GlobalRouting | terraform/monitor/spitfire/apigee-oas-deployment/scripts/prepare_bundle.py:782-795 | Without overrides, PreFlow Request gets `FC-base-request-process` and PostFlow Response gets `FC-base-response-process`. Conditional flows are untouched. When `Flows` is None the document is unchanged. |
| TerraformBundle.NamedCall | terraform/monitor/spitfire/apigee-oas-deployment/scripts/prepare_bundle.py:257-266 | A call naming one conditional flow changes exactly the flows of that name. |
| TerraformBundle.PerFlowRouting | terraform/monitor/spitfire/apigee-oas-deployment/scripts/prepare_bundle.py:754-781 | With overrides and distinct flow names, every conditional flow gets its pair in place, in order. Listed flows get the override pair and others the base pair. PreFlow and PostFlow are untouched. |
| TerraformBundle.RoutedFlowSteps | terraform/monitor/spitfire/apigee-oas-deployment/scripts/prepare_bundle.py:754-781 | A routed flow keeps its name and condition and has its pair at the head of Request and of Response, with its old steps after. |
| TerraformBundle.UnmatchedOverridesIgnored | terraform/monitor/spitfire/apigee-oas-deployment/scripts/prepare_bundle.py:755-756 | Override names that match no flow have no effect: two override lists that agree on the flow names give the same document. |
| TerraformBundle.SingleFlowRouting | terraform/monitor/spitfire/apigee-oas-deployment/scripts/prepare_bundle.py:254-256 | A lone `Flow` dict is routed like a one-element list and stays a lone dict. |
| TerraformBundle.OverrideCheckAsWritten | terraform/monitor/spitfire/apigee-oas-deployment/scripts/prepare_bundle.py:637-639 | The check aborts exactly when override names are given, the request shared flow is empty and the response one is not. Both empty goes through. |
| TerraformBundle.PolicyNamesWellFormed | terraform/monitor/spitfire/apigee-oas-deployment/scripts/prepare_bundle.py:703-753 | The four policy names are distinct and hold no double quote. |
| TerraformBundle.BasePoliciesReference | terraform/monitor/spitfire/apigee-oas-deployment/scripts/prepare_bundle.py:703-725 | The two base policy files read back as the base callouts calling the given base shared flows, with or without overrides. |
| TerraformBundle.OverridePoliciesReference | terraform/monitor/spitfire/apigee-oas-deployment/scripts/prepare_bundle.py:731-753 | With overrides, the two override policy files read back as the override callouts calling the given override shared flows. |
| ScriptsBundle.WalkableFlowsDiverge | scripts/prepare_bundle.py:272 | Any flows this variant can walk are read the same way by the terraform variant. The terraform variant also reads documents that this one cannot walk, and exactly these: no `Flows`, no `Flow`, or a lone `Flow` dict. |
| ScriptsBundle.InjectSharedFlowToFlows | scripts/prepare_bundle.py:239-295 | The steps are the same as in the terraform variant. The document is written back only when `Flow` is a list, so a missing `Flows` or a lone `Flow` discards even the singleton injection. |
| ScriptsBundle.GetAllFlows | scripts/prepare_bundle.py:309-340 | The result is the flow names in document order, or None exactly when `Flow` is not a list. |
| ScriptsBundle.PrepareBundle | scripts/prepare_bundle.py:409-517 | The run ends in one of three ways: (1) overrides without an override shared flow leave the bundle untouched; (2) with overrides and no list of flows, it crashes after writing the three policies; (3) otherwise it routes globally or per flow. |
| ScriptsBundle.PreFlowCall | scripts/prepare_bundle.py:262-265 | A call naming "PreFlow" keeps its injection only when `Flow` is a list. |
| ScriptsBundle.PostFlowCall | scripts/prepare_bundle.py:266-269 | A call naming "PostFlow" keeps its injection only when `Flow` is a list. |
| ScriptsBundle.GlobalRouting | scripts/prepare_bundle.py:504-517 | Without overrides, PreFlow Request gets `FC-Base-Pre` and PostFlow Response gets `FC-Base-Post`, but only when `Flow` is a list. Otherwise the document is unchanged. |
| ScriptsBundle.NamedCall | scripts/prepare_bundle.py:272-281 | A call naming one conditional flow changes exactly the flows of that name. |
| ScriptsBundle.PerFlowRouting | scripts/prepare_bundle.py:482-503 | With overrides and distinct flow names, listed flows get `FC-override` on Request only and the others get `FC-Base-Pre`/`FC-Base-Post`, in place. PreFlow and PostFlow are untouched. |
| ScriptsBundle.OverriddenFlowResponseUntouched | scripts/prepare_bundle.py:483-489 | An overridden flow's Response is untouched, and its Request starts with `FC-override`. |
| ScriptsBundle.PolicyNamesWellFormed | scripts/prepare_bundle.py:436-481 | The three policy names are distinct and hold no double quote. |
| ScriptsBundle.PolicyFilesReferences | scripts/prepare_bundle.py:436-480 | The policy files read back as follows: `FC-Base-Pre` calls `SF-spitfire-pre` and `FC-Base-Post` calls `SF-spitfire-post`. With overrides, `FC-override` calls the given override shared flow. |
| EngineIac.UnnamedIndexNameDiffers | spitfire/mongo/engine-iac.rendered.js:55-60 | For an index without a (non-empty) top-level name and without `options.name`, the name compared (fields joined with '_') never equals the name MongoDB creates (each field with its order). |
| EngineIac.ReconciledIndexes | spitfire/mongo/engine-iac.rendered.js:46-83 | With no `indexes` entry, the set is unchanged. Otherwise: (a) a snapshot index survives exactly when it is `_id_` or desired; (b) each desired index whose compared name and created name are both missing from the snapshot is present afterwards (when only the compared name is missing, an index already holding the created name is dropped again unless that name is desired); (c) every new name is the created name of a desired index whose compared name was missing from the snapshot. |
| EngineIac.Database.GetCollectionNames | spitfire/mongo/engine-iac.rendered.js:25 | The snapshot lists each existing collection exactly once. |
| EngineIac.Database.CreateCollection | spitfire/mongo/engine-iac.rendered.js:37 | A new collection starts with `_id_`; an existing one is left alone. |
| EngineIac.Database.IndexNames | spitfire/mongo/engine-iac.rendered.js:48 | The index snapshot lists each index of the collection exactly once. |
| EngineIac.Database.CreateIndex | spitfire/mongo/engine-iac.rendered.js:60 | The index is added under the name MongoDB gives it (`options.name`, else the default name). |
| EngineIac.Database.DropIndex | spitfire/mongo/engine-iac.rendered.js:78 | The named index is removed. `_id_` and missing collections are left as they are. |
| EngineIac.Database.DropCollection | spitfire/mongo/engine-iac.rendered.js:94 | The collection is removed and nothing else changes. |
| EngineIac.CreateMissingIndexes | spitfire/mongo/engine-iac.rendered.js:53-67 | Exactly the indexes whose comparison name is missing from the snapshot are created. Other collections are untouched. |
| EngineIac.DropUndesiredIndexes | spitfire/mongo/engine-iac.rendered.js:70-83 | Exactly the snapshot names other than `_id_` that are not desired are dropped, so indexes created in the same run are never dropped. |
| EngineIac.ManageIndexes | spitfire/mongo/engine-iac.rendered.js:46-83 | The collection ends with `ReconciledIndexes` of its snapshot. Other collections are untouched. |
| EngineIac.ManageCollections | spitfire/mongo/engine-iac.rendered.js:29-85 | Every configured collection exists afterwards, with its reconciled indexes: missing ones were created and present ones kept. Unconfigured collections are unchanged. |
| EngineIac.DropUnconfigured | spitfire/mongo/engine-iac.rendered.js:88-99 | Exactly the snapshot collections that are not configured are dropped. Configured collections keep their indexes. |
| EngineIac.Reconcile | spitfire/mongo/engine-iac.rendered.js:25-99 | The database ends with exactly the configured collections, each with the reconciled index set of its starting state. |
| EngineIac.IdIndexKept | spitfire/mongo/engine-iac.rendered.js:72 | `_id_` is never lost: a collection that had it, or one created, still has it. |
| EngineIac.IacIndexOscillates | spitfire/mongo/engine-iac.rendered.js:55-78 | With the configuration of line 4, `iac` exists after a run exactly when it did not exist before and no `_ftsx` index did. |
| EngineIac.IacIndexFlipsEachRun | spitfire/mongo/engine-iac.rendered.js:53-83 | On a collection with no index named `_ftsx`, two consecutive runs always disagree on whether `iac` exists. |
| Base64Url.MinimalBytesValue | mock/generate_jwk.py:30-31 | The octet string has exactly `(bit_length + 7) // 8` bytes, reads back big-endian as the integer, and is empty only for 0. |
| Base64Url.MinimalBytesNoLeadingZero | mock/generate_jwk.py:30-31 | For a positive integer, the first octet is never zero. |
| Base64Url.StripEncode | mock/generate_jwk.py:30-31 | `rstrip("=")` removes exactly the padding of the base64url encoding and leaves its digits. |
| Base64Url.ValuesOfDigits | mock/generate_jwk.py:30-31 | Reading the digits of the URL-safe alphabet back gives the 6-bit values they encode. |
| Base64Url.RegroupSextets | mock/generate_jwk.py:30-31 | Regrouping the 6-bit values of an octet string gives the octets back. |
| Base64Url.Base64UrlUIntRoundTrip | mock/generate_jwk.py:30-31 | The encoded value holds no '=' and decodes back to the integer. |
| Base64Url.ExponentEncoding | mock/generate_jwk.py:15 | 65537 encodes as "AQAB". |
| Base64Url.ZeroEncodesEmpty | mock/generate_jwk.py:30-31 | Zero has no octets and encodes as the empty text, which reads back as zero. |
| Base64Url.ZeroOctetReadsZero | mock/generate_jwk.py:30-31 | "AA", the encoding RFC 7518 gives zero, also reads back as zero. |
| Base64Url.DecodeDigits | mock/generate_jwk.py:30-31 | Reading the digits of an octet string gives back the value of those octets. |
| Jwk.PublicKeyToJwk | mock/generate_jwk.py:23-35 | The JWK has `kty` "RSA", the given `kid`, `alg` "RS256" and `use` "sig". `n` and `e` decode back to the modulus and exponent and hold no '='. |
| Jwk.StandardExponentMember | mock/generate_jwk.py:15 | Keys with the generator's exponent carry `e` = "AQAB". |
| Jwk.GenerateJwks | mock/generate_jwk.py:38-60 | The key set has exactly one JWK per iteration, in generation order, each the JWK of that iteration's key. |

## Left out

- The apigeecli and gcloud subprocesses, HTTP validate/deploy/undeploy, GCS upload and download, argparse and logging. The bundle work begins once the bundle is unpacked.
- Archive extraction and `shutil.make_archive` themselves. Only their path rules (`SplitExt`, `ExtractPath`, `ZipReturnedPath`, `ZipWrittenPath`) are modelled. The bundle directory is a map from relative path to text.
- `os.path.join` discarding the prefix when given an absolute path, and `os.makedirs`. Policy names are treated as plain relative names.
- xmltodict parsing and unparsing at the text level. The document is its parsed tree, and element order on unparse is not modelled.
- Flow elements are assumed to be dicts with an `@name`. A `Flow` entry that is a string or lacks `@name` raises in the source and is not represented.
- The caller's `flow_names` list is passed by reference and `remove` changes it. Every caller in `main` passes a fresh one-element list, so the removal is kept local to the call.
- The routing lemmas (`PerFlowRouting` in both variants) assume distinct conditional flow names, none of them "PreFlow" or "PostFlow". With repeated names the source injects once per repetition, which the per-call model (`RoutePerFlow`) still describes.
- The scripts variant's base policy texts (lines 436-462) are literal strings. They coincide with the template's text for those names, and the model renders them through `FlowCallout.FlowCalloutTemplate`.
- In the scripts variant, `main` ends with a zip, a validation and `sys.exit(1)` whatever happened. The exit status is not modelled.
- RSA key generation, uuid generation and PEM export and writing in `generate_jwk.py`. Each iteration's key identifier and public numbers are an input (`draw`), and the file writes are not modelled. `main` and its JSON dump are not modelled.
- The Mongo database creation check, `print` output, JSON parsing of the configuration and exceptions other than the no-op cases. For example, an index with the same key under another name makes `createIndex` fail on a real server; the model adds the index regardless.
- The order in which MongoDB lists collections and indexes. The snapshots are some duplicate-free listing (`Enumerate`).
- Base64Url.Base64UrlUInt: zero encodes as the empty text, where section 2 of RFC 7518 asks for "AA". This follows the source. RSA moduli and exponents are positive, so no key member is affected.
- Python's `urlsafe_b64decode` accepts padding and non-alphabet characters in ways the model does not describe. The reader in `Base64Url.DecodeUInt` is the strict unpadded reading of Appendix C of RFC 7515.
- `spitfire/kafka/kafka_acls.py` and the `ExtractUserInfo.js` shared-flow scripts are not part of this model.
- The model follows the code on these points:
  - an empty shared-flow name is not rejected;
  - the terraform variant wraps a lone `Flow` only while reading and keeps the document's shape;
  - the scripts variant does not wrap a lone `Flow` at all.
