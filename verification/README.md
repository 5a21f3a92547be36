# Proxmox Kubernetes agent — a Dafny model of its core

The agent turns a natural-language request ("three workers with calico")
into a Kubernetes cluster on a Proxmox host. A local LLM (Ollama) answers
with a JSON object. The agent cuts that object out of the reply and coerces
it into a `ClusterSpec`. It can first show the LLM the host's resources,
the existing VMs and the addresses in use. After a confirmation, it runs
Packer, Terraform, Ansible and an optional add-ons playbook in order.

This project models the pure logic of that path as total functions over
immutable data and proves what the code promises:

- `Models` (`agent/models.py`) models the cluster specification and its
  defaults. It covers the address layout: control planes first, then
  workers, contiguous from `ip_start`. From the summary box it covers
  which worker addresses are shown and the "+N more" row.
- `IntentParser` (`agent/intent_parser_llm.py`) models the reply
  extraction: strip, drop Markdown fences, then slice from the first `{`
  to the last `}`. The fences are proved irrelevant to the slice. It also
  models `_json_to_spec`, with Python's `dict.get`, truthiness and `int()`
  written out, every error it can raise, and `parse_intent`.
- `ProxmoxClient` (`agent/proxmox_client.py`) covers:
  - base-URL normalisation;
  - reading the node status, VM list and guest-agent responses into
    records, with each failed query leaving its default;
  - the prompt text.
- `Orchestrator` (`agent/orchestrator.py`) models one stage run against a
  command-outcome oracle and the Terraform init/plan/apply chain. It proves
  that the pipeline follows its stage plan, stops at the first failure,
  launches commands in order, and in dry-run reports the whole plan without
  launching anything. It also models the summary verdict.
- `Cli` (`agent/cli.py`) covers:
  - credential resolution: arguments over the environment, then a
    `re.search` over `terraform.tfvars` with `^` in MULTILINE mode;
  - the Ollama endpoint;
  - the confirmation dialogue;
  - the way `create` drives the pipeline.
- Supporting modules:
  - `Json` holds the decoded JSON value and Python's `get`, truthiness,
    iteration and `int()` on it.
  - `Text` holds Python string helpers: `strip`, `find`/`rfind`, decimal
    rendering and parsing.
  - `Sorting` holds `sorted` on strings.
  - `Wrappers` holds `Option` and `Result`.

Every effect becomes an explicit input:

- an HTTP response or guest-agent query is an `Option<Value>`, or an oracle
  from VMID to such a value (`None` when the call raises);
- the LLM is a `chat` oracle, and `json.loads` is a `loads` oracle;
- a subprocess is a `runner` from command to `Outcome`;
- the existence of `ansible/addons.yml` is a boolean;
- the environment is a map, and the tfvars file is an optional string.

Facts about the code, stated as lemmas:

- `_json_to_spec` falls back to 2048 MB of control-plane memory. So an
  empty reply turns the declared 4096 MB default into 2048 MB
  (`IntentParser.EmptyReplySpec`).
- `--skip-packer` is a `store_true` flag that defaults to true. So only
  `--build-template` decides whether Packer runs
  (`Cli.CreateBuildsTemplateOnRequest`).

## Model

| member | source | states |
|---|---|---|
| `Models.ControlPlaneIps` | agent/models.py:58-63 | one address per control plane, the i-th being the prefix followed by `ip_start + i` |
| `Models.WorkerIps` | agent/models.py:65-71 | one address per worker, numbered on from the control planes: prefix + `ip_start + control_plane_count + i` |
| `Models.AllIps` | agent/models.py:73-75 | the control-plane addresses followed by the worker addresses |
| `Models.AllIpsContiguous` | agent/models.py:54-75 | for non-negative counts there are `total_nodes` addresses, exactly the offsets `ip_start .. ip_start + total_nodes - 1` in order |
| `Models.AllIpsDistinct` | agent/models.py:58-75 | no two nodes get the same address |
| `Models.DefaultLayout` | agent/models.py:24-37 | the default cluster occupies 10.40.19.201, .202 and .203 |
| `Models.DefaultShape` | agent/models.py:7-48 | the declared defaults: 1 control plane (2 cores, 4096 MB), 2 workers (2 cores, 2048 MB), offset 201, flannel on 10.244.0.0/16, no add-ons |
| `Models.ShownWorkerIps` | agent/models.py:87 | the summary shows a prefix of the worker addresses: all of them, or the first three |
| `Models.OverflowRule` | agent/models.py:87-90 | the "+N more" row appears exactly when there are more than three workers, N counts the hidden ones, and otherwise every worker address is shown |
| `Text.StripSplit` | agent/intent_parser_llm.py:77 | `strip()` removes whitespace-only ends: the text is leading whitespace + result + trailing whitespace, and the result neither starts nor ends with whitespace |
| `Text.FindChar` | agent/intent_parser_llm.py:86 | `find` gives the leftmost occurrence, or -1 exactly when the character is absent |
| `Text.RFindChar` | agent/intent_parser_llm.py:87 | `rfind` gives the rightmost occurrence, or -1 exactly when the character is absent |
| `Text.IntToStrRoundTrip` | agent/intent_parser_llm.py:105-117 | `int()` reads back every rendered integer, negative ones included |
| `Json.ToInt` | agent/intent_parser_llm.py:105-117 | `int()` of a JSON value: integers as themselves, booleans as 0/1, strings parsed, null, lists and objects rejected |
| `Json.QuotedNumberIsRead` | agent/intent_parser_llm.py:105-117 | a count the LLM sends as a quoted number converts to that number |
| `Json.Iterate` | agent/intent_parser_llm.py:140 | `list(x)` succeeds exactly on lists, strings and objects: a list as itself, a string as its characters, an object as its keys |
| `IntentParser.OpeningFenceEnd` | agent/intent_parser_llm.py:80 | the opening fence removed by the first `re.sub` spans at least the three backticks and holds no brace |
| `IntentParser.DropClosingFence` | agent/intent_parser_llm.py:81 | the second `re.sub` leaves a prefix of the text and removes no brace |
| `IntentParser.BraceSliceShape` | agent/intent_parser_llm.py:86-91 | extraction fails exactly when a `{` or a `}` is missing; otherwise it yields the slice from the first `{` to the last `}`, or the empty string when the last `}` comes first |
| `IntentParser.BraceFreeWrapping` | agent/intent_parser_llm.py:86-91 | wrapping text in brace-free material leaves the extracted slice unchanged |
| `IntentParser.StripKeepsSlice` | agent/intent_parser_llm.py:77-91 | stripping never changes the extracted slice |
| `IntentParser.DropFencesKeepsSlice` | agent/intent_parser_llm.py:78-82 | removing a Markdown fence and re-stripping never changes the extracted slice |
| `IntentParser.FencesDoNotMatter` | agent/intent_parser_llm.py:74-91 | `_extract_json_from_response` cuts the same candidate as a bare first-`{`-to-last-`}` slice of the raw reply |
| `IntentParser.IntField` | agent/intent_parser_llm.py:105-117 | a field converts exactly when the key is absent or `int()` accepts its value; the result is that `int()` of the present value or the default; otherwise the error names the key |
| `IntentParser.ConvertsIff` | agent/intent_parser_llm.py:105-117 | an integer field converts exactly when the key is absent or `int()` accepts its value |
| `IntentParser.FullVersionShape` | agent/intent_parser_llm.py:128-136 | every full version starts with the minor version and a dot and ends in "-1.1" |
| `IntentParser.NameStep` | agent/intent_parser_llm.py:100-102 | a truthy name replaces the cluster name and yields the `<name>-node` prefix; a falsy one keeps the defaults |
| `IntentParser.CniStep` | agent/intent_parser_llm.py:120-123 | a truthy CNI replaces flannel, and the pod CIDR becomes 192.168.0.0/16 exactly for calico |
| `IntentParser.VersionStep` | agent/intent_parser_llm.py:126-136 | a truthy version sets the minor version and maps it to its full package version; an unhashable one is an error |
| `IntentParser.AddonsStep` | agent/intent_parser_llm.py:139-140 | truthy add-ons become `list(...)` of the value, a non-iterable is an error, and falsy add-ons leave none |
| `IntentParser.JsonToSpec` | agent/intent_parser_llm.py:95-142 | a non-object is rejected; an object converts exactly when every step succeeds; the control plane always gets at least 2 cores and 2048 MB |
| `IntentParser.JsonToSpecSucceeds` | agent/intent_parser_llm.py:95-142 | conversion succeeds exactly on objects whose integer fields convert and whose string fields are not containers |
| `IntentParser.JsonToSpecIntegers` | agent/intent_parser_llm.py:105-117 | counts, worker sizes and `ip_start` are `int()` of the present value or the default; the control-plane cores and memory are the same reading raised to 2 and 2048 |
| `IntentParser.JsonToSpecName` | agent/intent_parser_llm.py:99-102 | the spec's name and VM prefix follow the name field, or stay at their defaults |
| `IntentParser.JsonToSpecCni` | agent/intent_parser_llm.py:119-123 | the spec's CNI and pod CIDR follow the CNI field |
| `IntentParser.JsonToSpecVersion` | agent/intent_parser_llm.py:125-136 | the spec's versions follow the version field through the version table |
| `IntentParser.JsonToSpecAddons` | agent/intent_parser_llm.py:138-140 | the spec's add-ons are the iterated field, a list as itself, or none |
| `IntentParser.JsonToSpecKeepsTheRest` | agent/intent_parser_llm.py:95-142 | network, Proxmox, storage, SSH and disk settings always keep their defaults |
| `IntentParser.EmptyReplySpec` | agent/intent_parser_llm.py:95-142 | an empty object gives the default spec except that the control plane has 2048 MB |
| `IntentParser.UserMessage` | agent/intent_parser_llm.py:173-180 | without context the message is the intent; with context it is the fixed introduction, the prompt text, the request introduction and the intent, in that order |
| `IntentParser.Interpret` | agent/intent_parser_llm.py:190-195 | a reply interprets exactly when a candidate was cut, decodes and converts; the result carries the converted spec, the decoded object and its `reasoning` (default "") |
| `IntentParser.ParseIntent` | agent/intent_parser_llm.py:149-197 | an unreachable server and a failed chat are distinct errors, checked before anything is parsed |
| `IntentParser.ParseIntentUsesBraceSlice` | agent/intent_parser_llm.py:185-191 | once the chat answers, the result depends on the reply only through its first-`{`-to-last-`}` slice |
| `ProxmoxClient.RStripSlash` | agent/proxmox_client.py:97 | `rstrip("/")` removes exactly the trailing slashes |
| `ProxmoxClient.NormaliseBase` | agent/proxmox_client.py:94-100 | the base URL always ends in "/api2/json" |
| `ProxmoxClient.RStripSlashAppend` | agent/proxmox_client.py:97 | one more trailing slash makes no difference |
| `ProxmoxClient.NormaliseIdempotent` | agent/proxmox_client.py:94-100 | normalising a normalised URL changes nothing |
| `ProxmoxClient.NormaliseForms` | agent/proxmox_client.py:96-100 | a bare host, the host with "/", and the host with "/api2/json" all give the same base |
| `ProxmoxClient.FloorDivMiB` | agent/proxmox_client.py:156-157 | `// (1024 * 1024)` is defined on integers and booleans and rounds down |
| `ProxmoxClient.SubObject` | agent/proxmox_client.py:147-151 | `.get(key, {})` can be read further exactly when it yields an object |
| `ProxmoxClient.AddressIps` | agent/proxmox_client.py:202-206 | an address list yields exactly its IPv4 addresses that are non-empty and not 127.*, and fails exactly when some entry cannot be read |
| `ProxmoxClient.AddressIpsAppend` | agent/proxmox_client.py:202-206 | reading two address lists one after the other gives the first list's kept addresses followed by the second's, in entry order and with duplicates kept, and fails exactly when either part fails |
| `ProxmoxClient.AddressIpsSingle` | agent/proxmox_client.py:202-206 | one entry contributes nothing, exactly its own address when that address is kept, or an error exactly when its address field cannot be read |
| `ProxmoxClient.InterfaceIpsMembership` | agent/proxmox_client.py:199-206 | an interface contributes an address exactly when it is not `lo` and one of its entries keeps that address |
| `ProxmoxClient.InterfacesIps` | agent/proxmox_client.py:198-207 | the addresses of all interfaces are the union of each one's, and reading fails exactly when one interface fails |
| `ProxmoxClient.InterfacesIpsAppend` | agent/proxmox_client.py:198-207 | the addresses of two interface lists are the first list's followed by the second's, in interface order and with duplicates kept, and reading fails exactly when either part fails |
| `ProxmoxClient.InterfacesIpsSingle` | agent/proxmox_client.py:198-207 | one interface contributes exactly its own address list |
| `ProxmoxClient.VmIpsMembership` | agent/proxmox_client.py:192-207 | a VM reports an address exactly when a non-loopback interface of the agent response keeps it |
| `ProxmoxClient.VmIpsFiltered` | agent/proxmox_client.py:199-206 | no reported address is empty or a 127.* loopback address |
| `ProxmoxClient.VmFromEntry` | agent/proxmox_client.py:172-188 | a VM entry keeps its id, status and cores; its name defaults to `vm-<vmid>`; its memory is in MiB; it has addresses only when running, and a failed agent query leaves none |
| `ProxmoxClient.NonTemplates` | agent/proxmox_client.py:168-170 | exactly the entries whose `template` is not 1 are kept |
| `ProxmoxClient.NonTemplatesAppend` | agent/proxmox_client.py:167-170 | filtering distributes over concatenation, so kept entries stay in input order with their multiplicity |
| `ProxmoxClient.NonTemplatesSingle` | agent/proxmox_client.py:168-170 | one entry is kept exactly when its `template` is not 1 |
| `ProxmoxClient.ConvertAll` | agent/proxmox_client.py:167-190 | converting a list entry by entry gives every entry's result, in order, and fails exactly when one entry fails |
| `ProxmoxClient.CollectVmsIsFilterMap` | agent/proxmox_client.py:162-190 | `_get_vms` is the per-entry VM conversion applied to the non-template entries, in order |
| `ProxmoxClient.NodeResourcesOf` | agent/proxmox_client.py:144-160 | the query succeeds exactly when `data`, `cpuinfo`, `memory` and `rootfs` are dicts and the four memory and disk figures are numbers; then total and used memory are in MiB and the CPU total is `cpuinfo.cpus` |
| `ProxmoxClient.AllVmIps` | agent/proxmox_client.py:134-136 | the addresses in use are exactly those of some VM |
| `ProxmoxClient.AllVmIpsAppend` | agent/proxmox_client.py:135-136 | collecting over two VM lists is the concatenation of the two collections, so addresses stay in VM order with duplicates |
| `ProxmoxClient.AllVmIpsSingle` | agent/proxmox_client.py:135-136 | one VM contributes its own address list |
| `ProxmoxClient.Discover` | agent/proxmox_client.py:114-138 | the context names the target node; a failed status or VM query leaves zero resources or no VMs; used addresses are the VMs' address lists concatenated in VM order |
| `ProxmoxClient.VmLineContent` | agent/proxmox_client.py:74-79 | a VM line names the VM, its VMID and status, and ends with its addresses joined in order, or "no IP" when it has none |
| `Text.JoinAppend` | agent/proxmox_client.py:75 | joining one more part appends the separator and that part, so the parts appear in order |
| `ProxmoxClient.PromptLines` | agent/proxmox_client.py:56-88 | four fixed lines, one per VM, and two more when addresses are in use |
| `ProxmoxClient.PromptVmSection` | agent/proxmox_client.py:71-82 | the prompt says "No existing VMs" exactly when there are none, and has the VM heading exactly when there are some |
| `ProxmoxClient.NoIpLineWithoutIps` | agent/proxmox_client.py:84-86 | without used addresses no line of the prompt is the in-use line |
| `ProxmoxClient.PromptIpSection` | agent/proxmox_client.py:84-86 | the in-use line appears exactly when addresses are in use, and then it is the last line and lists them sorted |
| `Sorting.Sort` | agent/proxmox_client.py:86 | `sorted` returns an ordered permutation of its input |
| `Orchestrator.Run` | agent/orchestrator.py:32-68 | in dry-run a stage succeeds and launches nothing; otherwise it launches the command once and succeeds exactly on exit code 0, reporting a failed exit code or a missing program |
| `Orchestrator.ApplyCommand` | agent/orchestrator.py:92-95 | the apply command runs in the Terraform directory, ends with the plan file, and has `-auto-approve` exactly when auto-approval is on |
| `Orchestrator.RunTerraformOrder` | agent/orchestrator.py:77-97 | Terraform launches a prefix of init, plan, apply; it stops only after a failure; it succeeds exactly when apply ran and exited 0 |
| `Orchestrator.RunTerraformDry` | agent/orchestrator.py:77-97 | in dry-run Terraform launches nothing and reports the apply it would run |
| `Orchestrator.RunAddons` | agent/orchestrator.py:111-124 | a missing add-ons playbook is a successful skip, even in dry-run; otherwise the playbook runs |
| `Orchestrator.PipelineFollowsPlan` | agent/orchestrator.py:127-178 | a real run reports a non-empty prefix of the stage plan; every stage but the last succeeded; it stops short only after a failure |
| `Orchestrator.PackerIffNotSkipped` | agent/orchestrator.py:147-152 | a Packer result appears exactly when Packer is not skipped, and then first |
| `Orchestrator.DryRunReportsWholePlan` | agent/orchestrator.py:127-178 | a dry run launches nothing, reports every planned stage as a success, and has one wait entry right after Terraform |
| `Orchestrator.OnlyApplyIsApply` | agent/orchestrator.py:71-124 | among all pipeline commands, the only `terraform apply` is the one built from the auto-approve flag |
| `Orchestrator.PipelineLaunchesInOrder` | agent/orchestrator.py:127-178 | a real run launches a non-empty prefix of Packer, init, plan, apply, site playbook and add-ons playbook, in that order; every command but the last exited 0, and it stops short only after a failure |
| `Orchestrator.Summarize` | agent/orchestrator.py:181-197 | each stage is marked OK or FAIL by its success, and the verdict is SUCCESS exactly when every stage succeeded |
| `Cli.Pick` | agent/cli.py:222-224 | a non-empty argument wins; otherwise the environment value, if the variable is set |
| `Cli.Search` | agent/cli.py:239 | the tfvars lookup fails exactly when no line start matches `name = "…"`, and a found value holds no quote |
| `Cli.FirstMatch` | agent/cli.py:239 | `re.search` reports the leftmost matching line |
| `Cli.LaterLineIsRead` | agent/cli.py:239-241 | an assignment line preceded by no matching line is the value found |
| `Cli.FirstLineIsRead` | agent/cli.py:239-241 | an assignment on the first line is read back exactly |
| `Cli.TfvarsCreds` | agent/cli.py:233-243 | the tfvars file gives credentials exactly when all three variables are found, each field being its variable's value |
| `Cli.ResolveProxmoxCreds` | agent/cli.py:220-245 | complete arguments or environment win outright; otherwise the tfvars file decides, and without one there are no credentials |
| `Cli.CredentialPrecedence` | agent/cli.py:226-245 | when the arguments and environment are incomplete, they do not influence the result |
| `Cli.ArgumentBeatsEnvironment` | agent/cli.py:222-227 | three given arguments are used as they are, whatever the environment holds |
| `Cli.ResolvedFromEnvironmentAreNonEmpty` | agent/cli.py:226-227 | credentials taken from arguments or environment are all non-empty |
| `Cli.GatherCredentials` | agent/cli.py:197-217 | credentials reach the configs exactly when resolution finds them, and they are the resolved ones |
| `Cli.DiscoverProxmox` | agent/cli.py:248-271 | discovery happens exactly with credentials and a reachable API, on the given node or "pve1" |
| `Cli.BuildOllamaConfig` | agent/cli.py:188-194 | each endpoint setting is the non-empty argument, else the environment variable, else the built-in default |
| `Cli.OllamaDefaults` | agent/cli.py:192-193 | with nothing given the endpoint is http://localhost:11434 with model llama3 |
| `Cli.AcceptsIff` | agent/cli.py:66-73 | an answer is accepted exactly when, stripped, it is "y" or "yes" in any case |
| `Cli.Proceeds` | agent/cli.py:65-75 | `-y` always proceeds; otherwise the answer decides, and after "edit" the second answer decides |
| `Cli.EmptyAnswerAborts` | agent/cli.py:65-75 | the default (empty) answer aborts |
| `Cli.CreateOutcomeOf` | agent/cli.py:65-100 | `create` aborts exactly when the confirmation fails, and only writes configs exactly when it proceeds without `--apply` |
| `Cli.CreateBuildsTemplateOnRequest` | agent/cli.py:287-288 | a provisioning run includes a Packer stage exactly when `--build-template` is given |
| `Cli.CreateAutoApprovesUnderYes` | agent/cli.py:87-95 | when `create` provisions outside dry-run, every `terraform apply` it launches carries `-auto-approve` exactly under `-y` |

## Left out

- HTTP, and the Ollama client (`agent/llm.py`): `_get`, `is_available`, `chat` and the TLS context are outside this model. Their answers are inputs, with `None` when the call raises.
- `json.loads` is an oracle. The JSON value has no floating-point numbers, so `cpu_used`, the storage sizes, and the CPU and storage lines of the prompt text are left out.
- Floats in the reply are out of scope too. Python's `int(4096.0)` truncation is not modelled. A float version such as `1.31` is not modelled either; Python turns it into "1.31.0-1.1", not "1.31.4-1.1".
- Python 3.11 and later refuse `int()` and `str()` on more than 4300 digits. `Text.ParseInt` and `Text.IntToStr` are unbounded.
- `subprocess.run`, `time.sleep(60)` and timing are outside this model. Durations and the "Completed in …s" text are dropped, and stage messages are a datatype instead of formatted strings.
- `explain_interpretation`, the banner and all printing are output only. So is `ClusterSpec.summary`, apart from the `[:3]` choice of worker addresses and the "+N more" row. Its other rows, including the worker count, worker CPU/memory and padded worker-IP text (`agent/models.py:85-87`), are not modelled.
- `_interactive_edit`, the interactive intent prompt and `cmd_preview` are left out. The edited spec is an input of `Cli.CreateOutcomeOf`.
- Config generation (`write_configs` and the templates) is not part of this model.
- Capacity planning, collision avoidance and retries happen in the LLM prompt, not in code, so they are not modelled.
- `IntentParser.NameStep`: a truthy list or object under "name" is an error, where Python would store the container itself. A truthy number or boolean is stored as its `str()` text, where Python stores the raw value; `{"name": 5}` gives the text "5", not the int 5.
- `IntentParser.CniStep`: a truthy list or object under "cni_plugin" is an error, for the same reason as "name". A non-string scalar is stored as its `str()` text.
- `IntentParser.VersionStep`: a non-string truthy scalar is stored as its `str()` text, where Python stores the raw value. The full version is the same in both.
- `IntentParser.OpeningFenceEnd`: the fence tag is matched as ASCII `\w`, while Python's `\w` on `str` is Unicode. After "```é" Python removes more than the model does. This cannot change the result: the removed text holds no brace, and `IntentParser.FencesDoNotMatter` shows the extracted slice ignores fences.
- `ProxmoxClient.VmFromEntry`: when "name" is absent and "vmid" is a list or object, the entry is rejected. Python would format the container into the name.
- `ProxmoxClient.VmLineContent`: a list or object field renders as "", not as Python's `repr`.
- `Json.ToInt`: `int()` on strings accepts ASCII digits and an optional sign only. Python's underscores and non-ASCII digits are not accepted.
- `Cli.AcceptsIff`: `.lower()` is modelled on ASCII letters only. Characters that lowercase to "y", "e" or "s" outside ASCII are not considered.
