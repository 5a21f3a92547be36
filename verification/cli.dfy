/**
  The resolution rules of the command-line front end (`agent/cli.py`):
  where Proxmox credentials and the Ollama endpoint come from, when a
  `create` run goes ahead, and how the pipeline is then invoked.

  Command-line values, the environment and the contents of
  `terraform/terraform.tfvars` are explicit inputs; an option that was not
  given is `None`.
 */
module Cli {
  import opened Wrappers
  import opened Text
  import Models
  import Orchestrator
  import ProxmoxClient
  import Json

  /** `os.environ`. */
  type Env = map<string, string>

  /** Python truthiness of an optional string: present and non-empty. */
  predicate Given(v: Option<string>) {
    v.Some? && v.value != ""
  }

  /** `arg or os.environ.get(key)`. */
  function Pick(arg: Option<string>, env: Env, key: string): (r: Option<string>)
    ensures Given(arg) ==> r == arg
    ensures !Given(arg) && key in env ==> r == Some(env[key])
    ensures !Given(arg) && key !in env ==> r.None?
  {
    if Given(arg) then arg else if key in env then Some(env[key]) else None
  }

  // ---------------------------------------------------------------------------
  // Proxmox credentials
  // ---------------------------------------------------------------------------

  datatype Creds = Creds(apiUrl: string, tokenId: string, tokenSecret: string)

  /** The three `--proxmox-…` options. */
  datatype CredArgs = CredArgs(url: Option<string>, tokenId: Option<string>, tokenSecret: Option<string>)

  const UrlVar: string := "PROXMOX_API_URL"
  const TokenIdVar: string := "PROXMOX_API_TOKEN_ID"
  const TokenSecretVar: string := "PROXMOX_API_TOKEN_SECRET"

  /** True when argument-or-environment supplies all three values non-empty. */
  predicate Complete(args: CredArgs, env: Env) {
    && Given(Pick(args.url, env, UrlVar))
    && Given(Pick(args.tokenId, env, TokenIdVar))
    && Given(Pick(args.tokenSecret, env, TokenSecretVar))
  }

  // The tfvars extractor: re.search(r'^VAR\s*=\s*"([^"]*)"', text, re.MULTILINE).

  /** `^` under MULTILINE: the start of the text or just after a newline. */
  predicate LineStart(s: string, p: nat)
    requires p <= |s|
  {
    p == 0 || s[p - 1] == '\n'
  }

  /** The end of the run of whitespace (`\s*`) starting at `i`. */
  function SkipSpaces(s: string, i: nat): (j: nat)
    requires i <= |s|
    ensures i <= j <= |s|
    ensures forall k :: i <= k < j ==> IsSpace(s[k])
    ensures j == |s| || !IsSpace(s[j])
    decreases |s| - i
  {
    if i < |s| && IsSpace(s[i]) then SkipSpaces(s, i + 1) else i
  }

  /** What `\s*=\s*"([^"]*)"` captures when tried at position `i`.
      `[^"]*"` takes everything up to the next quote, newlines included. */
  function ValueAfter(s: string, i: nat): (r: Option<string>)
    requires i <= |s|
    ensures r.Some? ==> '"' !in r.value
  {
    var a := SkipSpaces(s, i);
    if a == |s| || s[a] != '=' then None
    else
      var b := SkipSpaces(s, a + 1);
      if b == |s| || s[b] != '"' then None
      else
        var rest := s[b + 1..];
        var k := FindChar(rest, '"');
        if k < 0 then None
        else
          assert forall j :: 0 <= j < k ==> rest[..k][j] == rest[j];
          Some(rest[..k])
  }

  /** The value captured by the whole pattern when it is tried at position `p`. */
  function MatchAt(s: string, name: string, p: nat): (r: Option<string>)
    requires p <= |s|
    ensures r.Some? ==> LineStart(s, p) && StartsWith(s[p..], name)
    ensures r.Some? ==> '"' !in r.value
  {
    if LineStart(s, p) && StartsWith(s[p..], name) then ValueAfter(s, p + |name|) else None
  }

  /** The leftmost position from `p` on where the pattern matches, or -1. */
  function FirstMatch(s: string, name: string, p: nat): (q: int)
    requires p <= |s|
    ensures q == -1 || p <= q <= |s|
    ensures q == -1 ==> forall k :: p <= k <= |s| ==> MatchAt(s, name, k).None?
    ensures q >= 0 ==> MatchAt(s, name, q).Some? && forall k :: p <= k < q ==> MatchAt(s, name, k).None?
    decreases |s| - p
  {
    if MatchAt(s, name, p).Some? then p
    else if p == |s| then -1
    else FirstMatch(s, name, p + 1)
  }

  /** `re.search(...)` followed by `match.group(1)`. */
  function Search(s: string, name: string): (r: Option<string>)
    ensures r.None? <==> forall k :: 0 <= k <= |s| ==> MatchAt(s, name, k).None?
    ensures r.Some? ==> '"' !in r.value
  {
    var q := FirstMatch(s, name, 0);
    if q < 0 then None else MatchAt(s, name, q)
  }

  /** One space followed by a non-space is skipped to the non-space. */
  lemma SkipOneSpace(s: string, i: nat)
    requires i + 1 < |s| && s[i] == ' ' && !IsSpace(s[i + 1])
    ensures SkipSpaces(s, i) == i + 1
  {
  }

  /** The text of a tfvars line `NAME = "VALUE"`. */
  function Assignment(name: string, value: string): (r: string)
    ensures |r| == |name| + |value| + 5
    ensures r[..|name|] == name && r[|name|..] == " = \"" + value + "\""
  {
    name + " = \"" + value + "\""
  }

  /** After ` = "`, the value runs up to the next quote. */
  lemma ValueAfterLine(s: string, i: nat, value: string, rest: string)
    requires i <= |s| && s[i..] == " = \"" + value + "\"" + rest
    requires '"' !in value
    ensures ValueAfter(s, i) == Some(value)
  {
    assert s[i] == ' ' && s[i + 1] == '=' && s[i + 2] == ' ' && s[i + 3] == '"';
    SkipOneSpace(s, i);
    SkipOneSpace(s, i + 2);
    var tail := s[i + 4..];
    assert tail == value + "\"" + rest by {
      assert s[i..][4..] == tail;
    }
    assert tail[|value|] == '"';
    assert forall j :: 0 <= j < |value| ==> tail[j] == value[j];
    FindCharIs(tail, '"', |value|);
    assert tail[..|value|] == value;
  }

  /** A line `NAME = "VALUE"` at a line start is read back as VALUE. */
  lemma MatchAtLine(s: string, p: nat, name: string, value: string, rest: string)
    requires p <= |s| && LineStart(s, p)
    requires s[p..] == Assignment(name, value) + rest
    requires '"' !in value
    ensures MatchAt(s, name, p) == Some(value)
  {
    assert StartsWith(s[p..], name) by {
      NameThenValue(s, p, name, value, rest);
    }
    LineValue(s, p, name, value, rest);
  }

  /** After NAME in such a line comes its value. */
  lemma LineValue(s: string, p: nat, name: string, value: string, rest: string)
    requires p <= |s| && s[p..] == Assignment(name, value) + rest
    requires '"' !in value
    ensures p + |name| <= |s| && ValueAfter(s, p + |name|) == Some(value)
  {
    assert s[p + |name|..] == " = \"" + value + "\"" + rest by {
      NameThenValue(s, p, name, value, rest);
    }
    ValueAfterLine(s, p + |name|, value, rest);
  }

  /** Such a line starts with NAME, followed by ` = "VALUE"`. */
  lemma NameThenValue(s: string, p: nat, name: string, value: string, rest: string)
    requires p <= |s| && s[p..] == Assignment(name, value) + rest
    ensures StartsWith(s[p..], name)
    ensures p + |name| <= |s| && s[p + |name|..] == " = \"" + value + "\"" + rest
  {
    var n := |name|;
    assert s[p..][..n] == Assignment(name, value)[..n];
    assert s[p + n..] == s[p..][n..];
    assert s[p..][n..] == Assignment(name, value)[n..] + rest;
  }

  /** At a line start that begins with NAME, the match is the value part. */
  lemma MatchAtIs(s: string, name: string, p: nat)
    requires p <= |s| && LineStart(s, p) && StartsWith(s[p..], name)
    ensures MatchAt(s, name, p) == ValueAfter(s, p + |name|)
  {
  }

  /** When no earlier position matches, a line `NAME = "VALUE"` anywhere in
      the file is the one read. */
  lemma LaterLineIsRead(pre: string, name: string, value: string, rest: string)
    requires pre == [] || pre[|pre| - 1] == '\n'
    requires '"' !in value
    requires forall k :: 0 <= k < |pre| ==> MatchAt(pre + Assignment(name, value) + rest, name, k).None?
    ensures Search(pre + Assignment(name, value) + rest, name) == Some(value)
  {
    var s := pre + Assignment(name, value) + rest;
    assert s[|pre|..] == Assignment(name, value) + rest;
    MatchAtLine(s, |pre|, name, value, rest);
    assert FirstMatch(s, name, 0) == |pre|;
  }

  /** A tfvars file whose first line assigns NAME is read as that line's value. */
  lemma FirstLineIsRead(name: string, value: string, rest: string)
    requires '"' !in value
    ensures Search(Assignment(name, value) + rest, name) == Some(value)
  {
    LaterLineIsRead([], name, value, rest);
    assert [] + Assignment(name, value) == Assignment(name, value);
  }

  const UrlKey: string := "proxmox_api_url"
  const TokenIdKey: string := "proxmox_api_token_id"
  const TokenSecretKey: string := "proxmox_api_token_secret"

  /** The tfvars fallback: all three assignments must be found. */
  function TfvarsCreds(content: string): (r: Option<Creds>)
    ensures r.Some? <==>
      (Search(content, UrlKey).Some? && Search(content, TokenIdKey).Some? && Search(content, TokenSecretKey).Some?)
    ensures r.Some? ==> Some(r.value.apiUrl) == Search(content, UrlKey)
    ensures r.Some? ==> Some(r.value.tokenId) == Search(content, TokenIdKey)
    ensures r.Some? ==> Some(r.value.tokenSecret) == Search(content, TokenSecretKey)
  {
    var url := Search(content, UrlKey);
    var id := Search(content, TokenIdKey);
    var secret := Search(content, TokenSecretKey);
    if url.Some? && id.Some? && secret.Some? then Some(Creds(url.value, id.value, secret.value))
    else None
  }

  /** `_resolve_proxmox_creds`; `tfvars` is the file's text when it exists. */
  function ResolveProxmoxCreds(args: CredArgs, env: Env, tfvars: Option<string>): (r: Option<Creds>)
    ensures Complete(args, env) ==> r == Some(Creds(
      Pick(args.url, env, UrlVar).value,
      Pick(args.tokenId, env, TokenIdVar).value,
      Pick(args.tokenSecret, env, TokenSecretVar).value))
    ensures !Complete(args, env) && tfvars.None? ==> r.None?
    ensures !Complete(args, env) && tfvars.Some? ==> r == TfvarsCreds(tfvars.value)
  {
    var url := Pick(args.url, env, UrlVar);
    var id := Pick(args.tokenId, env, TokenIdVar);
    var secret := Pick(args.tokenSecret, env, TokenSecretVar);
    if Given(url) && Given(id) && Given(secret) then Some(Creds(url.value, id.value, secret.value))
    else if tfvars.Some? then TfvarsCreds(tfvars.value)
    else None
  }

  /** Arguments override the environment field by field, and an incomplete
      argument-and-environment set is discarded as a whole: the tfvars
      fallback never mixes with it, so the outcome then depends on the file
      alone. */
  lemma CredentialPrecedence(args: CredArgs, env: Env, args': CredArgs, env': Env, tfvars: Option<string>)
    requires !Complete(args, env) && !Complete(args', env')
    ensures ResolveProxmoxCreds(args, env, tfvars) == ResolveProxmoxCreds(args', env', tfvars)
  {
  }

  /** A non-empty argument wins over the environment. */
  lemma ArgumentBeatsEnvironment(args: CredArgs, env: Env, tfvars: Option<string>)
    requires Given(args.url) && Given(args.tokenId) && Given(args.tokenSecret)
    ensures ResolveProxmoxCreds(args, env, tfvars)
      == Some(Creds(args.url.value, args.tokenId.value, args.tokenSecret.value))
  {
  }

  /** Credentials found in the environment or arguments are never empty;
      those read from tfvars may be. */
  lemma ResolvedFromEnvironmentAreNonEmpty(args: CredArgs, env: Env, tfvars: Option<string>)
    requires Complete(args, env)
    ensures
      var r := ResolveProxmoxCreds(args, env, tfvars);
      r.Some? && r.value.apiUrl != "" && r.value.tokenId != "" && r.value.tokenSecret != ""
  {
  }

  /** `_gather_credentials`: a resolved triple is truthy even with empty
      values, so it is handed on unchanged; otherwise nothing. */
  function GatherCredentials(args: CredArgs, env: Env, tfvars: Option<string>): (r: Option<Creds>)
    ensures r.Some? <==> Complete(args, env) || (tfvars.Some? && TfvarsCreds(tfvars.value).Some?)
    ensures r.Some? ==> r == ResolveProxmoxCreds(args, env, tfvars)
  {
    var creds := ResolveProxmoxCreds(args, env, tfvars);
    if creds.Some? then Some(Creds(creds.value.apiUrl, creds.value.tokenId, creds.value.tokenSecret))
    else None
  }

  /** `_discover_proxmox`: no credentials or an unreachable API gives no
      context; otherwise the target node defaults to "pve1". */
  function DiscoverProxmox(
    creds: Option<Creds>,
    targetNode: Option<string>,
    available: bool,
    statusResp: Option<Json.Value>,
    qemuResp: Option<Json.Value>,
    agent: Json.Value -> Option<Json.Value>): (r: Option<ProxmoxClient.Context>)
    ensures r.Some? <==> creds.Some? && available
    ensures r.Some? && Given(targetNode) ==> r.value.nodeName == targetNode.value
    ensures r.Some? && !Given(targetNode) ==> r.value.nodeName == "pve1"
  {
    if creds.None? || !available then None
    else
      var node := if Given(targetNode) then targetNode.value else "pve1";
      Some(ProxmoxClient.Discover(node, statusResp, qemuResp, agent))
  }

  // ---------------------------------------------------------------------------
  // Ollama endpoint
  // ---------------------------------------------------------------------------

  const DefaultOllamaUrl: string := "http://localhost:11434"
  const DefaultOllamaModel: string := "llama3"

  datatype OllamaConfig = OllamaConfig(baseUrl: string, model: string)

  /** `_build_ollama_config`: `arg or os.environ.get(KEY, default)`. A set but
      empty variable is kept; the default applies only when it is unset. */
  function BuildOllamaConfig(urlArg: Option<string>, modelArg: Option<string>, env: Env): (r: OllamaConfig)
    ensures Given(urlArg) ==> r.baseUrl == urlArg.value
    ensures !Given(urlArg) && "OLLAMA_URL" in env ==> r.baseUrl == env["OLLAMA_URL"]
    ensures !Given(urlArg) && "OLLAMA_URL" !in env ==> r.baseUrl == DefaultOllamaUrl
    ensures Given(modelArg) ==> r.model == modelArg.value
    ensures !Given(modelArg) && "OLLAMA_MODEL" in env ==> r.model == env["OLLAMA_MODEL"]
    ensures !Given(modelArg) && "OLLAMA_MODEL" !in env ==> r.model == DefaultOllamaModel
  {
    OllamaConfig(
      Pick(urlArg, env, "OLLAMA_URL").GetOr(DefaultOllamaUrl),
      Pick(modelArg, env, "OLLAMA_MODEL").GetOr(DefaultOllamaModel))
  }

  /** With nothing given the agent talks to a local llama3. */
  lemma OllamaDefaults()
    ensures BuildOllamaConfig(None, None, map[]) == OllamaConfig("http://localhost:11434", "llama3")
  {
  }

  // ---------------------------------------------------------------------------
  // The create command
  // ---------------------------------------------------------------------------

  /** `answer.strip().lower()`. */
  function Normalise(answer: string): string {
    AsciiLower(Strip(answer))
  }

  /** The answers that let provisioning go ahead: "y" or "yes". */
  predicate Accepts(answer: string) {
    Normalise(answer) == "y" || Normalise(answer) == "yes"
  }

  predicate IsY(c: char) { c == 'y' || c == 'Y' }
  predicate IsE(c: char) { c == 'e' || c == 'E' }
  predicate IsS(c: char) { c == 's' || c == 'S' }

  lemma LowerCharIs(c: char)
    ensures LowerChar(c) == 'y' <==> IsY(c)
    ensures LowerChar(c) == 'e' <==> IsE(c)
    ensures LowerChar(c) == 's' <==> IsS(c)
  {
  }

  /** An answer is accepted exactly when, once surrounding whitespace is
      dropped, it is "y" or "yes" in any mix of upper and lower case. */
  lemma AcceptsIff(answer: string)
    ensures
      var t := Strip(answer);
      Accepts(answer) <==>
        (|t| == 1 && IsY(t[0])) || (|t| == 3 && IsY(t[0]) && IsE(t[1]) && IsS(t[2]))
  {
    var t := Strip(answer);
    var n := Normalise(answer);
    if |t| == 1 {
      LowerCharIs(t[0]);
      assert n == "y" <==> n[0] == 'y';
    } else if |t| == 3 {
      LowerCharIs(t[0]);
      LowerCharIs(t[1]);
      LowerCharIs(t[2]);
      assert n == "yes" <==> n[0] == 'y' && n[1] == 'e' && n[2] == 's';
    }
  }

  /** The confirmation step of `cmd_create`. `-y` skips it; "edit" leads to
      an edit and a second question, whose answer then decides. */
  function Proceeds(yes: bool, first: string, afterEdit: string): (r: bool)
    ensures yes ==> r
    ensures !yes && Normalise(first) != "edit" ==> (r <==> Accepts(first))
    ensures !yes && Normalise(first) == "edit" ==> (r <==> Accepts(afterEdit))
  {
    if yes then true
    else if Normalise(first) == "edit" then Accepts(afterEdit)
    else Accepts(first)
  }

  /** Without `-y`, an empty answer (the default N) never proceeds. */
  lemma EmptyAnswerAborts(afterEdit: string)
    ensures !Proceeds(false, "", afterEdit)
  {
    assert |Strip("")| == 0;
    assert Normalise("") == "";
    assert !Accepts("");
  }

  /** `--skip-packer` is a store_true flag defaulting to true, so it is true
      whether or not it is given; `--build-template` then forces it false. */
  function SkipPacker(skipPackerGiven: bool, buildTemplate: bool): (r: bool)
    ensures r <==> !buildTemplate
  {
    if buildTemplate then false else true
  }

  /** The `create` options that reach the pipeline. */
  datatype CreateOptions = CreateOptions(
    yes: bool,
    apply: bool,
    dryRun: bool,
    skipPackerGiven: bool,
    buildTemplate: bool)

  datatype CreateOutcome = Aborted | ConfigsOnly | Provisioned(run: Orchestrator.Pipeline)

  /** The tail of `cmd_create` once the spec is known: confirm, then run the
      pipeline only with `--apply`, auto-approving exactly under `-y`. */
  function CreateOutcomeOf(
    opts: CreateOptions,
    first: string,
    afterEdit: string,
    spec: Models.ClusterSpec,
    playbookExists: bool,
    runner: Orchestrator.Command -> Orchestrator.Outcome): (r: CreateOutcome)
    ensures r == Aborted <==> !Proceeds(opts.yes, first, afterEdit)
    ensures r == ConfigsOnly <==> Proceeds(opts.yes, first, afterEdit) && !opts.apply
  {
    if !Proceeds(opts.yes, first, afterEdit) then Aborted
    else if !opts.apply then ConfigsOnly
    else
      var skip := SkipPacker(opts.skipPackerGiven, opts.buildTemplate);
      Provisioned(Orchestrator.RunPipeline(spec, skip, opts.yes, opts.dryRun, playbookExists, runner))
  }

  /** A provisioning run builds the Packer template exactly when
      `--build-template` is given. */
  lemma CreateBuildsTemplateOnRequest(
    opts: CreateOptions,
    first: string,
    afterEdit: string,
    spec: Models.ClusterSpec,
    playbookExists: bool,
    runner: Orchestrator.Command -> Orchestrator.Outcome)
    ensures
      var r := CreateOutcomeOf(opts, first, afterEdit, spec, playbookExists, runner);
      r.Provisioned? ==>
        ((exists i :: 0 <= i < |r.run.results| && r.run.results[i].stage == Orchestrator.Packer) <==> opts.buildTemplate)
  {
    var skip := SkipPacker(opts.skipPackerGiven, opts.buildTemplate);
    Orchestrator.PackerIffNotSkipped(spec, skip, opts.yes, opts.dryRun, playbookExists, runner);
  }

  /** Outside dry-run, every `terraform apply` a provisioning run launches
      carries `-auto-approve` exactly under `-y`. */
  lemma CreateAutoApprovesUnderYes(
    opts: CreateOptions,
    first: string,
    afterEdit: string,
    spec: Models.ClusterSpec,
    playbookExists: bool,
    runner: Orchestrator.Command -> Orchestrator.Outcome)
    ensures
      var r := CreateOutcomeOf(opts, first, afterEdit, spec, playbookExists, runner);
      r.Provisioned? && !opts.dryRun ==>
        forall c :: c in r.run.launched && Orchestrator.IsApply(c) ==> ("-auto-approve" in c.argv <==> opts.yes)
  {
    var r := CreateOutcomeOf(opts, first, afterEdit, spec, playbookExists, runner);
    if r.Provisioned? && !opts.dryRun {
      var skip := SkipPacker(opts.skipPackerGiven, opts.buildTemplate);
      var run := Orchestrator.RunPipeline(spec, skip, opts.yes, false, playbookExists, runner);
      var all := Orchestrator.AllCommands(skip, opts.yes, |spec.addons| > 0 && playbookExists);
      assert r.run == run;
      Orchestrator.PipelineLaunchesInOrder(spec, skip, opts.yes, playbookExists, runner);
      Orchestrator.OnlyApplyIsApply(skip, opts.yes, |spec.addons| > 0 && playbookExists);
      forall c | c in run.launched
        ensures c in all
      {
        var k :| 0 <= k < |run.launched| && run.launched[k] == c;
        assert all[..|run.launched|][k] == c;
      }
    }
  }
}
