/**
  The provisioning pipeline (`agent/orchestrator.py`): Packer, Terraform and
  Ansible stages run in a fixed order, each stage reporting a `StageResult`;
  outside dry-run the pipeline stops at the first failing stage.

  Launching a process is an oracle from command to outcome. Durations,
  sleeping and terminal output are not modelled, and messages are kept as
  data rather than formatted text.
 */
module Orchestrator {
  import Models

  datatype Stage = Packer | Terraform | Ansible | Addons

  /** The project directory a command runs in. */
  datatype Dir = PackerDir | TerraformDir | AnsibleDir

  datatype Command = Command(argv: seq<string>, dir: Dir)

  /** What launching a command does: it exits with a code, its program is not
      found, or launching raises another error. */
  datatype Outcome = Exited(code: int) | NotFound | LaunchError(reason: string)

  datatype Message =
    | WouldExecute(command: Command)  // "[DRY RUN] Would execute: …"
    | Completed                       // "Completed in …s"
    | FailedExit(code: int)           // "Failed (exit code …)"
    | CommandNotFound(program: string) // "Command not found: …"
    | Crashed(reason: string)         // the exception text
    | NoAddonsPlaybook                // "No add-ons playbook found, skipping."
    | WouldWait                       // "[DRY RUN] Would wait 60s for VMs to boot"

  datatype StageResult = StageResult(stage: Stage, success: bool, message: Message)

  /** A stage's result together with the commands it launched, in order. */
  datatype Step = Step(result: StageResult, launched: seq<Command>)

  /** `_run`: in dry-run nothing is launched and the stage succeeds; otherwise
      the stage succeeds exactly when the command exits with code 0. */
  function Run(cmd: Command, stage: Stage, dryRun: bool, runner: Command -> Outcome): (r: Step)
    requires |cmd.argv| > 0
    ensures r.result.stage == stage
    ensures dryRun ==> r.result.success && r.result.message == WouldExecute(cmd) && r.launched == []
    ensures !dryRun ==> r.launched == [cmd] && (r.result.success <==> runner(cmd) == Exited(0))
    ensures !dryRun && runner(cmd).Exited? && runner(cmd).code != 0 ==> r.result.message == FailedExit(runner(cmd).code)
    ensures !dryRun && runner(cmd) == NotFound ==> r.result.message == CommandNotFound(cmd.argv[0])
  {
    if dryRun then Step(StageResult(stage, true, WouldExecute(cmd)), [])
    else
      var result :=
        match runner(cmd)
        case Exited(code) =>
          if code == 0 then StageResult(stage, true, Completed) else StageResult(stage, false, FailedExit(code))
        case NotFound => StageResult(stage, false, CommandNotFound(cmd.argv[0]))
        case LaunchError(reason) => StageResult(stage, false, Crashed(reason));
      Step(result, [cmd])
  }

  const PackerBuild: Command := Command(["packer", "build", "-force", "."], PackerDir)
  const TerraformInit: Command := Command(["terraform", "init"], TerraformDir)
  const TerraformPlan: Command := Command(["terraform", "plan", "-out=tfplan"], TerraformDir)
  const AnsibleSite: Command := Command(["ansible-playbook", "-i", "inventory.ini", "site.yml"], AnsibleDir)
  const AnsibleAddons: Command := Command(["ansible-playbook", "-i", "inventory.ini", "addons.yml"], AnsibleDir)

  /** `terraform apply [-auto-approve] tfplan`. */
  function ApplyCommand(autoApprove: bool): (r: Command)
    ensures r.dir == TerraformDir
    ensures |r.argv| >= 3 && r.argv[0] == "terraform" && r.argv[1] == "apply"
    ensures r.argv[|r.argv| - 1] == "tfplan"
    ensures "-auto-approve" in r.argv <==> autoApprove
    ensures |r.argv| == if autoApprove then 4 else 3
  {
    var argv := ["terraform", "apply"] + (if autoApprove then ["-auto-approve"] else []) + ["tfplan"];
    assert "tfplan" != "-auto-approve";
    Command(argv, TerraformDir)
  }

  /** The three Terraform commands, in the order they are issued. */
  function TerraformCommands(autoApprove: bool): seq<Command> {
    [TerraformInit, TerraformPlan, ApplyCommand(autoApprove)]
  }

  /** `run_terraform`: init, plan, apply; outside dry-run a failed init or plan
      is returned at once. In dry-run only the apply's result is returned. */
  function RunTerraform(dryRun: bool, autoApprove: bool, runner: Command -> Outcome): Step {
    var init := Run(TerraformInit, Terraform, dryRun, runner);
    if !init.result.success && !dryRun then init
    else
      var plan := Run(TerraformPlan, Terraform, dryRun, runner);
      if !plan.result.success && !dryRun then Step(plan.result, init.launched + plan.launched)
      else
        var apply := Run(ApplyCommand(autoApprove), Terraform, dryRun, runner);
        Step(apply.result, init.launched + plan.launched + apply.launched)
  }

  /** Outside dry-run, Terraform launches a prefix of init, plan, apply: every
      command but the last exited 0, it stops early only after a failure, and
      the stage succeeds exactly when all three ran and the apply exited 0. */
  lemma RunTerraformOrder(autoApprove: bool, runner: Command -> Outcome)
    ensures
      var s := RunTerraform(false, autoApprove, runner);
      && 1 <= |s.launched| <= 3
      && s.launched == TerraformCommands(autoApprove)[..|s.launched|]
      && s.result.stage == Terraform
      && (forall i :: 0 <= i < |s.launched| - 1 ==> runner(s.launched[i]) == Exited(0))
      && (s.result.success <==> |s.launched| == 3 && runner(s.launched[2]) == Exited(0))
      && (|s.launched| < 3 ==> runner(s.launched[|s.launched| - 1]) != Exited(0))
  {
    var cmds := TerraformCommands(autoApprove);
    var s := RunTerraform(false, autoApprove, runner);
    if runner(TerraformInit) != Exited(0) {
      assert s.launched == cmds[..1];
    } else if runner(TerraformPlan) != Exited(0) {
      assert s.launched == cmds[..2];
    } else {
      assert s.launched == cmds[..3];
    }
  }

  /** In dry-run Terraform launches nothing and reports the apply it would run. */
  lemma RunTerraformDry(autoApprove: bool, runner: Command -> Outcome)
    ensures RunTerraform(true, autoApprove, runner)
      == Step(StageResult(Terraform, true, WouldExecute(ApplyCommand(autoApprove))), [])
  {
  }

  /** `run_addons`: a missing add-ons playbook is a successful skip, even in
      dry-run; otherwise the playbook runs. */
  function RunAddons(dryRun: bool, playbookExists: bool, runner: Command -> Outcome): (r: Step)
    ensures r.result.stage == Addons
    ensures !playbookExists ==> r == Step(StageResult(Addons, true, NoAddonsPlaybook), [])
    ensures playbookExists ==> r == Run(AnsibleAddons, Addons, dryRun, runner)
  {
    if !playbookExists then Step(StageResult(Addons, true, NoAddonsPlaybook), [])
    else Run(AnsibleAddons, Addons, dryRun, runner)
  }

  /** The results `run_pipeline` returns and every command it launched. */
  datatype Pipeline = Pipeline(results: seq<StageResult>, launched: seq<Command>)

  /** `run_pipeline`; `playbookExists` says whether `ansible/addons.yml` exists. */
  function RunPipeline(
    spec: Models.ClusterSpec,
    skipPacker: bool,
    autoApprove: bool,
    dryRun: bool,
    playbookExists: bool,
    runner: Command -> Outcome): Pipeline
  {
    var packer := Run(PackerBuild, Packer, dryRun, runner);
    if !skipPacker && !packer.result.success && !dryRun then Pipeline([packer.result], packer.launched)
    else
      var pre := if skipPacker then [] else [packer.result];
      var preLaunched := if skipPacker then [] else packer.launched;
      var tf := RunTerraform(dryRun, autoApprove, runner);
      if !tf.result.success && !dryRun then Pipeline(pre + [tf.result], preLaunched + tf.launched)
      else
        var wait := if dryRun then [StageResult(Terraform, true, WouldWait)] else [];
        var ansible := Run(AnsibleSite, Ansible, dryRun, runner);
        var mid := pre + [tf.result] + wait + [ansible.result];
        var midLaunched := preLaunched + tf.launched + ansible.launched;
        if !ansible.result.success && !dryRun then Pipeline(mid, midLaunched)
        else if |spec.addons| > 0 then
          var addons := RunAddons(dryRun, playbookExists, runner);
          Pipeline(mid + [addons.result], midLaunched + addons.launched)
        else Pipeline(mid, midLaunched)
  }

  // ---------------------------------------------------------------------------
  // The stage plan, and the pipeline against it
  // ---------------------------------------------------------------------------

  /** The stages in order: packer unless skipped, terraform, the dry-run wait
      entry, ansible, and add-ons when the spec lists any. */
  function Plan(skipPacker: bool, dryRun: bool, hasAddons: bool): seq<Stage> {
    (if skipPacker then [] else [Packer])
      + [Terraform]
      + (if dryRun then [Terraform] else [])
      + [Ansible]
      + (if hasAddons then [Addons] else [])
  }

  function Stages(results: seq<StageResult>): (r: seq<Stage>)
    ensures |r| == |results| && forall i :: 0 <= i < |results| ==> r[i] == results[i].stage
  {
    seq(|results|, i requires 0 <= i < |results| => results[i].stage)
  }

  predicate AllSucceeded(results: seq<StageResult>) {
    forall i :: 0 <= i < |results| ==> results[i].success
  }

  /** The stages reported are always a non-empty prefix of the plan. Outside
      dry-run every stage but the last succeeded, and the pipeline ends before
      the plan does only because its last stage failed. */
  lemma PipelineFollowsPlan(
    spec: Models.ClusterSpec, skipPacker: bool, autoApprove: bool,
    playbookExists: bool, runner: Command -> Outcome)
    ensures
      var p := RunPipeline(spec, skipPacker, autoApprove, false, playbookExists, runner).results;
      var plan := Plan(skipPacker, false, |spec.addons| > 0);
      && 1 <= |p| <= |plan|
      && Stages(p) == plan[..|p|]
      && (forall i :: 0 <= i < |p| - 1 ==> p[i].success)
      && (|p| < |plan| ==> !p[|p| - 1].success)
  {
    var p := RunPipeline(spec, skipPacker, autoApprove, false, playbookExists, runner).results;
    var plan := Plan(skipPacker, false, |spec.addons| > 0);
    var tf := RunTerraform(false, autoApprove, runner);
    if !skipPacker && runner(PackerBuild) != Exited(0) {
      assert Stages(p) == plan[..1];
    } else if !tf.result.success {
      assert Stages(p) == plan[..|p|];
    } else {
      assert Stages(p) == plan[..|p|];
    }
  }

  /** A packer result appears exactly when packer is not skipped, and then
      it comes first. */
  lemma PackerIffNotSkipped(
    spec: Models.ClusterSpec, skipPacker: bool, autoApprove: bool, dryRun: bool,
    playbookExists: bool, runner: Command -> Outcome)
    ensures
      var p := RunPipeline(spec, skipPacker, autoApprove, dryRun, playbookExists, runner).results;
      && |p| >= 1
      && ((exists i :: 0 <= i < |p| && p[i].stage == Packer) <==> !skipPacker)
      && (!skipPacker ==> p[0].stage == Packer)
  {
    var p := RunPipeline(spec, skipPacker, autoApprove, dryRun, playbookExists, runner).results;
    if skipPacker {
      forall i | 0 <= i < |p|
        ensures p[i].stage != Packer
      {
      }
    } else {
      assert p[0].stage == Packer;
    }
  }

  /** The dry-run result list, entry by entry. */
  function DryRunResults(skipPacker: bool, autoApprove: bool, hasAddons: bool, playbookExists: bool): seq<StageResult> {
    (if skipPacker then [] else [StageResult(Packer, true, WouldExecute(PackerBuild))])
      + [StageResult(Terraform, true, WouldExecute(ApplyCommand(autoApprove))),
         StageResult(Terraform, true, WouldWait),
         StageResult(Ansible, true, WouldExecute(AnsibleSite))]
      + (if !hasAddons then []
         else if playbookExists then [StageResult(Addons, true, WouldExecute(AnsibleAddons))]
         else [StageResult(Addons, true, NoAddonsPlaybook)])
  }

  lemma DryRunIs(
    spec: Models.ClusterSpec, skipPacker: bool, autoApprove: bool,
    playbookExists: bool, runner: Command -> Outcome)
    ensures
      RunPipeline(spec, skipPacker, autoApprove, true, playbookExists, runner)
        == Pipeline(DryRunResults(skipPacker, autoApprove, |spec.addons| > 0, playbookExists), [])
  {
    RunTerraformDry(autoApprove, runner);
  }

  lemma DryRunResultsFollowPlan(skipPacker: bool, autoApprove: bool, hasAddons: bool, playbookExists: bool)
    ensures
      var r := DryRunResults(skipPacker, autoApprove, hasAddons, playbookExists);
      && Stages(r) == Plan(skipPacker, true, hasAddons)
      && AllSucceeded(r)
      && (forall i :: 0 <= i < |r| ==> (r[i].message == WouldWait <==> i == (if skipPacker then 1 else 2)))
  {
    var r := DryRunResults(skipPacker, autoApprove, hasAddons, playbookExists);
    var w := if skipPacker then 1 else 2;
    assert r[w].message == WouldWait;
    assert forall i :: 0 <= i < |r| && i != w ==> r[i].message != WouldWait;
    assert Stages(r) == Plan(skipPacker, true, hasAddons);
  }

  /** In dry-run nothing is launched, every stage of the plan is reported as
      a success, and the one wait entry follows the terraform result. */
  lemma DryRunReportsWholePlan(
    spec: Models.ClusterSpec, skipPacker: bool, autoApprove: bool,
    playbookExists: bool, runner: Command -> Outcome)
    ensures
      var run := RunPipeline(spec, skipPacker, autoApprove, true, playbookExists, runner);
      && run.launched == []
      && Stages(run.results) == Plan(skipPacker, true, |spec.addons| > 0)
      && AllSucceeded(run.results)
      && (forall i :: 0 <= i < |run.results| ==>
            (run.results[i].message == WouldWait <==> i == (if skipPacker then 1 else 2)))
  {
    DryRunIs(spec, skipPacker, autoApprove, playbookExists, runner);
    DryRunResultsFollowPlan(skipPacker, autoApprove, |spec.addons| > 0, playbookExists);
  }

  /** Outside dry-run the commands launched are, in order, a prefix of the full
      command list, which has the add-ons playbook only when there are add-ons
      and the playbook exists. */
  function AllCommands(skipPacker: bool, autoApprove: bool, runAddons: bool): seq<Command> {
    (if skipPacker then [] else [PackerBuild])
      + TerraformCommands(autoApprove)
      + [AnsibleSite]
      + (if runAddons then [AnsibleAddons] else [])
  }

  /** A `terraform apply …` command. */
  predicate IsApply(c: Command) {
    |c.argv| >= 2 && c.argv[0] == "terraform" && c.argv[1] == "apply"
  }

  /** `launched` is a non-empty prefix of `all`, every command in it but the
      last exited 0, and it stops short of `all` only after a failure. */
  predicate StopsAtFirstFailure(launched: seq<Command>, all: seq<Command>, runner: Command -> Outcome) {
    && 1 <= |launched| <= |all|
    && launched == all[..|launched|]
    && (forall i :: 0 <= i < |launched| - 1 ==> runner(launched[i]) == Exited(0))
    && (|launched| < |all| ==> runner(launched[|launched| - 1]) != Exited(0))
  }

  /** Commands that all exited 0, then a run that stops at its first failure,
      together stop at their first failure. */
  lemma StopsAfterSuccesses(done: seq<Command>, launched: seq<Command>, rest: seq<Command>, runner: Command -> Outcome)
    requires forall i :: 0 <= i < |done| ==> runner(done[i]) == Exited(0)
    requires StopsAtFirstFailure(launched, rest, runner)
    ensures StopsAtFirstFailure(done + launched, done + rest, runner)
  {
    var l := done + launched;
    assert l == (done + rest)[..|l|];
    forall i | 0 <= i < |l| - 1
      ensures runner(l[i]) == Exited(0)
    {
      if i >= |done| {
        assert l[i] == launched[i - |done|];
      }
    }
    assert l[|l| - 1] == launched[|launched| - 1];
  }

  /** A run whose last command failed stops at its first failure against any
      longer list of planned commands. */
  lemma StopsAtFailureExtended(launched: seq<Command>, all: seq<Command>, more: seq<Command>, runner: Command -> Outcome)
    requires StopsAtFirstFailure(launched, all, runner)
    requires runner(launched[|launched| - 1]) != Exited(0)
    ensures StopsAtFirstFailure(launched, all + more, runner)
  {
    assert (all + more)[..|launched|] == all[..|launched|];
  }

  /** The only apply command in the full list is the one built from the flag. */
  lemma OnlyApplyIsApply(skipPacker: bool, autoApprove: bool, runAddons: bool)
    ensures forall c :: c in AllCommands(skipPacker, autoApprove, runAddons) && IsApply(c) ==> c == ApplyCommand(autoApprove)
  {
    assert "init" != "apply" && "plan" != "apply" && "terraform" != "packer" && "terraform" != "ansible-playbook";
  }

  /** A real run launches Packer, init, plan, apply, the site playbook and
      the add-ons playbook in that order, and stops at the first failure. */
  lemma PipelineLaunchesInOrder(
    spec: Models.ClusterSpec, skipPacker: bool, autoApprove: bool,
    playbookExists: bool, runner: Command -> Outcome)
    ensures
      var run := RunPipeline(spec, skipPacker, autoApprove, false, playbookExists, runner);
      StopsAtFirstFailure(run.launched, AllCommands(skipPacker, autoApprove, |spec.addons| > 0 && playbookExists), runner)
  {
    if !skipPacker && runner(PackerBuild) != Exited(0) {
      var run := RunPipeline(spec, skipPacker, autoApprove, false, playbookExists, runner);
      assert run.launched == [PackerBuild];
    } else if !RunTerraform(false, autoApprove, runner).result.success {
      TerraformFailureStops(spec, skipPacker, autoApprove, playbookExists, runner);
    } else {
      TerraformSuccessContinues(spec, skipPacker, autoApprove, playbookExists, runner);
    }
  }

  /** The Packer build succeeded or was skipped and Terraform failed: the run
      stops inside Terraform. */
  lemma TerraformFailureStops(
    spec: Models.ClusterSpec, skipPacker: bool, autoApprove: bool,
    playbookExists: bool, runner: Command -> Outcome)
    requires skipPacker || runner(PackerBuild) == Exited(0)
    requires !RunTerraform(false, autoApprove, runner).result.success
    ensures
      var run := RunPipeline(spec, skipPacker, autoApprove, false, playbookExists, runner);
      StopsAtFirstFailure(run.launched, AllCommands(skipPacker, autoApprove, |spec.addons| > 0 && playbookExists), runner)
  {
    RunTerraformOrder(autoApprove, runner);
    var run := RunPipeline(spec, skipPacker, autoApprove, false, playbookExists, runner);
    var pre := if skipPacker then [] else [PackerBuild];
    var cmds := TerraformCommands(autoApprove);
    var tail := [AnsibleSite] + (if |spec.addons| > 0 && playbookExists then [AnsibleAddons] else []);
    var tf := RunTerraform(false, autoApprove, runner);
    assert AllCommands(skipPacker, autoApprove, |spec.addons| > 0 && playbookExists) == pre + (cmds + tail);
    assert run.launched == pre + tf.launched;
    assert StopsAtFirstFailure(tf.launched, cmds, runner);
    StopsAtFailureExtended(tf.launched, cmds, tail, runner);
    StopsAfterSuccesses(pre, tf.launched, cmds + tail, runner);
  }

  /** The Packer build succeeded or was skipped and Terraform succeeded: the
      run goes on to the playbooks. */
  lemma TerraformSuccessContinues(
    spec: Models.ClusterSpec, skipPacker: bool, autoApprove: bool,
    playbookExists: bool, runner: Command -> Outcome)
    requires skipPacker || runner(PackerBuild) == Exited(0)
    requires RunTerraform(false, autoApprove, runner).result.success
    ensures
      var run := RunPipeline(spec, skipPacker, autoApprove, false, playbookExists, runner);
      StopsAtFirstFailure(run.launched, AllCommands(skipPacker, autoApprove, |spec.addons| > 0 && playbookExists), runner)
  {
    RunTerraformOrder(autoApprove, runner);
    LaunchedAfterTerraform(spec, skipPacker, autoApprove, playbookExists, runner);
    var pre := if skipPacker then [] else [PackerBuild];
    var cmds := TerraformCommands(autoApprove);
    var runAddons := |spec.addons| > 0 && playbookExists;
    var tail := [AnsibleSite] + (if runAddons then [AnsibleAddons] else []);
    StopsAfterSuccesses(pre + cmds, PlaybooksLaunched(spec, playbookExists, runner), tail, runner);
    assert AllCommands(skipPacker, autoApprove, runAddons) == (pre + cmds) + tail;
  }

  /** Once Packer and Terraform have succeeded, a real run has launched them
      in full and then the playbooks. */
  lemma LaunchedAfterTerraform(
    spec: Models.ClusterSpec, skipPacker: bool, autoApprove: bool,
    playbookExists: bool, runner: Command -> Outcome)
    requires skipPacker || runner(PackerBuild) == Exited(0)
    requires RunTerraform(false, autoApprove, runner).result.success
    ensures RunPipeline(spec, skipPacker, autoApprove, false, playbookExists, runner).launched
      == (if skipPacker then [] else [PackerBuild]) + TerraformCommands(autoApprove)
         + PlaybooksLaunched(spec, playbookExists, runner)
  {
    RunTerraformOrder(autoApprove, runner);
  }

  /** The playbooks a real run launches once Terraform has succeeded: the site
      playbook, then the add-ons playbook when there are add-ons, the playbook
      file exists and the site playbook exited 0. */
  function PlaybooksLaunched(spec: Models.ClusterSpec, playbookExists: bool, runner: Command -> Outcome): (r: seq<Command>)
    ensures StopsAtFirstFailure(r, [AnsibleSite] + (if |spec.addons| > 0 && playbookExists then [AnsibleAddons] else []), runner)
  {
    if runner(AnsibleSite) != Exited(0) || !(|spec.addons| > 0 && playbookExists) then [AnsibleSite]
    else [AnsibleSite, AnsibleAddons]
  }

  // ---------------------------------------------------------------------------
  // print_results
  // ---------------------------------------------------------------------------

  /** The status column and the overall verdict of `print_results`: each row
      is "OK" or "FAIL", and the pipeline is a success exactly when every
      stage succeeded. */
  method Summarize(results: seq<StageResult>) returns (statuses: seq<string>, allOk: bool)
    ensures |statuses| == |results|
    ensures forall i :: 0 <= i < |results| ==> statuses[i] == (if results[i].success then "OK" else "FAIL")
    ensures allOk <==> AllSucceeded(results)
  {
    statuses := [];
    allOk := true;
    var i := 0;
    while i < |results|
      invariant 0 <= i <= |results|
      invariant |statuses| == i
      invariant forall j :: 0 <= j < i ==> statuses[j] == (if results[j].success then "OK" else "FAIL")
      invariant allOk <==> forall j :: 0 <= j < i ==> results[j].success
    {
      statuses := statuses + [if results[i].success then "OK" else "FAIL"];
      if !results[i].success {
        allOk := false;
      }
      i := i + 1;
    }
  }
}
