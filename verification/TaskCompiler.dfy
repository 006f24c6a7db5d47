/**
 * Task manifests, the workflow instance compiled from them, and the two validators
 * (app/auto_workflow/orchestrator.py).
 */
module TaskCompiler {
  import opened Prelude

  /** The classes `\d`, the rest of `\w`, `\s`, and everything else. */
  datatype CharClass = Digit | OtherWord | Space | Other

  /** Python's character tables: any that agree with ASCII. */
  datatype Unicode = Unicode(classOf: char -> CharClass) {
    predicate IsDigit(c: char) { classOf(c) == Digit }
    predicate IsWord(c: char) { classOf(c) == Digit || classOf(c) == OtherWord }
    predicate IsSpace(c: char) { classOf(c) == Space }

    ghost predicate Valid() {
      && (forall c :: '0' <= c <= '9' ==> classOf(c) == Digit)
      && (forall c :: 'A' <= c <= 'Z' || 'a' <= c <= 'z' || c == '_' ==> classOf(c) == OtherWord)
      && classOf('\n') == Space && classOf('-') == Other && classOf('#') == Other
    }
  }

  datatype Owner = Planning | Build | GenerateTests | RunExternalValidation | Unsupported(name: string)

  datatype Task = Task(
    id: string,
    title: string,
    owner: Owner,
    dependsOn: seq<string>,
    writePaths: seq<string>,
    acceptance: seq<string>)

  datatype StepType =
    | PythonContext | AgentPlan | AgentBuild | AgentGenerateTests | PythonTaskVerifier | RepairLoop
    | AssemblyVerifier | ExternalAcceptancePython | EvidenceVerifier | DiffReviewerAgent | FinalGate
    | NotAllowed(name: string)

  datatype Step = Step(id: string, kind: StepType, taskId: string, onFailOf: string)

  // ---------------------------------------------------------------- the manifest validator

  datatype Finding =
    | NoTasks
    | InvalidId(id: string)
    | DuplicateId(id: string)
    | TitleRequired(id: string)
    | AcceptanceRequired(id: string)
    | UnsupportedOwner(id: string)
    | UnknownDependency(id: string, dep: string)
    | AbsolutePath(id: string, path: string)
    | ParentPath(id: string, path: string)
    | ForbiddenPath(id: string, path: string)
    | TooManyTasks(count: nat)

  predicate Blank(u: Unicode, s: string) {
    forall i :: 0 <= i < |s| ==> u.IsSpace(s[i])
  }

  /** `TASK-\d{3}`, anchored at position `i`. */
  predicate IdAt(u: Unicode, s: string, i: nat) {
    && i + 8 <= |s|
    && s[i] == 'T' && s[i + 1] == 'A' && s[i + 2] == 'S' && s[i + 3] == 'K' && s[i + 4] == '-'
    && u.IsDigit(s[i + 5]) && u.IsDigit(s[i + 6]) && u.IsDigit(s[i + 7])
  }

  predicate ValidId(u: Unicode, id: string) {
    |id| == 8 && IdAt(u, id, 0)
  }

  const FORBIDDEN_WRITE_PARTS: set<string> := {".git", ".ai-workflow", ".qwen-workflow"}

  predicate Absolute(path: string) {
    path != [] && path[0] == '/'
  }

  predicate Climbs(path: string) {
    ".." in Parts(Slashed(path), '/')
  }

  predicate Forbidden(path: string) {
    exists part :: part in Parts(Slashed(path), '/')
                   && (part == ".git" || part == ".ai-workflow" || part == ".qwen-workflow")
  }

  predicate ValidWritePath(path: string) {
    !Absolute(path) && !Climbs(path) && !Forbidden(path)
  }

  function Ids(tasks: seq<Task>): (r: seq<string>)
    ensures |r| == |tasks| && forall i :: 0 <= i < |tasks| ==> r[i] == tasks[i].id
  {
    seq(|tasks|, i requires 0 <= i < |tasks| => tasks[i].id)
  }

  /** What one task must be like, among the ids of all tasks. */
  predicate ValidTask(u: Unicode, t: Task, ids: seq<string>) {
    && ValidId(u, t.id)
    && !Blank(u, t.title)
    && t.acceptance != []
    && !t.owner.Unsupported?
    && (forall d :: d in t.dependsOn ==> d in ids)
    && (forall p :: p in t.writePaths ==> ValidWritePath(p))
  }

  predicate ValidManifest(u: Unicode, tasks: seq<Task>) {
    && 0 < |tasks| <= 20
    && Distinct(Ids(tasks))
    && forall i :: 0 <= i < |tasks| ==> ValidTask(u, tasks[i], Ids(tasks))
  }

  method ValidateRelativePath(id: string, path: string) returns (findings: seq<Finding>)
    ensures findings == [] <==> ValidWritePath(path)
    ensures AbsolutePath(id, path) in findings <==> Absolute(path)
    ensures ParentPath(id, path) in findings <==> Climbs(path)
    ensures ForbiddenPath(id, path) in findings <==> Forbidden(path)
  {
    findings := [];
    if path == "" {
      return;
    }
    if path[0] == '/' {
      findings := findings + [AbsolutePath(id, path)];
    }
    var parts := Parts(Slashed(path), '/');
    if ".." in parts {
      findings := findings + [ParentPath(id, path)];
    }
    if exists part :: part in parts && part in FORBIDDEN_WRITE_PARTS {
      findings := findings + [ForbiddenPath(id, path)];
    }
  }

  /** The checks of the loop body that concern one task alone. */
  method ValidateTask(u: Unicode, task: Task, ids: seq<string>) returns (findings: seq<Finding>)
    ensures findings == [] <==> ValidTask(u, task, ids)
  {
    findings := [];
    if !ValidId(u, task.id) {
      findings := findings + [InvalidId(task.id)];
    }
    if Blank(u, task.title) {
      findings := findings + [TitleRequired(task.id)];
    }
    if task.acceptance == [] {
      findings := findings + [AcceptanceRequired(task.id)];
    }
    if task.owner.Unsupported? {
      findings := findings + [UnsupportedOwner(task.id)];
    }
    for k := 0 to |task.dependsOn|
      invariant findings == [] ==> forall d :: d in task.dependsOn[..k] ==> d in ids
      invariant findings != [] ==> !ValidTask(u, task, ids)
      invariant findings == [] ==> ValidId(u, task.id) && !Blank(u, task.title) && task.acceptance != []
                                   && !task.owner.Unsupported?
    {
      if task.dependsOn[k] !in ids {
        findings := findings + [UnknownDependency(task.id, task.dependsOn[k])];
      }
    }
    for k := 0 to |task.writePaths|
      invariant findings == [] ==> forall d :: d in task.dependsOn ==> d in ids
      invariant findings == [] ==> forall p :: p in task.writePaths[..k] ==> ValidWritePath(p)
      invariant findings != [] ==> !ValidTask(u, task, ids)
      invariant findings == [] ==> ValidId(u, task.id) && !Blank(u, task.title) && task.acceptance != []
                                   && !task.owner.Unsupported?
    {
      var more := ValidateRelativePath(task.id, task.writePaths[k]);
      findings := findings + more;
    }
  }

  /** `validate_task_manifest` finds nothing exactly in the valid manifests. */
  method ValidateTaskManifest(u: Unicode, tasks: seq<Task>) returns (findings: seq<Finding>)
    ensures findings == [] <==> ValidManifest(u, tasks)
  {
    if tasks == [] {
      return [NoTasks];
    }
    findings := [];
    var seen: set<string> := {};
    for i := 0 to |tasks|
      invariant seen == set j | 0 <= j < i :: tasks[j].id
      invariant findings == [] <==> Distinct(Ids(tasks)[..i])
                                    && forall j :: 0 <= j < i ==> ValidTask(u, tasks[j], Ids(tasks))
    {
      if tasks[i].id in seen {
        findings := findings + [DuplicateId(tasks[i].id)];
      }
      seen := seen + {tasks[i].id};
      var more := ValidateTask(u, tasks[i], Ids(tasks));
      findings := findings + more;
    }
    assert Ids(tasks)[..|tasks|] == Ids(tasks);
    if |tasks| > 20 {
      findings := findings + [TooManyTasks(|tasks|)];
    }
  }

  // ---------------------------------------------------------------- the compiler

  function CompileTask(t: Task): seq<Step> {
    match t.owner
    case Planning => [Step(t.id + "_CONTEXT", PythonContext, t.id, "")]
    case GenerateTests =>
      [Step(t.id + "_GENERATE_TESTS", AgentGenerateTests, t.id, ""),
       Step(t.id + "_VERIFY", PythonTaskVerifier, t.id, ""),
       Step(t.id + "_REPAIR", RepairLoop, t.id, t.id + "_VERIFY")]
    case RunExternalValidation => [Step(t.id + "_ACCEPTANCE", ExternalAcceptancePython, t.id, "")]
    case _ =>
      [Step(t.id + "_BUILD", AgentBuild, t.id, ""),
       Step(t.id + "_GENERATE_TESTS", AgentGenerateTests, t.id, ""),
       Step(t.id + "_VERIFY", PythonTaskVerifier, t.id, ""),
       Step(t.id + "_REPAIR", RepairLoop, t.id, t.id + "_VERIFY")]
  }

  const ASSEMBLY_VERIFY := "ASSEMBLY_VERIFY"
  const USER_ACCEPTANCE := "USER_ACCEPTANCE"
  const FINAL_VERIFIER := "FINAL_VERIFIER"
  const DIFF_REVIEW := "DIFF_REVIEW"
  const FINAL_GATE := "FINAL_GATE"

  const FINAL_STEPS: seq<Step> :=
    [Step(ASSEMBLY_VERIFY, AssemblyVerifier, "", ""), Step(USER_ACCEPTANCE, ExternalAcceptancePython, "", ""),
     Step(FINAL_VERIFIER, EvidenceVerifier, "", ""), Step(DIFF_REVIEW, DiffReviewerAgent, "", ""),
     Step(FINAL_GATE, FinalGate, "", "")]

  function CompileTasks(tasks: seq<Task>): seq<Step> {
    if tasks == [] then [] else CompileTasks(tasks[..|tasks| - 1]) + CompileTask(tasks[|tasks| - 1])
  }

  method CompileWorkflowInstance(tasks: seq<Task>) returns (steps: seq<Step>)
    ensures steps == CompileTasks(tasks) + FINAL_STEPS
  {
    steps := [];
    for i := 0 to |tasks|
      invariant steps == CompileTasks(tasks[..i])
    {
      assert tasks[..i + 1][..i] == tasks[..i];
      var id, owner := tasks[i].id, tasks[i].owner;
      if owner == Planning {
        steps := steps + [Step(id + "_CONTEXT", PythonContext, id, "")];
      } else if owner == GenerateTests {
        steps := steps + [Step(id + "_GENERATE_TESTS", AgentGenerateTests, id, ""),
                          Step(id + "_VERIFY", PythonTaskVerifier, id, ""),
                          Step(id + "_REPAIR", RepairLoop, id, id + "_VERIFY")];
      } else if owner == RunExternalValidation {
        steps := steps + [Step(id + "_ACCEPTANCE", ExternalAcceptancePython, id, "")];
      } else {
        steps := steps + [Step(id + "_BUILD", AgentBuild, id, ""),
                          Step(id + "_GENERATE_TESTS", AgentGenerateTests, id, ""),
                          Step(id + "_VERIFY", PythonTaskVerifier, id, ""),
                          Step(id + "_REPAIR", RepairLoop, id, id + "_VERIFY")];
      }
    }
    assert tasks[..|tasks|] == tasks;
    steps := steps + FINAL_STEPS;
  }

  // ---------------------------------------------------------------- the instance validator

  datatype StepFinding =
    | NoSteps
    | InvalidStepId(id: string)
    | UnsupportedType(id: string)
    | UnknownTask(id: string, taskId: string)
    | MissingFinalSteps(ids: set<string>)

  const REQUIRED: set<string> := {ASSEMBLY_VERIFY, USER_ACCEPTANCE, FINAL_VERIFIER, DIFF_REVIEW, FINAL_GATE}

  predicate StepChar(c: char) {
    'A' <= c <= 'Z' || '0' <= c <= '9' || c == '_' || c == '-'
  }

  predicate AllStepChars(s: string) {
    forall i :: 0 <= i < |s| ==> StepChar(s[i])
  }

  predicate ValidStep(s: Step, ids: seq<string>) {
    s.id != "" && AllStepChars(s.id) && !s.kind.NotAllowed? && (s.taskId != "" ==> s.taskId in ids)
  }

  function StepIds(steps: seq<Step>): set<string> {
    set i | 0 <= i < |steps| :: steps[i].id
  }

  predicate ValidInstance(steps: seq<Step>, tasks: seq<Task>) {
    && steps != []
    && (forall i :: 0 <= i < |steps| ==> ValidStep(steps[i], Ids(tasks)))
    && REQUIRED <= StepIds(steps)
  }

  /** `validate_workflow_instance` finds nothing exactly in the valid instances. */
  method ValidateWorkflowInstance(steps: seq<Step>, tasks: seq<Task>) returns (findings: seq<StepFinding>)
    ensures findings == [] <==> ValidInstance(steps, tasks)
  {
    if steps == [] {
      return [NoSteps];
    }
    findings := [];
    var ids := Ids(tasks);
    for i := 0 to |steps|
      invariant findings == [] <==> forall j :: 0 <= j < i ==> ValidStep(steps[j], ids)
    {
      var step := steps[i];
      if step.id == "" || !AllStepChars(step.id) {
        findings := findings + [InvalidStepId(step.id)];
      }
      if step.kind.NotAllowed? {
        findings := findings + [UnsupportedType(step.id)];
      }
      if step.taskId != "" && step.taskId !in ids {
        findings := findings + [UnknownTask(step.id, step.taskId)];
      }
    }
    var missing := REQUIRED - StepIds(steps);
    NoneMissing(REQUIRED, StepIds(steps));
    if missing != {} {
      findings := findings + [MissingFinalSteps(missing)];
    }
  }

  // ---------------------------------------------------------------- what the compiler guarantees

  predicate AsciiDigit(c: char) {
    '0' <= c <= '9'
  }

  /** The digits of a task id are ASCII digits; Python's `\d` accepts others as well. */
  predicate AsciiId(id: string) {
    |id| == 8 && AsciiDigit(id[5]) && AsciiDigit(id[6]) && AsciiDigit(id[7])
  }

  /** The position a step's id suffix is known by. */
  predicate Prefixed(s: Step, id: string) {
    |s.id| > 9 && s.id[..8] == id && s.taskId == id
  }

  lemma Ninth(id: string, suffix: string)
    requires |id| == 8 && |suffix| > 1
    ensures (id + suffix)[9] == suffix[1]
  {
  }

  /** What the steps of one task look like. */
  lemma TaskSteps(u: Unicode, t: Task)
    requires ValidId(u, t.id)
    ensures var c := CompileTask(t);
            && 1 <= |c| <= 4
            && (forall i :: 0 <= i < |c| ==> Prefixed(c[i], t.id) && !c[i].kind.NotAllowed?)
            && (forall i, j :: 0 <= i < j < |c| ==> c[i].id[9] != c[j].id[9])
  {
    var c := CompileTask(t);
    Ninth(t.id, "_CONTEXT");
    Ninth(t.id, "_BUILD");
    Ninth(t.id, "_GENERATE_TESTS");
    Ninth(t.id, "_VERIFY");
    Ninth(t.id, "_REPAIR");
    Ninth(t.id, "_ACCEPTANCE");
    forall i | 0 <= i < |c|
      ensures |c[i].id| > 9 && c[i].id[..8] == t.id
    {
      assert c[i].id == t.id + c[i].id[8..];
    }
  }

  lemma SuffixChars(id: string, suffix: string)
    requires AllStepChars(suffix)
    ensures AllStepChars(id + suffix) <==> AllStepChars(id)
  {
    assert forall i :: 0 <= i < |id| ==> (id + suffix)[i] == id[i];
    assert forall i :: |id| <= i < |id| + |suffix| ==> (id + suffix)[i] == suffix[i - |id|];
  }

  lemma IdChars(u: Unicode, id: string)
    requires u.Valid() && ValidId(u, id)
    ensures AllStepChars(id) <==> AsciiId(id)
  {
  }

  /** A task's steps pass the instance validator exactly when its id is made of ASCII digits. */
  lemma TaskStepsValid(u: Unicode, t: Task, ids: seq<string>)
    requires u.Valid() && ValidId(u, t.id) && t.id in ids
    ensures forall i :: 0 <= i < |CompileTask(t)| ==> (ValidStep(CompileTask(t)[i], ids) <==> AsciiId(t.id))
  {
    IdChars(u, t.id);
    SuffixChars(t.id, "_CONTEXT");
    SuffixChars(t.id, "_BUILD");
    SuffixChars(t.id, "_GENERATE_TESTS");
    SuffixChars(t.id, "_VERIFY");
    SuffixChars(t.id, "_REPAIR");
    SuffixChars(t.id, "_ACCEPTANCE");
  }

  /** Where the steps of task `k` are. */
  function Offset(tasks: seq<Task>, k: nat): nat
    requires k <= |tasks|
  {
    |CompileTasks(tasks[..k])|
  }

  /** The steps of every task, whole and in task order. */
  lemma {:induction false} TaskOrder(tasks: seq<Task>, k: nat)
    requires k < |tasks|
    ensures Offset(tasks, k + 1) == Offset(tasks, k) + |CompileTask(tasks[k])| <= |CompileTasks(tasks)|
    ensures CompileTasks(tasks)[Offset(tasks, k)..Offset(tasks, k + 1)] == CompileTask(tasks[k])
  {
    var rest, last := tasks[..|tasks| - 1], tasks[|tasks| - 1];
    var front, all := CompileTasks(rest), CompileTasks(tasks);
    assert all == front + CompileTask(last);
    if k + 1 == |tasks| {
      assert tasks[..k + 1] == tasks && tasks[..k] == rest;
      assert all[|front|..] == CompileTask(last);
    } else {
      TaskOrder(rest, k);
      assert rest[..k] == tasks[..k] && rest[..k + 1] == tasks[..k + 1];
      var i, j := Offset(tasks, k), Offset(tasks, k + 1);
      assert all[i..j] == front[i..j];
    }
  }

  function Weight(t: Task): nat {
    match t.owner case Planning => 1 case RunExternalValidation => 1 case GenerateTests => 3 case _ => 4
  }

  function TotalWeight(tasks: seq<Task>): nat {
    if tasks == [] then 0 else TotalWeight(tasks[..|tasks| - 1]) + Weight(tasks[|tasks| - 1])
  }

  lemma {:induction false} StepCount(tasks: seq<Task>)
    ensures |CompileTasks(tasks)| == TotalWeight(tasks)
  {
    if tasks != [] {
      StepCount(tasks[..|tasks| - 1]);
    }
  }

  /** Which task a step belongs to. */
  lemma {:induction false} StepOfTask(tasks: seq<Task>, i: nat) returns (k: nat, j: nat)
    requires i < |CompileTasks(tasks)|
    ensures k < |tasks| && j < |CompileTask(tasks[k])| && i == Offset(tasks, k) + j
    ensures CompileTasks(tasks)[i] == CompileTask(tasks[k])[j]
  {
    var n := |tasks| - 1;
    var rest := tasks[..n];
    if i < |CompileTasks(rest)| {
      k, j := StepOfTask(rest, i);
      assert rest[..k] == tasks[..k];
    } else {
      k, j := n, i - |CompileTasks(rest)|;
    }
  }

  /** The ids of the final steps: proper step ids, no task's, and all different. */
  predicate FinalId(id: string) {
    id != "" && AllStepChars(id) && id[0] != 'T'
  }

  lemma FinalIds()
    ensures FinalId(ASSEMBLY_VERIFY) && FinalId(USER_ACCEPTANCE) && FinalId(FINAL_VERIFIER)
            && FinalId(DIFF_REVIEW) && FinalId(FINAL_GATE)
  {
  }

  lemma FinalSteps()
    ensures forall i :: 0 <= i < |FINAL_STEPS| ==>
              FinalId(FINAL_STEPS[i].id) && FINAL_STEPS[i].taskId == "" && !FINAL_STEPS[i].kind.NotAllowed?
    ensures StepIds(FINAL_STEPS) == REQUIRED
  {
    FinalIds();
    var f := FINAL_STEPS;
    forall id | id in REQUIRED
      ensures id in StepIds(f)
    {
      assert f[0].id == ASSEMBLY_VERIFY && f[1].id == USER_ACCEPTANCE && f[2].id == FINAL_VERIFIER
             && f[3].id == DIFF_REVIEW && f[4].id == FINAL_GATE;
    }
  }

  // ---------------------------------------------------------------- theorems

  function Instance(tasks: seq<Task>): seq<Step> {
    CompileTasks(tasks) + FINAL_STEPS
  }

  lemma RequiredAreThere(tasks: seq<Task>)
    ensures REQUIRED <= StepIds(Instance(tasks))
  {
    FinalSteps();
    forall i | 0 <= i < |FINAL_STEPS|
      ensures FINAL_STEPS[i].id in StepIds(Instance(tasks))
    {
      assert Instance(tasks)[|CompileTasks(tasks)| + i] == FINAL_STEPS[i];
    }
  }

  lemma AsciiStepsValid(u: Unicode, tasks: seq<Task>, i: nat)
    requires u.Valid() && ValidManifest(u, tasks) && i < |Instance(tasks)|
    requires forall k :: 0 <= k < |tasks| ==> AsciiId(tasks[k].id)
    ensures ValidStep(Instance(tasks)[i], Ids(tasks))
  {
    var n := |CompileTasks(tasks)|;
    if i < n {
      var k, j := StepOfTask(tasks, i);
      assert Ids(tasks)[k] == tasks[k].id;
      TaskStepsValid(u, tasks[k], Ids(tasks));
    } else {
      FinalSteps();
      assert Instance(tasks)[i] == FINAL_STEPS[i - n];
    }
  }

  lemma OtherDigitsInvalid(u: Unicode, tasks: seq<Task>, k: nat) returns (i: nat)
    requires u.Valid() && ValidManifest(u, tasks) && k < |tasks| && !AsciiId(tasks[k].id)
    ensures i < |Instance(tasks)| && !ValidStep(Instance(tasks)[i], Ids(tasks))
  {
    TaskOrder(tasks, k);
    TaskSteps(u, tasks[k]);
    assert Ids(tasks)[k] == tasks[k].id;
    TaskStepsValid(u, tasks[k], Ids(tasks));
    i := Offset(tasks, k);
    assert CompileTasks(tasks)[i] == CompileTasks(tasks)[i..Offset(tasks, k + 1)][0] == CompileTask(tasks[k])[0];
  }

  /**
   * The compiler's output passes the instance validator exactly when the digits of the ids
   * are ASCII: a manifest with other digits passes its own validator, and what is compiled
   * from it does not.
   */
  lemma CompiledInstanceValidates(u: Unicode, tasks: seq<Task>)
    requires u.Valid() && ValidManifest(u, tasks)
    ensures ValidInstance(Instance(tasks), tasks) <==> forall i :: 0 <= i < |tasks| ==> AsciiId(tasks[i].id)
  {
    RequiredAreThere(tasks);
    if forall i :: 0 <= i < |tasks| ==> AsciiId(tasks[i].id) {
      forall i | 0 <= i < |Instance(tasks)|
        ensures ValidStep(Instance(tasks)[i], Ids(tasks))
      {
        AsciiStepsValid(u, tasks, i);
      }
    } else {
      var k :| 0 <= k < |tasks| && !AsciiId(tasks[k].id);
      var i := OtherDigitsInvalid(u, tasks, k);
    }
  }

  /** A table with the Arabic-Indic digits, which are decimal digits to Python as well. */
  function WithArabicIndicDigits(): Unicode {
    Unicode(c =>
      if '0' <= c <= '9' || '\U{0660}' <= c <= '\U{0669}' then Digit
      else if 'A' <= c <= 'Z' || 'a' <= c <= 'z' || c == '_' then OtherWord
      else if c == '\n' || c == ' ' then Space
      else Other)
  }

  /** And there are such manifests: an id in those digits passes, and what is compiled from it does not. */
  lemma OtherDigitsHappen(t: Task)
    requires t == Task("TASK-" + ['\U{0661}', '\U{0662}', '\U{0663}'], "Title", Build, [], [], ["Done"])
    ensures WithArabicIndicDigits().Valid()
    ensures ValidManifest(WithArabicIndicDigits(), [t]) && !ValidInstance(Instance([t]), [t])
  {
    var u := WithArabicIndicDigits();
    assert !u.IsSpace(t.title[0]);
    assert !AsciiId([t][0].id);
    CompiledInstanceValidates(u, [t]);
  }

  lemma TaskStepIdsDiffer(u: Unicode, tasks: seq<Task>, a: nat, b: nat)
    requires ValidManifest(u, tasks) && a < b < |CompileTasks(tasks)|
    ensures CompileTasks(tasks)[a].id != CompileTasks(tasks)[b].id
  {
    var k, i := StepOfTask(tasks, a);
    var l, j := StepOfTask(tasks, b);
    TaskSteps(u, tasks[k]);
    TaskSteps(u, tasks[l]);
    var s, t := CompileTask(tasks[k])[i], CompileTask(tasks[l])[j];
    if k == l {
      assert s.id[9] != t.id[9];
    } else {
      assert Ids(tasks)[k] != Ids(tasks)[l];
      assert s.id[..8] != t.id[..8];
    }
  }

  lemma TaskStepIsNotFinal(u: Unicode, tasks: seq<Task>, a: nat, f: nat)
    requires ValidManifest(u, tasks) && a < |CompileTasks(tasks)| && f < |FINAL_STEPS|
    ensures CompileTasks(tasks)[a].id != FINAL_STEPS[f].id
  {
    var k, i := StepOfTask(tasks, a);
    TaskSteps(u, tasks[k]);
    FinalSteps();
    var s := CompileTask(tasks[k])[i];
    assert s.id[0] == s.id[..8][0] == 'T';
  }

  /** Step ids are pairwise distinct. */
  lemma StepIdsDistinct(u: Unicode, tasks: seq<Task>, a: nat, b: nat)
    requires ValidManifest(u, tasks) && a < b < |Instance(tasks)|
    ensures Instance(tasks)[a].id != Instance(tasks)[b].id
  {
    var n := |CompileTasks(tasks)|;
    if b < n {
      TaskStepIdsDiffer(u, tasks, a, b);
    } else if a < n {
      TaskStepIsNotFinal(u, tasks, a, b - n);
    }
  }

  /** `repair` repairs what `verify` verifies. */
  predicate Repairs(verify: Step, repair: Step) {
    verify.kind == PythonTaskVerifier && verify.id == repair.onFailOf && verify.taskId == repair.taskId
  }

  lemma {:induction false} RepairCompiled(tasks: seq<Task>, i: nat)
    requires i < |CompileTasks(tasks)| && CompileTasks(tasks)[i].kind == RepairLoop
    ensures i > 0 && Repairs(CompileTasks(tasks)[i - 1], CompileTasks(tasks)[i])
  {
    var n := |tasks| - 1;
    var before := CompileTasks(tasks[..n]);
    if i < |before| {
      RepairCompiled(tasks[..n], i);
    }
  }

  /** Every repair step directly follows the verification it repairs. */
  lemma RepairFollowsVerify(tasks: seq<Task>, i: nat)
    requires i < |Instance(tasks)| && Instance(tasks)[i].kind == RepairLoop
    ensures i > 0 && Repairs(Instance(tasks)[i - 1], Instance(tasks)[i])
  {
    assert forall k :: 0 <= k < |FINAL_STEPS| ==> FINAL_STEPS[k].kind != RepairLoop;
    assert i < |CompileTasks(tasks)|;
    RepairCompiled(tasks, i);
  }

  /** The owner of a task decides what kinds of steps it needs. */
  predicate Needs(owner: Owner, kind: StepType) {
    match kind
    case PythonContext => owner == Planning
    case ExternalAcceptancePython => owner == RunExternalValidation
    case AgentBuild => owner !in {Planning, RunExternalValidation, GenerateTests}
    case AgentGenerateTests => owner !in {Planning, RunExternalValidation}
    case PythonTaskVerifier => owner !in {Planning, RunExternalValidation}
    case RepairLoop => owner !in {Planning, RunExternalValidation}
    case _ => false
  }

  /** First the code, then its tests, then the verification, then the repair. */
  function Stage(kind: StepType): nat {
    match kind case AgentGenerateTests => 1 case PythonTaskVerifier => 2 case RepairLoop => 3 case _ => 0
  }

  lemma NeededAreCompiled(t: Task, kind: StepType)
    ensures Needs(t.owner, kind) <==> exists j :: 0 <= j < |CompileTask(t)| && CompileTask(t)[j].kind == kind
    ensures var c := CompileTask(t); forall i, j :: 0 <= i < j < |c| ==> Stage(c[i].kind) < Stage(c[j].kind)
  {
    var c := CompileTask(t);
    if Needs(t.owner, kind) {
      var j := match t.owner
        case Planning => 0
        case RunExternalValidation => 0
        case GenerateTests => Stage(kind) - 1
        case _ => Stage(kind);
      assert c[j].kind == kind;
    }
  }

  lemma FinalStepsHaveNoTask(tasks: seq<Task>, i: nat)
    requires |CompileTasks(tasks)| <= i < |Instance(tasks)|
    ensures Instance(tasks)[i].taskId == ""
  {
    FinalSteps();
    assert Instance(tasks)[i] == FINAL_STEPS[i - |CompileTasks(tasks)|];
  }

  lemma StepsAreOwn(t: Task)
    ensures forall j :: 0 <= j < |CompileTask(t)| ==> CompileTask(t)[j].taskId == t.id
  {
  }

  lemma TaskIdsDiffer(u: Unicode, tasks: seq<Task>, k: nat, l: nat)
    requires ValidManifest(u, tasks) && k < |tasks| && l < |tasks|
    ensures tasks[k].id != ""
    ensures tasks[k].id == tasks[l].id ==> k == l
  {
    assert ValidTask(u, tasks[k], Ids(tasks));
    assert Ids(tasks)[k] == tasks[k].id && Ids(tasks)[l] == tasks[l].id;
  }

  lemma StepIsOfTask(u: Unicode, tasks: seq<Task>, i: nat, k: nat) returns (j: nat)
    requires ValidManifest(u, tasks) && k < |tasks|
    requires i < |Instance(tasks)| && Instance(tasks)[i].taskId == tasks[k].id
    ensures j < |CompileTask(tasks[k])| && i == Offset(tasks, k) + j
    ensures Instance(tasks)[i] == CompileTask(tasks[k])[j]
  {
    TaskIdsDiffer(u, tasks, k, k);
    if i >= |CompileTasks(tasks)| {
      FinalStepsHaveNoTask(tasks, i);
    }
    var l;
    l, j := StepOfTask(tasks, i);
    StepsAreOwn(tasks[l]);
    TaskIdsDiffer(u, tasks, k, l);
  }

  lemma SliceBehind<T>(all: seq<T>, end: seq<T>, start: nat, part: seq<T>, j: nat)
    requires start + |part| <= |all| && all[start..start + |part|] == part && j < |part|
    ensures start + j < |all + end| && (all + end)[start + j] == part[j]
  {
    assert all[start..start + |part|][j] == all[start + j];
  }

  /** Where a task's own step is in the instance. */
  lemma StepOfTaskIs(tasks: seq<Task>, k: nat, j: nat) returns (i: nat)
    requires k < |tasks| && j < |CompileTask(tasks[k])|
    ensures i < |Instance(tasks)| && Instance(tasks)[i] == CompileTask(tasks[k])[j]
    ensures Instance(tasks)[i].taskId == tasks[k].id
  {
    i := Offset(tasks, k) + j;
    TaskOrder(tasks, k);
    StepsAreOwn(tasks[k]);
    SliceBehind(CompileTasks(tasks), FINAL_STEPS, Offset(tasks, k), CompileTask(tasks[k]), j);
  }

  predicate HasStep(steps: seq<Step>, taskId: string, kind: StepType) {
    exists i :: 0 <= i < |steps| && steps[i].taskId == taskId && steps[i].kind == kind
  }

  /** A task has a step of a kind if and only if its owner needs one. */
  lemma StepsByOwner(u: Unicode, tasks: seq<Task>, k: nat, kind: StepType)
    requires ValidManifest(u, tasks) && k < |tasks|
    ensures HasStep(Instance(tasks), tasks[k].id, kind) <==> Needs(tasks[k].owner, kind)
  {
    NeededAreCompiled(tasks[k], kind);
    if Needs(tasks[k].owner, kind) {
      var j :| 0 <= j < |CompileTask(tasks[k])| && CompileTask(tasks[k])[j].kind == kind;
      var i := StepOfTaskIs(tasks, k, j);
    } else if HasStep(Instance(tasks), tasks[k].id, kind) {
      var i :| 0 <= i < |Instance(tasks)| && Instance(tasks)[i].taskId == tasks[k].id
               && Instance(tasks)[i].kind == kind;
      var j := StepIsOfTask(u, tasks, i, k);
    }
  }

  /** And no two of one kind: the stages of a task's steps rise. */
  lemma StagesRise(u: Unicode, tasks: seq<Task>, k: nat, a: nat, b: nat)
    requires ValidManifest(u, tasks) && k < |tasks| && a < b < |Instance(tasks)|
    requires Instance(tasks)[a].taskId == Instance(tasks)[b].taskId == tasks[k].id
    ensures Stage(Instance(tasks)[a].kind) < Stage(Instance(tasks)[b].kind)
  {
    var i := StepIsOfTask(u, tasks, a, k);
    var j := StepIsOfTask(u, tasks, b, k);
    NeededAreCompiled(tasks[k], RepairLoop);
  }

  /** The number of steps is the sum of the tasks' weights and the five final steps; the gate comes last. */
  lemma InstanceShape(tasks: seq<Task>)
    ensures |Instance(tasks)| == TotalWeight(tasks) + 5
    ensures var n, steps := TotalWeight(tasks), Instance(tasks);
            && steps[n].kind == AssemblyVerifier && steps[n + 1].kind == ExternalAcceptancePython
            && steps[n + 2].kind == EvidenceVerifier && steps[n + 3].kind == DiffReviewerAgent
            && steps[n + 4] == Step(FINAL_GATE, FinalGate, "", "")
  {
    StepCount(tasks);
  }
}
