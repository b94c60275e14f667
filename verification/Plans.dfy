/** The plan document shared by the graph, the compiler, the audit engine and the seal. */
module Plans {
  import opened Sequences

  datatype RawAction = RawAction(step: int, preconditions: seq<string>, addEffects: seq<string>, delEffects: seq<string>)

  /** The `formal_planning` object as it is written in a plan. */
  datatype RawContract = RawContract(version: int, initial: seq<string>, goals: seq<string>, actions: seq<RawAction>)

  /** A verification check; `body` stands for the fields that are only ever compared. */
  datatype Check = Check(kind: string, argv: Option<seq<string>>, formal: Option<RawContract>, body: string)

  datatype Output = Output(name: string, meta: string, verify: seq<Check>)

  datatype OutputRef = OutputRef(step: int, name: string)

  datatype Step = Step(id: int, title: string, dependsOn: Option<seq<int>>, requiresOutputs: seq<OutputRef>,
                       outputs: seq<Output>, covers: seq<string>, verify: seq<Check>)

  datatype Requirement = Requirement(id: string, description: string, priority: string)

  datatype Plan = Plan(task: string, requirements: seq<Requirement>, requiredTools: seq<string>, steps: seq<Step>)

  function StepIds(steps: seq<Step>): (r: seq<int>)
    ensures |r| == |steps|
    ensures forall i :: 0 <= i < |steps| ==> r[i] == steps[i].id
  {
    seq(|steps|, i requires 0 <= i < |steps| => steps[i].id)
  }

  function OutputNames(step: Step): (r: seq<string>)
    ensures |r| == |step.outputs|
    ensures forall i :: 0 <= i < |r| ==> r[i] == step.outputs[i].name
  {
    seq(|step.outputs|, i requires 0 <= i < |step.outputs| => step.outputs[i].name)
  }
}
