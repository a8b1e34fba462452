/** The fixed vocabulary of config.py: the pipeline stage order and the job family labels. */
module Config {

  /** STAGE_ORDER: the pipeline stages, first to last. */
  const StageOrder: seq<string> := [
    "Prospect", "Warm Lead", "Applied",
    "Recruiter Screen", "HM Interview",
    "Loop", "Offer Pending", "Closed"
  ]

  const Initial: string := "Prospect"
  const AppliedStage: string := "Applied"
  const Terminal: string := "Closed"

  /** JOB_FAMILIES: family code to label. */
  const JobFamilies: map<string, string> := map[
    "A" := "Analytics Manager",
    "B" := "Data Manager",
    "C" := "BI Manager",
    "D" := "Decision Science",
    "E" := "Director Stretch"
  ]

  predicate IsStage(s: string) {
    s in StageOrder
  }

  /** Position of a stage in the pipeline order. */
  function StageIndex(s: string): (i: nat)
    requires IsStage(s)
    ensures i < |StageOrder| && StageOrder[i] == s
    ensures forall j :: 0 <= j < i ==> StageOrder[j] != s
  {
    IndexFrom(s, 0)
  }

  function IndexFrom(s: string, from: nat): (i: nat)
    requires from <= |StageOrder|
    requires s in StageOrder[from..]
    ensures from <= i < |StageOrder| && StageOrder[i] == s
    ensures forall j :: from <= j < i ==> StageOrder[j] != s
    decreases |StageOrder| - from
  {
    if StageOrder[from] == s then from else IndexFrom(s, from + 1)
  }

  /** The stages at or after "Applied" in the pipeline order. */
  predicate AppliedOrLater(s: string) {
    IsStage(s) && StageIndex(s) >= StageIndex(AppliedStage)
  }

  lemma StageOrderDistinct()
    ensures |StageOrder| == 8
    ensures forall i, j :: 0 <= i < j < |StageOrder| ==> StageOrder[i] != StageOrder[j]
  {
  }

  lemma StageOrderEnds()
    ensures StageOrder[0] == Initial && StageOrder[|StageOrder| - 1] == Terminal
    ensures StageIndex(Initial) == 0 && StageIndex(Terminal) == 7
  {
  }

  lemma AppliedPosition()
    ensures StageIndex(AppliedStage) == 2
    ensures StageOrder[..2] == ["Prospect", "Warm Lead"]
    ensures StageOrder[3] == "Recruiter Screen"
  {
  }

  lemma JobFamilyLabels()
    ensures JobFamilies.Keys == {"A", "B", "C", "D", "E"}
    ensures forall a, b :: a in JobFamilies && b in JobFamilies && a != b ==> JobFamilies[a] != JobFamilies[b]
  {
  }
}
