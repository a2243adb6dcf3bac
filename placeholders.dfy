/** `SimpleSearchTool.search`: a placeholder that echoes the query. */
module SimpleSearchTool {

  const ResultPrefix := "Search results for: "
  const ResultNote := " (Note: Web search functionality requires crewai_tools)"

  /** The canned answer quotes the query verbatim between a fixed prefix
      and a fixed note. */
  function Search(query: string): (r: string)
    ensures |r| == |ResultPrefix| + |query| + |ResultNote|
    ensures r[..|ResultPrefix|] == ResultPrefix
    ensures r[|ResultPrefix|..|ResultPrefix| + |query|] == query
    ensures r[|ResultPrefix| + |query|..] == ResultNote
  {
    ResultPrefix + query + ResultNote
  }

  /** The query can be read back from the answer: different queries get
      different answers. */
  lemma SearchInjective(q1: string, q2: string)
    requires Search(q1) == Search(q2)
    ensures q1 == q2
  {
    var r := Search(q1);
    assert q1 == r[|ResultPrefix|..|ResultPrefix| + |q1|];
  }
}

/** `ExerciseTool.create_exercise_plan_tool`: a placeholder. */
module ExerciseTool {

  const Placeholder := "Exercise planning functionality to be implemented"

  /** The same fixed answer whatever the report. */
  function CreateExercisePlanTool(bloodReportData: string): (plan: string)
    ensures plan == Placeholder
  {
    Placeholder
  }
}
