/** The job-type select box and the filter value handed to the scraper. */
module JobType {
  import opened Wrappers

  /** The options of the select box, in display order; the first is the default. */
  const JobTypeOptions: seq<string> := ["Any", "Full-time", "Part-time", "Contract", "Internship"]

  /** The option that means "no job-type filter". */
  const AnyOption: string := "Any"

  /** ASCII lower-casing of one character; every other character is unchanged. */
  function LowerChar(ch: char): (r: char)
    ensures 'A' <= ch <= 'Z' ==> r as int == ch as int + 32
    ensures !('A' <= ch <= 'Z') ==> r == ch
  {
    if 'A' <= ch <= 'Z' then (ch as int + 32) as char else ch
  }

  /** `str.lower()` on ASCII text. */
  function Lower(s: string): (r: string)
    ensures |r| == |s|
    ensures forall i :: 0 <= i < |s| ==> r[i] == LowerChar(s[i])
  {
    seq(|s|, i requires 0 <= i < |s| => LowerChar(s[i]))
  }

  /** No upper-case ASCII letter occurs. */
  predicate NoUpper(s: string)
  {
    forall i :: 0 <= i < |s| ==> !('A' <= s[i] <= 'Z')
  }

  /** The scraper's `job_type` argument: `None` for the sentinel, otherwise the
      lower-cased option. */
  function JobTypeFilter(option: string): (r: Option<string>)
    ensures r == None <==> option == AnyOption
    ensures r != None ==> |r.value| == |option| && NoUpper(r.value)
    ensures r != None ==> forall i :: 0 <= i < |option| ==> r.value[i] == LowerChar(option[i])
  {
    if option != AnyOption then Some(Lower(option)) else None
  }

  /** Lower-casing leaves no upper-case letter and is idempotent. */
  lemma LowerIdempotent(s: string)
    ensures NoUpper(Lower(s))
    ensures Lower(Lower(s)) == Lower(s)
  {
  }

  /** The mapping of every option of the select box. */
  lemma JobTypeFilterOnOptions()
    ensures JobTypeFilter(JobTypeOptions[0]) == None
    ensures JobTypeFilter(JobTypeOptions[1]) == Some("full-time")
    ensures JobTypeFilter(JobTypeOptions[2]) == Some("part-time")
    ensures JobTypeFilter(JobTypeOptions[3]) == Some("contract")
    ensures JobTypeFilter(JobTypeOptions[4]) == Some("internship")
  {
    assert Lower("Full-time") == "full-time";
    assert Lower("Part-time") == "part-time";
    assert Lower("Contract") == "contract";
    assert Lower("Internship") == "internship";
  }

  /** Distinct options give distinct filters, so the scraper can tell every
      choice of the select box apart. */
  lemma JobTypeFilterInjectiveOnOptions(i: nat, j: nat)
    requires i < |JobTypeOptions| && j < |JobTypeOptions| && i != j
    ensures JobTypeFilter(JobTypeOptions[i]) != JobTypeFilter(JobTypeOptions[j])
  {
    JobTypeFilterOnOptions();
  }
}
