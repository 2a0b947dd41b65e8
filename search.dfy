/** The search box and the header statistics of the main window (src/App.tsx:37-49). */
module Search {
  import opened Seqs
  import opened Strings
  import opened Types

  /** The name or the description holds the query, both lowercased; the query itself is
      not trimmed. */
  predicate Matches(skill: Skill, query: string)
  {
    Contains(ToLower(skill.name), ToLower(query)) || Contains(ToLower(skill.description), ToLower(query))
  }

  /** `filteredSkills`: a blank query shows the category's skills unchanged; any other
      shows exactly the matching ones, in their order. */
  function FilteredSkills(skillsInCategory: seq<Skill>, query: string): (r: seq<Skill>)
    ensures Trim(query) == [] ==> r == skillsInCategory
    ensures Trim(query) != [] ==>
      && SubSeq(r, skillsInCategory)
      && forall s :: s in r <==> s in skillsInCategory && Matches(s, query)
  {
    if Trim(query) == [] then skillsInCategory
    else
      FilterSubSeq(skillsInCategory, (s: Skill) => Matches(s, query));
      Filter(skillsInCategory, (s: Skill) => Matches(s, query))
  }

  /** Is the skill enabled. */
  predicate IsEnabled(s: Skill)
  {
    s.enabled
  }

  /** `totalSkills`: over every loaded skill, not only the selected category's. */
  function TotalSkills(skills: seq<Skill>): nat
  {
    |skills|
  }

  /** `enabledSkills`: the enabled ones among every loaded skill. */
  function EnabledSkills(skills: seq<Skill>): (r: nat)
    ensures r <= TotalSkills(skills)
  {
    |Filter(skills, IsEnabled)|
  }

  /** Every skill is enabled exactly when the two statistics agree, and none is when the
      enabled count is zero. */
  lemma {:induction false} EnabledSkillsBounds(skills: seq<Skill>)
    ensures EnabledSkills(skills) == TotalSkills(skills) <==> forall s :: s in skills ==> s.enabled
    ensures EnabledSkills(skills) == 0 <==> forall s :: s in skills ==> !s.enabled
  {
    if skills != [] {
      EnabledSkillsBounds(skills[1..]);
      assert skills == [skills[0]] + skills[1..];
      assert forall s :: s in skills <==> s == skills[0] || s in skills[1..];
    }
  }
}
