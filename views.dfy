/** The derived views of the engine state (src/hooks/useSkills.ts:113-139). */
module Views {
  import opened Wrappers
  import opened Seqs
  import opened Types

  /** `config.categoryOrder || Object.keys(config.categories)`. */
  function CategoriesView(cfg: Config): seq<string>
  {
    cfg.categoryOrder.GetOr(cfg.categories.keys)
  }

  /** The tabs shown: with a consistent order, each category once and nothing else; an
      empty order array is truthy in JavaScript and hides every category. */
  lemma CategoriesViewShowsKeys(cfg: Config)
    ensures OrderConsistent(cfg) ==>
      Distinct(CategoriesView(cfg)) &&
      forall k :: k in CategoriesView(cfg) <==> k in cfg.categories.lists
    ensures cfg.categoryOrder == Some([]) ==> CategoriesView(cfg) == []
    ensures cfg.categoryOrder.None? && cfg.categories.Valid() ==>
      forall k :: k in CategoriesView(cfg) <==> k in cfg.categories.lists
  {
  }

  /** The skills listed under the selected category, in the order of `skills`. */
  function SkillsInCategory(skills: seq<Skill>, cats: Categories, selected: string): (r: seq<Skill>)
    ensures SubSeq(r, skills)
    ensures forall s :: s in r <==> s in skills && s.name in cats.Get(selected)
  {
    FilterSubSeq(skills, (s: Skill) => s.name in cats.Get(selected));
    Filter(skills, (s: Skill) => s.name in cats.Get(selected))
  }

  /** `skillCounts[cat]`: the entries of a list that name an existing skill. */
  function SkillCount(skills: seq<Skill>, list: seq<string>): (r: nat)
    ensures r <= |list|
    ensures (forall n :: n in list ==> n in Names(skills)) ==> r == |list|
    ensures (forall n :: n in list ==> n !in Names(skills)) ==> r == 0
  {
    ExistingFilterBounds(list, Names(skills));
    |Filter(list, n => n in Names(skills))|
  }

  lemma ExistingFilterBounds(list: seq<string>, names: seq<string>)
    ensures (forall n :: n in list ==> n in names) ==> Filter(list, n => n in names) == list
    ensures (forall n :: n in list ==> n !in names) ==> Filter(list, n => n in names) == []
  {
    if forall n :: n in list ==> n in names {
      FilterAll(list, n => n in names);
    }
    if forall n :: n in list ==> n !in names {
      FilterNone(list, n => n in names);
    }
  }

  /** `enabledCounts[cat]`: the skills that are listed and enabled. */
  function EnabledCount(skills: seq<Skill>, list: seq<string>): (r: nat)
    ensures r <= |skills|
    ensures r == |skills| <==> forall s :: s in skills ==> s.name in list && s.enabled
    ensures r == 0 <==> forall s :: s in skills ==> !(s.name in list && s.enabled)
  {
    FilterLength(skills, (s: Skill) => s.name in list && s.enabled);
    |Filter(skills, (s: Skill) => s.name in list && s.enabled)|
  }

  /** `skillCounts`: one count per key of the record. */
  function SkillCounts(skills: seq<Skill>, cats: Categories): (r: map<string, nat>)
    ensures r.Keys == cats.lists.Keys
    ensures forall k :: k in r ==> r[k] == SkillCount(skills, cats.lists[k]) && r[k] <= |cats.lists[k]|
  {
    map k | k in cats.lists :: SkillCount(skills, cats.lists[k])
  }

  /** `enabledCounts`: one count per key of the record. */
  function EnabledCounts(skills: seq<Skill>, cats: Categories): (r: map<string, nat>)
    ensures r.Keys == cats.lists.Keys
    ensures forall k :: k in r ==> r[k] == EnabledCount(skills, cats.lists[k]) && r[k] <= |skills|
  {
    map k | k in cats.lists :: EnabledCount(skills, cats.lists[k])
  }

  /** The existing skill names a list mentions. */
  ghost function ListedExisting(skills: seq<Skill>, list: seq<string>): set<string>
  {
    set n | n in list && n in Names(skills)
  }

  lemma {:induction false} EnabledAtMostListed(skills: seq<Skill>, list: seq<string>)
    requires Distinct(Names(skills))
    ensures EnabledCount(skills, list) <= |ListedExisting(skills, list)|
  {
    if skills != [] {
      var s0 := skills[0];
      var rest := skills[1..];
      assert Names(rest) == Names(skills)[1..];
      assert Distinct(Names(rest));
      EnabledAtMostListed(rest, list);
      assert s0.name !in Names(rest) by {
        assert Names(skills)[0] == s0.name;
      }
      assert Names(skills) == [s0.name] + Names(rest);
      if s0.name in list {
        assert ListedExisting(skills, list) == ListedExisting(rest, list) + {s0.name};
      } else {
        assert ListedExisting(skills, list) == ListedExisting(rest, list);
      }
    }
  }

  /** With unique skill names, a category never has more enabled skills than skills. */
  lemma EnabledAtMostCount(skills: seq<Skill>, list: seq<string>)
    requires Distinct(Names(skills))
    ensures EnabledCount(skills, list) <= SkillCount(skills, list)
  {
    EnabledAtMostListed(skills, list);
    var kept := Filter(list, n => n in Names(skills));
    assert Elems(kept) == ListedExisting(skills, list);
    CardAtMost(kept);
  }

  /** With unique skill names, no tab shows more enabled skills than skills. */
  lemma EnabledCountsAtMostSkillCounts(skills: seq<Skill>, cats: Categories)
    requires Distinct(Names(skills))
    ensures forall k :: k in cats.lists ==> EnabledCounts(skills, cats)[k] <= SkillCounts(skills, cats)[k]
  {
    forall k | k in cats.lists
      ensures EnabledCounts(skills, cats)[k] <= SkillCounts(skills, cats)[k]
    {
      EnabledAtMostCount(skills, cats.lists[k]);
    }
  }
}
