/** The state engine behind the user interface (`useSkills`, src/hooks/useSkills.ts:48-327):
    the loaded skills, the configuration, the selected category and the selected skill.
    Backend calls are not made here; their outcomes are parameters and the requests and
    saved configurations are results. */
module Engine {
  import opened Wrappers
  import opened Seqs
  import opened Strings
  import opened Types
  import opened Normalize
  import opened Views
  import opened SkillPaths
  import opened CategoryOps
  import opened Guards

  /** A `toggle_skill` request. */
  datatype ToggleRequest = ToggleRequest(skillName: string, enabled: bool)

  /** What `load_skills` and `load_config` returned together. */
  datatype Loaded = Loaded(skills: seq<Skill>, config: Config)

  /** The skills whose name is listed moved to the new state, paths rewritten; the others
      unchanged. */
  function SetEnabled(skills: seq<Skill>, names: seq<string>, enabled: bool): (r: seq<Skill>)
    ensures |r| == |skills| && Names(r) == Names(skills)
    ensures forall i :: 0 <= i < |skills| && skills[i].name in names ==>
      r[i].enabled == enabled && r[i].path == UpdatePath(skills[i].path, enabled)
    ensures forall i :: 0 <= i < |skills| && skills[i].name !in names ==> r[i] == skills[i]
  {
    seq(|skills|, i requires 0 <= i < |skills| =>
      if skills[i].name in names then UpdateSkillPaths(skills[i], enabled) else skills[i])
  }

  /** Disabling some enabled skills and enabling them again restores the list, provided no
      path of theirs held `/disabled-skills/`. */
  lemma SetEnabledRoundTrip(skills: seq<Skill>, names: seq<string>)
    requires forall s :: s in skills && s.name in names ==>
      s.enabled && !Contains(s.path, DisabledSegment) &&
      forall f :: f in s.files ==> !Contains(f.path, DisabledSegment)
    ensures SetEnabled(SetEnabled(skills, names, false), names, true) == skills
  {
    var r := SetEnabled(SetEnabled(skills, names, false), names, true);
    forall i | 0 <= i < |skills| ensures r[i] == skills[i] {
      assert skills[i] in skills;
      if skills[i].name in names {
        DisableEnableSkill(skills[i]);
      }
    }
  }

  /** `skills.find(s => s.name === name)`: the first skill of that name. */
  function FindSkill(skills: seq<Skill>, name: string): (r: Option<Skill>)
    ensures r.None? <==> name !in Names(skills)
    ensures r.Some? ==> r.value.name == name && exists i :: FirstNamed(skills, name, i) && skills[i] == r.value
  {
    if skills == [] then None
    else if skills[0].name == name then Some(skills[0])
    else
      var r := FindSkill(skills[1..], name);
      FindSkillStep(skills, name, r);
      r
  }

  /** The search past a first skill of another name: what holds of the rest holds of the
      whole, one position later. */
  lemma FindSkillStep(skills: seq<Skill>, name: string, r: Option<Skill>)
    requires skills != [] && skills[0].name != name
    requires r.None? <==> name !in Names(skills[1..])
    requires r.Some? ==> exists i :: FirstNamed(skills[1..], name, i) && skills[1..][i] == r.value
    ensures r.None? <==> name !in Names(skills)
    ensures r.Some? ==> exists i :: FirstNamed(skills, name, i) && skills[i] == r.value
  {
    NamesCons(skills);
    if r.Some? {
      var i :| FirstNamed(skills[1..], name, i) && skills[1..][i] == r.value;
      assert FirstNamed(skills, name, i + 1);
    }
  }

  /** The names of a non-empty list: the first, then the rest's. */
  lemma NamesCons(skills: seq<Skill>)
    requires skills != []
    ensures Names(skills) == [skills[0].name] + Names(skills[1..])
  {
    var a := Names(skills);
    var b := [skills[0].name] + Names(skills[1..]);
    assert |a| == |b|;
    forall i | 0 <= i < |a| ensures a[i] == b[i] {
      if i > 0 {
        assert b[i] == Names(skills[1..])[i - 1] == skills[1..][i - 1].name;
      }
    }
  }

  /** `i` is the position of the first skill called `name`. */
  predicate FirstNamed(skills: seq<Skill>, name: string, i: int)
  {
    0 <= i < |skills| && skills[i].name == name && forall j :: 0 <= j < i ==> skills[j].name != name
  }

  /** The names whose request was rejected, in request order (the entries logged by
      `setEnabledForCategory`). */
  function Failures(names: seq<string>, outcomes: seq<Outcome>): (r: seq<string>)
    requires |outcomes| == |names|
    ensures |r| <= |names|
    ensures forall i :: 0 <= i < |names| && outcomes[i].Failed? ==> names[i] in r
    ensures forall n :: n in r ==> exists i :: 0 <= i < |names| && names[i] == n && outcomes[i].Failed?
    ensures |r| == |Filter(outcomes, (o: Outcome) => o.Failed?)|
    ensures SubSeq(r, names)
  {
    if names == [] then []
    else
      var rest := Failures(names[1..], outcomes[1..]);
      var r := (if outcomes[0].Failed? then [names[0]] else []) + rest;
      assert SubSeq(r, names) by {
        if outcomes[0].Failed? {
          assert r[0] == names[0] && r[1..] == rest;
        } else {
          assert r == rest;
        }
      }
      r
  }

  /** After a reload the selection stays when it is a category, and otherwise moves to the
      first category when there is one. */
  function ReloadSelection(order: seq<string>, selected: string): (r: string)
    ensures |order| > 0 ==> r in order
    ensures selected in order ==> r == selected
    ensures order == [] ==> r == selected
  {
    if |order| > 0 && selected !in order then order[0] else selected
  }

  /** After removing a category, a selection of that category moves to the first remaining
      one, or to the empty name when none remains. */
  function RemoveSelection(order: seq<string>, selected: string, name: string): string
  {
    if selected == name then
      var remaining := Remove(order, name);
      if |remaining| > 0 then remaining[0] else ""
    else selected
  }

  /** With at least two distinct categories, a selected category is still a category
      after any one is removed. */
  lemma RemoveSelectionStays(order: seq<string>, selected: string, name: string)
    requires Distinct(order) && |order| >= 2 && selected in order
    ensures RemoveSelection(order, selected, name) in Remove(order, name)
    ensures selected != name ==> RemoveSelection(order, selected, name) == selected
  {
    var remaining := Remove(order, name);
    if order[0] != name {
      assert order[0] in remaining;
    } else {
      assert order[1] in remaining;
    }
  }

  /** Removing a category from a consistent configuration keeps it consistent and keeps a
      selected category selectable. */
  lemma RemoveCategoryConsistent(cfg: Config, selected: string, name: string)
    requires OrderConsistent(cfg) && |cfg.categoryOrder.value| > 1
    ensures OrderConsistent(RemovedCategory(cfg, name))
    ensures selected in cfg.categoryOrder.value ==>
      RemoveSelection(cfg.categoryOrder.value, selected, name) in RemovedCategory(cfg, name).categoryOrder.value
  {
    RemoveKeepsConsistent(cfg, name);
    if selected in cfg.categoryOrder.value {
      RemoveSelectionStays(cfg.categoryOrder.value, selected, name);
    }
  }

  /** A delete the editor offers on the engine's tabs always passes the engine's
      last-category rule, since a valid engine always holds an order. */
  lemma OfferedDeleteAccepted(e: SkillsEngine)
    requires e.Valid() && DeleteVisible(CategoriesView(e.config))
    ensures |e.config.categoryOrder.GetOr([])| > 1
  {
    DeleteVisibleNotRefused(e.config);
  }

  /** The engine state. `error` is the message of the last failed reload. */
  class SkillsEngine {
    var skills: seq<Skill>
    var config: Config
    var selectedCategory: string
    var selectedSkill: Option<Skill>
    var error: Option<string>

    /** The record is well formed and an order is present, as every operation leaves it. */
    ghost predicate Valid()
      reads this
    {
      config.categories.Valid() && config.categoryOrder.Some?
    }

    /** The order lists every category exactly once. */
    ghost predicate Consistent()
      reads this
    {
      OrderConsistent(config)
    }

    constructor ()
      ensures Valid()
      ensures skills == [] && config == Config(NoCategories, Some([]))
      ensures selectedCategory == "" && selectedSkill == None && error == None
    {
      skills := [];
      config := Config(NoCategories, Some([]));
      selectedCategory := "";
      selectedSkill := None;
      error := None;
    }

    /** `reload`: nothing before the app is ready; a failed load keeps the data and records
        the error; a successful one replaces skills and configuration and repairs the
        selection. */
    method Reload(isReady: bool, loaded: Result<Loaded>)
      requires Valid()
      requires loaded.Ok? ==> loaded.value.config.categories.Valid()
      modifies this
      ensures Valid()
      ensures !isReady ==> unchanged(this)
      ensures isReady && loaded.Err? ==>
        && skills == old(skills) && config == old(config)
        && selectedCategory == old(selectedCategory) && selectedSkill == old(selectedSkill)
        && error == Some(loaded.error)
      ensures isReady && loaded.Ok? ==>
        && skills == loaded.value.skills
        && config == Normalized(loaded.value.skills, loaded.value.config)
        && selectedCategory == ReloadSelection(config.categoryOrder.value, old(selectedCategory))
        && selectedSkill == old(selectedSkill) && error == None
      ensures isReady && loaded.Ok? ==>
        (loaded.value.config.categoryOrder.Some? ==> Distinct(loaded.value.config.categoryOrder.value)) ==>
        Consistent()
    {
      if !isReady {
        return;
      }
      error := None;
      match loaded {
        case Err(e) =>
          error := Some(e);
        case Ok(data) =>
          var normalized := NormalizeConfig(data.skills, data.config);
          if data.config.categoryOrder.None? || Distinct(data.config.categoryOrder.value) {
            NormalizedConsistent(data.skills, data.config);
          }
          var selection := ReloadSelection(normalized.categoryOrder.value, selectedCategory);
          skills, config, selectedCategory := data.skills, normalized, selection;
      }
    }

    method SelectCategory(name: string)
      modifies this
      ensures selectedCategory == name
      ensures skills == old(skills) && config == old(config) && selectedSkill == old(selectedSkill)
      ensures error == old(error)
    {
      selectedCategory := name;
    }

    method SelectSkill(skill: Option<Skill>)
      modifies this
      ensures selectedSkill == skill
      ensures skills == old(skills) && config == old(config) && selectedCategory == old(selectedCategory)
      ensures error == old(error)
    {
      selectedSkill := skill;
    }

    /** `setEnabledForSkillNames`: the listed skills and the selected skill, when it is one
        of them, take the new state. */
    method SetEnabledForSkillNames(names: seq<string>, enabled: bool)
      modifies this
      ensures skills == SetEnabled(old(skills), names, enabled)
      ensures selectedSkill == if old(selectedSkill).Some? && old(selectedSkill).value.name in names
        then Some(UpdateSkillPaths(old(selectedSkill).value, enabled)) else old(selectedSkill)
      ensures config == old(config) && selectedCategory == old(selectedCategory) && error == old(error)
    {
      skills := SetEnabled(skills, names, enabled);
      if selectedSkill.Some? && selectedSkill.value.name in names {
        selectedSkill := Some(UpdateSkillPaths(selectedSkill.value, enabled));
      }
    }

    /** `toggleSkill`: an unknown name sends nothing; otherwise the flipped state is
        requested and applied locally only once the backend has done it. */
    method ToggleSkill(skillName: string, outcome: Outcome) returns (request: Option<ToggleRequest>)
      modifies this
      ensures var found := FindSkill(old(skills), skillName);
        request == if found.None? then None else Some(ToggleRequest(skillName, !found.value.enabled))
      ensures request.Some? && outcome.Done? ==>
        && skills == SetEnabled(old(skills), [skillName], request.value.enabled)
        && selectedSkill == if old(selectedSkill).Some? && old(selectedSkill).value.name == skillName
             then Some(UpdateSkillPaths(old(selectedSkill).value, request.value.enabled))
             else old(selectedSkill)
      ensures request.None? || outcome.Failed? ==>
        skills == old(skills) && selectedSkill == old(selectedSkill)
      ensures config == old(config) && selectedCategory == old(selectedCategory) && error == old(error)
    {
      var found := FindSkill(skills, skillName);
      if found.None? {
        return None;
      }
      var newEnabled := !found.value.enabled;
      request := Some(ToggleRequest(skillName, newEnabled));
      if outcome.Done? {
        SetEnabledForSkillNames([skillName], newEnabled);
      }
    }

    /** `setEnabledForCategory`: one request per listed name, every rejection reported, and
        every listed skill updated locally whatever the outcomes. */
    method SetEnabledForCategory(enabled: bool, outcomes: seq<Outcome>)
      returns (requests: seq<ToggleRequest>, failures: seq<string>)
      requires |outcomes| == |config.categories.Get(selectedCategory)|
      modifies this
      ensures var names := old(config.categories.Get(selectedCategory));
        && |requests| == |names|
        && (forall i :: 0 <= i < |names| ==> requests[i] == ToggleRequest(names[i], enabled))
        && failures == Failures(names, outcomes)
        && skills == SetEnabled(old(skills), names, enabled)
        && selectedSkill == if old(selectedSkill).Some? && old(selectedSkill).value.name in names
             then Some(UpdateSkillPaths(old(selectedSkill).value, enabled)) else old(selectedSkill)
      ensures config == old(config) && selectedCategory == old(selectedCategory) && error == old(error)
    {
      var names := config.categories.Get(selectedCategory);
      requests := seq(|names|, i requires 0 <= i < |names| => ToggleRequest(names[i], enabled));
      failures := Failures(names, outcomes);
      SetEnabledForSkillNames(names, enabled);
    }

    /** `enableAllInCategory`: `SetEnabledForCategory` with the target state on. */
    method EnableAllInCategory(outcomes: seq<Outcome>)
      returns (requests: seq<ToggleRequest>, failures: seq<string>)
      requires |outcomes| == |config.categories.Get(selectedCategory)|
      modifies this
      ensures var names := old(config.categories.Get(selectedCategory));
        && |requests| == |names|
        && (forall i :: 0 <= i < |names| ==> requests[i] == ToggleRequest(names[i], true))
        && failures == Failures(names, outcomes)
        && skills == SetEnabled(old(skills), names, true)
        && selectedSkill == if old(selectedSkill).Some? && old(selectedSkill).value.name in names
             then Some(UpdateSkillPaths(old(selectedSkill).value, true)) else old(selectedSkill)
      ensures config == old(config) && selectedCategory == old(selectedCategory) && error == old(error)
    {
      requests, failures := SetEnabledForCategory(true, outcomes);
    }

    /** `disableAllInCategory`: `SetEnabledForCategory` with the target state off. */
    method DisableAllInCategory(outcomes: seq<Outcome>)
      returns (requests: seq<ToggleRequest>, failures: seq<string>)
      requires |outcomes| == |config.categories.Get(selectedCategory)|
      modifies this
      ensures var names := old(config.categories.Get(selectedCategory));
        && |requests| == |names|
        && (forall i :: 0 <= i < |names| ==> requests[i] == ToggleRequest(names[i], false))
        && failures == Failures(names, outcomes)
        && skills == SetEnabled(old(skills), names, false)
        && selectedSkill == if old(selectedSkill).Some? && old(selectedSkill).value.name in names
             then Some(UpdateSkillPaths(old(selectedSkill).value, false)) else old(selectedSkill)
      ensures config == old(config) && selectedCategory == old(selectedCategory) && error == old(error)
    {
      requests, failures := SetEnabledForCategory(false, outcomes);
    }

    /** `moveSkillToCategory`; `saved` is the configuration handed to `save_config`. */
    method MoveSkillToCategory(skillName: string, newCategory: string) returns (saved: Config)
      requires Valid()
      modifies this
      ensures Valid()
      ensures config == old(config).(categories := Moved(old(config).categories, skillName, newCategory))
      ensures saved == config
      ensures old(Consistent()) ==> Consistent()
      ensures skills == old(skills) && selectedCategory == old(selectedCategory)
      ensures selectedSkill == old(selectedSkill) && error == old(error)
    {
      MovedEffect(config.categories, skillName, newCategory);
      if Consistent() {
        MoveKeepsConsistent(config, skillName, newCategory);
      }
      var cats := MoveSkill(config.categories, skillName, newCategory);
      config := config.(categories := cats);
      saved := config;
    }

    /** `deleteSkill`: the skill leaves the list of skills, every category list and the
        selection. */
    method DeleteSkill(skillName: string) returns (saved: Config)
      requires Valid()
      modifies this
      ensures Valid()
      ensures skills == Filter(old(skills), (s: Skill) => s.name != skillName)
      ensures skillName !in Names(skills)
      ensures config == old(config).(categories := WithoutName(old(config).categories, skillName))
      ensures saved == config
      ensures old(Consistent()) ==> Consistent()
      ensures selectedSkill == if old(selectedSkill).Some? && old(selectedSkill).value.name == skillName
        then None else old(selectedSkill)
      ensures selectedCategory == old(selectedCategory) && error == old(error)
    {
      if Consistent() {
        MoveKeepsConsistent(config, skillName, skillName);
      }
      skills := Filter(skills, (s: Skill) => s.name != skillName);
      forall i | 0 <= i < |skills| ensures Names(skills)[i] != skillName {
        assert skills[i] in skills;
      }
      var cats := RemoveFromLists(config.categories, skillName);
      config := config.(categories := cats);
      saved := config;
      if selectedSkill.Some? && selectedSkill.value.name == skillName {
        selectedSkill := None;
      }
    }

    /** `addCategory`. */
    method AddCategory(name: string) returns (saved: Config)
      requires Valid()
      modifies this
      ensures Valid()
      ensures config == AddedCategory(old(config), name) && saved == config
      ensures old(Consistent()) && name !in old(config).categories.lists ==> Consistent()
      ensures skills == old(skills) && selectedCategory == old(selectedCategory)
      ensures selectedSkill == old(selectedSkill) && error == old(error)
    {
      if Consistent() && name !in config.categories.lists {
        AddKeepsConsistent(config, name);
      }
      config := AddedCategory(config, name);
      saved := config;
    }

    /** `removeCategory`: refused while the order holds at most one entry; otherwise the
        category goes, its skills join the new first category and a selection of it moves
        along. */
    method RemoveCategory(name: string) returns (saved: Option<Config>)
      requires Valid()
      modifies this
      ensures Valid()
      ensures |old(config).categoryOrder.GetOr([])| <= 1 ==>
        saved.None? && config == old(config) && selectedCategory == old(selectedCategory)
      ensures |old(config).categoryOrder.GetOr([])| > 1 ==>
        && config == RemovedCategory(old(config), name) && saved == Some(config)
        && selectedCategory == RemoveSelection(old(config).categoryOrder.GetOr([]), old(selectedCategory), name)
      ensures old(Consistent()) ==> Consistent()
      ensures old(Consistent()) && old(selectedCategory) in old(config).categoryOrder.value ==>
        selectedCategory in config.categoryOrder.value
      ensures skills == old(skills) && selectedSkill == old(selectedSkill) && error == old(error)
    {
      var catOrder := config.categoryOrder.GetOr([]);
      if |catOrder| <= 1 {
        return None;
      }
      var next := RemovedCategory(config, name);
      var nextSelected := RemoveSelection(catOrder, selectedCategory, name);
      if Consistent() {
        RemoveCategoryConsistent(config, selectedCategory, name);
      }
      config, selectedCategory := next, nextSelected;
      saved := Some(next);
    }

    /** `renameCategory`: refused for an empty or unchanged name; otherwise the key is
        renamed in place, in the order too, and a selection of it follows. */
    method RenameCategory(oldName: string, newName: string) returns (saved: Option<Config>)
      requires Valid()
      modifies this
      ensures Valid()
      ensures newName == "" || oldName == newName ==>
        saved.None? && config == old(config) && selectedCategory == old(selectedCategory)
      ensures newName != "" && oldName != newName ==>
        && config == Config(Renamed(old(config).categories, oldName, newName),
                            Some(Replace(old(config).categoryOrder.GetOr([]), oldName, newName)))
        && saved == Some(config)
        && selectedCategory == if old(selectedCategory) == oldName then newName else old(selectedCategory)
      ensures old(Consistent()) && newName !in old(config).categories.lists ==> Consistent()
      ensures skills == old(skills) && selectedSkill == old(selectedSkill) && error == old(error)
    {
      if newName == "" || oldName == newName {
        return None;
      }
      if Consistent() && newName !in config.categories.lists {
        RenameKeepsConsistent(config, oldName, newName);
      }
      RenamedValid(config.categories, oldName, newName);
      var cats := RenameKeys(config.categories, oldName, newName);
      config := Config(cats, Some(Replace(config.categoryOrder.GetOr([]), oldName, newName)));
      saved := Some(config);
      if selectedCategory == oldName {
        selectedCategory := newName;
      }
    }

    /** `reorderCategories`: only the order changes. */
    method ReorderCategories(newOrder: seq<string>) returns (saved: Config)
      requires Valid()
      modifies this
      ensures Valid()
      ensures config == Reordered(old(config), newOrder) && saved == config
      ensures old(Consistent()) && multiset(newOrder) == multiset(old(config).categoryOrder.value) ==>
        Consistent()
      ensures skills == old(skills) && selectedCategory == old(selectedCategory)
      ensures selectedSkill == old(selectedSkill) && error == old(error)
    {
      if Consistent() && multiset(newOrder) == multiset(config.categoryOrder.value) {
        ReorderKeepsConsistent(config, newOrder);
      }
      config := Reordered(config, newOrder);
      saved := config;
    }

    /** The tabs to show. */
    function Categories(): seq<string>
      reads this
    {
      CategoriesView(config)
    }

    /** The skills of the selected category. */
    function SkillsInSelected(): seq<Skill>
      reads this
    {
      SkillsInCategory(skills, config.categories, selectedCategory)
    }
  }
}
