/** The decisions the Rust backend makes around its file operations
    (src-tauri/src/lib.rs): the description parser, the file lists, skill loading, the
    directories a toggle moves between, and the configuration it loads and stores. */
module Backend {
  import opened Wrappers
  import opened Seqs
  import opened Strings
  import opened Types
  import opened Sorting
  import opened Normalize

  // ---------------------------------------------------------------- descriptions

  /** The front-matter key the parser looks for. */
  const DescriptionKey: string := "description:"
  /** The longest fallback description, in characters. */
  const FallbackLength: nat := 100
  /** The description of a skill whose SKILL.md has no usable line. */
  const NoDescription: string := "No description"

  /** A line whose trimmed form starts with the front-matter key. */
  predicate IsDescriptionLine(line: string)
  {
    StartsWith(Trim(line), DescriptionKey)
  }

  /** A line usable as the fallback: not blank, not a heading, not a front-matter fence. */
  predicate IsTextLine(line: string)
  {
    var t := Trim(line);
    t != [] && !StartsWith(t, "#") && !StartsWith(t, "---")
  }

  /** `i` is the first line satisfying `p`. */
  predicate FirstWith(lines: seq<string>, p: string -> bool, i: int)
  {
    0 <= i < |lines| && p(lines[i]) && forall j :: 0 <= j < i ==> !p(lines[j])
  }

  /** The position of the first line satisfying `p`. */
  function FirstIndex(lines: seq<string>, p: string -> bool): (r: Option<nat>)
    ensures r.None? <==> forall i :: 0 <= i < |lines| ==> !p(lines[i])
    ensures r.Some? ==> FirstWith(lines, p, r.value)
  {
    if lines == [] then None
    else if p(lines[0]) then Some(0)
    else match FirstIndex(lines[1..], p)
      case None => None
      case Some(i) => Some(i + 1)
  }

  /** The value of a description line: after the key, trimmed, without surrounding `"`. */
  function DescriptionValue(trimmed: string): string
    requires StartsWith(trimmed, DescriptionKey)
  {
    TrimMatches(Trim(trimmed[|DescriptionKey|..]), '"')
  }

  /** `parse_skill_description`: the first description line wins; otherwise the first text
      line, cut to 100 characters; otherwise a fixed text. */
  function ParseSkillDescription(content: string): (r: string)
    ensures var lines := Lines(content);
      forall i :: FirstWith(lines, IsDescriptionLine, i) ==> r == DescriptionValue(Trim(lines[i]))
    ensures var lines := Lines(content);
      (forall i :: 0 <= i < |lines| ==> !IsDescriptionLine(lines[i])) ==>
        && (forall i :: FirstWith(lines, IsTextLine, i) ==> r == Take(Trim(lines[i]), FallbackLength))
        && ((forall i :: 0 <= i < |lines| ==> !IsTextLine(lines[i])) ==> r == NoDescription)
        && |r| <= FallbackLength
  {
    var lines := Lines(content);
    match FirstIndex(lines, IsDescriptionLine)
      case Some(i) => FirstWithUnique(lines, IsDescriptionLine, i); DescriptionValue(Trim(lines[i]))
      case None =>
        match FirstIndex(lines, IsTextLine)
          case Some(i) => FirstWithUnique(lines, IsTextLine, i); Take(Trim(lines[i]), FallbackLength)
          case None => NoDescription
  }

  /** There is only one first line. */
  lemma FirstWithUnique(lines: seq<string>, p: string -> bool, i: int)
    requires FirstWith(lines, p, i)
    ensures forall j :: FirstWith(lines, p, j) ==> j == i
  {
  }

  // ---------------------------------------------------------------- file lists

  /** The name of the file a skill directory is recognised by. */
  const SkillMd: string := "SKILL.md"

  /** `a.name.cmp(&b.name) != Greater`: lexicographic order by character. */
  predicate NameLe(a: string, b: string)
    decreases |a|
  {
    a == [] || (b != [] && (a[0] < b[0] || (a[0] == b[0] && NameLe(a[1..], b[1..]))))
  }

  lemma {:induction false} NameLeTotal(a: string, b: string)
    ensures NameLe(a, b) || NameLe(b, a)
    decreases |a|
  {
    if a != [] && b != [] && a[0] == b[0] {
      NameLeTotal(a[1..], b[1..]);
    }
  }

  lemma {:induction false} NameLeTrans(a: string, b: string, c: string)
    requires NameLe(a, b) && NameLe(b, c)
    ensures NameLe(a, c)
    decreases |a|
  {
    if a != [] && a[0] == b[0] && b[0] == c[0] {
      NameLeTrans(a[1..], b[1..], c[1..]);
    }
  }

  /** The file comparator: directories before files, then by name. */
  predicate FileLe(x: SkillFile, y: SkillFile)
  {
    (x.isDirectory && !y.isDirectory) || (x.isDirectory == y.isDirectory && NameLe(x.name, y.name))
  }

  /** The skill comparator of `load_skills`: by name. */
  predicate SkillLe(x: Skill, y: Skill)
  {
    NameLe(x.name, y.name)
  }

  lemma FileLeTotalPreorder()
    ensures TotalPreorder(FileLe)
  {
    forall x: SkillFile, y: SkillFile ensures FileLe(x, y) || FileLe(y, x) {
      NameLeTotal(x.name, y.name);
    }
    forall x: SkillFile, y: SkillFile, z: SkillFile | FileLe(x, y) && FileLe(y, z)
      ensures FileLe(x, z)
    {
      if x.isDirectory == y.isDirectory && y.isDirectory == z.isDirectory {
        NameLeTrans(x.name, y.name, z.name);
      }
    }
  }

  lemma SkillLeTotalPreorder()
    ensures TotalPreorder(SkillLe)
  {
    forall x: Skill, y: Skill ensures SkillLe(x, y) || SkillLe(y, x) {
      NameLeTotal(x.name, y.name);
    }
    forall x: Skill, y: Skill, z: Skill | SkillLe(x, y) && SkillLe(y, z) ensures SkillLe(x, z) {
      NameLeTrans(x.name, y.name, z.name);
    }
  }

  /** A file list in the order the backend returns: every directory before every file, and
      each kind by name. */
  predicate FilesOrdered(files: seq<SkillFile>)
  {
    forall i, j :: 0 <= i < j < |files| ==>
      (files[i].isDirectory || !files[j].isDirectory) &&
      (files[i].isDirectory == files[j].isDirectory ==> NameLe(files[i].name, files[j].name))
  }

  /** The entries sorted with the file comparator. */
  method SortFiles(entries: seq<SkillFile>) returns (sorted: seq<SkillFile>)
    ensures multiset(sorted) == multiset(entries)
    ensures FilesOrdered(sorted)
  {
    var a := new SkillFile[|entries|](i requires 0 <= i < |entries| => entries[i]);
    assert a[..] == entries;
    FileLeTotalPreorder();
    SortBy(a, FileLe);
    sorted := a[..];
  }

  /** Not the skill's own SKILL.md. */
  predicate NotSkillMd(f: SkillFile)
  {
    f.name != SkillMd
  }

  /** The entries a skill lists: the directory's entries without SKILL.md; nothing when the
      directory cannot be read. */
  function ListedEntries(listing: Option<seq<SkillFile>>): seq<SkillFile>
  {
    Filter(listing.GetOr([]), NotSkillMd)
  }

  /** `get_skill_files`: every entry except SKILL.md, sorted. `listing` is what `read_dir`
      gave, `None` when it failed. */
  method GetSkillFiles(listing: Option<seq<SkillFile>>) returns (files: seq<SkillFile>)
    ensures multiset(files) == multiset(ListedEntries(listing))
    ensures FilesOrdered(files)
    ensures forall f :: f in files ==> f.name != SkillMd
  {
    var entries := listing.GetOr([]);
    var kept: seq<SkillFile> := [];
    var i := 0;
    while i < |entries|
      invariant 0 <= i <= |entries|
      invariant kept == Filter(entries[..i], NotSkillMd)
    {
      FilterSnoc(entries, i, NotSkillMd);
      if entries[i].name != SkillMd {
        kept := kept + [entries[i]];
      }
      i := i + 1;
    }
    assert entries[..i] == entries;
    assert kept == ListedEntries(listing);
    files := SortFiles(kept);
    SameElements(files, kept);
    forall f | f in files ensures f.name != SkillMd {
      assert NotSkillMd(f);
    }
  }

  /** Two lists with the same multiset hold the same entries. */
  lemma SameElements(files: seq<SkillFile>, kept: seq<SkillFile>)
    requires multiset(files) == multiset(kept)
    ensures forall f :: f in files <==> f in kept
  {
    forall f ensures f in files <==> f in kept {
      assert f in files <==> f in multiset(files);
      assert f in kept <==> f in multiset(kept);
    }
  }

  /** `list_directory`: refused for a path that is not a directory, otherwise every entry,
      sorted. */
  method ListDirectory(isDirectory: bool, listing: Option<seq<SkillFile>>)
    returns (r: Result<seq<SkillFile>>)
    ensures !isDirectory ==> r == Err("Not a directory")
    ensures isDirectory ==> r.Ok? && multiset(r.value) == multiset(listing.GetOr([])) && FilesOrdered(r.value)
  {
    if !isDirectory {
      return Err("Not a directory");
    }
    var files := SortFiles(listing.GetOr([]));
    r := Ok(files);
  }

  // ---------------------------------------------------------------- loading skills

  /** A SKILL.md found under one of the two roots: the name of its directory (`None` when
      it is not valid UTF-8), its path, its text (`None` when unreadable) and the entries of
      its directory (`None` when unreadable). */
  datatype SkillDir = SkillDir(
    dirName: Option<string>,
    skillMdPath: string,
    content: Option<string>,
    listing: Option<seq<SkillFile>>)

  /** The skill built from a found SKILL.md in a root of the given state. */
  predicate BuiltFrom(s: Skill, d: SkillDir, enabled: bool)
  {
    && s.name == d.dirName.GetOr("unknown")
    && s.enabled == enabled
    && s.content == d.content.GetOr("")
    && s.description == ParseSkillDescription(s.content)
    && s.path == d.skillMdPath
    && FilesFrom(s.files, d.listing)
  }

  /** What `get_skill_files` returns for a directory listing. */
  predicate FilesFrom(files: seq<SkillFile>, listing: Option<seq<SkillFile>>)
  {
    && multiset(files) == multiset(ListedEntries(listing))
    && FilesOrdered(files)
    && forall f :: f in files ==> f.name != SkillMd
  }

  /** One skill built from each found SKILL.md of a root, in walk order. */
  predicate AllBuiltFrom(skills: seq<Skill>, found: seq<SkillDir>, enabled: bool)
  {
    |skills| == |found| && forall i :: 0 <= i < |found| ==> BuiltFrom(skills[i], found[i], enabled)
  }

  /** `load_from_dir`: one skill per SKILL.md found, in walk order, all with the root's
      state. A missing root finds nothing. */
  method LoadFromDir(found: seq<SkillDir>, enabled: bool) returns (skills: seq<Skill>)
    ensures AllBuiltFrom(skills, found, enabled)
  {
    skills := [];
    var i := 0;
    while i < |found|
      invariant 0 <= i <= |found|
      invariant |skills| == i
      invariant forall k :: 0 <= k < i ==> BuiltFrom(skills[k], found[k], enabled)
    {
      var skill := BuildSkill(found[i], enabled);
      BuiltSnoc(skills, skill, found, enabled);
      skills := skills + [skill];
      i := i + 1;
    }
  }

  /** One more skill built from the next found SKILL.md extends the built prefix. */
  lemma BuiltSnoc(skills: seq<Skill>, skill: Skill, found: seq<SkillDir>, enabled: bool)
    requires |skills| < |found|
    requires forall k :: 0 <= k < |skills| ==> BuiltFrom(skills[k], found[k], enabled)
    requires BuiltFrom(skill, found[|skills|], enabled)
    ensures forall k :: 0 <= k < |skills| + 1 ==> BuiltFrom((skills + [skill])[k], found[k], enabled)
  {
    var next := skills + [skill];
    forall k | 0 <= k < |skills| + 1 ensures BuiltFrom(next[k], found[k], enabled) {
      if k < |skills| {
        assert next[k] == skills[k];
      }
    }
  }

  /** The body of the walk for one SKILL.md: the folder's name, the text, its description
      and the folder's other entries. */
  method BuildSkill(d: SkillDir, enabled: bool) returns (skill: Skill)
    ensures BuiltFrom(skill, d, enabled)
  {
    var content := d.content.GetOr("");
    var files := GetSkillFiles(d.listing);
    assert FilesFrom(files, d.listing);
    skill := Skill(d.dirName.GetOr("unknown"), ParseSkillDescription(content),
                   enabled, content, d.skillMdPath, files);
  }

  /** `load_skills`: refused without a project; otherwise the skills of both roots, the
      enabled root's marked enabled and the disabled root's disabled, sorted by name. */
  method LoadSkills(projectPath: Option<string>, enabledFound: seq<SkillDir>, disabledFound: seq<SkillDir>)
    returns (r: Result<seq<Skill>>)
    ensures projectPath.None? ==> r == Err("Project path not set")
    ensures projectPath.Some? ==> r.Ok? && SortedBy(r.value, SkillLe)
    ensures projectPath.Some? ==>
      exists enabledSkills, disabledSkills ::
        && AllBuiltFrom(enabledSkills, enabledFound, true)
        && AllBuiltFrom(disabledSkills, disabledFound, false)
        && multiset(r.value) == multiset(enabledSkills + disabledSkills)
  {
    if projectPath.None? {
      return Err("Project path not set");
    }
    var enabledSkills := LoadFromDir(enabledFound, true);
    var disabledSkills := LoadFromDir(disabledFound, false);
    var sorted := SortSkills(enabledSkills + disabledSkills);
    r := Ok(sorted);
  }

  /** The skills sorted with the name comparator. */
  method SortSkills(skills: seq<Skill>) returns (sorted: seq<Skill>)
    ensures multiset(sorted) == multiset(skills)
    ensures SortedBy(sorted, SkillLe)
  {
    var a := new Skill[|skills|](i requires 0 <= i < |skills| => skills[i]);
    assert a[..] == skills;
    SkillLeTotalPreorder();
    SortBy(a, SkillLe);
    sorted := a[..];
  }

  // ---------------------------------------------------------------- toggling

  /** The `.claude` directory of a project. */
  function BaseDir(projectPath: string): string
  {
    Join(projectPath, ".claude")
  }

  /** `PathBuf::join` for a relative name without separators. */
  function Join(dir: string, name: string): string
  {
    dir + "/" + name
  }

  function SkillsDir(projectPath: string): string
  {
    Join(BaseDir(projectPath), "skills")
  }

  function DisabledSkillsDir(projectPath: string): string
  {
    Join(BaseDir(projectPath), "disabled-skills")
  }

  /** A directory move. */
  datatype Move = Move(src: string, dst: string)

  /** Enabling moves the skill's directory from the disabled root to the enabled root,
      disabling the other way. */
  function ToggleEndpoints(projectPath: string, skillName: string, enabled: bool): (r: Move)
    ensures enabled ==> r.dst == Join(SkillsDir(projectPath), skillName)
    ensures !enabled ==> r.dst == Join(DisabledSkillsDir(projectPath), skillName)
  {
    if enabled then Move(Join(DisabledSkillsDir(projectPath), skillName), Join(SkillsDir(projectPath), skillName))
    else Move(Join(SkillsDir(projectPath), skillName), Join(DisabledSkillsDir(projectPath), skillName))
  }

  /** Enabling and disabling move between the same two directories, in opposite
      directions, and never onto the source. */
  lemma ToggleEndpointsOpposite(projectPath: string, skillName: string)
    ensures var on := ToggleEndpoints(projectPath, skillName, true);
      var off := ToggleEndpoints(projectPath, skillName, false);
      on.src == off.dst && on.dst == off.src && on.src != on.dst
  {
    var base := BaseDir(projectPath) + "/";
    var on := ToggleEndpoints(projectPath, skillName, true);
    assert on.src == base + "disabled-skills" + "/" + skillName;
    assert on.dst == base + "skills" + "/" + skillName;
    assert on.src[|base|..][1] == 'i' && on.dst[|base|..][1] == 'k';
  }

  /** `toggle_skill`: refused without a project; a failure to create either root or to
      move is reported; a missing source moves nothing and succeeds. The outcomes of the
      directory creation and of the rename are parameters. */
  function ToggleSkill(projectPath: Option<string>, skillName: string, enabled: bool,
                       skillsDirReady: Outcome, disabledDirReady: Outcome,
                       srcExists: bool, renamed: Outcome): (r: Result<Option<Move>>)
    ensures projectPath.None? ==> r == Err("Project path not set")
    ensures r.Ok? && r.value.Some? ==>
      projectPath.Some? && srcExists && renamed.Done? &&
      r.value.value == ToggleEndpoints(projectPath.value, skillName, enabled)
    ensures projectPath.Some? && skillsDirReady.Done? && disabledDirReady.Done? ==>
      (!srcExists ==> r == Ok(None)) &&
      (srcExists && renamed.Failed? ==> r == Err("Failed to move skill: " + renamed.reason)) &&
      (srcExists && renamed.Done? ==> r == Ok(Some(ToggleEndpoints(projectPath.value, skillName, enabled))))
    ensures projectPath.Some? && skillsDirReady.Failed? ==> r == Err(skillsDirReady.reason)
    ensures projectPath.Some? && skillsDirReady.Done? && disabledDirReady.Failed? ==>
      r == Err(disabledDirReady.reason)
  {
    match projectPath
      case None => Err("Project path not set")
      case Some(p) =>
        if skillsDirReady.Failed? then Err(skillsDirReady.reason)
        else if disabledDirReady.Failed? then Err(disabledDirReady.reason)
        else if !srcExists then Ok(None)
        else if renamed.Failed? then Err("Failed to move skill: " + renamed.reason)
        else Ok(Some(ToggleEndpoints(p, skillName, enabled)))
  }

  // ---------------------------------------------------------------- configuration

  /** The name of the category a new project starts with ("未分類", "uncategorised"). */
  const Uncategorised: string := "\U{672A}\U{5206}\U{985E}"

  /** The default categories: the one empty category. */
  function DefaultCategories(): (r: Categories)
    ensures r.Valid() && r.keys == [Uncategorised] && r.Get(Uncategorised) == []
  {
    NoCategories.Put(Uncategorised, [])
  }

  /** `load_config` with the stored shape of the Rust `Config`, which holds only the
      categories: the stored record when the file exists, is readable and parses
      (`stored`), otherwise the default one. */
  function LoadConfigAsWritten(projectPath: Option<string>, stored: Option<Categories>): (r: Result<Categories>)
    ensures projectPath.None? ==> r == Err("Project path not set")
    ensures projectPath.Some? && stored.None? ==> r == Ok(DefaultCategories())
    ensures projectPath.Some? && stored.Some? ==> r == Ok(stored.value)
  {
    if projectPath.None? then Err("Project path not set")
    else Ok(stored.GetOr(DefaultCategories()))
  }

  /** What `save_config` keeps of the frontend configuration as written: the categories;
      the order is not a field of the Rust `Config` and is dropped. */
  function StoreAsWritten(cfg: Config): Categories
  {
    cfg.categories
  }

  /** Whatever order was saved, a reloaded configuration comes back in key order: the
      stored record has no order, so reconciliation rebuilds it from the keys. */
  lemma ReorderLostAsWritten(skills: seq<Skill>, cfg: Config)
    requires cfg.categories.Valid()
    ensures var loaded := LoadConfigAsWritten(Some("p"), Some(StoreAsWritten(cfg)));
      && loaded.Ok?
      && Normalized(skills, Config(loaded.value, None)).categoryOrder == Some(cfg.categories.keys)
  {
    var d := Config(cfg.categories, None);
    assert SeedOrder(d) == cfg.categories.keys;
    RepairedOrderLayout(d);
    FilterAll(SeedOrder(d), k => k in d.categories.lists);
    FilterNone(d.categories.keys, k => k !in SeedOrder(d));
    assert RepairedOrder(d) == cfg.categories.keys;
  }

  /** Reordering [a, b] to [b, a] is undone by saving and reloading. */
  lemma ReorderLostExample()
    ensures var cfg := Config(Categories(["a", "b"], map["a" := [], "b" := []]), Some(["b", "a"]));
      && OrderConsistent(cfg)
      && Normalized([], Config(StoreAsWritten(cfg), None)).categoryOrder == Some(["a", "b"])
      && cfg.categoryOrder != Some(["a", "b"])
  {
    var ks := ["a", "b"];
    var m := map["a" := [], "b" := []];
    assert "a" != "b" by { assert "a"[0] != "b"[0]; }
    assert Distinct(ks) && Distinct(["b", "a"]);
    forall k ensures k in ks <==> k in m {
      assert k in ks <==> k == "a" || k == "b";
    }
    forall k ensures k in ["b", "a"] <==> k in m {
      assert k in ["b", "a"] <==> k == "a" || k == "b";
    }
    var cfg := Config(Categories(ks, m), Some(["b", "a"]));
    assert OrderConsistent(cfg);
    ReorderLostAsWritten([], cfg);
    assert ["b", "a"][0] != ["a", "b"][0];
  }

  /** The stored shape with the order kept. */
  function Store(cfg: Config): Config
  {
    cfg
  }

  /** `load_config` reading back the stored shape with its order; the default has no
      order, as the frontend then derives it from the keys. */
  function LoadConfig(projectPath: Option<string>, stored: Option<Config>): (r: Result<Config>)
    ensures projectPath.None? ==> r == Err("Project path not set")
    ensures projectPath.Some? && stored.None? ==> r == Ok(Config(DefaultCategories(), None))
    ensures projectPath.Some? && stored.Some? ==> r == Ok(stored.value)
  {
    if projectPath.None? then Err("Project path not set")
    else Ok(stored.GetOr(Config(DefaultCategories(), None)))
  }

  /** With the order stored, a consistent order survives saving and reloading unchanged. */
  lemma ReorderSurvivesReload(skills: seq<Skill>, cfg: Config)
    requires OrderConsistent(cfg)
    ensures var loaded := LoadConfig(Some("p"), Some(Store(cfg)));
      loaded.Ok? && Normalized(skills, loaded.value).categoryOrder == cfg.categoryOrder
  {
    RepairKeepsConsistentOrder(cfg);
  }
}
