/** The data the engine works on: skills with their auxiliary files, the category record
    and the configuration (src/types/index.ts, src-tauri/src/lib.rs). */
module Types {
  import opened Wrappers
  import opened Seqs

  /** An entry of a skill's folder. */
  datatype SkillFile = SkillFile(name: string, path: string, isDirectory: bool)

  /** A skill: a folder holding SKILL.md, either under the enabled or the disabled root. */
  datatype Skill = Skill(
    name: string,
    description: string,
    enabled: bool,
    content: string,
    path: string,
    files: seq<SkillFile>)

  /** The names of the skills, in their order. */
  function Names(skills: seq<Skill>): (r: seq<string>)
    ensures |r| == |skills|
    ensures forall i :: 0 <= i < |skills| ==> r[i] == skills[i].name
  {
    seq(|skills|, i requires 0 <= i < |skills| => skills[i].name)
  }

  /** A `Record<string, string[]>` as JavaScript keeps it: the keys in insertion order and
      the list stored under each key. */
  datatype Categories = Categories(keys: seq<string>, lists: map<string, seq<string>>)
  {
    /** Keys are unique and are exactly the keys of the map. */
    ghost predicate Valid()
    {
      Distinct(keys) && forall k :: k in lists <==> k in keys
    }

    /** `record[key] || []`. */
    function Get(key: string): seq<string>
    {
      Lookup(lists, key)
    }

    /** `record[key] = value`: an existing key keeps its position, a new key goes last. */
    function Put(key: string, value: seq<string>): (r: Categories)
      requires Valid()
      ensures r.Valid()
      ensures r.lists == lists[key := value]
      ensures key in lists ==> r.keys == keys
      ensures key !in lists ==> r.keys == keys + [key]
    {
      if key in lists then Categories(keys, lists[key := value])
      else Categories(keys + [key], lists[key := value])
    }

    /** `delete record[key]`. */
    function Delete(key: string): (r: Categories)
      requires Valid()
      ensures r.Valid()
      ensures r.lists == lists - {key}
      ensures r.keys == Remove(keys, key)
    {
      RemoveDistinct(keys, key);
      Categories(Remove(keys, key), lists - {key})
    }
  }

  /** The list stored under `key`, or the empty list for a missing key. */
  function Lookup(lists: map<string, seq<string>>, key: string): seq<string>
  {
    if key in lists then lists[key] else []
  }

  /** The empty record `{}`. */
  const NoCategories := Categories([], map[])

  /** The configuration the frontend holds; `categoryOrder` is optional in the stored shape. */
  datatype Config = Config(categories: Categories, categoryOrder: Option<seq<string>>)

  /** The order is complete and duplicate free: it lists every key exactly once and
      nothing else. */
  ghost predicate OrderConsistent(cfg: Config)
  {
    && cfg.categories.Valid()
    && cfg.categoryOrder.Some?
    && Distinct(cfg.categoryOrder.value)
    && forall k :: k in cfg.categoryOrder.value <==> k in cfg.categories.lists
  }
}
