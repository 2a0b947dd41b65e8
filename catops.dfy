/** The category operations of the engine on values: what each one does to the category
    record and the order (src/hooks/useSkills.ts:211-304). The engine class applies them
    to its state. */
module CategoryOps {
  import opened Wrappers
  import opened Seqs
  import opened Types

  /** Every list with `name` removed (`filter(n => n !== name)` on each key). */
  function WithoutName(c: Categories, name: string): (r: Categories)
    requires c.Valid()
    ensures r.Valid() && r.keys == c.keys && r.lists.Keys == c.lists.Keys
    ensures forall k :: k in r.lists ==> name !in r.lists[k]
    ensures forall k, x :: k in r.lists && x != name ==> (x in r.lists[k] <==> x in c.lists[k])
  {
    Categories(c.keys, map k | k in c.lists :: Remove(c.lists[k], name))
  }

  /** The record after the loop below has visited the first `i` keys. */
  function RemovedUpTo(c: Categories, name: string, i: nat): Categories
    requires i <= |c.keys|
  {
    Categories(c.keys, map k | k in c.lists ::
      if k in c.keys[..i] then Remove(c.lists[k], name) else c.lists[k])
  }

  /** One key of the loop below. */
  lemma RemovedStep(c: Categories, name: string, i: nat)
    requires c.Valid() && i < |c.keys|
    ensures RemovedUpTo(c, name, i).Valid()
    ensures var r := RemovedUpTo(c, name, i);
      c.keys[i] in r.lists &&
      r.Put(c.keys[i], Remove(r.lists[c.keys[i]], name)) == RemovedUpTo(c, name, i + 1)
  {
    var key := c.keys[i];
    assert c.keys[..i + 1] == c.keys[..i] + [key];
    assert key !in c.keys[..i];
    var r := RemovedUpTo(c, name, i);
    var r' := RemovedUpTo(c, name, i + 1);
    assert r.lists[key := Remove(c.lists[key], name)] == r'.lists;
  }

  /** The key loop shared by `moveSkillToCategory` and `deleteSkill`. */
  method RemoveFromLists(c: Categories, name: string) returns (r: Categories)
    requires c.Valid()
    ensures r == WithoutName(c, name)
  {
    r := c;
    var i := 0;
    assert c.keys[..0] == [];
    assert r.lists == RemovedUpTo(c, name, 0).lists;
    while i < |c.keys|
      invariant 0 <= i <= |c.keys|
      invariant r == RemovedUpTo(c, name, i)
    {
      RemovedStep(c, name, i);
      var cat := c.keys[i];
      r := r.Put(cat, Remove(r.lists[cat], name));
      i := i + 1;
    }
    RemovedAll(c, name);
  }

  /** Once every key is visited, every list has lost `name`. */
  lemma RemovedAll(c: Categories, name: string)
    requires c.Valid()
    ensures RemovedUpTo(c, name, |c.keys|) == WithoutName(c, name)
  {
    assert c.keys[..|c.keys|] == c.keys;
    var r := RemovedUpTo(c, name, |c.keys|);
    var w := WithoutName(c, name);
    forall k | k in c.lists ensures r.lists[k] == w.lists[k] {
      assert k in c.keys;
    }
    assert r.lists == w.lists;
  }

  /** `moveSkillToCategory`: out of every list, then onto the end of the target's list when
      the target is a key. */
  function Moved(c: Categories, name: string, target: string): Categories
    requires c.Valid()
  {
    var w := WithoutName(c, name);
    if target in w.lists then w.Put(target, w.lists[target] + [name]) else w
  }

  /** Moving keeps the keys and their order; afterwards the skill is listed exactly once, at
      the end of the target's list, when the target exists and nowhere otherwise; no other
      name changes list. */
  lemma MovedEffect(c: Categories, name: string, target: string)
    requires c.Valid()
    ensures var r := Moved(c, name, target);
      && r.Valid() && r.keys == c.keys && r.lists.Keys == c.lists.Keys
      && (forall k :: k in r.lists && k != target ==> name !in r.lists[k])
      && (target in r.lists ==>
            Count(r.lists[target], name) == 1 && r.lists[target][|r.lists[target]| - 1] == name)
      && (forall k, x :: k in r.lists && x != name ==> (x in r.lists[k] <==> x in c.lists[k]))
  {
    var w := WithoutName(c, name);
    if target in w.lists {
      AppendedOnce(w, name, target);
    }
  }

  /** Appending a name no list holds to one list. */
  lemma AppendedOnce(w: Categories, name: string, target: string)
    requires w.Valid() && target in w.lists
    requires forall k :: k in w.lists ==> name !in w.lists[k]
    ensures var r := w.Put(target, w.lists[target] + [name]);
      && r.keys == w.keys
      && (forall k :: k in r.lists && k != target ==> name !in r.lists[k])
      && Count(r.lists[target], name) == 1
      && r.lists[target][|r.lists[target]| - 1] == name
      && (forall k, x :: k in r.lists && x != name ==> (x in r.lists[k] <==> x in w.lists[k]))
  {
    CountAppendFresh(w.lists[target], name);
  }

  /** `moveSkillToCategory`'s loop, then the append. */
  method MoveSkill(c: Categories, name: string, target: string) returns (r: Categories)
    requires c.Valid()
    ensures r == Moved(c, name, target)
  {
    r := RemoveFromLists(c, name);
    if target in r.lists {
      r := r.Put(target, r.lists[target] + [name]);
    }
  }

  /** The last of the keys equal to `a` or `b`; `b` when there is none. */
  function LastOf(ks: seq<string>, a: string, b: string): string
  {
    if ks == [] then b
    else if ks[|ks| - 1] == a || ks[|ks| - 1] == b then ks[|ks| - 1]
    else LastOf(ks[..|ks| - 1], a, b)
  }

  /** What rebuilding the record entry by entry under the new name gives: the renamed keys
      in first-insertion order, and under `newName` the list of whichever of `oldName`
      and `newName` came last (the later assignment wins). */
  function Renamed(c: Categories, oldName: string, newName: string): Categories
  {
    Categories(Dedup(Replace(c.keys, oldName, newName)), RenamedLists(c.keys, c.lists, oldName, newName))
  }

  /** The lists of `Renamed`: every key but `oldName` keeps its list, and `newName` is a key
      when `oldName` was one. */
  function RenamedLists(keys: seq<string>, lists: map<string, seq<string>>, oldName: string,
                        newName: string): map<string, seq<string>>
  {
    map k | k in keys + [newName] && ((k in keys && k != oldName) || (k == newName && oldName in keys)) ::
      if k == newName then Lookup(lists, LastOf(keys, oldName, newName)) else Lookup(lists, k)
  }

  lemma RenamedValid(c: Categories, oldName: string, newName: string)
    ensures Renamed(c, oldName, newName).Valid()
  {
    ReplaceMembers(c.keys, oldName, newName);
  }

  /** The entry loop of `renameCategory`. */
  method RenameKeys(c: Categories, oldName: string, newName: string) returns (r: Categories)
    requires c.Valid()
    ensures r == Renamed(c, oldName, newName)
  {
    r := NoCategories;
    var i := 0;
    assert c.keys[..0] == [];
    assert r == Renamed(Categories(c.keys[..0], c.lists), oldName, newName);
    while i < |c.keys|
      invariant 0 <= i <= |c.keys|
      invariant r.Valid()
      invariant r == Renamed(Categories(c.keys[..i], c.lists), oldName, newName)
    {
      var key := c.keys[i];
      var value := c.lists[key];
      RenameStep(c, oldName, newName, i);
      if key == oldName {
        r := r.Put(newName, value);
      } else {
        r := r.Put(key, value);
      }
      i := i + 1;
    }
    assert c.keys[..i] == c.keys;
  }

  /** `LastOf` one key at a time. */
  lemma LastOfSnoc(p: seq<string>, key: string, a: string, b: string)
    ensures LastOf(p + [key], a, b) == if key == a || key == b then key else LastOf(p, a, b)
  {
    assert (p + [key])[..|p|] == p;
  }

  /** The keys of `Renamed` one key at a time. */
  lemma RenamedKeysSnoc(ks: seq<string>, lists: map<string, seq<string>>, key: string,
                        oldName: string, newName: string)
    ensures var k' := if key == oldName then newName else key;
      var before := Renamed(Categories(ks, lists), oldName, newName);
      Renamed(Categories(ks + [key], lists), oldName, newName).keys
        == if k' in before.lists then before.keys else before.keys + [k']
  {
    var k' := if key == oldName then newName else key;
    ReplaceSnoc(ks, key, oldName, newName);
    DedupSnoc(Replace(ks, oldName, newName), k');
  }

  /** The lists of `Renamed` one key at a time. */
  lemma RenamedListsSnoc(ks: seq<string>, lists: map<string, seq<string>>, key: string,
                         oldName: string, newName: string)
    ensures RenamedLists(ks + [key], lists, oldName, newName)
         == RenamedLists(ks, lists, oldName, newName)
              [if key == oldName then newName else key := Lookup(lists, key)]
  {
    var k' := if key == oldName then newName else key;
    var after := RenamedLists(ks + [key], lists, oldName, newName);
    var put := RenamedLists(ks, lists, oldName, newName)[k' := Lookup(lists, key)];
    forall k ensures k in after <==> k in put {
      RenamedListsSnocHas(ks, lists, key, oldName, newName, k);
    }
    forall k | k in after ensures after[k] == put[k] {
      LastOfSnoc(ks, key, oldName, newName);
    }
    assert after == put;
  }

  /** The domain part of the step above, for one name. */
  lemma RenamedListsSnocHas(ks: seq<string>, lists: map<string, seq<string>>, key: string,
                            oldName: string, newName: string, k: string)
    ensures k in RenamedLists(ks + [key], lists, oldName, newName)
        <==> k == (if key == oldName then newName else key) || k in RenamedLists(ks, lists, oldName, newName)
  {
    assert k in ks + [key] <==> k in ks || k == key;
    assert k in ks + [key] + [newName] <==> k in ks || k == key || k == newName;
    assert k in ks + [newName] <==> k in ks || k == newName;
    assert oldName in ks + [key] <==> oldName in ks || oldName == key;
  }

  /** One entry of the rename loop. */
  lemma RenameStep(c: Categories, oldName: string, newName: string, i: nat)
    requires c.Valid() && i < |c.keys|
    ensures var key := c.keys[i];
      var k' := if key == oldName then newName else key;
      var before := Renamed(Categories(c.keys[..i], c.lists), oldName, newName);
      before.Valid() ==>
      before.Put(k', c.lists[key]) == Renamed(Categories(c.keys[..i + 1], c.lists), oldName, newName)
  {
    var key := c.keys[i];
    assert c.keys[..i + 1] == c.keys[..i] + [key];
    RenamedKeysSnoc(c.keys[..i], c.lists, key, oldName, newName);
    RenamedListsSnoc(c.keys[..i], c.lists, key, oldName, newName);
  }

  /** `LastOf` finds the only one of the two names that occurs. */
  lemma {:induction false} LastOfOnly(ks: seq<string>, a: string, b: string)
    requires a in ks && b !in ks
    ensures LastOf(ks, a, b) == a && LastOf(ks, b, a) == a
  {
    if ks[|ks| - 1] != a {
      assert ks == ks[..|ks| - 1] + [ks[|ks| - 1]];
      LastOfOnly(ks[..|ks| - 1], a, b);
    }
  }

  /** Renaming a key to a name that is not a key replaces it in place, with its list. */
  lemma RenamedFresh(c: Categories, oldName: string, newName: string)
    requires c.Valid() && oldName in c.lists && newName !in c.lists
    ensures Renamed(c, oldName, newName)
         == Categories(Replace(c.keys, oldName, newName), (c.lists - {oldName})[newName := c.lists[oldName]])
  {
    ReplaceDistinct(c.keys, oldName, newName);
    DedupDistinct(Replace(c.keys, oldName, newName));
    RenamedListsFresh(c.keys, c.lists, oldName, newName);
  }

  /** The lists of a rename to a fresh name: the old list moves to the new name. */
  lemma RenamedListsFresh(keys: seq<string>, lists: map<string, seq<string>>, oldName: string,
                          newName: string)
    requires forall k :: k in lists <==> k in keys
    requires oldName in keys && newName !in keys
    ensures RenamedLists(keys, lists, oldName, newName) == (lists - {oldName})[newName := lists[oldName]]
  {
    LastOfOnly(keys, oldName, newName);
    var l := RenamedLists(keys, lists, oldName, newName);
    var m := (lists - {oldName})[newName := lists[oldName]];
    forall k ensures k in l <==> k in m {
      assert k in keys + [newName] <==> k in keys || k == newName;
    }
    forall k | k in l ensures l[k] == m[k] {
    }
    assert l == m;
  }

  /** Renaming a name that is not a key changes nothing. */
  lemma RenamedUnknown(c: Categories, oldName: string, newName: string)
    requires c.Valid() && oldName !in c.lists
    ensures Renamed(c, oldName, newName) == c
  {
    ReplaceAbsent(c.keys, oldName, newName);
    DedupDistinct(c.keys);
    RenamedListsUnknown(c.keys, c.lists, oldName, newName);
  }

  /** Replacing a value that does not occur changes nothing. */
  lemma ReplaceAbsent(s: seq<string>, a: string, b: string)
    requires a !in s
    ensures Replace(s, a, b) == s
  {
    var r := Replace(s, a, b);
    forall i | 0 <= i < |s| ensures r[i] == s[i] {
      assert s[i] in s;
    }
  }

  /** The lists of a rename of a name that is not a key: every key keeps its list. */
  lemma RenamedListsUnknown(keys: seq<string>, lists: map<string, seq<string>>, oldName: string,
                            newName: string)
    requires forall k :: k in lists <==> k in keys
    requires oldName !in keys
    ensures RenamedLists(keys, lists, oldName, newName) == lists
  {
    var l := RenamedLists(keys, lists, oldName, newName);
    forall k ensures k in l <==> k in lists {
      assert k in keys + [newName] <==> k in keys || k == newName;
    }
    forall k | k in l ensures l[k] == lists[k] {
      if k == newName {
        LastOfOnly(keys, newName, oldName);
      }
    }
    assert l == lists;
  }

  /** `addCategory`: an empty list under the name (an existing key keeps its place) and the
      name appended to the order. */
  function AddedCategory(cfg: Config, name: string): (r: Config)
    requires cfg.categories.Valid()
    ensures r.categories.Valid()
    ensures r.categories.lists == cfg.categories.lists[name := []]
    ensures r.categoryOrder == Some(cfg.categoryOrder.GetOr([]) + [name])
  {
    Config(cfg.categories.Put(name, []), Some(cfg.categoryOrder.GetOr([]) + [name]))
  }

  /** `removeCategory` past its guard: the key leaves the record and the order, and its list
      goes after the entries of the new first category of the order. */
  function RemovedCategory(cfg: Config, name: string): (r: Config)
    requires cfg.categories.Valid()
    ensures r.categories.Valid()
    ensures r.categoryOrder == Some(Remove(cfg.categoryOrder.GetOr([]), name))
    ensures name !in r.categories.lists && name !in r.categoryOrder.value
    ensures var order := r.categoryOrder.value;
      order != [] ==>
        && order[0] in r.categories.lists
        && r.categories.lists[order[0]] == cfg.categories.Get(order[0]) + cfg.categories.Get(name)
    ensures forall k :: k in cfg.categories.lists && k != name && NotReceiver(r, k) ==>
      k in r.categories.lists && r.categories.lists[k] == cfg.categories.lists[k]
  {
    var cats := cfg.categories;
    var toMove := cats.Get(name);
    var rest := cats.Delete(name);
    var order := Remove(cfg.categoryOrder.GetOr([]), name);
    if |order| > 0 then
      assert order[0] in order;
      Config(rest.Put(order[0], rest.Get(order[0]) + toMove), Some(order))
    else Config(rest, Some(order))
  }

  /** `k` is not the category that receives a removed category's skills. */
  predicate NotReceiver(r: Config, k: string)
  {
    r.categoryOrder.None? || r.categoryOrder.value == [] || k != r.categoryOrder.value[0]
  }

  /** `reorderCategories`: only the order is replaced. */
  function Reordered(cfg: Config, newOrder: seq<string>): Config
  {
    cfg.(categoryOrder := Some(newOrder))
  }

  /** Adding a name that is not a key keeps the order complete and puts the name last. */
  lemma AddKeepsConsistent(cfg: Config, name: string)
    requires OrderConsistent(cfg) && name !in cfg.categories.lists
    ensures OrderConsistent(AddedCategory(cfg, name))
    ensures AddedCategory(cfg, name).categoryOrder.value == cfg.categoryOrder.value + [name]
  {
  }

  /** Removing a category keeps the order complete and duplicate free. */
  lemma RemoveKeepsConsistent(cfg: Config, name: string)
    requires OrderConsistent(cfg)
    ensures OrderConsistent(RemovedCategory(cfg, name))
  {
    var o := cfg.categoryOrder.value;
    RemoveDistinct(o, name);
    var r := RemovedCategory(cfg, name);
    var ro := r.categoryOrder.value;
    if ro != [] {
      assert ro[0] in ro;
    }
  }

  /** Renaming to a name that is not a key keeps the order complete and duplicate free. */
  lemma RenameKeepsConsistent(cfg: Config, oldName: string, newName: string)
    requires OrderConsistent(cfg) && newName !in cfg.categories.lists
    ensures OrderConsistent(Config(Renamed(cfg.categories, oldName, newName),
                                   Some(Replace(cfg.categoryOrder.value, oldName, newName))))
  {
    var c := cfg.categories;
    var o := cfg.categoryOrder.value;
    ReplaceDistinct(o, oldName, newName);
    ReplaceMembers(o, oldName, newName);
    if oldName in c.lists {
      RenamedFresh(c, oldName, newName);
    } else {
      RenamedUnknown(c, oldName, newName);
    }
  }

  /** Moving a skill does not touch the keys, so the order stays complete. */
  lemma MoveKeepsConsistent(cfg: Config, name: string, target: string)
    requires OrderConsistent(cfg)
    ensures OrderConsistent(cfg.(categories := Moved(cfg.categories, name, target)))
    ensures OrderConsistent(cfg.(categories := WithoutName(cfg.categories, name)))
  {
    MovedEffect(cfg.categories, name, target);
  }

  /** Reordering by a permutation of the order keeps it complete and duplicate free. */
  lemma ReorderKeepsConsistent(cfg: Config, newOrder: seq<string>)
    requires OrderConsistent(cfg)
    requires multiset(newOrder) == multiset(cfg.categoryOrder.value)
    ensures OrderConsistent(Reordered(cfg, newOrder))
  {
    var o := cfg.categoryOrder.value;
    forall k ensures k in newOrder <==> k in o {
      assert k in newOrder <==> k in multiset(newOrder);
    }
    forall i, j | 0 <= i < j < |newOrder| ensures newOrder[i] != newOrder[j] {
      if newOrder[i] == newOrder[j] {
        DuplicateCount(newOrder, i, j);
        DistinctCountOne(o, newOrder[i]);
      }
    }
  }

  /** An element at two positions occurs at least twice. */
  lemma DuplicateCount(s: seq<string>, i: nat, j: nat)
    requires i < j < |s| && s[i] == s[j]
    ensures multiset(s)[s[i]] >= 2
  {
    assert s == s[..i] + [s[i]] + s[i + 1..j] + [s[j]] + s[j + 1..];
  }

  /** In a distinct sequence every element occurs at most once. */
  lemma {:induction false} DistinctCountOne(s: seq<string>, x: string)
    requires Distinct(s)
    ensures multiset(s)[x] <= 1
  {
    if s != [] {
      assert s == [s[0]] + s[1..];
      assert Distinct(s[1..]);
      DistinctCountOne(s[1..], x);
      if s[0] == x {
        assert x !in s[1..];
      }
    }
  }
}
