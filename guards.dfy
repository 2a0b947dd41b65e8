/** The conditions under which the category screens call the engine
    (src/components/CategoryTabs.tsx, src/components/CategoryEditor.tsx). */
module Guards {
  import opened Wrappers
  import opened Seqs
  import opened Strings
  import opened Types
  import opened Views
  import opened CategoryOps

  /** The add guard of both screens: the trimmed input, when it is not blank and not
      already a shown category. */
  function AddGuard(categories: seq<string>, input: string): (r: Option<string>)
    ensures r.Some? <==> Trim(input) != [] && Trim(input) !in categories
    ensures r.Some? ==> r.value == Trim(input)
  {
    var name := Trim(input);
    if name != [] && name !in categories then Some(name) else None
  }

  /** A name the add guard lets through is not a category yet, so adding it keeps the
      order complete and puts the name last. */
  lemma AddGuardKeepsConsistent(cfg: Config, input: string)
    requires OrderConsistent(cfg)
    ensures var r := AddGuard(CategoriesView(cfg), input);
      r.Some? ==>
        && OrderConsistent(AddedCategory(cfg, r.value))
        && CategoriesView(AddedCategory(cfg, r.value)) == CategoriesView(cfg) + [r.value]
  {
    var r := AddGuard(CategoriesView(cfg), input);
    if r.Some? {
      AddKeepsConsistent(cfg, r.value);
    }
  }

  /** The rename guard as `handleRename` writes it: the trimmed input when it is not blank
      and differs from the old name. It does not look at the other categories. */
  function RenameGuardAsWritten(oldName: string, input: string): (r: Option<string>)
    ensures r.Some? <==> Trim(input) != [] && Trim(input) != oldName
    ensures r.Some? ==> r.value == Trim(input)
  {
    var name := Trim(input);
    if name != [] && name != oldName then Some(name) else None
  }

  /** Renaming category A of [A, B] to "B" passes that guard, and the engine then drops A's
      skills and lists B twice in the order. */
  lemma RenameCollisionAsWritten()
    ensures var cfg := Config(Categories(["A", "B"], map["A" := ["s"], "B" := []]), Some(["A", "B"]));
      var guard := RenameGuardAsWritten("A", "B");
      var renamed := Renamed(cfg.categories, "A", "B");
      && OrderConsistent(cfg)
      && guard == Some("B")
      && renamed.keys == ["B"] && renamed.lists == map["B" := []]
      && Replace(cfg.categoryOrder.value, "A", "B") == ["B", "B"]
  {
    CollisionStart();
    CollisionKeys();
    CollisionLists();
  }

  /** The configuration of that example is consistent, and the guard lets "B" through. */
  lemma CollisionStart()
    ensures OrderConsistent(Config(Categories(["A", "B"], map["A" := ["s"], "B" := []]), Some(["A", "B"])))
    ensures RenameGuardAsWritten("A", "B") == Some("B")
  {
    var ks := ["A", "B"];
    var m := map["A" := ["s"], "B" := []];
    assert "A" != "B" by { assert "A"[0] != "B"[0]; }
    assert Distinct(ks);
    assert m.Keys == {"A", "B"};
    forall k ensures k in ks <==> k in m {
      assert k in ks <==> k == "A" || k == "B";
    }
    assert Categories(ks, m).Valid();
    assert Trim("B") == "B" by {
      assert !IsSpace('B');
    }
  }

  /** The keys of that rename: both become "B", and the second is dropped. */
  lemma CollisionKeys()
    ensures Replace(["A", "B"], "A", "B") == ["B", "B"]
    ensures Dedup(["B", "B"]) == ["B"]
  {
    assert ["B", "B"][..1] == ["B"];
    assert ["B"][..0] == [];
  }

  /** The lists of that rename: only "B" is left, with B's own (empty) list. */
  lemma CollisionLists()
    ensures RenamedLists(["A", "B"], map["A" := ["s"], "B" := []], "A", "B") == map["B" := []]
  {
    var l := RenamedLists(["A", "B"], map["A" := ["s"], "B" := []], "A", "B");
    assert LastOf(["A", "B"], "A", "B") == "B";
    assert "B" in l && l["B"] == [];
    forall k | k in l ensures k == "B" {
      assert k in ["A", "B"] + ["B"];
    }
  }

  /** The rename guard with the collision check it evidently intends: the trimmed input
      when it is not blank, differs from the old name and is not another category. */
  function RenameGuard(categories: seq<string>, oldName: string, input: string): (r: Option<string>)
    ensures r.Some? <==> Trim(input) != [] && Trim(input) != oldName && Trim(input) !in categories
    ensures r.Some? ==> r.value == Trim(input)
  {
    var name := Trim(input);
    if name != [] && name != oldName && name !in categories then Some(name) else None
  }

  /** Through that guard, renaming a category keeps the order complete and duplicate free,
      moves the category's skills under the new name and leaves every other list alone. */
  lemma RenameGuardKeepsConsistent(cfg: Config, oldName: string, input: string)
    requires OrderConsistent(cfg)
    ensures var r := RenameGuard(CategoriesView(cfg), oldName, input);
      r.Some? ==>
        && OrderConsistent(Config(Renamed(cfg.categories, oldName, r.value),
                                  Some(Replace(cfg.categoryOrder.value, oldName, r.value))))
        && (oldName in cfg.categories.lists ==>
              Renamed(cfg.categories, oldName, r.value).lists
                == (cfg.categories.lists - {oldName})[r.value := cfg.categories.lists[oldName]])
  {
    var r := RenameGuard(CategoriesView(cfg), oldName, input);
    if r.Some? {
      RenameKeepsConsistent(cfg, oldName, r.value);
      if oldName in cfg.categories.lists {
        RenamedFresh(cfg.categories, oldName, r.value);
      }
    }
  }

  /** The delete control is offered only while there is more than one category. */
  predicate DeleteVisible(categories: seq<string>)
  {
    |categories| > 1
  }

  /** A delete offered on the shown order is never refused by the engine's last-category
      rule. */
  lemma DeleteVisibleNotRefused(cfg: Config)
    requires cfg.categoryOrder.Some? && DeleteVisible(CategoriesView(cfg))
    ensures |cfg.categoryOrder.GetOr([])| > 1
  {
  }
}
