/** Reconciliation of a freshly loaded configuration with the freshly loaded skills
    (`normalizeConfig`, src/hooks/useSkills.ts:5-46). */
module Normalize {
  import opened Wrappers
  import opened Seqs
  import opened Types

  /** Where the order repair starts: the stored order when it is present and non-empty,
      otherwise the key order. */
  function SeedOrder(cfg: Config): seq<string>
  {
    if cfg.categoryOrder.Some? && |cfg.categoryOrder.value| > 0 then cfg.categoryOrder.value
    else cfg.categories.keys
  }

  /** Pushes, in key order, every key the order does not hold yet. */
  function AppendMissing(order: seq<string>, keys: seq<string>): (r: seq<string>)
    ensures |order| <= |r| && r[..|order|] == order
    ensures forall x :: x in r <==> x in order || x in keys
    decreases |keys|
  {
    if keys == [] then order
    else
      var next := if keys[0] in order then order else order + [keys[0]];
      var r := AppendMissing(next, keys[1..]);
      assert r[..|order|] == r[..|next|][..|order|];
      r
  }

  /** The repaired order: seed, then the missing keys, then only entries that are keys. */
  function RepairedOrder(cfg: Config): (r: seq<string>)
    requires cfg.categories.Valid()
    ensures forall k :: k in r <==> k in cfg.categories.lists
  {
    Filter(AppendMissing(SeedOrder(cfg), cfg.categories.keys), k => k in cfg.categories.lists)
  }

  /** Every skill name held by some category's list. */
  function Categorized(c: Categories): set<string>
  {
    set k, n | k in c.lists && n in c.lists[k] :: n
  }

  /** Loaded skill names that no list holds, in load order. */
  function Orphans(skills: seq<Skill>, c: Categories): (r: seq<string>)
    ensures forall n :: n in r <==> n in Names(skills) && n !in Categorized(c)
  {
    Filter(Names(skills), n => n !in Categorized(c))
  }

  /** Orphans go after the existing entries of the first category of the order; with no
      category at all they are dropped. */
  function WithOrphans(c: Categories, order: seq<string>, orphans: seq<string>): Categories
    requires c.Valid()
  {
    if |orphans| > 0 && |order| > 0 then c.Put(order[0], c.Get(order[0]) + orphans) else c
  }

  /** What `normalizeConfig` returns. */
  function Normalized(skills: seq<Skill>, cfg: Config): Config
    requires cfg.categories.Valid()
  {
    var order := RepairedOrder(cfg);
    Config(WithOrphans(cfg.categories, order, Orphans(skills, cfg.categories)), Some(order))
  }

  /** The names listed under the keys `ks`, collected key by key. */
  ghost function ListedIn(c: Categories, ks: seq<string>): set<string>
  {
    if ks == [] then {} else ListedIn(c, ks[..|ks| - 1]) + Elems(c.Get(ks[|ks| - 1]))
  }

  lemma {:induction false} ListedInMembers(c: Categories, ks: seq<string>)
    ensures forall x :: x in ListedIn(c, ks) <==> exists k :: k in ks && x in c.Get(k)
  {
    if ks != [] {
      var init := ks[..|ks| - 1];
      ListedInMembers(c, init);
      assert ks == init + [ks[|ks| - 1]];
      forall x | x in ListedIn(c, ks) ensures exists k :: k in ks && x in c.Get(k) {
        if x in Elems(c.Get(ks[|ks| - 1])) {
          assert ks[|ks| - 1] in ks;
        } else {
          assert x in ListedIn(c, init);
          var k :| k in init && x in c.Get(k);
          assert k in ks;
        }
      }
    }
  }

  /** Collecting over all the keys gives the categorized names. */
  lemma ListedInAll(c: Categories)
    requires c.Valid()
    ensures ListedIn(c, c.keys) == Categorized(c)
  {
    ListedInMembers(c, c.keys);
  }

  /** The first loop of `normalizeConfig`: the seed with every missing key pushed, then
      only the entries that are keys. */
  method RepairOrder(cfg: Config) returns (order: seq<string>)
    requires cfg.categories.Valid()
    ensures order == RepairedOrder(cfg)
  {
    var keys := cfg.categories.keys;
    order := SeedOrder(cfg);
    var i := 0;
    while i < |keys|
      invariant 0 <= i <= |keys|
      invariant AppendMissing(order, keys[i..]) == AppendMissing(SeedOrder(cfg), keys)
    {
      var key := keys[i];
      assert keys[i..][1..] == keys[i + 1..];
      if key !in order {
        order := order + [key];
      }
      i := i + 1;
    }
    order := Filter(order, cat => cat in cfg.categories.lists);
  }

  /** The nested loop of `normalizeConfig` that fills the set of categorized names. */
  method CollectCategorized(c: Categories) returns (categorized: set<string>)
    requires c.Valid()
    ensures categorized == Categorized(c)
  {
    categorized := {};
    var j := 0;
    while j < |c.keys|
      invariant 0 <= j <= |c.keys|
      invariant categorized == ListedIn(c, c.keys[..j])
    {
      var names := c.Get(c.keys[j]);
      var m := 0;
      while m < |names|
        invariant 0 <= m <= |names|
        invariant categorized == ListedIn(c, c.keys[..j]) + Elems(names[..m])
      {
        assert names[..m + 1] == names[..m] + [names[m]];
        categorized := categorized + {names[m]};
        m := m + 1;
      }
      assert names[..m] == names;
      assert c.keys[..j + 1][..j] == c.keys[..j];
      j := j + 1;
    }
    assert c.keys[..j] == c.keys;
    ListedInAll(c);
  }

  /** `normalizeConfig`, proved to compute `Normalized`. */
  method NormalizeConfig(loadedSkills: seq<Skill>, loadedConfig: Config) returns (r: Config)
    requires loadedConfig.categories.Valid()
    ensures r == Normalized(loadedSkills, loadedConfig)
    ensures r.categories.Valid()
    ensures r.categories.keys == loadedConfig.categories.keys
    ensures r.categoryOrder.Some?
    ensures forall k :: k in r.categoryOrder.value <==> k in r.categories.lists
  {
    var next := loadedConfig.categories;
    var order := RepairOrder(loadedConfig);
    var categorized := CollectCategorized(next);
    var uncategorized := Filter(Names(loadedSkills), name => name !in categorized);
    assert uncategorized == Orphans(loadedSkills, next) by {
      FilterAgree(Names(loadedSkills), name => name !in categorized,
                  n => n !in Categorized(next));
    }
    if |uncategorized| > 0 && |order| > 0 {
      var first := order[0];
      assert first in order;
      next := next.Put(first, next.Get(first) + uncategorized);
    }
    r := Config(next, Some(order));
  }

  /** An order of exactly the keys is empty only when there are no keys. */
  lemma NonEmptyOrder(c: Categories, order: seq<string>)
    requires c.Valid()
    requires forall k :: k in order <==> k in c.lists
    ensures c.keys != [] ==> order != []
  {
    if c.keys != [] {
      assert c.keys[0] in c.lists;
      assert c.keys[0] in order;
    }
  }

  /** With distinct keys the missing keys follow the seed in key order. */
  lemma {:induction false} AppendMissingLayout(order: seq<string>, keys: seq<string>)
    requires Distinct(keys)
    ensures AppendMissing(order, keys) == order + Filter(keys, k => k !in order)
    decreases |keys|
  {
    if keys == [] {
    } else {
      var k0 := keys[0];
      var rest := keys[1..];
      assert Distinct(rest);
      assert k0 !in rest;
      var next := if k0 in order then order else order + [k0];
      AppendMissingLayout(next, rest);
      FilterAgree(rest, k => k !in next, k => k !in order);
      if k0 in order {
        assert Filter(keys, k => k !in order) == Filter(rest, k => k !in order);
      } else {
        assert Filter(keys, k => k !in order) == [k0] + Filter(rest, k => k !in order);
      }
    }
  }

  /** Order repair: the entries of the seed that are keys keep their relative order, and
      after them come the keys the seed misses, in key order. */
  lemma RepairedOrderLayout(cfg: Config)
    requires cfg.categories.Valid()
    ensures RepairedOrder(cfg)
         == Filter(SeedOrder(cfg), k => k in cfg.categories.lists)
          + Filter(cfg.categories.keys, k => k !in SeedOrder(cfg))
  {
    var c := cfg.categories;
    var seed := SeedOrder(cfg);
    var missing := Filter(c.keys, k => k !in seed);
    AppendMissingLayout(seed, c.keys);
    FilterAppend(seed, missing, k => k in c.lists);
    FilterAll(missing, k => k in c.lists);
  }

  /** Order repair introduces no duplicate: a duplicate-free stored order gives a
      duplicate-free result (an absent or empty one is replaced by the unique keys). */
  lemma RepairedOrderDistinct(cfg: Config)
    requires cfg.categories.Valid()
    requires cfg.categoryOrder.Some? ==> Distinct(cfg.categoryOrder.value)
    ensures Distinct(RepairedOrder(cfg))
  {
    var c := cfg.categories;
    var seed := SeedOrder(cfg);
    RepairedOrderLayout(cfg);
    FilterDistinct(seed, k => k in c.lists);
    FilterDistinct(c.keys, k => k !in seed);
    var a := Filter(seed, k => k in c.lists);
    var b := Filter(c.keys, k => k !in seed);
    forall i, j | 0 <= i < j < |a + b| ensures (a + b)[i] != (a + b)[j] {
      if i < |a| && j >= |a| {
        assert (a + b)[i] in seed;
        assert (a + b)[j] in b;
      }
    }
  }

  /** A reconciled configuration always has a complete, duplicate-free order when the stored
      order was absent or duplicate free. */
  lemma NormalizedConsistent(skills: seq<Skill>, cfg: Config)
    requires cfg.categories.Valid()
    requires cfg.categoryOrder.Some? ==> Distinct(cfg.categoryOrder.value)
    ensures OrderConsistent(Normalized(skills, cfg))
  {
    RepairedOrderDistinct(cfg);
  }

  /** An order that is already complete and duplicate free survives reconciliation. */
  lemma RepairKeepsConsistentOrder(cfg: Config)
    requires OrderConsistent(cfg)
    ensures RepairedOrder(cfg) == cfg.categoryOrder.value
  {
    var c := cfg.categories;
    var o := cfg.categoryOrder.value;
    RepairedOrderLayout(cfg);
    NonEmptyOrder(c, o);
    if |o| > 0 {
      FilterAll(o, k => k in c.lists);
      FilterNone(c.keys, k => k !in o);
    }
  }

  /** Orphan assignment: the key order does not change, every list but the first category's
      is copied verbatim, and the first category's list is its old entries followed by the
      orphans in load order; with no category the orphans are dropped. */
  lemma NormalizedLists(skills: seq<Skill>, cfg: Config)
    requires cfg.categories.Valid()
    ensures var r := Normalized(skills, cfg);
      && r.categories.Valid()
      && r.categories.keys == cfg.categories.keys
      && var order := r.categoryOrder.value;
         && (forall k :: k in cfg.categories.lists && (order == [] || k != order[0]) ==>
               r.categories.lists[k] == cfg.categories.lists[k])
         && (order != [] ==>
               r.categories.lists[order[0]]
               == cfg.categories.lists[order[0]] + Orphans(skills, cfg.categories))
         && (order == [] ==> r.categories == cfg.categories)
  {
    var order := RepairedOrder(cfg);
    if order != [] {
      assert order[0] in order;
    }
    WithOrphansKeys(cfg.categories, order, Orphans(skills, cfg.categories));
    WithOrphansLists(cfg.categories, order, Orphans(skills, cfg.categories));
  }

  /** Orphan assignment on its own: the first key of the order gets the orphans appended,
      every other list is kept. */
  lemma WithOrphansLists(c: Categories, order: seq<string>, orphans: seq<string>)
    requires c.Valid()
    requires order != [] ==> order[0] in c.lists
    ensures var r := WithOrphans(c, order, orphans);
      && (forall k :: k in c.lists && (order == [] || k != order[0]) ==> r.lists[k] == c.lists[k])
      && (order != [] ==> r.lists[order[0]] == c.lists[order[0]] + orphans)
      && (order == [] ==> r == c)
  {
    if order != [] && orphans == [] {
      assert c.lists[order[0]] + orphans == c.lists[order[0]];
    }
  }

  /** After reconciliation with at least one category, every loaded skill is listed. */
  lemma NormalizedCoversSkills(skills: seq<Skill>, cfg: Config)
    requires cfg.categories.Valid()
    requires cfg.categories.keys != []
    ensures forall n :: n in Names(skills) ==> n in Categorized(Normalized(skills, cfg).categories)
  {
    var c := cfg.categories;
    var order := RepairedOrder(cfg);
    assert c.keys[0] in c.lists;
    assert order != [] by { assert c.keys[0] in order; }
    var orphans := Orphans(skills, c);
    var r := Normalized(skills, cfg).categories;
    NormalizedLists(skills, cfg);
    forall n | n in Names(skills) ensures n in Categorized(r) {
      if n in Categorized(c) {
        var k :| k in c.lists && n in c.lists[k];
        if k == order[0] {
          assert r.lists[k] == c.lists[k] + orphans;
        }
        assert n in r.lists[k];
      } else {
        assert n in orphans;
        assert n in r.lists[order[0]];
      }
    }
  }

  /** Assigning orphans to a key of the record keeps its keys. */
  lemma WithOrphansKeys(c: Categories, order: seq<string>, orphans: seq<string>)
    requires c.Valid()
    requires order != [] ==> order[0] in c.lists
    ensures WithOrphans(c, order, orphans).Valid()
    ensures WithOrphans(c, order, orphans).keys == c.keys
    ensures WithOrphans(c, order, orphans).lists.Keys == c.lists.Keys
  {
  }

  /** A second order repair leaves a repaired order alone. */
  lemma RepairTwice(skills: seq<Skill>, cfg: Config)
    requires cfg.categories.Valid()
    ensures Normalized(skills, cfg).categories.Valid()
    ensures RepairedOrder(Normalized(skills, cfg)) == RepairedOrder(cfg)
  {
    var c := cfg.categories;
    var o1 := RepairedOrder(cfg);
    var c1 := WithOrphans(c, o1, Orphans(skills, c));
    var n1 := Config(c1, Some(o1));
    assert n1 == Normalized(skills, cfg);
    if o1 != [] {
      assert o1[0] in o1;
    }
    WithOrphansKeys(c, o1, Orphans(skills, c));
    assert forall k :: k in o1 <==> k in c1.lists;
    NonEmptyOrder(c1, o1);
    if |o1| > 0 {
      assert SeedOrder(n1) == o1;
      AppendMissingLayout(o1, c1.keys);
      FilterNone(c1.keys, k => k !in o1);
      assert AppendMissing(o1, c1.keys) == o1;
      FilterAll(o1, k => k in c1.lists);
    } else {
      assert c1.keys == [];
    }
  }

  /** Reconciliation is idempotent: running it again on its own output with the same skills
      changes nothing. */
  lemma NormalizeIdempotent(skills: seq<Skill>, cfg: Config)
    requires cfg.categories.Valid()
    ensures Normalized(skills, Normalized(skills, cfg)) == Normalized(skills, cfg)
  {
    var n1 := Normalized(skills, cfg);
    var c1 := n1.categories;
    var o1 := n1.categoryOrder.value;
    RepairTwice(skills, cfg);
    if |o1| > 0 {
      assert cfg.categories.keys != [] by {
        NormalizedLists(skills, cfg);
        assert o1[0] in o1;
      }
      NormalizedCoversSkills(skills, cfg);
      FilterNone(Names(skills), n => n !in Categorized(c1));
    }
  }

  /** If no name was listed under two categories, then after reconciliation with at least
      one category every loaded skill is listed under exactly one category. */
  lemma NormalizedListsOnce(skills: seq<Skill>, cfg: Config)
    requires cfg.categories.Valid()
    requires cfg.categories.keys != []
    requires forall n, k1, k2 ::
               (k1 in cfg.categories.lists && k2 in cfg.categories.lists &&
                n in cfg.categories.lists[k1] && n in cfg.categories.lists[k2]) ==> k1 == k2
    ensures var r := Normalized(skills, cfg).categories;
      forall n :: n in Names(skills) ==>
        exists k :: k in r.lists && n in r.lists[k] &&
          forall k' :: k' in r.lists && n in r.lists[k'] ==> k' == k
  {
    var c := cfg.categories;
    var r := Normalized(skills, cfg).categories;
    var order := RepairedOrder(cfg);
    assert order != [] by { assert c.keys[0] in c.lists; assert c.keys[0] in order; }
    var first := order[0];
    assert first in order;
    var orphans := Orphans(skills, c);
    NormalizedLists(skills, cfg);
    NormalizedCoversSkills(skills, cfg);
    assert r.lists.Keys == c.lists.Keys;
    forall n | n in Names(skills)
      ensures exists k :: k in r.lists && n in r.lists[k] &&
                forall k' :: k' in r.lists && n in r.lists[k'] ==> k' == k
    {
      var k :| k in r.lists && n in r.lists[k];
      forall k' | k' in r.lists && n in r.lists[k'] ensures k' == k {
        ListedOnceAfter(c, r, first, orphans, n, k, k');
      }
    }
  }

  /** The step of the lemma above for one name and two keys listing it: a categorised name
      is not an orphan and so is listed where it was; an orphan is listed only under the
      first category. */
  lemma ListedOnceAfter(c: Categories, r: Categories, first: string, orphans: seq<string>,
                        n: string, k1: string, k2: string)
    requires r.lists.Keys == c.lists.Keys && first in c.lists
    requires forall q :: q in c.lists && q != first ==> r.lists[q] == c.lists[q]
    requires r.lists[first] == c.lists[first] + orphans
    requires forall x :: x in orphans ==> x !in Categorized(c)
    requires forall x, q1, q2 ::
               (q1 in c.lists && q2 in c.lists && x in c.lists[q1] && x in c.lists[q2]) ==> q1 == q2
    requires k1 in r.lists && n in r.lists[k1] && k2 in r.lists && n in r.lists[k2]
    ensures k1 == k2
  {
    if n in orphans {
      assert n !in Categorized(c);
      assert n !in c.lists[k1] && n !in c.lists[k2];
    } else {
      assert n in c.lists[k1] by {
        if k1 == first { assert n in c.lists[first] + orphans; }
      }
      assert n in c.lists[k2] by {
        if k2 == first { assert n in c.lists[first] + orphans; }
      }
    }
  }
}
