/** The local path rewrite applied when a skill changes state (`updateSkillPaths`,
    src/hooks/useSkills.ts:141-162). */
module SkillPaths {
  import opened Wrappers
  import opened Strings
  import opened Types

  /** The path segment of the enabled root. */
  const EnabledSegment: string := "/skills/"
  /** The path segment of the disabled root. */
  const DisabledSegment: string := "/disabled-skills/"

  /** Enabling replaces the first `/disabled-skills/` by `/skills/`, disabling the first
      `/skills/` by `/disabled-skills/`. */
  function UpdatePath(path: string, newEnabled: bool): string
  {
    if newEnabled then ReplaceFirst(path, DisabledSegment, EnabledSegment)
    else ReplaceFirst(path, EnabledSegment, DisabledSegment)
  }

  /** The skill with the new flag and every path rewritten; nothing else changes. */
  function UpdateSkillPaths(skill: Skill, newEnabled: bool): (r: Skill)
    ensures r.name == skill.name && r.description == skill.description && r.content == skill.content
    ensures r.enabled == newEnabled
    ensures r.path == UpdatePath(skill.path, newEnabled)
    ensures |r.files| == |skill.files|
    ensures forall i :: 0 <= i < |skill.files| ==>
      r.files[i].name == skill.files[i].name &&
      r.files[i].isDirectory == skill.files[i].isDirectory &&
      r.files[i].path == UpdatePath(skill.files[i].path, newEnabled)
  {
    var files := seq(|skill.files|, i requires 0 <= i < |skill.files| =>
      skill.files[i].(path := UpdatePath(skill.files[i].path, newEnabled)));
    skill.(enabled := newEnabled, path := UpdatePath(skill.path, newEnabled), files := files)
  }

  /** A segment that begins and ends with `/` and holds no other `/`. */
  predicate SlashDelimited(seg: string)
  {
    |seg| >= 2 && seg[0] == '/' && seg[|seg| - 1] == '/' &&
    forall k :: 0 < k < |seg| - 1 ==> seg[k] != '/'
  }

  /** Where `b` occurs in `s[..i] + b + ...` before `i`, it already occurred in `s`, because
      `s[i]` is a `/` and `b` holds a `/` only at its ends. */
  lemma NoEarlierOccurrence(s: string, a: string, b: string, i: nat, j: nat)
    requires SlashDelimited(b) && a != [] && a[0] == '/'
    requires OccursAt(s, a, i) && j < i
    requires !OccursAt(s, b, j)
    ensures !OccursAt(s[..i] + b + s[i + |a|..], b, j)
  {
    var t := s[..i] + b + s[i + |a|..];
    if j + |b| <= i {
      assert t[j..j + |b|] == s[j..j + |b|];
    } else if j + |b| <= |t| {
      var d := i - j;
      assert 0 < d < |b|;
      assert t[i] == '/' && s[i] == '/';
      if d == |b| - 1 {
        assert t[j..j + |b|] == t[j..i] + [t[i]];
        assert s[j..j + |b|] == s[j..i] + [s[i]];
        assert s[j..j + |b|] == t[j..j + |b|];
      } else {
        assert t[j..j + |b|][d] == t[i] != b[d];
      }
    }
  }

  /** Replacing the first `a` by `b` and then the first `b` by `a` restores a string that held
      no `b`. */
  lemma ReplaceBack(s: string, a: string, b: string)
    requires SlashDelimited(b) && a != [] && a[0] == '/'
    requires !Contains(s, b)
    ensures ReplaceFirst(ReplaceFirst(s, a, b), b, a) == s
  {
    match FindFirst(s, a)
    case None =>
    case Some(i) =>
      var t := s[..i] + b + s[i + |a|..];
      SpliceFound(s, a, b, i);
      SpliceBack(s, a, b, i);
  }

  /** After `b` replaces the occurrence of `a` at `i`, the first `b` is the one at `i`. */
  lemma SpliceFound(s: string, a: string, b: string, i: nat)
    requires SlashDelimited(b) && a != [] && a[0] == '/'
    requires !Contains(s, b)
    requires OccursAt(s, a, i)
    ensures FindFirst(s[..i] + b + s[i + |a|..], b) == Some(i)
  {
    var t := s[..i] + b + s[i + |a|..];
    assert t[i..i + |b|] == b;
    forall j | 0 <= j < i ensures !OccursAt(t, b, j) {
      NoEarlierOccurrence(s, a, b, i, j);
    }
    FindFirstAt(t, b, i);
  }

  /** Putting `a` back where `b` was inserted at `i` gives the original string. */
  lemma SpliceBack(s: string, a: string, b: string, i: nat)
    requires OccursAt(s, a, i)
    ensures var t := s[..i] + b + s[i + |a|..]; t[..i] + a + t[i + |b|..] == s
  {
    var t := s[..i] + b + s[i + |a|..];
    assert t[..i] == s[..i];
    assert t[i + |b|..] == s[i + |a|..];
    assert s[i..i + |a|] == a;
    assert s == s[..i] + s[i..i + |a|] + s[i + |a|..];
  }

  /** Disabling and re-enabling a path restores it when it held no `/disabled-skills/`. */
  lemma DisableEnablePath(path: string)
    requires !Contains(path, DisabledSegment)
    ensures UpdatePath(UpdatePath(path, false), true) == path
  {
    ReplaceBack(path, EnabledSegment, DisabledSegment);
  }

  /** Enabling and re-disabling a path restores it when it held no `/skills/`. */
  lemma EnableDisablePath(path: string)
    requires !Contains(path, EnabledSegment)
    ensures UpdatePath(UpdatePath(path, true), false) == path
  {
    ReplaceBack(path, DisabledSegment, EnabledSegment);
  }

  /** Toggling an enabled skill off and on again gives it back, paths included, when none of
      its paths held `/disabled-skills/`. */
  lemma DisableEnableSkill(skill: Skill)
    requires skill.enabled
    requires !Contains(skill.path, DisabledSegment)
    requires forall f :: f in skill.files ==> !Contains(f.path, DisabledSegment)
    ensures UpdateSkillPaths(UpdateSkillPaths(skill, false), true) == skill
  {
    var r := UpdateSkillPaths(UpdateSkillPaths(skill, false), true);
    DisableEnablePath(skill.path);
    forall i | 0 <= i < |skill.files| ensures r.files[i] == skill.files[i] {
      assert skill.files[i] in skill.files;
      DisableEnablePath(skill.files[i].path);
    }
    assert r.files == skill.files;
  }

  /** Toggling a disabled skill on and off again gives it back when none of its paths held
      `/skills/`. */
  lemma EnableDisableSkill(skill: Skill)
    requires !skill.enabled
    requires !Contains(skill.path, EnabledSegment)
    requires forall f :: f in skill.files ==> !Contains(f.path, EnabledSegment)
    ensures UpdateSkillPaths(UpdateSkillPaths(skill, true), false) == skill
  {
    var r := UpdateSkillPaths(UpdateSkillPaths(skill, true), false);
    EnableDisablePath(skill.path);
    forall i | 0 <= i < |skill.files| ensures r.files[i] == skill.files[i] {
      assert skill.files[i] in skill.files;
      EnableDisablePath(skill.files[i].path);
    }
    assert r.files == skill.files;
  }
}
