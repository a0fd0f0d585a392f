/** Registering skills on an MCP server: one skill directory, every skill
    of a parent directory, or the skills of several parent directories
    where a name seen in an earlier directory wins. */
module SkillServerBuilderExtensions {
  import opened Wrappers
  import opened Seqs
  import opened Unicode
  import opened SkillTypes
  import opened SkillDirectoryScanner
  import opened SkillResourceFactory

  /** The resources of the given skills, skill by skill. */
  function AllResources(rules: Rules, skills: seq<SkillInfo>, options: SkillOptions): (r: seq<ServerResource>)
    decreases |skills|
  {
    if |skills| == 0 then []
    else
      AllResources(rules, skills[..|skills| - 1], options)
      + PublishedResources(rules, skills[|skills| - 1], options)
  }

  function NameSet(skills: seq<SkillInfo>): set<string> {
    set s | s in skills :: s.name
  }

  lemma NameSetSnoc(skills: seq<SkillInfo>, s: SkillInfo)
    ensures NameSet(skills + [s]) == NameSet(skills) + {s.name}
  {
    var a := NameSet(skills + [s]);
    var b := NameSet(skills) + {s.name};
    forall n | n in a ensures n in b {
      var x :| x in skills + [s] && x.name == n;
    }
    forall n | n in b ensures n in a {
      if n != s.name {
        var x :| x in skills && x.name == n;
        assert x in skills + [s];
      } else {
        assert s in skills + [s];
      }
    }
  }

  lemma AllResourcesSnoc(rules: Rules, skills: seq<SkillInfo>, s: SkillInfo, options: SkillOptions)
    ensures AllResources(rules, skills + [s], options) == AllResources(rules, skills, options) + PublishedResources(rules, s, options)
  {
    var t := skills + [s];
    assert t[..|t| - 1] == skills && t[|t| - 1] == s;
  }

  lemma AllResourcesSlice(rules: Rules, skills: seq<SkillInfo>, i: nat, options: SkillOptions)
    requires i < |skills|
    ensures AllResources(rules, skills[..i + 1], options)
            == AllResources(rules, skills[..i], options) + PublishedResources(rules, skills[i], options)
  {
    assert skills[..i + 1] == skills[..i] + [skills[i]];
    AllResourcesSnoc(rules, skills[..i], skills[i], options);
  }

  /** The skills whose name did not occur earlier, in order. */
  function FirstWins(skills: seq<SkillInfo>): (r: seq<SkillInfo>)
    ensures NameSet(r) == NameSet(skills)
    ensures forall s :: s in r ==> s in skills
    decreases |skills|
  {
    if |skills| == 0 then []
    else
      var init := skills[..|skills| - 1];
      var last := skills[|skills| - 1];
      assert skills == init + [last];
      NameSetSnoc(init, last);
      if last.name in NameSet(init) then FirstWins(init)
      else
        NameSetSnoc(FirstWins(init), last);
        FirstWins(init) + [last]
  }

  /** No name is registered twice. */
  lemma {:induction false} FirstWinsUnique(skills: seq<SkillInfo>)
    ensures forall i, j :: 0 <= i < j < |FirstWins(skills)| ==> FirstWins(skills)[i].name != FirstWins(skills)[j].name
    decreases |skills|
  {
    if |skills| > 0 {
      var init := skills[..|skills| - 1];
      var last := skills[|skills| - 1];
      FirstWinsUnique(init);
      var r := FirstWins(skills);
      var p := FirstWins(init);
      if last.name !in NameSet(init) {
        assert r == p + [last];
        forall i, j | 0 <= i < j < |r| ensures r[i].name != r[j].name {
          if j == |r| - 1 {
            assert r[i] == p[i] && p[i] in p;
            assert r[i].name in NameSet(p);
          } else {
            assert r[i] == p[i] && r[j] == p[j];
          }
        }
      } else {
        assert r == p;
      }
    }
  }

  lemma FirstWinsUnfold(skills: seq<SkillInfo>)
    requires |skills| > 0
    ensures var init := skills[..|skills| - 1];
      var last := skills[|skills| - 1];
      FirstWins(skills) == if last.name in NameSet(init) then FirstWins(init) else FirstWins(init) + [last]
  {
  }

  /** What is registered under a name is its first occurrence: nothing
      with that name comes before it. */
  lemma {:induction false} FirstWinsIsFirst(skills: seq<SkillInfo>, k: nat)
    requires k < |FirstWins(skills)|
    ensures exists i :: 0 <= i < |skills| && skills[i] == FirstWins(skills)[k]
              && forall j :: 0 <= j < i ==> skills[j].name != skills[i].name
    decreases |skills|
  {
    var init := skills[..|skills| - 1];
    var last := skills[|skills| - 1];
    var p := FirstWins(init);
    FirstWinsUnfold(skills);
    if k < |p| {
      assert FirstWins(skills)[k] == p[k];
      FirstWinsIsFirst(init, k);
      var i :| 0 <= i < |init| && init[i] == p[k] && forall j :: 0 <= j < i ==> init[j].name != init[i].name;
      assert skills[i] == init[i];
      forall j | 0 <= j < i
        ensures skills[j].name != skills[i].name
      {
        assert skills[j] == init[j];
      }
    } else {
      var i := |skills| - 1;
      assert last.name !in NameSet(init);
      assert FirstWins(skills)[k] == last;
      forall j | 0 <= j < i
        ensures skills[j].name != last.name
      {
        assert skills[j] == init[j] && init[j] in init;
      }
    }
  }

  /** The skills of one parent directory as `ScanDirectory` reports them. */
  function DirectorySkills(host: Host, rules: Rules, parent: Option<seq<DirectorySnapshot>>, mainFileName: string)
    : seq<SkillInfo>
  {
    if parent.None? then [] else ScanAll(host, rules, parent.value, mainFileName)
  }

  /** The skills of several parent directories, directory by directory. */
  function SkillsOf(host: Host, rules: Rules, parents: seq<Option<seq<DirectorySnapshot>>>, mainFileName: string)
    : seq<SkillInfo>
    decreases |parents|
  {
    if |parents| == 0 then []
    else
      SkillsOf(host, rules, parents[..|parents| - 1], mainFileName)
      + DirectorySkills(host, rules, parents[|parents| - 1], mainFileName)
  }

  /** The resources of every given skill, created in order. */
  method CreateAll(rules: Rules, skills: seq<SkillInfo>, opts: SkillOptions) returns (created: seq<ServerResource>)
    ensures created == AllResources(rules, skills, opts)
  {
    created := [];
    for i := 0 to |skills|
      invariant created == AllResources(rules, skills[..i], opts)
    {
      AllResourcesSlice(rules, skills, i, opts);
      var more := CreateResources(rules, skills[i], Some(opts));
      assert more == PublishedResources(rules, skills[i], opts);
      created := created + more;
    }
    assert skills[..|skills|] == skills;
  }

  /** One more skill in the several-parents registration: its name joins
      the registered names, and its resources are added exactly when the
      name is new. */
  lemma FirstWinsStep(rules: Rules, opts: SkillOptions, prefix: seq<SkillInfo>, skill: SkillInfo)
    ensures NameSet(prefix + [skill]) == NameSet(prefix) + {skill.name}
    ensures skill.name in NameSet(prefix) ==>
              AllResources(rules, FirstWins(prefix + [skill]), opts) == AllResources(rules, FirstWins(prefix), opts)
    ensures skill.name !in NameSet(prefix) ==>
              AllResources(rules, FirstWins(prefix + [skill]), opts)
              == AllResources(rules, FirstWins(prefix), opts) + PublishedResources(rules, skill, opts)
  {
    var next := prefix + [skill];
    assert next[..|next| - 1] == prefix && next[|next| - 1] == skill;
    NameSetSnoc(prefix, skill);
    if skill.name !in NameSet(prefix) {
      AllResourcesSnoc(rules, FirstWins(prefix), skill, opts);
    }
  }

  /** The inner loop of the several-parents registration: the resources of
      the skills whose name is not yet registered, and the names registered
      afterwards. */
  method CreateUnseen(rules: Rules, skills: seq<SkillInfo>, opts: SkillOptions, registered: set<string>,
                      ghost seen: seq<SkillInfo>)
    returns (registeredAfter: set<string>, created: seq<ServerResource>)
    requires registered == NameSet(seen)
    ensures registeredAfter == NameSet(seen + skills)
    ensures AllResources(rules, FirstWins(seen + skills), opts) == AllResources(rules, FirstWins(seen), opts) + created
  {
    registeredAfter := registered;
    created := [];
    assert seen + skills[..0] == seen;
    for j := 0 to |skills|
      invariant registeredAfter == NameSet(seen + skills[..j])
      invariant AllResources(rules, FirstWins(seen + skills[..j]), opts) == AllResources(rules, FirstWins(seen), opts) + created
    {
      var skill := skills[j];
      AppendSliceStep(seen, skills, j);
      FirstWinsStep(rules, opts, seen + skills[..j], skill);
      if skill.name in registeredAfter {
        continue;
      }
      registeredAfter := registeredAfter + {skill.name};
      var more := CreateResources(rules, skill, Some(opts));
      AppendAssociative3(AllResources(rules, FirstWins(seen), opts), created, more);
      created := created + more;
    }
    assert skills[..|skills|] == skills;
  }

  class McpServerBuilder {
    /** The resources registered so far, in order. */
    var resources: seq<ServerResource>

    constructor()
      ensures resources == []
    {
      resources := [];
    }

    /** `WithSkill`: the resources of one scanned skill, or the scan's
        error with nothing registered. */
    method WithSkill(host: Host, rules: Rules, dir: Option<DirectorySnapshot>, skillPath: string,
                     options: Option<SkillOptions>) returns (outcome: Outcome<ScanError>)
      modifies this
      ensures var opts := options.GetOr(DefaultOptions);
        match ScanSkillResult(host, rules, dir, skillPath, opts.mainFileName)
        case Failure(e) => outcome == Fail(e) && resources == old(resources)
        case Success(skill) => outcome == Pass && resources == old(resources) + PublishedResources(rules, skill, opts)
    {
      var opts := options.GetOr(DefaultOptions);
      var skill := ScanSkill(host, rules, dir, skillPath, opts.mainFileName);
      if skill.Failure? {
        return Fail(skill.error);
      }
      var created := CreateResources(rules, skill.value, Some(opts));
      resources := resources + created;
      return Pass;
    }

    /** `WithSkillsDirectory` of one parent: every scanned skill, no
        de-duplication. */
    method WithSkillsDirectory(host: Host, rules: Rules, parent: Option<seq<DirectorySnapshot>>,
                               options: Option<SkillOptions>)
      modifies this
      ensures var opts := options.GetOr(DefaultOptions);
        resources == old(resources)
          + AllResources(rules, DirectorySkills(host, rules, parent, opts.mainFileName), opts)
    {
      var opts := options.GetOr(DefaultOptions);
      var skills := ScanDirectory(host, rules, parent, opts.mainFileName);
      var created := CreateAll(rules, skills, opts);
      resources := resources + created;
    }

    /** `WithSkillsDirectory` of several parents: a skill is registered
        only when no skill of the same name came before it. */
    method WithSkillsDirectories(host: Host, rules: Rules, parents: seq<Option<seq<DirectorySnapshot>>>,
                                 options: Option<SkillOptions>)
      modifies this
      ensures var opts := options.GetOr(DefaultOptions);
        resources == old(resources)
          + AllResources(rules, FirstWins(SkillsOf(host, rules, parents, opts.mainFileName)), opts)
    {
      var opts := options.GetOr(DefaultOptions);
      var registered: set<string> := {};
      var added: seq<ServerResource> := [];
      ghost var seen: seq<SkillInfo> := [];
      for i := 0 to |parents|
        invariant seen == SkillsOf(host, rules, parents[..i], opts.mainFileName)
        invariant registered == NameSet(seen)
        invariant added == AllResources(rules, FirstWins(seen), opts)
        invariant resources == old(resources)
      {
        assert parents[..i + 1][..i] == parents[..i];
        var skills := ScanDirectory(host, rules, parents[i], opts.mainFileName);
        assert skills == DirectorySkills(host, rules, parents[i], opts.mainFileName);
        var created;
        registered, created := CreateUnseen(rules, skills, opts, registered, seen);
        added := added + created;
        seen := seen + skills;
      }
      assert parents[..|parents|] == parents;
      resources := resources + added;
    }
  }
}
