/** The registry behind completion of the `{+path}` argument: each skill
    name maps to the paths of its files, and a query returns the paths that
    start with a prefix, at most one hundred of them. */
module SkillCompletionRegistry {
  import opened Text
  import opened SkillTypes

  const MaxResults := 100

  /** The paths of the given files, in order. */
  function FilePaths(files: seq<SkillFileInfo>): (r: seq<string>)
    ensures |r| == |files| && forall i :: 0 <= i < |files| ==> r[i] == files[i].path
  {
    seq(|files|, i requires 0 <= i < |files| => files[i].path)
  }

  /** The files that start with the prefix (ordinally), in order. */
  function Matching(files: seq<string>, prefix: string): (r: seq<string>)
    ensures |r| <= |files|
    ensures forall f :: f in r <==> f in files && StartsWith(f, prefix)
    decreases |files|
  {
    if |files| == 0 then []
    else
      assert files == [files[0]] + files[1..];
      (if StartsWith(files[0], prefix) then [files[0]] else []) + Matching(files[1..], prefix)
  }

  /** The empty prefix matches every file. */
  lemma {:induction false} MatchingEmptyPrefix(files: seq<string>)
    ensures Matching(files, "") == files
    decreases |files|
  {
    if |files| > 0 {
      MatchingEmptyPrefix(files[1..]);
      assert files == [files[0]] + files[1..];
    }
  }

  lemma {:induction false} MatchingAppend(a: seq<string>, b: seq<string>, prefix: string)
    ensures Matching(a + b, prefix) == Matching(a, prefix) + Matching(b, prefix)
    decreases |a|
  {
    if |a| == 0 {
      assert a + b == b;
    } else {
      assert (a + b)[1..] == a[1..] + b;
      MatchingAppend(a[1..], b, prefix);
    }
  }

  lemma MatchingSnoc(files: seq<string>, i: nat, prefix: string)
    requires i < |files|
    ensures Matching(files[..i + 1], prefix) ==
              Matching(files[..i], prefix) + (if StartsWith(files[i], prefix) then [files[i]] else [])
  {
    assert files[..i + 1] == files[..i] + [files[i]];
    MatchingAppend(files[..i], [files[i]], prefix);
  }

  /** What `GetCompletions` returns: the matching paths, the first hundred
      of them, with the number of matches and whether some were held back;
      nothing for an unknown skill. */
  function Completions(skillFiles: map<string, seq<string>>, skillName: string, prefix: string)
    : (r: (seq<string>, nat, bool))
    ensures skillName !in skillFiles ==> r == ([], 0, false)
    ensures skillName in skillFiles ==>
              var m := Matching(skillFiles[skillName], prefix);
              && r.1 == |m|
              && r.0 == m[..if |m| <= MaxResults then |m| else MaxResults]
    ensures |r.0| <= MaxResults && (r.2 <==> r.1 > MaxResults)
    ensures forall v :: v in r.0 ==> StartsWith(v, prefix)
  {
    if skillName !in skillFiles then ([], 0, false)
    else
      var m := Matching(skillFiles[skillName], prefix);
      assert forall v :: v in m[..if |m| <= MaxResults then |m| else MaxResults] ==> v in m;
      (m[..if |m| <= MaxResults then |m| else MaxResults], |m|, |m| > MaxResults)
  }

  class SkillCompletionRegistry {
    /** Skill name to the paths of its files. */
    var skillFiles: map<string, seq<string>>

    constructor()
      ensures skillFiles == map[]
    {
      skillFiles := map[];
    }

    /** `RegisterSkill`: every file path, the main file's included, in
        order; a second registration of the name replaces the first. */
    method RegisterSkill(skill: SkillInfo)
      modifies this
      ensures skillFiles == old(skillFiles)[skill.name := FilePaths(skill.files)]
    {
      var paths: seq<string> := [];
      for i := 0 to |skill.files|
        invariant paths == FilePaths(skill.files[..i])
      {
        paths := paths + [skill.files[i].path];
      }
      assert skill.files[..|skill.files|] == skill.files;
      skillFiles := skillFiles[skill.name := paths];
    }

    /** `GetCompletions`. */
    method GetCompletions(skillName: string, prefix: string) returns (values: seq<string>, total: nat, hasMore: bool)
      ensures (values, total, hasMore) == Completions(skillFiles, skillName, prefix)
    {
      if skillName !in skillFiles {
        return [], 0, false;
      }
      var files := skillFiles[skillName];
      var matched: seq<string> := [];
      for i := 0 to |files|
        invariant matched == Matching(files[..i], prefix)
      {
        MatchingSnoc(files, i, prefix);
        if StartsWith(files[i], prefix) {
          matched := matched + [files[i]];
        }
      }
      assert files[..|files|] == files;
      if |matched| <= MaxResults {
        assert matched[..|matched|] == matched;
        return matched, |matched|, false;
      }
      return matched[..MaxResults], |matched|, true;
    }
  }

  /** A registered skill's paths come back in full under the empty prefix
      while there are at most a hundred of them. */
  lemma CompletionsEmptyPrefix(skillFiles: map<string, seq<string>>, skillName: string)
    requires skillName in skillFiles && |skillFiles[skillName]| <= MaxResults
    ensures Completions(skillFiles, skillName, "") == (skillFiles[skillName], |skillFiles[skillName]|, false)
  {
    var files := skillFiles[skillName];
    MatchingEmptyPrefix(files);
    assert files[..|files|] == files;
  }

  /** The registry test's example: one of two paths starts with `ref`. */
  lemma CompletionsExample()
    ensures Completions(map["s" := ["SKILL.md", "references/checklist.md"]], "s", "ref")
            == (["references/checklist.md"], 1, false)
  {
    var files := ["SKILL.md", "references/checklist.md"];
    assert !StartsWith(files[0], "ref") by { assert files[0][0] != "ref"[0]; }
    assert StartsWith(files[1], "ref") by { assert files[1][..3] == "ref"; }
    assert files[1..][1..] == [];
    assert Matching(files[1..], "ref") == ["references/checklist.md"];
    var m := Matching(files, "ref");
    assert m == ["references/checklist.md"];
    assert m[..1] == m;
  }
}
