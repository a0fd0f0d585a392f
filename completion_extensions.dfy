/** The completion handler for skill resource templates: it recognises a
    `skill://{name}/{+path}` template, and answers a request for the
    `path` argument from the registry. */
module SkillCompletionExtensions {
  import opened Wrappers
  import opened Text
  import opened SkillTypes
  import opened SkillResourceFactory
  import opened SkillCompletionRegistry

  /** What a completion request refers to. */
  datatype Reference =
    | PromptReference(name: string)
    | ResourceTemplateReference(uri: Option<string>)

  datatype Argument = Argument(name: string, value: string)

  datatype CompleteParams = CompleteParams(reference: Reference, argument: Argument)

  /** The completion of a result; a default result carries no values and
      leaves the total and the more-flag unset. */
  datatype Completion = Completion(values: seq<string>, total: Option<nat>, hasMore: Option<bool>)

  const EmptyCompletion := Completion([], None, None)

  const TemplateSuffix := "{+path}"

  /** `ParseSkillNameFromTemplateUri`: the name of a `skill://{name}/{+path}`
      template, or nothing. */
  function ParseSkillNameFromTemplateUri(uri: Option<string>): (r: Option<string>)
    ensures r.Some? ==>
              && uri == Some(SkillScheme + r.value + "/" + TemplateSuffix)
              && r.value != "" && '/' !in r.value
  {
    if uri.None? then None
    else
      var u := uri.value;
      if !StartsWith(u, SkillScheme) then None
      else
        var rest := u[|SkillScheme|..];
        var slashIndex := IndexOf(rest, '/');
        if slashIndex <= 0 then None
        else if rest[slashIndex + 1..] != TemplateSuffix then None
        else
          RebuildTemplateUri(u, slashIndex);
          Some(rest[..slashIndex])
  }

  lemma RebuildTemplateUri(u: string, k: nat)
    requires StartsWith(u, SkillScheme)
    requires k < |u| - |SkillScheme|
    requires u[|SkillScheme|..][k] == '/' && u[|SkillScheme|..][k + 1..] == TemplateSuffix
    ensures u == SkillScheme + u[|SkillScheme|..][..k] + "/" + TemplateSuffix
  {
    var rest := u[|SkillScheme|..];
    var name := rest[..k];
    assert u == u[..|SkillScheme|] + rest && u[..|SkillScheme|] == SkillScheme;
    assert rest == name + [rest[k]] + rest[k + 1..];
    assert rest == name + "/" + TemplateSuffix;
    assert SkillScheme + (name + "/" + TemplateSuffix) == SkillScheme + name + "/" + TemplateSuffix;
  }

  /** The template a skill is published under parses back to its name. */
  lemma {:induction false} ParseTemplateRoundTrip(name: string)
    requires name != "" && '/' !in name
    ensures ParseSkillNameFromTemplateUri(Some(SkillScheme + name + "/" + TemplateSuffix)) == Some(name)
  {
    var u := SkillScheme + name + "/" + TemplateSuffix;
    assert u[..|SkillScheme|] == SkillScheme;
    var rest := u[|SkillScheme|..];
    assert rest == name + "/" + TemplateSuffix;
    assert rest[|name|] == '/' && rest[..|name|] == name;
    assert IndexOf(rest, '/') == |name|;
    assert rest[|name| + 1..] == TemplateSuffix;
  }

  /** The template the resource factory builds for a skill is recognised. */
  lemma ParsesTemplateResource(skill: SkillInfo)
    requires skill.name != "" && '/' !in skill.name
    ensures ParseSkillNameFromTemplateUri(Some(TemplateResource(skill).uriTemplate)) == Some(skill.name)
  {
    ParseTemplateRoundTrip(skill.name);
  }

  /** An address that does not end in the template's `}`, or is too short
      to hold a name, is not a template of a skill. */
  lemma ParseRejectsShape(u: string)
    requires |u| < |SkillScheme| + 2 + |TemplateSuffix| || u[|u| - 1] != '}'
    ensures ParseSkillNameFromTemplateUri(Some(u)).None?
  {
  }

  /** Addresses that are not templates of a skill are refused: no address,
      another scheme, no name, and the fixed resources of a skill. */
  lemma ParseRejectsNonTemplates()
    ensures ParseSkillNameFromTemplateUri(None).None?
    ensures ParseSkillNameFromTemplateUri(Some("")).None?
    ensures ParseSkillNameFromTemplateUri(Some("http://example.com")).None?
    ensures ParseSkillNameFromTemplateUri(Some("skill://")).None?
    ensures ParseSkillNameFromTemplateUri(Some("skill://name")).None?
    ensures ParseSkillNameFromTemplateUri(Some("skill:///{+path}")).None?
    ensures ParseSkillNameFromTemplateUri(Some("skill://name/SKILL.md")).None?
    ensures ParseSkillNameFromTemplateUri(Some("skill://name/_manifest")).None?
    ensures ParseSkillNameFromTemplateUri(Some("skill://name/some/file.md")).None?
  {
    ParseRejectsShape("");
    ParseRejectsShape("http://example.com");
    ParseRejectsShape("skill://");
    ParseRejectsShape("skill://name");
    ParseRejectsShape("skill:///{+path}");
    ParseRejectsShape("skill://name/SKILL.md");
    ParseRejectsShape("skill://name/_manifest");
    ParseRejectsShape("skill://name/some/file.md");
  }

  /** The answer to a completion request, from the registry's contents. */
  function CompletionFor(skillFiles: map<string, seq<string>>, params: Option<CompleteParams>): (r: Completion)
    ensures r != EmptyCompletion ==>
              && params.Some? && params.value.reference.ResourceTemplateReference?
              && ParseSkillNameFromTemplateUri(params.value.reference.uri).Some?
              && params.value.argument.name == "path"
  {
    if params.None? || !params.value.reference.ResourceTemplateReference? then EmptyCompletion
    else
      match ParseSkillNameFromTemplateUri(params.value.reference.uri)
      case None => EmptyCompletion
      case Some(skillName) =>
        if params.value.argument.name != "path" then EmptyCompletion
        else
          var (values, total, hasMore) := Completions(skillFiles, skillName, params.value.argument.value);
          Completion(values, Some(total), Some(hasMore))
  }

  /** A request about the `path` of a skill's template is answered with
      the registry's values, total and more-flag as they are. */
  lemma CompletionForwardsRegistry(skillFiles: map<string, seq<string>>, name: string, prefix: string)
    requires name != "" && '/' !in name
    ensures var params := CompleteParams(ResourceTemplateReference(Some(SkillScheme + name + "/" + TemplateSuffix)),
                                         Argument("path", prefix));
      var (values, total, hasMore) := Completions(skillFiles, name, prefix);
      CompletionFor(skillFiles, Some(params)) == Completion(values, Some(total), Some(hasMore))
  {
    ParseTemplateRoundTrip(name);
  }

  /** The handler registered by `WithSkillCompletions`. */
  method HandleComplete(registry: SkillCompletionRegistry, params: Option<CompleteParams>) returns (result: Completion)
    ensures result == CompletionFor(registry.skillFiles, params)
  {
    if params.None? || !params.value.reference.ResourceTemplateReference? {
      return EmptyCompletion;
    }
    var skillName := ParseSkillNameFromTemplateUri(params.value.reference.uri);
    if skillName.None? {
      return EmptyCompletion;
    }
    var argumentName := params.value.argument.name;
    if argumentName != "path" {
      return EmptyCompletion;
    }
    var prefix := params.value.argument.value;
    var values, total, hasMore := registry.GetCompletions(skillName.value, prefix);
    return Completion(values, Some(total), Some(hasMore));
  }
}
