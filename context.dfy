/** The `name: description` context block built from a skill's
    frontmatter, with a replaceable formatter. */
module SkillContext {
  import opened Wrappers
  import opened Text
  import opened Dict
  import opened FrontmatterParser
  import opened SkillTypes

  /** What `ToString` gives for the two non-string value kinds. */
  const ListTypeName := "System.Collections.Generic.List`1[System.String]"
  const DictionaryTypeName := "System.Collections.Generic.Dictionary`2[System.String,System.String]"

  function ValueText(v: Value): string {
    match v
    case Str(s) => s
    case List(_) => ListTypeName
    case Map(_) => DictionaryTypeName
  }

  /** The text of a field, `""` when it is absent. */
  function FieldText(fm: Frontmatter, key: string): (r: string)
    ensures Get(fm, key).None? ==> r == ""
    ensures Get(fm, key) == Some(Str(r)) || Get(fm, key).None? || r == ListTypeName || r == DictionaryTypeName
  {
    match Get<Value>(fm, key)
    case Some(v) => ValueText(v)
    case None => ""
  }

  type Formatter = Frontmatter -> string

  /** `DefaultFormatter`. */
  function DefaultFormatter(fm: Frontmatter): (r: string)
    ensures |r| == |FieldText(fm, "name")| + 2 + |FieldText(fm, "description")|
    ensures r[|FieldText(fm, "name")|..|FieldText(fm, "name")| + 2] == ": "
  {
    FieldText(fm, "name") + ": " + FieldText(fm, "description")
  }

  /** When the name holds no colon, the text splits back at its first colon
      into the name and the description. */
  lemma DefaultFormatterSplits(fm: Frontmatter)
    requires ':' !in FieldText(fm, "name")
    ensures var r := DefaultFormatter(fm);
      var k := IndexOf(r, ':');
      && k == |FieldText(fm, "name")|
      && r[..k] == FieldText(fm, "name")
      && r[k + 2..] == FieldText(fm, "description")
  {
    ColonJoinSplits(FieldText(fm, "name"), FieldText(fm, "description"));
  }

  lemma ColonJoinSplits(a: string, b: string)
    requires ':' !in a
    ensures var r := a + ": " + b;
      && IndexOf(r, ':') == |a|
      && r[..|a|] == a
      && r[|a| + 2..] == b
  {
    var r := a + ": " + b;
    assert r[..|a|] == a;
    assert r[|a|] == ':';
    IndexOfAt(r, ':', |a|);
    assert r[|a| + 2..] == b;
  }

  /** String fields are used as they are, missing ones as `""`. */
  lemma DefaultFormatterFields(fm: Frontmatter, name: string, description: string)
    requires Get(fm, "name") == Some(Str(name)) || (Get(fm, "name").None? && name == "")
    requires Get(fm, "description") == Some(Str(description)) || (Get(fm, "description").None? && description == "")
    ensures DefaultFormatter(fm) == name + ": " + description
  {
  }

  /** An empty frontmatter formats to `": "`. */
  lemma DefaultFormatterEmpty()
    ensures DefaultFormatter([]) == ": "
  {
  }

  /** `ToTextContent`: the given formatter, or the default one. */
  function ToTextContent(fm: Frontmatter, formatter: Option<Formatter>): (r: TextContent)
    ensures formatter.Some? ==> r.text == formatter.value(fm)
    ensures formatter.None? ==> r.text == DefaultFormatter(fm)
  {
    TextContent(formatter.GetOr(DefaultFormatter)(fm))
  }

  /** `AsTextContent`: the context block of a scanned skill's frontmatter. */
  function AsTextContent(skill: SkillInfo, formatter: Option<Formatter>): (r: TextContent)
    ensures r == ToTextContent(skill.frontmatter, formatter)
  {
    ToTextContent(skill.frontmatter, formatter)
  }
}
