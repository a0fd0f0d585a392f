/** The client-side catalog: skills discovered on one or more servers,
    cached by name with their frontmatter and context block, and a
    `load_skill` tool whose description lists the cached names. */
module SkillCatalog {
  import opened Wrappers
  import opened Text
  import opened Dict
  import opened FrontmatterParser
  import opened SkillContext
  import opened SkillTypes
  import opened SkillClientExtensions

  /** A connected client, compared by identity. */
  type ClientId = nat

  datatype CachedSkill = CachedSkill(client: ClientId, resourceUri: string, frontmatter: Frontmatter, context: TextContent)

  datatype LoadSkillTool = LoadSkillTool(name: string, description: string)

  datatype CatalogError = KeyNotFound(skillName: string) | ClientFailure(error: ClientError)

  const LoadSkillToolName := "load_skill"
  const LoadSkillToolPreamble := "Load the full content of a skill by name. Available skills: "

  lemma ContainsExtend(a: string, s: string, sub: string)
    requires Contains(s, sub)
    ensures Contains(a + s, sub)
    decreases |a|
  {
    if |a| == 0 {
      assert a + s == s;
    } else {
      assert (a + s)[1..] == a[1..] + s;
      ContainsExtend(a[1..], s, sub);
      assert Contains((a + s)[1..], sub);
    }
  }

  /** Every part occurs in the joined text. */
  lemma {:induction false} JoinContains(parts: seq<string>, sep: string, i: nat)
    requires i < |parts|
    ensures Contains(Join(parts, sep), parts[i])
    decreases |parts|
  {
    if |parts| == 1 {
      assert parts[0] == "" + parts[0] + "";
      ContainsInfix("", parts[0], "");
    } else if i == 0 {
      ContainsInfix("", parts[0], sep + Join(parts[1..], sep));
      assert "" + parts[0] + (sep + Join(parts[1..], sep)) == Join(parts, sep);
    } else {
      JoinContains(parts[1..], sep, i - 1);
      ContainsExtend(parts[0] + sep, Join(parts[1..], sep), parts[i]);
    }
  }

  /** Names that can be read back from a comma-separated list. */
  predicate ListableNames(names: seq<string>) {
    forall i :: 0 <= i < |names| ==> names[i] != "" && ',' !in names[i]
  }

  /** The first comma of a joined list ends its first name. */
  lemma JoinFirstComma(names: seq<string>)
    requires |names| > 0 && ListableNames(names)
    ensures |Join(names, ", ")| >= |names[0]| > 0
    ensures |names| == 1 ==> Join(names, ", ") == names[0] && IndexOf(Join(names, ", "), ',') == -1
    ensures |names| > 1 ==> var s := Join(names, ", ");
      && IndexOf(s, ',') == |names[0]|
      && s[..|names[0]|] == names[0]
      && s[|names[0]| + 2..] == Join(names[1..], ", ")
  {
    var s := Join(names, ", ");
    if |names| > 1 {
      var n := names[0];
      assert s == n + ", " + Join(names[1..], ", ");
      assert s[..|n|] == n && s[|n|] == ',';
      IndexOfAt(s, ',', |n|);
      assert s[|n| + 2..] == Join(names[1..], ", ");
    }
  }

  /** A comma-separated list of names determines the names, in order. */
  lemma {:induction false} JoinNamesInjective(p: seq<string>, q: seq<string>)
    requires ListableNames(p) && ListableNames(q) && Join(p, ", ") == Join(q, ", ")
    ensures p == q
    decreases |p|
  {
    if |p| > 0 {
      JoinFirstComma(p);
    }
    if |q| > 0 {
      JoinFirstComma(q);
    }
    if |p| > 0 && |q| > 0 {
      if |p| > 1 {
        assert |q| > 1 && |p[0]| == |q[0]|;
        assert p[0] == q[0];
        assert ListableNames(p[1..]) && ListableNames(q[1..]);
        JoinNamesInjective(p[1..], q[1..]);
        assert p == [p[0]] + p[1..] && q == [q[0]] + q[1..];
      }
    }
  }

  /** `BuildLoadSkillTool`: the tool is named `load_skill`, and its
      description is the preamble followed by the cached names, in cache
      order, separated by `", "`. */
  function BuildLoadSkillTool(cache: Dict<CachedSkill>): (t: LoadSkillTool)
    ensures t.name == LoadSkillToolName
    ensures t.description == LoadSkillToolPreamble + Join(Keys(cache), ", ")
    ensures StartsWith(t.description, LoadSkillToolPreamble)
    ensures forall k :: k in Keys(cache) ==> Contains(t.description, k)
  {
    var names := Join(Keys(cache), ", ");
    var description := LoadSkillToolPreamble + names;
    assert description[..|LoadSkillToolPreamble|] == LoadSkillToolPreamble;
    forall k | k in Keys(cache) ensures Contains(description, k) {
      var i :| 0 <= i < |Keys(cache)| && Keys(cache)[i] == k;
      JoinContains(Keys(cache), ", ", i);
      ContainsExtend(LoadSkillToolPreamble, names, k);
    }
    LoadSkillTool(LoadSkillToolName, description)
  }

  /** The description reads back as the cache's names: two caches whose
      names have no comma get the same description only when they hold the
      same names in the same order. */
  lemma LoadSkillToolNamesKeys(c1: Dict<CachedSkill>, c2: Dict<CachedSkill>)
    requires ListableNames(Keys(c1)) && ListableNames(Keys(c2))
    requires BuildLoadSkillTool(c1).description == BuildLoadSkillTool(c2).description
    ensures Keys(c1) == Keys(c2)
  {
    var n1, n2 := Join(Keys(c1), ", "), Join(Keys(c2), ", ");
    assert (LoadSkillToolPreamble + n1)[|LoadSkillToolPreamble|..] == n1;
    assert (LoadSkillToolPreamble + n2)[|LoadSkillToolPreamble|..] == n2;
    JoinNamesInjective(Keys(c1), Keys(c2));
  }

  /** The first content of a read, when it is text. */
  function FirstText(contents: seq<ResourceContents>): Option<string> {
    if |contents| > 0 && contents[0].TextResourceContents? then Some(contents[0].text) else None
  }

  /** One discovered skill of `AddClientAsync`: a failed read ends the
      whole addition; a skill whose first content is not text is skipped;
      otherwise its entry is written, replacing any earlier one of that
      name. */
  function AddSkill(cache: Dict<CachedSkill>, client: ClientId, server: Server, formatter: Option<Formatter>,
                    skill: SkillSummary): (r: (Outcome<ClientError>, Dict<CachedSkill>))
  {
    match Read(server, skill.uri)
    case Failure(e) => (Fail(e), cache)
    case Success(contents) =>
      match FirstText(contents)
      case None => (Pass, cache)
      case Some(text) =>
        var fm := ParseResult(text).0;
        (Pass, Put(cache, skill.name, CachedSkill(client, skill.uri, fm, ToTextContent(fm, formatter))))
  }

  /** The discovered skills added in order, stopping at the first failure. */
  function AddSkills(cache: Dict<CachedSkill>, client: ClientId, server: Server, formatter: Option<Formatter>,
                     skills: seq<SkillSummary>): (r: (Outcome<ClientError>, Dict<CachedSkill>))
    decreases |skills|
  {
    if |skills| == 0 then (Pass, cache)
    else
      var (o, c) := AddSkills(cache, client, server, formatter, skills[..|skills| - 1]);
      if o.Fail? then (o, c) else AddSkill(c, client, server, formatter, skills[|skills| - 1])
  }

  lemma AddSkillsSlice(cache: Dict<CachedSkill>, client: ClientId, server: Server, formatter: Option<Formatter>,
                       skills: seq<SkillSummary>, i: nat)
    requires i < |skills|
    ensures var (o, c) := AddSkills(cache, client, server, formatter, skills[..i]);
      AddSkills(cache, client, server, formatter, skills[..i + 1])
      == if o.Fail? then (o, c) else AddSkill(c, client, server, formatter, skills[i])
  {
    assert skills[..i + 1][..i] == skills[..i];
  }

  lemma {:induction false} AddSkillsFailurePersists(cache: Dict<CachedSkill>, client: ClientId, server: Server,
                                                    formatter: Option<Formatter>, skills: seq<SkillSummary>, n: nat)
    requires n <= |skills| && AddSkills(cache, client, server, formatter, skills[..n]).0.Fail?
    ensures AddSkills(cache, client, server, formatter, skills) == AddSkills(cache, client, server, formatter, skills[..n])
    decreases |skills| - n
  {
    if n < |skills| {
      assert skills[..n + 1][..n] == skills[..n];
      AddSkillsFailurePersists(cache, client, server, formatter, skills, n + 1);
    } else {
      assert skills[..n] == skills;
    }
  }

  /** Adding keeps every name cached once. */
  lemma {:induction false} AddSkillsUnique(cache: Dict<CachedSkill>, client: ClientId, server: Server,
                                           formatter: Option<Formatter>, skills: seq<SkillSummary>)
    requires UniqueKeys(cache)
    ensures UniqueKeys(AddSkills(cache, client, server, formatter, skills).1)
    decreases |skills|
  {
    if |skills| > 0 {
      var init := skills[..|skills| - 1];
      AddSkillsUnique(cache, client, server, formatter, init);
      var c := AddSkills(cache, client, server, formatter, init).1;
      var last := skills[|skills| - 1];
      if Read(server, last.uri).Success? && FirstText(Read(server, last.uri).value).Some? {
        var fm := ParseResult(FirstText(Read(server, last.uri).value).value).0;
        PutUnique(c, last.name, CachedSkill(client, last.uri, fm, ToTextContent(fm, formatter)));
      }
    }
  }

  /** The skill is readable as text on the server. */
  predicate Readable(server: Server, uri: string) {
    Read(server, uri).Success? && FirstText(Read(server, uri).value).Some?
  }

  /** A completed addition caches every discovered skill that reads as
      text under the adding client, whichever client held the name before. */
  lemma {:induction false} AddSkillsOverwrites(cache: Dict<CachedSkill>, client: ClientId, server: Server,
                                               formatter: Option<Formatter>, skills: seq<SkillSummary>, s: nat)
    requires s < |skills| && Readable(server, skills[s].uri)
    requires AddSkills(cache, client, server, formatter, skills).0.Pass?
    ensures var r := Get(AddSkills(cache, client, server, formatter, skills).1, skills[s].name);
      r.Some? && r.value.client == client
    decreases |skills|
  {
    var init := skills[..|skills| - 1];
    var last := skills[|skills| - 1];
    var c := AddSkills(cache, client, server, formatter, init).1;
    var name := skills[s].name;
    if s == |skills| - 1 {
      var fm := ParseResult(FirstText(Read(server, last.uri).value).value).0;
      GetPutSame(c, last.name, CachedSkill(client, last.uri, fm, ToTextContent(fm, formatter)));
    } else {
      assert init[s] == skills[s];
      AddSkillsOverwrites(cache, client, server, formatter, init, s);
      if Readable(server, last.uri) && last.name != name {
        var fm := ParseResult(FirstText(Read(server, last.uri).value).value).0;
        GetPutOther(c, last.name, CachedSkill(client, last.uri, fm, ToTextContent(fm, formatter)), name);
      } else if Readable(server, last.uri) {
        var fm := ParseResult(FirstText(Read(server, last.uri).value).value).0;
        GetPutSame(c, last.name, CachedSkill(client, last.uri, fm, ToTextContent(fm, formatter)));
      }
    }
  }

  /** A name that no discovered skill readable as text has keeps its
      entry: skills whose first content is not text leave it untouched. */
  lemma {:induction false} AddSkillsKeepsOthers(cache: Dict<CachedSkill>, client: ClientId, server: Server,
                                                formatter: Option<Formatter>, skills: seq<SkillSummary>, name: string)
    requires forall i :: 0 <= i < |skills| && skills[i].name == name ==> !Readable(server, skills[i].uri)
    ensures Get(AddSkills(cache, client, server, formatter, skills).1, name) == Get(cache, name)
    decreases |skills|
  {
    if |skills| > 0 {
      var init := skills[..|skills| - 1];
      var last := skills[|skills| - 1];
      assert forall i :: 0 <= i < |init| ==> init[i] == skills[i];
      AddSkillsKeepsOthers(cache, client, server, formatter, init, name);
      var c := AddSkills(cache, client, server, formatter, init).1;
      assert skills[|skills| - 1] == last;
      if Readable(server, last.uri) {
        var fm := ParseResult(FirstText(Read(server, last.uri).value).value).0;
        GetPutOther(c, last.name, CachedSkill(client, last.uri, fm, ToTextContent(fm, formatter)), name);
      }
    }
  }

  /** Every cached entry is what its client's server serves now: the
      skill reads as text, the cached frontmatter is that text's, and the
      context block is built from it. */
  ghost predicate Current(cache: Dict<CachedSkill>, servers: ClientId -> Server, formatter: Option<Formatter>) {
    forall e :: e in cache ==>
      && Readable(servers(e.1.client), e.1.resourceUri)
      && e.1.frontmatter == ParseResult(FirstText(Read(servers(e.1.client), e.1.resourceUri).value).value).0
      && e.1.context == ToTextContent(e.1.frontmatter, formatter)
  }

  /** Adding from a server keeps the cache current with it, even when the
      addition stops part-way. */
  lemma {:induction false} AddSkillsCurrent(cache: Dict<CachedSkill>, client: ClientId, servers: ClientId -> Server,
                                            formatter: Option<Formatter>, skills: seq<SkillSummary>)
    requires Current(cache, servers, formatter)
    ensures Current(AddSkills(cache, client, servers(client), formatter, skills).1, servers, formatter)
    decreases |skills|
  {
    if |skills| > 0 {
      var server := servers(client);
      var init := skills[..|skills| - 1];
      AddSkillsCurrent(cache, client, servers, formatter, init);
      var (o, c) := AddSkills(cache, client, server, formatter, init);
      var last := skills[|skills| - 1];
      if o.Pass? && Readable(server, last.uri) {
        var fm := ParseResult(FirstText(Read(server, last.uri).value).value).0;
        PutEntries(c, last.name, CachedSkill(client, last.uri, fm, ToTextContent(fm, formatter)));
      }
    }
  }

  /** The keys cached for a client, in cache order. */
  function ClientKeys(cache: Dict<CachedSkill>, client: ClientId): seq<string>
    decreases |cache|
  {
    if |cache| == 0 then []
    else (if cache[0].1.client == client then [cache[0].0] else []) + ClientKeys(cache[1..], client)
  }

  /** The keys removed one after the other. */
  function RemoveAll(cache: Dict<CachedSkill>, keys: seq<string>): Dict<CachedSkill>
    decreases |keys|
  {
    if |keys| == 0 then cache else RemoveAll(Remove(cache, keys[0]), keys[1..])
  }

  /** The entries of every other client, in order. */
  function DropClient(cache: Dict<CachedSkill>, client: ClientId): (r: Dict<CachedSkill>)
    ensures forall e :: e in r <==> e in cache && e.1.client != client
    decreases |cache|
  {
    if |cache| == 0 then []
    else
      assert cache == [cache[0]] + cache[1..];
      (if cache[0].1.client == client then [] else [cache[0]]) + DropClient(cache[1..], client)
  }

  /** Removing keys that the first entry does not have leaves it first. */
  lemma {:induction false} RemoveAllKeepsHead(e: (string, CachedSkill), rest: Dict<CachedSkill>, keys: seq<string>)
    requires e.0 !in keys
    ensures RemoveAll([e] + rest, keys) == [e] + RemoveAll(rest, keys)
    decreases |keys|
  {
    if |keys| > 0 {
      var d := [e] + rest;
      assert d[0] == e && d[1..] == rest;
      assert Remove(d, keys[0]) == [e] + Remove(rest, keys[0]);
      RemoveAllKeepsHead(e, Remove(rest, keys[0]), keys[1..]);
    }
  }

  lemma {:induction false} ClientKeysOfTail(cache: Dict<CachedSkill>, client: ClientId)
    ensures forall k :: k in ClientKeys(cache, client) ==> k in Keys(cache)
    decreases |cache|
  {
    if |cache| > 0 {
      ClientKeysOfTail(cache[1..], client);
      assert Keys(cache) == [cache[0].0] + Keys(cache[1..]);
    }
  }

  /** Removing the keys of a client, one after the other, drops exactly
      that client's entries. */
  lemma {:induction false} RemoveClientKeys(cache: Dict<CachedSkill>, client: ClientId)
    requires UniqueKeys(cache)
    ensures RemoveAll(cache, ClientKeys(cache, client)) == DropClient(cache, client)
    decreases |cache|
  {
    if |cache| > 0 {
      var e := cache[0];
      var rest := cache[1..];
      assert cache == [e] + rest;
      assert UniqueKeys(rest) by {
        forall i, j | 0 <= i < j < |rest| ensures rest[i].0 != rest[j].0 {
          assert rest[i] == cache[i + 1] && rest[j] == cache[j + 1];
        }
      }
      RemoveClientKeys(rest, client);
      var ks := ClientKeys(rest, client);
      if e.1.client == client {
        assert ClientKeys(cache, client) == [e.0] + ks;
        assert Remove(cache, e.0) == rest;
        assert ([e.0] + ks)[1..] == ks;
      } else {
        assert ClientKeys(cache, client) == ks;
        ClientKeysOfTail(rest, client);
        assert e.0 !in ks by {
          forall i | 0 <= i < |rest| ensures rest[i].0 != e.0 {
            assert rest[i] == cache[i + 1];
          }
        }
        RemoveAllKeepsHead(e, rest, ks);
      }
    }
  }

  /** After removing a client, its names are gone and the others are
      looked up as before. */
  lemma {:induction false} GetDropClient(cache: Dict<CachedSkill>, client: ClientId, k: string)
    requires UniqueKeys(cache)
    ensures Get(DropClient(cache, client), k) ==
              if Get(cache, k).Some? && Get(cache, k).value.client == client then None else Get(cache, k)
    decreases |cache|
  {
    if |cache| > 0 {
      var head := cache[0];
      var rest := cache[1..];
      assert UniqueKeys(rest) by {
        forall i, j | 0 <= i < j < |rest| ensures rest[i].0 != rest[j].0 {
          assert rest[i] == cache[i + 1] && rest[j] == cache[j + 1];
        }
      }
      GetDropClient(rest, client, k);
      var dropped := DropClient(rest, client);
      assert DropClient(cache, client) == (if head.1.client == client then [] else [head]) + dropped;
      if head.0 == k {
        assert Get(cache, k) == Some(head.1);
        assert !HasKey(rest, k) by {
          forall i | 0 <= i < |rest| ensures rest[i].0 != k {
            assert rest[i] == cache[i + 1];
          }
        }
        assert Get(dropped, k).None?;
        if head.1.client != client {
          assert ([head] + dropped)[0] == head;
        }
      } else {
        assert Get(cache, k) == Get(rest, k);
        if head.1.client != client {
          assert ([head] + dropped)[0] == head && ([head] + dropped)[1..] == dropped;
        } else {
          assert [] + dropped == dropped;
        }
      }
    }
  }

  /** One pass of the loop in `AddClientAsync`: reads the skill's
      document and caches its parsed frontmatter and context block. */
  method CacheSkill(cache: Dict<CachedSkill>, client: ClientId, server: Server, formatter: Option<Formatter>,
                    skill: SkillSummary) returns (o: Outcome<ClientError>, updated: Dict<CachedSkill>)
    ensures (o, updated) == AddSkill(cache, client, server, formatter, skill)
  {
    var result := Read(server, skill.uri);
    if result.Failure? {
      return Fail(result.error), cache;
    }
    var content := FirstText(result.value);
    if content.None? {
      return Pass, cache;
    }
    var frontmatter, _ := Parse(content.value);
    var context := ToTextContent(frontmatter, formatter);
    return Pass, Put(cache, skill.name, CachedSkill(client, skill.uri, frontmatter, context));
  }

  /** The loop of `AddClientAsync` over the discovered skills, stopping at
      the first failed read. */
  method CacheSkills(cache: Dict<CachedSkill>, client: ClientId, server: Server, formatter: Option<Formatter>,
                     skills: seq<SkillSummary>) returns (o: Outcome<ClientError>, entries: Dict<CachedSkill>)
    ensures (o, entries) == AddSkills(cache, client, server, formatter, skills)
  {
    entries := cache;
    for i := 0 to |skills|
      invariant AddSkills(cache, client, server, formatter, skills[..i]) == (Pass, entries)
    {
      AddSkillsSlice(cache, client, server, formatter, skills, i);
      o, entries := CacheSkill(entries, client, server, formatter, skills[i]);
      if o.Fail? {
        AddSkillsFailurePersists(cache, client, server, formatter, skills, i + 1);
        assert skills[..|skills|] == skills;
        return;
      }
    }
    assert skills[..|skills|] == skills;
    return Pass, entries;
  }

  class SkillCatalog {
    /** Skill name to its cached entry, in insertion order. */
    var cache: Dict<CachedSkill>
    const contextFormatter: Option<Formatter>
    var loadSkillTool: LoadSkillTool

    /** No name is cached twice. */
    ghost predicate Valid()
      reads this
    {
      UniqueKeys(cache)
    }

    /** An empty catalog, whose tool lists no skill. */
    constructor(contextFormatter: Option<Formatter>)
      ensures Valid() && cache == [] && this.contextFormatter == contextFormatter
      ensures loadSkillTool == BuildLoadSkillTool([])
    {
      cache := [];
      this.contextFormatter := contextFormatter;
      loadSkillTool := BuildLoadSkillTool([]);
    }

    /** `AddClientAsync`. A failed read leaves the entries written so far
        and the tool as it was. */
    method AddClient(client: ClientId, server: Server) returns (outcome: Outcome<ClientError>)
      requires Valid()
      modifies this
      ensures Valid()
      ensures (outcome, cache) == AddSkills(old(cache), client, server, contextFormatter, Discover(server.listing))
      ensures outcome.Pass? ==> loadSkillTool == BuildLoadSkillTool(cache)
      ensures outcome.Fail? ==> loadSkillTool == old(loadSkillTool)
    {
      var skills := ListSkills(server);
      var entries;
      outcome, entries := CacheSkills(cache, client, server, contextFormatter, skills);
      AddSkillsUnique(cache, client, server, contextFormatter, skills);
      cache := entries;
      if outcome.Pass? {
        loadSkillTool := BuildLoadSkillTool(cache);
      }
    }

    /** `RemoveClient`: every entry of the client is removed, the others
        keep their order, and the tool is rebuilt. */
    method RemoveClient(client: ClientId)
      requires Valid()
      modifies this
      ensures Valid()
      ensures cache == DropClient(old(cache), client)
      ensures loadSkillTool == BuildLoadSkillTool(cache)
    {
      var keysToRemove := ClientKeys(cache, client);
      ghost var start := cache;
      for i := 0 to |keysToRemove|
        invariant RemoveAll(cache, keysToRemove[i..]) == RemoveAll(start, keysToRemove)
        invariant UniqueKeys(cache)
      {
        assert keysToRemove[i..][1..] == keysToRemove[i + 1..];
        RemoveUnique(cache, keysToRemove[i]);
        cache := Remove(cache, keysToRemove[i]);
      }
      RemoveClientKeys(start, client);
      loadSkillTool := BuildLoadSkillTool(cache);
    }

    /** `SkillNames`. */
    method SkillNames() returns (names: seq<string>)
      ensures |names| == |cache|
      ensures forall k :: k in names <==> HasKey(cache, k)
    {
      names := Keys(cache);
    }

    /** `GetSkillContext`: the cached block, or the name is unknown. */
    method GetSkillContext(skillName: string) returns (r: Result<TextContent, CatalogError>)
      ensures r.Success? <==> HasKey(cache, skillName)
      ensures r.Success? ==> (skillName, Get(cache, skillName).value) in cache && r.value == Get(cache, skillName).value.context
      ensures r.Failure? ==> r.error == KeyNotFound(skillName)
    {
      var cached := Get(cache, skillName);
      if cached.None? {
        return Failure(KeyNotFound(skillName));
      }
      GetIsEntry(cache, skillName);
      return Success(cached.value.context);
    }

    /** `GetSkillContexts`: one block per cached skill, in cache order. */
    method GetSkillContexts() returns (contexts: seq<TextContent>)
      ensures |contexts| == |cache|
      ensures forall i :: 0 <= i < |cache| ==> contexts[i] == cache[i].1.context
    {
      var entries := cache;
      contexts := seq(|entries|, i requires 0 <= i < |entries| => entries[i].1.context);
    }

    /** `LoadSkillAsync`: the skill's document re-read from its client. */
    method LoadSkill(skillName: string, servers: ClientId -> Server) returns (r: Result<string, CatalogError>)
      ensures !HasKey(cache, skillName) ==> r == Failure(KeyNotFound(skillName))
      ensures HasKey(cache, skillName) ==>
                var cached := Get(cache, skillName).value;
                match Read(servers(cached.client), cached.resourceUri)
                case Failure(e) => r == Failure(ClientFailure(e))
                case Success(contents) =>
                  if FirstText(contents).Some? then r == Success(FirstText(contents).value)
                  else r == Failure(ClientFailure(InvalidOperation("No text content returned for skill '" + skillName + "'.")))
    {
      var cached := Get(cache, skillName);
      if cached.None? {
        return Failure(KeyNotFound(skillName));
      }
      var result := Read(servers(cached.value.client), cached.value.resourceUri);
      if result.Failure? {
        return Failure(ClientFailure(result.error));
      }
      var content := FirstText(result.value);
      if content.Some? {
        return Success(content.value);
      }
      return Failure(ClientFailure(InvalidOperation("No text content returned for skill '" + skillName + "'.")));
    }
  }

  /** While the servers serve what they served when the skill was added,
      loading it returns the document whose frontmatter and context block
      are cached. */
  lemma LoadMatchesCache(cache: Dict<CachedSkill>, servers: ClientId -> Server, formatter: Option<Formatter>,
                         skillName: string)
    requires Current(cache, servers, formatter) && HasKey(cache, skillName)
    ensures var cached := Get(cache, skillName).value;
      var read := Read(servers(cached.client), cached.resourceUri);
      && read.Success? && FirstText(read.value).Some?
      && ParseResult(FirstText(read.value).value).0 == cached.frontmatter
      && cached.context == ToTextContent(cached.frontmatter, formatter)
  {
    GetIsEntry(cache, skillName);
  }

  /** Removing a client keeps the rest of the cache current. */
  lemma DropClientCurrent(cache: Dict<CachedSkill>, servers: ClientId -> Server, formatter: Option<Formatter>,
                          client: ClientId)
    requires Current(cache, servers, formatter)
    ensures Current(DropClient(cache, client), servers, formatter)
  {
  }
}
