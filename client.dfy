/** The client side of skill exchange: discovering the skills a server
    lists, reading a skill's manifest, downloading its files to a local
    directory, and syncing every skill of a server. The server is a
    listing plus the contents each URI reads as. */
module SkillClientExtensions {
  import opened Wrappers
  import opened Text
  import opened Paths
  import opened SkillTypes
  import opened Seqs

  /** A resource as the server lists it. */
  datatype ListedResource = ListedResource(uri: string, description: Option<string>)

  /** What a server offers: its resource listing, and what reading a URI
      returns (a URI it does not know is answered with a protocol error). */
  datatype Server = Server(listing: seq<ListedResource>, contents: map<string, seq<ResourceContents>>)

  datatype ClientError =
    | McpError(uri: string)
    | InvalidOperation(message: string)
    | JsonError(message: string)
    | IOError(message: string)
    | ArgumentOutOfRange

  const SkillUriPrefix := "skill://"
  const SkillMdSuffix := "/SKILL.md"

  /** The two tests of discovery. */
  predicate LooksLikeSkillUri(uri: string) {
    StartsWith(uri, SkillUriPrefix) && EndsWith(uri, SkillMdSuffix)
  }

  /** A discoverable URI: both tests, and long enough that prefix and
      suffix do not overlap. */
  predicate IsSkillUri(uri: string) {
    LooksLikeSkillUri(uri) && |uri| >= |SkillUriPrefix| + |SkillMdSuffix|
  }

  /** The text between prefix and suffix. */
  function SkillNameOf(uri: string): (name: string)
    requires IsSkillUri(uri)
    ensures uri == SkillUriPrefix + name + SkillMdSuffix
  {
    var name := uri[|SkillUriPrefix|..|uri| - |SkillMdSuffix|];
    assert uri == uri[..|SkillUriPrefix|] + name + uri[|uri| - |SkillMdSuffix|..];
    name
  }

  function Summary(r: ListedResource): SkillSummary
    requires IsSkillUri(r.uri)
  {
    SkillSummary(SkillNameOf(r.uri), r.description.GetOr(""), r.uri)
  }

  /** `ListSkillsAsync` as written: a URI that passes both tests but is
      shorter than prefix and suffix together (`skill://SKILL.md`, where
      they share the `/`) makes the substring length negative, and the
      call throws. */
  function ListSkillsAsWritten(listing: seq<ListedResource>): (r: Result<seq<SkillSummary>, ClientError>)
    ensures r.Failure? <==> exists i :: 0 <= i < |listing| && LooksLikeSkillUri(listing[i].uri)
                                        && |listing[i].uri| < |SkillUriPrefix| + |SkillMdSuffix|
    ensures r.Failure? ==> r.error == ArgumentOutOfRange
    decreases |listing|
  {
    if |listing| == 0 then Success([])
    else
      match ListSkillsAsWritten(listing[..|listing| - 1])
      case Failure(e) => Failure(e)
      case Success(init) =>
        var res := listing[|listing| - 1];
        if !LooksLikeSkillUri(res.uri) then Success(init)
        else if |res.uri| < |SkillUriPrefix| + |SkillMdSuffix| then Failure(ArgumentOutOfRange)
        else Success(init + [Summary(res)])
  }

  /** Discovery as intended: the summaries of the `skill://{name}/SKILL.md`
      resources, in listing order. */
  function Discover(listing: seq<ListedResource>): (r: seq<SkillSummary>)
    ensures |r| <= |listing|
    ensures forall s :: s in r ==> s.uri == SkillUriPrefix + s.name + SkillMdSuffix
    decreases |listing|
  {
    if |listing| == 0 then []
    else
      var res := listing[|listing| - 1];
      Discover(listing[..|listing| - 1]) + (if IsSkillUri(res.uri) then [Summary(res)] else [])
  }

  /** A single resource contributes its summary exactly when its URI is a
      skill URI. */
  lemma DiscoverOne(r: ListedResource)
    ensures Discover([r]) == if IsSkillUri(r.uri) then [Summary(r)] else []
  {
    assert [r][..0] == [];
  }

  /** Discovery works resource by resource: the summaries of a listing are
      those of its first part followed by those of the rest. */
  lemma {:induction false} DiscoverAppend(a: seq<ListedResource>, b: seq<ListedResource>)
    ensures Discover(a + b) == Discover(a) + Discover(b)
    decreases |b|
  {
    if |b| == 0 {
      assert a + b == a;
    } else {
      var init := b[..|b| - 1];
      var last := b[|b| - 1];
      assert (a + b)[..|a + b| - 1] == a + init && (a + b)[|a + b| - 1] == last;
      DiscoverAppend(a, init);
      AppendAssociative3(Discover(a), Discover(init), if IsSkillUri(last.uri) then [Summary(last)] else []);
    }
  }

  /** Every skill URI of the listing is discovered, and every discovered
      summary is that of a skill URI of the listing. */
  lemma {:induction false} DiscoverExact(listing: seq<ListedResource>)
    ensures forall i :: 0 <= i < |listing| && IsSkillUri(listing[i].uri) ==> Summary(listing[i]) in Discover(listing)
    ensures forall s :: s in Discover(listing) ==>
              exists i :: 0 <= i < |listing| && IsSkillUri(listing[i].uri) && s == Summary(listing[i])
    decreases |listing|
  {
    if |listing| > 0 {
      var init := listing[..|listing| - 1];
      var last := listing[|listing| - 1];
      DiscoverExact(init);
      var tail := if IsSkillUri(last.uri) then [Summary(last)] else [];
      assert Discover(listing) == Discover(init) + tail;
      forall i | 0 <= i < |listing| && IsSkillUri(listing[i].uri)
        ensures Summary(listing[i]) in Discover(listing)
      {
        if i < |init| {
          assert init[i] == listing[i];
        }
      }
      forall s | s in Discover(listing)
        ensures exists i :: 0 <= i < |listing| && IsSkillUri(listing[i].uri) && s == Summary(listing[i])
      {
        if s in Discover(init) {
          var i :| 0 <= i < |init| && IsSkillUri(init[i].uri) && s == Summary(init[i]);
          assert init[i] == listing[i];
        } else {
          assert s == Summary(listing[|listing| - 1]);
        }
      }
    }
  }

  /** The finding: the listing of one resource at `skill://SKILL.md` makes
      discovery as written fail, where the intended discovery skips it. */
  lemma ListSkillsOverlapExample()
    ensures ListSkillsAsWritten([ListedResource("skill://SKILL.md", None)]) == Failure(ArgumentOutOfRange)
    ensures Discover([ListedResource("skill://SKILL.md", None)]) == []
  {
    var uri := "skill://SKILL.md";
    assert uri[..|SkillUriPrefix|] == SkillUriPrefix;
    assert uri[|uri| - |SkillMdSuffix|..] == SkillMdSuffix;
    var l := [ListedResource(uri, None)];
    assert l[..0] == [];
  }

  /** Where no listed URI overlaps, discovery as written and as intended
      agree. */
  lemma {:induction false} ListSkillsAgree(listing: seq<ListedResource>)
    requires forall i :: 0 <= i < |listing| && LooksLikeSkillUri(listing[i].uri) ==>
               |listing[i].uri| >= |SkillUriPrefix| + |SkillMdSuffix|
    ensures ListSkillsAsWritten(listing) == Success(Discover(listing))
    decreases |listing|
  {
    if |listing| > 0 {
      var init := listing[..|listing| - 1];
      assert forall i :: 0 <= i < |init| ==> init[i] == listing[i];
      ListSkillsAgree(init);
      var last := listing[|listing| - 1];
      assert LooksLikeSkillUri(last.uri) ==> |last.uri| >= |SkillUriPrefix| + |SkillMdSuffix|;
      assert ListSkillsAsWritten(listing) ==
        (if !LooksLikeSkillUri(last.uri) then Success(Discover(init)) else Success(Discover(init) + [Summary(last)]));
      assert Discover(listing) == Discover(init) + (if IsSkillUri(last.uri) then [Summary(last)] else []);
      if LooksLikeSkillUri(last.uri) {
        assert ListSkillsAsWritten(listing) == Success(Discover(listing));
      } else {
        assert Discover(listing) == Discover(init);
        assert ListSkillsAsWritten(listing) == Success(Discover(listing));
      }
    } else {
      assert ListSkillsAsWritten(listing) == Success([]);
    }
  }

  /** The main-file resource of a skill named without a `/` is discovered
      under that name. */
  lemma DiscoverMainResource(name: string, description: string)
    ensures var uri := SkillUriPrefix + name + SkillMdSuffix;
      Discover([ListedResource(uri, Some(description))]) == [SkillSummary(name, description, uri)]
  {
    var uri := SkillUriPrefix + name + SkillMdSuffix;
    assert uri[..|SkillUriPrefix|] == SkillUriPrefix;
    assert uri[|uri| - |SkillMdSuffix|..] == SkillMdSuffix;
    assert uri[|SkillUriPrefix|..|uri| - |SkillMdSuffix|] == name;
    var l := [ListedResource(uri, Some(description))];
    assert l[..0] == [];
  }

  /** `ListSkillsAsync`, with the intended filter. */
  method ListSkills(server: Server) returns (skills: seq<SkillSummary>)
    ensures skills == Discover(server.listing)
  {
    skills := [];
    var resources := server.listing;
    for i := 0 to |resources|
      invariant skills == Discover(resources[..i])
    {
      assert resources[..i + 1][..i] == resources[..i];
      var uri := resources[i].uri;
      if StartsWith(uri, SkillUriPrefix) && EndsWith(uri, SkillMdSuffix) && |uri| >= |SkillUriPrefix| + |SkillMdSuffix| {
        var name := uri[|SkillUriPrefix|..|uri| - |SkillMdSuffix|];
        skills := skills + [SkillSummary(name, resources[i].description.GetOr(""), uri)];
      }
    }
    assert resources[..|resources|] == resources;
  }

  // ---------------------------------------------------------------------
  // Reading

  /** `ReadResourceAsync(uri)`: the contents, or a protocol error. */
  function Read(server: Server, uri: string): (r: Result<seq<ResourceContents>, ClientError>)
    ensures r.Success? <==> uri in server.contents
  {
    if uri in server.contents then Success(server.contents[uri]) else Failure(McpError(uri))
  }

  function ManifestUri(skillName: string): string {
    SkillUriPrefix + skillName + "/_manifest"
  }

  /** The JSON reader: a manifest, `null`, or a malformed document. */
  type Deserializer = string -> Result<Option<SkillManifest>, string>

  /** `GetSkillManifestAsync`. */
  function GetSkillManifest(server: Server, deserialize: Deserializer, skillName: string)
    : (r: Result<SkillManifest, ClientError>)
    ensures r.Success? <==>
              && ManifestUri(skillName) in server.contents
              && |server.contents[ManifestUri(skillName)]| > 0
              && server.contents[ManifestUri(skillName)][0].TextResourceContents?
              && deserialize(server.contents[ManifestUri(skillName)][0].text).Success?
              && deserialize(server.contents[ManifestUri(skillName)][0].text).value.Some?
    ensures r.Success? ==> r.value == deserialize(server.contents[ManifestUri(skillName)][0].text).value.value
    ensures r.Failure? ==> !r.error.IOError?
  {
    match Read(server, ManifestUri(skillName))
    case Failure(e) => Failure(e)
    case Success(contents) =>
      if |contents| == 0 then
        Failure(InvalidOperation("No content returned for manifest of skill '" + skillName + "'."))
      else if !contents[0].TextResourceContents? then
        Failure(InvalidOperation("Unexpected content type for manifest of skill '" + skillName + "'."))
      else
        match deserialize(contents[0].text)
        case Failure(message) => Failure(JsonError(message))
        case Success(None) => Failure(InvalidOperation("Failed to deserialize manifest for skill '" + skillName + "'."))
        case Success(Some(manifest)) => Success(manifest)
  }

  // ---------------------------------------------------------------------
  // Downloading

  /** A file written locally: text, or the bytes decoded from base64. */
  datatype LocalFile = TextFile(text: string) | BinaryFile(bytes: seq<byte>)

  datatype DiskState = DiskState(directories: set<string>, files: map<string, LocalFile>)

  /** The path guard of a manifest entry. */
  predicate IsSafeEntry(path: string) {
    !IsPathRooted(path) && !Contains(path, "..")
  }

  /** The resource a manifest entry is read from. */
  function EntryUri(skillName: string, path: string): string {
    SkillUriPrefix + skillName + "/" + path
  }

  /** An entry that downloads: its path passes the guard and the server
      answers its URI. */
  predicate EntryOk(server: Server, skillName: string, path: string) {
    IsSafeEntry(path) && EntryUri(skillName, path) in server.contents
  }

  /** The local form of a content: its text, or its decoded bytes. */
  function LocalFileOf(c: ResourceContents): LocalFile {
    match c
    case TextResourceContents(_, _, text) => TextFile(text)
    case BlobResourceContents(_, _, blob) => BinaryFile(blob)
  }

  /** Writing one manifest entry: the guard, the read, then the file and
      its directory. An entry without contents writes nothing. */
  function WriteEntry(server: Server, skillName: string, skillDir: string, entry: SkillManifestFile, st: DiskState)
    : (r: (Outcome<ClientError>, DiskState))
    ensures r.0.Pass? <==> EntryOk(server, skillName, entry.path)
    ensures !IsSafeEntry(entry.path) ==> r.0 == Fail(InvalidOperation("Invalid file path in manifest: " + entry.path))
    ensures r.0.Fail? ==> r.1 == st
    ensures r.0.Pass? ==> var c := server.contents[EntryUri(skillName, entry.path)];
      var localPath := Combine(skillDir, entry.path);
      && (|c| == 0 ==> r.1 == st)
      && (|c| > 0 ==> r.1.files == st.files[localPath := LocalFileOf(c[0])]
                      && r.1.directories == st.directories + {GetDirectoryName(localPath)})
  {
    if !IsSafeEntry(entry.path) then (Fail(InvalidOperation("Invalid file path in manifest: " + entry.path)), st)
    else
      match Read(server, EntryUri(skillName, entry.path))
      case Failure(e) => (Fail(e), st)
      case Success(contents) =>
        if |contents| == 0 then (Pass, st)
        else
          var localPath := Combine(skillDir, entry.path);
          (Pass, DiskState(st.directories + {GetDirectoryName(localPath)}, st.files[localPath := LocalFileOf(contents[0])]))
  }

  /** The entries written in order, stopping at the first failure; what
      was written before it stays. */
  function WriteEntries(server: Server, skillName: string, skillDir: string, entries: seq<SkillManifestFile>, st: DiskState)
    : (r: (Outcome<ClientError>, DiskState))
    ensures st.directories <= r.1.directories
    decreases |entries|
  {
    if |entries| == 0 then (Pass, st)
    else
      var (o, s) := WriteEntries(server, skillName, skillDir, entries[..|entries| - 1], st);
      if o.Fail? then (o, s) else WriteEntry(server, skillName, skillDir, entries[|entries| - 1], s)
  }

  /** The entries all download exactly when every entry passes the guard
      and is answered. */
  lemma {:induction false} WriteEntriesPass(server: Server, skillName: string, skillDir: string,
                                            entries: seq<SkillManifestFile>, st: DiskState)
    ensures WriteEntries(server, skillName, skillDir, entries, st).0.Pass?
            <==> forall i :: 0 <= i < |entries| ==> EntryOk(server, skillName, entries[i].path)
    decreases |entries|
  {
    if |entries| > 0 {
      var init := entries[..|entries| - 1];
      WriteEntriesPass(server, skillName, skillDir, init, st);
      assert forall i :: 0 <= i < |init| ==> init[i] == entries[i];
    }
  }

  /** After a successful download of the entries, the local path of each
      entry answered with content holds that content's first item, unless a
      later entry writes the same path. */
  lemma {:induction false} WriteEntriesWrites(server: Server, skillName: string, skillDir: string,
                                              entries: seq<SkillManifestFile>, st: DiskState, i: nat)
    requires WriteEntries(server, skillName, skillDir, entries, st).0.Pass?
    requires i < |entries| && EntryUri(skillName, entries[i].path) in server.contents
    requires |server.contents[EntryUri(skillName, entries[i].path)]| > 0
    requires forall j :: i < j < |entries| ==> Combine(skillDir, entries[j].path) != Combine(skillDir, entries[i].path)
    ensures var local := Combine(skillDir, entries[i].path);
      var after := WriteEntries(server, skillName, skillDir, entries, st).1;
      local in after.files && after.files[local] == LocalFileOf(server.contents[EntryUri(skillName, entries[i].path)][0])
      && GetDirectoryName(local) in after.directories
    decreases |entries|
  {
    WriteEntriesPass(server, skillName, skillDir, entries, st);
    var init := entries[..|entries| - 1];
    var last := entries[|entries| - 1];
    var s := WriteEntries(server, skillName, skillDir, init, st).1;
    if i < |entries| - 1 {
      assert init[i] == entries[i];
      forall j | i < j < |init| ensures Combine(skillDir, init[j].path) != Combine(skillDir, init[i].path) {
        assert init[j] == entries[j];
      }
      WriteEntriesWrites(server, skillName, skillDir, init, st, i);
    }
  }

  lemma WriteEntriesSlice(server: Server, skillName: string, skillDir: string, entries: seq<SkillManifestFile>,
                          st: DiskState, i: nat)
    requires i < |entries|
    ensures var (o, s) := WriteEntries(server, skillName, skillDir, entries[..i], st);
      WriteEntries(server, skillName, skillDir, entries[..i + 1], st)
      == if o.Fail? then (o, s) else WriteEntry(server, skillName, skillDir, entries[i], s)
  {
    assert entries[..i + 1][..i] == entries[..i];
  }

  function SkillDirectory(targetDirectory: string, skillName: string): string {
    Combine(targetDirectory, skillName)
  }

  /** What `DownloadSkillAsync` returns, and the disk afterwards. */
  function Download(server: Server, deserialize: Deserializer, skillName: string, targetDirectory: string,
                    overwrite: bool, st: DiskState): (r: (Result<string, ClientError>, DiskState))
  {
    match GetSkillManifest(server, deserialize, skillName)
    case Failure(e) => (Failure(e), st)
    case Success(manifest) =>
      var skillDir := SkillDirectory(targetDirectory, skillName);
      if skillDir in st.directories && !overwrite then
        (Failure(IOError("Skill directory already exists: " + skillDir + ". Set overwrite=true to replace.")), st)
      else
        var created := DiskState(st.directories + {skillDir}, st.files);
        var (o, s) := WriteEntries(server, skillName, skillDir, manifest.files, created);
        if o.Fail? then (Failure(o.error), s) else (Success(skillDir), s)
  }

  /** An existing target without `overwrite` is refused before anything is
      created. */
  lemma DownloadRefusesExisting(server: Server, deserialize: Deserializer, skillName: string, targetDirectory: string,
                                st: DiskState)
    requires GetSkillManifest(server, deserialize, skillName).Success?
    requires SkillDirectory(targetDirectory, skillName) in st.directories
    ensures var (r, after) := Download(server, deserialize, skillName, targetDirectory, false, st);
      r.Failure? && r.error.IOError? && after == st
  {
  }

  /** A download succeeds exactly when the manifest is read, the target is
      new or may be replaced, and every entry downloads; it then returns
      the skill directory, which exists afterwards. */
  lemma DownloadSucceeds(server: Server, deserialize: Deserializer, skillName: string, targetDirectory: string,
                         overwrite: bool, st: DiskState)
    ensures var m := GetSkillManifest(server, deserialize, skillName);
      Download(server, deserialize, skillName, targetDirectory, overwrite, st).0.Success?
      <==> && m.Success?
           && (SkillDirectory(targetDirectory, skillName) !in st.directories || overwrite)
           && forall i :: 0 <= i < |m.value.files| ==> EntryOk(server, skillName, m.value.files[i].path)
    ensures var (r, after) := Download(server, deserialize, skillName, targetDirectory, overwrite, st);
      r.Success? ==> r.value == SkillDirectory(targetDirectory, skillName) && r.value in after.directories
  {
    var m := GetSkillManifest(server, deserialize, skillName);
    if m.Success? {
      var skillDir := SkillDirectory(targetDirectory, skillName);
      var created := DiskState(st.directories + {skillDir}, st.files);
      WriteEntriesPass(server, skillName, skillDir, m.value.files, created);
    }
  }

  /** After a successful download, each entry answered with content has
      its first item at its local path under the skill directory, unless a
      later entry writes the same path. */
  lemma DownloadWritesFile(server: Server, deserialize: Deserializer, skillName: string, targetDirectory: string,
                           overwrite: bool, st: DiskState, i: nat)
    requires Download(server, deserialize, skillName, targetDirectory, overwrite, st).0.Success?
    requires GetSkillManifest(server, deserialize, skillName).Success?
    requires var entries := GetSkillManifest(server, deserialize, skillName).value.files;
      && i < |entries| && EntryUri(skillName, entries[i].path) in server.contents
      && |server.contents[EntryUri(skillName, entries[i].path)]| > 0
      && forall j :: i < j < |entries| ==>
           Combine(SkillDirectory(targetDirectory, skillName), entries[j].path)
           != Combine(SkillDirectory(targetDirectory, skillName), entries[i].path)
    ensures var entries := GetSkillManifest(server, deserialize, skillName).value.files;
      var local := Combine(SkillDirectory(targetDirectory, skillName), entries[i].path);
      var after := Download(server, deserialize, skillName, targetDirectory, overwrite, st).1;
      local in after.files && after.files[local] == LocalFileOf(server.contents[EntryUri(skillName, entries[i].path)][0])
  {
    var entries := GetSkillManifest(server, deserialize, skillName).value.files;
    var skillDir := SkillDirectory(targetDirectory, skillName);
    var created := DiskState(st.directories + {skillDir}, st.files);
    WriteEntriesWrites(server, skillName, skillDir, entries, created, i);
  }

  /** Only the entry-by-entry writes and the skill directory change the
      disk: every file written is at a path the guard let through. */
  lemma {:induction false} WriteEntriesOnlyWritesSafe(server: Server, skillName: string, skillDir: string,
                                                      entries: seq<SkillManifestFile>, st: DiskState, p: string)
    requires p in WriteEntries(server, skillName, skillDir, entries, st).1.files && p !in st.files
    ensures exists i :: 0 <= i < |entries| && IsSafeEntry(entries[i].path) && p == Combine(skillDir, entries[i].path)
    decreases |entries|
  {
    var init := entries[..|entries| - 1];
    var last := entries[|entries| - 1];
    var (o, s) := WriteEntries(server, skillName, skillDir, init, st);
    if p in s.files {
      WriteEntriesOnlyWritesSafe(server, skillName, skillDir, init, st, p);
      var i :| 0 <= i < |init| && IsSafeEntry(init[i].path) && p == Combine(skillDir, init[i].path);
      assert entries[i] == init[i];
    } else {
      assert p == Combine(skillDir, last.path) && IsSafeEntry(last.path);
      assert entries[|entries| - 1] == last;
    }
  }

  /** Under a rooted target, every file a download writes resolves inside
      the skill directory. */
  lemma DownloadStaysInside(skillDir: string, path: string)
    requires IsPathRooted(skillDir) && !EndsWith(skillDir, "/") && |Segments(skillDir)| > 0
    requires IsSafeEntry(path)
    ensures StartsWith(FullPath(Combine(skillDir, path)), FullPath(skillDir))
  {
    CombineStaysInside(skillDir, path);
  }

  /** A failed write stays failed: the later entries change nothing. */
  lemma {:induction false} WriteEntriesFailurePersists(server: Server, skillName: string, skillDir: string,
                                                       entries: seq<SkillManifestFile>, st: DiskState, n: nat)
    requires n <= |entries| && WriteEntries(server, skillName, skillDir, entries[..n], st).0.Fail?
    ensures WriteEntries(server, skillName, skillDir, entries, st) == WriteEntries(server, skillName, skillDir, entries[..n], st)
    decreases |entries| - n
  {
    if n < |entries| {
      assert entries[..n + 1][..n] == entries[..n];
      WriteEntriesFailurePersists(server, skillName, skillDir, entries, st, n + 1);
    } else {
      assert entries[..n] == entries;
    }
  }

  class LocalDisk {
    var directories: set<string>
    var files: map<string, LocalFile>

    constructor(directories: set<string>, files: map<string, LocalFile>)
      ensures this.directories == directories && this.files == files
    {
      this.directories := directories;
      this.files := files;
    }

    function State(): DiskState
      reads this
    {
      DiskState(directories, files)
    }

    /** `Directory.CreateDirectory`. */
    method CreateDirectory(path: string)
      modifies this
      ensures directories == old(directories) + {path} && files == old(files)
    {
      directories := directories + {path};
    }

    /** `File.WriteAllText` / `File.WriteAllBytes`. */
    method WriteFile(path: string, file: LocalFile)
      modifies this
      ensures files == old(files)[path := file] && directories == old(directories)
    {
      files := files[path := file];
    }
  }

  /** One manifest entry of `DownloadSkillAsync`: the path guard, the
      read, and the write of the first content. */
  method WriteEntryTo(server: Server, disk: LocalDisk, skillName: string, skillDir: string, file: SkillManifestFile)
    returns (o: Outcome<ClientError>)
    modifies disk
    ensures (o, disk.State()) == WriteEntry(server, skillName, skillDir, file, old(disk.State()))
  {
    if IsPathRooted(file.path) || Contains(file.path, "..") {
      return Fail(InvalidOperation("Invalid file path in manifest: " + file.path));
    }
    var fileUri := SkillUriPrefix + skillName + "/" + file.path;
    var result := Read(server, fileUri);
    if result.Failure? {
      return Fail(result.error);
    }
    var contents := result.value;
    if |contents| == 0 {
      return Pass;
    }
    var localPath := Combine(skillDir, file.path);
    var localDir := GetDirectoryName(localPath);
    disk.CreateDirectory(localDir);
    match contents[0] {
      case TextResourceContents(_, _, text) =>
        disk.WriteFile(localPath, TextFile(text));
      case BlobResourceContents(_, _, blob) =>
        disk.WriteFile(localPath, BinaryFile(blob));
    }
    return Pass;
  }

  /** `DownloadSkillAsync`. */
  method DownloadSkill(server: Server, disk: LocalDisk, deserialize: Deserializer, skillName: string,
                       targetDirectory: string, overwrite: bool) returns (r: Result<string, ClientError>)
    modifies disk
    ensures (r, disk.State()) == Download(server, deserialize, skillName, targetDirectory, overwrite, old(disk.State()))
  {
    var manifest := GetSkillManifest(server, deserialize, skillName);
    if manifest.Failure? {
      return Failure(manifest.error);
    }
    var skillDir := Combine(targetDirectory, skillName);
    if skillDir in disk.directories && !overwrite {
      return Failure(IOError("Skill directory already exists: " + skillDir + ". Set overwrite=true to replace."));
    }
    disk.CreateDirectory(skillDir);
    ghost var created := disk.State();
    var entries := manifest.value.files;
    for i := 0 to |entries|
      invariant WriteEntries(server, skillName, skillDir, entries[..i], created) == (Pass, disk.State())
    {
      WriteEntriesSlice(server, skillName, skillDir, entries, created, i);
      var o := WriteEntryTo(server, disk, skillName, skillDir, entries[i]);
      if o.Fail? {
        WriteEntriesFailurePersists(server, skillName, skillDir, entries, created, i + 1);
        assert entries[..|entries|] == entries;
        return Failure(o.error);
      }
    }
    assert entries[..|entries|] == entries;
    return Success(skillDir);
  }

  // ---------------------------------------------------------------------
  // Syncing

  /** `SyncSkillsAsync` over the discovered skills: a download refused with
      an I/O error is skipped, any other error ends the sync. */
  function SyncAll(server: Server, deserialize: Deserializer, skills: seq<SkillSummary>, targetDirectory: string,
                   overwrite: bool, st: DiskState): (r: (Result<seq<string>, ClientError>, DiskState))
    ensures r.0.Success? ==> |r.0.value| <= |skills|
    ensures r.0.Failure? ==> !r.0.error.IOError?
    decreases |skills|
  {
    if |skills| == 0 then (Success([]), st)
    else
      var (init, s) := SyncAll(server, deserialize, skills[..|skills| - 1], targetDirectory, overwrite, st);
      if init.Failure? then (init, s)
      else
        var (d, s') := Download(server, deserialize, skills[|skills| - 1].name, targetDirectory, overwrite, s);
        match d
        case Success(path) => (Success(init.value + [path]), s')
        case Failure(IOError(_)) => (init, s')
        case Failure(e) => (Failure(e), s')
  }

  lemma SyncAllSlice(server: Server, deserialize: Deserializer, skills: seq<SkillSummary>, targetDirectory: string,
                     overwrite: bool, st: DiskState, i: nat)
    requires i < |skills|
    ensures var (init, s) := SyncAll(server, deserialize, skills[..i], targetDirectory, overwrite, st);
      SyncAll(server, deserialize, skills[..i + 1], targetDirectory, overwrite, st)
      == if init.Failure? then (init, s)
         else
           var (d, s') := Download(server, deserialize, skills[i].name, targetDirectory, overwrite, s);
           match d
           case Success(path) => (Success(init.value + [path]), s')
           case Failure(IOError(_)) => (init, s')
           case Failure(e) => (Failure(e), s')
  {
    assert skills[..i + 1][..i] == skills[..i];
  }

  predicate IsPrefix(a: seq<string>, b: seq<string>) {
    |a| <= |b| && b[..|a|] == a
  }

  /** The sync of the first `n` skills succeeded too, and what it reported
      begins what the whole sync reports. */
  lemma {:induction false} SyncAllPrefix(server: Server, deserialize: Deserializer, skills: seq<SkillSummary>,
                                         targetDirectory: string, overwrite: bool, st: DiskState, n: nat)
    requires n <= |skills| && SyncAll(server, deserialize, skills, targetDirectory, overwrite, st).0.Success?
    ensures var prev := SyncAll(server, deserialize, skills[..n], targetDirectory, overwrite, st).0;
      prev.Success? && IsPrefix(prev.value, SyncAll(server, deserialize, skills, targetDirectory, overwrite, st).0.value)
    decreases |skills|
  {
    if n == |skills| {
      assert skills[..n] == skills;
    } else {
      var init := skills[..|skills| - 1];
      assert init[..n] == skills[..n];
      SyncAllPrefix(server, deserialize, init, targetDirectory, overwrite, st, n);
      var a := SyncAll(server, deserialize, skills[..n], targetDirectory, overwrite, st).0.value;
      var b := SyncAll(server, deserialize, init, targetDirectory, overwrite, st).0.value;
      var c := SyncAll(server, deserialize, skills, targetDirectory, overwrite, st).0.value;
      assert IsPrefix(b, c);
      assert c[..|a|] == b[..|a|];
    }
  }

  /** Each skill whose download succeeds during a successful sync has its
      directory reported, right after the directories reported for the
      skills before it. */
  lemma SyncAllReportsDownload(server: Server, deserialize: Deserializer, skills: seq<SkillSummary>,
                               targetDirectory: string, overwrite: bool, st: DiskState, i: nat)
    requires i < |skills| && SyncAll(server, deserialize, skills, targetDirectory, overwrite, st).0.Success?
    ensures var (prev, s) := SyncAll(server, deserialize, skills[..i], targetDirectory, overwrite, st);
      && prev.Success?
      && (Download(server, deserialize, skills[i].name, targetDirectory, overwrite, s).0.Success? ==>
            IsPrefix(prev.value + [SkillDirectory(targetDirectory, skills[i].name)],
                     SyncAll(server, deserialize, skills, targetDirectory, overwrite, st).0.value))
  {
    var (prev, s) := SyncAll(server, deserialize, skills[..i], targetDirectory, overwrite, st);
    SyncAllPrefix(server, deserialize, skills, targetDirectory, overwrite, st, i);
    SyncAllPrefix(server, deserialize, skills, targetDirectory, overwrite, st, i + 1);
    SyncAllSlice(server, deserialize, skills, targetDirectory, overwrite, st, i);
    DownloadSucceeds(server, deserialize, skills[i].name, targetDirectory, overwrite, s);
  }

  /** A successful sync reports the skill directories of skills it
      downloaded, in discovery order. */
  lemma {:induction false} SyncAllPaths(server: Server, deserialize: Deserializer, skills: seq<SkillSummary>,
                                        targetDirectory: string, overwrite: bool, st: DiskState)
    requires SyncAll(server, deserialize, skills, targetDirectory, overwrite, st).0.Success?
    ensures forall p :: p in SyncAll(server, deserialize, skills, targetDirectory, overwrite, st).0.value ==>
              exists s :: s in skills && p == SkillDirectory(targetDirectory, s.name)
    decreases |skills|
  {
    if |skills| > 0 {
      var init := skills[..|skills| - 1];
      var last := skills[|skills| - 1];
      var (prev, s) := SyncAll(server, deserialize, init, targetDirectory, overwrite, st);
      SyncAllPaths(server, deserialize, init, targetDirectory, overwrite, st);
      forall p | p in SyncAll(server, deserialize, skills, targetDirectory, overwrite, st).0.value
        ensures exists s :: s in skills && p == SkillDirectory(targetDirectory, s.name)
      {
        if p in prev.value {
          var x :| x in init && p == SkillDirectory(targetDirectory, x.name);
          assert x in skills;
        } else {
          assert last in skills;
        }
      }
    }
  }

  /** `SyncSkillsAsync`. */
  method SyncSkills(server: Server, disk: LocalDisk, deserialize: Deserializer, targetDirectory: string, overwrite: bool)
    returns (r: Result<seq<string>, ClientError>)
    modifies disk
    ensures (r, disk.State()) == SyncAll(server, deserialize, Discover(server.listing), targetDirectory, overwrite, old(disk.State()))
  {
    var skills := ListSkills(server);
    var downloaded: seq<string> := [];
    for i := 0 to |skills|
      invariant SyncAll(server, deserialize, skills[..i], targetDirectory, overwrite, old(disk.State())) == (Success(downloaded), disk.State())
    {
      SyncAllSlice(server, deserialize, skills, targetDirectory, overwrite, old(disk.State()), i);
      var path := DownloadSkill(server, disk, deserialize, skills[i].name, targetDirectory, overwrite);
      match path
      case Success(p) =>
        downloaded := downloaded + [p];
      case Failure(IOError(_)) =>
      case Failure(e) =>
        SyncAllFailurePersists(server, deserialize, skills, targetDirectory, overwrite, old(disk.State()), i + 1);
        assert skills[..|skills|] == skills;
        return Failure(e);
    }
    assert skills[..|skills|] == skills;
    return Success(downloaded);
  }

  lemma {:induction false} SyncAllFailurePersists(server: Server, deserialize: Deserializer, skills: seq<SkillSummary>,
                                                  targetDirectory: string, overwrite: bool, st: DiskState, n: nat)
    requires n <= |skills| && SyncAll(server, deserialize, skills[..n], targetDirectory, overwrite, st).0.Failure?
    ensures SyncAll(server, deserialize, skills, targetDirectory, overwrite, st) == SyncAll(server, deserialize, skills[..n], targetDirectory, overwrite, st)
    decreases |skills| - n
  {
    if n < |skills| {
      assert skills[..n + 1][..n] == skills[..n];
      SyncAllFailurePersists(server, deserialize, skills, targetDirectory, overwrite, st, n + 1);
    } else {
      assert skills[..n] == skills;
    }
  }
}
