/** Publishing a scanned skill as MCP resources: the descriptors of the
    main file, the manifest and the supporting files; the reader behind
    the `skill://{name}/{+path}` template (reserved expansion, section
    3.2.3 of RFC 6570) with its traversal guard; and the MIME table. */
module SkillResourceFactory {
  import opened Wrappers
  import opened Text
  import opened Dict
  import opened Unicode
  import opened Paths
  import opened SkillTypes
  import opened Seqs

  /** What a resource does when it is read. */
  datatype Handler =
    | ReadMainFile(filePath: string)
    | ReturnManifest(manifest: SkillManifest)
    | ReadSupportingFiles(skillDirectory: string)
    | ReadFile(filePath: string, mimeType: string)

  /** `McpServerResource.Create(handler, options)`: a fixed URI, or a URI
      template when the handler takes the `path` argument. */
  datatype ServerResource = ServerResource(
    uriTemplate: string,
    name: string,
    description: string,
    mimeType: Option<string>,
    handler: Handler)

  const SkillScheme := "skill://"
  const ManifestName := "_manifest"
  const PathParameter := "{+path}"

  function SkillBase(skill: SkillInfo): string {
    SkillScheme + skill.name + "/"
  }

  /** `BuildManifestJson`, before serialisation: the name and every file. */
  function BuildManifest(skill: SkillInfo): (m: SkillManifest)
    ensures m.skill == skill.name && |m.files| == |skill.files|
    ensures forall i :: 0 <= i < |m.files| ==>
              m.files[i] == SkillManifestFile(skill.files[i].path, skill.files[i].size, skill.files[i].hash)
  {
    SkillManifest(skill.name, seq(|skill.files|, i requires 0 <= i < |skill.files| =>
      SkillManifestFile(skill.files[i].path, skill.files[i].size, skill.files[i].hash)))
  }

  function MainResource(skill: SkillInfo): ServerResource {
    ServerResource(SkillBase(skill) + skill.mainFileName, skill.name, skill.description,
                   Some("text/markdown"), ReadMainFile(Combine(skill.skillDirectoryPath, skill.mainFileName)))
  }

  function ManifestResource(skill: SkillInfo): ServerResource {
    ServerResource(SkillBase(skill) + ManifestName, skill.name + "-manifest",
                   "File manifest for skill '" + skill.name + "'",
                   Some("application/json"), ReturnManifest(BuildManifest(skill)))
  }

  function TemplateResource(skill: SkillInfo): ServerResource {
    ServerResource(SkillBase(skill) + PathParameter, skill.name + "-files",
                   "Supporting files for skill '" + skill.name + "'",
                   None, ReadSupportingFiles(skill.skillDirectoryPath))
  }

  function FileResource(rules: Rules, skill: SkillInfo, file: SkillFileInfo): ServerResource {
    var mimeType := DetectMimeType(rules, file.path);
    ServerResource(SkillBase(skill) + file.path, skill.name + "/" + file.path,
                   "File '" + file.path + "' in skill '" + skill.name + "'",
                   Some(mimeType), ReadFile(Combine(skill.skillDirectoryPath, file.path), mimeType))
  }

  /** The files other than the main file, in order. */
  function SupportingFiles(files: seq<SkillFileInfo>, mainFileName: string): (r: seq<SkillFileInfo>)
    ensures |r| <= |files|
    ensures forall f :: f in r <==> f in files && f.path != mainFileName
    decreases |files|
  {
    if |files| == 0 then []
    else
      assert files == [files[0]] + files[1..];
      (if files[0].path == mainFileName then [] else [files[0]])
      + SupportingFiles(files[1..], mainFileName)
  }

  function FileResources(rules: Rules, skill: SkillInfo, files: seq<SkillFileInfo>): (r: seq<ServerResource>)
    ensures |r| == |files|
    ensures forall i :: 0 <= i < |files| ==> r[i] == FileResource(rules, skill, files[i])
  {
    seq(|files|, i requires 0 <= i < |files| => FileResource(rules, skill, files[i]))
  }

  lemma FileResourcesSnoc(rules: Rules, skill: SkillInfo, files: seq<SkillFileInfo>, file: SkillFileInfo)
    ensures FileResources(rules, skill, files + [file]) == FileResources(rules, skill, files) + [FileResource(rules, skill, file)]
  {
    var toResource := (f: SkillFileInfo) => FileResource(rules, skill, f);
    MapSnoc(toResource, files, file, FileResources(rules, skill, files + [file]), FileResources(rules, skill, files));
  }

  /** What `CreateResources` returns. */
  function PublishedResources(rules: Rules, skill: SkillInfo, options: SkillOptions): seq<ServerResource> {
    [MainResource(skill), ManifestResource(skill)]
    + (if options.supportingFiles == Template then [TemplateResource(skill)]
       else FileResources(rules, skill, SupportingFiles(skill.files, skill.mainFileName)))
  }

  /** `CreateResources`; absent options are the defaults. */
  method CreateResources(rules: Rules, skill: SkillInfo, options: Option<SkillOptions>)
    returns (resources: seq<ServerResource>)
    ensures resources == PublishedResources(rules, skill, options.GetOr(DefaultOptions))
  {
    var opts := options.GetOr(DefaultOptions);
    resources := [MainResource(skill), ManifestResource(skill)];
    if opts.supportingFiles == Template {
      resources := resources + [TemplateResource(skill)];
    } else {
      ghost var supporting := [];
      for i := 0 to |skill.files|
        invariant supporting == SupportingFiles(skill.files[..i], skill.mainFileName)
        invariant resources == [MainResource(skill), ManifestResource(skill)] + FileResources(rules, skill, supporting)
      {
        SupportingFilesSnoc(skill.files, i, skill.mainFileName);
        var file := skill.files[i];
        if file.path == skill.mainFileName {
          continue;
        }
        FileResourcesSnoc(rules, skill, supporting, file);
        AppendAssociative3([MainResource(skill), ManifestResource(skill)], FileResources(rules, skill, supporting),
                           [FileResource(rules, skill, file)]);
        resources := resources + [FileResource(rules, skill, file)];
        supporting := supporting + [file];
      }
      assert skill.files[..|skill.files|] == skill.files;
    }
  }

  lemma {:induction false} SupportingFilesAppend(a: seq<SkillFileInfo>, b: seq<SkillFileInfo>, mainFileName: string)
    ensures SupportingFiles(a + b, mainFileName) == SupportingFiles(a, mainFileName) + SupportingFiles(b, mainFileName)
    decreases |a|
  {
    if |a| == 0 {
      assert a + b == b;
    } else {
      assert (a + b)[1..] == a[1..] + b;
      SupportingFilesAppend(a[1..], b, mainFileName);
    }
  }

  /** One file is kept exactly when it is not the main file. */
  lemma SupportingFilesOne(f: SkillFileInfo, mainFileName: string)
    ensures SupportingFiles([f], mainFileName) == if f.path == mainFileName then [] else [f]
  {
    assert [f][1..] == [];
  }

  lemma SupportingFilesSnoc(files: seq<SkillFileInfo>, i: nat, mainFileName: string)
    requires i < |files|
    ensures SupportingFiles(files[..i + 1], mainFileName) ==
              SupportingFiles(files[..i], mainFileName)
              + (if files[i].path == mainFileName then [] else [files[i]])
  {
    assert files[..i + 1] == files[..i] + [files[i]];
    SupportingFilesAppend(files[..i], [files[i]], mainFileName);
  }

  /** Template mode publishes exactly three resources: the main file, the
      manifest and the template, at their `skill://` addresses. */
  lemma TemplateModeShape(rules: Rules, skill: SkillInfo, options: SkillOptions)
    requires options.supportingFiles == Template
    ensures var r := PublishedResources(rules, skill, options);
      && |r| == 3
      && r[0].uriTemplate == "skill://" + skill.name + "/" + skill.mainFileName
      && r[1].uriTemplate == "skill://" + skill.name + "/_manifest"
      && r[2].uriTemplate == "skill://" + skill.name + "/{+path}"
      && r[0].mimeType == Some("text/markdown") && r[1].mimeType == Some("application/json") && r[2].mimeType.None?
  {
  }

  /** Resources mode publishes the main file, the manifest, and one
      resource per other file, in file order, under the skill's base URI;
      the main file itself is never published twice. */
  lemma ResourcesModeShape(rules: Rules, skill: SkillInfo, options: SkillOptions)
    requires options.supportingFiles == SkillFileMode.Resources
    ensures var r := PublishedResources(rules, skill, options);
      var s := SupportingFiles(skill.files, skill.mainFileName);
      && |r| == 2 + |s|
      && r[0].uriTemplate == "skill://" + skill.name + "/" + skill.mainFileName
      && r[1].uriTemplate == "skill://" + skill.name + "/_manifest"
      && forall k :: 0 <= k < |s| ==>
           r[2 + k].uriTemplate == "skill://" + skill.name + "/" + s[k].path
           && s[k].path != skill.mainFileName
           && r[2 + k].mimeType == Some(DetectMimeType(rules, s[k].path))
  {
    var r := PublishedResources(rules, skill, options);
    var s := SupportingFiles(skill.files, skill.mainFileName);
    ResourcesModeList(rules, skill, options);
    FixedResourceUris(skill);
    forall k | 0 <= k < |s|
      ensures r[2 + k].uriTemplate == "skill://" + skill.name + "/" + s[k].path
      ensures s[k].path != skill.mainFileName
      ensures r[2 + k].mimeType == Some(DetectMimeType(rules, s[k].path))
    {
      ResourcesModeFile(rules, skill, options, k);
    }
  }

  /** The resource of the `k`-th supporting file in resources mode. */
  lemma ResourcesModeFile(rules: Rules, skill: SkillInfo, options: SkillOptions, k: nat)
    requires options.supportingFiles == SkillFileMode.Resources
    requires k < |SupportingFiles(skill.files, skill.mainFileName)|
    ensures var r := PublishedResources(rules, skill, options);
      var f := SupportingFiles(skill.files, skill.mainFileName)[k];
      && 2 + k < |r|
      && r[2 + k].uriTemplate == "skill://" + skill.name + "/" + f.path
      && f.path != skill.mainFileName
      && r[2 + k].mimeType == Some(DetectMimeType(rules, f.path))
  {
    var s := SupportingFiles(skill.files, skill.mainFileName);
    var fr := FileResources(rules, skill, s);
    ResourcesModeList(rules, skill, options);
    assert PublishedResources(rules, skill, options)[2 + k] == fr[k];
    FileResourceFields(rules, skill, s[k]);
    assert s[k] in s;
  }

  lemma ResourcesModeList(rules: Rules, skill: SkillInfo, options: SkillOptions)
    requires options.supportingFiles == SkillFileMode.Resources
    ensures PublishedResources(rules, skill, options)
            == [MainResource(skill), ManifestResource(skill)]
               + FileResources(rules, skill, SupportingFiles(skill.files, skill.mainFileName))
  {
  }

  lemma FixedResourceUris(skill: SkillInfo)
    ensures MainResource(skill).uriTemplate == "skill://" + skill.name + "/" + skill.mainFileName
    ensures ManifestResource(skill).uriTemplate == "skill://" + skill.name + "/_manifest"
  {
  }

  lemma FileResourceFields(rules: Rules, skill: SkillInfo, file: SkillFileInfo)
    ensures FileResource(rules, skill, file).uriTemplate == "skill://" + skill.name + "/" + file.path
    ensures FileResource(rules, skill, file).mimeType == Some(DetectMimeType(rules, file.path))
  {
  }

  /** Every individually published file lies under the template's base,
      so the template addresses it too. */
  lemma FileResourceUnderTemplate(rules: Rules, skill: SkillInfo, file: SkillFileInfo)
    ensures var t := TemplateResource(skill).uriTemplate;
      StartsWith(FileResource(rules, skill, file).uriTemplate, t[..|t| - |PathParameter|])
  {
    var t := TemplateResource(skill).uriTemplate;
    assert t[..|t| - |PathParameter|] == SkillBase(skill);
  }

  // ---------------------------------------------------------------------
  // MIME types

  /** The extension table of `DetectMimeType`, in source order. */
  const MimeTable: Dict<string> := [
    (".md", "text/markdown"),
    (".txt", "text/plain"),
    (".json", "application/json"),
    (".yaml", "text/yaml"), (".yml", "text/yaml"),
    (".xml", "application/xml"),
    (".html", "text/html"), (".htm", "text/html"),
    (".css", "text/css"),
    (".js", "application/javascript"),
    (".ts", "text/typescript"),
    (".py", "text/x-python"),
    (".cs", "text/x-csharp"),
    (".java", "text/x-java"),
    (".rb", "text/x-ruby"),
    (".go", "text/x-go"),
    (".rs", "text/x-rust"),
    (".sh", "text/x-shellscript"), (".bash", "text/x-shellscript"),
    (".png", "image/png"),
    (".jpg", "image/jpeg"), (".jpeg", "image/jpeg"),
    (".gif", "image/gif"),
    (".svg", "image/svg+xml"),
    (".pdf", "application/pdf"),
    (".zip", "application/zip")
  ]

  const DefaultMimeType := "application/octet-stream"

  /** `DetectMimeType`: the table entry of the lower-cased extension. */
  function DetectMimeType(rules: Rules, path: string): string {
    match Get(MimeTable, rules.toLowerInvariant(GetExtension(path)))
    case Some(m) => m
    case None => DefaultMimeType
  }

  /** An extension of the table detects as an entry of the table for it,
      any other as the default type. */
  lemma DetectMimeTypeEntry(rules: Rules, path: string)
    ensures var extension := rules.toLowerInvariant(GetExtension(path));
      && (!HasKey(MimeTable, extension) ==> DetectMimeType(rules, path) == DefaultMimeType)
      && (HasKey(MimeTable, extension) ==> (extension, DetectMimeType(rules, path)) in MimeTable)
  {
    var extension := rules.toLowerInvariant(GetExtension(path));
    if HasKey(MimeTable, extension) {
      GetIsEntry(MimeTable, extension);
    }
  }

  /** Each extension of the table maps to its own entry, whatever the case
      of the path's extension. */
  lemma DetectMimeTypeTable(rules: Rules, path: string, i: nat)
    requires i < |MimeTable| && rules.toLowerInvariant(GetExtension(path)) == MimeTable[i].0
    ensures DetectMimeType(rules, path) == MimeTable[i].1
  {
    MimeTableUnique();
    GetAt(MimeTable, i);
  }

  lemma MimeTableUnique()
    ensures UniqueKeys(MimeTable)
  {
    // Length, second and third character tell every two keys apart.
    forall i, j | 0 <= i < j < |MimeTable|
      ensures MimeTable[i].0 != MimeTable[j].0
    {
      var a, b := MimeTable[i].0, MimeTable[j].0;
      assert |a| != |b| || a[1] != b[1] || a[2] != b[2];
    }
  }



  predicate StartsWithIgnoreCase(s: string, prefix: string) {
    |prefix| <= |s| && EqualsAsciiIgnoreCase(s[..|prefix|], prefix)
  }

  predicate EndsWithIgnoreCase(s: string, suffix: string) {
    |suffix| <= |s| && EqualsAsciiIgnoreCase(s[|s| - |suffix|..], suffix)
  }

  /** `IsTextMimeType`. */
  predicate IsTextMimeType(mimeType: string) {
    || StartsWithIgnoreCase(mimeType, "text/")
    || mimeType == "application/json"
    || mimeType == "application/xml"
    || mimeType == "application/javascript"
    || EndsWithIgnoreCase(mimeType, "+json")
    || EndsWithIgnoreCase(mimeType, "+xml")
  }

  /** The text types of the table. */
  const TextMimeTypes := [
    "text/markdown", "text/plain", "application/json", "text/yaml", "application/xml", "text/html",
    "text/css", "application/javascript", "text/typescript", "text/x-python", "text/x-csharp",
    "text/x-java", "text/x-ruby", "text/x-go", "text/x-rust", "text/x-shellscript", "image/svg+xml"]

  /** The binary types of the table: images other than SVG, PDF, ZIP. */
  const BinaryMimeTypes := ["image/png", "image/jpeg", "image/gif", "application/pdf", "application/zip"]

  /** A type that neither starts with `text/` nor ends with `+json` or
      `+xml` (told apart by one character each) and is none of the three
      named application types is binary. */
  lemma NotText(m: string)
    requires |m| >= 5 && AsciiLowerChar(m[0]) != 't'
    requires AsciiLowerChar(m[|m| - 5]) != '+' && AsciiLowerChar(m[|m| - 4]) != '+'
    requires m != "application/json" && m != "application/xml" && m != "application/javascript"
    ensures !IsTextMimeType(m)
  {
    assert m[..5][0] == m[0];
    assert m[|m| - 5..][0] == m[|m| - 5];
    assert m[|m| - 4..][0] == m[|m| - 4];
  }

  lemma BinaryTypesAreBinary()
    ensures forall m :: m in BinaryMimeTypes ==> !IsTextMimeType(m)
    ensures !IsTextMimeType(DefaultMimeType)
  {
    forall m | m in BinaryMimeTypes ensures !IsTextMimeType(m) {
      BinaryTypeIsBinary(m);
    }
    BinaryTypeIsBinary(DefaultMimeType);
  }

  lemma BinaryTypeIsBinary(m: string)
    requires m in BinaryMimeTypes || m == DefaultMimeType
    ensures !IsTextMimeType(m)
  {
    if m == "image/png" {
      NotText("image/png");
    } else if m == "image/jpeg" {
      NotText("image/jpeg");
    } else if m == "image/gif" {
      NotText("image/gif");
    } else if m == "application/pdf" {
      NotText("application/pdf");
    } else if m == "application/zip" {
      NotText("application/zip");
    } else {
      NotText(DefaultMimeType);
    }
  }

  lemma TextTypesAreText()
    ensures forall m :: m in TextMimeTypes ==> IsTextMimeType(m)
  {
    forall m | m in TextMimeTypes ensures IsTextMimeType(m) {
      if m == "image/svg+xml" {
        assert m[|m| - 4..] == "+xml";
      } else if m != "application/json" && m != "application/xml" && m != "application/javascript" {
        assert m[..5] == "text/";
      }
    }
  }

  /** Every type the table yields is classified: the binary ones are sent
      as blobs, all others, SVG included, as text; so is the default. */
  lemma MimeTableClassification()
    ensures forall m :: m in Values(MimeTable) ==> (m in TextMimeTypes) != (m in BinaryMimeTypes)
    ensures forall m :: m in Values(MimeTable) ==> (IsTextMimeType(m) <==> m !in BinaryMimeTypes)
    ensures !IsTextMimeType(DefaultMimeType)
  {
    TextTypesAreText();
    BinaryTypesAreBinary();
  }

  /** `ReadFileContentsSync`: text for text types, bytes otherwise. */
  function ReadFileContents(host: Host, bytes: seq<byte>, mimeType: string, uri: string): (r: ResourceContents)
    ensures r.uri == uri && r.mimeType == mimeType
    ensures r.TextResourceContents? <==> IsTextMimeType(mimeType)
    ensures r.TextResourceContents? ==> r.text == host.decodeUtf8(bytes)
    ensures r.BlobResourceContents? ==> r.blob == bytes
  {
    if IsTextMimeType(mimeType) then TextResourceContents(uri, mimeType, host.decodeUtf8(bytes))
    else BlobResourceContents(uri, mimeType, bytes)
  }

  // ---------------------------------------------------------------------
  // Reading through the template

  /** The files on disk, by full path. */
  type FileSystem = map<string, seq<byte>>

  datatype ReadError =
    | InvalidPath(message: string)
    | FileNotFound(message: string)

  const AbsoluteOrTraversalMessage := "Invalid path: absolute paths and path traversal are not allowed."
  const TraversalDetectedMessage := "Invalid path: path traversal detected."

  /** The lexical guard: no rooted path and no `..` anywhere in the text. */
  predicate PassesLexicalGuard(path: string) {
    !IsPathRooted(path) && !Contains(path, "..")
  }

  /** `ReadSupportingFile`: the guard, the prefix test on the resolved
      path, the existence test, then the file's contents. */
  function ReadSupportingFile(host: Host, rules: Rules, fs: FileSystem, skillDir: string, path: string)
    : (r: Result<ResourceContents, ReadError>)
    ensures !PassesLexicalGuard(path) ==> r == Failure(InvalidPath(AbsoluteOrTraversalMessage))
    ensures r.Success? ==>
              && PassesLexicalGuard(path)
              && StartsWith(FullPath(Combine(skillDir, path)), FullPath(skillDir))
              && FullPath(Combine(skillDir, path)) in fs
              && r.value == ReadFileContents(host, fs[FullPath(Combine(skillDir, path))],
                                             DetectMimeType(rules, path), "skill://resource/" + path)
  {
    if !PassesLexicalGuard(path) then Failure(InvalidPath(AbsoluteOrTraversalMessage))
    else
      var fullPath := FullPath(Combine(skillDir, path));
      var normalizedSkillDir := FullPath(skillDir);
      if !StartsWith(fullPath, normalizedSkillDir) then Failure(InvalidPath(TraversalDetectedMessage))
      else if fullPath !in fs then Failure(FileNotFound("File not found: " + path))
      else Success(ReadFileContents(host, fs[fullPath], DetectMimeType(rules, path), "skill://resource/" + path))
  }

  /** Under a skill directory as the scanner reports it (rooted, without a
      trailing separator, not the root), the prefix test never rejects a
      path the lexical guard accepted: such a path is read exactly when
      its file exists. */
  lemma ReadSupportingFileAccepted(host: Host, rules: Rules, fs: FileSystem, skillDir: string, path: string)
    requires IsPathRooted(skillDir) && !EndsWith(skillDir, "/") && |Segments(skillDir)| > 0
    requires PassesLexicalGuard(path)
    ensures ReadSupportingFile(host, rules, fs, skillDir, path).Success? <==> FullPath(Combine(skillDir, path)) in fs
    ensures ReadSupportingFile(host, rules, fs, skillDir, path).Failure? ==>
              ReadSupportingFile(host, rules, fs, skillDir, path).error == FileNotFound("File not found: " + path)
  {
    CombineStaysInside(skillDir, path);
  }

  /** `ReadFileContents` of a per-file resource: its URI names only the
      file name, not the path inside the skill. */
  function ReadPublishedFile(host: Host, fs: FileSystem, filePath: string, mimeType: string)
    : (r: Result<ResourceContents, ReadError>)
    ensures r.Success? <==> filePath in fs
    ensures r.Success? ==> r.value.uri == "skill://resource/" + GetFileName(filePath)
  {
    if filePath !in fs then Failure(FileNotFound("File not found: " + filePath))
    else Success(ReadFileContents(host, fs[filePath], mimeType, "skill://resource/" + GetFileName(filePath)))
  }
}
