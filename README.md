# SkillsDotNet, modelled in Dafny

SkillsDotNet publishes Agent Skills over the Model Context Protocol (MCP). A skill is a
directory holding a main `SKILL.md` file, whose YAML frontmatter names and describes it,
and any number of supporting files. The server side scans such directories and publishes
each skill as resources:

- `skill://{name}/SKILL.md`, the main file;
- `skill://{name}/_manifest`, the manifest;
- either a `skill://{name}/{+path}` template (reserved expansion, section 3.2.3 of RFC 6570)
  or one resource per supporting file.

It also completes the template's `path` argument. The client side discovers the skills a
server lists, downloads and syncs them, and keeps a catalog of the skills of several servers
behind a `load_skill` tool.

This project models that core and proves its contracts:

- the fail-soft frontmatter parser;
- the validator and the context formatter;
- the directory scanner: name and description derivation, file list, hash format, batch skipping;
- the resource factory: resource shapes, manifest projection, MIME table, traversal guard;
- the completion registry and handler;
- the three server registration methods, with first-wins de-duplication;
- the client operations;
- the catalog.

Modules follow the source files. A few modules are shared helpers:

- `Text`: the .NET string operations;
- `Dict`: order-preserving dictionaries;
- `Paths`: `System.IO.Path` with Unix semantics;
- `Unicode`: NFKC, `ToLowerInvariant` and `IsLetterOrDigit` as parameters, with an ASCII instance;
- `Seqs`, `Wrappers`.

The outside world enters as values:

- a directory is a snapshot of its files (relative path, bytes, readable or not);
- a parent directory is its sorted list of subdirectories, or nothing when it does not exist;
- a server is its resource listing plus a map from URI to contents;
- a local disk is a `LocalDisk` object holding a set of directories and a map of files;
- SHA-256, UTF-8 decoding, the file-name glob and the JSON reader are function parameters.

## Model

| member | source | states |
|---|---|---|
| FrontmatterParser.StripQuotes | src/SkillsDotNet/FrontmatterParser.cs:120-132 | one matching outer pair of `"` or `'` is removed when the length is at least 2; otherwise the value is returned unchanged |
| FrontmatterParser.StripQuotesOfQuoted | src/SkillsDotNet/FrontmatterParser.cs:120-132 | quoting any text with either quote and stripping gives the text back |
| FrontmatterParser.MatchAt | src/SkillsDotNet/FrontmatterParser.cs:11 | the closing-fence pattern `\n---\s*\n` at one position, with the greedy `\s*` giving the longest match |
| FrontmatterParser.FindClosingFence | src/SkillsDotNet/FrontmatterParser.cs:28-32 | the leftmost fence match at or after the start index, with its end; nothing when no position matches |
| FrontmatterParser.Flush | src/SkillsDotNet/FrontmatterParser.cs:71-77 | a pending nested map is stored under its key; with none pending the entries stay as they are |
| FrontmatterParser.CleanItems | src/SkillsDotNet/FrontmatterParser.cs:99-102 | no inline-list item is empty, and there are no more items than comma-separated parts |
| FrontmatterParser.CleanItemsOne | src/SkillsDotNet/FrontmatterParser.cs:99-102 | a single part gives its trimmed, quote-stripped text as one item, or no item when that text is empty |
| FrontmatterParser.CleanItemsAppend | src/SkillsDotNet/FrontmatterParser.cs:99-102 | the items of two runs of parts are the items of the first run followed by those of the second, so items keep the order and multiplicity of their parts |
| FrontmatterParser.CleanItemsMember | src/SkillsDotNet/FrontmatterParser.cs:99-102 | a text is an item exactly when it is non-empty and is the trimmed, quote-stripped form of some part |
| FrontmatterParser.InlineListShape | src/SkillsDotNet/FrontmatterParser.cs:95 | a value is an inline list exactly when it is at least two characters long, starting with `[` and ending with `]` |
| FrontmatterParser.TopLevelOpensMap | src/SkillsDotNet/FrontmatterParser.cs:89-94 | `key:` with an empty value opens an empty nested map under the trimmed key |
| FrontmatterParser.TopLevelList | src/SkillsDotNet/FrontmatterParser.cs:95-104 | `key: [a, b]` stores the cleaned items of the bracketed text under the key |
| FrontmatterParser.TopLevelScalar | src/SkillsDotNet/FrontmatterParser.cs:105-108 | any other `key: value` stores the quote-stripped value |
| FrontmatterParser.StepSkipped | src/SkillsDotNet/FrontmatterParser.cs:49-55 | a blank or comment line changes no state, not even an open nested map |
| FrontmatterParser.StepIndented | src/SkillsDotNet/FrontmatterParser.cs:57-69 | while a nested map is open, an indented line leaves the top-level entries alone and updates only that map |
| FrontmatterParser.StepTopLevel | src/SkillsDotNet/FrontmatterParser.cs:71-84 | every other line first flushes the open map, then is read as a top-level entry; a colon that is missing or at index 0 skips it |
| FrontmatterParser.ParseTopLevelLine | src/SkillsDotNet/FrontmatterParser.cs:79-108 | the imperative top-level branch leaves the same entries and pending map as the line-by-line specification |
| FrontmatterParser.ParseYamlBlock | src/SkillsDotNet/FrontmatterParser.cs:41-118 | the line loop with `currentKey` and `nestedDict`, flushing at the end, equals the fold of the per-line steps |
| FrontmatterParser.Parse | src/SkillsDotNet/FrontmatterParser.cs:18-39 | no opening `---` gives empty frontmatter and the input as body, and so does a missing closing fence; otherwise the trimmed block between index 3 and the fence is parsed and the body is what follows the match |
| FrontmatterParser.ParseFencedDocument | src/SkillsDotNet/FrontmatterParser.cs:18-39 | a document built as fence, block, fence, body parses back to that block's entries and exactly that body |
| FrontmatterParser.SkippedLinesIgnored | src/SkillsDotNet/FrontmatterParser.cs:51-55 | dropping every blank and comment line, anywhere in a block, changes no result |
| FrontmatterParser.CleanItemsKeepsClean | src/SkillsDotNet/FrontmatterParser.cs:99-102 | items that are already trimmed, unquoted and non-empty are kept as they are, in order |
| FrontmatterParser.RepeatedKeyLastWins | src/SkillsDotNet/FrontmatterParser.cs:107 | a key given again keeps its first position and takes the new value |
| FrontmatterParser.OpenMapStoredAtEnd | src/SkillsDotNet/FrontmatterParser.cs:111-115 | a nested map still open at the end of the block is stored, even when it is empty |
| SkillValidator.FirstInvalidIndex | src/SkillsDotNet/SkillValidator.cs:124-131 | the first character that is neither a letter, a digit nor `-`; -1 exactly when there is none |
| SkillValidator.NameErrorsEmptyIff | src/SkillsDotNet/SkillValidator.cs:93-142 | a name gets no error exactly when it obeys every name rule, stated separately |
| SkillValidator.CharacterErrorsInto | src/SkillsDotNet/SkillValidator.cs:124-131 | the character scan appends exactly the error for the first invalid character, or nothing when every character is a letter, a digit or `-` |
| SkillValidator.ValidateNameInto | src/SkillsDotNet/SkillValidator.cs:93-142 | the name checks append their errors in rule order to the list they are given, keeping what was in it |
| SkillValidator.ValidateName | src/SkillsDotNet/SkillValidator.cs:86-91 | the public overload returns the name's errors, and none exactly when the name is valid |
| SkillValidator.UnknownFieldErrors | src/SkillsDotNet/SkillValidator.cs:39-46 | at most one error per frontmatter key |
| SkillValidator.UnknownFieldErrorsExact | src/SkillsDotNet/SkillValidator.cs:39-46 | an unknown-field error is reported for a key exactly when the key is outside the six allowed fields |
| SkillValidator.UnknownFieldErrorsOf | src/SkillsDotNet/SkillValidator.cs:39-46 | the key loop reports each key outside the allowed fields once, in key order |
| SkillValidator.Validate | src/SkillsDotNet/SkillValidator.cs:31-81 | the imperative checks return the error list of the specification: unknown fields, then the name, the description and the compatibility field |
| SkillValidator.ValidateEmptyIff | src/SkillsDotNet/SkillValidator.cs:31-81 | no error exactly when all keys are allowed, the name and description are valid strings and a string compatibility value has at most 500 characters |
| SkillValidator.MissingNameReported | src/SkillsDotNet/SkillValidator.cs:48-56 | a missing or non-string name is reported as required, and it is the only name error |
| SkillValidator.DescriptionReported | src/SkillsDotNet/SkillValidator.cs:58-66 | the description gets its required, empty or too-long error exactly when it is missing or not a string, empty, or over 1024 characters |
| SkillValidator.EmptyNameOnlyError | src/SkillsDotNet/SkillValidator.cs:95-99 | an empty name yields the empty-name error alone, with no directory check |
| SkillValidator.DirectoryMismatchIff | src/SkillsDotNet/SkillValidator.cs:133-141 | a directory mismatch is reported exactly when a directory name is given and the NFKC forms differ ordinally |
| SkillValidator.InvalidCharacterReportedOnce | src/SkillsDotNet/SkillValidator.cs:124-131 | a reported invalid character is the first bad character of the normalised name |
| SkillValidator.MixedCaseDoubleHyphenExample | src/SkillsDotNet/SkillValidator.cs:109-122 | `My--Skill` gets both the lower-case error and the consecutive-hyphen error |
| SkillContext.FieldText | src/SkillsDotNet/SkillContextExtensions.cs:16-17 | a missing field contributes `""`, a string field its text |
| SkillContext.DefaultFormatter | src/SkillsDotNet/SkillContextExtensions.cs:13-19 | the name text, `": "`, then the description text |
| SkillContext.DefaultFormatterSplits | src/SkillsDotNet/SkillContextExtensions.cs:13-19 | for a name without a colon, the blurb splits at its first colon back into name and description |
| SkillContext.DefaultFormatterFields | src/SkillsDotNet/SkillContextExtensions.cs:16-18 | string fields are used as they are, and missing ones as empty |
| SkillContext.DefaultFormatterEmpty | src/SkillsDotNet/SkillContextExtensions.cs:16-18 | empty frontmatter formats to `": "` |
| SkillContext.ToTextContent | src/SkillsDotNet/SkillContextExtensions.cs:35-42 | the supplied formatter is used when there is one, otherwise the default |
| SkillContext.AsTextContent | src/SkillsDotNet/SkillContextExtensions.cs:24-30 | a skill's block is the block of its frontmatter |
| SkillDirectoryScanner.FindMainFile | src/SkillsDotNet.Mcp/SkillDirectoryScanner.cs:95-119 | the exact path when that file exists; otherwise the full name of the first top-level file matching the pattern; otherwise the lower-cased path when that file exists; nothing exactly when all three fail; any path returned names an existing file |
| SkillDirectoryScanner.MainFileNamed | src/SkillsDotNet.Mcp/SkillDirectoryScanner.cs:95-119 | for a single-segment main file name whose lower-cased form is one too, the main file found is a top-level file, and the file name of its path is its relative path |
| SkillDirectoryScanner.GetSkillName | src/SkillsDotNet.Mcp/SkillDirectoryScanner.cs:121-129 | a non-blank string name in the frontmatter is the result; in every other case the result is the directory name; it is non-blank whenever the directory name is |
| SkillDirectoryScanner.Truncate | src/SkillsDotNet.Mcp/SkillDirectoryScanner.cs:167-170 | a prefix of at most the limit: the value itself when it is short enough, otherwise exactly the limit long |
| SkillDirectoryScanner.FirstHeadingIndex | src/SkillsDotNet.Mcp/SkillDirectoryScanner.cs:140-151 | the first line whose text after the `#`s is non-empty; -1 exactly when there is none |
| SkillDirectoryScanner.FirstNonBlankIndex | src/SkillsDotNet.Mcp/SkillDirectoryScanner.cs:154-161 | the first line that is non-empty once trimmed; -1 exactly when there is none |
| SkillDirectoryScanner.GetDescription | src/SkillsDotNet.Mcp/SkillDirectoryScanner.cs:131-165 | a non-blank string description in the frontmatter is the result; in every other case the result is the description derived from the body split at line feeds; never empty |
| SkillDirectoryScanner.DescriptionFromBody | src/SkillsDotNet.Mcp/SkillDirectoryScanner.cs:139-164 | the first heading text truncated to 200, else the first non-empty trimmed line truncated to 200, else `A skill`; never empty and at most 200 long |
| SkillDirectoryScanner.Hex | src/SkillsDotNet.Mcp/SkillDirectoryScanner.cs:196 | two lower-case hex digits per byte |
| SkillDirectoryScanner.ParseHexOfHex | src/SkillsDotNet.Mcp/SkillDirectoryScanner.cs:196 | the hex text reads back to the bytes it came from |
| SkillDirectoryScanner.HashString | src/SkillsDotNet.Mcp/SkillDirectoryScanner.cs:192-197 | `sha256:` and 64 lower-case hex digits, 71 characters in all, reading back to the digest |
| SkillDirectoryScanner.ComputeFileHash | src/SkillsDotNet.Mcp/SkillDirectoryScanner.cs:192-197 | succeeds exactly for a readable file, with the hash string of its digest |
| SkillDirectoryScanner.Insert | src/SkillsDotNet.Mcp/SkillDirectoryScanner.cs:176 | inserting into a list sorted by full name keeps it sorted and adds exactly that file |
| SkillDirectoryScanner.SortByFullName | src/SkillsDotNet.Mcp/SkillDirectoryScanner.cs:176 | the files ordered ordinally by full name, as a permutation |
| SkillDirectoryScanner.PosixPath | src/SkillsDotNet.Mcp/SkillDirectoryScanner.cs:178-179 | the relative path with no `\`, of the same length |
| SkillDirectoryScanner.FileInfos | src/SkillsDotNet.Mcp/SkillDirectoryScanner.cs:176-187 | one entry per file in order: path, size and hash; succeeds exactly when every file is readable |
| SkillDirectoryScanner.ScanFiles | src/SkillsDotNet.Mcp/SkillDirectoryScanner.cs:172-190 | the loop returns the file list of the specification |
| SkillDirectoryScanner.FileInfosFailurePersists | src/SkillsDotNet.Mcp/SkillDirectoryScanner.cs:176-187 | once a file cannot be read, that error is what the whole scan reports |
| SkillDirectoryScanner.ScanFilesShape | src/SkillsDotNet.Mcp/SkillDirectoryScanner.cs:172-190 | a successful file list names every file exactly once, in full-name order, by a path without `\` |
| SkillDirectoryScanner.ScanSkill | src/SkillsDotNet.Mcp/SkillDirectoryScanner.cs:17-50 | a missing directory gives DirectoryNotFound and a missing main file gives FileNotFound; otherwise the derived name, description, full path, main file name, files and frontmatter |
| SkillDirectoryScanner.ScanSkillListsMainFile | src/SkillsDotNet.Mcp/SkillDirectoryScanner.cs:27-48 | when the main file name and its lower-cased form are single segments and no relative path holds `\`, a scanned skill's file list has an entry whose path is the recorded main file name |
| SkillDirectoryScanner.FileListed | src/SkillsDotNet.Mcp/SkillDirectoryScanner.cs:172-190 | every file of the directory appears in a successful file list under its POSIX relative path |
| SkillDirectoryScanner.ScanAll | src/SkillsDotNet.Mcp/SkillDirectoryScanner.cs:68-86 | at most one skill per subdirectory |
| SkillDirectoryScanner.ScanDirectory | src/SkillsDotNet.Mcp/SkillDirectoryScanner.cs:59-89 | a missing parent gives no skills; otherwise the loop returns the batch scan of the subdirectories in listing order |
| SkillDirectoryScanner.ScanAllExact | src/SkillsDotNet.Mcp/SkillDirectoryScanner.cs:68-86 | the batch keeps exactly the subdirectories whose own scan succeeds: a subdirectory without a main file, or whose scan fails, is skipped (enumeration faults are not modelled; see Left out) |
| SkillResourceFactory.BuildManifest | src/SkillsDotNet.Mcp/SkillResourceFactory.cs:89-107 | the skill's name and one entry per file, in order, with its path, size and hash |
| SkillResourceFactory.SupportingFiles | src/SkillsDotNet.Mcp/SkillResourceFactory.cs:64-70 | a file is kept exactly when it is one of the files and its path is not the main file name |
| SkillResourceFactory.SupportingFilesOne | src/SkillsDotNet.Mcp/SkillResourceFactory.cs:64-70 | a single file is kept exactly when its path is not the main file name |
| SkillResourceFactory.SupportingFilesAppend | src/SkillsDotNet.Mcp/SkillResourceFactory.cs:64-70 | the supporting files of two runs of files are those of the first run followed by those of the second, so they keep the order and multiplicity of the file list |
| SkillResourceFactory.FileResources | src/SkillsDotNet.Mcp/SkillResourceFactory.cs:64-84 | one per-file resource for each given file, in order |
| SkillResourceFactory.CreateResources | src/SkillsDotNet.Mcp/SkillResourceFactory.cs:18-87 | the loop builds the published list of the specification, with absent options read as the defaults |
| SkillResourceFactory.TemplateModeShape | src/SkillsDotNet.Mcp/SkillResourceFactory.cs:25-61 | template mode gives exactly three resources: main file, manifest, then the `{+path}` template, at their `skill://{name}/…` URIs |
| SkillResourceFactory.ResourcesModeShape | src/SkillsDotNet.Mcp/SkillResourceFactory.cs:25-84 | resources mode gives main file and manifest, then one resource per non-main file at `skill://{name}/{path}`, in file order |
| SkillResourceFactory.FileResourceUnderTemplate | src/SkillsDotNet.Mcp/SkillResourceFactory.cs:57-78 | every per-file URI starts with the template's base `skill://{name}/` |
| SkillResourceFactory.DetectMimeTypeEntry | src/SkillsDotNet.Mcp/SkillResourceFactory.cs:190-219 | a lower-cased extension found in the table detects as an entry of the table for it; any other detects as `application/octet-stream` |
| SkillResourceFactory.DetectMimeTypeTable | src/SkillsDotNet.Mcp/SkillResourceFactory.cs:192-218 | every extension of the table, in any case, detects as its own entry |
| SkillResourceFactory.MimeTableUnique | src/SkillsDotNet.Mcp/SkillResourceFactory.cs:192-218 | no extension occurs twice in the table |
| SkillResourceFactory.NotText | src/SkillsDotNet.Mcp/SkillResourceFactory.cs:180-188 | a type outside `text/`, the three application types and the `+json`/`+xml` suffixes is not text |
| SkillResourceFactory.BinaryTypesAreBinary | src/SkillsDotNet.Mcp/SkillResourceFactory.cs:180-188 | images other than SVG, PDF, ZIP and the default type are binary |
| SkillResourceFactory.BinaryTypeIsBinary | src/SkillsDotNet.Mcp/SkillResourceFactory.cs:180-188 | each binary type of the table, and the default, is not text |
| SkillResourceFactory.TextTypesAreText | src/SkillsDotNet.Mcp/SkillResourceFactory.cs:180-188 | the text types of the table are classified as text |
| SkillResourceFactory.MimeTableClassification | src/SkillsDotNet.Mcp/SkillResourceFactory.cs:180-218 | every type the table yields is either text or binary, never both, and the classifier agrees |
| SkillResourceFactory.ReadFileContents | src/SkillsDotNet.Mcp/SkillResourceFactory.cs:137-156 | text contents exactly for text types, with the decoded text; otherwise blob contents carrying the bytes |
| SkillResourceFactory.ReadSupportingFile | src/SkillsDotNet.Mcp/SkillResourceFactory.cs:109-135 | a rooted path or one containing `..` is refused before any file check; a read that succeeds was of an existing file under the skill directory |
| SkillResourceFactory.ReadSupportingFileAccepted | src/SkillsDotNet.Mcp/SkillResourceFactory.cs:119-131 | under a skill directory, a path that passes the guard is read exactly when its file exists; otherwise it is not found |
| SkillResourceFactory.ReadPublishedFile | src/SkillsDotNet.Mcp/SkillResourceFactory.cs:158-178 | succeeds exactly for an existing file, at a URI naming only the file name |
| Paths.CombineStaysInside | src/SkillsDotNet.Mcp/SkillResourceFactory.cs:119-126 | a relative path free of `..` appended to the skill directory resolves under it, so the prefix test holds |
| SkillCompletionRegistry.FilePaths | src/SkillsDotNet.Mcp/SkillCompletionRegistry.cs:20-25 | the path of every file, the main file's included, in order |
| SkillCompletionRegistry.Matching | src/SkillsDotNet.Mcp/SkillCompletionRegistry.cs:43-49 | exactly the paths that start ordinally with the prefix |
| SkillCompletionRegistry.MatchingEmptyPrefix | src/SkillsDotNet.Mcp/SkillCompletionRegistry.cs:43-49 | the empty prefix matches every path, in order |
| SkillCompletionRegistry.Completions | src/SkillsDotNet.Mcp/SkillCompletionRegistry.cs:35-58 | unknown name gives `([], 0, false)`; otherwise the first min(total, 100) matches, the match count, and more exactly when the total is over 100 |
| SkillCompletionRegistry.SkillCompletionRegistry.constructor | src/SkillsDotNet.Mcp/SkillCompletionRegistry.cs:10 | a new registry knows no skill |
| SkillCompletionRegistry.SkillCompletionRegistry.RegisterSkill | src/SkillsDotNet.Mcp/SkillCompletionRegistry.cs:16-27 | the name now maps to its file paths, replacing an earlier list; other names are unchanged |
| SkillCompletionRegistry.SkillCompletionRegistry.GetCompletions | src/SkillsDotNet.Mcp/SkillCompletionRegistry.cs:35-58 | the loop returns the completions of the specification for the registry's contents |
| SkillCompletionRegistry.CompletionsEmptyPrefix | src/SkillsDotNet.Mcp/SkillCompletionRegistry.cs:43-57 | up to 100 registered paths all come back under the empty prefix, with no more flag |
| SkillCompletionRegistry.CompletionsExample | src/SkillsDotNet.Mcp/SkillCompletionRegistry.cs:35-58 | of `SKILL.md` and `references/checklist.md`, only the second starts with `ref` |
| SkillCompletionExtensions.ParseSkillNameFromTemplateUri | src/SkillsDotNet.Mcp/SkillCompletionExtensions.cs:89-117 | a name is returned only for a URI of the form `skill://` + name + `/{+path}`, with a non-empty name without `/` |
| SkillCompletionExtensions.ParseTemplateRoundTrip | src/SkillsDotNet.Mcp/SkillCompletionExtensions.cs:89-117 | the template URI of any non-empty name without `/` parses back to that name |
| SkillCompletionExtensions.ParsesTemplateResource | src/SkillsDotNet.Mcp/SkillResourceFactory.cs:57 | the template the factory publishes for a skill parses back to the skill's name |
| SkillCompletionExtensions.ParseRejectsShape | src/SkillsDotNet.Mcp/SkillCompletionExtensions.cs:103-114 | a URI too short to hold a name and the suffix, or not ending in `}`, yields no name |
| SkillCompletionExtensions.ParseRejectsNonTemplates | src/SkillsDotNet.Mcp/SkillCompletionExtensions.cs:91-114 | no URI, another scheme, no name, and the main file, manifest and nested paths all yield no name |
| SkillCompletionExtensions.CompletionFor | src/SkillsDotNet.Mcp/SkillCompletionExtensions.cs:29-59 | the result is empty unless the reference is a resource template whose name parses and the argument is `path` |
| SkillCompletionExtensions.CompletionForwardsRegistry | src/SkillsDotNet.Mcp/SkillCompletionExtensions.cs:46-59 | a request for the `path` of a skill's template carries the registry's values, total and more flag unchanged |
| SkillCompletionExtensions.HandleComplete | src/SkillsDotNet.Mcp/SkillCompletionExtensions.cs:29-59 | the handler answers what the specification does for the registry's contents |
| SkillServerBuilderExtensions.FirstWins | src/SkillsDotNet.Mcp/SkillServerBuilderExtensions.cs:86-96 | every name of the input is kept, and only skills of the input |
| SkillServerBuilderExtensions.FirstWinsUnique | src/SkillsDotNet.Mcp/SkillServerBuilderExtensions.cs:86-96 | no name is registered twice |
| SkillServerBuilderExtensions.FirstWinsIsFirst | src/SkillsDotNet.Mcp/SkillServerBuilderExtensions.cs:86-96 | what is registered under a name is its first occurrence in directory-then-scan order |
| SkillServerBuilderExtensions.CreateAll | src/SkillsDotNet.Mcp/SkillServerBuilderExtensions.cs:56-65 | the resources of every given skill, skill by skill |
| SkillServerBuilderExtensions.CreateUnseen | src/SkillsDotNet.Mcp/SkillServerBuilderExtensions.cs:88-104 | one directory's pass adds its names to the registered set, and the resources of exactly the skills not yet registered |
| SkillServerBuilderExtensions.McpServerBuilder.constructor | src/SkillsDotNet.Mcp/SkillServerBuilderExtensions.cs:18-37 | a new builder has no resources |
| SkillServerBuilderExtensions.McpServerBuilder.WithSkill | src/SkillsDotNet.Mcp/SkillServerBuilderExtensions.cs:18-37 | the scanned skill's resources are appended in order, with absent options read as the defaults; a failed scan registers nothing and reports its error |
| SkillServerBuilderExtensions.McpServerBuilder.WithSkillsDirectory | src/SkillsDotNet.Mcp/SkillServerBuilderExtensions.cs:46-67 | the resources of every scanned skill are appended, with no de-duplication |
| SkillServerBuilderExtensions.McpServerBuilder.WithSkillsDirectories | src/SkillsDotNet.Mcp/SkillServerBuilderExtensions.cs:77-107 | the resources of the first-wins skills of all directories are appended, in directory-then-skill order |
| SkillClientExtensions.SkillNameOf | src/SkillsDotNet.Mcp/SkillClientExtensions.cs:32 | the extracted name rebuilds the URI between prefix and suffix |
| SkillClientExtensions.ListSkillsAsWritten | src/SkillsDotNet.Mcp/SkillClientExtensions.cs:26-40 | discovery as written fails, out of range, exactly when a listed URI passes both tests but is shorter than prefix and suffix together |
| SkillClientExtensions.ListSkillsOverlapExample | src/SkillsDotNet.Mcp/SkillClientExtensions.cs:29-32 | a listing of `skill://SKILL.md` makes discovery as written fail; the intended discovery skips it |
| SkillClientExtensions.Discover | src/SkillsDotNet.Mcp/SkillClientExtensions.cs:26-40 | every summary's URI is `skill://` + its name + `/SKILL.md`, at most one per listed resource |
| SkillClientExtensions.DiscoverOne | src/SkillsDotNet.Mcp/SkillClientExtensions.cs:26-40 | a single resource gives its summary exactly when its URI is a discoverable skill URI, and nothing otherwise |
| SkillClientExtensions.DiscoverAppend | src/SkillsDotNet.Mcp/SkillClientExtensions.cs:26-40 | the summaries of a listing are those of its first part followed by those of the rest, so discovery keeps listing order and one summary per skill URI |
| SkillClientExtensions.DiscoverExact | src/SkillsDotNet.Mcp/SkillClientExtensions.cs:26-40 | every listed skill URI contributes its summary, and every summary is that of a listed skill URI |
| SkillClientExtensions.ListSkillsAgree | src/SkillsDotNet.Mcp/SkillClientExtensions.cs:26-40 | without an overlapping URI, discovery as written succeeds with the intended result |
| SkillClientExtensions.DiscoverMainResource | src/SkillsDotNet.Mcp/SkillClientExtensions.cs:32-37 | a main-file resource is discovered under its skill's name with its description |
| SkillClientExtensions.ListSkills | src/SkillsDotNet.Mcp/SkillClientExtensions.cs:18-43 | the loop returns the intended discovery of the listing, whose order and contents DiscoverAppend, DiscoverOne and DiscoverExact state |
| SkillClientExtensions.Read | src/SkillsDotNet.Mcp/SkillClientExtensions.cs:56 | a read succeeds exactly for a URI the server knows |
| SkillClientExtensions.GetSkillManifest | src/SkillsDotNet.Mcp/SkillClientExtensions.cs:48-73 | succeeds exactly when `skill://{name}/_manifest` has text first content that deserialises to a manifest, returning that manifest; never fails with an I/O error |
| SkillClientExtensions.WriteEntry | src/SkillsDotNet.Mcp/SkillClientExtensions.cs:97-130 | an entry succeeds exactly when it passes the path guard and the server answers its URI; a rooted or `..` path fails with the invalid-path error; a failing entry leaves the disk as it was; a successful entry with content stores the first content, text or bytes, at the skill directory joined with the entry path and records that file's directory; an entry without content changes nothing |
| SkillClientExtensions.WriteEntriesPass | src/SkillsDotNet.Mcp/SkillClientExtensions.cs:97-130 | the entry loop succeeds exactly when every entry passes the guard and is answered |
| SkillClientExtensions.WriteEntriesWrites | src/SkillsDotNet.Mcp/SkillClientExtensions.cs:97-130 | after a successful loop, each entry answered with content has its first content at its local path, unless a later entry writes the same path, and that file's directory exists |
| SkillClientExtensions.WriteEntryTo | src/SkillsDotNet.Mcp/SkillClientExtensions.cs:99-129 | one pass of the entry loop leaves the result and disk of the entry specification: guard, read, skip of an empty read, then directory and file |
| SkillClientExtensions.DownloadRefusesExisting | src/SkillsDotNet.Mcp/SkillClientExtensions.cs:90-95 | an existing target without overwrite is an I/O error before anything is created |
| SkillClientExtensions.WriteEntriesOnlyWritesSafe | src/SkillsDotNet.Mcp/SkillClientExtensions.cs:100-114 | every new file is at the skill directory joined with a manifest path that passed the guard |
| SkillClientExtensions.DownloadStaysInside | src/SkillsDotNet.Mcp/SkillClientExtensions.cs:100-114 | under a rooted target, every written file resolves inside the skill directory |
| SkillClientExtensions.WriteEntriesFailurePersists | src/SkillsDotNet.Mcp/SkillClientExtensions.cs:97-130 | a failing entry aborts the download, and the files written before it stay |
| SkillClientExtensions.LocalDisk.CreateDirectory | src/SkillsDotNet.Mcp/SkillClientExtensions.cs:114-119 | the directory exists afterwards; files are unchanged |
| SkillClientExtensions.LocalDisk.WriteFile | src/SkillsDotNet.Mcp/SkillClientExtensions.cs:121-129 | the file holds the given contents; directories are unchanged |
| SkillClientExtensions.DownloadSkill | src/SkillsDotNet.Mcp/SkillClientExtensions.cs:79-133 | result and disk afterwards follow the specification: manifest first, the existing-directory check, directory creation, then the entries in order |
| SkillClientExtensions.DownloadSucceeds | src/SkillsDotNet.Mcp/SkillClientExtensions.cs:79-133 | a download succeeds exactly when the manifest is read, the target is new or overwrite is set, and every entry downloads; it then returns the skill directory, which exists afterwards |
| SkillClientExtensions.DownloadWritesFile | src/SkillsDotNet.Mcp/SkillClientExtensions.cs:97-130 | after a successful download, each entry answered with content has its first content at the skill directory joined with its path, unless a later entry writes the same path |
| SkillClientExtensions.SyncAll | src/SkillsDotNet.Mcp/SkillClientExtensions.cs:149-162 | at most one path per skill; a sync never fails with an I/O error, because those are skipped |
| SkillClientExtensions.SyncAllPaths | src/SkillsDotNet.Mcp/SkillClientExtensions.cs:149-162 | every reported path is the skill directory of a discovered skill |
| SkillClientExtensions.SyncAllPrefix | src/SkillsDotNet.Mcp/SkillClientExtensions.cs:149-162 | the sync of the first skills succeeds too, and what it reports begins what the whole sync reports, so paths are reported in discovery order |
| SkillClientExtensions.SyncAllReportsDownload | src/SkillsDotNet.Mcp/SkillClientExtensions.cs:149-162 | each skill whose download succeeds during a successful sync has its skill directory reported right after the paths of the skills before it |
| SkillClientExtensions.SyncSkills | src/SkillsDotNet.Mcp/SkillClientExtensions.cs:139-163 | the loop's result and disk follow the specification over the discovered skills |
| SkillClientExtensions.SyncAllFailurePersists | src/SkillsDotNet.Mcp/SkillClientExtensions.cs:149-162 | an error other than I/O ends the sync: later skills change nothing |
| SkillCatalog.BuildLoadSkillTool | src/SkillsDotNet.Mcp/SkillCatalog.cs:152-163 | the tool is named `load_skill`; its description is the fixed preamble followed by the cached names in cache order, joined by `", "`, so it starts with the preamble and names every cached skill |
| SkillCatalog.JoinNamesInjective | src/SkillsDotNet.Mcp/SkillCatalog.cs:154 | a `", "`-joined list of non-empty names without commas determines the names and their order |
| SkillCatalog.LoadSkillToolNamesKeys | src/SkillsDotNet.Mcp/SkillCatalog.cs:152-163 | two caches whose names have no comma get the same tool description only when they hold the same names in the same order |
| SkillCatalog.JoinContains | src/SkillsDotNet.Mcp/SkillCatalog.cs:154 | every name occurs in the comma-joined list |
| SkillCatalog.AddSkillsFailurePersists | src/SkillsDotNet.Mcp/SkillCatalog.cs:55-74 | a failed read ends the addition, keeping the entries already written |
| SkillCatalog.AddSkillsUnique | src/SkillsDotNet.Mcp/SkillCatalog.cs:67 | adding keeps every name cached once |
| SkillCatalog.AddSkillsOverwrites | src/SkillsDotNet.Mcp/SkillCatalog.cs:55-74 | after a completed addition, every discovered skill with text first content is cached under the adding client, whichever client held the name before |
| SkillCatalog.AddSkillsKeepsOthers | src/SkillsDotNet.Mcp/SkillCatalog.cs:58-62 | a name with no discovered skill readable as text keeps its entry, so skills with non-text content are skipped |
| SkillCatalog.AddSkillsCurrent | src/SkillsDotNet.Mcp/SkillCatalog.cs:64-73 | each cached entry holds the frontmatter its client serves and the context block built from it |
| SkillCatalog.DropClient | src/SkillsDotNet.Mcp/SkillCatalog.cs:86-94 | exactly the entries of the other clients, in order |
| SkillCatalog.RemoveClientKeys | src/SkillsDotNet.Mcp/SkillCatalog.cs:86-94 | removing the client's keys one after the other drops exactly that client's entries |
| SkillCatalog.GetDropClient | src/SkillsDotNet.Mcp/SkillCatalog.cs:86-94 | after removal the client's names are gone and every other name looks up as before |
| SkillCatalog.SkillCatalog.constructor | src/SkillsDotNet.Mcp/SkillCatalog.cs:21-26 | a new catalog caches nothing and its tool lists no skill |
| SkillCatalog.CacheSkill | src/SkillsDotNet.Mcp/SkillCatalog.cs:56-73 | one skill's read, parse and cache write agree with the single-skill addition specification, including the failed read and the non-text first content |
| SkillCatalog.CacheSkills | src/SkillsDotNet.Mcp/SkillCatalog.cs:55-74 | the loop over the discovered skills agrees with the addition specification and stops at the first failed read |
| SkillCatalog.SkillCatalog.AddClient | src/SkillsDotNet.Mcp/SkillCatalog.cs:48-77 | the cache follows the addition specification; the tool is rebuilt after a completed addition and left as it was when a read fails |
| SkillCatalog.SkillCatalog.RemoveClient | src/SkillsDotNet.Mcp/SkillCatalog.cs:82-97 | the client's entries are dropped with the rest in order, and the tool is rebuilt |
| SkillCatalog.SkillCatalog.SkillNames | src/SkillsDotNet.Mcp/SkillCatalog.cs:102 | one name per entry, exactly the cached names |
| SkillCatalog.SkillCatalog.GetSkillContext | src/SkillsDotNet.Mcp/SkillCatalog.cs:108-112 | the cached block of a known name; KeyNotFound otherwise |
| SkillCatalog.SkillCatalog.GetSkillContexts | src/SkillsDotNet.Mcp/SkillCatalog.cs:117-120 | one block per entry, in cache order |
| SkillCatalog.SkillCatalog.LoadSkill | src/SkillsDotNet.Mcp/SkillCatalog.cs:133-150 | KeyNotFound for an unknown name; otherwise the cached URI is re-read from the cached client, giving its text or, without text content, an invalid-operation error |
| SkillCatalog.LoadMatchesCache | src/SkillsDotNet.Mcp/SkillCatalog.cs:138-145 | while the servers serve what they served at addition, loading returns the document whose frontmatter and block are cached |
| SkillCatalog.DropClientCurrent | src/SkillsDotNet.Mcp/SkillCatalog.cs:86-94 | removing a client keeps the rest of the cache current |

## Left out

- Null arguments and cancellation: the model has no null references. The `ArgumentNullException` checks are therefore absent, among them null frontmatter in `ToTextContent`.
- Async, the MCP transport and protocol errors: a server is a listing plus a URI-to-contents map, and reading an unknown URI is a protocol error.
- Delegate plumbing and dependency injection are left out:
  - `WithSkillCompletions` registering the handler;
  - `GetOrCreateRegistry`;
  - `CreateAsync`;
  - `Services.AddSingleton`;
  - the `AIFunction` built around `LoadSkillAsync`.
- `VendorSkillExtensions` and the sample programs, which only locate directories and host servers.
- Foreign algorithms are parameters:
  - SHA-256 (FIPS 180-4);
  - UTF-8 decoding;
  - base64 (section 4 of RFC 4648);
  - the `System.Text.Json` serializer;
  - NFKC (Unicode Standard Annex #15);
  - `char.IsLetterOrDigit` and `ToLowerInvariant`;
  - the file-name glob of `GetFiles`.

  Blob contents carry the bytes rather than their base64 text.
- Path handling:
  - The model uses Unix path semantics only.
  - `GetRelativePath` is the file's relative path in the snapshot.
  - The culture-sensitive `Order()` of subdirectories is an input: a parent directory is given as its sorted list.
- Culture-sensitive prefix tests: `content.StartsWith("---")` (src/SkillsDotNet/FrontmatterParser.cs:22) and `line.StartsWith("  ")` / `line.StartsWith("\t")` (:58) compare with the current culture. The model compares ordinally, so the two differ only on text holding characters that culture-aware comparison ignores, such as U+00AD (soft hyphen).
- SkillDirectoryScanner.ScanDirectory: a subdirectory whose file enumeration fails is not modelled. The source calls `FindMainFile` (src/SkillsDotNet.Mcp/SkillDirectoryScanner.cs:72) outside the `try` block, so a `GetFiles` fault there ends the whole scan; in the model the snapshot is always enumerable, `FindMainFile` cannot fail, and only failures inside `ScanSkill` are skipped.
- SkillClientExtensions.DownloadSkill: the skill name is joined under the target directory without a guard, as in the source. A name holding `..` therefore names a directory outside the target; the model keeps that behaviour and proves containment only for manifest entry paths.
- `OrdinalIgnoreCase` in the MIME classifier is modelled as ASCII case-insensitivity.
- `char` is a Unicode scalar value, not a UTF-16 code unit, so ordinal order and lengths are those of code points.
- The closing-fence regular expression is specified directly, not matched by a regex engine.
- `Dict` enumeration follows insertion order also after removals. A .NET `Dictionary` may reuse a freed slot, so after `RemoveClient` the order of later additions can differ.
- `LocalDisk.CreateDirectory` records only the directory it is given, not its missing parents. Directories are not checked for existence before files are written.
- Only the existing-directory check raises an I/O error in `DownloadSkill`. Write failures and other I/O faults are not modelled.
- The completion result of an empty answer leaves total and more flag unset, as a default `CompleteResult` does.
- SkillCatalog.SkillCatalog.AddClient and SkillClientExtensions.SyncSkills use the intended discovery, not discovery as written, so they do not fail on an overlapping `skill://SKILL.md` URI. See Findings.

## Findings

| source | as written | input that shows it | evidently intended | confidence | as-written member | corrected member |
|---|---|---|---|---|---|---|
| src/SkillsDotNet.Mcp/SkillClientExtensions.cs:29-32 | a URI is kept when it starts with `skill://` and ends with `/SKILL.md`, and the name is `Substring(8, length - 17)` | a listed resource at `skill://SKILL.md`: both tests pass because prefix and suffix share the `/`, the length is 16, and `Substring` throws out of range, failing the whole discovery | skip URIs shorter than prefix and suffix together, and discover the others | not executed | SkillClientExtensions.ListSkillsOverlapExample | SkillClientExtensions.ListSkills |
