/** The values passed between the parts of the library: what a scan of a
    skill directory produces, the options of registration, the manifest a
    client reads back, and the contents of an MCP resource. */
module SkillTypes {
  import opened FrontmatterParser

  type byte = x: int | 0 <= x < 256

  /** A SHA-256 digest (FIPS 180-4): 32 bytes. */
  type Digest = d: seq<byte> | |d| == 32 witness seq(32, i => 0)

  /** One file of a skill: its POSIX path relative to the skill directory,
      its size in bytes and its `sha256:<hex>` hash. */
  datatype SkillFileInfo = SkillFileInfo(path: string, size: nat, hash: string)

  datatype SkillInfo = SkillInfo(
    name: string,
    description: string,
    skillDirectoryPath: string,
    mainFileName: string,
    files: seq<SkillFileInfo>,
    frontmatter: Frontmatter)

  /** How supporting files are published: behind one resource template, or
      as one resource each. */
  datatype SkillFileMode = Template | Resources

  datatype SkillOptions = SkillOptions(supportingFiles: SkillFileMode, mainFileName: string)

  /** The options used when none are given. */
  const DefaultOptions := SkillOptions(Template, "SKILL.md")

  datatype SkillManifestFile = SkillManifestFile(path: string, size: nat, hash: string)

  /** The `_manifest` resource: the skill's name and its files. */
  datatype SkillManifest = SkillManifest(skill: string, files: seq<SkillManifestFile>)

  /** A skill found on a server, as a client sees it. */
  datatype SkillSummary = SkillSummary(name: string, description: string, uri: string)

  /** The contents of a resource read: text, or bytes sent as base64. */
  datatype ResourceContents =
    | TextResourceContents(uri: string, mimeType: string, text: string)
    | BlobResourceContents(uri: string, mimeType: string, blob: seq<byte>)

  /** A text block handed to a chat client. */
  datatype TextContent = TextContent(text: string)

  /** The algorithms of the host platform the library calls but does not
      implement: SHA-256, UTF-8 decoding and encoding, and the file-name
      pattern match of a directory search (file name, pattern). */
  datatype Host = Host(
    sha256: seq<byte> -> Digest,
    decodeUtf8: seq<byte> -> string,
    encodeUtf8: string -> seq<byte>,
    globMatch: (string, string) -> bool)
}
