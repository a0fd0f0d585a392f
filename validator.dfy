/** Validation of a skill's frontmatter against the Agent Skills rules:
    only known fields, a required lower-case hyphenated name that matches
    its directory, a required description and a bounded compatibility note.
    The result is the list of every problem found, empty when the skill is
    valid. */
module SkillValidator {
  import opened Wrappers
  import opened Seqs
  import opened Text
  import opened Dict
  import opened Unicode
  import opened FrontmatterParser

  const MaxSkillNameLength := 64
  const MaxDescriptionLength := 1024
  const MaxCompatibilityLength := 500

  /** The allowed top-level fields, in the order the error message lists them. */
  const AllowedFields: seq<string> :=
    ["name", "description", "license", "allowed-tools", "metadata", "compatibility"]

  datatype ValidationError =
    | UnknownField(key: string)
    | NameRequired
    | DescriptionRequired
    | CompatibilityTooLong
    | NameEmpty
    | NameTooLong
    | NameNotLowercase
    | NameHyphenAtEdge
    | NameConsecutiveHyphens
    | NameInvalidCharacter(c: char)
    | NameDirectoryMismatch(normalized: string, normalizedDirectoryName: string)
    | DescriptionEmpty
    | DescriptionTooLong

  /** The text reported for each error. */
  function Message(e: ValidationError): string {
    match e
    case UnknownField(key) => "Unknown field '" + key + "'. Allowed fields: " + Join(AllowedFields, ", ") + "."
    case NameRequired => "Field 'name' is required and must be a string."
    case DescriptionRequired => "Field 'description' is required and must be a string."
    case CompatibilityTooLong => "Field 'compatibility' must be at most 500 characters."
    case NameEmpty => "Skill name must not be empty."
    case NameTooLong => "Skill name must be at most 64 characters (after NFKC normalization)."
    case NameNotLowercase => "Skill name must be all lowercase."
    case NameHyphenAtEdge => "Skill name must not start or end with a hyphen."
    case NameConsecutiveHyphens => "Skill name must not contain consecutive hyphens."
    case NameInvalidCharacter(c) =>
      "Skill name contains invalid character '" + [c] + "'. Only letters, digits, and hyphens are allowed."
    case NameDirectoryMismatch(n, d) => "Skill name '" + n + "' does not match directory name '" + d + "'."
    case DescriptionEmpty => "Skill description must not be empty."
    case DescriptionTooLong => "Skill description must be at most 1024 characters."
  }

  // ---------------------------------------------------------------------
  // The name

  predicate IsNameChar(rules: Rules, c: char) {
    rules.isLetterOrDigit(c) || c == '-'
  }

  /** Position of the first character that is neither a letter, a digit
      nor a hyphen, or -1. */
  function FirstInvalidIndex(rules: Rules, n: string): (r: int)
    ensures -1 <= r < |n|
    ensures r >= 0 ==> !IsNameChar(rules, n[r]) && forall j :: 0 <= j < r ==> IsNameChar(rules, n[j])
    ensures r == -1 <==> forall j :: 0 <= j < |n| ==> IsNameChar(rules, n[j])
    decreases |n|
  {
    if |n| == 0 then -1
    else if !IsNameChar(rules, n[0]) then 0
    else
      var k := FirstInvalidIndex(rules, n[1..]);
      assert forall j :: 1 <= j < |n| ==> n[j] == n[1..][j - 1];
      if k < 0 then -1 else k + 1
  }

  /** The four shape rules on the normalised name, each reported on its own. */
  function ShapeErrors(rules: Rules, n: string): seq<ValidationError> {
    (if |n| > MaxSkillNameLength then [NameTooLong] else [])
    + (if n != rules.toLowerInvariant(n) then [NameNotLowercase] else [])
    + (if StartsWith(n, "-") || EndsWith(n, "-") then [NameHyphenAtEdge] else [])
    + (if Contains(n, "--") then [NameConsecutiveHyphens] else [])
  }

  /** The first invalid character, if there is one. */
  function CharacterErrors(rules: Rules, n: string): seq<ValidationError> {
    var bad := FirstInvalidIndex(rules, n);
    if bad >= 0 then [NameInvalidCharacter(n[bad])] else []
  }

  function DirectoryErrors(rules: Rules, n: string, directoryName: Option<string>): seq<ValidationError> {
    match directoryName
    case Some(d) => if n != rules.nfkc(d) then [NameDirectoryMismatch(n, rules.nfkc(d))] else []
    case None => []
  }

  /** The errors for a name: an empty name is reported alone; otherwise the
      NFKC form is checked by every rule independently. */
  function NameErrors(rules: Rules, name: string, directoryName: Option<string>): seq<ValidationError> {
    if name == "" then [NameEmpty]
    else
      var n := rules.nfkc(name);
      ShapeErrors(rules, n) + CharacterErrors(rules, n) + DirectoryErrors(rules, n, directoryName)
  }

  /** The rules a skill name obeys, stated on their own. */
  predicate IsValidName(rules: Rules, name: string, directoryName: Option<string>) {
    var n := rules.nfkc(name);
    && name != ""
    && |n| <= MaxSkillNameLength
    && n == rules.toLowerInvariant(n)
    && !StartsWith(n, "-") && !EndsWith(n, "-")
    && !Contains(n, "--")
    && (forall j :: 0 <= j < |n| ==> IsNameChar(rules, n[j]))
    && (directoryName.Some? ==> rules.nfkc(directoryName.value) == n)
  }

  /** A name has no errors exactly when it obeys every rule. */
  lemma NameErrorsEmptyIff(rules: Rules, name: string, directoryName: Option<string>)
    ensures NameErrors(rules, name, directoryName) == [] <==> IsValidName(rules, name, directoryName)
  {
    if name != "" {
      var n := rules.nfkc(name);
      var bad := FirstInvalidIndex(rules, n);
      if bad >= 0 {
        assert !IsNameChar(rules, n[bad]);
      }
    }
  }

  /** The private `ValidateName`: appends the name's errors, scanning the
      characters until the first invalid one. */
  method ValidateNameInto(rules: Rules, name: string, directoryName: Option<string>, errors: seq<ValidationError>)
    returns (result: seq<ValidationError>)
    ensures result == errors + NameErrors(rules, name, directoryName)
  {
    result := errors;
    if name == "" {
      result := result + [NameEmpty];
      return;
    }
    var normalized := rules.nfkc(name);
    if |normalized| > MaxSkillNameLength {
      result := result + [NameTooLong];
    }
    if normalized != rules.toLowerInvariant(normalized) {
      result := result + [NameNotLowercase];
    }
    if StartsWith(normalized, "-") || EndsWith(normalized, "-") {
      result := result + [NameHyphenAtEdge];
    }
    if Contains(normalized, "--") {
      result := result + [NameConsecutiveHyphens];
    }
    assert result == errors + ShapeErrors(rules, normalized);
    result := CharacterErrorsInto(rules, normalized, result);
    ghost var checkedCharacters := result;
    if directoryName.Some? {
      var normalizedDirName := rules.nfkc(directoryName.value);
      if normalized != normalizedDirName {
        result := result + [NameDirectoryMismatch(normalized, normalizedDirName)];
      }
    }
    assert result == checkedCharacters + DirectoryErrors(rules, normalized, directoryName);
    AppendAssociative(errors, ShapeErrors(rules, normalized), CharacterErrors(rules, normalized),
                      DirectoryErrors(rules, normalized, directoryName));
  }

  /** The character loop of `ValidateName`: stops at the first character
      that is neither a letter, a digit nor a hyphen, and reports it. */
  method CharacterErrorsInto(rules: Rules, n: string, errors: seq<ValidationError>)
    returns (result: seq<ValidationError>)
    ensures result == errors + CharacterErrors(rules, n)
  {
    var k := 0;
    while k < |n|
      invariant 0 <= k <= |n|
      invariant forall j :: 0 <= j < k ==> IsNameChar(rules, n[j])
    {
      var c := n[k];
      if !rules.isLetterOrDigit(c) && c != '-' {
        FirstInvalidAt(rules, n, k);
        return errors + [NameInvalidCharacter(c)];
      }
      k := k + 1;
    }
    return errors;
  }

  lemma FirstInvalidAt(rules: Rules, n: string, k: nat)
    requires k < |n| && !IsNameChar(rules, n[k])
    requires forall j :: 0 <= j < k ==> IsNameChar(rules, n[j])
    ensures FirstInvalidIndex(rules, n) == k
  {
  }

  /** The public `ValidateName`. */
  method ValidateName(rules: Rules, name: string, directoryName: Option<string>)
    returns (errors: seq<ValidationError>)
    ensures errors == NameErrors(rules, name, directoryName)
    ensures errors == [] <==> IsValidName(rules, name, directoryName)
  {
    errors := ValidateNameInto(rules, name, directoryName, []);
    NameErrorsEmptyIff(rules, name, directoryName);
  }

  // ---------------------------------------------------------------------
  // The description and the whole frontmatter

  function DescriptionErrors(description: string): seq<ValidationError> {
    if description == "" then [DescriptionEmpty]
    else if |description| > MaxDescriptionLength then [DescriptionTooLong]
    else []
  }

  /** One error per disallowed key, in key order. */
  function UnknownFieldErrors(keys: seq<string>): (r: seq<ValidationError>)
    ensures |r| <= |keys|
    decreases |keys|
  {
    if |keys| == 0 then []
    else
      var last := keys[|keys| - 1];
      UnknownFieldErrors(keys[..|keys| - 1]) + (if last !in AllowedFields then [UnknownField(last)] else [])
  }

  function NameFieldErrors(rules: Rules, fm: Frontmatter, directoryName: Option<string>): seq<ValidationError> {
    match Get<Value>(fm, "name")
    case Some(Str(name)) => NameErrors(rules, name, directoryName)
    case _ => [NameRequired]
  }

  function DescriptionFieldErrors(fm: Frontmatter): seq<ValidationError> {
    match Get<Value>(fm, "description")
    case Some(Str(description)) => DescriptionErrors(description)
    case _ => [DescriptionRequired]
  }

  function CompatibilityErrors(fm: Frontmatter): seq<ValidationError> {
    match Get<Value>(fm, "compatibility")
    case Some(Str(compat)) => if |compat| > MaxCompatibilityLength then [CompatibilityTooLong] else []
    case _ => []
  }

  /** Everything `Validate` reports, in order. */
  function Errors(rules: Rules, fm: Frontmatter, directoryName: Option<string>): seq<ValidationError> {
    UnknownFieldErrors(Keys(fm))
    + NameFieldErrors(rules, fm, directoryName)
    + DescriptionFieldErrors(fm)
    + CompatibilityErrors(fm)
  }

  /** The loop of `Validate` over the frontmatter's keys. */
  method UnknownFieldErrorsOf(keys: seq<string>) returns (errors: seq<ValidationError>)
    ensures errors == UnknownFieldErrors(keys)
  {
    errors := [];
    for i := 0 to |keys|
      invariant errors == UnknownFieldErrors(keys[..i])
    {
      assert keys[..i + 1][..i] == keys[..i];
      var key := keys[i];
      if key !in AllowedFields {
        errors := errors + [UnknownField(key)];
      }
    }
    assert keys[..|keys|] == keys;
  }

  /** `Validate`. */
  method Validate(rules: Rules, frontmatter: Frontmatter, directoryName: Option<string>)
    returns (errors: seq<ValidationError>)
    ensures errors == Errors(rules, frontmatter, directoryName)
  {
    var keys := Keys(frontmatter);
    errors := UnknownFieldErrorsOf(keys);
    var nameObj := Get(frontmatter, "name");
    if nameObj.Some? && nameObj.value.Str? {
      errors := ValidateNameInto(rules, nameObj.value.s, directoryName, errors);
    } else {
      errors := errors + [NameRequired];
    }
    assert errors == UnknownFieldErrors(keys) + NameFieldErrors(rules, frontmatter, directoryName);
    ghost var checkedName := errors;
    var descObj := Get(frontmatter, "description");
    if descObj.Some? && descObj.value.Str? {
      var description := descObj.value.s;
      if description == "" {
        errors := errors + [DescriptionEmpty];
      } else if |description| > MaxDescriptionLength {
        errors := errors + [DescriptionTooLong];
      }
    } else {
      errors := errors + [DescriptionRequired];
    }
    assert errors == checkedName + DescriptionFieldErrors(frontmatter);
    ghost var checkedDescription := errors;
    var compatObj := Get(frontmatter, "compatibility");
    if compatObj.Some? && compatObj.value.Str? {
      if |compatObj.value.s| > MaxCompatibilityLength {
        errors := errors + [CompatibilityTooLong];
      }
    }
    assert errors == checkedDescription + CompatibilityErrors(frontmatter);
  }

  // ---------------------------------------------------------------------
  // Properties

  /** Each disallowed key is reported, and nothing else is. */
  lemma {:induction false} UnknownFieldErrorsExact(keys: seq<string>, e: ValidationError)
    ensures e in UnknownFieldErrors(keys) <==> e.UnknownField? && e.key in keys && e.key !in AllowedFields
    decreases |keys|
  {
    if |keys| > 0 {
      var init := keys[..|keys| - 1];
      UnknownFieldErrorsExact(init, e);
      assert keys == init + [keys[|keys| - 1]];
    }
  }

  /** The whole frontmatter is valid, stated on its own. */
  predicate IsValidFrontmatter(rules: Rules, fm: Frontmatter, directoryName: Option<string>) {
    && (forall k :: k in Keys(fm) ==> k in AllowedFields)
    && (match Get<Value>(fm, "name")
        case Some(Str(name)) => IsValidName(rules, name, directoryName)
        case _ => false)
    && (match Get<Value>(fm, "description")
        case Some(Str(d)) => d != "" && |d| <= MaxDescriptionLength
        case _ => false)
    && (match Get<Value>(fm, "compatibility")
        case Some(Str(c)) => |c| <= MaxCompatibilityLength
        case _ => true)
  }

  /** `Validate` returns no errors exactly when the frontmatter is valid. */
  lemma ValidateEmptyIff(rules: Rules, fm: Frontmatter, directoryName: Option<string>)
    ensures Errors(rules, fm, directoryName) == [] <==> IsValidFrontmatter(rules, fm, directoryName)
  {
    var keys := Keys(fm);
    if UnknownFieldErrors(keys) == [] {
      forall k | k in keys ensures k in AllowedFields {
        UnknownFieldErrorsExact(keys, UnknownField(k));
      }
    } else {
      var e := UnknownFieldErrors(keys)[0];
      UnknownFieldErrorsExact(keys, e);
    }
    match Get<Value>(fm, "name") {
      case Some(Str(name)) => NameErrorsEmptyIff(rules, name, directoryName);
      case _ =>
    }
  }

  /** A missing or non-string name is reported as required. */
  lemma MissingNameReported(rules: Rules, fm: Frontmatter, directoryName: Option<string>)
    requires !(Get(fm, "name").Some? && Get(fm, "name").value.Str?)
    ensures NameRequired in Errors(rules, fm, directoryName)
    ensures forall e :: e in NameFieldErrors(rules, fm, directoryName) ==> e == NameRequired
  {
    var n := |UnknownFieldErrors(Keys(fm))|;
    assert Errors(rules, fm, directoryName)[n] == NameRequired;
  }

  /** The description is reported as required when it is missing or not a
      string, as empty when it is `""`, and as too long past 1024
      characters; each of these is reported exactly then, whatever the
      other fields hold. */
  lemma DescriptionReported(rules: Rules, fm: Frontmatter, directoryName: Option<string>)
    ensures DescriptionRequired in Errors(rules, fm, directoryName) <==>
              !(Get(fm, "description").Some? && Get(fm, "description").value.Str?)
    ensures DescriptionEmpty in Errors(rules, fm, directoryName) <==> Get(fm, "description") == Some(Str(""))
    ensures DescriptionTooLong in Errors(rules, fm, directoryName) <==>
              Get(fm, "description").Some? && Get(fm, "description").value.Str?
              && |Get(fm, "description").value.s| > MaxDescriptionLength
  {
    DescriptionErrorsFromField(rules, fm, directoryName, DescriptionRequired);
    DescriptionErrorsFromField(rules, fm, directoryName, DescriptionEmpty);
    DescriptionErrorsFromField(rules, fm, directoryName, DescriptionTooLong);
  }

  /** A description error is among all the errors exactly when the
      description field reports it. */
  lemma DescriptionErrorsFromField(rules: Rules, fm: Frontmatter, directoryName: Option<string>, e: ValidationError)
    requires IsDescriptionError(e)
    ensures e in Errors(rules, fm, directoryName) <==> e in DescriptionFieldErrors(fm)
  {
    var u := UnknownFieldErrors(Keys(fm));
    var n := NameFieldErrors(rules, fm, directoryName);
    var d := DescriptionFieldErrors(fm);
    var c := CompatibilityErrors(fm);
    assert Errors(rules, fm, directoryName) == u + n + d + c;
    UnknownFieldErrorsExact(Keys(fm), e);
    NameFieldErrorsAreAboutName(rules, fm, directoryName);
  }

  predicate IsDescriptionError(e: ValidationError) {
    e.DescriptionRequired? || e.DescriptionEmpty? || e.DescriptionTooLong?
  }

  lemma NameFieldErrorsAreAboutName(rules: Rules, fm: Frontmatter, directoryName: Option<string>)
    ensures forall e :: e in NameFieldErrors(rules, fm, directoryName) ==> !IsDescriptionError(e)
  {
    match Get<Value>(fm, "name") {
      case Some(Str(name)) =>
        if name != "" {
          var n := rules.nfkc(name);
          assert NameErrors(rules, name, directoryName) ==
            ShapeErrors(rules, n) + CharacterErrors(rules, n) + DirectoryErrors(rules, n, directoryName);
        }
      case _ =>
    }
  }

  /** An empty name yields that one error and no other about the name, not
      even a directory mismatch. */
  lemma EmptyNameOnlyError(rules: Rules, directoryName: Option<string>)
    ensures NameErrors(rules, "", directoryName) == [NameEmpty]
  {
  }

  /** A directory mismatch is only ever reported when a directory name is
      given, and then exactly when the normalised names differ. */
  lemma DirectoryMismatchIff(rules: Rules, name: string, directoryName: Option<string>)
    requires name != ""
    ensures (exists n, d :: NameDirectoryMismatch(n, d) in NameErrors(rules, name, directoryName))
        <==> directoryName.Some? && rules.nfkc(name) != rules.nfkc(directoryName.value)
  {
    var n := rules.nfkc(name);
    var errs := NameErrors(rules, name, directoryName);
    if directoryName.Some? && n != rules.nfkc(directoryName.value) {
      assert errs[|errs| - 1] == NameDirectoryMismatch(n, rules.nfkc(directoryName.value));
    }
  }

  /** At most one invalid character is reported, and it is the first. */
  lemma InvalidCharacterReportedOnce(rules: Rules, name: string, directoryName: Option<string>, c: char)
    requires NameInvalidCharacter(c) in NameErrors(rules, name, directoryName)
    ensures var n := rules.nfkc(name);
      exists i :: 0 <= i < |n| && n[i] == c && !IsNameChar(rules, c) && forall j :: 0 <= j < i ==> IsNameChar(rules, n[j])
  {
    var n := rules.nfkc(name);
    var bad := FirstInvalidIndex(rules, n);
    assert bad >= 0 && n[bad] == c;
  }

  /** `My--Skill` breaks the lower-case and the consecutive-hyphen rules. */
  lemma MixedCaseDoubleHyphenExample()
    ensures NameNotLowercase in NameErrors(Ascii, "My--Skill", None)
    ensures NameConsecutiveHyphens in NameErrors(Ascii, "My--Skill", None)
  {
    var n := "My--Skill";
    assert Ascii.nfkc(n) == n;
    assert Ascii.toLowerInvariant(n)[0] == 'm';
    assert n[2..4] == "--";
    ContainsAt(n, "--", 2);
  }
}
