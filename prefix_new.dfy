// Entering a new namespace prefix of a project (PrefixNew.tsx): the prefix-name grammar
// of production [167s] PN_PREFIX of W3C RDF 1.1 Turtle (section 6.5, "Grammar"), the
// characters production [18] IRIREF forbids, and the state of the entry form.
module PrefixNew {
  import opened Results

  /** [163s] PN_CHARS_BASE, restricted to the code units a regular expression without the `u` flag sees. */
  predicate IsNameBaseChar(c: char)
  {
    || 'A' <= c <= 'Z'
    || 'a' <= c <= 'z'
    || '\U{C0}' <= c <= '\U{D6}'
    || '\U{D8}' <= c <= '\U{F6}'
    || '\U{F8}' <= c <= '\U{2FF}'
    || '\U{370}' <= c <= '\U{37D}'
    || '\U{37F}' <= c <= '\U{1FFF}'
    || '\U{200C}' <= c <= '\U{200D}'
    || '\U{2070}' <= c <= '\U{218F}'
    || '\U{2C00}' <= c <= '\U{2FEF}'
    || '\U{3001}' <= c <= '\U{D7FF}'
    || '\U{F900}' <= c <= '\U{FDCF}'
    || '\U{FDF0}' <= c <= '\U{FFFD}'
  }

  /** [166s] PN_CHARS: the base characters plus `_`, `-`, digits and the combining marks. */
  predicate IsNameChar(c: char)
  {
    || IsNameBaseChar(c)
    || c == '_'
    || c == '-'
    || '0' <= c <= '9'
    || c == '\U{B7}'
    || '\U{300}' <= c <= '\U{36F}'
    || '\U{203F}' <= c <= '\U{2040}'
  }

  /**
   * [167s] PN_PREFIX ::= PN_CHARS_BASE ((PN_CHARS | '.')* PN_CHARS)?, stated on positions:
   * a base character first, a name character last, and name characters or dots between.
   */
  predicate IsPrefixName(name: string)
  {
    && name != []
    && IsNameBaseChar(name[0])
    && (|name| > 1 ==> IsNameChar(name[|name| - 1]))
    && forall i :: 1 <= i < |name| - 1 ==> IsNameChar(name[i]) || name[i] == '.'
  }

  /** Where the anchored regular expression stands after a character of the name. */
  datatype MatchState = AfterName | AfterDot | Failed

  /**
   * The regular expression `^base(?:(?:chars|\.)*chars)?$` run over the rest of the name:
   * a name character leaves it able to stop, a dot does not, anything else fails.
   */
  function MatchRest(state: MatchState, rest: string): MatchState
    decreases |rest|
  {
    if rest == [] || state == Failed then state
    else if IsNameChar(rest[0]) then MatchRest(AfterName, rest[1..])
    else if rest[0] == '.' then MatchRest(AfterDot, rest[1..])
    else Failed
  }

  /** `validatePrefixName`: whether the whole name matches the prefix-name expression. */
  function ValidatePrefixName(prefixName: string): bool
  {
    prefixName != [] && IsNameBaseChar(prefixName[0]) && MatchRest(AfterName, prefixName[1..]) == AfterName
  }

  lemma {:induction false} MatchRestSpec(state: MatchState, rest: string)
    requires state != Failed
    ensures MatchRest(state, rest) == AfterName <==>
      && (rest == [] ==> state == AfterName)
      && (rest != [] ==> IsNameChar(rest[|rest| - 1]))
      && forall i :: 0 <= i < |rest| - 1 ==> IsNameChar(rest[i]) || rest[i] == '.'
    decreases |rest|
  {
    if rest != [] {
      if IsNameChar(rest[0]) {
        MatchRestSpec(AfterName, rest[1..]);
      } else if rest[0] == '.' {
        MatchRestSpec(AfterDot, rest[1..]);
        assert '.' != '_' && !IsNameChar('.');
      } else {
        assert MatchRest(state, rest) == Failed;
      }
      forall i | 0 <= i < |rest[1..]| ensures rest[1..][i] == rest[i + 1] {}
    }
  }

  /** The matcher accepts exactly the names production PN_PREFIX describes. */
  lemma ValidatePrefixNameSpec(prefixName: string)
    ensures ValidatePrefixName(prefixName) <==> IsPrefixName(prefixName)
  {
    if prefixName != [] {
      var rest := prefixName[1..];
      MatchRestSpec(AfterName, rest);
      forall i | 0 <= i < |rest| ensures rest[i] == prefixName[i + 1] {}
    }
  }

  /**
   * The empty name, a name ending in a dot, and a name starting with a digit, `_`, `-` or
   * a dot are all rejected; a single letter is accepted.
   */
  lemma RejectedPrefixNames(prefixName: string, c: char)
    ensures !ValidatePrefixName("")
    ensures prefixName != [] && prefixName[|prefixName| - 1] == '.' ==> !ValidatePrefixName(prefixName)
    ensures prefixName != [] && (('0' <= prefixName[0] <= '9') || prefixName[0] in "_-.") ==> !ValidatePrefixName(prefixName)
    ensures ('a' <= c <= 'z' || 'A' <= c <= 'Z') ==> ValidatePrefixName([c])
  {
    ValidatePrefixNameSpec(prefixName);
    ValidatePrefixNameSpec([c]);
  }

  // ---------------------------------------------------------------------------------
  // Prefix values
  // ---------------------------------------------------------------------------------

  /** `invalidUriChars`: control characters, space, and `<>"{}|^`\` backquote and backslash. */
  predicate IsInvalidUriChar(c: char)
  {
    '\U{0}' <= c <= ' ' || c in "<>\"{}|^`\\"
  }

  /** The index `value.match(invalidUriChars)` reports: the first invalid character, if any. */
  function FirstInvalidUriChar(value: string): (r: Option<nat>)
    ensures r.None? <==> forall i :: 0 <= i < |value| ==> !IsInvalidUriChar(value[i])
    ensures r.Some? ==> r.value < |value| && IsInvalidUriChar(value[r.value])
                        && forall i :: 0 <= i < r.value ==> !IsInvalidUriChar(value[i])
  {
    if value == [] then None
    else if IsInvalidUriChar(value[0]) then Some(0)
    else
      match FirstInvalidUriChar(value[1..])
      case None => None
      case Some(i) => Some(i + 1)
  }

  /** The parts of a parsed URL the validation reads. */
  datatype ParsedUrl = ParsedUrl(host: string, pathname: string)

  /** The `boolean | number` result of `validatePrefixValue`. */
  datatype ValueValidity = Checked(valid: bool) | InvalidCharAt(index: nat)
  {
    /** JavaScript truthiness of the result. */
    predicate Truthy()
    {
      match this
      case Checked(valid) => valid
      case InvalidCharAt(index) => index != 0
    }
  }

  /**
   * `validatePrefixValue`: the index of the first invalid character, or else whether the
   * value parses as a URL with a host or a path. `parseUrl` is the `URL` constructor; it
   * gives `None` where that throws.
   */
  function ValidatePrefixValue(prefixValue: string, parseUrl: string -> Option<ParsedUrl>): (r: ValueValidity)
    ensures r.InvalidCharAt? <==> exists i :: 0 <= i < |prefixValue| && IsInvalidUriChar(prefixValue[i])
    ensures r.InvalidCharAt? ==> r.index < |prefixValue| && IsInvalidUriChar(prefixValue[r.index])
                                 && forall i :: 0 <= i < r.index ==> !IsInvalidUriChar(prefixValue[i])
    ensures r.Checked? ==> (r.valid <==> parseUrl(prefixValue).Some?
                                         && (parseUrl(prefixValue).value.host != [] || parseUrl(prefixValue).value.pathname != []))
  {
    match FirstInvalidUriChar(prefixValue)
    case Some(i) => InvalidCharAt(i)
    case None =>
      match parseUrl(prefixValue)
      case None => Checked(false)
      case Some(uri) => Checked(uri.host != [] || uri.pathname != [])
  }

  /** `!isValidPrefixName || !isValidPrefixValue || typeof isValidPrefixValue == "number"`. */
  function SubmitDisabled(isValidPrefixName: bool, isValidPrefixValue: ValueValidity): bool
  {
    !isValidPrefixName || !isValidPrefixValue.Truthy() || isValidPrefixValue.InvalidCharAt?
  }

  /** Submitting needs a valid name and a value checked as exactly `true`; an index, even 0, disables it. */
  lemma SubmitEnabledSpec(isValidPrefixName: bool, isValidPrefixValue: ValueValidity)
    ensures !SubmitDisabled(isValidPrefixName, isValidPrefixValue) <==>
      isValidPrefixName && isValidPrefixValue == Checked(true)
  {
  }

  datatype PrefixDefinition = PrefixDefinition(prefixName: string, prefixUri: string)

  /** The prefix entry form: the definition being typed and what the validators said about it. */
  class PrefixForm {
    const existingPrefixes: set<string>
    const parseUrl: string -> Option<ParsedUrl>
    var prefixDefinition: PrefixDefinition
    var isValidPrefixName: bool
    var isValidPrefixValue: ValueValidity
    var overwriteDialogOpen: bool

    /** The validity flags agree with the current definition. */
    predicate Valid()
      reads this
    {
      && isValidPrefixName == ValidatePrefixName(prefixDefinition.prefixName)
      && isValidPrefixValue == ValidatePrefixValue(prefixDefinition.prefixUri, parseUrl)
    }

    /** An empty form; the empty string is not a URL. */
    constructor(existingPrefixes: set<string>, parseUrl: string -> Option<ParsedUrl>)
      requires parseUrl("").None?
      ensures Valid()
      ensures this.existingPrefixes == existingPrefixes && this.parseUrl == parseUrl
      ensures prefixDefinition == PrefixDefinition("", "") && !overwriteDialogOpen
    {
      this.existingPrefixes := existingPrefixes;
      this.parseUrl := parseUrl;
      prefixDefinition := PrefixDefinition("", "");
      isValidPrefixName := false;
      isValidPrefixValue := Checked(false);
      overwriteDialogOpen := false;
    }

    /** `isUpdatePrefix`: the name is already defined, so submitting asks before overwriting. */
    function IsUpdatePrefix(): bool
      reads this
    {
      prefixDefinition.prefixName in existingPrefixes
    }

    /** `onPrefixNameChange`: a missing value changes nothing. */
    method OnPrefixNameChange(value: Option<string>)
      requires Valid()
      modifies this
      ensures Valid()
      ensures value.Some? ==> prefixDefinition == old(prefixDefinition).(prefixName := value.value)
      ensures value.None? ==> prefixDefinition == old(prefixDefinition)
      ensures isValidPrefixValue == old(isValidPrefixValue) && overwriteDialogOpen == old(overwriteDialogOpen)
    {
      if value.Some? {
        prefixDefinition := prefixDefinition.(prefixName := value.value);
        isValidPrefixName := ValidatePrefixName(value.value);
      }
    }

    /** `onPrefixUriChange`: a missing value changes nothing. */
    method OnPrefixUriChange(value: Option<string>)
      requires Valid()
      modifies this
      ensures Valid()
      ensures value.Some? ==> prefixDefinition == old(prefixDefinition).(prefixUri := value.value)
      ensures value.None? ==> prefixDefinition == old(prefixDefinition)
      ensures isValidPrefixName == old(isValidPrefixName) && overwriteDialogOpen == old(overwriteDialogOpen)
    {
      if value.Some? {
        prefixDefinition := prefixDefinition.(prefixUri := value.value);
        isValidPrefixValue := ValidatePrefixValue(value.value, parseUrl);
      }
    }

    /** The warning icon on the name field: a non-empty name that is not valid. */
    function NameErrorShown(): bool
      reads this
    {
      !isValidPrefixName && prefixDefinition.prefixName != []
    }

    /** `highlightInvalidPrefixValue`: a non-empty value that is an index or false. */
    function ValueErrorShown(): bool
      reads this
    {
      (isValidPrefixValue.InvalidCharAt? || !isValidPrefixValue.Truthy()) && prefixDefinition.prefixUri != []
    }

    /** The index the value tooltip points at, when it names the offending character. */
    function TooltipCharIndex(): Option<nat>
      reads this
    {
      if ValueErrorShown() && isValidPrefixValue.InvalidCharAt?
         && isValidPrefixValue.index < |prefixDefinition.prefixUri|
      then Some(isValidPrefixValue.index)
      else None
    }

    /**
     * Error icons appear only for non-empty fields; in a consistent form the value
     * tooltip names a character exactly when the value has an invalid one, and it is the
     * first.
     */
    lemma ErrorIconsSpec()
      requires Valid()
      ensures NameErrorShown() ==> prefixDefinition.prefixName != [] && !IsPrefixName(prefixDefinition.prefixName)
      ensures ValueErrorShown() ==> prefixDefinition.prefixUri != []
      ensures TooltipCharIndex().Some? <==>
        exists i :: 0 <= i < |prefixDefinition.prefixUri| && IsInvalidUriChar(prefixDefinition.prefixUri[i])
      ensures TooltipCharIndex().Some? ==>
        var i := TooltipCharIndex().value;
        i < |prefixDefinition.prefixUri| && IsInvalidUriChar(prefixDefinition.prefixUri[i])
        && forall j :: 0 <= j < i ==> !IsInvalidUriChar(prefixDefinition.prefixUri[j])
    {
      ValidatePrefixNameSpec(prefixDefinition.prefixName);
    }

    function SubmitEnabled(): bool
      reads this
    {
      !SubmitDisabled(isValidPrefixName, isValidPrefixValue)
    }

    /**
     * The submit button: for a new name the definition is added at once; for an existing
     * one the overwrite dialog opens instead. Returns what is handed to `onAdd`.
     */
    method Submit() returns (added: Option<PrefixDefinition>)
      requires SubmitEnabled()
      modifies this
      ensures IsUpdatePrefix() ==> added.None? && overwriteDialogOpen
      ensures !IsUpdatePrefix() ==> added == Some(prefixDefinition) && overwriteDialogOpen == old(overwriteDialogOpen)
      ensures prefixDefinition == old(prefixDefinition) && isValidPrefixName == old(isValidPrefixName)
      ensures isValidPrefixValue == old(isValidPrefixValue)
    {
      if IsUpdatePrefix() {
        overwriteDialogOpen := true;
        added := None;
      } else {
        added := Some(prefixDefinition);
      }
    }

    /** Confirming the overwrite closes the dialog and adds the definition. */
    method ConfirmOverwrite() returns (added: PrefixDefinition)
      modifies this
      ensures !overwriteDialogOpen && added == prefixDefinition
      ensures prefixDefinition == old(prefixDefinition) && isValidPrefixName == old(isValidPrefixName)
      ensures isValidPrefixValue == old(isValidPrefixValue)
    {
      overwriteDialogOpen := false;
      added := prefixDefinition;
    }

    /** Cancelling the overwrite only closes the dialog. */
    method CancelOverwrite()
      modifies this
      ensures !overwriteDialogOpen
      ensures prefixDefinition == old(prefixDefinition) && isValidPrefixName == old(isValidPrefixName)
      ensures isValidPrefixValue == old(isValidPrefixValue)
    {
      overwriteDialogOpen := false;
    }

    /** In a consistent form, whatever is added has a valid name and a value without invalid characters. */
    lemma SubmittedDefinitionIsValid()
      requires Valid() && SubmitEnabled()
      ensures IsPrefixName(prefixDefinition.prefixName)
      ensures forall i :: 0 <= i < |prefixDefinition.prefixUri| ==> !IsInvalidUriChar(prefixDefinition.prefixUri[i])
      ensures parseUrl(prefixDefinition.prefixUri).Some?
    {
      ValidatePrefixNameSpec(prefixDefinition.prefixName);
      SubmitEnabledSpec(isValidPrefixName, isValidPrefixValue);
    }
  }
}
