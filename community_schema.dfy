/**
 * The community-creation schema: which inputs are accepted, and which message the first
 * violated rule produces. Zod reports every issue in schema order (name, description, logo,
 * members; within a field its checks in the order they are chained; the array's size check
 * before its elements) and the action returns the first one.
 */
module CommunitySchema {
  import opened Wrappers

  /** One entry of the invite list. */
  datatype Invite = Invite(email: string, designation: string)

  /** The creation input; `logo` and `members` are optional in the schema. */
  datatype CreateInput = CreateInput(
    name: string,
    description: string,
    logo: Option<string>,
    members: Option<seq<Invite>>)

  /** Zod's built-in email and URL recognisers, whose regular expressions are not part of this model. */
  datatype FormatChecks = FormatChecks(isEmail: string -> bool, isUrl: string -> bool)

  const Designations: set<string> := {"member", "elder", "co-leader", "leader"}

  const NameTooShort := "Community name must be at least 3 characters"
  const NameTooLong := "Community name cannot exceed 50 characters"
  const NameBadChars := "Community name can only contain letters, numbers, spaces, hyphens, and underscores"
  const DescriptionTooShort := "Description must be at least 10 characters"
  const DescriptionTooLong := "Description cannot exceed 500 characters"
  const LogoNotUrl := "Logo must be a valid URL"
  const InvalidEmail := "Invalid email address"
  const InvalidDesignation := "Invalid role designation"
  const TooManyInvites := "Cannot invite more than 50 members at once"

  /** The character class `[a-zA-Z0-9-_ ]` of the name pattern. */
  predicate IsNameChar(c: char) {
    ('a' <= c <= 'z') || ('A' <= c <= 'Z') || ('0' <= c <= '9') || c == '-' || c == '_' || c == ' '
  }

  /** `^[a-zA-Z0-9-_ ]+$`: one or more characters, all from the class. */
  predicate MatchesNamePattern(name: string) {
    |name| > 0 && forall i | 0 <= i < |name| :: IsNameChar(name[i])
  }

  predicate InviteValid(inv: Invite, fmt: FormatChecks) {
    fmt.isEmail(inv.email) && inv.designation in Designations
  }

  /** The reference statement of the schema: every rule at once. */
  predicate Accepts(input: CreateInput, fmt: FormatChecks) {
    && 3 <= |input.name| <= 50
    && MatchesNamePattern(input.name)
    && 10 <= |input.description| <= 500
    && (input.logo.Some? ==> fmt.isUrl(input.logo.value))
    && (input.members.Some? ==>
          && |input.members.value| <= 50
          && forall i | 0 <= i < |input.members.value| :: InviteValid(input.members.value[i], fmt))
  }

  /** Every invite before position `k` is valid. */
  predicate ValidBefore(invites: seq<Invite>, k: int, fmt: FormatChecks)
    requires k <= |invites|
  {
    forall j | 0 <= j < k :: InviteValid(invites[j], fmt)
  }

  /**
   * The first issue among the invites, element by element, email before designation: the
   * message names the rule that the first invalid invite breaks first.
   */
  function FirstInviteError(invites: seq<Invite>, fmt: FormatChecks): (r: Option<string>)
    ensures r.None? <==> forall i | 0 <= i < |invites| :: InviteValid(invites[i], fmt)
    ensures r.Some? ==> r.value == InvalidEmail || r.value == InvalidDesignation
    ensures r == Some(InvalidEmail) <==>
              exists i | 0 <= i < |invites| :: ValidBefore(invites, i, fmt) && !fmt.isEmail(invites[i].email)
    ensures r == Some(InvalidDesignation) <==>
              exists i | 0 <= i < |invites| ::
                && ValidBefore(invites, i, fmt)
                && fmt.isEmail(invites[i].email) && invites[i].designation !in Designations
  {
    if invites == [] then None
    else if !fmt.isEmail(invites[0].email) then Some(InvalidEmail)
    else if invites[0].designation !in Designations then Some(InvalidDesignation)
    else
      var rest := FirstInviteError(invites[1..], fmt);
      assert forall i | 1 <= i < |invites| :: invites[i] == invites[1..][i - 1];
      rest
  }

  /** The name's rules: length 3 to 50, then the pattern. */
  predicate NameValid(name: string) {
    3 <= |name| <= 50 && MatchesNamePattern(name)
  }

  predicate DescriptionValid(description: string) {
    10 <= |description| <= 500
  }

  predicate LogoValid(logo: Option<string>, fmt: FormatChecks) {
    logo.Some? ==> fmt.isUrl(logo.value)
  }

  /**
   * `communitySchema.safeParse(data).error.errors[0].message`, or None when the input parses.
   * Each message is returned exactly when its rule is the first one broken: that rule fails
   * and every rule before it in schema order holds.
   */
  function FirstValidationError(input: CreateInput, fmt: FormatChecks): (r: Option<string>)
    ensures r.None? <==> Accepts(input, fmt)
    ensures r == Some(NameTooShort) <==> |input.name| < 3
    ensures r == Some(NameTooLong) <==> |input.name| > 50
    ensures r == Some(NameBadChars) <==> 3 <= |input.name| <= 50 && !MatchesNamePattern(input.name)
    ensures r == Some(DescriptionTooShort) <==> NameValid(input.name) && |input.description| < 10
    ensures r == Some(DescriptionTooLong) <==> NameValid(input.name) && |input.description| > 500
    ensures r == Some(LogoNotUrl) <==>
              && NameValid(input.name) && DescriptionValid(input.description)
              && !LogoValid(input.logo, fmt)
    ensures r == Some(TooManyInvites) <==>
              && NameValid(input.name) && DescriptionValid(input.description)
              && LogoValid(input.logo, fmt)
              && input.members.Some? && |input.members.value| > 50
    ensures r == Some(InvalidEmail) <==>
              && NameValid(input.name) && DescriptionValid(input.description)
              && LogoValid(input.logo, fmt)
              && input.members.Some? && |input.members.value| <= 50
              && FirstInviteError(input.members.value, fmt) == Some(InvalidEmail)
    ensures r == Some(InvalidDesignation) <==>
              && NameValid(input.name) && DescriptionValid(input.description)
              && LogoValid(input.logo, fmt)
              && input.members.Some? && |input.members.value| <= 50
              && FirstInviteError(input.members.value, fmt) == Some(InvalidDesignation)
  {
    if |input.name| < 3 then Some(NameTooShort)
    else if |input.name| > 50 then Some(NameTooLong)
    else if !MatchesNamePattern(input.name) then Some(NameBadChars)
    else if |input.description| < 10 then Some(DescriptionTooShort)
    else if |input.description| > 500 then Some(DescriptionTooLong)
    else if input.logo.Some? && !fmt.isUrl(input.logo.value) then Some(LogoNotUrl)
    else if input.members.Some? && |input.members.value| > 50 then Some(TooManyInvites)
    else if input.members.Some? then FirstInviteError(input.members.value, fmt)
    else None
  }
}
