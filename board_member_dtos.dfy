/** AddBoardMemberDto (DTOs/BoardMembers/AddBoardMemberDto.cs): the body of a
    request to add a member, and the validation its attributes perform. */
module BoardMemberDtos {
  import opened Roles
  import opened Models

  datatype AddBoardMemberDto = AddBoardMemberDto(userId: Uuid, role: string)

  /** The value Role has when the request body leaves it out. */
  const DefaultRole: string := "Member"

  /** The alternatives of the pattern ^(Admin|Member|Viewer)$. */
  const RoleAlternatives: seq<string> := ["Admin", "Member", "Viewer"]

  /** The length of the match Regex.Match finds for ^(Admin|Member|Viewer)$, or
      none. The match can only start at index 0, and `$` also matches in front
      of a final newline. */
  function RolePatternMatch(s: string): Option<nat> {
    if s in RoleAlternatives then Some(|s|)
    else if |s| > 0 && s[|s| - 1] == '\n' && s[..|s| - 1] in RoleAlternatives then Some(|s| - 1)
    else None
  }

  /** [RegularExpression]: an empty value passes; otherwise the match must
      start at index 0 and cover the whole value. */
  predicate SatisfiesRolePattern(s: string) {
    s == [] || (RolePatternMatch(s).Some? && RolePatternMatch(s).value == |s|)
  }

  predicate IsWhiteSpace(c: char) {
    c == ' ' || c == '\t' || c == '\n' || c == '\r'
  }

  /** [Required] on a string: present, and not empty or white space only. */
  predicate SatisfiesRequired(s: string) {
    exists i :: 0 <= i < |s| && !IsWhiteSpace(s[i])
  }

  /** Both attributes on Role together admit exactly the three role names. */
  function IsValidRole(s: string): (ok: bool)
    ensures ok <==> s == "Admin" || s == "Member" || s == "Viewer"
  {
    assert s == "Admin" ==> !IsWhiteSpace(s[0]);
    assert s == "Member" ==> !IsWhiteSpace(s[0]);
    assert s == "Viewer" ==> !IsWhiteSpace(s[0]);
    SatisfiesRequired(s) && SatisfiesRolePattern(s)
  }

  /** The default role passes validation. */
  lemma DefaultRoleIsValid()
    ensures IsValidRole(DefaultRole)
  {
  }

  /** 'Owner' cannot be granted through this request. */
  lemma OwnerIsRejected()
    ensures !IsValidRole("Owner")
  {
  }

  /** The pattern is anchored: a role name with anything around it is rejected. */
  lemma PatternIsAnchored(prefix: string, role: string, suffix: string)
    requires role in RoleAlternatives
    requires prefix + suffix != []
    ensures !IsValidRole(prefix + role + suffix)
  {
    var s := prefix + role + suffix;
    assert |prefix + suffix| == |prefix| + |suffix|;
    assert |s| == |prefix| + |role| + |suffix|;
    if role == "Admin" && |s| == 6 {
      assert s[|prefix|] == role[0];
      if |prefix| == 0 {
        assert s[0] == 'A';
      } else {
        assert s[1] == 'A';
      }
    }
  }

  /** A role that passes validation reads as Admin, Member or Viewer. */
  lemma ValidRoleIsNotOwner(s: string)
    requires IsValidRole(s)
    ensures Parse(s) in {Admin, Member, Viewer}
  {
  }
}
