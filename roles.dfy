/** Board roles.
    The Role column of BoardMembers holds a free string; the repository and
    controller code compare it against the literals 'Owner', 'Admin' and
    'Member'. The model reads the column into a closed datatype whose last
    alternative keeps any other string verbatim. */
module Roles {

  datatype Role = Owner | Admin | Member | Viewer | Other(name: string)

  /** The four strings the code gives a meaning to. */
  predicate Reserved(s: string) {
    s == "Owner" || s == "Admin" || s == "Member" || s == "Viewer"
  }

  /** A role is in canonical form when an `Other` never spells a reserved name,
      so that two canonical roles are equal exactly when their strings are. */
  predicate Canonical(r: Role) {
    r.Other? ==> !Reserved(r.name)
  }

  /** The string stored in the Role column for a role. */
  function Name(r: Role): string {
    match r
    case Owner => "Owner"
    case Admin => "Admin"
    case Member => "Member"
    case Viewer => "Viewer"
    case Other(s) => s
  }

  /** Reads a Role column value (or a role passed in a request) into a Role. */
  function Parse(s: string): (r: Role)
    ensures Canonical(r)
    ensures Name(r) == s
  {
    if s == "Owner" then Owner
    else if s == "Admin" then Admin
    else if s == "Member" then Member
    else if s == "Viewer" then Viewer
    else Other(s)
  }

  /** Parsing the stored string of a canonical role gives the role back. */
  lemma ParseName(r: Role)
    requires Canonical(r)
    ensures Parse(Name(r)) == r
  {
  }

  /** On canonical roles, comparing Role values is comparing the strings the
      SQL statements compare (a case-sensitive collation is assumed). */
  lemma NameInjective(r1: Role, r2: Role)
    requires Canonical(r1) && Canonical(r2)
    ensures Name(r1) == Name(r2) <==> r1 == r2
  {
    ParseName(r1);
    ParseName(r2);
  }
}
