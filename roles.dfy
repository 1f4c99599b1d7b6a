/** The six ranked roles, their point values and the role-name comparison of an accusation. */
module RoleTable {
  import opened Outcomes

  datatype Role = GF | Fling | SideChick | Ex | ExsEx | Lover

  /** The fixed ordered role list; index 0 is the anchor role, never itself a target. */
  const Roles: seq<Role> := [GF, Fling, SideChick, Ex, ExsEx, Lover]

  const RoleCount: nat := 6

  /** The name stored in a player row for each role. */
  function RoleName(r: Role): string
  {
    match r
    case GF => "GF"
    case Fling => "Fling"
    case SideChick => "Side Chick"
    case Ex => "Ex"
    case ExsEx => "Ex's Ex"
    case Lover => "Lover"
  }

  /** The point table: rarer roles are worth more, the anchor role nothing. */
  function RolePoints(r: Role): (p: nat)
    ensures p == 0 <==> r == GF
    ensures p <= 10
  {
    match r
    case GF => 0
    case Fling => 10
    case SideChick => 8
    case Ex => 6
    case ExsEx => 4
    case Lover => 2
  }

  lemma RolesAreDistinct()
    ensures |Roles| == RoleCount
    ensures forall i, j :: 0 <= i < j < |Roles| ==> Roles[i] != Roles[j]
    ensures forall r: Role :: r in Roles
  {
    forall r: Role ensures r in Roles {
      match r
      case GF => assert Roles[0] == r;
      case Fling => assert Roles[1] == r;
      case SideChick => assert Roles[2] == r;
      case Ex => assert Roles[3] == r;
      case ExsEx => assert Roles[4] == r;
      case Lover => assert Roles[5] == r;
    }
  }

  /** Along the role list the points strictly decrease from index 1 on. */
  lemma RolePointsDecrease(i: nat, j: nat)
    requires 1 <= i < j < RoleCount
    ensures RolePoints(Roles[i]) > RolePoints(Roles[j])
  {
  }

  /** The points earned by finding the targets at indices 1 .. n-1, in order. */
  function FoundPoints(n: nat): nat
    requires n <= RoleCount
  {
    if n <= 1 then 0 else FoundPoints(n - 1) + RolePoints(Roles[n - 1])
  }

  /** A finished game hands out 10 + 8 + 6 + 4 + 2 points in all. */
  lemma AllTargetsFound()
    ensures FoundPoints(RoleCount) == 30
  {
    assert FoundPoints(1) == 0;
    assert FoundPoints(2) == 10;
    assert FoundPoints(3) == 18;
    assert FoundPoints(4) == 24;
    assert FoundPoints(5) == 28;
  }

  /** The stored role index made safe: anything outside [0, 6) falls back to 0. */
  function NormalizeRoleIndex(raw: int): (idx: nat)
    ensures idx < RoleCount
    ensures 0 <= raw < RoleCount ==> idx == raw
    ensures !(0 <= raw < RoleCount) ==> idx == 0
  {
    if raw < 0 || raw >= RoleCount then 0 else raw
  }

  // ----- the string comparison of an accusation -----

  predicate IsWhitespace(c: char)
  {
    c == ' ' || c == '\t' || c == '\n' || c == '\r' || c == '\U{B}' || c == '\U{C}'
    || c == '\U{A0}' || c == '\U{FEFF}' || c == '\U{2028}' || c == '\U{2029}'
  }

  function TrimStart(s: string): string
  {
    if s != [] && IsWhitespace(s[0]) then TrimStart(s[1..]) else s
  }

  function TrimEnd(s: string): string
  {
    if s != [] && IsWhitespace(s[|s| - 1]) then TrimEnd(s[..|s| - 1]) else s
  }

  /** `String.prototype.trim`. */
  function Trim(s: string): string
  {
    TrimEnd(TrimStart(s))
  }

  function LowerChar(c: char): char
  {
    if 'A' <= c <= 'Z' then (c as int + 32) as char else c
  }

  /** `String.prototype.toLowerCase`, on the ASCII letters. */
  function Lower(s: string): string
  {
    seq(|s|, i requires 0 <= i < |s| => LowerChar(s[i]))
  }

  /** The name a player row holds: its role's name, or the empty string when unset. */
  function StoredName(role: Option<Role>): string
  {
    match role
    case None => ""
    case Some(r) => RoleName(r)
  }

  function Normalized(s: string): string
  {
    Trim(Lower(Trim(s)))
  }

  /** The accusation test as the service computes it: trimmed, lower-cased names compared. */
  function IsCorrectGuess(target: Role, accusedRole: Option<Role>): bool
  {
    Normalized(RoleName(target)) == Normalized(StoredName(accusedRole))
  }

  /** The name comparison decides exactly role equality, so the closed role type loses nothing. */
  lemma IsCorrectGuessIsRoleEquality(target: Role, accusedRole: Option<Role>)
    ensures IsCorrectGuess(target, accusedRole) <==> accusedRole == Some(target)
  {
    NormalizedName(target);
    match accusedRole
    case None =>
      assert Normalized("") == "";
    case Some(r) =>
      if IsCorrectGuess(target, accusedRole) {
        NormalizedNamesDistinct(target, r);
      }
  }

  /** The lower-case form of each role name. */
  function LowerName(r: Role): string
  {
    match r
    case GF => "gf"
    case Fling => "fling"
    case SideChick => "side chick"
    case Ex => "ex"
    case ExsEx => "ex's ex"
    case Lover => "lover"
  }

  /** A string with no whitespace at either end is its own trim. */
  lemma TrimNoEdgeSpace(s: string)
    requires s != [] ==> !IsWhitespace(s[0]) && !IsWhitespace(s[|s| - 1])
    ensures Trim(s) == s
  {
  }

  lemma NormalizedName(r: Role)
    ensures Normalized(RoleName(r)) == LowerName(r)
  {
    var n := RoleName(r);
    TrimNoEdgeSpace(n);
    var l := Lower(n);
    assert l == LowerName(r) by {
      assert |l| == |LowerName(r)|;
      forall i | 0 <= i < |l| ensures l[i] == LowerName(r)[i] {
        assert l[i] == LowerChar(n[i]);
      }
    }
    TrimNoEdgeSpace(l);
  }

  lemma NormalizedNamesDistinct(a: Role, b: Role)
    requires Normalized(RoleName(a)) == Normalized(RoleName(b))
    ensures a == b
  {
    NormalizedName(a);
    NormalizedName(b);
  }
}
