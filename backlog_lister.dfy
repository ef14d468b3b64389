/**
 * The small text helpers of the Backlog project lister: shortening a
 * string for a table cell, naming a member's role and locating a profile's
 * cache file.
 */
module BacklogLister {
  import opened Wrappers
  import opened Text
  import opened Numerals

  const Ellipsis := "..."

  /**
   * `truncate`: a string that fits is kept; a longer one is cut to
   * `maxLen - 3` characters followed by "...", exactly `maxLen` in all.
   * Cutting needs `maxLen >= 3` (a smaller bound makes the slice panic).
   */
  function Truncate(s: string, maxLen: int): (r: string)
    requires |s| <= maxLen || maxLen >= 3
    ensures |r| <= maxLen
    ensures |s| <= maxLen ==> r == s
    ensures |s| > maxLen ==> |r| == maxLen && HasSuffix(r, Ellipsis) && HasPrefix(s, r[..maxLen - 3])
  {
    if |s| <= maxLen then s else s[..maxLen - 3] + Ellipsis
  }

  /** Truncating twice to the same width changes nothing more. */
  lemma TruncateIdempotent(s: string, maxLen: int)
    requires |s| <= maxLen || maxLen >= 3
    ensures Truncate(Truncate(s, maxLen), maxLen) == Truncate(s, maxLen)
  {
  }

  /** `getRoleTypeName`: the four Backlog roles by number, anything else "Unknown(n)". */
  function RoleTypeName(roleType: int): (r: string)
    ensures IsKnownRole(roleType) ==> r == ["Administrator", "Member", "Reporter", "Viewer"][roleType - 1]
    ensures !IsKnownRole(roleType) ==> r == "Unknown(" + IntToDecimal(roleType) + ")"
  {
    if roleType == 1 then "Administrator"
    else if roleType == 2 then "Member"
    else if roleType == 3 then "Reporter"
    else if roleType == 4 then "Viewer"
    else "Unknown(" + IntToDecimal(roleType) + ")"
  }

  predicate IsKnownRole(roleType: int)
  {
    1 <= roleType <= 4
  }

  /** An unknown role's name starts "Unknown(", a known role's does not. */
  lemma RoleTypeNameShape(roleType: int)
    ensures HasPrefix(RoleTypeName(roleType), "Unknown(") <==> !IsKnownRole(roleType)
  {
    var r := RoleTypeName(roleType);
    if IsKnownRole(roleType) {
      assert r[0] != 'U';
    }
  }

  /** Different role numbers get different names, so the name identifies the role. */
  lemma RoleTypeNameInjective(a: int, b: int)
    requires RoleTypeName(a) == RoleTypeName(b)
    ensures a == b
  {
    RoleTypeNameShape(a);
    RoleTypeNameShape(b);
    if !IsKnownRole(a) {
      var da, db := IntToDecimal(a), IntToDecimal(b);
      assert RoleTypeName(a) == "Unknown(" + da + ")";
      assert RoleTypeName(b) == "Unknown(" + db + ")";
      assert |da| == |db|;
      assert da == RoleTypeName(a)[8..8 + |da|] == db;
      IntToDecimalInjective(a, b);
    }
  }

  const CacheDir := ".backlog-cache"

  /**
   * `getCachePath`: `<CacheDir>/<name>.json`. `filepath.Join` cleans the
   * path, which leaves it unchanged for a name without a separator.
   */
  function CachePath(profileName: string): (r: string)
    requires '/' !in profileName
    ensures HasPrefix(r, CacheDir + "/") && HasSuffix(r, ".json")
    ensures '/' !in r[|CacheDir| + 1..]
  {
    var r := CacheDir + "/" + profileName + ".json";
    assert r[|CacheDir| + 1..] == profileName + ".json";
    r
  }

  /** The profile a cache file belongs to, read back from its path. */
  function ProfileOfCachePath(path: string): Option<string>
  {
    if HasPrefix(path, CacheDir + "/") && HasSuffix(path, ".json") && |path| >= |CacheDir| + 1 + 5 then
      Some(path[|CacheDir| + 1..|path| - 5])
    else None
  }

  /** The cache path names its profile: the profile is read back from it. */
  lemma CachePathRoundTrip(profileName: string)
    requires '/' !in profileName
    ensures ProfileOfCachePath(CachePath(profileName)) == Some(profileName)
  {
    var p := CachePath(profileName);
    assert p[..|CacheDir| + 1] == CacheDir + "/";
    assert p[|p| - 5..] == ".json";
    assert p[|CacheDir| + 1..|p| - 5] == profileName;
  }
}
