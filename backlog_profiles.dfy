/**
 * Backlog profiles read from environment entries `BACKLOG_<PROFILE>_<SETTING>=<value>`:
 * each entry sets one field of one named profile, later entries overwrite
 * earlier ones, and the complete profiles are returned sorted by name.
 */
module BacklogProfiles {
  import opened Wrappers
  import opened Text
  import opened Collections

  datatype BacklogProfile = BacklogProfile(name: string, apiKey: string, host: string, userId: string, projectId: string)

  /** `IsComplete`: the API key and the host are set. */
  predicate IsComplete(p: BacklogProfile)
    ensures IsComplete(p) <==> p.apiKey != "" && TrimPrefix(GetBaseUrl(p), Scheme) != ""
  {
    p.apiKey != "" && p.host != ""
  }

  /** `IsAnalysisReady`: complete, and the user and project are set. */
  predicate IsAnalysisReady(p: BacklogProfile)
    ensures IsAnalysisReady(p) ==> IsComplete(p)
  {
    IsComplete(p) && p.userId != "" && p.projectId != ""
  }

  const Scheme := "https://"

  /** `GetBaseURL`: the host behind the https scheme. */
  function GetBaseUrl(p: BacklogProfile): (r: string)
    ensures HasPrefix(r, Scheme) && TrimPrefix(r, Scheme) == p.host
  {
    Scheme + p.host
  }

  // ---------------------------------------------------------------------
  // One environment entry
  // ---------------------------------------------------------------------

  /** What one entry says: set `setting` of profile `profile` to `value`. */
  datatype Assignment = Assignment(profile: string, setting: string, value: string)

  const KeyPrefix := "BACKLOG_"
  const SelectorKey := "BACKLOG_PROFILE"

  /**
   * The per-entry checks of `LoadBacklogProfiles`: split at the first '=',
   * a key starting "BACKLOG_" other than "BACKLOG_PROFILE", with at least
   * three '_'-separated parts; the profile is the second part, the setting
   * the rest joined back with '_'.
   */
  function ParseEntry(env: string): (r: Option<Assignment>)
    ensures r.Some? ==> '=' in env && '_' !in r.value.profile
  {
    match IndexOf(env, '=')
    case None => None
    case Some(k) =>
      var key := env[..k];
      var value := env[k + 1..];
      if !HasPrefix(key, KeyPrefix) || key == SelectorKey then None
      else
        var parts := Split(key, '_');
        if |parts| < 3 then None
        else Some(Assignment(parts[1], Join(parts[2..], '_'), value))
  }

  /** The entry that sets `setting` of `profile` to `value`. */
  function EntryFor(a: Assignment): string
  {
    KeyPrefix + a.profile + "_" + a.setting + "=" + a.value
  }

  /**
   * Writing an assignment as an entry and parsing it gives it back, for a
   * profile name without '_' and a key without '='.
   */
  lemma ParseEntryRoundTrip(a: Assignment)
    requires '_' !in a.profile && '=' !in a.profile && '=' !in a.setting
    ensures ParseEntry(EntryFor(a)) == Some(a)
  {
    var key := KeyPrefix + a.profile + "_" + a.setting;
    var env := EntryFor(a);
    assert env == key + ['='] + a.value;
    KeyHasNoEquals(a.profile, a.setting);
    IndexOfFirst(env, '=', |key|);
    assert env[..|key|] == key && env[|key| + 1..] == a.value;
    assert key[..|KeyPrefix|] == KeyPrefix;
    SplitKey(a.profile, a.setting);
    JoinSplit(a.setting, '_');
    SelectorKeyHasTwoParts();
  }

  lemma KeyHasNoEquals(profile: string, setting: string)
    requires '=' !in profile && '=' !in setting
    ensures '=' !in KeyPrefix + profile + "_" + setting
  {
    var key := KeyPrefix + profile + "_" + setting;
    forall i | 0 <= i < |key| ensures key[i] != '=' {
      if i < |KeyPrefix| {
        assert key[i] == KeyPrefix[i];
      } else if i < |KeyPrefix| + |profile| {
        assert key[i] == profile[i - |KeyPrefix|];
      } else if i > |KeyPrefix| + |profile| {
        assert key[i] == setting[i - |KeyPrefix| - |profile| - 1];
      }
    }
  }

  /** A key built from a profile without '_' splits into "BACKLOG", the profile and the setting's pieces. */
  lemma SplitKey(profile: string, setting: string)
    requires '_' !in profile
    ensures Split(KeyPrefix + profile + "_" + setting, '_') == ["BACKLOG", profile] + Split(setting, '_')
  {
    var rest := Split(setting, '_');
    JoinSplit(setting, '_');
    var parts := ["BACKLOG", profile] + rest;
    assert '_' !in "BACKLOG";
    JoinCons(profile, rest, '_');
    JoinCons("BACKLOG", [profile] + rest, '_');
    assert parts == ["BACKLOG"] + ([profile] + rest);
    assert KeyPrefix + profile + "_" + setting == "BACKLOG" + ['_'] + (profile + ['_'] + setting);
    assert forall i :: 0 <= i < |parts| ==> '_' !in parts[i];
    SplitJoin(parts, '_');
  }

  lemma SelectorKeyHasTwoParts()
    ensures Split(SelectorKey, '_') == ["BACKLOG", "PROFILE"]
  {
    var parts := ["BACKLOG", "PROFILE"];
    JoinCons("BACKLOG", ["PROFILE"], '_');
    assert parts == ["BACKLOG"] + ["PROFILE"];
    assert SelectorKey == "BACKLOG" + ['_'] + "PROFILE";
    assert '_' !in "BACKLOG" && '_' !in "PROFILE";
    SplitJoin(parts, '_');
  }

  /** `switch setting`: the four known settings set their field, any other changes nothing. */
  function SetField(p: BacklogProfile, setting: string, value: string): (r: BacklogProfile)
    ensures r.name == p.name
  {
    if setting == "API_KEY" then p.(apiKey := value)
    else if setting == "HOST" then p.(host := value)
    else if setting == "USER_ID" then p.(userId := value)
    else if setting == "PROJECT_ID" then p.(projectId := value)
    else p
  }

  /** The profile named `name` so far, or a new one with only its name set. */
  function ProfileOrNew(m: map<string, BacklogProfile>, name: string): BacklogProfile
  {
    if name in m then m[name] else BacklogProfile(name, "", "", "", "")
  }

  /** What one entry does to the profile map. */
  function Apply(m: map<string, BacklogProfile>, env: string): map<string, BacklogProfile>
  {
    match ParseEntry(env)
    case None => m
    case Some(a) => m[a.profile := SetField(ProfileOrNew(m, a.profile), a.setting, a.value)]
  }

  /** The profile map after a list of entries, in order. */
  function Profiles(envs: seq<string>): (m: map<string, BacklogProfile>)
    decreases |envs|
  {
    if envs == [] then map[] else Apply(Profiles(envs[..|envs| - 1]), envs[|envs| - 1])
  }

  /** Every profile is filed under its own name. */
  lemma {:induction false} ProfilesNamed(envs: seq<string>)
    ensures forall n :: n in Profiles(envs) ==> Profiles(envs)[n].name == n
    decreases |envs|
  {
    if envs != [] {
      ProfilesNamed(envs[..|envs| - 1]);
    }
  }

  /** The entry `env` sets something of the profile `n`. */
  predicate EntryNames(env: string, n: string)
  {
    ParseEntry(env).Some? && ParseEntry(env).value.profile == n
  }

  /**
   * A profile exists exactly when some entry names it: the map holds no
   * profile that no entry mentions.
   */
  lemma {:induction false} ProfilesFromEntries(envs: seq<string>, n: string)
    ensures n in Profiles(envs) <==> exists i :: 0 <= i < |envs| && EntryNames(envs[i], n)
    decreases |envs|
  {
    if envs != [] {
      var k := |envs| - 1;
      var init := envs[..k];
      assert Profiles(envs) == Apply(Profiles(init), envs[k]);
      ProfilesFromEntries(init, n);
      ApplyKeys(Profiles(init), envs[k], n);
      NamesSnoc(envs, init, n);
    }
  }

  /** Some entry names `n` exactly when an earlier one or the last one does. */
  lemma NamesSnoc(envs: seq<string>, init: seq<string>, n: string)
    requires envs != [] && init == envs[..|envs| - 1]
    ensures (exists i :: 0 <= i < |envs| && EntryNames(envs[i], n)) <==>
      (exists i :: 0 <= i < |init| && EntryNames(init[i], n)) || EntryNames(envs[|envs| - 1], n)
  {
    var names := (e: string) => EntryNames(e, n);
    ExistsSnoc(envs, init, names);
    assert forall i :: 0 <= i < |envs| ==> names(envs[i]) == EntryNames(envs[i], n);
    assert forall i :: 0 <= i < |init| ==> names(init[i]) == EntryNames(init[i], n);
  }

  /** Some element of a non-empty sequence satisfies `p` exactly when an earlier one or the last one does. */
  lemma ExistsSnoc<T>(s: seq<T>, init: seq<T>, p: T -> bool)
    requires s != [] && init == s[..|s| - 1]
    ensures (exists i :: 0 <= i < |s| && p(s[i])) <==> (exists i :: 0 <= i < |init| && p(init[i])) || p(s[|s| - 1])
  {
    if exists i :: 0 <= i < |s| && p(s[i]) {
      var i :| 0 <= i < |s| && p(s[i]);
      if i < |init| {
        assert init[i] == s[i];
      }
    }
    if exists i :: 0 <= i < |init| && p(init[i]) {
      var i :| 0 <= i < |init| && p(init[i]);
      assert s[i] == init[i];
    }
  }

  /** An entry adds the profile it names, and no other. */
  lemma ApplyKeys(m: map<string, BacklogProfile>, env: string, n: string)
    ensures n in Apply(m, env) <==> n in m || EntryNames(env, n)
  {
  }

  /** The last entry for a setting wins: the field holds that entry's value. */
  lemma LastEntryWins(envs: seq<string>, a: Assignment)
    requires '_' !in a.profile && '=' !in a.profile && '=' !in a.setting
    ensures a.profile in Profiles(envs + [EntryFor(a)])
    ensures var p := Profiles(envs + [EntryFor(a)])[a.profile];
      (a.setting == "API_KEY" ==> p.apiKey == a.value) &&
      (a.setting == "HOST" ==> p.host == a.value) &&
      (a.setting == "USER_ID" ==> p.userId == a.value) &&
      (a.setting == "PROJECT_ID" ==> p.projectId == a.value)
  {
    ParseEntryRoundTrip(a);
    assert (envs + [EntryFor(a)])[..|envs|] == envs;
  }

  // ---------------------------------------------------------------------
  // Loading
  // ---------------------------------------------------------------------

  /** `sort.Slice` by name, `profiles[i].Name < profiles[j].Name`, as a non-strict comparator. */
  function NameNotAfter(): (BacklogProfile, BacklogProfile) -> bool
  {
    (a: BacklogProfile, b: BacklogProfile) => !Less(b.name, a.name)
  }

  lemma NameNotAfterIsTotalPreorder()
    ensures IsTotalPreorder(NameNotAfter())
  {
    forall a: BacklogProfile, b: BacklogProfile ensures NameNotAfter()(a, b) || NameNotAfter()(b, a) {
      LessTotal(a.name, b.name);
      if Less(a.name, b.name) { LessAsymmetric(a.name, b.name); }
    }
    forall a: BacklogProfile, b: BacklogProfile, c: BacklogProfile
      | NameNotAfter()(a, b) && NameNotAfter()(b, c) ensures NameNotAfter()(a, c)
    {
      LessTotal(a.name, b.name);
      LessTotal(b.name, c.name);
      if Less(c.name, a.name) {
        if a.name == b.name {
        } else if b.name == c.name {
        } else {
          LessTransitive(c.name, a.name, b.name);
        }
      }
    }
  }

  function ProfileName(p: BacklogProfile): string
  {
    p.name
  }

  function Names(ps: seq<BacklogProfile>): (r: seq<string>)
    ensures |r| == |ps| && forall i :: 0 <= i < |ps| ==> r[i] == ps[i].name
  {
    seq(|ps|, i requires 0 <= i < |ps| => ps[i].name)
  }

  /**
   * `LoadBacklogProfiles` over the given environment entries: exactly the
   * complete profiles the entries define, by name in ascending order.
   */
  method LoadBacklogProfiles(envs: seq<string>) returns (profiles: seq<BacklogProfile>)
    ensures forall p :: p in profiles ==> IsComplete(p) && p.name in Profiles(envs) && Profiles(envs)[p.name] == p
    ensures forall n :: n in Profiles(envs) && IsComplete(Profiles(envs)[n]) ==> Profiles(envs)[n] in profiles
    ensures StrictlyAscending(Names(profiles))
  {
    var profileMap := CollectProfiles(envs);
    ProfilesNamed(envs);
    var names := MapKeys(profileMap);
    var complete := CompleteProfiles(profileMap, names);
    NameNotAfterIsTotalPreorder();
    profiles := SortBy(complete, NameNotAfter());
    SortedProfiles(complete, profiles);
  }

  /** The loop over the environment: every entry applied in order. */
  method CollectProfiles(envs: seq<string>) returns (profileMap: map<string, BacklogProfile>)
    ensures profileMap == Profiles(envs)
  {
    profileMap := map[];
    for i := 0 to |envs|
      invariant profileMap == Profiles(envs[..i])
    {
      assert envs[..i + 1][..i] == envs[..i];
      var env := envs[i];
      match ParseEntry(env) {
        case None =>
        case Some(a) =>
          var profile := ProfileOrNew(profileMap, a.profile);
          profileMap := profileMap[a.profile := SetField(profile, a.setting, a.value)];
      }
    }
    assert envs[..|envs|] == envs;
  }

  /** The loop that keeps the complete profiles, visiting the names in `names`. */
  method CompleteProfiles(profileMap: map<string, BacklogProfile>, names: seq<string>) returns (complete: seq<BacklogProfile>)
    requires forall n :: n in names <==> n in profileMap
    requires Distinct(names)
    requires forall n :: n in profileMap ==> profileMap[n].name == n
    ensures forall p :: p in complete ==> IsComplete(p) && p.name in profileMap && profileMap[p.name] == p
    ensures forall n :: n in profileMap && IsComplete(profileMap[n]) ==> profileMap[n] in complete
    ensures forall j, k :: 0 <= j < k < |complete| ==> complete[j].name != complete[k].name
  {
    complete := [];
    for i := 0 to |names|
      invariant forall p :: p in complete ==> IsComplete(p) && p.name in profileMap && profileMap[p.name] == p
      invariant forall j :: 0 <= j < i && IsComplete(profileMap[names[j]]) ==> profileMap[names[j]] in complete
      invariant forall j, k :: 0 <= j < k < |complete| ==> complete[j].name != complete[k].name
      invariant forall p :: p in complete ==> exists j :: 0 <= j < i && names[j] == p.name
    {
      var p := profileMap[names[i]];
      if IsComplete(p) {
        forall q | q in complete ensures q.name != p.name {
          var j :| 0 <= j < i && names[j] == q.name;
        }
        complete := complete + [p];
      }
    }
    forall n | n in profileMap && IsComplete(profileMap[n]) ensures profileMap[n] in complete {
      var j :| 0 <= j < |names| && names[j] == n;
    }
  }

  /** Sorting profiles with distinct names by name keeps them and orders the names strictly. */
  lemma SortedProfiles(complete: seq<BacklogProfile>, profiles: seq<BacklogProfile>)
    requires forall j, k :: 0 <= j < k < |complete| ==> complete[j].name != complete[k].name
    requires multiset(profiles) == multiset(complete) && SortedBy(profiles, NameNotAfter())
    ensures forall p :: p in profiles <==> p in complete
    ensures StrictlyAscending(Names(profiles))
  {
    forall p | p in profiles ensures p in complete {
      assert p in multiset(profiles);
    }
    forall p | p in complete ensures p in profiles {
      assert p in multiset(complete);
    }
    PermutationDistinct(complete, profiles, ProfileName);
    forall i, j | 0 <= i < j < |profiles| ensures Less(profiles[i].name, profiles[j].name) {
      assert ProfileName(profiles[i]) != ProfileName(profiles[j]);
      LessTotal(profiles[i].name, profiles[j].name);
    }
  }

  // ---------------------------------------------------------------------
  // Lookup by name
  // ---------------------------------------------------------------------

  /** `profiles[i]` is the first profile whose name equals `name` ignoring case. */
  predicate FirstMatchAt(profiles: seq<BacklogProfile>, name: string, i: int)
  {
    0 <= i < |profiles| && EqualFold(profiles[i].name, name) &&
    forall j :: 0 <= j < i ==> !EqualFold(profiles[j].name, name)
  }

  /** The first profile whose name equals `name` ignoring case, if any. */
  function FindProfile(profiles: seq<BacklogProfile>, name: string): (r: Result<BacklogProfile, string>)
    ensures r.Ok? <==> exists i :: 0 <= i < |profiles| && EqualFold(profiles[i].name, name)
    ensures r.Ok? ==> exists i :: FirstMatchAt(profiles, name, i) && profiles[i] == r.value
    ensures r.Err? ==> r.error == "profile '" + name + "' not found"
    decreases |profiles|
  {
    if profiles == [] then Err("profile '" + name + "' not found")
    else if EqualFold(profiles[0].name, name) then Ok(profiles[0])
    else
      var r := FindProfile(profiles[1..], name);
      if r.Ok? then
        assert exists i :: FirstMatchAt(profiles, name, i) && profiles[i] == r.value by {
          var i :| FirstMatchAt(profiles[1..], name, i) && profiles[1..][i] == r.value;
          assert profiles[i + 1] == r.value;
          forall j | 0 <= j < i + 1 ensures !EqualFold(profiles[j].name, name) {
            if j > 0 { assert profiles[j] == profiles[1..][j - 1]; }
          }
        }
        r
      else
        assert forall i :: 1 <= i < |profiles| ==> profiles[i] == profiles[1..][i - 1];
        r
  }

  /** `GetProfileByName`: load the profiles, then take the first whose name matches ignoring case. */
  method GetProfileByName(envs: seq<string>, name: string) returns (r: Result<BacklogProfile, string>)
    ensures r.Ok? ==> (IsComplete(r.value) && EqualFold(r.value.name, name) &&
      r.value.name in Profiles(envs) && Profiles(envs)[r.value.name] == r.value)
    ensures r.Err? <==> forall n :: n in Profiles(envs) && IsComplete(Profiles(envs)[n]) ==> !EqualFold(n, name)
    ensures r.Ok? ==> forall n :: n in Profiles(envs) && IsComplete(Profiles(envs)[n]) && EqualFold(n, name) ==>
      !Less(n, r.value.name)
  {
    var profiles := LoadBacklogProfiles(envs);
    ProfilesNamed(envs);
    r := FindProfile(profiles, name);
    if r.Err? {
      forall n | n in Profiles(envs) && IsComplete(Profiles(envs)[n]) ensures !EqualFold(n, name) {
        var p := Profiles(envs)[n];
        assert p in profiles;
        var i :| 0 <= i < |profiles| && profiles[i] == p;
      }
    } else {
      var i :| FirstMatchAt(profiles, name, i) && profiles[i] == r.value;
      assert profiles[i] in profiles;
      forall n | n in Profiles(envs) && IsComplete(Profiles(envs)[n]) && EqualFold(n, name)
        ensures !Less(n, r.value.name)
      {
        var p := Profiles(envs)[n];
        assert p in profiles;
        var m :| 0 <= m < |profiles| && profiles[m] == p;
        assert Names(profiles)[m] == n;
        if m == i {
          LessIrreflexive(n);
        } else {
          assert Less(Names(profiles)[i], Names(profiles)[m]);
          LessAsymmetric(r.value.name, n);
        }
      }
    }
  }
}
