/** The Landing page: saved connection profiles, kept in memory and mirrored
    to local storage, and the form that adds a new one after a successful
    connection check. */
module Landing {
  import opened Wrappers

  /** The `platform` field: 'macos' or 'ios'. */
  datatype Platform = MacOS | IOS

  /** `Omit<Profile, 'id'>`: what the form and the connection check yield. */
  datatype ProfileConfig = ProfileConfig(
    name: string, host: string, port: int, key: string,
    platform: Platform, platformVersion: string, platformBuild: string)

  /** A saved profile: a configuration under a generated id. */
  datatype Profile = Profile(id: string, config: ProfileConfig)

  /** Local storage under the keys ExistingProfiles and LastUsedProfile;
      each is absent until first written. */
  datatype Store = Store(existingProfiles: Option<seq<Profile>>, lastUsedProfile: Option<string>)

  /** The four inputs of the form; each is undefined until first edited. */
  datatype Form = Form(name: Option<string>, host: Option<string>, port: Option<string>, key: Option<string>)

  /** The page's state; `atHome` records that it has navigated to '/home'. */
  datatype Page = Page(form: Form, existingProfiles: seq<Profile>, store: Store, hasError: bool, atHome: bool)

  /** Response headers by (lower-case) name. */
  type Headers = map<string, string>

  /** The ids in use. */
  function ProfileIds(profiles: seq<Profile>): set<string>
  {
    set p | p in profiles :: p.id
  }

  predicate UniqueProfileIds(profiles: seq<Profile>)
  {
    forall i, j :: 0 <= i < j < |profiles| ==> profiles[i].id != profiles[j].id
  }

  /** `a` is `b` with some elements left out, the rest in their order. */
  predicate IsSubsequence(a: seq<Profile>, b: seq<Profile>)
    decreases |b|
  {
    if a == [] then true
    else if b == [] then false
    else (a[0] == b[0] && IsSubsequence(a[1..], b[1..])) || IsSubsequence(a, b[1..])
  }

  // ---------------------------------------------------------------------------
  // Profile list operations

  /** `addProfile`: the new profile goes first, and becomes the last used one. */
  function AddProfile(page: Page, config: ProfileConfig, newId: string): (r: (Page, Profile))
    ensures r.1.id == newId && r.1.config == config
    ensures r.0.existingProfiles == [r.1] + page.existingProfiles
    ensures |r.0.existingProfiles| == |page.existingProfiles| + 1
    ensures r.0.store.existingProfiles == Some(r.0.existingProfiles)
    ensures r.0.store.lastUsedProfile == Some(newId)
    ensures r.0.form == page.form && r.0.hasError == page.hasError && r.0.atHome == page.atHome
  {
    var profile := Profile(newId, config);
    var newProfiles := [profile] + page.existingProfiles;
    (page.(existingProfiles := newProfiles, store := Store(Some(newProfiles), Some(profile.id))), profile)
  }

  /** `existingProfiles.filter(item => item.id !== id)`. */
  function Without(profiles: seq<Profile>, id: string): (r: seq<Profile>)
    ensures forall p :: p in r ==> p.id != id
    ensures forall p :: multiset(r)[p] == if p.id == id then 0 else multiset(profiles)[p]
    ensures IsSubsequence(r, profiles)
  {
    if profiles == [] then []
    else if profiles[0].id != id then
      assert profiles == [profiles[0]] + profiles[1..];
      [profiles[0]] + Without(profiles[1..], id)
    else
      assert profiles == [profiles[0]] + profiles[1..];
      Without(profiles[1..], id)
  }

  /** `deleteProfile`: drops every profile with the id, in memory and in storage. */
  function DeleteProfile(page: Page, id: string): (r: Page)
    ensures r.existingProfiles == Without(page.existingProfiles, id)
    ensures r.store.existingProfiles == Some(r.existingProfiles)
    ensures r.store.lastUsedProfile == page.store.lastUsedProfile
    ensures r.form == page.form && r.hasError == page.hasError && r.atHome == page.atHome
  {
    var profiles := Without(page.existingProfiles, id);
    page.(existingProfiles := profiles, store := page.store.(existingProfiles := Some(profiles)))
  }

  /** `k` is the first index of a profile with the id. */
  predicate FirstWithId(profiles: seq<Profile>, id: string, k: int)
  {
    0 <= k < |profiles| && profiles[k].id == id && forall j :: 0 <= j < k ==> profiles[j].id != id
  }

  /** Past a non-matching head, the first match moves one place down the tail. */
  lemma FirstWithIdInTail(profiles: seq<Profile>, id: string)
    requires profiles != [] && profiles[0].id != id
    ensures forall k :: FirstWithId(profiles, id, k) ==> k > 0 && FirstWithId(profiles[1..], id, k - 1)
  {
  }

  /** lodash `find(profiles, { id })`: the first profile with the id, if any. */
  function FindProfile(profiles: seq<Profile>, id: string): (r: Option<Profile>)
    ensures r.Some? <==> id in ProfileIds(profiles)
    ensures r.Some? ==> r.value in profiles && r.value.id == id
    ensures forall k :: FirstWithId(profiles, id, k) ==> r == Some(profiles[k])
  {
    if profiles == [] then None
    else if profiles[0].id == id then Some(profiles[0])
    else
      var r := FindProfile(profiles[1..], id);
      FirstWithIdInTail(profiles, id);
      assert profiles == [profiles[0]] + profiles[1..];
      assert ProfileIds(profiles) == {profiles[0].id} + ProfileIds(profiles[1..]) by {
        forall x | x in ProfileIds(profiles) ensures x in {profiles[0].id} + ProfileIds(profiles[1..]) {
          var p :| p in profiles && p.id == x;
        }
      }
      r
  }

  /** `selectProfile`: a known id becomes the last used one and the page goes
      to '/home'; an unknown id changes nothing. */
  function SelectProfile(page: Page, id: string): (r: Page)
    ensures id in ProfileIds(page.existingProfiles) ==>
      r == page.(store := page.store.(lastUsedProfile := Some(id)), atHome := true)
    ensures id !in ProfileIds(page.existingProfiles) ==> r == page
  {
    match FindProfile(page.existingProfiles, id)
    case Some(profile) => page.(store := page.store.(lastUsedProfile := Some(profile.id)), atHome := true)
    case None => page
  }

  // ---------------------------------------------------------------------------
  // The form

  /** `!!value`: a string input counts as given when it is defined and not empty. */
  predicate Given(value: Option<string>)
  {
    value.Some? && value.value != ""
  }

  /** The guard of `onSubmit`. */
  predicate CanSubmit(form: Form)
  {
    Given(form.name) && Given(form.host) && Given(form.port) && Given(form.key)
  }

  /** `resetFields`: every input becomes the empty string, so the form cannot
      be submitted again until all four are filled in. */
  function ResetFields(): (r: Form)
    ensures r.name == r.host == r.port == r.key == Some("")
    ensures !CanSubmit(r)
  {
    Form(Some(""), Some(""), Some(""), Some(""))
  }

  /** `s` occurs in `text` starting at index `i`. */
  predicate OccursAt(text: string, s: string, i: int)
  {
    0 <= i && i + |s| <= |text| && text[i..i + |s|] == s
  }

  /** `text.includes(s)`, searching from the left. */
  predicate Includes(text: string, s: string)
    decreases |text|
  {
    |s| <= |text| && (text[..|s|] == s || (|text| > 0 && Includes(text[1..], s)))
  }

  /** Includes agrees with the plain definition: `s` occurs somewhere in `text`. */
  lemma {:induction false} IncludesIffOccurs(text: string, s: string)
    ensures Includes(text, s) <==> exists i :: OccursAt(text, s, i)
    decreases |text|
  {
    if |s| <= |text| {
      if text[..|s|] == s {
        assert OccursAt(text, s, 0);
      } else if |text| > 0 {
        IncludesIffOccurs(text[1..], s);
        if exists i :: OccursAt(text[1..], s, i) {
          var i :| OccursAt(text[1..], s, i);
          assert text[i + 1..i + 1 + |s|] == text[1..][i..i + |s|];
          assert OccursAt(text, s, i + 1);
        }
        if exists i :: OccursAt(text, s, i) {
          var i :| OccursAt(text, s, i);
          assert i != 0;
          assert text[1..][i - 1..i - 1 + |s|] == text[i..i + |s|];
          assert OccursAt(text[1..], s, i - 1);
        }
      }
    }
  }

  /** `headers['x-system']?.includes('macOS') ? 'macos' : 'ios'`. */
  function PlatformOf(headers: Headers): (r: Platform)
    ensures r == MacOS <==> "x-system" in headers && exists i :: OccursAt(headers["x-system"], "macOS", i)
    ensures "x-system" !in headers ==> r == IOS
  {
    if "x-system" in headers then
      IncludesIffOccurs(headers["x-system"], "macOS");
      if Includes(headers["x-system"], "macOS") then MacOS else IOS
    else IOS
  }

  /** `headers[name] || ''`. */
  function HeaderOrEmpty(headers: Headers, name: string): (r: string)
    ensures name !in headers ==> r == ""
    ensures name in headers ==> r == headers[name]
  {
    if name in headers && headers[name] != "" then headers[name] else ""
  }

  /** The configuration built from the form and the connection check's reply;
      `port` stands for `Number(port)`. */
  function ConfigOf(form: Form, headers: Headers, port: int): (c: ProfileConfig)
    requires CanSubmit(form)
    ensures c.name == form.name.value && c.host == form.host.value && c.key == form.key.value
    ensures c.port == port
    ensures c.platform == PlatformOf(headers)
    ensures c.platformVersion == HeaderOrEmpty(headers, "x-surge-version")
    ensures c.platformBuild == HeaderOrEmpty(headers, "x-surge-build")
  {
    ProfileConfig(form.name.value, form.host.value, port, form.key.value,
      PlatformOf(headers),
      HeaderOrEmpty(headers, "x-surge-version"),
      HeaderOrEmpty(headers, "x-surge-build"))
  }

  /** `onSubmit`: `reply` is the connection check's outcome (None when it
      fails), `newId` the generated id, `port` the parsed port. */
  function OnSubmit(page: Page, reply: Option<Headers>, newId: string, port: int): (r: Page)
    ensures !CanSubmit(page.form) ==> r == page
    ensures CanSubmit(page.form) && reply.None? ==> r == page.(hasError := true)
  {
    if !CanSubmit(page.form) then page
    else match reply
      case None => page.(hasError := true)
      case Some(headers) =>
        var (added, profile) := AddProfile(page.(hasError := false), ConfigOf(page.form, headers, port), newId);
        SelectProfile(added.(form := ResetFields()), profile.id)
  }

  // ---------------------------------------------------------------------------
  // Properties across operations

  /** A fresh id keeps the ids distinct. */
  lemma AddProfileKeepsIdsUnique(page: Page, config: ProfileConfig, newId: string)
    requires UniqueProfileIds(page.existingProfiles)
    requires newId !in ProfileIds(page.existingProfiles)
    ensures UniqueProfileIds(AddProfile(page, config, newId).0.existingProfiles)
  {
  }

  /** Deleting an id that no profile has changes nothing, and only then. */
  lemma {:induction false} WithoutIsNoOpIffAbsent(profiles: seq<Profile>, id: string)
    ensures Without(profiles, id) == profiles <==> id !in ProfileIds(profiles)
  {
    if id in ProfileIds(profiles) {
      var p :| p in profiles && p.id == id;
      assert p !in Without(profiles, id);
    } else {
      WithoutAbsent(profiles, id);
    }
  }

  lemma {:induction false} WithoutAbsent(profiles: seq<Profile>, id: string)
    requires id !in ProfileIds(profiles)
    ensures Without(profiles, id) == profiles
    decreases |profiles|
  {
    if profiles != [] {
      assert profiles[0] in profiles;
      assert id !in ProfileIds(profiles[1..]);
      WithoutAbsent(profiles[1..], id);
      assert profiles == [profiles[0]] + profiles[1..];
    }
  }

  /** Deleting a freshly added profile gives back the list from before. */
  lemma DeleteUndoesAdd(page: Page, config: ProfileConfig, newId: string)
    requires newId !in ProfileIds(page.existingProfiles)
    ensures DeleteProfile(AddProfile(page, config, newId).0, newId).existingProfiles == page.existingProfiles
  {
    var added := AddProfile(page, config, newId).0.existingProfiles;
    assert added[1..] == page.existingProfiles;
    WithoutAbsent(page.existingProfiles, newId);
  }

  /** A profile just added can be selected. */
  lemma SelectAfterAdd(page: Page, config: ProfileConfig, newId: string)
    ensures var added := AddProfile(page, config, newId).0;
      SelectProfile(added, newId) == added.(atHome := true)
  {
  }

  /** A successful submission puts the new profile first, makes it the last
      used one, clears the form and goes to '/home'. */
  lemma SubmitSucceeds(page: Page, headers: Headers, newId: string, port: int)
    requires CanSubmit(page.form)
    ensures var r := OnSubmit(page, Some(headers), newId, port);
      && r.existingProfiles == [Profile(newId, ConfigOf(page.form, headers, port))] + page.existingProfiles
      && r.store == Store(Some(r.existingProfiles), Some(newId))
      && r.form == ResetFields() && !r.hasError && r.atHome
  {
  }
}
