/** The router side (app/Services/MikroTikService.php): the parameter strings the
    service sends, the router tables it reads and writes, and the session sync.
    Every router call is given a `routerOk` flag standing for whether the call
    went through; a call that did not changes nothing on the router. */
module MikroTik {
  import opened Common
  import opened Models
  import opened Persistence

  /** A row of /ip/hotspot/user/profile as the service writes it. */
  datatype Profile = Profile(name: string, rateLimit: string, sessionTimeout: Option<string>)

  /** A row of /ip/hotspot/user as the service writes it. */
  datatype HotspotUser = HotspotUser(
    name: string,
    password: string,
    profile: string,
    limitUptime: Option<string>,
    limitBytesTotal: Option<string>)

  /** An entry of /ip/hotspot/active/print; the service tolerates any field
      being absent. */
  datatype ActiveEntry = ActiveEntry(
    user: Option<string>,
    macAddress: Option<string>,
    address: Option<string>,
    uptime: Option<nat>,
    bytesIn: Option<nat>,
    bytesOut: Option<nat>)

  /** The parameters of an /ip/hotspot/active/login request. */
  datatype LoginRequest = LoginRequest(user: string, password: string, macAddress: Option<string>)

  // ---------------------------------------------------------------------------
  // Parameter strings
  // ---------------------------------------------------------------------------

  const ProfilePrefix: string := "hotspot-"

  /** The router profile of a tariff: `'hotspot-' . $tariff->id`. */
  function ProfileName(tariffId: nat): string {
    ProfilePrefix + NatToString(tariffId)
  }

  /** Distinct tariffs get distinct router profiles. */
  lemma ProfileNameInjective(a: nat, b: nat)
    ensures ProfileName(a) == ProfileName(b) ==> a == b
  {
    if ProfileName(a) == ProfileName(b) {
      assert NatToString(a) == ProfileName(a)[|ProfilePrefix|..];
      assert NatToString(b) == ProfileName(b)[|ProfilePrefix|..];
      NatToStringInjective(a, b);
    }
  }

  /** A number followed by a one-letter unit: `$n . 'm'`, `$n . 'k'`, `$n . 'M'`. */
  function WithUnit(n: nat, unit: char): string {
    NatToString(n) + [unit]
  }

  /** How the router reads such a value back. */
  function ParseWithUnit(s: string, unit: char): Option<nat> {
    if |s| >= 2 && s[|s| - 1] == unit && AllDigits(s[..|s| - 1])
    then Some(ParseNat(s[..|s| - 1]))
    else None
  }

  lemma WithUnitRoundTrip(n: nat, unit: char)
    ensures ParseWithUnit(WithUnit(n, unit), unit) == Some(n)
  {
    var s := WithUnit(n, unit);
    assert s[..|s| - 1] == NatToString(n);
    ParseNatToString(n);
  }

  /** The profile's `rate-limit`: `upload . 'k/' . download . 'k'`. */
  function RateLimit(uploadKbps: nat, downloadKbps: nat): string {
    WithUnit(uploadKbps, 'k') + "/" + WithUnit(downloadKbps, 'k')
  }

  /** Splitting a rate limit at its first `/` into upload and download. */
  function ParseRateLimit(s: string): Option<(nat, nat)> {
    match FirstWhere(s, (c: char) => c == '/')
    case None => None
    case Some(i) =>
      match (ParseWithUnit(s[..i], 'k'), ParseWithUnit(s[i + 1..], 'k'))
      case (Some(up), Some(down)) => Some((up, down))
      case _ => None
  }

  /** The rate limit string carries exactly the tariff's two speeds, upload first. */
  lemma RateLimitRoundTrip(up: nat, down: nat)
    ensures ParseRateLimit(RateLimit(up, down)) == Some((up, down))
  {
    var u := WithUnit(up, 'k');
    var s := RateLimit(up, down);
    assert forall j :: 0 <= j < |u| ==> s[j] == u[j];
    assert s[|u|] == '/';
    var found := FirstWhere(s, (c: char) => c == '/');
    assert found.Some?;
    assert found.value == |u|;
    assert s[..|u|] == u;
    assert s[|u| + 1..] == WithUnit(down, 'k');
    WithUnitRoundTrip(up, 'k');
    WithUnitRoundTrip(down, 'k');
  }

  const BytesPerMegabyte: nat := 1048576

  /** `round($bytes / 1048576)` for a byte count: the whole number of megabytes
      nearest to `bytes`, a tie going up (PHP rounds halves away from zero). */
  function MegabytesRounded(bytes: nat): (mb: nat)
    ensures 2 * mb * BytesPerMegabyte <= 2 * bytes + BytesPerMegabyte
    ensures 2 * bytes + BytesPerMegabyte < 2 * (mb + 1) * BytesPerMegabyte
  {
    (bytes + BytesPerMegabyte / 2) / BytesPerMegabyte
  }

  /** The profile the service creates for a tariff. */
  function ProfileFor(t: Tariff): Profile {
    Profile(
      ProfileName(t.id),
      RateLimit(t.uploadKbps, t.downloadKbps),
      if IsSet(t.durationMinutes) then Some(WithUnit(t.durationMinutes.value, 'm')) else None)
  }

  /** The hotspot user the service adds for a voucher code. */
  function UserFor(code: string, t: Tariff): HotspotUser {
    HotspotUser(
      code,
      code,
      ProfileName(t.id),
      if IsSet(t.durationMinutes) then Some(WithUnit(t.durationMinutes.value, 'm')) else None,
      if IsSet(t.dataLimitBytes) then Some(WithUnit(MegabytesRounded(t.dataLimitBytes.value), 'M')) else None)
  }

  /** What a profile tells the router: its name is the tariff's, its rate limit
      reads back as (upload, download), and a session timeout is present exactly
      when the duration is set, reading back as that many minutes. */
  lemma ProfileParameters(t: Tariff)
    ensures ProfileFor(t).name == ProfileName(t.id)
    ensures ParseRateLimit(ProfileFor(t).rateLimit) == Some((t.uploadKbps, t.downloadKbps))
    ensures ProfileFor(t).sessionTimeout.Some? <==> IsSet(t.durationMinutes)
    ensures ProfileFor(t).sessionTimeout.Some? ==>
              ParseWithUnit(ProfileFor(t).sessionTimeout.value, 'm') == t.durationMinutes
  {
    RateLimitRoundTrip(t.uploadKbps, t.downloadKbps);
    if IsSet(t.durationMinutes) {
      WithUnitRoundTrip(t.durationMinutes.value, 'm');
    }
  }

  /** What a hotspot user tells the router: name and password are the voucher
      code, the profile is the one ProfileFor creates for the same tariff, the
      uptime limit is present exactly when the duration is set, and the byte
      limit exactly when the data limit is set, as rounded megabytes. */
  lemma UserParameters(code: string, t: Tariff)
    ensures UserFor(code, t).name == code && UserFor(code, t).password == code
    ensures UserFor(code, t).profile == ProfileFor(t).name
    ensures UserFor(code, t).limitUptime.Some? <==> IsSet(t.durationMinutes)
    ensures UserFor(code, t).limitUptime.Some? ==>
              ParseWithUnit(UserFor(code, t).limitUptime.value, 'm') == t.durationMinutes
    ensures UserFor(code, t).limitBytesTotal.Some? <==> IsSet(t.dataLimitBytes)
    ensures UserFor(code, t).limitBytesTotal.Some? ==>
              ParseWithUnit(UserFor(code, t).limitBytesTotal.value, 'M')
                == Some(MegabytesRounded(t.dataLimitBytes.value))
  {
    if IsSet(t.durationMinutes) {
      WithUnitRoundTrip(t.durationMinutes.value, 'm');
    }
    if IsSet(t.dataLimitBytes) {
      WithUnitRoundTrip(MegabytesRounded(t.dataLimitBytes.value), 'M');
    }
  }

  /** The login request: the MAC address is sent only when it is truthy. */
  function LoginRequestFor(username: string, password: string, macAddress: string): (r: LoginRequest)
    ensures r.user == username && r.password == password
    ensures r.macAddress.Some? <==> Truthy(macAddress)
    ensures r.macAddress.Some? ==> r.macAddress.value == macAddress
  {
    LoginRequest(username, password, if Truthy(macAddress) then Some(macAddress) else None)
  }

  // ---------------------------------------------------------------------------
  // Router tables
  // ---------------------------------------------------------------------------

  predicate HasProfile(profiles: seq<Profile>, name: string) {
    exists i :: 0 <= i < |profiles| && profiles[i].name == name
  }

  predicate UniqueProfileNames(profiles: seq<Profile>) {
    forall i, j :: 0 <= i < j < |profiles| ==> profiles[i].name != profiles[j].name
  }

  /** createProfile: query for the profile by name and add it only if absent.
      Existing profiles are never changed, at most one is added, and after a
      call that went through the profile exists. */
  function CreateProfileOn(profiles: seq<Profile>, t: Tariff, routerOk: bool): (r: (seq<Profile>, bool))
    ensures r.1 == routerOk
    ensures !routerOk ==> r.0 == profiles
    ensures profiles <= r.0 && |r.0| <= |profiles| + 1
    ensures routerOk ==> HasProfile(r.0, ProfileName(t.id))
    ensures HasProfile(profiles, ProfileName(t.id)) ==> r.0 == profiles
    ensures |r.0| == |profiles| + 1 ==> r.0[|profiles|] == ProfileFor(t)
  {
    if !routerOk then (profiles, false)
    else if HasProfile(profiles, ProfileName(t.id)) then (profiles, true)
    else
      assert (profiles + [ProfileFor(t)])[|profiles|].name == ProfileName(t.id);
      (profiles + [ProfileFor(t)], true)
  }

  /** Calling createProfile twice adds the profile at most once: the result is
      that of one call that went through if either did. */
  lemma CreateProfileTwice(profiles: seq<Profile>, t: Tariff, ok1: bool, ok2: bool)
    ensures CreateProfileOn(CreateProfileOn(profiles, t, ok1).0, t, ok2).0
            == CreateProfileOn(profiles, t, ok1 || ok2).0
  {
  }

  /** createProfile never introduces a second profile with the same name. */
  lemma CreateProfileKeepsNamesUnique(profiles: seq<Profile>, t: Tariff, routerOk: bool)
    requires UniqueProfileNames(profiles)
    ensures UniqueProfileNames(CreateProfileOn(profiles, t, routerOk).0)
  {
    var r := CreateProfileOn(profiles, t, routerOk).0;
    if |r| == |profiles| + 1 {
      forall i | 0 <= i < |profiles|
        ensures r[i].name != r[|profiles|].name
      {
        assert r[i] == profiles[i];
      }
    }
  }

  function UserNamed(users: seq<HotspotUser>, name: string): Option<nat> {
    FirstWhere(users, (u: HotspotUser) => u.name == name)
  }

  predicate HasUser(users: seq<HotspotUser>, name: string) {
    exists i :: 0 <= i < |users| && users[i].name == name
  }

  predicate UniqueUserNames(users: seq<HotspotUser>) {
    forall i, j :: 0 <= i < j < |users| ==> users[i].name != users[j].name
  }

  /** addUser: RouterOS refuses a second hotspot user with a name it already
      has, so a duplicate adds nothing; a failed call adds nothing either. */
  function AddUserOn(users: seq<HotspotUser>, code: string, t: Tariff, routerOk: bool): (r: (seq<HotspotUser>, bool))
    ensures r.1 == routerOk
    ensures users <= r.0 && |r.0| <= |users| + 1
    ensures !routerOk ==> r.0 == users
    ensures routerOk ==> HasUser(r.0, code)
    ensures HasUser(users, code) ==> r.0 == users
    ensures |r.0| == |users| + 1 ==> r.0[|users|] == UserFor(code, t)
  {
    if !routerOk || HasUser(users, code) then (users, routerOk)
    else
      assert (users + [UserFor(code, t)])[|users|].name == code;
      (users + [UserFor(code, t)], true)
  }

  /** addUser keeps hotspot user names unique. */
  lemma AddUserKeepsNamesUnique(users: seq<HotspotUser>, code: string, t: Tariff, routerOk: bool)
    requires UniqueUserNames(users)
    ensures UniqueUserNames(AddUserOn(users, code, t, routerOk).0)
  {
    var r := AddUserOn(users, code, t, routerOk).0;
    if |r| == |users| + 1 {
      forall i | 0 <= i < |users|
        ensures r[i].name != r[|users|].name
      {
        assert r[i] == users[i];
      }
    }
  }

  /** removeUser undoes addUser: adding a voucher's user and then removing it
      leaves the router's users as they were. */
  lemma RemoveUndoesAdd(users: seq<HotspotUser>, code: string, t: Tariff)
    requires !HasUser(users, code)
    ensures RemoveUserOn(AddUserOn(users, code, t, true).0, code, true).0 == users
  {
    var added := AddUserOn(users, code, t, true).0;
    assert added == users + [UserFor(code, t)];
    assert UserNamed(added, code) == Some(|users|) by {
      assert added[|users|].name == code;
      assert forall j :: 0 <= j < |users| ==> added[j] == users[j];
    }
    assert added[..|users|] == users;
  }

  /** removeUser: query the users with that name; none means already removed
      (success, nothing sent); otherwise remove the first match's `.id` only. */
  function RemoveUserOn(users: seq<HotspotUser>, name: string, routerOk: bool): (r: (seq<HotspotUser>, bool))
    ensures r.1 == routerOk
    ensures !HasUser(users, name) ==> r.0 == users
    ensures routerOk && HasUser(users, name) ==>
              exists i :: 0 <= i < |users| && users[i].name == name && UserNamed(users, name) == Some(i)
                && multiset(r.0) + multiset{users[i]} == multiset(users)
                && r.0 == users[..i] + users[i + 1..]
    ensures !routerOk ==> r.0 == users
  {
    if !routerOk then (users, false)
    else
      match UserNamed(users, name)
      case None => (users, true)
      case Some(i) =>
        assert users == users[..i] + [users[i]] + users[i + 1..];
        (users[..i] + users[i + 1..], true)
  }

  /** With unique user names, removing a user twice is the same as removing it
      once (if either call went through): the second call finds nothing. */
  lemma RemoveUserTwice(users: seq<HotspotUser>, name: string, ok1: bool, ok2: bool)
    requires UniqueUserNames(users)
    ensures RemoveUserOn(RemoveUserOn(users, name, ok1).0, name, ok2).0
            == RemoveUserOn(users, name, ok1 || ok2).0
  {
    var once := RemoveUserOn(users, name, ok1).0;
    if ok1 && HasUser(users, name) {
      var i :| 0 <= i < |users| && users[i].name == name && once == users[..i] + users[i + 1..];
      forall j | 0 <= j < |once|
        ensures once[j].name != name
      {
        if j < i { assert once[j] == users[j]; } else { assert once[j] == users[j + 1]; }
      }
    }
  }

  // ---------------------------------------------------------------------------
  // Session sync
  // ---------------------------------------------------------------------------

  /** The natural key of a session row. */
  function KeyOf(s: UserSession): (string, string) {
    (s.voucherCode, s.macAddress)
  }

  /** The key an active entry is upserted under: `user ?? ''`, `mac-address ?? ''`. */
  function SessionKey(e: ActiveEntry): (string, string) {
    (e.user.GetOr(""), e.macAddress.GetOr(""))
  }

  predicate HasRow(sessions: seq<UserSession>, key: (string, string)) {
    exists j :: 0 <= j < |sessions| && KeyOf(sessions[j]) == key
  }

  /** The row `updateOrCreate` finds for a key: the first with that key. */
  function RowFor(sessions: seq<UserSession>, key: (string, string)): Option<nat> {
    FirstWhere(sessions, (s: UserSession) => KeyOf(s) == key)
  }

  /** A row carries what the router reported for an entry at time `now`. */
  predicate Mirrors(row: UserSession, e: ActiveEntry, now: int) {
    && KeyOf(row) == SessionKey(e)
    && row.ipAddress == e.address.GetOr("")
    && row.startedAt == now - e.uptime.GetOr(0)
    && row.bytesIn == e.bytesIn.GetOr(0)
    && row.bytesOut == e.bytesOut.GetOr(0)
  }

  /** One `updateOrCreate` for an active entry: overwrite the address, the start
      time and the counters of the first row with the entry's key, or append a
      new open row. Keys and `endedAt` of existing rows never change, and rows
      under other keys are untouched. */
  function Upsert(sessions: seq<UserSession>, e: ActiveEntry, now: int): (r: seq<UserSession>)
    ensures |sessions| <= |r| <= |sessions| + 1
    // update, not create: a row is added exactly when no row has the key
    ensures |r| == |sessions| <==> HasRow(sessions, SessionKey(e))
    ensures forall i :: 0 <= i < |sessions| ==>
              KeyOf(r[i]) == KeyOf(sessions[i]) && r[i].endedAt == sessions[i].endedAt
    ensures forall i :: 0 <= i < |sessions| && KeyOf(sessions[i]) != SessionKey(e) ==> r[i] == sessions[i]
    // only the first row with the key is written: later duplicates are untouched
    ensures forall i :: 0 <= i < |sessions| && RowFor(sessions, SessionKey(e)) != Some(i) ==> r[i] == sessions[i]
    ensures |r| == |sessions| + 1 ==> KeyOf(r[|sessions|]) == SessionKey(e) && r[|sessions|].endedAt.None?
    ensures RowFor(r, SessionKey(e)).Some? && Mirrors(r[RowFor(r, SessionKey(e)).value], e, now)
    ensures forall key :: key != SessionKey(e) ==> RowFor(r, key) == RowFor(sessions, key)
  {
    var key := SessionKey(e);
    var started := now - e.uptime.GetOr(0);
    match RowFor(sessions, key)
    case Some(i) =>
      var r := sessions[i := sessions[i].(ipAddress := e.address.GetOr(""), startedAt := started,
                                          bytesIn := e.bytesIn.GetOr(0), bytesOut := e.bytesOut.GetOr(0))];
      assert forall j :: 0 <= j < |r| ==> KeyOf(r[j]) == KeyOf(sessions[j]);
      assert forall key' :: RowFor(r, key') == RowFor(sessions, key') by {
        forall key' ensures RowFor(r, key') == RowFor(sessions, key') {
          RowForSameKeys(sessions, r, key');
        }
      }
      r
    case None =>
      var r := sessions + [UserSession(key.0, key.1, e.address.GetOr(""), started, None,
                                       e.bytesIn.GetOr(0), e.bytesOut.GetOr(0))];
      assert RowFor(r, key) == Some(|sessions|) by {
        var found := RowFor(r, key);
        assert KeyOf(r[|sessions|]) == key;
        assert forall j :: 0 <= j < |sessions| ==> r[j] == sessions[j];
      }
      assert forall key' :: key' != key ==> RowFor(r, key') == RowFor(sessions, key') by {
        forall key' | key' != key ensures RowFor(r, key') == RowFor(sessions, key') {
          RowForAppend(sessions, r[|sessions|], key');
        }
      }
      r
  }

  /** RowFor depends only on the keys of the rows. */
  lemma RowForSameKeys(a: seq<UserSession>, b: seq<UserSession>, key: (string, string))
    requires |a| == |b|
    requires forall j :: 0 <= j < |a| ==> KeyOf(a[j]) == KeyOf(b[j])
    ensures RowFor(a, key) == RowFor(b, key)
  {
  }

  /** Appending a row under another key does not change where a key is found. */
  lemma RowForAppend(a: seq<UserSession>, row: UserSession, key: (string, string))
    requires KeyOf(row) != key
    ensures RowFor(a + [row], key) == RowFor(a, key)
  {
    assert forall j :: 0 <= j < |a| ==> (a + [row])[j] == a[j];
  }

  /** The sync loop's effect: one Upsert per active entry, in list order. */
  function UpsertAll(sessions: seq<UserSession>, entries: seq<ActiveEntry>, now: int): seq<UserSession>
    decreases |entries|
  {
    if entries == [] then sessions
    else Upsert(UpsertAll(sessions, entries[..|entries| - 1], now), entries[|entries| - 1], now)
  }

  predicate KeyListed(entries: seq<ActiveEntry>, key: (string, string)) {
    exists m :: 0 <= m < |entries| && SessionKey(entries[m]) == key
  }

  /** Sync keeps every existing row in place with its key and its `endedAt`
      (it never closes a session), leaves rows whose key the router did not
      list untouched, and adds at most one open row per entry, each under a
      listed key. */
  lemma {:induction false} SyncKeepsRows(sessions: seq<UserSession>, entries: seq<ActiveEntry>, now: int)
    ensures |sessions| <= |UpsertAll(sessions, entries, now)| <= |sessions| + |entries|
    ensures forall i :: 0 <= i < |sessions| ==>
              KeyOf(UpsertAll(sessions, entries, now)[i]) == KeyOf(sessions[i])
              && UpsertAll(sessions, entries, now)[i].endedAt == sessions[i].endedAt
    ensures forall i :: 0 <= i < |sessions| && !KeyListed(entries, KeyOf(sessions[i])) ==>
              UpsertAll(sessions, entries, now)[i] == sessions[i]
    ensures forall i :: |sessions| <= i < |UpsertAll(sessions, entries, now)| ==>
              KeyListed(entries, KeyOf(UpsertAll(sessions, entries, now)[i]))
              && UpsertAll(sessions, entries, now)[i].endedAt.None?
    decreases |entries|
  {
    if entries != [] {
      var init := entries[..|entries| - 1];
      var e := entries[|entries| - 1];
      SyncKeepsRows(sessions, init, now);
      var before := UpsertAll(sessions, init, now);
      var r := UpsertAll(sessions, entries, now);
      assert r == Upsert(before, e, now);
      assert KeyListed(entries, SessionKey(e)) by { assert SessionKey(entries[|entries| - 1]) == SessionKey(e); }
      forall key | KeyListed(init, key) ensures KeyListed(entries, key) {
        var m :| 0 <= m < |init| && SessionKey(init[m]) == key;
        assert entries[m] == init[m];
      }
      forall key | !KeyListed(entries, key) ensures !KeyListed(init, key) && key != SessionKey(e) {
      }
      forall i | 0 <= i < |sessions| && !KeyListed(entries, KeyOf(sessions[i])) ensures r[i] == sessions[i] {
        assert KeyOf(before[i]) == KeyOf(sessions[i]) != SessionKey(e);
      }
      forall i | |sessions| <= i < |r| ensures KeyListed(entries, KeyOf(r[i])) && r[i].endedAt.None? {
        if i < |before| {
          assert KeyOf(r[i]) == KeyOf(before[i]);
        }
      }
    }
  }

  /** After sync, the entry listed last under a key is what the first row with
      that key shows: its address, its counters, and `startedAt = now - uptime`,
      overwritten on every run whatever the row held before. */
  lemma {:induction false} SyncMirrorsRouter(sessions: seq<UserSession>, entries: seq<ActiveEntry>, now: int, k: nat)
    requires k < |entries|
    requires forall m :: k < m < |entries| ==> SessionKey(entries[m]) != SessionKey(entries[k])
    ensures RowFor(UpsertAll(sessions, entries, now), SessionKey(entries[k])).Some?
    ensures Mirrors(UpsertAll(sessions, entries, now)[RowFor(UpsertAll(sessions, entries, now), SessionKey(entries[k])).value],
                    entries[k], now)
    decreases |entries|
  {
    var init := entries[..|entries| - 1];
    var e := entries[|entries| - 1];
    var before := UpsertAll(sessions, init, now);
    var r := UpsertAll(sessions, entries, now);
    assert r == Upsert(before, e, now);
    if k < |entries| - 1 {
      assert init[k] == entries[k];
      SyncMirrorsRouter(sessions, init, now, k);
      var key := SessionKey(entries[k]);
      assert key != SessionKey(e);
      var j := RowFor(before, key).value;
      assert RowFor(r, key) == Some(j);
      assert r[j] == before[j];
    }
  }

  /** After sync, every key the router listed has a row. */
  lemma {:induction false} SyncCoversListed(sessions: seq<UserSession>, entries: seq<ActiveEntry>, now: int)
    ensures forall m :: 0 <= m < |entries| ==> HasRow(UpsertAll(sessions, entries, now), SessionKey(entries[m]))
    decreases |entries|
  {
    if entries != [] {
      var init := entries[..|entries| - 1];
      var e := entries[|entries| - 1];
      SyncCoversListed(sessions, init, now);
      var before := UpsertAll(sessions, init, now);
      var r := UpsertAll(sessions, entries, now);
      assert r == Upsert(before, e, now);
      forall m | 0 <= m < |entries| ensures HasRow(r, SessionKey(entries[m])) {
        if m == |entries| - 1 {
          var j := RowFor(r, SessionKey(e)).value;
          assert KeyOf(r[j]) == SessionKey(e);
        } else {
          assert entries[m] == init[m];
          var j :| 0 <= j < |before| && KeyOf(before[j]) == SessionKey(init[m]);
          assert KeyOf(r[j]) == KeyOf(before[j]);
        }
      }
    }
  }

  /** A sync in which every listed key already has a row adds no row. */
  lemma {:induction false} SyncOverKnownKeysAddsNoRows(sessions: seq<UserSession>, entries: seq<ActiveEntry>, now: int)
    requires forall m :: 0 <= m < |entries| ==> HasRow(sessions, SessionKey(entries[m]))
    ensures |UpsertAll(sessions, entries, now)| == |sessions|
    decreases |entries|
  {
    if entries != [] {
      var init := entries[..|entries| - 1];
      var e := entries[|entries| - 1];
      forall m | 0 <= m < |init| ensures HasRow(sessions, SessionKey(init[m])) {
        assert init[m] == entries[m];
      }
      SyncOverKnownKeysAddsNoRows(sessions, init, now);
      SyncKeepsRows(sessions, init, now);
      var before := UpsertAll(sessions, init, now);
      assert UpsertAll(sessions, entries, now) == Upsert(before, e, now);
      assert HasRow(sessions, SessionKey(entries[|entries| - 1]));
      var j :| 0 <= j < |sessions| && KeyOf(sessions[j]) == SessionKey(e);
      assert KeyOf(before[j]) == SessionKey(e);
    }
  }

  /** Sync is an upsert, not an insert: a second run over the same active list
      adds no row. */
  lemma SyncTwiceAddsNoRows(sessions: seq<UserSession>, entries: seq<ActiveEntry>, now: int, later: int)
    ensures |UpsertAll(UpsertAll(sessions, entries, now), entries, later)| == |UpsertAll(sessions, entries, now)|
  {
    SyncCoversListed(sessions, entries, now);
    SyncOverKnownKeysAddsNoRows(UpsertAll(sessions, entries, now), entries, later);
  }

  // ---------------------------------------------------------------------------
  // The service
  // ---------------------------------------------------------------------------

  /** The MikroTik service together with the router tables it talks to:
      hotspot user profiles, hotspot users, the active host list (maintained by
      the router itself) and the login requests the router accepted. */
  class MikroTikService {
    var profiles: seq<Profile>
    var users: seq<HotspotUser>
    var active: seq<ActiveEntry>
    var logins: seq<LoginRequest>

    constructor (profiles: seq<Profile>, users: seq<HotspotUser>, active: seq<ActiveEntry>)
      ensures this.profiles == profiles && this.users == users && this.active == active
      ensures logins == []
    {
      this.profiles := profiles;
      this.users := users;
      this.active := active;
      logins := [];
    }

    /** addUser: add a hotspot user for the voucher; a failure is reported as
        `false` and adds nothing. */
    method AddUser(voucherCode: string, t: Tariff, routerOk: bool) returns (ok: bool)
      modifies this`users
      ensures (users, ok) == AddUserOn(old(users), voucherCode, t, routerOk)
    {
      if !routerOk {
        return false;
      }
      if HasUser(users, voucherCode) {
        return true;
      }
      users := users + [UserFor(voucherCode, t)];
      return true;
    }

    /** removeUser, idempotent on an absent user. */
    method RemoveUser(voucherCode: string, routerOk: bool) returns (ok: bool)
      modifies this`users
      ensures (users, ok) == RemoveUserOn(old(users), voucherCode, routerOk)
    {
      if !routerOk {
        return false;
      }
      var found := UserNamed(users, voucherCode);
      if found.None? {
        return true;
      }
      var i := found.value;
      users := users[..i] + users[i + 1..];
      return true;
    }

    /** getActiveSessions: the router's active list, or `[]` on failure. */
    method GetActiveSessions(routerOk: bool) returns (entries: seq<ActiveEntry>)
      ensures routerOk ==> entries == active
      ensures !routerOk ==> entries == []
    {
      if !routerOk {
        return [];
      }
      return active;
    }

    /** createProfile, create-if-absent. */
    method CreateProfile(t: Tariff, routerOk: bool) returns (ok: bool)
      modifies this`profiles
      ensures (profiles, ok) == CreateProfileOn(old(profiles), t, routerOk)
    {
      if !routerOk {
        return false;
      }
      var name := ProfileName(t.id);
      if HasProfile(profiles, name) {
        return true;
      }
      profiles := profiles + [ProfileFor(t)];
      return true;
    }

    /** loginUser; a failure is reported as `false`. */
    method LoginUser(username: string, password: string, macAddress: string, routerOk: bool) returns (ok: bool)
      modifies this`logins
      ensures ok == routerOk
      ensures logins == if routerOk then old(logins) + [LoginRequestFor(username, password, macAddress)]
                        else old(logins)
    {
      if !routerOk {
        return false;
      }
      logins := logins + [LoginRequestFor(username, password, macAddress)];
      return true;
    }

    /** syncSessions: upsert one session row per active entry; a failed fetch
        yields no entries and so writes nothing. */
    method SyncSessions(db: Database, now: int, routerOk: bool)
      modifies db`sessions
      ensures db.sessions == UpsertAll(old(db.sessions), if routerOk then active else [], now)
    {
      var entries := GetActiveSessions(routerOk);
      var i := 0;
      while i < |entries|
        invariant 0 <= i <= |entries|
        invariant db.sessions == UpsertAll(old(db.sessions), entries[..i], now)
      {
        assert entries[..i + 1][..i] == entries[..i];
        db.sessions := Upsert(db.sessions, entries[i], now);
        i := i + 1;
      }
      assert entries[..|entries|] == entries;
    }
  }
}
