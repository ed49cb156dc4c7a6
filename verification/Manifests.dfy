/** Validation of a decoded manifest: exactly the consistent ones become a catalogue. */
module Manifests {
  import opened Schedules
  import opened Sorting
  import opened Texts
  import opened Catalogs

  const MAX_VERSION_BYTES := 128

  datatype RawSchedule = RawSchedule(id: string, startsAt: Stamp, endsAt: Stamp, activeHours: int, repeatHours: int)

  datatype RawQuest = RawQuest(questId: int, profiles: seq<string>, schedule: string, disabled: bool, title: string,
                               requirements: seq<string>)

  datatype Manifest = Manifest(version: string, profiles: seq<Profile>, schedules: seq<RawSchedule>, quests: seq<RawQuest>)

  predicate ValidVersion(s: string) {
    ValidId(s) && Utf8Length(s) <= MAX_VERSION_BYTES && forall c :: c in s ==> 0x20 <= c as int <= 0x7e
  }

  // ------------------------------------------------------------------
  // What is accepted.

  predicate ProfileOk(p: Profile) {
    && ValidId(p.id) && p.worlds != []
    && (forall w :: w in p.worlds ==> ValidId(w)) && Distinct(p.worlds)
    && (forall n :: n in p.channels ==> 1 <= n <= 65535) && Distinct(p.channels)
  }

  function Parsed(s: RawSchedule): Result<Schedule> {
    ParseSchedule(s.startsAt, s.endsAt, s.activeHours, s.repeatHours)
  }

  predicate RequirementOk(s: string) {
    !Blank(s) && Utf8Length(s) <= MAX_REQUIREMENT_BYTES
  }

  predicate QuestOk(q: RawQuest, profileIds: set<string>, scheduleIds: set<string>) {
    && 1 <= q.questId <= MAX_QUEST_ID
    && (q.disabled || (q.profiles != [] && q.schedule != ""))
    && (forall p :: p in q.profiles ==> p in profileIds) && Distinct(q.profiles)
    && (q.schedule != "" ==> q.schedule in scheduleIds)
    && |q.requirements| <= MAX_REQUIREMENTS && (forall r :: r in q.requirements ==> RequirementOk(r))
  }

  function ProfileIds(ps: seq<Profile>): set<string> { set i | 0 <= i < |ps| :: ps[i].id }

  function ScheduleIds(ss: seq<RawSchedule>): set<string> { set i | 0 <= i < |ss| :: ss[i].id }

  predicate ProfilesOk(ps: seq<Profile>) {
    && (forall i :: 0 <= i < |ps| ==> ProfileOk(ps[i]))
    && (forall i, j :: 0 <= i < j < |ps| ==> ps[i].id != ps[j].id)
  }

  predicate SchedulesOk(ss: seq<RawSchedule>) {
    && (forall i :: 0 <= i < |ss| ==> ValidId(ss[i].id) && Parsed(ss[i]).Ok?)
    && (forall i, j :: 0 <= i < j < |ss| ==> ss[i].id != ss[j].id)
  }

  predicate QuestsOk(qs: seq<RawQuest>, profileIds: set<string>, scheduleIds: set<string>) {
    && (forall i :: 0 <= i < |qs| ==> QuestOk(qs[i], profileIds, scheduleIds))
    && (forall i, j :: 0 <= i < j < |qs| ==> qs[i].questId != qs[j].questId)
  }

  predicate Accepted(m: Manifest) {
    && ValidVersion(m.version)
    && |m.profiles| <= MAX_PROFILES && |m.schedules| <= MAX_SCHEDULES && |m.quests| <= MAX_QUEST_ID
    && ProfilesOk(m.profiles) && SchedulesOk(m.schedules)
    && QuestsOk(m.quests, ProfileIds(m.profiles), ScheduleIds(m.schedules))
  }

  function QuestOf(q: RawQuest): Quest {
    Quest(q.profiles, q.schedule, q.disabled, q.title, q.requirements)
  }

  /** The catalogue holds exactly what the manifest lists. */
  ghost predicate Holds(c: Catalog, m: Manifest) {
    && c.profiles.Keys == ProfileIds(m.profiles) && c.schedules.Keys == ScheduleIds(m.schedules)
    && (forall i :: 0 <= i < |m.profiles| ==> c.profiles[m.profiles[i].id] == m.profiles[i])
    && (forall i :: 0 <= i < |m.schedules| ==> Ok(c.schedules[m.schedules[i].id]) == Parsed(m.schedules[i]))
    && (forall i :: 0 <= i < |m.quests| ==> m.quests[i].questId in c.quests && c.quests[m.quests[i].questId] == QuestOf(m.quests[i]))
    && (forall k :: k in c.quests ==> exists i :: 0 <= i < |m.quests| && m.quests[i].questId == k)
  }

  // ------------------------------------------------------------------
  // The validation, one pass over each list.

  method NoRepeats<T(==)>(s: seq<T>) returns (r: bool)
    ensures r == Distinct(s)
  {
    var seen: set<T> := {};
    for i := 0 to |s|
      invariant seen == set x | x in s[..i]
      invariant Distinct(s[..i])
    {
      if s[i] in seen {
        return false;
      }
      seen := seen + {s[i]};
    }
    assert s[..|s|] == s;
    return true;
  }

  lemma NextProfile(ps: seq<Profile>, n: nat)
    requires n < |ps|
    ensures ProfileIds(ps[..n + 1]) == ProfileIds(ps[..n]) + {ps[n].id}
    ensures ProfilesOk(ps[..n + 1]) <==> ProfilesOk(ps[..n]) && ProfileOk(ps[n]) && ps[n].id !in ProfileIds(ps[..n])
    ensures ProfilesOk(ps) ==> ProfilesOk(ps[..n + 1])
  {
    var before, after := ps[..n], ps[..n + 1];
    assert after == before + [ps[n]];
    assert forall i :: 0 <= i < n ==> before[i].id in ProfileIds(before) && after[i] == before[i];
  }

  lemma NextSchedule(ss: seq<RawSchedule>, n: nat)
    requires n < |ss|
    ensures ScheduleIds(ss[..n + 1]) == ScheduleIds(ss[..n]) + {ss[n].id}
    ensures SchedulesOk(ss[..n + 1]) <==>
            SchedulesOk(ss[..n]) && ValidId(ss[n].id) && Parsed(ss[n]).Ok? && ss[n].id !in ScheduleIds(ss[..n])
    ensures SchedulesOk(ss) ==> SchedulesOk(ss[..n + 1])
  {
    var before, after := ss[..n], ss[..n + 1];
    assert after == before + [ss[n]];
    assert forall i :: 0 <= i < n ==> before[i].id in ScheduleIds(before) && after[i] == before[i];
  }

  method ValidateProfile(p: Profile) returns (ok: bool)
    ensures ok <==> ProfileOk(p)
  {
    var worldsApart := NoRepeats(p.worlds);
    var channelsApart := NoRepeats(p.channels);
    return ValidId(p.id) && |p.worlds| != 0 && (forall w :: w in p.worlds ==> ValidId(w)) && worldsApart
           && (forall n :: n in p.channels ==> 1 <= n <= 65535) && channelsApart;
  }

  /** Every profile of the list is stored, and nothing else; the IDs are listed once. */
  ghost predicate StoresProfiles(profiles: map<string, Profile>, profileIds: seq<string>, ps: seq<Profile>) {
    && profiles.Keys == ProfileIds(ps) && (forall i :: 0 <= i < |ps| ==> ps[i].id in profiles && profiles[ps[i].id] == ps[i])
    && (forall p :: p in profileIds <==> p in profiles) && Distinct(profileIds)
  }

  lemma StoreProfile(profiles: map<string, Profile>, profileIds: seq<string>, ps: seq<Profile>, p: Profile)
    requires StoresProfiles(profiles, profileIds, ps) && p.id !in profiles
    ensures StoresProfiles(profiles[p.id := p], profileIds + [p.id], ps + [p])
  {
    var all := ps + [p];
    assert forall i :: 0 <= i < |ps| ==> all[i] == ps[i] && ps[i].id in ProfileIds(ps);
    assert all[|ps|] == p;
    assert ProfileIds(all) == ProfileIds(ps) + {p.id};
  }

  method ParseProfiles(ps: seq<Profile>) returns (ok: bool, profiles: map<string, Profile>, profileIds: seq<string>)
    ensures ok <==> ProfilesOk(ps)
    ensures ok ==> profiles.Keys == ProfileIds(ps) && forall i :: 0 <= i < |ps| ==> profiles[ps[i].id] == ps[i]
    ensures ok ==> (forall p :: p in profileIds <==> p in profiles) && Distinct(profileIds)
  {
    profiles, profileIds := map[], [];
    for i := 0 to |ps|
      invariant ProfilesOk(ps[..i]) && StoresProfiles(profiles, profileIds, ps[..i])
    {
      NextProfile(ps, i);
      ok := ValidateProfile(ps[i]);
      if !ok || ps[i].id in profiles {
        return false, profiles, profileIds;
      }
      StoreProfile(profiles, profileIds, ps[..i], ps[i]);
      assert ps[..i + 1] == ps[..i] + [ps[i]];
      profiles := profiles[ps[i].id := ps[i]];
      profileIds := profileIds + [ps[i].id];
    }
    assert ps[..|ps|] == ps;
    ok := true;
  }

  /** Every entry of the list is stored, as parsed, and every stored schedule is valid. */
  ghost predicate Stores(schedules: map<string, Schedule>, ss: seq<RawSchedule>) {
    && (forall i :: 0 <= i < |ss| ==> ss[i].id in schedules && Ok(schedules[ss[i].id]) == Parsed(ss[i]))
    && (forall id :: id in schedules ==> schedules[id].Valid())
  }

  lemma StoreNext(schedules: map<string, Schedule>, ss: seq<RawSchedule>, raw: RawSchedule, s: Schedule)
    requires Stores(schedules, ss) && raw.id !in schedules && Parsed(raw) == Ok(s)
    ensures Stores(schedules[raw.id := s], ss + [raw])
  {
  }

  method ParseSchedules(ss: seq<RawSchedule>) returns (ok: bool, schedules: map<string, Schedule>)
    ensures ok <==> SchedulesOk(ss)
    ensures ok ==> schedules.Keys == ScheduleIds(ss) && Stores(schedules, ss)
  {
    schedules := map[];
    for i := 0 to |ss|
      invariant SchedulesOk(ss[..i]) && schedules.Keys == ScheduleIds(ss[..i])
      invariant Stores(schedules, ss[..i])
    {
      NextSchedule(ss, i);
      var raw := ss[i];
      if !ValidId(raw.id) || raw.id in schedules {
        return false, schedules;
      }
      var s := Parsed(raw);
      if !s.Ok? {
        return false, schedules;
      }
      StoreNext(schedules, ss[..i], raw, s.value);
      assert ss[..i + 1] == ss[..i] + [raw];
      schedules := schedules[raw.id := s.value];
    }
    assert ss[..|ss|] == ss;
    ok := true;
  }

  method ParseQuests(qs: seq<RawQuest>, profileIds: set<string>, scheduleIds: set<string>)
      returns (ok: bool, quests: map<int, Quest>, questIds: seq<int>)
    ensures ok <==> QuestsOk(qs, profileIds, scheduleIds)
    ensures ok ==> forall i :: 0 <= i < |qs| ==> qs[i].questId in quests && quests[qs[i].questId] == QuestOf(qs[i])
    ensures ok ==> forall k :: k in quests ==> exists i :: 0 <= i < |qs| && qs[i].questId == k
    ensures ok ==> (forall k :: k in quests <==> k in questIds) && Distinct(questIds)
  {
    quests, questIds := map[], [];
    for i := 0 to |qs|
      invariant QuestsOk(qs[..i], profileIds, scheduleIds)
      invariant |questIds| == i && forall j :: 0 <= j < i ==> questIds[j] == qs[j].questId
      invariant forall j :: 0 <= j < i ==> qs[j].questId in quests && quests[qs[j].questId] == QuestOf(qs[j])
      invariant forall k :: k in quests <==> k in questIds
    {
      var raw := qs[i];
      if raw.questId < 1 || raw.questId > MAX_QUEST_ID {
        return false, quests, questIds;
      }
      if raw.questId in quests {
        var j :| 0 <= j < i && questIds[j] == raw.questId;
        return false, quests, questIds;
      }
      if !raw.disabled && (|raw.profiles| == 0 || raw.schedule == "") {
        return false, quests, questIds;
      }
      var apart := NoRepeats(raw.profiles);
      if !(forall p :: p in raw.profiles ==> p in profileIds) || !apart {
        return false, quests, questIds;
      }
      if raw.schedule != "" && raw.schedule !in scheduleIds {
        return false, quests, questIds;
      }
      if |raw.requirements| > MAX_REQUIREMENTS || !(forall r :: r in raw.requirements ==> RequirementOk(r)) {
        return false, quests, questIds;
      }
      quests := quests[raw.questId := QuestOf(raw)];
      questIds := questIds + [raw.questId];
      assert forall j :: 0 <= j < i ==> qs[..i + 1][j] == qs[..i][j];
    }
    assert qs[..|qs|] == qs;
    assert forall k :: k in quests ==> exists i :: 0 <= i < |qs| && questIds[i] == k;
    ok := true;
  }

  /** Exactly the consistent manifests are accepted, and a catalogue made from one is valid and holds all of it. */
  method Parse(m: Manifest) returns (r: Result<Catalog>)
    ensures r.Ok? <==> Accepted(m)
    ensures r.Ok? ==> r.value.Valid() && Holds(r.value, m)
  {
    if !ValidVersion(m.version) {
      return Invalid;
    }
    if |m.profiles| > MAX_PROFILES || |m.schedules| > MAX_SCHEDULES || |m.quests| > MAX_QUEST_ID {
      return Invalid;
    }
    var ok, profiles, profileIds := ParseProfiles(m.profiles);
    if !ok {
      return Invalid;
    }
    var schedules;
    ok, schedules := ParseSchedules(m.schedules);
    if !ok {
      return Invalid;
    }
    var quests, questIds;
    ok, quests, questIds := ParseQuests(m.quests, profiles.Keys, schedules.Keys);
    if !ok {
      return Invalid;
    }
    var c := Catalog(profiles, Sort(profileIds, TextBelow), schedules, quests, Sort(questIds, Below));
    TextsSorted(profileIds);
    NumbersSorted(questIds);
    ReferencesResolve(c, m);
    return Ok(c);
  }

  lemma ReferencesResolve(c: Catalog, m: Manifest)
    requires Accepted(m) && Holds(c, m)
    ensures forall q :: q in c.quests && !c.quests[q].disabled ==> c.QuestResolved(c.quests[q])
  {
    forall q | q in c.quests && !c.quests[q].disabled
      ensures c.QuestResolved(c.quests[q])
    {
      var i :| 0 <= i < |m.quests| && m.quests[i].questId == q;
      assert QuestOk(m.quests[i], ProfileIds(m.profiles), ScheduleIds(m.schedules));
    }
  }

  // ------------------------------------------------------------------
  // What the catalogue answers, in the manifest's own words.

  /** The schedule entry is running. */
  ghost predicate Running(s: RawSchedule, t: int) {
    Runs(s.startsAt, s.endsAt, s.activeHours, s.repeatHours, t)
  }

  predicate Names(p: Profile, world: string, channel: int) {
    world in p.worlds && (p.channels == [] || channel in p.channels)
  }

  /** An enabled entry of the quest, whose schedule entry is running, lists a profile entry that names the place. */
  ghost predicate Published(m: Manifest, questId: int, world: string, channel: int, t: int) {
    exists q, s, p :: q in m.quests && s in m.schedules && p in m.profiles
      && q.questId == questId && !q.disabled && s.id == q.schedule && p.id in q.profiles
      && Running(s, t) && Names(p, world, channel)
  }

  lemma EntryRuns(c: Catalog, m: Manifest, s: RawSchedule, t: int)
    requires Accepted(m) && Holds(c, m) && s in m.schedules
    ensures s.id in c.schedules && c.schedules[s.id].Valid() && (Active(c.schedules[s.id], t) <==> Running(s, t))
    ensures c.schedules[s.id].mode.Always? <==> s.startsAt.Absent?
  {
    var i :| 0 <= i < |m.schedules| && m.schedules[i] == s;
    ParsedRuns(s.startsAt, s.endsAt, s.activeHours, s.repeatHours, t);
  }

  lemma EntryOf(c: Catalog, m: Manifest, questId: int) returns (q: RawQuest)
    requires Accepted(m) && Holds(c, m) && questId in c.quests
    ensures q in m.quests && q.questId == questId && c.quests[questId] == QuestOf(q)
    ensures QuestOk(q, ProfileIds(m.profiles), ScheduleIds(m.schedules))
  {
    var i :| 0 <= i < |m.quests| && m.quests[i].questId == questId;
    q := m.quests[i];
  }

  lemma ScheduleEntry(m: Manifest, id: string) returns (s: RawSchedule)
    requires id in ScheduleIds(m.schedules)
    ensures s in m.schedules && s.id == id
  {
    var i :| 0 <= i < |m.schedules| && m.schedules[i].id == id;
    s := m.schedules[i];
  }

  lemma ProfileEntry(c: Catalog, m: Manifest, id: string) returns (p: Profile)
    requires Accepted(m) && Holds(c, m) && id in ProfileIds(m.profiles)
    ensures p in m.profiles && p.id == id && id in c.profiles && c.profiles[id] == p
  {
    var i :| 0 <= i < |m.profiles| && m.profiles[i].id == id;
    p := m.profiles[i];
  }

  /** Entries are determined by their IDs. */
  lemma EntriesApart(c: Catalog, m: Manifest, q: RawQuest, p: Profile)
    requires Accepted(m) && Holds(c, m) && q in m.quests && p in m.profiles
    ensures q.questId in c.quests && c.quests[q.questId] == QuestOf(q) && p.id in c.profiles && c.profiles[p.id] == p
  {
    var i :| 0 <= i < |m.quests| && m.quests[i] == q;
    var j :| 0 <= j < |m.profiles| && m.profiles[j] == p;
  }

  /**
   * The catalogue made from a manifest manages exactly the quests that have an entry, and allows one at a place and an
   * instant exactly when the manifest says so.
   */
  lemma AllowsPublished(c: Catalog, m: Manifest, questId: int, world: string, channel: int, t: int)
    requires Accepted(m) && c.Valid() && Holds(c, m)
    ensures Allows(c, questId, world, channel, t).managed <==> exists q :: q in m.quests && q.questId == questId
    ensures Allows(c, questId, world, channel, t).allowed <==> 1 <= channel <= 65535 && Published(m, questId, world, channel, t)
  {
    if questId in c.quests {
      var q := EntryOf(c, m, questId);
      if Allows(c, questId, world, channel, t).allowed {
        var s := ScheduleEntry(m, q.schedule);
        EntryRuns(c, m, s, t);
        var id :| id in q.profiles && id in c.profiles && Matches(c.profiles[id], world, channel);
        var p := ProfileEntry(c, m, id);
        assert q in m.quests && s in m.schedules && p in m.profiles && p.id in q.profiles && Names(p, world, channel);
      }
    }
    if Published(m, questId, world, channel, t) {
      var q, s, p :| q in m.quests && s in m.schedules && p in m.profiles
        && q.questId == questId && !q.disabled && s.id == q.schedule && p.id in q.profiles
        && Running(s, t) && Names(p, world, channel);
      EntryRuns(c, m, s, t);
      EntriesApart(c, m, q, p);
      assert Matches(c.profiles[p.id], world, channel);
    }
    if q :| q in m.quests && q.questId == questId {
      var i :| 0 <= i < |m.quests| && m.quests[i] == q;
    }
  }

  /** The row shows what the quest's entry says: title, schedule, requirements, its profile entries in order. */
  ghost predicate Tells(o: Occurrence, m: Manifest, q: RawQuest) {
    && o.questId == q.questId && o.title == q.title && o.scheduleId == q.schedule && o.requirements == q.requirements
    && (forall s :: s in m.schedules && s.id == q.schedule ==> (o.permanent <==> s.startsAt.Absent?))
    && |o.profiles| == |q.profiles|
    && forall i :: 0 <= i < |q.profiles| ==> o.profiles[i] in m.profiles && o.profiles[i].id == q.profiles[i]
  }

  /** The windows of a schedule entry. */
  ghost predicate HasWindow(s: RawSchedule, from: int, until: int, w: Interval) {
    WindowOf(s.startsAt, s.endsAt, s.activeHours, s.repeatHours, from, until, w)
  }

  /** Every row of an exported calendar tells what an enabled quest's entry says, for a window of its schedule entry. */
  lemma RowsTell(c: Catalog, m: Manifest, from: int, until: int, o: Occurrence) returns (q: RawQuest, s: RawSchedule)
    requires Accepted(m) && c.Valid() && Holds(c, m) && Exportable(c, from, until) && o in Calendar(c, from, until)
    ensures q in m.quests && !q.disabled && Tells(o, m, q)
    ensures s in m.schedules && s.id == q.schedule && HasWindow(s, from, until, Interval(o.start, o.end))
  {
    CalendarOrdered(c, from, until);
    SameElements(Calendar(c, from, until), Expand(c, c.questIds, from, until).value.rows);
    var span := RowsSound(c, c.questIds, from, until, o);
    q := EntryOf(c, m, o.questId);
    s := ScheduleEntry(m, q.schedule);
    RowTells(c, m, q, span);
    EntryWindows(c, m, s, from, until, span);
  }

  lemma RowTells(c: Catalog, m: Manifest, q: RawQuest, span: Interval)
    requires Accepted(m) && c.Valid() && Holds(c, m) && q in m.quests && !q.disabled
    ensures q.questId in c.quests && c.quests[q.questId] == QuestOf(q) && Tells(RowOf(c, q.questId, span), m, q)
  {
    var j :| 0 <= j < |m.quests| && m.quests[j] == q;
    var o := RowOf(c, q.questId, span);
    forall s | s in m.schedules && s.id == q.schedule
      ensures o.permanent <==> s.startsAt.Absent?
    {
      EntryRuns(c, m, s, 0);
    }
    forall i | 0 <= i < |q.profiles|
      ensures o.profiles[i] in m.profiles && o.profiles[i].id == q.profiles[i]
    {
      assert q.profiles[i] in q.profiles;
      var p := ProfileEntry(c, m, q.profiles[i]);
    }
  }

  lemma EntryWindows(c: Catalog, m: Manifest, s: RawSchedule, from: int, until: int, w: Interval)
    requires Accepted(m) && c.Valid() && Holds(c, m) && s in m.schedules && from < until
    requires s.id in c.schedules && WindowsOf(c.schedules[s.id], from, until).Ok?
    ensures w in WindowsOf(c.schedules[s.id], from, until).value <==> HasWindow(s, from, until, w)
  {
    var i :| 0 <= i < |m.schedules| && m.schedules[i] == s;
    ParsedWindows(s.startsAt, s.endsAt, s.activeHours, s.repeatHours, from, until, w);
  }

  /** And for every window of an enabled quest's schedule entry there is such a row. */
  lemma RowsWhole(c: Catalog, m: Manifest, from: int, until: int, q: RawQuest, s: RawSchedule, w: Interval) returns (o: Occurrence)
    requires Accepted(m) && c.Valid() && Holds(c, m) && Exportable(c, from, until)
    requires q in m.quests && !q.disabled && s in m.schedules && s.id == q.schedule && HasWindow(s, from, until, w)
    ensures o in Calendar(c, from, until) && Tells(o, m, q) && Interval(o.start, o.end) == w
  {
    RowTells(c, m, q, w);
    EntryRuns(c, m, s, 0);
    CalendarOrdered(c, from, until);
    SameElements(Calendar(c, from, until), Expand(c, c.questIds, from, until).value.rows);
    ExpandOk(c, c.questIds, from, until, q.questId);
    EntryWindows(c, m, s, from, until, w);
    RowsComplete(c, c.questIds, from, until, q.questId, w);
    o := RowOf(c, q.questId, w);
  }
}
