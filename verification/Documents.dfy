/** The public document as JSON text, and why the cost budget keeps it within sixteen mebibytes. */
module Documents {
  import opened Calendars
  import opened Catalogs
  import opened Manifests
  import opened Publication
  import opened Schedules
  import opened Sorting
  import opened Texts

  // ------------------------------------------------------------------
  // JSON.

  function Hex(n: nat): char
    requires n < 16
  {
    "0123456789abcdef"[n]
  }

  /** The escape of a control character or of one that HTML gives a meaning. */
  function Unicode(n: nat): string
    requires n < 0x1_0000
  {
    ['\\', 'u', Hex(n / 0x1000), Hex(n / 0x100 % 0x10), Hex(n / 0x10 % 0x10), Hex(n % 0x10)]
  }

  function Escape(c: char): string {
    if c == '\"' || c == '\\' then ['\\', c]
    else if c == '\n' then ['\\', 'n']
    else if c == '\r' then ['\\', 'r']
    else if c == '\t' then ['\\', 't']
    else if c as int == 8 then ['\\', 'b']
    else if c as int == 12 then ['\\', 'f']
    else if c as int < 0x20 || c == '<' || c == '>' || c == '&' || c as int == 0x2028 || c as int == 0x2029 then Unicode(c as int)
    else [c]
  }

  function Escaped(s: string): string {
    if s == "" then "" else Escape(s[0]) + Escaped(s[1..])
  }

  function Quoted(s: string): string { "\"" + Escaped(s) + "\"" }

  function Digits(n: nat): string {
    (if n < 10 then "" else Digits(n / 10)) + [Hex(n % 10)]
  }

  function Number(n: int): string { if n < 0 then "-" + Digits(-n) else Digits(n) }

  function Items<T>(s: seq<T>, text: T -> string): string {
    if s == [] then "" else if |s| == 1 then text(s[0]) else Items(s[..|s| - 1], text) + "," + text(s[|s| - 1])
  }

  function List<T>(s: seq<T>, text: T -> string): string { "[" + Items(s, text) + "]" }

  /** A field that is not the first one. */
  function Field(name: string, value: string): string { ",\"" + name + "\":" + value }

  function Leading(name: string, value: string): string { "\"" + name + "\":" + value }

  /** The first field of an object. */
  function First(name: string, value: string): string { "{" + Leading(name, value) }

  function Optional(given: bool, field: string): string { if given then field else "" }

  // ------------------------------------------------------------------
  // The document.

  function ProfileText(p: Profile): string {
    "" + First("id", Quoted(p.id)) + Field("worlds", List(p.worlds, Quoted))
    + Optional(p.channels != [], Field("channels", List(p.channels, Number))) + "}"
  }

  function RowNames(o: Occurrence): string {
    "" + First("quest_id", Number(o.questId)) + Optional(o.title != "", Field("title", Quoted(o.title)))
    + Field("schedule_id", Quoted(o.scheduleId)) + ""
  }

  function RowTimes(o: Occurrence, stamp: int -> string): string {
    "" + Optional(o.permanent, Field("permanent", "true")) + Field("starts_at", stamp(o.start)) + Field("ends_at", stamp(o.end)) + ""
  }

  function RowLists(o: Occurrence): string {
    "" + Field("profiles", List(o.profiles, ProfileText))
    + Optional(o.requirements != [], Field("requirements", List(o.requirements, Quoted))) + "}"
  }

  function RowText(o: Occurrence, stamp: int -> string): string { RowNames(o) + RowTimes(o, stamp) + RowLists(o) }

  function RowWith(stamp: int -> string): Occurrence -> string { o => RowText(o, stamp) }

  function LocationText(l: Location): string {
    "" + First("world", Quoted(l.world)) + Field("channel", Number(l.channel)) + "}"
  }

  function InventoryText(q: InventoryItem): string {
    "" + First("quest_id", Number(q.questId)) + Field("profiles", List(q.profiles, Quoted)) + "}"
  }

  /** What a cohort adds in front: its locations, profiles and quests. */
  function ProofText(locations: seq<Location>, profiles: seq<Profile>, inventory: seq<InventoryItem>): string {
    Leading("publication_scope", "\"all_existing_worlds_and_channels\"")
    + Field("common_publication", PlacesText(locations, profiles, inventory)) + ","
  }

  function PlacesText(locations: seq<Location>, profiles: seq<Profile>, inventory: seq<InventoryItem>): string {
    "" + First("locations", List(locations, LocationText)) + Field("profiles", List(profiles, ProfileText))
    + Field("inventory", List(inventory, InventoryText)) + "}"
  }

  function FrameText(version: string, from: string, until: string): string {
    "" + Leading("version", Quoted(version)) + ZoneText(from) + ConditionsText(until) + ""
  }

  function ZoneText(from: string): string {
    Field("coverage", "\"managed_quests_only\"") + (Field("timezone", "\"Asia/Seoul\"") + Field("from", from))
  }

  function ConditionsText(until: string): string { Field("until", until) + Field("original_entry_conditions_apply", "true") }

  /** The whole document; proof is empty without a cohort. */
  function DocumentText(version: string, proof: string, from: int, until: int, rows: seq<Occurrence>, stamp: int -> string): string {
    "{" + proof + FrameText(version, stamp(from), stamp(until)) + Field("occurrences", List(rows, RowWith(stamp))) + "}"
  }

  // ------------------------------------------------------------------
  // Sizes.

  lemma {:induction false} SizeAdds(a: string, b: string)
    ensures Utf8Length(a + b) == Utf8Length(a) + Utf8Length(b)
    decreases |a|
  {
    if a == "" {
      assert a + b == b;
    } else {
      assert (a + b)[1..] == a[1..] + b;
      SizeAdds(a[1..], b);
    }
  }

  predicate Ascii(s: string) { forall i :: 0 <= i < |s| ==> s[i] as int < 0x80 }

  lemma {:induction false} AsciiSize(s: string)
    requires Ascii(s)
    ensures Utf8Length(s) == |s|
    decreases |s|
  {
    if s != "" {
      AsciiSize(s[1..]);
    }
  }

  lemma OneSize(c: char)
    ensures 1 <= Utf8Length([c]) && Utf8Length([c]) == Utf8Length([c] + "")
    ensures Utf8Length([c]) <= 4 && (c as int < 0x80 <==> Utf8Length([c]) == 1) && (c as int >= 0x800 ==> Utf8Length([c]) >= 3)
  {
    assert [c] + "" == [c] && [c][1..] == "";
  }

  /** No character takes more than six bytes for each byte it has. */
  lemma EscapeSize(c: char)
    ensures Utf8Length(Escape(c)) <= 6 * Utf8Length([c])
  {
    OneSize(c);
    if Escape(c) != [c] {
      AsciiSize(Escape(c));
    }
  }

  lemma {:induction false} EscapedSize(s: string)
    ensures Utf8Length(Escaped(s)) <= 6 * Utf8Length(s)
    decreases |s|
  {
    if s != "" {
      EscapeSize(s[0]);
      EscapedSize(s[1..]);
      SizeAdds(Escape(s[0]), Escaped(s[1..]));
      SizeAdds([s[0]], s[1..]);
      assert [s[0]] + s[1..] == s;
    }
  }

  lemma QuotedSize(s: string)
    ensures Utf8Length(Quoted(s)) <= 2 + 6 * Utf8Length(s)
  {
    EscapedSize(s);
    AsciiSize("\"");
    SizeAdds("\"", Escaped(s));
    SizeAdds("\"" + Escaped(s), "\"");
  }

  lemma NumberSize(n: int)
    requires 0 <= n < 100000
    ensures Utf8Length(Number(n)) <= 5
  {
    DigitsAscii(n);
    AsciiSize(Digits(n));
    DigitsFew(n, 5);
  }

  lemma {:induction false} DigitsAscii(n: nat)
    ensures Ascii(Digits(n))
  {
    if n >= 10 {
      DigitsAscii(n / 10);
    }
  }

  function Ten(count: nat): nat { if count == 0 then 1 else 10 * Ten(count - 1) }

  lemma {:induction false} DigitsFew(n: nat, count: nat)
    requires n < Ten(count) && count >= 1
    ensures |Digits(n)| <= count
    decreases count
  {
    if n >= 10 {
      DigitsFew(n / 10, count - 1);
    }
  }

  lemma {:induction false} ItemsSize<T>(s: seq<T>, text: T -> string, cost: T -> nat)
    requires forall x :: x in s ==> Utf8Length(text(x)) + 1 <= cost(x)
    ensures Utf8Length(Items(s, text)) <= Sum(s, cost)
    decreases |s|
  {
    if s != [] {
      var init, last := s[..|s| - 1], s[|s| - 1];
      assert last in s;
      ItemsSize(init, text, cost);
      if |s| > 1 {
        AsciiSize(",");
        SizeAdds(Items(init, text), ",");
        SizeAdds(Items(init, text) + ",", text(last));
      }
    }
  }

  lemma ListSize<T>(s: seq<T>, text: T -> string, cost: T -> nat)
    requires forall x :: x in s ==> Utf8Length(text(x)) + 1 <= cost(x)
    ensures Utf8Length(List(s, text)) <= 2 + Sum(s, cost)
  {
    ItemsSize(s, text, cost);
    Between("[", Items(s, text), "]");
  }

  lemma Between(a: string, b: string, c: string)
    requires Ascii(a) && Ascii(c)
    ensures Utf8Length(a + b + c) == |a| + Utf8Length(b) + |c|
  {
    AsciiSize(a);
    AsciiSize(c);
    SizeAdds(a, b);
    SizeAdds(a + b, c);
  }

  lemma FieldSize(name: string, value: string)
    requires Ascii(name)
    ensures Utf8Length(Field(name, value)) == |name| + 4 + Utf8Length(value)
  {
    var front := ",\"" + name + "\":";
    assert Ascii(front);
    AsciiSize(front);
    SizeAdds(front, value);
  }

  lemma FieldAscii(name: string, value: string)
    requires Ascii(name) && Ascii(value)
    ensures Utf8Length(Field(name, value)) == |name| + 4 + |value|
  {
    FieldSize(name, value);
    AsciiSize(value);
  }

  lemma LeadingSize(name: string, value: string)
    requires Ascii(name)
    ensures Utf8Length(Leading(name, value)) == |name| + 3 + Utf8Length(value)
    ensures Utf8Length(First(name, value)) == |name| + 4 + Utf8Length(value)
  {
    var front := "\"" + name + "\":";
    assert Ascii(front);
    AsciiSize(front);
    SizeAdds(front, value);
    AsciiSize("{");
    SizeAdds("{", front + value);
  }

  lemma LeadingAscii(name: string, value: string)
    requires Ascii(name) && Ascii(value)
    ensures Utf8Length(Leading(name, value)) == |name| + 3 + |value|
  {
    LeadingSize(name, value);
    AsciiSize(value);
  }

  lemma NamesSize(names: seq<string>)
    ensures Utf8Length(List(names, Quoted)) <= 2 + Sum(names, NameCost)
  {
    forall name | name in names
      ensures Utf8Length(Quoted(name)) + 1 <= NameCost(name)
    {
      QuotedSize(name);
    }
    ListSize(names, Quoted, NameCost);
  }

  function ChannelCost(n: int): nat { 24 }

  lemma {:induction false} ChannelsCost(ns: seq<int>)
    ensures Sum(ns, ChannelCost) == 24 * |ns|
    decreases |ns|
  {
    if ns != [] {
      ChannelsCost(ns[..|ns| - 1]);
    }
  }

  lemma ChannelsSize(ns: seq<int>)
    requires forall n :: n in ns ==> 1 <= n <= 65535
    ensures Utf8Length(List(ns, Number)) <= 2 + 24 * |ns|
  {
    forall n | n in ns
      ensures Utf8Length(Number(n)) + 1 <= ChannelCost(n)
    {
      NumberSize(n);
    }
    ListSize(ns, Number, ChannelCost);
    ChannelsCost(ns);
  }

  /** Three parts between a front and an end. */
  lemma Framed(front: string, a: string, b: string, c: string, end: string)
    ensures Utf8Length(front + a + b + c + end)
         == Utf8Length(front) + Utf8Length(a) + Utf8Length(b) + Utf8Length(c) + Utf8Length(end)
  {
    SizeAdds(front, a);
    SizeAdds(front + a, b);
    SizeAdds(front + a + b, c);
    SizeAdds(front + a + b + c, end);
  }

  lemma FramedTwo(front: string, a: string, b: string, end: string)
    ensures Utf8Length(front + a + b + end) == Utf8Length(front) + Utf8Length(a) + Utf8Length(b) + Utf8Length(end)
  {
    SizeAdds(front, a);
    SizeAdds(front + a, b);
    SizeAdds(front + a + b, end);
  }

  // ------------------------------------------------------------------
  // Profiles, locations and the inventory.

  predicate ChannelsOk(p: Profile) { forall n :: n in p.channels ==> 1 <= n <= 65535 }

  lemma ProfileNames(id: string, worlds: string, channels: string)
    ensures Utf8Length("") == 0 && Utf8Length("}") == 1 && Utf8Length(First("id", id)) == 6 + Utf8Length(id)
    ensures Utf8Length(Field("worlds", worlds)) == 10 + Utf8Length(worlds)
    ensures Utf8Length(Field("channels", channels)) == 12 + Utf8Length(channels)
  {
    LeadingSize("id", id);
    AsciiSize("}");
    FieldSize("worlds", worlds);
    FieldSize("channels", channels);
  }

  /** The cost of a profile covers its text and a comma. */
  lemma ProfileSize(p: Profile)
    requires ChannelsOk(p)
    ensures Utf8Length(ProfileText(p)) + 1 <= ProfileCost(p)
  {
    var worlds, channels := List(p.worlds, Quoted), List(p.channels, Number);
    QuotedSize(p.id);
    NamesSize(p.worlds);
    ChannelsSize(p.channels);
    ProfileNames(Quoted(p.id), worlds, channels);
    Framed("", First("id", Quoted(p.id)), Field("worlds", worlds), Optional(p.channels != [], Field("channels", channels)), "}");
  }

  lemma ProfilesSize(ps: seq<Profile>)
    requires forall p :: p in ps ==> ChannelsOk(p)
    ensures Utf8Length(List(ps, ProfileText)) <= 2 + Sum(ps, ProfileCost)
  {
    forall p | p in ps
      ensures Utf8Length(ProfileText(p)) + 1 <= ProfileCost(p)
    {
      ProfileSize(p);
    }
    ListSize(ps, ProfileText, ProfileCost);
  }

  lemma LocationNames(world: string, channel: string)
    ensures Utf8Length("") == 0 && Utf8Length("}") == 1 && Utf8Length(First("world", world)) == 9 + Utf8Length(world)
    ensures Utf8Length(Field("channel", channel)) == 11 + Utf8Length(channel)
  {
    LeadingSize("world", world);
    AsciiSize("}");
    FieldSize("channel", channel);
  }

  lemma LocationsSize(ls: seq<Location>)
    requires forall l :: l in ls ==> 1 <= l.channel <= 65535
    ensures Utf8Length(List(ls, LocationText)) <= 2 + Sum(ls, LocationCost)
  {
    forall l | l in ls
      ensures Utf8Length(LocationText(l)) + 1 <= LocationCost(l)
    {
      QuotedSize(l.world);
      NumberSize(l.channel);
      LocationNames(Quoted(l.world), Number(l.channel));
      FramedTwo("", First("world", Quoted(l.world)), Field("channel", Number(l.channel)), "}");
    }
    ListSize(ls, LocationText, LocationCost);
  }

  lemma InventoryNames(id: string, profiles: string)
    ensures Utf8Length("") == 0 && Utf8Length("}") == 1 && Utf8Length(First("quest_id", id)) == 12 + Utf8Length(id)
    ensures Utf8Length(Field("profiles", profiles)) == 12 + Utf8Length(profiles)
  {
    LeadingSize("quest_id", id);
    AsciiSize("}");
    FieldSize("profiles", profiles);
  }

  lemma InventorySize(qs: seq<InventoryItem>)
    requires forall q :: q in qs ==> 1 <= q.questId <= 65535
    ensures Utf8Length(List(qs, InventoryText)) <= 2 + Sum(qs, QuestCost)
  {
    forall q | q in qs
      ensures Utf8Length(InventoryText(q)) + 1 <= QuestCost(q)
    {
      NumberSize(q.questId);
      NamesSize(q.profiles);
      InventoryNames(Number(q.questId), List(q.profiles, Quoted));
      FramedTwo("", First("quest_id", Number(q.questId)), Field("profiles", List(q.profiles, Quoted)), "}");
    }
    ListSize(qs, InventoryText, QuestCost);
  }

  // ------------------------------------------------------------------
  // A row.

  /** Times are written with a date, nanoseconds and a zone, in quotes. */
  ghost predicate Stamps(stamp: int -> string) { forall t :: Utf8Length(stamp(t)) <= 37 }

  lemma TitleNames(id: string, title: string, schedule: string)
    ensures Utf8Length("") == 0 && Utf8Length(First("quest_id", id)) == 12 + Utf8Length(id)
    ensures Utf8Length(Field("title", title)) == 9 + Utf8Length(title)
    ensures Utf8Length(Field("schedule_id", schedule)) == 15 + Utf8Length(schedule)
  {
    LeadingSize("quest_id", id);
    FieldSize("title", title);
    FieldSize("schedule_id", schedule);
  }

  lemma NamesPart(o: Occurrence)
    requires 1 <= o.questId <= 65535
    ensures Utf8Length(RowNames(o)) <= 45 + 6 * Utf8Length(o.title) + 6 * Utf8Length(o.scheduleId)
  {
    NumberSize(o.questId);
    QuotedSize(o.title);
    QuotedSize(o.scheduleId);
    TitleNames(Number(o.questId), Quoted(o.title), Quoted(o.scheduleId));
    Framed("", First("quest_id", Number(o.questId)), Optional(o.title != "", Field("title", Quoted(o.title))),
           Field("schedule_id", Quoted(o.scheduleId)), "");
  }

  lemma TimeNames(start: string, end: string)
    ensures Utf8Length("") == 0 && Utf8Length(Field("permanent", "true")) == 17
    ensures Utf8Length(Field("starts_at", start)) == 13 + Utf8Length(start)
    ensures Utf8Length(Field("ends_at", end)) == 11 + Utf8Length(end)
  {
    FieldAscii("permanent", "true");
    FieldSize("starts_at", start);
    FieldSize("ends_at", end);
  }

  lemma TimesPart(o: Occurrence, stamp: int -> string)
    requires Stamps(stamp)
    ensures Utf8Length(RowTimes(o, stamp)) <= 115
  {
    TimeNames(stamp(o.start), stamp(o.end));
    Framed("", Optional(o.permanent, Field("permanent", "true")), Field("starts_at", stamp(o.start)), Field("ends_at", stamp(o.end)), "");
  }

  lemma RequirementsSize(rs: seq<string>)
    ensures Utf8Length(List(rs, Quoted)) <= 2 + Sum(rs, RequirementCost)
  {
    forall r | r in rs
      ensures Utf8Length(Quoted(r)) + 1 <= RequirementCost(r)
    {
      QuotedSize(r);
    }
    ListSize(rs, Quoted, RequirementCost);
  }

  lemma ListNames(profiles: string, requirements: string)
    ensures Utf8Length("") == 0 && Utf8Length("}") == 1
    ensures Utf8Length(Field("profiles", profiles)) == 12 + Utf8Length(profiles)
    ensures Utf8Length(Field("requirements", requirements)) == 16 + Utf8Length(requirements)
  {
    AsciiSize("}");
    FieldSize("profiles", profiles);
    FieldSize("requirements", requirements);
  }

  lemma ListsPart(o: Occurrence)
    requires forall p :: p in o.profiles ==> ChannelsOk(p)
    ensures Utf8Length(RowLists(o)) <= 33 + Sum(o.profiles, ProfileCost) + Sum(o.requirements, RequirementCost)
  {
    var profiles, requirements := List(o.profiles, ProfileText), List(o.requirements, Quoted);
    ProfilesSize(o.profiles);
    RequirementsSize(o.requirements);
    ListNames(profiles, requirements);
    FramedTwo("", Field("profiles", profiles), Optional(o.requirements != [], Field("requirements", requirements)), "}");
  }

  predicate RowOk(o: Occurrence) {
    1 <= o.questId <= 65535 && forall p :: p in o.profiles ==> ChannelsOk(p)
  }

  /** The cost of a row covers its text and a comma. */
  lemma RowSize(o: Occurrence, stamp: int -> string)
    requires RowOk(o) && Stamps(stamp)
    ensures Utf8Length(RowText(o, stamp)) + 1 <= RowCost(o)
  {
    NamesPart(o);
    TimesPart(o, stamp);
    ListsPart(o);
    SizeAdds(RowNames(o), RowTimes(o, stamp));
    SizeAdds(RowNames(o) + RowTimes(o, stamp), RowLists(o));
  }

  lemma RowsSize(rows: seq<Occurrence>, stamp: int -> string)
    requires (forall o :: o in rows ==> RowOk(o)) && Stamps(stamp)
    ensures Utf8Length(List(rows, RowWith(stamp))) <= 2 + Sum(rows, RowCost)
  {
    forall o | o in rows
      ensures Utf8Length(RowWith(stamp)(o)) + 1 <= RowCost(o)
    {
      RowSize(o, stamp);
    }
    ListSize(rows, RowWith(stamp), RowCost);
  }

  // ------------------------------------------------------------------
  // The document.

  lemma ZoneSize(from: string)
    ensures Utf8Length(ZoneText(from)) == 65 + Utf8Length(from)
  {
    FieldAscii("coverage", "\"managed_quests_only\"");
    FieldAscii("timezone", "\"Asia/Seoul\"");
    FieldSize("from", from);
    SizeAdds(Field("timezone", "\"Asia/Seoul\""), Field("from", from));
    SizeAdds(Field("coverage", "\"managed_quests_only\""), Field("timezone", "\"Asia/Seoul\"") + Field("from", from));
  }

  lemma ConditionsSize(until: string)
    ensures Utf8Length(ConditionsText(until)) == 48 + Utf8Length(until)
  {
    FieldSize("until", until);
    FieldAscii("original_entry_conditions_apply", "true");
    SizeAdds(Field("until", until), Field("original_entry_conditions_apply", "true"));
  }

  lemma VersionName(version: string)
    ensures Utf8Length("") == 0 && Utf8Length(Leading("version", version)) == 10 + Utf8Length(version)
  {
    LeadingSize("version", version);
  }

  lemma FrameSize(version: string, from: string, until: string)
    requires ValidVersion(version) && Utf8Length(from) <= 37 && Utf8Length(until) <= 37
    ensures Utf8Length(FrameText(version, from, until)) <= 967
  {
    QuotedSize(version);
    VersionName(Quoted(version));
    ZoneSize(from);
    ConditionsSize(until);
    Framed("", Leading("version", Quoted(version)), ZoneText(from), ConditionsText(until), "");
  }

  lemma PlaceNames(locations: string, profiles: string, inventory: string)
    ensures Utf8Length("") == 0 && Utf8Length("}") == 1
    ensures Utf8Length(First("locations", locations)) == 13 + Utf8Length(locations)
    ensures Utf8Length(Field("profiles", profiles)) == 12 + Utf8Length(profiles)
    ensures Utf8Length(Field("inventory", inventory)) == 13 + Utf8Length(inventory)
  {
    AsciiSize("}");
    LeadingSize("locations", locations);
    FieldSize("profiles", profiles);
    FieldSize("inventory", inventory);
  }

  lemma PlacesSize(locations: seq<Location>, profiles: seq<Profile>, inventory: seq<InventoryItem>)
    requires forall l :: l in locations ==> 1 <= l.channel <= 65535
    requires (forall p :: p in profiles ==> ChannelsOk(p)) && forall q :: q in inventory ==> 1 <= q.questId <= 65535
    ensures Utf8Length(PlacesText(locations, profiles, inventory))
         <= 45 + Sum(locations, LocationCost) + Sum(profiles, ProfileCost) + Sum(inventory, QuestCost)
  {
    LocationsSize(locations);
    ProfilesSize(profiles);
    InventorySize(inventory);
    var ls, ps, qs := List(locations, LocationText), List(profiles, ProfileText), List(inventory, InventoryText);
    PlaceNames(ls, ps, qs);
    Framed("", First("locations", ls), Field("profiles", ps), Field("inventory", qs), "}");
  }

  lemma ScopeSize(places: string)
    ensures Utf8Length(Leading("publication_scope", "\"all_existing_worlds_and_channels\"")) == 54 && Utf8Length(",") == 1
    ensures Utf8Length(Field("common_publication", places)) == 22 + Utf8Length(places)
  {
    LeadingAscii("publication_scope", "\"all_existing_worlds_and_channels\"");
    AsciiSize(",");
    FieldSize("common_publication", places);
  }

  /** The metadata cost of a cohort covers what it adds to a document. */
  lemma ProofSize(locations: seq<Location>, profiles: seq<Profile>, inventory: seq<InventoryItem>)
    requires forall l :: l in locations ==> 1 <= l.channel <= 65535
    requires (forall p :: p in profiles ==> ChannelsOk(p)) && forall q :: q in inventory ==> 1 <= q.questId <= 65535
    ensures Utf8Length(ProofText(locations, profiles, inventory))
         <= 512 + Sum(locations, LocationCost) + Sum(profiles, ProfileCost) + Sum(inventory, QuestCost)
  {
    var places := PlacesText(locations, profiles, inventory);
    PlacesSize(locations, profiles, inventory);
    ScopeSize(places);
    var scope := Leading("publication_scope", "\"all_existing_worlds_and_channels\"");
    SizeAdds(scope, Field("common_publication", places));
    SizeAdds(scope + Field("common_publication", places), ",");
  }

  lemma OccurrencesName(rows: string)
    ensures Utf8Length(Field("occurrences", rows)) == 15 + Utf8Length(rows) && Utf8Length("{") == 1 && Utf8Length("}") == 1
  {
    AsciiSize("{");
    AsciiSize("}");
    FieldSize("occurrences", rows);
  }

  /** Rows and a proof within the budget make a document of at most sixteen mebibytes. */
  lemma DocumentSize(version: string, proof: string, cost: nat, from: int, until: int, rows: seq<Occurrence>, stamp: int -> string)
    requires ValidVersion(version) && Stamps(stamp) && (forall o :: o in rows ==> RowOk(o))
    requires Utf8Length(proof) <= cost && cost + Sum(rows, RowCost) <= BUDGET
    ensures Utf8Length(DocumentText(version, proof, from, until, rows, stamp)) <= 16 * 1024 * 1024
  {
    FrameSize(version, stamp(from), stamp(until));
    RowsSize(rows, stamp);
    OccurrencesName(List(rows, RowWith(stamp)));
    Framed("{", proof, FrameText(version, stamp(from), stamp(until)), Field("occurrences", List(rows, RowWith(stamp))), "}");
  }

  // ------------------------------------------------------------------
  // The documents of a catalogue.

  /** A row of a calendar made from a manifest is within these bounds. */
  lemma RowFits(c: Catalog, m: Manifest, from: int, until: int, o: Occurrence)
    requires Accepted(m) && c.Valid() && Holds(c, m) && Exportable(c, from, until) && o in Calendar(c, from, until)
    ensures RowOk(o)
  {
    var q, s := RowsTell(c, m, from, until, o);
    EntryNumber(m, q);
    forall p | p in o.profiles
      ensures ChannelsOk(p)
    {
      var i :| 0 <= i < |o.profiles| && o.profiles[i] == p;
      EntryChannels(m, p);
    }
  }

  lemma EntryNumber(m: Manifest, q: RawQuest)
    requires Accepted(m) && q in m.quests
    ensures 1 <= q.questId <= 65535
  {
    var i :| 0 <= i < |m.quests| && m.quests[i] == q;
    assert QuestOk(m.quests[i], ProfileIds(m.profiles), ScheduleIds(m.schedules));
  }

  lemma EntryChannels(m: Manifest, p: Profile)
    requires Accepted(m) && p in m.profiles
    ensures ChannelsOk(p)
  {
    var i :| 0 <= i < |m.profiles| && m.profiles[i] == p;
    assert ProfileOk(m.profiles[i]);
  }

  lemma RowsFit(c: Catalog, m: Manifest, from: int, until: int)
    requires Accepted(m) && c.Valid() && Holds(c, m) && Exportable(c, from, until)
    ensures forall o :: o in Calendar(c, from, until) ==> RowOk(o)
  {
    forall o | o in Calendar(c, from, until)
      ensures RowOk(o)
    {
      RowFits(c, m, from, until, o);
    }
  }

  /** Whenever the public document is made, it is at most sixteen mebibytes of JSON, whatever it holds. */
  lemma PublicDocumentFits(c: Catalog, m: Manifest, from: int, until: int, stamp: int -> string)
    requires Accepted(m) && c.Valid() && Holds(c, m) && Exportable(c, from, until) && Stamps(stamp)
    requires Sum(Calendar(c, from, until), RowCost) <= BUDGET
    ensures Utf8Length(DocumentText(m.version, "", from, until, Calendar(c, from, until), stamp)) <= 16 * 1024 * 1024
  {
    RowsFit(c, m, from, until);
    DocumentSize(m.version, "", 0, from, until, Calendar(c, from, until), stamp);
  }

  lemma ProofFits(c: Catalog, m: Manifest, configured: seq<Location>, places: seq<Location>)
    requires Accepted(m) && c.Valid() && Holds(c, m) && Buildable(c, configured) && places == Sort(configured, LocationBelow)
    ensures Utf8Length(ProofText(places, ProfilesOf(c), Inventory(c, c.questIds))) <= MetadataCost(c, configured)
  {
    SortKeeps(configured, LocationBelow);
    SameElements(places, configured);
    SumReordered(places, configured, LocationCost);
    InventoryOk(c, m, c.questIds);
    forall p | p in ProfilesOf(c)
      ensures ChannelsOk(p)
    {
      var i :| 0 <= i < |c.profileIds| && ProfilesOf(c)[i] == p;
      assert c.profileIds[i] in c.profileIds;
    }
    ProofSize(places, ProfilesOf(c), Inventory(c, c.questIds));
  }

  /** And so is a cohort's document, with its proof in front. */
  lemma CohortDocumentFits(c: Catalog, m: Manifest, configured: seq<Location>, places: seq<Location>, from: int, until: int,
                           stamp: int -> string)
    requires Accepted(m) && c.Valid() && Holds(c, m) && Buildable(c, configured) && Exportable(c, from, until) && Stamps(stamp)
    requires places == Sort(configured, LocationBelow)
    requires MetadataCost(c, configured) + Sum(Calendar(c, from, until), RowCost) <= BUDGET
    ensures var proof := ProofText(places, ProfilesOf(c), Inventory(c, c.questIds));
            Utf8Length(DocumentText(m.version, proof, from, until, Calendar(c, from, until), stamp)) <= 16 * 1024 * 1024
  {
    RowsFit(c, m, from, until);
    ProofFits(c, m, configured, places);
    DocumentSize(m.version, ProofText(places, ProfilesOf(c), Inventory(c, c.questIds)), MetadataCost(c, configured),
                 from, until, Calendar(c, from, until), stamp);
  }

  lemma {:induction false} InventoryOk(c: Catalog, m: Manifest, ids: seq<int>)
    requires Accepted(m) && Holds(c, m) && forall id :: id in ids ==> id in c.quests
    ensures forall q :: q in Inventory(c, ids) ==> 1 <= q.questId <= 65535
    decreases |ids|
  {
    if ids != [] {
      var id := ids[|ids| - 1];
      InventoryOk(c, m, ids[..|ids| - 1]);
      assert id in ids;
      var i :| 0 <= i < |m.quests| && m.quests[i].questId == id;
      EntryNumber(m, m.quests[i]);
    }
  }

  /** A sum does not depend on the order. */
  lemma {:induction false} SumReordered<T>(a: seq<T>, b: seq<T>, cost: T -> nat)
    requires multiset(a) == multiset(b)
    ensures Sum(a, cost) == Sum(b, cost)
    decreases |a|
  {
    if a == [] {
      assert |b| == |multiset(b)| == 0;
    } else {
      var init, last := a[..|a| - 1], a[|a| - 1];
      assert a == init + [last];
      assert last in multiset(b);
      var i :| 0 <= i < |b| && b[i] == last;
      var rest := b[..i] + b[i + 1..];
      assert b == b[..i] + [last] + b[i + 1..];
      assert multiset(b) - multiset{last} == multiset(rest);
      assert multiset(a) - multiset{last} == multiset(init);
      SumReordered(init, rest, cost);
      SumWithout(b[..i], last, b[i + 1..], cost);
    }
  }

  lemma SumWithout<T>(front: seq<T>, x: T, back: seq<T>, cost: T -> nat)
    ensures Sum(front + [x] + back, cost) == Sum(front + back, cost) + cost(x)
  {
    var more := front + [x];
    assert more[..|more| - 1] == front;
    SumJoined(front, back, cost);
    SumJoined(more, back, cost);
  }
}
