/** A stage body, as decoding gave it: what is inspected of it, its record and its eight texts. */
module StageBodies {
  import opened Bytes
  import opened Layout
  import opened QuestInfos

  const FRONT := 0x44
  const GEOMETRY := 0x14
  const MONSTERS := 0x18
  const MAX_TEXT := 0x1_0000

  /** What the restoration takes from a body. */
  datatype Body = Unusable | Body(record: seq<byte>, texts: seq<seq<byte>>)

  predicate Behind(data: seq<byte>, p: nat, n: nat) { FRONT <= p && p + n <= |data| }

  // ------------------------------------------------------------------
  // Texts behind a table of pointers.

  /** The first zero byte from start on. */
  function ZeroFrom(data: seq<byte>, start: nat, limit: nat): (r: Result<nat>)
    requires limit <= |data|
    decreases limit - start
  {
    if start >= limit then Failed else if data[start] == 0 then Ok(start) else ZeroFrom(data, start + 1, limit)
  }

  lemma {:induction false} ZeroFromFirst(data: seq<byte>, start: nat, limit: nat, e: nat)
    requires limit <= |data|
    ensures ZeroFrom(data, start, limit) == Ok(e) <==>
            start <= e < limit && data[e] == 0 && forall i :: start <= i < e ==> data[i] != 0
    decreases limit - start
  {
    if start < limit && data[start] != 0 {
      ZeroFromFirst(data, start + 1, limit, e);
    }
  }

  /** The text that the pointer at p leads to. */
  function TextOf(data: seq<byte>, p: nat): Result<seq<byte>>
    requires p + 4 <= |data|
  {
    var start := Long(data, p);
    if start < FRONT || start >= |data| then Failed
    else
      var end := ZeroFrom(data, start, if start + MAX_TEXT > |data| then |data| else start + MAX_TEXT);
      if end.Ok? && start <= end.value <= |data| then Ok(data[start..end.value]) else Failed
  }

  predicate TextOk(text: seq<byte>) { |text| < MAX_TEXT && 0 !in text }

  /** A text with a zero behind it stands at start. */
  predicate StandsAt(data: seq<byte>, start: nat, text: seq<byte>) {
    FRONT <= start && start + |text| + 1 <= |data| && data[start..start + |text| + 1] == text + [0]
  }

  /** The pointer at p leads to exactly the text of less than 64 KiB, without a zero, that stands there with a zero behind it. */
  lemma TextIff(data: seq<byte>, p: nat, text: seq<byte>)
    requires p + 4 <= |data|
    ensures TextOf(data, p) == Ok(text) <==> TextOk(text) && StandsAt(data, Long(data, p), text)
  {
    var start := Long(data, p);
    if FRONT <= start < |data| {
      var limit := if start + MAX_TEXT > |data| then |data| else start + MAX_TEXT;
      var end := ZeroFrom(data, start, limit);
      if end.Ok? {
        ZeroFromFirst(data, start, limit, end.value);
        StandsIff(data, start, end.value, data[start..end.value]);
      }
      if TextOk(text) && StandsAt(data, start, text) {
        StandsIff(data, start, start + |text|, text);
        ZeroFromFirst(data, start, limit, start + |text|);
      }
    }
  }

  lemma StandsIff(data: seq<byte>, start: nat, end: nat, text: seq<byte>)
    requires start <= end < |data| && end == start + |text| && FRONT <= start
    ensures StandsAt(data, start, text) && 0 !in text <==>
            data[start..end] == text && data[end] == 0 && forall i :: start <= i < end ==> data[i] != 0
  {
    assert data[start..end + 1] == data[start..end] + [data[end]];
    if StandsAt(data, start, text) {
      assert (text + [0])[..|text|] == text && (text + [0])[|text|] == 0;
      assert data[start..end] == data[start..end + 1][..|text|];
    }
    if data[start..end] == text {
      forall i | start <= i < end
        ensures data[i] == text[i - start]
      {
        assert data[i] == data[start..end][i - start];
      }
      assert forall j :: 0 <= j < |text| ==> text[j] == data[start + j];
    }
  }

  function EntryOf(data: seq<byte>, p: nat, i: nat): Result<seq<byte>>
    requires i < TEXT_COUNT && p + TEXT_COUNT * 4 <= |data|
  {
    TextOf(data, p + i * 4)
  }

  /** All texts of the table at p. */
  function Texts(data: seq<byte>, p: nat): Result<seq<seq<byte>>> {
    if !Behind(data, p, TEXT_COUNT * 4) || !AllTexts(data, p) then Failed
    else Ok(seq(TEXT_COUNT, i requires 0 <= i < TEXT_COUNT => EntryOf(data, p, i).value))
  }

  predicate AllTexts(data: seq<byte>, p: nat)
    requires Behind(data, p, TEXT_COUNT * 4)
  {
    forall i :: 0 <= i < TEXT_COUNT ==> EntryOf(data, p, i).Ok?
  }

  method ClientQuestTexts(data: seq<byte>, record: seq<byte>) returns (r: Result<seq<seq<byte>>>)
    requires |record| == RECORD_SIZE
    ensures r == Texts(data, Long(record, TEXTS))
  {
    var p := Long(record, TEXTS);
    if p < FRONT || p + 32 > |data| {
      return Failed;
    }
    var texts: seq<seq<byte>> := [];
    for i := 0 to TEXT_COUNT
      invariant |texts| == i && forall k :: 0 <= k < i ==> EntryOf(data, p, k) == Ok(texts[k])
    {
      var text := EntryOf(data, p, i);
      if !text.Ok? {
        return Failed;
      }
      texts := texts + [text.value];
    }
    assert AllTexts(data, p) && texts == Texts(data, p).value;
    return Ok(texts);
  }

  // ------------------------------------------------------------------
  // Inspecting a body.

  datatype Template = Template(embeddedId: nat, hasGeometry: bool)

  /** The block of large monsters, if there is one, and its five spawns. */
  predicate MonstersOk(data: seq<byte>)
    requires |data| >= 0x86
  {
    var block := Long(data, MONSTERS);
    block != 0 ==> Behind(data, block, 16) && Behind(data, Long(data, block + 12), 5 * 60)
  }

  predicate ReferenceOk(data: seq<byte>, p: nat)
    requires p + 4 <= |data|
  {
    Long(data, p) != 0 ==> Behind(data, Long(data, p), 4)
  }

  predicate WellFormed(data: seq<byte>) {
    && |data| >= 0x86 && Behind(data, Long(data, 0), RECORD_SIZE) && MonstersOk(data)
    && ReferenceOk(data, 4) && ReferenceOk(data, GEOMETRY) && ReferenceOk(data, 0x28)
  }

  method InspectQuestTemplate(data: seq<byte>) returns (r: Result<Template>)
    ensures r == if WellFormed(data) then Ok(Template(Word(data, Long(data, 0) + ID_FIELD), Long(data, GEOMETRY) != 0)) else Failed
  {
    if |data| < 0x86 {
      return Failed;
    }
    var props := Long(data, 0);
    if props < FRONT || props + 0x140 > |data| {
      return Failed;
    }
    var block := Long(data, 0x18);
    if block != 0 {
      if block < FRONT || block + 16 > |data| {
        return Failed;
      }
      var spawns := Long(data, block + 12);
      if spawns < FRONT || spawns + 5 * 60 > |data| {
        return Failed;
      }
    }
    var fields := [4, 0x14, 0x28];
    for i := 0 to |fields|
      invariant forall k :: 0 <= k < i ==> ReferenceOk(data, fields[k])
    {
      var ref := Long(data, fields[i]);
      if ref != 0 && (ref < FRONT || ref + 4 > |data|) {
        assert !ReferenceOk(data, fields[i]);
        return Failed;
      }
    }
    assert ReferenceOk(data, fields[0]) && ReferenceOk(data, fields[1]) && ReferenceOk(data, fields[2]);
    return Ok(Template(Word(data, props + 0x2e), Long(data, 0x14) != 0));
  }

  /** What the restoration takes from these bytes; a body without geometry, or whose texts cannot be read, is refused. */
  function BodyOf(data: seq<byte>): Body {
    if !WellFormed(data) || Long(data, GEOMETRY) == 0 then Unusable
    else
      var record := data[Long(data, 0)..Long(data, 0) + RECORD_SIZE];
      var texts := Texts(data, Long(record, TEXTS));
      if texts.Ok? then Body(record, texts.value) else Unusable
  }

  method ReadBody(data: seq<byte>) returns (body: Body)
    ensures body == BodyOf(data)
  {
    var template := InspectQuestTemplate(data);
    if !template.Ok? || !template.value.hasGeometry {
      return Unusable;
    }
    var main := Long(data, 0);
    var record := data[main..main + 0x140];
    var texts := ClientQuestTexts(data, record);
    return if texts.Ok? then Body(record, texts.value) else Unusable;
  }

  /** The record carries the ID that inspecting reports. */
  lemma BodyId(data: seq<byte>)
    ensures BodyOf(data).Body? ==> Word(BodyOf(data).record, ID_FIELD) == Word(data, Long(data, 0) + ID_FIELD)
  {
    if BodyOf(data).Body? {
      PartOf(data, Long(data, 0), RECORD_SIZE, ID_FIELD, 2);
      WordSame(data[Long(data, 0)..Long(data, 0) + RECORD_SIZE], ID_FIELD, data, Long(data, 0) + ID_FIELD);
    }
  }

  /** What inspecting guarantees of a body. */
  predicate Genuine(body: Body) {
    body.Body? ==> && |body.record| == RECORD_SIZE && |body.texts| == TEXT_COUNT && Long(body.record, TEXTS) >= FRONT
                   && forall text :: text in body.texts ==> TextOk(text)
  }

  lemma BodyGenuine(data: seq<byte>)
    ensures Genuine(BodyOf(data))
  {
    var body := BodyOf(data);
    if body.Body? {
      var p := Long(body.record, TEXTS);
      forall text | text in body.texts
        ensures TextOk(text)
      {
        var i :| 0 <= i < TEXT_COUNT && text == body.texts[i];
        TextIff(data, p + i * 4, text);
      }
    }
  }
}
