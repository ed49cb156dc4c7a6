/** The texts of an added quest, as the client reads them from the restored list. */
module QuestTexts {
  import opened Bytes
  import opened Layout
  import opened QuestInfos
  import opened StageBodies
  import opened QuestDrafts
  import opened QuestFinds

  /** Where the text i begins in the block. */
  function TextStart(texts: seq<seq<byte>>, i: nat): nat
    requires i <= |texts|
  {
    |TextBlock(texts[..i])|
  }

  lemma {:induction false} PointerAt(start: nat, texts: seq<seq<byte>>, i: nat)
    requires i < |texts|
    ensures TextPointers(start, texts)[i * 4..i * 4 + 4] == LongBytes(start + TextStart(texts, i))
  {
    var init := texts[..|texts| - 1];
    if i < |init| {
      PointerAt(start, init, i);
      assert init[..i] == texts[..i];
      assert TextPointers(start, texts)[..|init| * 4] == TextPointers(start, init);
      PartOf(TextPointers(start, texts), 0, |init| * 4, i * 4, 4);
    }
  }

  lemma {:induction false} BlockAt(texts: seq<seq<byte>>, i: nat)
    requires i < |texts|
    ensures TextStart(texts, i) + |texts[i]| + 1 <= |TextBlock(texts)|
    ensures TextBlock(texts)[TextStart(texts, i)..TextStart(texts, i) + |texts[i]| + 1] == texts[i] + [0]
  {
    var init, last := texts[..|texts| - 1], texts[|texts| - 1];
    if i < |init| {
      BlockAt(init, i);
      assert init[..i] == texts[..i];
      assert TextBlock(texts)[..|TextBlock(init)|] == TextBlock(init);
      PartOf(TextBlock(texts), 0, |TextBlock(init)|, TextStart(texts, i), |texts[i]| + 1);
    } else {
      assert TextBlock(texts) == TextBlock(init) + (last + [0]);
    }
  }

  /** The three parts of a stored stage. */
  lemma StageParts(b: seq<byte>, p: nat, body: Body)
    requires body.Body? && Genuine(body) && StageAt(b, p, body)
    ensures var table := p + RECORD_SIZE; var block := table + TEXT_TABLE;
            && b[p..table] == RecordAt(p, body.record) && b[table..block] == TextPointers(block, body.texts)
            && b[block..block + |TextBlock(body.texts)|] == TextBlock(body.texts)
  {
    var stage := StageBytes(p, body);
    var k := |TextBlock(body.texts)|;
    PartOf(b, p, |stage|, 0, RECORD_SIZE);
    PartOf(b, p, |stage|, RECORD_SIZE, TEXT_TABLE);
    PartOf(b, p, |stage|, RECORD_SIZE + TEXT_TABLE, k);
    StageSplits(RecordAt(p, body.record), TextPointers(p + RECORD_SIZE + TEXT_TABLE, body.texts), TextBlock(body.texts));
  }

  lemma StageSplits(a: seq<byte>, t: seq<byte>, c: seq<byte>)
    ensures var s := a + t + c;
            s[0..|a|] == a && s[|a|..|a| + |t|] == t && s[|a| + |t|..|a| + |t| + |c|] == c
  {
  }

  lemma PointerRead(b: seq<byte>, table: nat, block: nat, texts: seq<seq<byte>>, i: nat)
    requires |texts| == TEXT_COUNT && i < TEXT_COUNT && block + |TextBlock(texts)| <= |b| <= MAX_DATA
    requires table + TEXT_TABLE <= |b| && b[table..table + TEXT_TABLE] == TextPointers(block, texts)
    ensures Long(b, table + i * 4) == block + TextStart(texts, i)
  {
    BlockAt(texts, i);
    PointerAt(block, texts, i);
    PartOf(b, table, TEXT_TABLE, i * 4, 4);
    LongGiven(b, table + i * 4, block + TextStart(texts, i));
  }

  lemma BlockRead(b: seq<byte>, block: nat, texts: seq<seq<byte>>, i: nat)
    requires i < |texts| && HEAD <= block && block + |TextBlock(texts)| <= |b|
    requires b[block..block + |TextBlock(texts)|] == TextBlock(texts)
    ensures StandsAt(b, block + TextStart(texts, i), texts[i])
  {
    BlockAt(texts, i);
    PartOf(b, block, |TextBlock(texts)|, TextStart(texts, i), |texts[i]| + 1);
  }

  /** The text i of a stage is read from its entry of the table. */
  lemma StoredText(b: seq<byte>, table: nat, block: nat, texts: seq<seq<byte>>, i: nat)
    requires |texts| == TEXT_COUNT && i < TEXT_COUNT && TextOk(texts[i]) && HEAD <= table && block == table + TEXT_TABLE
    requires block + |TextBlock(texts)| <= |b| <= MAX_DATA && b[table..table + TEXT_TABLE] == TextPointers(block, texts)
    requires b[block..block + |TextBlock(texts)|] == TextBlock(texts)
    ensures EntryOf(b, table, i) == Ok(texts[i])
  {
    PointerRead(b, table, block, texts, i);
    BlockRead(b, block, texts, i);
    EntryIs(b, table, i, block + TextStart(texts, i), texts[i]);
  }

  lemma EntryIs(b: seq<byte>, table: nat, i: nat, start: nat, text: seq<byte>)
    requires i < TEXT_COUNT && table + TEXT_TABLE <= |b| && Long(b, table + i * 4) == start
    requires TextOk(text) && StandsAt(b, start, text)
    ensures EntryOf(b, table, i) == Ok(text)
  {
    TextIff(b, table + i * 4, text);
  }

  lemma StoredTexts(b: seq<byte>, p: nat, body: Body)
    requires body.Body? && Genuine(body) && StageAt(b, p, body) && HEAD <= p && |b| <= MAX_DATA
    ensures Long(b, p + TEXTS) == p + RECORD_SIZE && Texts(b, p + RECORD_SIZE) == Ok(body.texts)
  {
    var table := p + RECORD_SIZE;
    StageParts(b, p, body);
    LongPut(body.record, TEXTS, table);
    PartOf(b, p, RECORD_SIZE, TEXTS, 4);
    PartOf(RecordAt(p, body.record), 0, RECORD_SIZE, TEXTS, 4);
    LongSame(b, p + TEXTS, RecordAt(p, body.record), TEXTS);
    forall i | 0 <= i < TEXT_COUNT
      ensures EntryOf(b, table, i) == Ok(body.texts[i])
    {
      StoredText(b, table, table + TEXT_TABLE, body.texts, i);
    }
    assert AllTexts(b, table);
    assert Texts(b, table).value == body.texts;
  }

  /**
   * From the record of an added quest the client reads the texts of its body, whatever else was added: where the
   * record's pointer now leads, the text slots give the texts that the slots of the body gave.
   */
  lemma TextsKept(source: seq<byte>, bodies: map<nat, Body>, id: nat)
    requires BodiesOk(bodies) && Readable(source, bodies) && id in bodies
    ensures var b := Restoration(source, bodies); var p := RecordOf(source, bodies, id);
            p + RECORD_SIZE <= |b| && Texts(b, Long(b, p + TEXTS)) == Ok(bodies[id].texts)
  {
    RecordAdded(source, bodies, id);
    StoredTexts(Restoration(source, bodies), RecordOf(source, bodies, id), bodies[id]);
  }

  /** The texts of a body are those that its record leads to. */
  lemma BodyTexts(data: seq<byte>)
    requires BodyOf(data).Body?
    ensures WellFormed(data) && Texts(data, Long(data, Long(data, 0) + TEXTS)) == Ok(BodyOf(data).texts)
  {
    var main := Long(data, 0);
    PartOf(data, main, RECORD_SIZE, TEXTS, 4);
    LongSame(data[main..main + RECORD_SIZE], TEXTS, data, main + TEXTS);
  }
}
