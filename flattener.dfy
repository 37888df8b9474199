/** The dataset's one-time pass over the documents: every (document, method)
    unit is rendered, dropped whole if any of its sentences is too long for the
    tokenizer, and otherwise appended to `processed_data` as numbered records. */
module Flattener {
  import opened Grouping
  import opened Strings
  import opened Rendering
  import opened Units

  /** The token budget of the length filter; the same literal for both tokenizers. */
  const MaxTokens: nat := 1024

  /** Every sentence of the unit tokenizes to fewer than `MaxTokens` tokens. */
  predicate Fits(sentences: seq<string>, countTokens: string -> nat) {
    forall i :: 0 <= i < |sentences| ==> countTokens(sentences[i]) < MaxTokens
  }

  /** The records of one accepted unit numbered `d`, with the total filled in. */
  function UnitRecords(kept: seq<string>, d: nat): (r: seq<SentenceRecord>)
    ensures |r| == |kept|
  {
    seq(|kept|, k requires 0 <= k < |kept| => SentenceRecord(kept[k], k, d, |kept|))
  }

  /** The units that pass the length filter, in order. */
  function Accepted(units: seq<seq<string>>, countTokens: string -> nat): (r: seq<seq<string>>)
    ensures |r| <= |units|
    ensures forall i :: 0 <= i < |r| ==> Fits(r[i], countTokens)
  {
    if units == [] then []
    else
      var last := units[|units| - 1];
      Accepted(units[..|units| - 1], countTokens) + (if Fits(last, countTokens) then [last] else [])
  }

  /** The records of accepted units laid end to end, unit `d` numbered `d`. */
  function Number(units: seq<seq<string>>): seq<SentenceRecord> {
    if units == [] then []
    else Number(units[..|units| - 1]) + UnitRecords(Kept(units[|units| - 1]), |units| - 1)
  }

  /** The units of one document, one per method, in first-appearance order. */
  function DocUnits(doc: Document): (r: seq<seq<string>>)
    ensures |r| == |GroupBySection(doc.steps)|
  {
    var groups := GroupBySection(doc.steps);
    seq(|groups|, g requires 0 <= g < |groups| => RenderUnit(doc.title, groups[g]))
  }

  /** The units of a range of documents, document by document. */
  function AllUnits(docs: seq<Document>): seq<seq<string>> {
    if docs == [] then []
    else AllUnits(docs[..|docs| - 1]) + DocUnits(docs[|docs| - 1])
  }

  /** What `processed_data` holds once the documents `docs` have been processed. */
  function Flattened(docs: seq<Document>, countTokens: string -> nat): seq<SentenceRecord> {
    Number(Accepted(AllUnits(docs), countTokens))
  }

  /** A rendered unit whose sentences all end with the delimiter and which keeps
      its title, method and first directions sentences. */
  predicate Headed(unit: seq<string>) {
    var kept := Kept(unit);
    (forall i {:trigger EndsWith(unit[i], Eos)} :: 0 <= i < |unit| ==> EndsWith(unit[i], Eos)) &&
    |kept| >= 3 && IsTitleSentence(kept[0]) && IsMethodSentence(kept[1]) && IsFirstDirections(kept[2])
  }

  /** What every emitted record's sentence satisfies: it is neither empty nor the
      bare delimiter, it ends with the delimiter, it passed the length filter, and
      positions 0, 1 and 2 of a unit hold its title, method and first directions
      sentences. */
  predicate SoundRecords(data: seq<SentenceRecord>, countTokens: string -> nat) {
    forall i :: 0 <= i < |data| ==>
      Keep(data[i].sentence) && EndsWith(data[i].sentence, Eos) &&
      countTokens(data[i].sentence) < MaxTokens &&
      (data[i].sentenceId == 0 ==> IsTitleSentence(data[i].sentence)) &&
      (data[i].sentenceId == 1 ==> IsMethodSentence(data[i].sentence)) &&
      (data[i].sentenceId == 2 ==> IsFirstDirections(data[i].sentence))
  }

  /** Every unit of a document is headed: each group has at least one step. */
  lemma DocUnitsHeaded(doc: Document)
    ensures forall g :: 0 <= g < |DocUnits(doc)| ==> Headed(DocUnits(doc)[g])
  {
    var groups := GroupBySection(doc.steps);
    GroupBySectionIsGrouping(doc.steps);
    forall g | 0 <= g < |groups|
      ensures Headed(DocUnits(doc)[g])
    {
      assert |groups[g].steps| > 0;
      KeptUnitHead(doc.title, groups[g]);
      RenderUnitDelimited(doc.title, groups[g]);
    }
  }

  lemma {:induction false} AllUnitsHeaded(docs: seq<Document>)
    ensures forall u :: 0 <= u < |AllUnits(docs)| ==> Headed(AllUnits(docs)[u])
  {
    if docs != [] {
      var prefix := docs[..|docs| - 1];
      AllUnitsHeaded(prefix);
      DocUnitsHeaded(docs[|docs| - 1]);
    }
  }

  /** A unit is accepted exactly when it is one of the units and it fits: no
      partial inclusion, and nothing else gets in. */
  lemma {:induction false} AcceptedMembers(units: seq<seq<string>>, countTokens: string -> nat, u: seq<string>)
    ensures u in Accepted(units, countTokens) <==> u in units && Fits(u, countTokens)
  {
    if units != [] {
      var prefix := units[..|units| - 1];
      AcceptedMembers(prefix, countTokens, u);
      assert units == prefix + [units[|units| - 1]];
    }
  }

  lemma {:induction false} AcceptedHeaded(units: seq<seq<string>>, countTokens: string -> nat)
    requires forall u :: 0 <= u < |units| ==> Headed(units[u])
    ensures forall a :: 0 <= a < |Accepted(units, countTokens)| ==> Headed(Accepted(units, countTokens)[a])
  {
    if units != [] {
      AcceptedHeaded(units[..|units| - 1], countTokens);
    }
  }

  /** Appending the records of a unit of at least three sentences, numbered one past
      the last unit, keeps the list well formed. */
  lemma AppendUnit(data: seq<SentenceRecord>, kept: seq<string>, d: nat)
    requires WellFormed(data) && |kept| >= 3
    requires data == [] ==> d == 0
    requires data != [] ==> d == data[|data| - 1].docId + 1
    ensures WellFormed(data + UnitRecords(kept, d))
  {
    var unit := UnitRecords(kept, d);
    var r := data + unit;
    forall i | 0 <= i < |r|
      ensures r[i].sentenceId < r[i].totalDocSentences && r[i].totalDocSentences >= 3
    {
      if i >= |data| {
        assert r[i] == unit[i - |data|];
      }
    }
    forall i | 0 < i < |r|
      ensures Follows(r[i - 1], r[i])
    {
      if i > |data| {
        assert r[i - 1] == unit[i - 1 - |data|] && r[i] == unit[i - |data|];
      } else if i == |data| {
        assert r[i] == unit[0];
      }
    }
    assert r[|r| - 1] == unit[|kept| - 1];
  }

  /** Numbering headed units gives a well-formed list whose last record belongs
      to the last unit. */
  lemma {:induction false} NumberWellFormed(units: seq<seq<string>>)
    requires forall u :: 0 <= u < |units| ==> |Kept(units[u])| >= 3
    ensures WellFormed(Number(units))
    ensures units == [] <==> Number(units) == []
    ensures units != [] ==> Number(units)[|Number(units)| - 1].docId == |units| - 1
  {
    if units != [] {
      var n := |units| - 1;
      var prefix := units[..n];
      NumberWellFormed(prefix);
      var kept := Kept(units[n]);
      AppendUnit(Number(prefix), kept, n);
      var r := Number(units);
      assert r[|r| - 1] == UnitRecords(kept, n)[|kept| - 1];
    }
  }

  lemma AppendSound(data: seq<SentenceRecord>, unit: seq<string>, d: nat, countTokens: string -> nat)
    requires SoundRecords(data, countTokens) && Headed(unit) && Fits(unit, countTokens)
    ensures SoundRecords(data + UnitRecords(Kept(unit), d), countTokens)
  {
    var kept := Kept(unit);
    var records := UnitRecords(kept, d);
    var r := data + records;
    forall i | 0 <= i < |r|
      ensures Keep(r[i].sentence) && EndsWith(r[i].sentence, Eos) && countTokens(r[i].sentence) < MaxTokens
      ensures r[i].sentenceId == 0 ==> IsTitleSentence(r[i].sentence)
      ensures r[i].sentenceId == 1 ==> IsMethodSentence(r[i].sentence)
      ensures r[i].sentenceId == 2 ==> IsFirstDirections(r[i].sentence)
    {
      if i >= |data| {
        var k := i - |data|;
        assert r[i] == records[k];
        KeptFrom(unit, k);
      }
    }
  }

  lemma {:induction false} NumberSound(units: seq<seq<string>>, countTokens: string -> nat)
    requires forall u :: 0 <= u < |units| ==> Headed(units[u]) && Fits(units[u], countTokens)
    ensures SoundRecords(Number(units), countTokens)
  {
    if units != [] {
      var n := |units| - 1;
      NumberSound(units[..n], countTokens);
      AppendSound(Number(units[..n]), units[n], n, countTokens);
    }
  }

  /** The flattening invariants: contiguous units of at least three records,
      numbered from 0, every sentence kept and within the token budget, each
      unit opening with its title, method and first directions sentences. */
  lemma FlattenedWellFormed(docs: seq<Document>, countTokens: string -> nat)
    ensures WellFormed(Flattened(docs, countTokens))
    ensures SoundRecords(Flattened(docs, countTokens), countTokens)
  {
    var units := AllUnits(docs);
    var accepted := Accepted(units, countTokens);
    AllUnitsHeaded(docs);
    AcceptedHeaded(units, countTokens);
    NumberWellFormed(accepted);
    NumberSound(accepted, countTokens);
  }

  /** The number of units in the list, one more than the last unit number. */
  lemma FlattenedUnitCount(docs: seq<Document>, countTokens: string -> nat)
    ensures var data := Flattened(docs, countTokens);
      var accepted := Accepted(AllUnits(docs), countTokens);
      (data == [] <==> accepted == []) &&
      (data != [] ==> data[|data| - 1].docId + 1 == |accepted|)
  {
    var accepted := Accepted(AllUnits(docs), countTokens);
    AllUnitsHeaded(docs);
    AcceptedHeaded(AllUnits(docs), countTokens);
    NumberWellFormed(accepted);
  }

  lemma {:induction false} NumberPrefix(units: seq<seq<string>>, m: nat)
    requires m <= |units|
    ensures |Number(units[..m])| <= |Number(units)|
    ensures Number(units)[..|Number(units[..m])|] == Number(units[..m])
    decreases |units| - m
  {
    if m < |units| {
      var n := |units| - 1;
      assert units[..n][..m] == units[..m];
      NumberPrefix(units[..n], m);
    } else {
      assert units[..m] == units;
    }
  }

  /** Unit `d` occupies one block of the list, right after the records of the
      units before it, and the block holds exactly its kept sentences in order,
      numbered from 0, with its unit number and its length. */
  lemma UnitBlock(units: seq<seq<string>>, d: nat)
    requires d < |units|
    ensures var start := |Number(units[..d])|;
      var kept := Kept(units[d]);
      start + |kept| <= |Number(units)| &&
      Number(units)[start..start + |kept|] == UnitRecords(kept, d)
  {
    NumberPrefix(units, d + 1);
    assert units[..d + 1][..d] == units[..d];
    var kept := Kept(units[d]);
    var before := Number(units[..d]);
    assert Number(units[..d + 1]) == before + UnitRecords(kept, d);
    var all := Number(units);
    assert all[|before|..|before| + |kept|] == (before + UnitRecords(kept, d))[|before|..];
  }

  /** The dataset object: `processed_data` is built once, at construction. */
  class WikihowDataset {
    var processedData: seq<SentenceRecord>

    constructor (docs: seq<Document>, countTokens: string -> nat)
      ensures processedData == Flattened(docs, countTokens)
      ensures WellFormed(processedData) && SoundRecords(processedData, countTokens)
    {
      processedData := [];
      new;
      ProcessData(docs, countTokens);
    }

    /** `__len__`: one less than the number of records, so that every index it
        admits has a next record. */
    function Len(): (n: int)
      reads this
      ensures n + 1 == |processedData|
    {
      |processedData| - 1
    }

    /** `_process_data`: walk the documents, group each one's steps by method,
        render each group, skip it whole if a sentence is too long, otherwise
        number its kept sentences, back-fill the unit length and append. */
    method ProcessData(docs: seq<Document>, countTokens: string -> nat)
      modifies this
      ensures processedData == Flattened(docs, countTokens)
      ensures WellFormed(processedData) && SoundRecords(processedData, countTokens)
    {
      processedData := [];
      var docCounter: nat := 0;
      for i := 0 to |docs|
        invariant processedData == Number(Accepted(AllUnits(docs[..i]), countTokens))
        invariant docCounter == |Accepted(AllUnits(docs[..i]), countTokens)|
      {
        docCounter := ProcessDocument(docs[i], AllUnits(docs[..i]), docCounter, countTokens);
        AllUnitsSnoc(docs, i);
      }
      assert docs[..|docs|] == docs;
      FlattenedWellFormed(docs, countTokens);
    }

    /** One pass of the outer loop: group the document's steps by method and
        process each group in turn. */
    method ProcessDocument(doc: Document, ghost before: seq<seq<string>>,
                           docCounter: nat, countTokens: string -> nat) returns (counter: nat)
      requires processedData == Number(Accepted(before, countTokens))
      requires docCounter == |Accepted(before, countTokens)|
      modifies this
      ensures processedData == Number(Accepted(before + DocUnits(doc), countTokens))
      ensures counter == |Accepted(before + DocUnits(doc), countTokens)|
    {
      var method2steps := GroupSteps(doc.steps);
      ghost var units := DocUnits(doc);
      ghost var seen := before;
      counter := docCounter;
      for g := 0 to |method2steps|
        invariant seen == before + units[..g]
        invariant processedData == Number(Accepted(seen, countTokens))
        invariant counter == |Accepted(seen, countTokens)|
      {
        counter := ProcessGroup(doc.title, method2steps[g], seen, counter, countTokens);
        NextUnit(before, units, g);
        seen := seen + [units[g]];
      }
      assert units[..|method2steps|] == units;
    }

    /** One pass of the inner loop: render the group, skip it when a sentence is
        too long, otherwise append its numbered records under the next unit
        number. */
    method ProcessGroup(title: string, group: Group, ghost seen: seq<seq<string>>,
                        docCounter: nat, countTokens: string -> nat) returns (counter: nat)
      requires processedData == Number(Accepted(seen, countTokens))
      requires docCounter == |Accepted(seen, countTokens)|
      modifies this
      ensures processedData == Number(Accepted(seen + [RenderUnit(title, group)], countTokens))
      ensures counter == |Accepted(seen + [RenderUnit(title, group)], countTokens)|
    {
      var allSentences := RenderSentences(title, group);
      AcceptStep(seen, allSentences, countTokens);
      counter := docCounter;
      if !Fits(allSentences, countTokens) {
        assert Accepted(seen + [allSentences], countTokens) == Accepted(seen, countTokens);
        return;
      }
      var docInfo := BuildUnit(allSentences, docCounter);
      processedData := processedData + docInfo;
      counter := docCounter + 1;
    }
  }

  lemma NextUnit(before: seq<seq<string>>, units: seq<seq<string>>, g: nat)
    requires g < |units|
    ensures before + units[..g + 1] == before + units[..g] + [units[g]]
  {
    assert units[..g + 1] == units[..g] + [units[g]];
  }

  /** Processing one more unit: it is appended to the accepted units exactly when it
      fits, and then its records, numbered one past the last unit, follow. */
  lemma AcceptStep(seen: seq<seq<string>>, u: seq<string>, countTokens: string -> nat)
    ensures Accepted(seen + [u], countTokens) ==
      Accepted(seen, countTokens) + (if Fits(u, countTokens) then [u] else [])
    ensures Fits(u, countTokens) ==>
      Number(Accepted(seen + [u], countTokens)) ==
      Number(Accepted(seen, countTokens)) + UnitRecords(Kept(u), |Accepted(seen, countTokens)|)
  {
    assert (seen + [u])[..|seen|] == seen;
    var acc := Accepted(seen, countTokens);
    if Fits(u, countTokens) {
      assert (acc + [u])[..|acc|] == acc;
    }
  }

  lemma AllUnitsSnoc(docs: seq<Document>, i: nat)
    requires i < |docs|
    ensures AllUnits(docs[..i + 1]) == AllUnits(docs[..i]) + DocUnits(docs[i])
  {
    assert docs[..i + 1][..i] == docs[..i];
  }

  lemma Regroup<T>(h: seq<T>, a: seq<T>, b: seq<T>, c: seq<T>)
    ensures h + a + b + c == h + (a + b + c)
  {
  }

  lemma StepsSnoc(steps: seq<Step>, k: nat)
    requires k < |steps|
    ensures StepsSentences(steps[..k + 1]) ==
      StepsSentences(steps[..k]) + [Directions(k, steps[k].summary)] + BodySentences(steps[k].text)
  {
    assert steps[..k + 1][..k] == steps[..k];
  }

  /** The grouping loop: `method2steps[v['section']].append(v)` for each step. */
  method GroupSteps(steps: seq<Step>) returns (method2steps: seq<Group>)
    ensures method2steps == GroupBySection(steps)
    ensures GroupsOf(method2steps, steps)
  {
    method2steps := [];
    for j := 0 to |steps|
      invariant method2steps == GroupBySection(steps[..j])
    {
      assert steps[..j + 1][..j] == steps[..j];
      method2steps := AddStep(method2steps, steps[j]);
    }
    assert steps[..|steps|] == steps;
    GroupBySectionIsGrouping(steps);
  }

  /** The rendering loop: title and method sentences, then each step's directions
      and body sentences. */
  method RenderSentences(title: string, group: Group) returns (allSentences: seq<string>)
    ensures allSentences == RenderUnit(title, group)
    ensures |group.steps| > 0 ==> Headed(allSentences)
  {
    ghost var header := [TitleSentence(title), MethodSentence(group.name)];
    allSentences := [TitleSentence(title), MethodSentence(group.name)];
    for stepNum := 0 to |group.steps|
      invariant allSentences == header + StepsSentences(group.steps[..stepNum])
    {
      var step := group.steps[stepNum];
      StepsSnoc(group.steps, stepNum);
      var directions := [Directions(stepNum, step.summary)];
      var sentences := BodySentences(step.text);
      Regroup(header, StepsSentences(group.steps[..stepNum]), directions, sentences);
      allSentences := allSentences + directions + sentences;
    }
    assert group.steps[..|group.steps|] == group.steps;
    if |group.steps| > 0 {
      KeptUnitHead(title, group);
      RenderUnitDelimited(title, group);
    }
  }

  /** The record loop of one unit: skip empty and bare-delimiter sentences, number
      the rest from 0 under unit number `docCounter`, then back-fill the total. */
  method BuildUnit(allSentences: seq<string>, docCounter: nat) returns (docInfo: seq<SentenceRecord>)
    ensures docInfo == UnitRecords(Kept(allSentences), docCounter)
  {
    docInfo := [];
    var sentenceCounter: nat := 0;
    for s := 0 to |allSentences|
      invariant sentenceCounter == |Kept(allSentences[..s])| == |docInfo|
      invariant forall k :: 0 <= k < |docInfo| ==>
        docInfo[k] == SentenceRecord(Kept(allSentences[..s])[k], k, docCounter, 0)
    {
      var sentence := allSentences[s];
      assert allSentences[..s + 1][..s] == allSentences[..s];
      if sentence == "" {
        continue;
      }
      if sentence == Eos {
        continue;
      }
      docInfo := docInfo + [SentenceRecord(sentence, sentenceCounter, docCounter, 0)];
      sentenceCounter := sentenceCounter + 1;
    }
    assert allSentences[..|allSentences|] == allSentences;
    ghost var kept := Kept(allSentences);
    // the total is back-filled into the records already built
    for b := 0 to |docInfo|
      invariant |docInfo| == |kept| == sentenceCounter
      invariant forall k :: 0 <= k < b ==> docInfo[k] == SentenceRecord(kept[k], k, docCounter, sentenceCounter)
      invariant forall k :: b <= k < |docInfo| ==> docInfo[k] == SentenceRecord(kept[k], k, docCounter, 0)
    {
      docInfo := docInfo[b := docInfo[b].(totalDocSentences := sentenceCounter)];
    }
  }
}
