/** Sentence records and the shape of the flat record list: units laid end to
    end, each numbered 0..n-1, units numbered 0, 1, 2, ... in order. The
    samplers rely only on this shape. */
module Units {

  /** One entry of `processed_data`. */
  datatype SentenceRecord = SentenceRecord(
    sentence: string,
    sentenceId: nat,
    docId: nat,
    totalDocSentences: nat)

  /** How consecutive records relate: either `cur` opens the next unit right after
      the last record of `prev`'s unit, or it is the next sentence of the same unit. */
  predicate Follows(prev: SentenceRecord, cur: SentenceRecord) {
    if cur.sentenceId == 0 then
      prev.sentenceId + 1 == prev.totalDocSentences && cur.docId == prev.docId + 1
    else
      cur.docId == prev.docId && cur.sentenceId == prev.sentenceId + 1 &&
      cur.totalDocSentences == prev.totalDocSentences
  }

  /** Records of a unit are contiguous, numbered from 0 in order, agree on the unit
      length, the last one closes the unit, and units are numbered from 0 up by one. */
  predicate Contiguous(data: seq<SentenceRecord>) {
    (|data| > 0 ==>
      data[0].sentenceId == 0 && data[0].docId == 0 &&
      data[|data| - 1].sentenceId + 1 == data[|data| - 1].totalDocSentences) &&
    (forall i :: 0 <= i < |data| ==> data[i].sentenceId < data[i].totalDocSentences) &&
    (forall i :: 0 < i < |data| ==> Follows(data[i - 1], data[i]))
  }

  /** The shape the flattener produces: contiguous units of at least three records
      (title, method and at least one step). */
  predicate WellFormed(data: seq<SentenceRecord>) {
    Contiguous(data) && forall i :: 0 <= i < |data| ==> data[i].totalDocSentences >= 3
  }

  /** Same unit as record `i`. */
  predicate SameUnit(data: seq<SentenceRecord>, i: nat, j: nat)
    requires i < |data| && j < |data|
  {
    data[j].docId == data[i].docId && data[j].totalDocSentences == data[i].totalDocSentences &&
    j - data[j].sentenceId == i - data[i].sentenceId
  }

  lemma StepForward(data: seq<SentenceRecord>, i: nat)
    requires Contiguous(data) && i < |data|
    requires data[i].sentenceId + 1 < data[i].totalDocSentences
    ensures i + 1 < |data| && SameUnit(data, i, i + 1)
    ensures data[i + 1].sentenceId == data[i].sentenceId + 1
  {
    assert Follows(data[i], data[i + 1]);
  }

  lemma StepBack(data: seq<SentenceRecord>, i: nat)
    requires Contiguous(data) && i < |data|
    requires data[i].sentenceId > 0
    ensures i >= 1 && SameUnit(data, i, i - 1)
    ensures data[i - 1].sentenceId + 1 == data[i].sentenceId
  {
    assert Follows(data[i - 1], data[i]);
  }

  /** A unit starts at or after the beginning of the list. */
  lemma {:induction false} UnitStartInRange(data: seq<SentenceRecord>, i: nat)
    requires Contiguous(data) && i < |data|
    ensures data[i].sentenceId <= i
    decreases data[i].sentenceId
  {
    if data[i].sentenceId > 0 {
      StepBack(data, i);
      UnitStartInRange(data, i - 1);
    }
  }

  /** Position `p` of the unit of record `i` is at index `i - sentenceId + p`,
      and it is a record of the same unit with sentence id `p`. */
  lemma {:induction false} UnitPosition(data: seq<SentenceRecord>, i: nat, p: nat)
    requires Contiguous(data) && i < |data|
    requires p < data[i].totalDocSentences
    ensures data[i].sentenceId <= i
    ensures var j := i - data[i].sentenceId + p;
      j < |data| && SameUnit(data, i, j) && data[j].sentenceId == p
    decreases if p < data[i].sentenceId then data[i].sentenceId - p else p - data[i].sentenceId
  {
    var sid := data[i].sentenceId;
    UnitStartInRange(data, i);
    if p < sid {
      StepBack(data, i);
      UnitPosition(data, i - 1, p);
    } else if p > sid {
      StepForward(data, i);
      UnitPosition(data, i + 1, p);
    }
  }

  /** Unit numbers never decrease along the list. */
  lemma {:induction false} DocIdMonotone(data: seq<SentenceRecord>, j: nat, i: nat)
    requires Contiguous(data) && j <= i < |data|
    ensures data[j].docId <= data[i].docId
    decreases i - j
  {
    if j < i {
      assert Follows(data[i - 1], data[i]);
      DocIdMonotone(data, j, i - 1);
    }
  }

  /** A record before the start of `i`'s unit belongs to an earlier unit. */
  lemma EarlierUnit(data: seq<SentenceRecord>, j: nat, i: nat)
    requires Contiguous(data) && i < |data|
    requires j + data[i].sentenceId < i
    ensures data[j].docId < data[i].docId
  {
    UnitPosition(data, i, 0);
    var start := i - data[i].sentenceId;
    assert Follows(data[start - 1], data[start]);
    DocIdMonotone(data, j, start - 1);
  }

  /** A record after the end of `i`'s unit belongs to a later unit. */
  lemma LaterUnit(data: seq<SentenceRecord>, j: nat, i: nat)
    requires Contiguous(data) && i < |data| && j < |data|
    requires i - data[i].sentenceId + data[i].totalDocSentences <= j
    ensures data[j].docId > data[i].docId
  {
    var n := data[i].totalDocSentences;
    UnitPosition(data, i, n - 1);
    var end := i - data[i].sentenceId + n;
    assert Follows(data[end - 1], data[end]);
    DocIdMonotone(data, end, j);
  }

  /** The number of records of unit `d`. */
  function CountDoc(data: seq<SentenceRecord>, d: nat): (c: nat)
    ensures c <= |data|
  {
    if data == [] then 0
    else CountDoc(data[..|data| - 1], d) + (if data[|data| - 1].docId == d then 1 else 0)
  }

  /** The records of one contiguous range are those of unit `d`: there are as
      many of them as the range is long. */
  lemma {:induction false} CountRange(xs: seq<SentenceRecord>, d: nat, lo: nat, hi: nat)
    requires lo <= hi <= |xs|
    requires forall j :: 0 <= j < |xs| ==> (xs[j].docId == d <==> lo <= j < hi)
    ensures CountDoc(xs, d) == hi - lo
  {
    if xs != [] {
      var m := |xs| - 1;
      var lo', hi' := if lo < m then lo else m, if hi < m then hi else m;
      var prefix := xs[..m];
      assert forall j :: 0 <= j < |prefix| ==> prefix[j] == xs[j];
      CountRange(prefix, d, lo', hi');
    }
  }

  /** The records with the unit number of record `i` are exactly those of its unit. */
  lemma UnitSpan(data: seq<SentenceRecord>, i: nat)
    requires Contiguous(data) && i < |data|
    ensures data[i].sentenceId <= i
    ensures var start := i - data[i].sentenceId;
      start + data[i].totalDocSentences <= |data| &&
      forall j :: 0 <= j < |data| ==>
        (data[j].docId == data[i].docId <==> start <= j < start + data[i].totalDocSentences)
  {
    var n := data[i].totalDocSentences;
    UnitPosition(data, i, 0);
    UnitPosition(data, i, n - 1);
    var start := i - data[i].sentenceId;
    forall j | 0 <= j < |data|
      ensures data[j].docId == data[i].docId <==> start <= j < start + n
    {
      if j < start {
        EarlierUnit(data, j, i);
      } else if j >= start + n {
        LaterUnit(data, j, i);
      } else {
        UnitPosition(data, i, j - start);
      }
    }
  }

  /** The back-filled total of a record is the number of records of its unit. */
  lemma TotalIsCount(data: seq<SentenceRecord>, i: nat)
    requires Contiguous(data) && i < |data|
    ensures CountDoc(data, data[i].docId) == data[i].totalDocSentences
  {
    UnitSpan(data, i);
    var start := i - data[i].sentenceId;
    CountRange(data, data[i].docId, start, start + data[i].totalDocSentences);
  }
}
