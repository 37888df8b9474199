/** The three `__getitem__` samplers. Each reads the flat record list by index
    arithmetic inside one unit; the random draws are parameters. They rely only
    on the shape the flattener guarantees (`Contiguous`, or `WellFormed` where a
    unit of at least three records is needed). */
module Samplers {
  import opened Units

  function Min(a: int, b: int): int { if a < b then a else b }

  function Max(a: int, b: int): int { if a < b then b else a }

  /** The window of `k` sentences starting at position `sid` of a unit of `total`
      sentences, pulled back from the end when it would run past it:
      `tp1 = min(total - 1, sid + k)` and `t = max(0, tp1 - k)`. */
  function Window(total: nat, sid: nat, k: nat): (w: (nat, nat))
    requires sid < total
    ensures w.0 <= sid <= w.1 < total
    ensures w.1 - w.0 == Min(k, total - 1)
    ensures w.0 == sid || w.1 == total - 1
  {
    var tp1 := Min(total - 1, sid + k);
    var t := Max(0, tp1 - k);
    (t, tp1)
  }

  /** The window of the record at `index`, resolved to global indices
      `index + (t - sid)` and `index + (tp1 - sid)`. */
  function WindowIndices(data: seq<SentenceRecord>, index: nat, k: nat): (p: (nat, nat))
    requires Contiguous(data) && index < |data|
    ensures p.0 <= index <= p.1 < |data|
    ensures SameUnit(data, index, p.0) && SameUnit(data, index, p.1)
    ensures (data[p.0].sentenceId, data[p.1].sentenceId) ==
      Window(data[index].totalDocSentences, data[index].sentenceId, k)
  {
    var u := data[index];
    var w := Window(u.totalDocSentences, u.sentenceId, k);
    UnitPosition(data, index, w.0);
    UnitPosition(data, index, w.1);
    (index - u.sentenceId + w.0, index - u.sentenceId + w.1)
  }

  /** What `WikihowDiscourse.__getitem__` returns; `labelBit` is the drawn bit. */
  datatype DiscourseItem = DiscourseItem(
    yT: string, yTp1: string, labelBit: nat, idx: nat, t: nat, tp1: nat)

  /** `WikihowDiscourse.__getitem__` with the bit `coin` drawn by `randint(0, 1)`. */
  function Discourse(data: seq<SentenceRecord>, index: nat, k: nat, coin: nat): (r: DiscourseItem)
    requires Contiguous(data) && index < |data| && coin <= 1
    ensures r.t <= index <= r.tp1 < |data|
    ensures data[r.t].docId == data[r.tp1].docId == data[index].docId
    ensures r.tp1 - r.t == Min(k, data[index].totalDocSentences - 1)
    ensures coin == 1 ==> r.yT == data[r.t].sentence && r.yTp1 == data[r.tp1].sentence
    ensures coin == 0 ==> r.yT == data[r.tp1].sentence && r.yTp1 == data[r.t].sentence
    ensures r.labelBit == coin && r.idx == index
    ensures (r.t, r.tp1) == WindowIndices(data, index, k)
  {
    var (t, tp1) := WindowIndices(data, index, k);
    var yT := data[t];
    var yTp1 := data[tp1];
    // the source's `assert y_t['doc_id'] == y_tp1['doc_id']`
    assert yT.docId == yTp1.docId;
    if coin == 1 then DiscourseItem(yT.sentence, yTp1.sentence, coin, index, t, tp1)
    else DiscourseItem(yTp1.sentence, yT.sentence, coin, index, t, tp1)
  }

  /** The coin only decides the order of the pair: everything else is the same. */
  lemma DiscourseLabelSwaps(data: seq<SentenceRecord>, index: nat, k: nat)
    requires Contiguous(data) && index < |data|
    ensures var inOrder := Discourse(data, index, k, 1);
      var swapped := Discourse(data, index, k, 0);
      swapped == inOrder.(yT := inOrder.yTp1, yTp1 := inOrder.yT, labelBit := 0)
  {
  }

  /** `list(range(lo, hi))`. */
  function Interval(lo: nat, hi: nat): (r: seq<nat>)
    requires lo <= hi
    ensures |r| == hi - lo
    ensures forall i :: 0 <= i < |r| ==> r[i] == lo + i
    ensures forall v :: v in r <==> lo <= v < hi
    decreases hi - lo
  {
    if lo == hi then [] else [lo] + Interval(lo + 1, hi)
  }

  /** Python's `list.remove(x)`: drop the first occurrence of `x`. */
  function RemoveFirst(xs: seq<nat>, x: nat): (r: seq<nat>)
    requires x in xs
    ensures |r| == |xs| - 1
  {
    if xs[0] == x then xs[1..]
    else [xs[0]] + RemoveFirst(xs[1..], x)
  }

  /** `remove` takes away one copy of `x` and nothing else. */
  lemma {:induction false} RemoveFirstOne(xs: seq<nat>, x: nat)
    requires x in xs
    ensures multiset(RemoveFirst(xs, x)) + multiset{x} == multiset(xs)
  {
    assert xs == [xs[0]] + xs[1..];
    if xs[0] != x {
      RemoveFirstOne(xs[1..], x);
    }
  }

  /** Removing `x` from `range(lo, hi)` leaves the numbers on either side of it. */
  lemma {:induction false} RemoveFromInterval(lo: nat, x: nat, hi: nat)
    requires lo <= x < hi
    ensures RemoveFirst(Interval(lo, hi), x) == Interval(lo, x) + Interval(x + 1, hi)
    decreases x - lo
  {
    var xs := Interval(lo, hi);
    assert xs[0] == lo && xs[1..] == Interval(lo + 1, hi);
    if lo < x {
      RemoveFromInterval(lo + 1, x, hi);
      assert Interval(lo, x) == [lo] + Interval(lo + 1, x);
    } else {
      assert Interval(lo, x) == [];
    }
  }

  /** The two picks of the Triplet sampler: `t1 = nums[draw1]` from `range(T)`,
      then `t2 = nums[draw2]` from what is left after `nums.remove(t1)`, then the
      pair put in order. */
  function Pick(bigT: nat, draw1: nat, draw2: nat): (p: (nat, nat))
    requires draw1 < bigT && draw2 + 1 < bigT
    ensures p.0 < p.1 < bigT
    ensures p.0 == draw1 || p.1 == draw1
  {
    var nums := Interval(0, bigT);
    var t1 := nums[draw1];
    var rest := RemoveFirst(nums, t1);
    var t2 := rest[draw2];
    RemoveFromInterval(0, t1, bigT);
    assert t2 != t1 by {
      assert rest == Interval(0, t1) + Interval(t1 + 1, bigT);
    }
    if t2 < t1 then (t2, t1) else (t1, t2)
  }

  /** Every ordered pair below `T` comes out of the draws, whichever of its two
      numbers is drawn first. */
  lemma PickReaches(bigT: nat, a: nat, b: nat)
    requires a < b < bigT
    ensures Pick(bigT, a, b - 1) == (a, b)
    ensures Pick(bigT, b, a) == (a, b)
  {
    RemoveFromInterval(0, a, bigT);
    RemoveFromInterval(0, b, bigT);
    var restA := Interval(0, a) + Interval(a + 1, bigT);
    assert restA[b - 1] == b;
    var restB := Interval(0, b) + Interval(b + 1, bigT);
    assert restB[a] == a;
  }

  /** The start of a sequence moves to its third record: `+2` from the title,
      `+1` from the method sentence. */
  function Advance(data: seq<SentenceRecord>, index: nat): (e: nat)
    requires WellFormed(data) && index < |data|
    ensures e < |data| && SameUnit(data, index, e)
    ensures data[e].sentenceId == Max(2, data[index].sentenceId)
  {
    var sid := data[index].sentenceId;
    UnitPosition(data, index, Max(2, sid));
    if sid == 0 then index + 2
    else if sid == 1 then index + 1
    else index
  }

  /** What `WikihowTriplet.__getitem__` returns. */
  datatype TripletItem = TripletItem(
    y0: string, yMid: string, yEnd: string, tFirst: nat, tSecond: nat, bigT: nat, totalT: nat)

  /** `WikihowTriplet.__getitem__` with the two `random.choice` draws given as
      positions in the list they choose from. */
  function Triplet(data: seq<SentenceRecord>, index: nat, draw1: nat, draw2: nat): (r: TripletItem)
    requires WellFormed(data) && index < |data|
    requires draw1 < Max(2, data[index].sentenceId)
    requires draw2 + 1 < Max(2, data[index].sentenceId)
    ensures r.bigT >= 2 && r.bigT == Max(2, data[index].sentenceId)
    ensures r.tFirst < r.tSecond < r.bigT < r.totalT == data[index].totalDocSentences
    ensures (r.tFirst, r.tSecond) == Pick(r.bigT, draw1, draw2)
    ensures data[index].sentenceId <= index
    ensures var start := index - data[index].sentenceId;
      start + r.bigT < |data| &&
      r.y0 == data[start + r.tFirst].sentence &&
      r.yMid == data[start + r.tSecond].sentence &&
      r.yEnd == data[start + r.bigT].sentence &&
      data[start + r.tFirst].docId == data[start + r.tSecond].docId ==
        data[start + r.bigT].docId == data[index].docId &&
      data[start + r.tFirst].sentenceId == r.tFirst &&
      data[start + r.tSecond].sentenceId == r.tSecond &&
      data[start + r.bigT].sentenceId == r.bigT
  {
    var e := Advance(data, index);
    var utterance := data[e];
    var bigT := utterance.sentenceId;
    var (t1, t2) := Pick(bigT, draw1, draw2);
    UnitPosition(data, e, t1);
    UnitPosition(data, e, t2);
    // the source's `assert t1 < t2 and t2 < T`
    assert t1 < t2 < bigT;
    TripletItem(data[e - bigT + t1].sentence, data[e - bigT + t2].sentence, data[e].sentence,
      t1, t2, bigT, utterance.totalDocSentences)
  }

  /** The record `lag` places back within the unit of record `a`, or record `a`
      itself when the unit starts less than `lag` places back. */
  function Back(data: seq<SentenceRecord>, a: nat, lag: nat): (r: SentenceRecord)
    requires Contiguous(data) && a < |data|
    ensures r.docId == data[a].docId
    ensures lag <= data[a].sentenceId ==> r.sentenceId + lag == data[a].sentenceId
    ensures lag <= data[a].sentenceId ==> lag <= a && r == data[a - lag]
    ensures lag > data[a].sentenceId ==> r == data[a]
  {
    UnitStartInRange(data, a);
    if lag <= data[a].sentenceId then
      UnitPosition(data, a, data[a].sentenceId - lag);
      data[a - lag]
    else data[a]
  }

  /** The record `lag` places back exists and shares the unit number of record `a`
      exactly when the unit of `a` starts at least `lag` places back. */
  lemma SameDocWithinUnit(data: seq<SentenceRecord>, a: nat, lag: nat)
    requires Contiguous(data) && a < |data|
    ensures (lag <= a && data[a - lag].docId == data[a].docId) <==> lag <= data[a].sentenceId
  {
    UnitStartInRange(data, a);
    if lag <= data[a].sentenceId {
      UnitPosition(data, a, data[a].sentenceId - lag);
    } else if lag <= a {
      EarlierUnit(data, a - lag, a);
    }
  }

  /** The source's `y_tm{lag}`: `data[a]` if `a - lag < 0` or the record `lag`
      back has another `doc_id`, else that record. */
  function Lag(data: seq<SentenceRecord>, a: nat, lag: nat): (r: SentenceRecord)
    requires Contiguous(data) && a < |data|
    ensures r == Back(data, a, lag)
  {
    SameDocWithinUnit(data, a, lag);
    if a < lag || data[a].docId != data[a - lag].docId then data[a]
    else data[a - lag]
  }

  /** The record the `k == 1` branch pairs with its successor: `index`, or the one
      before it when `index` closes its unit. */
  function TpkAnchor(data: seq<SentenceRecord>, index: nat): (a: nat)
    requires WellFormed(data) && index + 1 < |data|
    ensures a + 1 < |data| && SameUnit(data, index, a) && SameUnit(data, index, a + 1)
    ensures data[a + 1].sentenceId == data[a].sentenceId + 1
    ensures a == index <==> data[index].sentenceId + 1 < data[index].totalDocSentences
    ensures a != index ==> a + 1 == index
  {
    var sid := data[index].sentenceId;
    assert Follows(data[index], data[index + 1]);
    if data[index].docId != data[index + 1].docId then
      UnitPosition(data, index, sid - 1);
      index - 1
    else
      UnitPosition(data, index, sid + 1);
      index
  }

  /** What `WikihowTPK.__getitem__` returns. */
  datatype TpkItem = TpkItem(yT: string, yTm1: string, yTm2: string, yTm3: string, yTpk: string)

  /** `WikihowTPK.__getitem__`: the pair is adjacent when `k == 1`, the window of
      `k` otherwise; three backward lags follow. */
  function Tpk(data: seq<SentenceRecord>, index: nat, k: nat): (r: TpkItem)
    requires WellFormed(data) && index < |data|
    requires k == 1 ==> index + 1 < |data|
    ensures k == 1 ==>
      var a := TpkAnchor(data, index);
      r.yT == data[a].sentence && r.yTpk == data[a + 1].sentence &&
      r.yTm1 == Back(data, a, 1).sentence && r.yTm2 == Back(data, a, 2).sentence &&
      r.yTm3 == Back(data, a, 3).sentence
    ensures k != 1 ==>
      var w := WindowIndices(data, index, k);
      r.yT == data[w.0].sentence && r.yTpk == data[w.1].sentence &&
      r.yTm1 == Back(data, index, 1).sentence && r.yTm2 == Back(data, index, 2).sentence &&
      r.yTm3 == Back(data, index, 3).sentence
  {
    if k == 1 then
      var a := TpkAnchor(data, index);
      TpkItem(data[a].sentence, Lag(data, a, 1).sentence, Lag(data, a, 2).sentence,
        Lag(data, a, 3).sentence, data[a + 1].sentence)
    else
      var (t, tp1) := WindowIndices(data, index, k);
      TpkItem(data[t].sentence, Lag(data, index, 1).sentence, Lag(data, index, 2).sentence,
        Lag(data, index, 3).sentence, data[tp1].sentence)
  }

  /** With `k == 1` the adjacent pair is the window of one step from the original
      index; only the lags differ, taken from the moved index. */
  lemma TpkAdjacentIsWindow(data: seq<SentenceRecord>, index: nat)
    requires WellFormed(data) && index + 1 < |data|
    ensures var w := WindowIndices(data, index, 1);
      Tpk(data, index, 1).yT == data[w.0].sentence && Tpk(data, index, 1).yTpk == data[w.1].sentence
  {
    var w := WindowIndices(data, index, 1);
    var a := TpkAnchor(data, index);
    assert w.0 == a && w.1 == a + 1;
  }
}
