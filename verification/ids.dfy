/** Record identifiers. Every page allocates a new id as one more than the
    largest id in its list (`Math.max(...list.map(r => r.id)) + 1`). */
module Ids {

  /** No id occurs twice. */
  predicate Unique(ids: seq<int>) {
    forall i, j :: 0 <= i < j < |ids| ==> ids[i] != ids[j]
  }

  /** The ids of a list of records, in list order. */
  function IdsOf<R>(records: seq<R>, id: R -> int): (ids: seq<int>)
    ensures |ids| == |records|
    ensures forall i :: 0 <= i < |records| ==> ids[i] == id(records[i])
  {
    seq(|records|, i requires 0 <= i < |records| => id(records[i]))
  }

  function Max(ids: seq<int>): (m: int)
    requires |ids| > 0
    ensures m in ids
    ensures forall i :: 0 <= i < |ids| ==> ids[i] <= m
  {
    if |ids| == 1 then ids[0]
    else
      var rest := Max(ids[1..]);
      assert forall i :: 1 <= i < |ids| ==> ids[i] == ids[1..][i - 1];
      if ids[0] >= rest then ids[0] else rest
  }

  /** The id given to a new record: the largest id plus one, and 1 for an
      empty list. It is larger than, so different from, every id in use. */
  function NextId(ids: seq<int>): (r: int)
    ensures forall i :: 0 <= i < |ids| ==> ids[i] < r
    ensures |ids| > 0 ==> r - 1 in ids
    ensures |ids| == 0 ==> r == 1
  {
    if |ids| == 0 then 1 else Max(ids) + 1
  }

  /** Putting a fresh id in front of or behind a list of unique ids keeps
      them unique. */
  lemma NextIdKeepsUnique(ids: seq<int>)
    requires Unique(ids)
    ensures Unique([NextId(ids)] + ids)
    ensures Unique(ids + [NextId(ids)])
  {
    var n := NextId(ids);
    var front := [n] + ids;
    forall i, j | 0 <= i < j < |front| ensures front[i] != front[j] {
      if i > 0 { assert front[i] == ids[i - 1] && front[j] == ids[j - 1]; }
      else { assert front[j] == ids[j - 1]; }
    }
    var back := ids + [n];
    forall i, j | 0 <= i < j < |back| ensures back[i] != back[j] {
      assert back[i] == ids[i];
    }
  }

  /** The numbers `Math.max` can return over a list of integer ids:
      `-Infinity` for an empty list, and integers. */
  datatype JsNumber = NegativeInfinity | Finite(n: int)

  /** `Math.max(a, b)`: the larger finite number, `-Infinity` only when
      both are. */
  function JsMax2(a: JsNumber, b: JsNumber): (r: JsNumber)
    ensures r == a || r == b
    ensures r == NegativeInfinity <==> a == NegativeInfinity && b == NegativeInfinity
    ensures a.Finite? && r.Finite? ==> a.n <= r.n
    ensures b.Finite? && r.Finite? ==> b.n <= r.n
  {
    match (a, b)
    case (NegativeInfinity, _) => b
    case (_, NegativeInfinity) => a
    case (Finite(x), Finite(y)) => if x >= y then a else b
  }

  /** `Math.max(...xs)`. */
  function JsMax(xs: seq<JsNumber>): (r: JsNumber)
    ensures r == NegativeInfinity <==> forall i :: 0 <= i < |xs| ==> xs[i] == NegativeInfinity
    ensures r.Finite? ==> r in xs
    ensures forall i :: 0 <= i < |xs| && xs[i].Finite? ==> r.Finite? && xs[i].n <= r.n
    decreases |xs|
  {
    if |xs| == 0 then NegativeInfinity
    else
      var rest := JsMax(xs[1..]);
      assert forall i :: 1 <= i < |xs| ==> xs[i] == xs[1..][i - 1];
      JsMax2(xs[0], rest)
  }

  /** `Math.max(...ids) + 1` exactly as the pages compute it: adding 1 to
      `-Infinity` leaves `-Infinity`. */
  function NextIdAsWritten(ids: seq<JsNumber>): (r: JsNumber)
    ensures r == NegativeInfinity <==> forall i :: 0 <= i < |ids| ==> ids[i] == NegativeInfinity
    ensures r.Finite? ==> Finite(r.n - 1) in ids
    ensures forall i :: 0 <= i < |ids| && ids[i].Finite? ==> r.Finite? && ids[i].n < r.n
  {
    match JsMax(ids)
    case NegativeInfinity => NegativeInfinity
    case Finite(m) => Finite(m + 1)
  }

  function AsNumbers(ids: seq<int>): (xs: seq<JsNumber>)
    ensures |xs| == |ids|
    ensures forall i :: 0 <= i < |ids| ==> xs[i] == Finite(ids[i])
  {
    seq(|ids|, i requires 0 <= i < |ids| => Finite(ids[i]))
  }

  /** On a non-empty list the pages' computation and `NextId` agree. */
  lemma {:induction false} NextIdAgreesWhenNonEmpty(ids: seq<int>)
    requires |ids| > 0
    ensures NextIdAsWritten(AsNumbers(ids)) == Finite(NextId(ids))
  {
    MaxAgrees(ids);
  }

  lemma {:induction false} MaxAgrees(ids: seq<int>)
    requires |ids| > 0
    ensures JsMax(AsNumbers(ids)) == Finite(Max(ids))
    decreases |ids|
  {
    var xs := AsNumbers(ids);
    if |ids| == 1 {
      assert xs[1..] == [];
    } else {
      assert xs[1..] == AsNumbers(ids[1..]);
      MaxAgrees(ids[1..]);
    }
  }

  /** On an empty list the pages' computation yields `-Infinity`, and a
      second record added after it gets `-Infinity` again: the two records
      share one id. */
  lemma AsWrittenIdsCollideOnEmptyList()
    ensures NextIdAsWritten([]) == NegativeInfinity
    ensures NextIdAsWritten([NextIdAsWritten([])]) == NextIdAsWritten([])
  {
    assert [NegativeInfinity][1..] == [];
  }
}
